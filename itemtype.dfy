/** ItemType.swift: the five item kinds, a `String`-raw-value `Codable` enum. */
module ItemTypes {
  import opened Wrappers
  import opened Json

  datatype ItemType = Comment | Job | Poll | Pollopt | Story

  /** `allCases`, in declaration order. */
  const AllCases: seq<ItemType> := [Comment, Job, Poll, Pollopt, Story]

  function RawValue(t: ItemType): string
  {
    match t
    case Comment => "comment"
    case Job => "job"
    case Poll => "poll"
    case Pollopt => "pollopt"
    case Story => "story"
  }

  /** `init?(rawValue:)`: exact, case-sensitive match. */
  function FromRawValue(s: string): Option<ItemType>
  {
    if s == "comment" then Some(Comment)
    else if s == "job" then Some(Job)
    else if s == "poll" then Some(Poll)
    else if s == "pollopt" then Some(Pollopt)
    else if s == "story" then Some(Story)
    else None
  }

  /** The synthesized `encode(to:)`: the raw value as a JSON string. */
  function Encode(t: ItemType): JsonValue
  {
    JString(RawValue(t))
  }

  /** The synthesized `init(from:)`: a string that is not a raw value is corrupt data. */
  function Decode(v: JsonValue): Result<ItemType, DecodeError>
  {
    match v
    case JNull => Failure(ValueNotFound)
    case JString(s) =>
      (match FromRawValue(s)
       case Some(t) => Success(t)
       case None => Failure(DataCorrupted))
    case _ => Failure(TypeMismatch)
  }

  /** A JSON value decodes to `t` exactly when it is the string `RawValue(t)`. */
  lemma Decoded(v: JsonValue, t: ItemType)
    ensures Decode(v) == Success(t) <==> v == JString(RawValue(t))
  {
  }

  lemma RoundTrip(t: ItemType)
    ensures Decode(Encode(t)) == Success(t)
  {
  }

  /** The camel-case spelling is not a raw value. */
  lemma CamelCasePollOptRejected()
    ensures Decode(JString("pollOpt")) == Failure(DataCorrupted)
  {
  }

  /** Five cases, each once, with distinct raw values, in declaration order. */
  lemma AllCasesComplete(t: ItemType)
    ensures |AllCases| == 5 && t in AllCases
    ensures [RawValue(AllCases[0]), RawValue(AllCases[1]), RawValue(AllCases[2]), RawValue(AllCases[3]), RawValue(AllCases[4])]
         == ["comment", "job", "poll", "pollopt", "story"]
    ensures forall i, j :: 0 <= i < j < |AllCases| ==> RawValue(AllCases[i]) != RawValue(AllCases[j])
  {
  }
}
