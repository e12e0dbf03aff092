/** PollOpt.swift: a poll option record and its synthesized `Decodable` conformance. */
module PollOpts {
  import opened Wrappers
  import opened Json

  datatype PollOpt = PollOpt(
    id: ItemID,
    poll: ItemID,                       // the owning poll
    author: Username,                   // `by`, a reserved word in Dafny
    score: Int64,
    text: Option<string>,
    time: Date)

  /** The wire keys the struct declares; every other key is ignored. */
  const Keys: set<string> := {"id", "poll", "by", "score", "text", "time"}
  const RequiredKeys: set<string> := {"id", "poll", "by", "score", "time"}

  /** The synthesized `init(from:)`: members in declaration order, the first failure thrown. */
  function Decode(v: JsonValue): Result<PollOpt, DecodeError>
  {
    if !v.JObject? then Failure(TypeMismatch)
    else
      var m := v.fields;
      var id :- Required(m, "id", DecodeInt);
      var poll :- Required(m, "poll", DecodeInt);
      var author :- Required(m, "by", DecodeString);
      var score :- Required(m, "score", DecodeInt);
      var text :- Optional(m, "text", DecodeString);
      var time :- Required(m, "time", DecodeDate);
      Success(PollOpt(id, poll, author, score, text, time))
  }

  /** The object `m` holds poll option `o`: each declared member reads as the
      corresponding field (an absent optional as none, a list in its order). */
  ghost predicate WireOf(m: Record, o: PollOpt)
  {
    && Read(m, "id") == Some(JNumber(o.id))
    && Read(m, "poll") == Some(JNumber(o.poll))
    && Read(m, "by") == Some(JString(o.author))
    && Read(m, "score") == Some(JNumber(o.score))
    && Read(m, "text") == OptionalString(o.text)
    && Read(m, "time") == Some(JNumber(o.time))
  }

  /** Decoding yields `o` exactly when the object holds `o`. */
  lemma Decoded(m: Record, o: PollOpt)
    ensures Decode(JObject(m)) == Success(o) <==> WireOf(m, o)
  {
    RequiredInt(m, "id", o.id);
    RequiredInt(m, "poll", o.poll);
    RequiredString(m, "by", o.author);
    RequiredInt(m, "score", o.score);
    OptionalStringMember(m, "text", o.text);
    RequiredDate(m, "time", o.time);
  }

  /** A missing (or null) required member makes the decode throw. */
  lemma MissingRequiredFails(m: Record, key: string)
    requires key in RequiredKeys && Read(m, key) == None
    ensures Decode(JObject(m)).Failure?
  {
    if Decode(JObject(m)).Success? {
      Decoded(m, Decode(JObject(m)).value);
    }
  }

  /** Members the struct does not declare do not affect the result. */
  lemma IgnoresUndeclaredKeys(m: Record, m': Record)
    requires AgreeOn(m, m', Keys)
    ensures Decode(JObject(m)) == Decode(JObject(m'))
  {
    assert Lookup(m, "id") == Lookup(m', "id");
    assert Lookup(m, "poll") == Lookup(m', "poll");
    assert Lookup(m, "by") == Lookup(m', "by");
    assert Lookup(m, "score") == Lookup(m', "score");
    assert Lookup(m, "text") == Lookup(m', "text");
    assert Lookup(m, "time") == Lookup(m', "time");
  }
}
