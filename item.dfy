/** Item.swift: the item tagged union, its decoder that dispatches on the
    `type` member, and its `id` projection. */
module Items {
  import opened Wrappers
  import opened Json
  import Jobs
  import Stories
  import Comments
  import Polls
  import PollOpts
  import ItemTypes

  datatype Item =
    | Job(job: Jobs.Job)
    | Story(story: Stories.Story)
    | Comment(comment: Comments.Comment)
    | Poll(poll: Polls.Poll)
    | PollOpt(pollOpt: PollOpts.PollOpt)
    | Unknown
  {
    /** `id`: the payload's id, and -1 for every unknown item. */
    function Id(): ItemID
    {
      match this
      case Job(j) => j.id
      case Story(s) => s.id
      case Comment(c) => c.id
      case Poll(p) => p.id
      case PollOpt(o) => o.id
      case Unknown => UNKNOWN_ID
    }
  }

  const UNKNOWN_ID: ItemID := -1

  /** The five discriminants the decoder recognises, spelled exactly. */
  const KnownTags: set<string> := {"job", "story", "comment", "poll", "pollOpt"}

  /** The `type` member as the decoder reads it: present, not null, a string. */
  function Tag(v: JsonValue): Option<string>
  {
    if v.JObject? then Required(v.fields, "type", DecodeString).ToOption() else None
  }

  /** `init(from:)`: the keyed container needs an object, `type` must be a
      string, and a recognised tag decodes the same object as that payload. */
  function Decode(v: JsonValue): Result<Item, DecodeError>
  {
    if !v.JObject? then Failure(TypeMismatch)
    else
      var tag :- Required(v.fields, "type", DecodeString);
      if tag == "job" then
        var j :- Jobs.Decode(v); Success(Job(j))
      else if tag == "story" then
        var s :- Stories.Decode(v); Success(Story(s))
      else if tag == "comment" then
        var c :- Comments.Decode(v); Success(Comment(c))
      else if tag == "poll" then
        var p :- Polls.Decode(v); Success(Poll(p))
      else if tag == "pollOpt" then
        var o :- PollOpts.Decode(v); Success(PollOpt(o))
      else
        Success(Unknown)
  }

  /** A missing, null or non-string `type` makes the decode throw; it never
      produces an unknown item. */
  lemma TagRequired(v: JsonValue)
    requires Tag(v).None?
    ensures Decode(v).Failure?
  {
  }

  /** A tag outside the five yields `.unknown`, and only such a tag does. */
  lemma UnknownExactlyForOtherTags(v: JsonValue)
    ensures Decode(v) == Success(Unknown) <==> Tag(v).Some? && Tag(v).value !in KnownTags
  {
  }

  /** Each recognised tag selects its own variant, decoded from the same
      object; when that payload fails the whole decode fails. */
  lemma KnownTagSelectsVariant(v: JsonValue)
    ensures Tag(v) == Some("job") ==>
      Decode(v) == (match Jobs.Decode(v) case Success(j) => Success(Job(j)) case Failure(e) => Failure(e))
    ensures Tag(v) == Some("story") ==>
      Decode(v) == (match Stories.Decode(v) case Success(s) => Success(Story(s)) case Failure(e) => Failure(e))
    ensures Tag(v) == Some("comment") ==>
      Decode(v) == (match Comments.Decode(v) case Success(c) => Success(Comment(c)) case Failure(e) => Failure(e))
    ensures Tag(v) == Some("poll") ==>
      Decode(v) == (match Polls.Decode(v) case Success(p) => Success(Poll(p)) case Failure(e) => Failure(e))
    ensures Tag(v) == Some("pollOpt") ==>
      Decode(v) == (match PollOpts.Decode(v) case Success(o) => Success(PollOpt(o)) case Failure(e) => Failure(e))
  {
  }

  /** The lower-case `pollopt` that `ItemType` uses is not recognised: such a
      record is an unknown item even when it holds a valid poll option. */
  lemma LowercasePollOptIsUnknown(v: JsonValue)
    requires Tag(v) == Some(ItemTypes.RawValue(ItemTypes.Pollopt))
    ensures Decode(v) == Success(Unknown) && Decode(v).value.Id() == -1
  {
  }

  /** Of the five `ItemType` raw values, all but `pollopt` select a variant. */
  lemma ItemTypeTags(v: JsonValue, t: ItemTypes.ItemType)
    requires Tag(v) == Some(ItemTypes.RawValue(t))
    ensures Decode(v) == Success(Unknown) <==> t == ItemTypes.Pollopt
  {
  }

  /** A concrete poll option sent with `"type": "pollopt"`. */
  lemma PollOptRecordExample()
    ensures var m := map["type" := JString("pollopt"), "id" := JNumber(160705), "poll" := JNumber(160704),
                         "by" := JString("pg"), "score" := JNumber(335), "time" := JNumber(1207886576)];
      && PollOpts.Decode(JObject(m)) == Success(PollOpts.PollOpt(160705, 160704, "pg", 335, None, 1207886576))
      && Decode(JObject(m)) == Success(Unknown)
  {
  }

  /** The id of a decoded, known item is the record's `id` member. */
  lemma DecodedIdIsWireId(v: JsonValue, item: Item)
    requires Decode(v) == Success(item) && !item.Unknown?
    ensures v.JObject? && Read(v.fields, "id") == Some(JNumber(item.Id()))
  {
    match item
    case Job(j) => Jobs.Decoded(v.fields, j);
    case Story(s) => Stories.Decoded(v.fields, s);
    case Comment(c) => Comments.Decoded(v.fields, c);
    case Poll(p) => Polls.Decoded(v.fields, p);
    case PollOpt(o) => PollOpts.Decoded(v.fields, o);
  }

  /** All unknown items share the one id -1. */
  lemma UnknownsShareId(a: Item, b: Item)
    requires a.Unknown? && b.Unknown?
    ensures a.Id() == b.Id() == -1
  {
  }
}
