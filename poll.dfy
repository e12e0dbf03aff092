/** Poll.swift: a poll record and its synthesized `Decodable` conformance. */
module Polls {
  import opened Wrappers
  import opened Json

  datatype Poll = Poll(
    id: ItemID,
    descendants: Int64,
    author: Username,                   // `by`, a reserved word in Dafny
    kids: Option<seq<ItemID>>,          // comment ids in ranked display order
    parts: seq<ItemID>,                 // poll option ids in display order
    score: Int64,
    title: string,
    text: Option<string>,
    time: Date)

  /** The wire keys the struct declares; every other key is ignored. */
  const Keys: set<string> := {"id", "descendants", "by", "kids", "parts", "score", "title", "text", "time"}
  const RequiredKeys: set<string> := {"id", "descendants", "by", "parts", "score", "title", "time"}

  /** The synthesized `init(from:)`: members in declaration order, the first failure thrown. */
  function Decode(v: JsonValue): Result<Poll, DecodeError>
  {
    if !v.JObject? then Failure(TypeMismatch)
    else
      var m := v.fields;
      var id :- Required(m, "id", DecodeInt);
      var descendants :- Required(m, "descendants", DecodeInt);
      var author :- Required(m, "by", DecodeString);
      var kids :- Optional(m, "kids", DecodeIds);
      var parts :- Required(m, "parts", DecodeIds);
      var score :- Required(m, "score", DecodeInt);
      var title :- Required(m, "title", DecodeString);
      var text :- Optional(m, "text", DecodeString);
      var time :- Required(m, "time", DecodeDate);
      Success(Poll(id, descendants, author, kids, parts, score, title, text, time))
  }

  /** The object `m` holds poll `p`: each declared member reads as the
      corresponding field (an absent optional as none, a list in its order). */
  ghost predicate WireOf(m: Record, p: Poll)
  {
    && Read(m, "id") == Some(JNumber(p.id))
    && Read(m, "descendants") == Some(JNumber(p.descendants))
    && Read(m, "by") == Some(JString(p.author))
    && Read(m, "kids") == OptionalIdArray(p.kids)
    && Read(m, "parts") == Some(IdArray(p.parts))
    && Read(m, "score") == Some(JNumber(p.score))
    && Read(m, "title") == Some(JString(p.title))
    && Read(m, "text") == OptionalString(p.text)
    && Read(m, "time") == Some(JNumber(p.time))
  }

  /** Decoding yields `p` exactly when the object holds `p`. */
  lemma Decoded(m: Record, p: Poll)
    ensures Decode(JObject(m)) == Success(p) <==> WireOf(m, p)
  {
    RequiredInt(m, "id", p.id);
    RequiredInt(m, "descendants", p.descendants);
    RequiredString(m, "by", p.author);
    OptionalIdsMember(m, "kids", p.kids);
    RequiredIds(m, "parts", p.parts);
    RequiredInt(m, "score", p.score);
    RequiredString(m, "title", p.title);
    OptionalStringMember(m, "text", p.text);
    RequiredDate(m, "time", p.time);
  }

  /** A missing (or null) required member makes the decode throw. */
  lemma MissingRequiredFails(m: Record, key: string)
    requires key in RequiredKeys && Read(m, key) == None
    ensures Decode(JObject(m)).Failure?
  {
    if Decode(JObject(m)).Success? {
      Decoded(m, Decode(JObject(m)).value);
    }
  }

  /** Members the struct does not declare do not affect the result. */
  lemma IgnoresUndeclaredKeys(m: Record, m': Record)
    requires AgreeOn(m, m', Keys)
    ensures Decode(JObject(m)) == Decode(JObject(m'))
  {
    assert Lookup(m, "id") == Lookup(m', "id");
    assert Lookup(m, "descendants") == Lookup(m', "descendants");
    assert Lookup(m, "by") == Lookup(m', "by");
    assert Lookup(m, "kids") == Lookup(m', "kids");
    assert Lookup(m, "parts") == Lookup(m', "parts");
    assert Lookup(m, "score") == Lookup(m', "score");
    assert Lookup(m, "title") == Lookup(m', "title");
    assert Lookup(m, "text") == Lookup(m', "text");
    assert Lookup(m, "time") == Lookup(m', "time");
  }
}
