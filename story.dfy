/** Story.swift: a story record and its synthesized `Decodable` conformance. */
module Stories {
  import opened Wrappers
  import opened Json

  datatype Story = Story(
    id: ItemID,
    descendants: Int64,
    author: Username,            // `by`, a reserved word in Dafny
    kids: Option<seq<ItemID>>,   // comment ids in ranked display order
    score: Int64,
    title: string,
    url: Option<string>,
    text: Option<string>,
    time: Date)

  /** The wire keys the struct declares; every other key is ignored. */
  const Keys: set<string> := {"id", "descendants", "by", "kids", "score", "title", "url", "text", "time"}
  const RequiredKeys: set<string> := {"id", "descendants", "by", "score", "title", "time"}

  /** The synthesized `init(from:)`: members in declaration order, the first failure thrown. */
  function Decode(v: JsonValue): Result<Story, DecodeError>
  {
    if !v.JObject? then Failure(TypeMismatch)
    else
      var m := v.fields;
      var id :- Required(m, "id", DecodeInt);
      var descendants :- Required(m, "descendants", DecodeInt);
      var author :- Required(m, "by", DecodeString);
      var kids :- Optional(m, "kids", DecodeIds);
      var score :- Required(m, "score", DecodeInt);
      var title :- Required(m, "title", DecodeString);
      var url :- Optional(m, "url", DecodeString);
      var text :- Optional(m, "text", DecodeString);
      var time :- Required(m, "time", DecodeDate);
      Success(Story(id, descendants, author, kids, score, title, url, text, time))
  }

  /** The object `m` holds story `s`: each declared member reads as the
      corresponding field (an absent optional as none, a list in its order). */
  ghost predicate WireOf(m: Record, s: Story)
  {
    && Read(m, "id") == Some(JNumber(s.id))
    && Read(m, "descendants") == Some(JNumber(s.descendants))
    && Read(m, "by") == Some(JString(s.author))
    && Read(m, "kids") == OptionalIdArray(s.kids)
    && Read(m, "score") == Some(JNumber(s.score))
    && Read(m, "title") == Some(JString(s.title))
    && Read(m, "url") == OptionalString(s.url)
    && Read(m, "text") == OptionalString(s.text)
    && Read(m, "time") == Some(JNumber(s.time))
  }

  /** Decoding yields `s` exactly when the object holds `s`. */
  lemma Decoded(m: Record, s: Story)
    ensures Decode(JObject(m)) == Success(s) <==> WireOf(m, s)
  {
    RequiredInt(m, "id", s.id);
    RequiredInt(m, "descendants", s.descendants);
    RequiredString(m, "by", s.author);
    OptionalIdsMember(m, "kids", s.kids);
    RequiredInt(m, "score", s.score);
    RequiredString(m, "title", s.title);
    OptionalStringMember(m, "url", s.url);
    OptionalStringMember(m, "text", s.text);
    RequiredDate(m, "time", s.time);
  }

  /** A missing (or null) required member makes the decode throw. */
  lemma MissingRequiredFails(m: Record, key: string)
    requires key in RequiredKeys && Read(m, key) == None
    ensures Decode(JObject(m)).Failure?
  {
    if Decode(JObject(m)).Success? {
      Decoded(m, Decode(JObject(m)).value);
    }
  }

  /** Members the struct does not declare do not affect the result. */
  lemma IgnoresUndeclaredKeys(m: Record, m': Record)
    requires AgreeOn(m, m', Keys)
    ensures Decode(JObject(m)) == Decode(JObject(m'))
  {
    assert Lookup(m, "id") == Lookup(m', "id");
    assert Lookup(m, "descendants") == Lookup(m', "descendants");
    assert Lookup(m, "by") == Lookup(m', "by");
    assert Lookup(m, "kids") == Lookup(m', "kids");
    assert Lookup(m, "score") == Lookup(m', "score");
    assert Lookup(m, "title") == Lookup(m', "title");
    assert Lookup(m, "url") == Lookup(m', "url");
    assert Lookup(m, "text") == Lookup(m', "text");
    assert Lookup(m, "time") == Lookup(m', "time");
  }
}
