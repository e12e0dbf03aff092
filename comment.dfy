/** Comment.swift: a comment record and its synthesized `Decodable` conformance. */
module Comments {
  import opened Wrappers
  import opened Json

  datatype Comment = Comment(
    id: ItemID,
    author: Username,                   // `by`, a reserved word in Dafny
    kids: Option<seq<ItemID>>,          // reply ids in ranked display order
    parent: ItemID,                     // a comment or a story
    text: Option<string>,
    time: Date)

  /** The wire keys the struct declares; every other key is ignored. */
  const Keys: set<string> := {"id", "by", "kids", "parent", "text", "time"}
  const RequiredKeys: set<string> := {"id", "by", "parent", "time"}

  /** The synthesized `init(from:)`: members in declaration order, the first failure thrown. */
  function Decode(v: JsonValue): Result<Comment, DecodeError>
  {
    if !v.JObject? then Failure(TypeMismatch)
    else
      var m := v.fields;
      var id :- Required(m, "id", DecodeInt);
      var author :- Required(m, "by", DecodeString);
      var kids :- Optional(m, "kids", DecodeIds);
      var parent :- Required(m, "parent", DecodeInt);
      var text :- Optional(m, "text", DecodeString);
      var time :- Required(m, "time", DecodeDate);
      Success(Comment(id, author, kids, parent, text, time))
  }

  /** The object `m` holds comment `c`: each declared member reads as the
      corresponding field (an absent optional as none, a list in its order). */
  ghost predicate WireOf(m: Record, c: Comment)
  {
    && Read(m, "id") == Some(JNumber(c.id))
    && Read(m, "by") == Some(JString(c.author))
    && Read(m, "kids") == OptionalIdArray(c.kids)
    && Read(m, "parent") == Some(JNumber(c.parent))
    && Read(m, "text") == OptionalString(c.text)
    && Read(m, "time") == Some(JNumber(c.time))
  }

  /** Decoding yields `c` exactly when the object holds `c`. */
  lemma Decoded(m: Record, c: Comment)
    ensures Decode(JObject(m)) == Success(c) <==> WireOf(m, c)
  {
    RequiredInt(m, "id", c.id);
    RequiredString(m, "by", c.author);
    OptionalIdsMember(m, "kids", c.kids);
    RequiredInt(m, "parent", c.parent);
    OptionalStringMember(m, "text", c.text);
    RequiredDate(m, "time", c.time);
  }

  /** A missing (or null) required member makes the decode throw. */
  lemma MissingRequiredFails(m: Record, key: string)
    requires key in RequiredKeys && Read(m, key) == None
    ensures Decode(JObject(m)).Failure?
  {
    if Decode(JObject(m)).Success? {
      Decoded(m, Decode(JObject(m)).value);
    }
  }

  /** Members the struct does not declare do not affect the result. */
  lemma IgnoresUndeclaredKeys(m: Record, m': Record)
    requires AgreeOn(m, m', Keys)
    ensures Decode(JObject(m)) == Decode(JObject(m'))
  {
    assert Lookup(m, "id") == Lookup(m', "id");
    assert Lookup(m, "by") == Lookup(m', "by");
    assert Lookup(m, "kids") == Lookup(m', "kids");
    assert Lookup(m, "parent") == Lookup(m', "parent");
    assert Lookup(m, "text") == Lookup(m', "text");
    assert Lookup(m, "time") == Lookup(m', "time");
  }
}
