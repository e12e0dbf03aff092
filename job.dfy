/** Job.swift: a job record and its synthesized `Decodable` conformance. */
module Jobs {
  import opened Wrappers
  import opened Json

  datatype Job = Job(
    id: ItemID,
    author: Username,                   // `by`, a reserved word in Dafny
    title: string,
    url: Option<string>,                // `URL?`, kept as its text
    text: Option<string>,
    time: Date)

  /** The wire keys the struct declares; every other key is ignored. */
  const Keys: set<string> := {"id", "by", "title", "url", "text", "time"}
  const RequiredKeys: set<string> := {"id", "by", "title", "time"}

  /** The synthesized `init(from:)`: members in declaration order, the first failure thrown. */
  function Decode(v: JsonValue): Result<Job, DecodeError>
  {
    if !v.JObject? then Failure(TypeMismatch)
    else
      var m := v.fields;
      var id :- Required(m, "id", DecodeInt);
      var author :- Required(m, "by", DecodeString);
      var title :- Required(m, "title", DecodeString);
      var url :- Optional(m, "url", DecodeString);
      var text :- Optional(m, "text", DecodeString);
      var time :- Required(m, "time", DecodeDate);
      Success(Job(id, author, title, url, text, time))
  }

  /** The object `m` holds job `j`: each declared member reads as the
      corresponding field (an absent optional as none, a list in its order). */
  ghost predicate WireOf(m: Record, j: Job)
  {
    && Read(m, "id") == Some(JNumber(j.id))
    && Read(m, "by") == Some(JString(j.author))
    && Read(m, "title") == Some(JString(j.title))
    && Read(m, "url") == OptionalString(j.url)
    && Read(m, "text") == OptionalString(j.text)
    && Read(m, "time") == Some(JNumber(j.time))
  }

  /** Decoding yields `j` exactly when the object holds `j`. */
  lemma Decoded(m: Record, j: Job)
    ensures Decode(JObject(m)) == Success(j) <==> WireOf(m, j)
  {
    RequiredInt(m, "id", j.id);
    RequiredString(m, "by", j.author);
    RequiredString(m, "title", j.title);
    OptionalStringMember(m, "url", j.url);
    OptionalStringMember(m, "text", j.text);
    RequiredDate(m, "time", j.time);
  }

  /** A missing (or null) required member makes the decode throw. */
  lemma MissingRequiredFails(m: Record, key: string)
    requires key in RequiredKeys && Read(m, key) == None
    ensures Decode(JObject(m)).Failure?
  {
    if Decode(JObject(m)).Success? {
      Decoded(m, Decode(JObject(m)).value);
    }
  }

  /** Members the struct does not declare do not affect the result. */
  lemma IgnoresUndeclaredKeys(m: Record, m': Record)
    requires AgreeOn(m, m', Keys)
    ensures Decode(JObject(m)) == Decode(JObject(m'))
  {
    assert Lookup(m, "id") == Lookup(m', "id");
    assert Lookup(m, "by") == Lookup(m', "by");
    assert Lookup(m, "title") == Lookup(m', "title");
    assert Lookup(m, "url") == Lookup(m', "url");
    assert Lookup(m, "text") == Lookup(m', "text");
    assert Lookup(m, "time") == Lookup(m', "time");
  }
}
