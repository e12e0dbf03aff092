/** User.swift: a user record, with synthesized `Codable` and `Equatable`
    conformances. */
module Users {
  import opened Wrappers
  import opened Json

  /** Equality of this datatype is field by field over all five fields, as the
      synthesized `Equatable` conformance compares them. */
  datatype User = User(
    id: Username,             // the case-sensitive handle, the user's identity
    created: Date,
    karma: Int64,
    about: Option<string>,    // HTML
    submitted: seq<ItemID>)   // submitted item ids, in wire order

  const Keys: set<string> := {"id", "created", "karma", "about", "submitted"}
  const RequiredKeys: set<string> := {"id", "created", "karma", "submitted"}

  /** The synthesized `init(from:)`. */
  function Decode(v: JsonValue): Result<User, DecodeError>
  {
    if !v.JObject? then Failure(TypeMismatch)
    else
      var m := v.fields;
      var id :- Required(m, "id", DecodeString);
      var created :- Required(m, "created", DecodeDate);
      var karma :- Required(m, "karma", DecodeInt);
      var about :- Optional(m, "about", DecodeString);
      var submitted :- Required(m, "submitted", DecodeIds);
      Success(User(id, created, karma, about, submitted))
  }

  /** The synthesized `encode(to:)`, with the dates written as seconds since
      1970 (the strategy the client's decoder reads); a `nil` `about` is left out. */
  function Encode(u: User): JsonValue
  {
    var m := map["id" := JString(u.id), "created" := JNumber(u.created),
                 "karma" := JNumber(u.karma), "submitted" := IdArray(u.submitted)];
    JObject(if u.about.Some? then m["about" := JString(u.about.value)] else m)
  }

  ghost predicate WireOf(m: Record, u: User)
  {
    && Read(m, "id") == Some(JString(u.id))
    && Read(m, "created") == Some(JNumber(u.created))
    && Read(m, "karma") == Some(JNumber(u.karma))
    && Read(m, "about") == OptionalString(u.about)
    && Read(m, "submitted") == Some(IdArray(u.submitted))
  }

  /** Decoding yields `u` exactly when the object holds `u`. */
  lemma Decoded(m: Record, u: User)
    ensures Decode(JObject(m)) == Success(u) <==> WireOf(m, u)
  {
    RequiredString(m, "id", u.id);
    RequiredDate(m, "created", u.created);
    RequiredInt(m, "karma", u.karma);
    OptionalStringMember(m, "about", u.about);
    RequiredIds(m, "submitted", u.submitted);
  }

  /** Encoding a user and decoding it back gives an equal user. */
  lemma RoundTrip(u: User)
    ensures Decode(Encode(u)) == Success(u)
  {
    Decoded(Encode(u).fields, u);
  }

  lemma MissingRequiredFails(m: Record, key: string)
    requires key in RequiredKeys && Read(m, key) == None
    ensures Decode(JObject(m)).Failure?
  {
    if Decode(JObject(m)).Success? {
      Decoded(m, Decode(JObject(m)).value);
    }
  }

  lemma IgnoresUndeclaredKeys(m: Record, m': Record)
    requires AgreeOn(m, m', Keys)
    ensures Decode(JObject(m)) == Decode(JObject(m'))
  {
    assert Lookup(m, "id") == Lookup(m', "id");
    assert Lookup(m, "created") == Lookup(m', "created");
    assert Lookup(m, "karma") == Lookup(m', "karma");
    assert Lookup(m, "about") == Lookup(m', "about");
    assert Lookup(m, "submitted") == Lookup(m', "submitted");
  }

  /** Two users with the same handle but another field different are not equal. */
  lemma EqualityIsNotByIdAlone(u: User, karma: Int64)
    requires karma != u.karma
    ensures u.(karma := karma).id == u.id && u.(karma := karma) != u
  {
  }
}
