/** The JSON values the client decodes, and the rules by which Foundation's
    `JSONDecoder` reads them into the synthesized `Decodable` conformances of
    the models: a non-optional property is read with `decode(_:forKey:)`, an
    optional one with `decodeIfPresent(_:forKey:)`, and keys the type does not
    declare are never looked at. */
module Json {
  import opened Wrappers

  const INT64_MIN: int := -0x8000_0000_0000_0000
  const INT64_MAX: int := 0x7FFF_FFFF_FFFF_FFFF

  /** Swift's `Int` on a 64-bit platform. */
  type Int64 = x: int | INT64_MIN <= x <= INT64_MAX

  /** `ItemID`, an alias of `Int`. */
  type ItemID = Int64

  /** `Username`, an alias of `String`. */
  type Username = string

  /** A `Date`, decoded with the `.secondsSince1970` strategy, in whole seconds. */
  type Date = int

  datatype JsonValue =
    | JNull
    | JBool(b: bool)
    | JNumber(n: int)
    | JString(s: string)
    | JArray(elements: seq<JsonValue>)
    | JObject(fields: map<string, JsonValue>)

  /** The members of a JSON object, after the decoder's key conversion. */
  type Record = map<string, JsonValue>

  /** Swift's `DecodingError` cases. */
  datatype DecodeError =
    | KeyNotFound(key: string)
    | ValueNotFound
    | TypeMismatch
    | DataCorrupted

  /** The raw member at `key`, if the object has one. */
  function Lookup(m: Record, key: string): Option<JsonValue>
  {
    if key in m then Some(m[key]) else None
  }

  /** What a decoder sees at `key`: an absent member and an explicit `null`
      both read as nothing. */
  function Read(m: Record, key: string): (r: Option<JsonValue>)
    ensures r.Some? <==> Lookup(m, key).Some? && Lookup(m, key).value != JNull
    ensures r.Some? ==> r == Lookup(m, key)
  {
    if key in m && m[key] != JNull then Some(m[key]) else None
  }

  /** Two objects that hold the same raw members at every key in `keys`. */
  ghost predicate AgreeOn(m: Record, m': Record, keys: set<string>)
  {
    forall k :: k in keys ==> Lookup(m, k) == Lookup(m', k)
  }

  // ----- single values -----

  /** `Int`: a JSON number that fits in 64 bits. */
  function DecodeInt(v: JsonValue): (r: Result<Int64, DecodeError>)
    ensures r.Success? <==> v.JNumber? && INT64_MIN <= v.n <= INT64_MAX
    ensures r.Success? ==> v == JNumber(r.value)
  {
    match v
    case JNull => Failure(ValueNotFound)
    case JNumber(n) => if INT64_MIN <= n <= INT64_MAX then Success(n) else Failure(DataCorrupted)
    case _ => Failure(TypeMismatch)
  }

  /** `String`, and also `URL`, whose validity is not modelled. */
  function DecodeString(v: JsonValue): (r: Result<string, DecodeError>)
    ensures r.Success? <==> v.JString?
    ensures r.Success? ==> v == JString(r.value)
  {
    match v
    case JNull => Failure(ValueNotFound)
    case JString(s) => Success(s)
    case _ => Failure(TypeMismatch)
  }

  /** `Date` under `.secondsSince1970`: a JSON number of seconds. */
  function DecodeDate(v: JsonValue): (r: Result<Date, DecodeError>)
    ensures r.Success? <==> v.JNumber?
    ensures r.Success? ==> v == JNumber(r.value)
  {
    match v
    case JNull => Failure(ValueNotFound)
    case JNumber(n) => Success(n)
    case _ => Failure(TypeMismatch)
  }

  /** `[T]`: a JSON array whose every element decodes, kept in wire order. */
  function DecodeArray<T>(v: JsonValue, element: JsonValue -> Result<T, DecodeError>): (r: Result<seq<T>, DecodeError>)
    ensures r.Success? <==> v.JArray? && forall i :: 0 <= i < |v.elements| ==> element(v.elements[i]).Success?
    ensures r.Success? ==> |r.value| == |v.elements|
    ensures r.Success? ==> forall i :: 0 <= i < |r.value| ==> element(v.elements[i]) == Success(r.value[i])
  {
    match v
    case JNull => Failure(ValueNotFound)
    case JArray(es) => DecodeElements(es, element)
    case _ => Failure(TypeMismatch)
  }

  /** The elements of an array, decoded front to back; the first failure is thrown. */
  function DecodeElements<T>(es: seq<JsonValue>, element: JsonValue -> Result<T, DecodeError>): (r: Result<seq<T>, DecodeError>)
    ensures r.Success? <==> forall i :: 0 <= i < |es| ==> element(es[i]).Success?
    ensures r.Success? ==> |r.value| == |es|
    ensures r.Success? ==> forall i :: 0 <= i < |es| ==> element(es[i]) == Success(r.value[i])
    decreases |es|
  {
    if es == [] then Success([])
    else
      var x :- element(es[0]);
      var rest :- DecodeElements(es[1..], element);
      Success([x] + rest)
  }

  /** `[ItemID]`. */
  function DecodeIds(v: JsonValue): Result<seq<ItemID>, DecodeError>
  {
    DecodeArray(v, DecodeInt)
  }

  // ----- keyed members -----

  /** `decode(_:forKey:)`: the member must be there and must decode. */
  function Required<T>(m: Record, key: string, decode: JsonValue -> Result<T, DecodeError>): Result<T, DecodeError>
  {
    if key in m then decode(m[key]) else Failure(KeyNotFound(key))
  }

  /** `decodeIfPresent(_:forKey:)`: an absent member or `null` reads as `nil`;
      any other value must decode. */
  function Optional<T>(m: Record, key: string, decode: JsonValue -> Result<T, DecodeError>): Result<Option<T>, DecodeError>
  {
    match Read(m, key)
    case None => Success(None)
    case Some(v) =>
      match decode(v)
      case Success(x) => Success(Some(x))
      case Failure(e) => Failure(e)
  }

  // ----- the wire form of decoded values -----

  /** The JSON array that holds exactly `xs`, in order. */
  function IdArray(xs: seq<ItemID>): JsonValue
  {
    JArray(seq(|xs|, i requires 0 <= i < |xs| => JNumber(xs[i])))
  }

  function OptionalIdArray(o: Option<seq<ItemID>>): Option<JsonValue>
  {
    match o
    case None => None
    case Some(xs) => Some(IdArray(xs))
  }

  function OptionalString(o: Option<string>): Option<JsonValue>
  {
    match o
    case None => None
    case Some(s) => Some(JString(s))
  }

  // ----- what each kind of member reads as -----

  /** An array decodes to `xs` exactly when it is the array of `xs`, in order. */
  lemma IdArrayCodec(v: JsonValue, xs: seq<ItemID>)
    ensures DecodeIds(v) == Success(xs) <==> v == IdArray(xs)
  {
    if DecodeIds(v) == Success(xs) {
      assert v.elements == IdArray(xs).elements;
    }
    if v == IdArray(xs) {
      var r := DecodeIds(v);
      assert r.Success?;
      assert r.value == xs;
    }
  }

  lemma RequiredInt(m: Record, key: string, x: Int64)
    ensures Required(m, key, DecodeInt) == Success(x) <==> Read(m, key) == Some(JNumber(x))
  {
  }

  lemma RequiredString(m: Record, key: string, s: string)
    ensures Required(m, key, DecodeString) == Success(s) <==> Read(m, key) == Some(JString(s))
  {
  }

  lemma RequiredDate(m: Record, key: string, t: Date)
    ensures Required(m, key, DecodeDate) == Success(t) <==> Read(m, key) == Some(JNumber(t))
  {
  }

  lemma RequiredIds(m: Record, key: string, xs: seq<ItemID>)
    ensures Required(m, key, DecodeIds) == Success(xs) <==> Read(m, key) == Some(IdArray(xs))
  {
    if key in m {
      IdArrayCodec(m[key], xs);
    }
  }

  lemma OptionalStringMember(m: Record, key: string, o: Option<string>)
    ensures Optional(m, key, DecodeString) == Success(o) <==> Read(m, key) == OptionalString(o)
  {
  }

  lemma OptionalIdsMember(m: Record, key: string, o: Option<seq<ItemID>>)
    ensures Optional(m, key, DecodeIds) == Success(o) <==> Read(m, key) == OptionalIdArray(o)
  {
    match Read(m, key)
    case None =>
    case Some(v) =>
      if o.Some? {
        IdArrayCodec(v, o.value);
      }
  }
}
