/** Algolia.swift: the search index's response records and the search mode. */
module Algolia {
  import opened Wrappers
  import opened Json

  /** The two search modes. */
  datatype SearchType = ExactMatch | MostRecent

  /** One hit; its `id` is stored under the wire key `objectID`. */
  datatype AlgoliaSearchHit = AlgoliaSearchHit(id: string)

  /** A comment hit; its `storyID` is stored under the wire key `storyId`. */
  datatype AlgoliaComment = AlgoliaComment(storyID: ItemID)

  datatype AlgoliaSearchResults = AlgoliaSearchResults(hits: seq<AlgoliaSearchHit>)

  lemma SearchTypeCases(t: SearchType)
    ensures t == ExactMatch || t == MostRecent
    ensures ExactMatch != MostRecent
  {
  }

  // ----- decoding, through the coding keys -----

  function DecodeHit(v: JsonValue): Result<AlgoliaSearchHit, DecodeError>
  {
    if !v.JObject? then Failure(TypeMismatch)
    else
      var id :- Required(v.fields, "objectID", DecodeString);
      Success(AlgoliaSearchHit(id))
  }

  function DecodeComment(v: JsonValue): Result<AlgoliaComment, DecodeError>
  {
    if !v.JObject? then Failure(TypeMismatch)
    else
      var storyID :- Required(v.fields, "storyId", DecodeInt);
      Success(AlgoliaComment(storyID))
  }

  function DecodeHits(v: JsonValue): Result<seq<AlgoliaSearchHit>, DecodeError>
  {
    DecodeArray(v, DecodeHit)
  }

  /** `hits` is required and is read in wire order. */
  function DecodeResults(v: JsonValue): (r: Result<AlgoliaSearchResults, DecodeError>)
    ensures r.Success? ==> v.JObject? && Read(v.fields, "hits").Some? && v.fields["hits"].JArray?
    ensures r.Success? ==> var es := v.fields["hits"].elements;
      |r.value.hits| == |es| && forall i :: 0 <= i < |es| ==> DecodeHit(es[i]) == Success(r.value.hits[i])
  {
    if !v.JObject? then Failure(TypeMismatch)
    else
      var hits :- Required(v.fields, "hits", DecodeHits);
      Success(AlgoliaSearchResults(hits))
  }

  // ----- encoding, through the same coding keys -----

  function EncodeHit(h: AlgoliaSearchHit): JsonValue
  {
    JObject(map["objectID" := JString(h.id)])
  }

  function EncodeComment(c: AlgoliaComment): JsonValue
  {
    JObject(map["storyId" := JNumber(c.storyID)])
  }

  function EncodeResults(r: AlgoliaSearchResults): JsonValue
  {
    JObject(map["hits" := JArray(seq(|r.hits|, i requires 0 <= i < |r.hits| => EncodeHit(r.hits[i])))])
  }

  /** A hit decodes to `h` exactly when `objectID` holds its id as a string. */
  lemma HitDecoded(m: Record, h: AlgoliaSearchHit)
    ensures DecodeHit(JObject(m)) == Success(h) <==> Read(m, "objectID") == Some(JString(h.id))
  {
  }

  /** A comment hit decodes to `c` exactly when `storyId` holds its story id as an integer. */
  lemma CommentDecoded(m: Record, c: AlgoliaComment)
    ensures DecodeComment(JObject(m)) == Success(c) <==> Read(m, "storyId") == Some(JNumber(c.storyID))
  {
  }

  lemma HitRoundTrip(h: AlgoliaSearchHit)
    ensures DecodeHit(EncodeHit(h)) == Success(h)
  {
  }

  lemma CommentRoundTrip(c: AlgoliaComment)
    ensures DecodeComment(EncodeComment(c)) == Success(c)
  {
  }

  /** Encoding a result list and decoding it back gives the same hits in the same order. */
  lemma ResultsRoundTrip(r: AlgoliaSearchResults)
    ensures DecodeResults(EncodeResults(r)) == Success(r)
  {
    var es := EncodeResults(r).fields["hits"].elements;
    forall i | 0 <= i < |es|
      ensures DecodeHit(es[i]) == Success(r.hits[i])
    {
      HitRoundTrip(r.hits[i]);
    }
    var d := DecodeHits(JArray(es));
    assert d.Success?;
    assert d.value == r.hits;
  }

  /** A response without `hits` does not decode. */
  lemma HitsRequired(m: Record)
    requires Read(m, "hits") == None
    ensures DecodeResults(JObject(m)).Failure?
  {
  }
}
