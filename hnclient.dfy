/** `HNClient`: what a store read, a list read or a search gives back, once the
    store's and the network's answers are inputs and the task group's arrival
    order is a parameter. */
module HNClient {
  import opened Wrappers
  import opened Json
  import opened Text
  import opened Items
  import Users
  import HNLists
  import Algolia
  import opened Reassembly

  // ----- one store read: `get(path:)` -----

  /** The answer to `ref.child(path).getData()`: the read throws, or it gives a
      snapshot that holds JSON data or none. */
  datatype StoreReply = ReadFailed | Snapshot(data: Option<JsonValue>)

  datatype FetchError =
    | StoreError          // rethrown from `getData()`
    | CannotDecodeRawData // `URLError(.cannotDecodeRawData)`

  /** `get(path:)`: a read error is rethrown; a snapshot without data, or with
      data that does not decode, is `cannotDecodeRawData`; otherwise the value. */
  function Get<T>(reply: StoreReply, decode: JsonValue -> Result<T, DecodeError>): (r: Result<T, FetchError>)
    ensures reply.ReadFailed? <==> r == Failure(StoreError)
    ensures r.Success? <==> reply.Snapshot? && reply.data.Some? && decode(reply.data.value).Success?
    ensures r.Success? ==> decode(reply.data.value) == Success(r.value)
    ensures r.Failure? ==> r.error == StoreError || r.error == CannotDecodeRawData
  {
    match reply
    case ReadFailed => Failure(StoreError)
    case Snapshot(data) =>
      if data.Some? && decode(data.value).Success? then Success(decode(data.value).value)
      else Failure(CannotDecodeRawData)
  }

  function GetItem(reply: StoreReply): Result<Item, FetchError>
  {
    Get(reply, Items.Decode)
  }

  function GetUser(reply: StoreReply): Result<Users.User, FetchError>
  {
    Get(reply, Users.Decode)
  }

  function GetListIds(reply: StoreReply): Result<seq<ItemID>, FetchError>
  {
    Get(reply, DecodeIds)
  }

  /** A snapshot without data never yields a value, whatever is requested. */
  lemma NoDataCannotDecode<T>(decode: JsonValue -> Result<T, DecodeError>)
    ensures Get(Snapshot(None), decode) == Failure(CannotDecodeRawData)
  {
  }

  /** A list read gives exactly the ids of the stored array, in stored order. */
  lemma ListIdsAreStoredIds(v: JsonValue, ids: seq<ItemID>)
    ensures GetListIds(Snapshot(Some(v))) == Success(ids) <==> v == IdArray(ids)
  {
    IdArrayCodec(v, ids);
  }

  /** A user read gives back the user whose encoding is stored. */
  lemma UserReadRoundTrip(u: Users.User)
    ensures GetUser(Snapshot(Some(Users.Encode(u)))) == Success(u)
  {
    Users.RoundTrip(u);
  }

  // ----- store paths -----

  /** `"item/\(itemID)"`. */
  function ItemPath(id: ItemID): (p: string)
    ensures |p| > 5 && p[..5] == "item/"
  {
    "item/" + DecimalString(id)
  }

  /** `"user/\(username)"`. */
  function UserPath(name: Username): string
  {
    "user/" + name
  }

  /** `list.rawValue.lowercased()`. */
  function ListPath(l: HNLists.HNList): string
  {
    Lowercase(HNLists.RawValue(l))
  }

  /** The item path names the item: its suffix parses back to the id. */
  lemma ItemPathRoundTrip(id: ItemID)
    ensures ParseDecimal(ItemPath(id)[5..]) == Some(id)
  {
    assert ItemPath(id)[5..] == DecimalString(id);
    DecimalRoundTrip(id);
  }

  lemma ItemPathInjective(a: ItemID, b: ItemID)
    requires ItemPath(a) == ItemPath(b)
    ensures a == b
  {
    ItemPathRoundTrip(a);
    ItemPathRoundTrip(b);
  }

  lemma UserPathInjective(a: Username, b: Username)
    requires UserPath(a) == UserPath(b)
    ensures a == b
  {
    assert UserPath(a)[5..] == a && UserPath(b)[5..] == b;
  }

  /** The six list paths, as the store names them. */
  lemma ListPathValues()
    ensures ListPath(HNLists.TopStories) == "topstories"
    ensures ListPath(HNLists.BestStories) == "beststories"
    ensures ListPath(HNLists.NewStories) == "newstories"
    ensures ListPath(HNLists.AskStories) == "askstories"
    ensures ListPath(HNLists.ShowStories) == "showstories"
    ensures ListPath(HNLists.JobStories) == "jobstories"
  {
  }

  lemma ListPathsDistinct(a: HNLists.HNList, b: HNLists.HNList)
    requires ListPath(a) == ListPath(b)
    ensures a == b
  {
    ListPathValues();
  }

  /** A list path never names an item or a user: it holds no '/'. */
  lemma ListPathIsNotItemOrUserPath(l: HNLists.HNList, id: ItemID, name: Username)
    ensures ListPath(l) != ItemPath(id) && ListPath(l) != UserPath(name)
  {
    ListPathValues();
    assert ItemPath(id)[4] == '/' && UserPath(name)[4] == '/';
  }

  // ----- getItems -----

  /** One task's result: `try? await self.getItem(itemID)`. */
  function TaskOutcome(reply: StoreReply): (o: Option<Item>)
    ensures o.Some? <==> GetItem(reply).Success?
  {
    GetItem(reply).ToOption()
  }

  /** The outcomes of the tasks, in the order the tasks were launched. */
  function TaskOutcomes(replies: seq<StoreReply>): seq<Option<Item>>
  {
    seq(|replies|, i requires 0 <= i < |replies| => TaskOutcome(replies[i]))
  }

  /** The `for` loop of `getItems`: one task, reading one item path, per
      input element, duplicates included. */
  method LaunchTasks(itemIDs: seq<ItemID>) returns (requested: seq<string>)
    ensures |requested| == |itemIDs|
    ensures forall i :: 0 <= i < |itemIDs| ==> requested[i] == ItemPath(itemIDs[i])
  {
    requested := [];
    var i := 0;
    while i < |itemIDs|
      invariant 0 <= i <= |itemIDs|
      invariant |requested| == i
      invariant forall j :: 0 <= j < i ==> requested[j] == ItemPath(itemIDs[j])
    {
      requested := requested + [ItemPath(itemIDs[i])];
      i := i + 1;
    }
  }

  /** The `reduce(into:)` of `getItems`: the non-nil outcomes, appended in
      the order they arrive. */
  method Accumulate(arrived: seq<Option<Item>>) returns (acc: seq<Item>)
    ensures acc == Successes(arrived)
  {
    acc := [];
    var k := 0;
    while k < |arrived|
      invariant 0 <= k <= |arrived|
      invariant acc == Successes(arrived[..k])
    {
      assert arrived[..k + 1][..k] == arrived[..k];
      if arrived[k].Some? {
        acc := acc + [arrived[k].value];
      }
      k := k + 1;
    }
    assert arrived[..k] == arrived;
  }

  /** `getItems(_:)`. `replies[i]` answers the task launched for `itemIDs[i]`;
      `arrived` is the order in which the task group hands the outcomes to
      `reduce(into:)`, some arrangement of the per-task outcomes. The method
      returns the paths it reads, one per input element, and the sorted
      accumulator, or `Trapped` when the comparator's force unwrap fails. */
  method GetItems(itemIDs: seq<ItemID>, replies: seq<StoreReply>, arrived: seq<Option<Item>>)
    returns (requested: seq<string>, r: Reassembled)
    requires |replies| == |itemIDs|
    requires multiset(arrived) == multiset(TaskOutcomes(replies))
    ensures |requested| == |itemIDs|
    ensures forall i :: 0 <= i < |itemIDs| ==> requested[i] == ItemPath(itemIDs[i])
    ensures r == Reassemble(itemIDs, arrived)
    ensures r.Trapped? <==> Traps(itemIDs, Successes(TaskOutcomes(replies)))
    ensures r.Delivered? ==>
      && multiset(r.items) == multiset(Successes(TaskOutcomes(replies)))
      && SortedByRank(itemIDs, r.items)
      && |r.items| <= |itemIDs|
  {
    requested := LaunchTasks(itemIDs);
    var acc := Accumulate(arrived);
    if Traps(itemIDs, acc) {
      r := Trapped;
    } else {
      r := Delivered(SortByRank(itemIDs, acc));
    }
    ArrangementReassembly(itemIDs, TaskOutcomes(replies), arrived);
  }

  /** An empty request reads nothing and delivers nothing. */
  lemma EmptyRequest()
    ensures Reassemble([], []) == Delivered([])
  {
  }

  // ----- getList -----

  /** `getList(_:)`: the id list is read at the list's path; a failed read or
      decode is rethrown before any item is fetched. */
  method GetList(list: HNLists.HNList, listReply: StoreReply, replies: seq<StoreReply>, arrived: seq<Option<Item>>)
    returns (path: string, requested: seq<string>, r: Result<Reassembled, FetchError>)
    requires GetListIds(listReply).Success? ==>
      |replies| == |GetListIds(listReply).value| && multiset(arrived) == multiset(TaskOutcomes(replies))
    ensures path == ListPath(list)
    ensures GetListIds(listReply).Failure? ==>
      requested == [] && r == Failure(GetListIds(listReply).error)
    ensures GetListIds(listReply).Success? ==>
      var ids := GetListIds(listReply).value;
      && |requested| == |ids|
      && (forall i :: 0 <= i < |ids| ==> requested[i] == ItemPath(ids[i]))
      && r == Success(Reassemble(ids, arrived))
  {
    path := ListPath(list);
    var ids := GetListIds(listReply);
    if ids.Failure? {
      requested, r := [], Failure(ids.error);
    } else {
      var items;
      requested, items := GetItems(ids.value, replies, arrived);
      r := Success(items);
    }
  }

  // ----- search -----

  /** What `URLSession.shared.data(from:)` gives: a thrown error, or a status
      code and a body that is JSON or is not. */
  datatype HttpReply = ConnectionFailed | Response(status: int, body: Option<JsonValue>)

  datatype SearchError =
    | NetworkError                // rethrown from `data(from:)`
    | DecodingFailed(e: DecodeError) // rethrown from `decode(AlgoliaSearchResults.self, ...)`

  /** `(200...299).contains(statusCode)`. */
  predicate IsSuccessStatus(status: int)
  {
    200 <= status <= 299
  }

  /** What `search` does after the request: give up, rethrow, or fetch these ids. */
  datatype SearchPlan = NoResults | SearchFailed(error: SearchError) | FetchIds(ids: seq<ItemID>)

  /** The status gate and the hit hand-off. `hitID` stands for the projection
      applied to each hit before `getItems`. */
  function PlanSearch(reply: HttpReply, hitID: Algolia.AlgoliaSearchHit -> ItemID): (p: SearchPlan)
    ensures reply.ConnectionFailed? <==> p == SearchFailed(NetworkError)
    ensures p == NoResults <==> reply.Response? && !IsSuccessStatus(reply.status)
    ensures p.FetchIds? <==>
      reply.Response? && IsSuccessStatus(reply.status) && reply.body.Some? && Algolia.DecodeResults(reply.body.value).Success?
    ensures p.FetchIds? ==>
      var hits := Algolia.DecodeResults(reply.body.value).value.hits;
      |p.ids| == |hits| && forall i :: 0 <= i < |hits| ==> p.ids[i] == hitID(hits[i])
  {
    match reply
    case ConnectionFailed => SearchFailed(NetworkError)
    case Response(status, body) =>
      if !IsSuccessStatus(status) then NoResults
      else if body.None? then SearchFailed(DecodingFailed(DataCorrupted))
      else
        match Algolia.DecodeResults(body.value)
        case Failure(e) => SearchFailed(DecodingFailed(e))
        case Success(results) =>
          FetchIds(seq(|results.hits|, i requires 0 <= i < |results.hits| => hitID(results.hits[i])))
  }

  /** `search(_:)`: outside 200...299 the answer is `[]` and no item is read;
      otherwise the hits' ids are fetched in hit order. */
  method Search(reply: HttpReply, hitID: Algolia.AlgoliaSearchHit -> ItemID, replies: seq<StoreReply>, arrived: seq<Option<Item>>)
    returns (requested: seq<string>, r: Result<Reassembled, SearchError>)
    requires PlanSearch(reply, hitID).FetchIds? ==>
      |replies| == |PlanSearch(reply, hitID).ids| && multiset(arrived) == multiset(TaskOutcomes(replies))
    ensures PlanSearch(reply, hitID) == NoResults ==> requested == [] && r == Success(Delivered([]))
    ensures PlanSearch(reply, hitID).SearchFailed? ==>
      requested == [] && r == Failure(PlanSearch(reply, hitID).error)
    ensures PlanSearch(reply, hitID).FetchIds? ==>
      var ids := PlanSearch(reply, hitID).ids;
      && |requested| == |ids|
      && (forall i :: 0 <= i < |ids| ==> requested[i] == ItemPath(ids[i]))
      && r == Success(Reassemble(ids, arrived))
  {
    var plan := PlanSearch(reply, hitID);
    match plan
    case NoResults =>
      requested, r := [], Success(Delivered([]));
    case SearchFailed(e) =>
      requested, r := [], Failure(e);
    case FetchIds(ids) =>
      var items;
      requested, items := GetItems(ids, replies, arrived);
      r := Success(items);
  }

  /** A status outside 200...299 gives no results whatever the body says. */
  lemma RejectedStatusIgnoresBody(status: int, a: Option<JsonValue>, b: Option<JsonValue>, hitID: Algolia.AlgoliaSearchHit -> ItemID)
    requires !IsSuccessStatus(status)
    ensures PlanSearch(Response(status, a), hitID) == PlanSearch(Response(status, b), hitID) == NoResults
  {
  }
}
