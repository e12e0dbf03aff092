/** The result reassembly of `HNClient.getItems`: the per-id outcomes arrive
    in some order, the non-nil ones are appended to an accumulator, and the
    accumulator is sorted by the position at which each item's id first
    occurs in the requested list. */
module Reassembly {
  import opened Wrappers
  import opened Json
  import opened Items

  /** The accumulator of `reduce(into:)`: the non-nil outcomes, in arrival order. */
  function Successes(arrived: seq<Option<Item>>): (acc: seq<Item>)
    ensures |acc| <= |arrived|
    decreases |arrived|
  {
    if arrived == [] then []
    else
      var init := arrived[..|arrived| - 1];
      var rest := Successes(init);
      assert arrived == init + [arrived[|arrived| - 1]];
      match arrived[|arrived| - 1]
      case Some(item) => rest + [item]
      case None => rest
  }

  /** Every success is kept as often as it arrived; every failure is dropped. */
  lemma {:induction false} SuccessesCount(arrived: seq<Option<Item>>, x: Item)
    ensures multiset(Successes(arrived))[x] == multiset(arrived)[Some(x)]
    decreases |arrived|
  {
    if arrived != [] {
      var init, last := arrived[..|arrived| - 1], arrived[|arrived| - 1];
      SuccessesCount(init, x);
      assert arrived == init + [last];
      assert multiset(arrived) == multiset(init) + multiset{last};
      if last.Some? {
        assert Successes(arrived) == Successes(init) + [last.value];
      } else {
        assert Successes(arrived) == Successes(init);
      }
    }
  }

  /** The accumulated items do not depend on the arrival order, up to order. */
  lemma SuccessesRespectPermutation(a: seq<Option<Item>>, b: seq<Option<Item>>)
    requires multiset(a) == multiset(b)
    ensures multiset(Successes(a)) == multiset(Successes(b))
  {
    forall x
      ensures multiset(Successes(a))[x] == multiset(Successes(b))[x]
    {
      SuccessesCount(a, x);
      SuccessesCount(b, x);
    }
  }

  /** `firstIndex(of:)`. */
  function FirstIndex(ids: seq<ItemID>, id: ItemID): (r: Option<nat>)
    ensures r.None? <==> id !in ids
    ensures r.Some? ==> r.value < |ids| && ids[r.value] == id && id !in ids[..r.value]
    decreases |ids|
  {
    if ids == [] then None
    else if ids[0] == id then Some(0)
    else
      match FirstIndex(ids[1..], id)
      case None => None
      case Some(i) =>
        assert ids[..i + 1] == [ids[0]] + ids[1..][..i];
        Some(i + 1)
  }

  /** The sort key of an item: the first index of its id. An id that is not
      requested has no key; it is given |ids| here, which only matters when
      the comparator is never called (see `Traps`). */
  function Rank(ids: seq<ItemID>, item: Item): nat
  {
    match FirstIndex(ids, item.Id())
    case Some(i) => i
    case None => |ids|
  }

  function Ranks(ids: seq<ItemID>, s: seq<Item>): seq<nat>
  {
    seq(|s|, i requires 0 <= i < |s| => Rank(ids, s[i]))
  }

  /** No item is ordered before one of smaller key: the postcondition of
      `sorted(by:)` with the comparator `firstIndex(a) < firstIndex(b)`. */
  ghost predicate SortedByRank(ids: seq<ItemID>, s: seq<Item>)
  {
    forall i, j :: 0 <= i < j < |s| ==> Rank(ids, s[i]) <= Rank(ids, s[j])
  }

  ghost predicate NonDecreasing(s: seq<nat>)
  {
    forall i, j :: 0 <= i < j < |s| ==> s[i] <= s[j]
  }

  /** Inserts `x` into a sorted sequence. */
  function Insert(ids: seq<ItemID>, x: Item, s: seq<Item>): (r: seq<Item>)
    requires SortedByRank(ids, s)
    ensures multiset(r) == multiset(s) + multiset{x}
    ensures SortedByRank(ids, r)
    decreases |s|
  {
    if s == [] || Rank(ids, x) <= Rank(ids, s[0]) then
      ConsBelowHead(ids, x, s);
      [x] + s
    else
      TailSorted(ids, s);
      var t := Insert(ids, x, s[1..]);
      assert s == [s[0]] + s[1..];
      assert multiset(s) == multiset{s[0]} + multiset(s[1..]);
      InsertKeys(ids, x, s[1..], t, Rank(ids, s[0]));
      ConsSorted(ids, s[0], t);
      [s[0]] + t
  }

  /** The tail of a sorted sequence is sorted and no key in it is below the head's. */
  lemma TailSorted(ids: seq<ItemID>, s: seq<Item>)
    requires SortedByRank(ids, s) && s != []
    ensures SortedByRank(ids, s[1..])
    ensures forall i :: 0 <= i < |s[1..]| ==> Rank(ids, s[0]) <= Rank(ids, s[1..][i])
  {
    forall i, j | 0 <= i < j < |s| - 1 ensures Rank(ids, s[1..][i]) <= Rank(ids, s[1..][j]) {
      assert s[1..][i] == s[i + 1] && s[1..][j] == s[j + 1];
    }
    forall i | 0 <= i < |s| - 1 ensures Rank(ids, s[0]) <= Rank(ids, s[1..][i]) {
      assert s[1..][i] == s[i + 1];
    }
  }

  /** Every element of a permutation of `s + [x]` has a key no smaller than
      `lo` when `x` and the elements of `s` do. */
  lemma InsertKeys(ids: seq<ItemID>, x: Item, s: seq<Item>, t: seq<Item>, lo: nat)
    requires multiset(t) == multiset(s) + multiset{x}
    requires lo <= Rank(ids, x) && forall i :: 0 <= i < |s| ==> lo <= Rank(ids, s[i])
    ensures forall j :: 0 <= j < |t| ==> lo <= Rank(ids, t[j])
  {
    forall j | 0 <= j < |t| ensures lo <= Rank(ids, t[j]) {
      assert t[j] in multiset(t);
      if t[j] != x {
        assert t[j] in multiset(s);
      }
    }
  }

  lemma ConsBelowHead(ids: seq<ItemID>, h: Item, t: seq<Item>)
    requires SortedByRank(ids, t) && (t == [] || Rank(ids, h) <= Rank(ids, t[0]))
    ensures SortedByRank(ids, [h] + t)
  {
    forall j | 0 <= j < |t| ensures Rank(ids, h) <= Rank(ids, t[j]) {
      if j > 0 {
        assert Rank(ids, t[0]) <= Rank(ids, t[j]);
      }
    }
    ConsSorted(ids, h, t);
  }

  lemma ConsSorted(ids: seq<ItemID>, h: Item, t: seq<Item>)
    requires SortedByRank(ids, t)
    requires forall j :: 0 <= j < |t| ==> Rank(ids, h) <= Rank(ids, t[j])
    ensures SortedByRank(ids, [h] + t)
  {
    var r := [h] + t;
    forall i, j | 0 <= i < j < |r| ensures Rank(ids, r[i]) <= Rank(ids, r[j]) {
      assert r[j] == t[j - 1];
      if i > 0 {
        assert r[i] == t[i - 1];
      }
    }
  }

  /** The library sort, as an insertion sort. Swift does not promise that
      `sorted(by:)` is stable; the properties proved below hold for every
      sorted permutation, so they do not depend on this choice. */
  function SortByRank(ids: seq<ItemID>, s: seq<Item>): (r: seq<Item>)
    ensures multiset(r) == multiset(s)
    ensures SortedByRank(ids, r)
    decreases |s|
  {
    if s == [] then []
    else
      assert s == [s[0]] + s[1..];
      Insert(ids, s[0], SortByRank(ids, s[1..]))
  }

  /** The force unwrap in the comparator traps on an item whose id was not
      requested. With two or more items every item is compared at least once;
      with fewer the comparator is never called. */
  predicate Traps(ids: seq<ItemID>, acc: seq<Item>)
  {
    |acc| >= 2 && exists x :: x in acc && x.Id() !in ids
  }

  datatype Reassembled = Delivered(items: seq<Item>) | Trapped

  /** What `getItems` returns for the given arrival order of the outcomes. */
  function Reassemble(ids: seq<ItemID>, arrived: seq<Option<Item>>): (r: Reassembled)
    ensures r.Trapped? <==> Traps(ids, Successes(arrived))
    ensures r.Delivered? ==> multiset(r.items) == multiset(Successes(arrived)) && SortedByRank(ids, r.items)
  {
    var acc := Successes(arrived);
    if Traps(ids, acc) then Trapped else Delivered(SortByRank(ids, acc))
  }

  function IdsOf(items: seq<Item>): seq<ItemID>
  {
    seq(|items|, i requires 0 <= i < |items| => items[i].Id())
  }

  // ----- lemmas about orderings -----

  lemma TrapRespectsPermutation(ids: seq<ItemID>, a: seq<Item>, b: seq<Item>)
    requires multiset(a) == multiset(b)
    ensures Traps(ids, a) == Traps(ids, b)
  {
    assert |a| == |multiset(a)| == |multiset(b)| == |b|;
    forall x ensures x in a <==> x in b {
      assert x in a <==> x in multiset(a);
      assert x in b <==> x in multiset(b);
    }
  }

  lemma {:induction false} RanksRespectPermutation(ids: seq<ItemID>, a: seq<Item>, b: seq<Item>)
    requires multiset(a) == multiset(b)
    ensures multiset(Ranks(ids, a)) == multiset(Ranks(ids, b))
    decreases |a|
  {
    assert |a| == |multiset(a)| == |multiset(b)| == |b|;
    if a != [] {
      var x := a[0];
      assert x in multiset(b);
      var j :| 0 <= j < |b| && b[j] == x;
      var b1, b2 := b[..j], b[j + 1..];
      var b' := b1 + b2;
      assert b == b1 + [x] + b2;
      assert multiset(b) == multiset(b1) + multiset{x} + multiset(b2);
      assert a == [x] + a[1..];
      assert multiset(a) == multiset{x} + multiset(a[1..]);
      CancelOne(x, multiset(a[1..]), multiset(b'));
      RanksRespectPermutation(ids, a[1..], b');
      RanksOfConcat(ids, [x], a[1..]);
      RanksOfConcat(ids, b1 + [x], b2);
      RanksOfConcat(ids, b1, [x]);
      RanksOfConcat(ids, b1, b2);
    }
  }

  lemma CancelOne<T>(x: T, p: multiset<T>, q: multiset<T>)
    requires multiset{x} + p == multiset{x} + q
    ensures p == q
  {
    forall y ensures p[y] == q[y] {
      assert (multiset{x} + p)[y] == (multiset{x} + q)[y];
    }
  }

  lemma RanksOfConcat(ids: seq<ItemID>, s: seq<Item>, t: seq<Item>)
    ensures Ranks(ids, s + t) == Ranks(ids, s) + Ranks(ids, t)
  {
  }

  /** The first element of a non-empty non-decreasing sequence is its least. */
  lemma HeadIsLeast(a: seq<nat>, v: nat)
    requires NonDecreasing(a) && v in multiset(a)
    ensures a[0] <= v
  {
    var j :| 0 <= j < |a| && a[j] == v;
    if j > 0 {
      assert a[0] <= a[j];
    }
  }

  lemma TailNonDecreasing(a: seq<nat>)
    requires NonDecreasing(a) && a != []
    ensures NonDecreasing(a[1..])
  {
    forall i, j | 0 <= i < j < |a| - 1 ensures a[1..][i] <= a[1..][j] {
      assert a[1..][i] == a[i + 1] && a[1..][j] == a[j + 1];
    }
  }

  /** Two sorted sequences of the same keys are the same sequence. */
  lemma {:induction false} SortedUnique(a: seq<nat>, b: seq<nat>)
    requires multiset(a) == multiset(b) && NonDecreasing(a) && NonDecreasing(b)
    ensures a == b
    decreases |a|
  {
    assert |a| == |multiset(a)| == |multiset(b)| == |b|;
    if a != [] {
      assert a[0] in multiset(b) && b[0] in multiset(a);
      HeadIsLeast(b, a[0]);
      HeadIsLeast(a, b[0]);
      assert a == [a[0]] + a[1..];
      assert b == [b[0]] + b[1..];
      assert multiset(a) == multiset{a[0]} + multiset(a[1..]);
      assert multiset(b) == multiset{b[0]} + multiset(b[1..]);
      CancelOne(a[0], multiset(a[1..]), multiset(b[1..]));
      TailNonDecreasing(a);
      TailNonDecreasing(b);
      SortedUnique(a[1..], b[1..]);
    }
  }

  /** Every sorted arrangement of the same items has the same key sequence. */
  lemma SortedRanksAgree(ids: seq<ItemID>, a: seq<Item>, b: seq<Item>)
    requires multiset(a) == multiset(b) && SortedByRank(ids, a) && SortedByRank(ids, b)
    ensures Ranks(ids, a) == Ranks(ids, b)
  {
    RanksRespectPermutation(ids, a, b);
    SortedUnique(Ranks(ids, a), Ranks(ids, b));
  }

  lemma SmallPermutationIsEqual(a: seq<Item>, b: seq<Item>)
    requires multiset(a) == multiset(b) && |a| <= 1
    ensures a == b
  {
    assert |a| == |multiset(a)| == |multiset(b)| == |b|;
    if |a| == 1 {
      assert a[0] in multiset(b);
    }
  }

  /** Outside a trap, every accumulated item was requested. */
  lemma AllRequested(ids: seq<ItemID>, acc: seq<Item>, x: seq<Item>)
    requires |acc| >= 2 && !Traps(ids, acc) && multiset(x) == multiset(acc)
    ensures forall j :: 0 <= j < |x| ==> x[j].Id() in ids
  {
    forall j | 0 <= j < |x| ensures x[j].Id() in ids {
      assert x[j] in multiset(acc);
    }
  }

  /** Requested items with the same keys have the same ids. */
  lemma SameRanksSameIds(ids: seq<ItemID>, xa: seq<Item>, xb: seq<Item>)
    requires Ranks(ids, xa) == Ranks(ids, xb)
    requires forall j :: 0 <= j < |xa| ==> xa[j].Id() in ids
    requires forall j :: 0 <= j < |xb| ==> xb[j].Id() in ids
    ensures IdsOf(xa) == IdsOf(xb)
  {
    assert |xa| == |Ranks(ids, xa)| == |xb|;
    forall j | 0 <= j < |xa| ensures xa[j].Id() == xb[j].Id() {
      assert Ranks(ids, xa)[j] == Ranks(ids, xb)[j];
    }
  }

  /** The sequence of ids `getItems` returns, and whether it traps, is the
      same for every arrival order of the same outcomes. */
  lemma ArrivalOrderIrrelevant(ids: seq<ItemID>, a: seq<Option<Item>>, b: seq<Option<Item>>)
    requires multiset(a) == multiset(b)
    ensures Reassemble(ids, a).Trapped? == Reassemble(ids, b).Trapped?
    ensures Reassemble(ids, a).Delivered? ==>
      && multiset(Reassemble(ids, a).items) == multiset(Reassemble(ids, b).items)
      && IdsOf(Reassemble(ids, a).items) == IdsOf(Reassemble(ids, b).items)
  {
    var sa, sb := Successes(a), Successes(b);
    SuccessesRespectPermutation(a, b);
    TrapRespectsPermutation(ids, sa, sb);
    if !Traps(ids, sa) {
      var xa, xb := SortByRank(ids, sa), SortByRank(ids, sb);
      if |sa| <= 1 {
        SmallPermutationIsEqual(sa, sb);
      } else {
        SortedRanksAgree(ids, xa, xb);
        AllRequested(ids, sa, xa);
        AllRequested(ids, sb, xb);
        SameRanksSameIds(ids, xa, xb);
      }
    }
  }

  /** What any arrangement of the per-request outcomes reassembles to, stated
      over the outcomes in request order. */
  lemma ArrangementReassembly(ids: seq<ItemID>, outcomes: seq<Option<Item>>, arrived: seq<Option<Item>>)
    requires |outcomes| == |ids| && multiset(arrived) == multiset(outcomes)
    ensures Reassemble(ids, arrived).Trapped? <==> Traps(ids, Successes(outcomes))
    ensures Reassemble(ids, arrived).Delivered? ==>
      && multiset(Reassemble(ids, arrived).items) == multiset(Successes(outcomes))
      && SortedByRank(ids, Reassemble(ids, arrived).items)
      && |Reassemble(ids, arrived).items| <= |ids|
  {
    var acc := Successes(arrived);
    SuccessesRespectPermutation(arrived, outcomes);
    TrapRespectsPermutation(ids, acc, Successes(outcomes));
    assert |arrived| == |multiset(arrived)| == |multiset(outcomes)| == |ids|;
    var r := Reassemble(ids, arrived);
    if r.Delivered? {
      assert |r.items| == |multiset(r.items)| == |multiset(acc)| == |acc| <= |arrived|;
    }
  }

  // ----- when the input order comes back -----

  /** Each success answers its own request, and that request is the first
      occurrence of its id (for instance, when the ids are distinct). */
  ghost predicate AnswersFirstRequests(ids: seq<ItemID>, outcomes: seq<Option<Item>>)
  {
    && |outcomes| == |ids|
    && forall i :: 0 <= i < |outcomes| && outcomes[i].Some? ==>
         outcomes[i].value.Id() == ids[i] && ids[i] !in ids[..i]
  }

  ghost predicate StrictlyByRank(ids: seq<ItemID>, s: seq<Item>)
  {
    forall i, j :: 0 <= i < j < |s| ==> Rank(ids, s[i]) < Rank(ids, s[j])
  }

  /** Under `AnswersFirstRequests`, the successes in request order carry
      strictly increasing keys below `k`. */
  lemma {:induction false} SuccessesInRequestOrder(ids: seq<ItemID>, outcomes: seq<Option<Item>>, k: nat)
    requires AnswersFirstRequests(ids, outcomes) && k <= |outcomes|
    ensures StrictlyByRank(ids, Successes(outcomes[..k]))
    ensures forall x :: x in Successes(outcomes[..k]) ==> x.Id() in ids && Rank(ids, x) < k
    decreases k
  {
    if k > 0 {
      var init := outcomes[..k - 1];
      assert outcomes[..k][..k - 1] == init;
      SuccessesInRequestOrder(ids, outcomes, k - 1);
      var prev := Successes(init);
      var o := outcomes[k - 1];
      assert outcomes[..k] == init + [o];
      if o.Some? {
        FirstIndexOf(ids, k - 1);
        assert Successes(outcomes[..k]) == prev + [o.value];
        assert Rank(ids, o.value) == k - 1;
        AppendStrict(ids, prev, o.value);
      } else {
        assert Successes(outcomes[..k]) == prev;
      }
    }
  }

  lemma AppendStrict(ids: seq<ItemID>, s: seq<Item>, y: Item)
    requires StrictlyByRank(ids, s)
    requires forall x :: x in s ==> Rank(ids, x) < Rank(ids, y)
    ensures StrictlyByRank(ids, s + [y])
    ensures forall x :: x in s + [y] ==> x in s || x == y
  {
    var r := s + [y];
    forall i, j | 0 <= i < j < |r| ensures Rank(ids, r[i]) < Rank(ids, r[j]) {
      assert r[i] == s[i];
      if j < |s| {
        assert r[j] == s[j];
      } else {
        assert s[i] in s;
      }
    }
  }

  lemma PrefixMembers(s: seq<ItemID>, n: nat)
    requires n <= |s|
    ensures forall j :: 0 <= j < n ==> s[j] in s[..n]
  {
    forall j | 0 <= j < n ensures s[j] in s[..n] {
      assert s[..n][j] == s[j];
    }
  }

  /** A position holding the first occurrence of its id is that id's first index. */
  lemma FirstIndexOf(ids: seq<ItemID>, i: nat)
    requires i < |ids| && ids[i] !in ids[..i]
    ensures FirstIndex(ids, ids[i]) == Some(i)
  {
    var r := FirstIndex(ids, ids[i]);
    PrefixMembers(ids, i);
    PrefixMembers(ids, r.value);
  }

  lemma SortedEqualsStrict(ids: seq<ItemID>, r: seq<Item>, e: seq<Item>)
    requires multiset(r) == multiset(e) && SortedByRank(ids, r) && StrictlyByRank(ids, e)
    ensures r == e
  {
    SortedRanksAgree(ids, r, e);
    assert |r| == |multiset(r)| == |multiset(e)| == |e|;
    forall i | 0 <= i < |r|
      ensures r[i] == e[i]
    {
      assert r[i] in multiset(e);
      var j :| 0 <= j < |e| && e[j] == r[i];
      assert Ranks(ids, r)[i] == Ranks(ids, e)[i];
    }
  }

  /** When each success answers the first request for its id, `getItems`
      returns exactly the successes in request order, whatever the arrival
      order: failures are dropped and the rest keep their relative order. */
  lemma RequestOrderRestored(ids: seq<ItemID>, outcomes: seq<Option<Item>>, arrived: seq<Option<Item>>)
    requires AnswersFirstRequests(ids, outcomes)
    requires multiset(arrived) == multiset(outcomes)
    ensures Reassemble(ids, arrived) == Delivered(Successes(outcomes))
  {
    var e := Successes(outcomes);
    var acc := Successes(arrived);
    SuccessesInRequestOrder(ids, outcomes, |outcomes|);
    assert outcomes[..|outcomes|] == outcomes;
    SuccessesRespectPermutation(arrived, outcomes);
    forall x | x in acc ensures x.Id() in ids {
      assert x in multiset(acc);
    }
    assert !Traps(ids, acc);
    SortedEqualsStrict(ids, SortByRank(ids, acc), e);
  }

  /** With distinct ids and every fetch answering its own request, the ids
      come back exactly as requested. */
  lemma DistinctIdsComeBackInOrder(ids: seq<ItemID>, outcomes: seq<Option<Item>>, arrived: seq<Option<Item>>)
    requires |outcomes| == |ids|
    requires forall i, j :: 0 <= i < j < |ids| ==> ids[i] != ids[j]
    requires forall i :: 0 <= i < |ids| ==> outcomes[i].Some? && outcomes[i].value.Id() == ids[i]
    requires multiset(arrived) == multiset(outcomes)
    ensures Reassemble(ids, arrived).Delivered? && IdsOf(Reassemble(ids, arrived).items) == ids
  {
    assert AnswersFirstRequests(ids, outcomes) by {
      forall i | 0 <= i < |ids| ensures ids[i] !in ids[..i] {
        assert forall j :: 0 <= j < i ==> ids[..i][j] != ids[i];
      }
    }
    RequestOrderRestored(ids, outcomes, arrived);
    AllSuccesses(outcomes, |outcomes|);
    assert outcomes[..|outcomes|] == outcomes;
  }

  lemma {:induction false} AllSuccesses(outcomes: seq<Option<Item>>, k: nat)
    requires k <= |outcomes| && forall i :: 0 <= i < |outcomes| ==> outcomes[i].Some?
    ensures |Successes(outcomes[..k])| == k
    ensures forall i :: 0 <= i < k ==> Successes(outcomes[..k])[i] == outcomes[i].value
    decreases k
  {
    if k > 0 {
      var init, last := outcomes[..k][..k - 1], outcomes[..k][k - 1];
      assert init == outcomes[..k - 1];
      AllSuccesses(outcomes, k - 1);
      assert last == Some(outcomes[k - 1].value);
      assert Successes(outcomes[..k]) == Successes(init) + [last.value];
    }
  }

  /** Requests [5, 9, 9, 12] where both fetches of 9 fail give [item 5, item 12]. */
  lemma PartialFailureExample(five: Item, twelve: Item, arrived: seq<Option<Item>>)
    requires five.Id() == 5 && twelve.Id() == 12
    requires multiset(arrived) == multiset([Some(five), None, None, Some(twelve)])
    ensures Reassemble([5, 9, 9, 12], arrived) == Delivered([five, twelve])
  {
    var outcomes := [Some(five), None, None, Some(twelve)];
    var ids: seq<ItemID> := [5, 9, 9, 12];
    assert AnswersFirstRequests(ids, outcomes) by {
      assert ids[..0] == [] && ids[..3] == [5, 9, 9];
    }
    RequestOrderRestored(ids, outcomes, arrived);
    ExampleSuccesses(five, twelve);
  }

  lemma ExampleSuccesses(five: Item, twelve: Item)
    ensures Successes([Some(five), None, None, Some(twelve)]) == [five, twelve]
  {
    var o1: seq<Option<Item>> := [Some(five)];
    var o2 := o1 + [None];
    var o3 := o2 + [None];
    var o4 := o3 + [Some(twelve)];
    assert o1[..0] == [] && o2[..1] == o1 && o3[..2] == o2 && o4[..3] == o3;
    assert Successes(o1) == [five];
    assert Successes(o2) == [five];
    assert Successes(o3) == [five];
    assert o4 == [Some(five), None, None, Some(twelve)];
  }

  /** An unknown item (id -1) next to any other item traps unless -1 was requested. */
  lemma UnknownTraps(ids: seq<ItemID>, arrived: seq<Option<Item>>)
    requires Some(Unknown) in arrived && |Successes(arrived)| >= 2 && -1 !in ids
    ensures Reassemble(ids, arrived) == Trapped
  {
    var acc := Successes(arrived);
    ArrivedIsAccumulated(arrived, Unknown);
    assert Unknown in acc && Unknown.Id() !in ids;
  }

  /** An item that arrives is accumulated. */
  lemma ArrivedIsAccumulated(arrived: seq<Option<Item>>, x: Item)
    requires Some(x) in arrived
    ensures x in Successes(arrived)
  {
    SuccessesCount(arrived, x);
    assert Some(x) in multiset(arrived);
    assert x in multiset(Successes(arrived));
  }
}
