/**
 * The first half of `assignClaims`: the merged claim map, the demand counter,
 * `priorityScore`, and the order in which general users are served.
 */
module Scoring {
  import opened Wrappers
  import opened Seqs
  import opened Dict
  import opened Blocks

  /** One entry of a claim map: a name and the numbers claimed under it. */
  type Entry = (string, seq<int>)

  // ---------------------------------------------------------- merging

  /** `{ ...goms, ...users }`: later keys overwrite in place, new keys are appended. */
  function Merge(goms: Claims, users: Claims): (all: Claims)
    ensures forall k :: k in Keys(all) <==> k in Keys(goms) || k in Keys(users)
    ensures UniqueKeys(goms) ==> UniqueKeys(all)
    decreases |users|
  {
    if users == [] then goms
    else
      var last := users[|users| - 1];
      var init := users[..|users| - 1];
      assert forall k :: k in Keys(users) <==> k in Keys(init) || k == last.0;
      Put(Merge(goms, init), last.0, last.1)
  }

  /** A user list replaces the priority list of the same name; other lists are kept. */
  lemma {:induction false} MergeGet(goms: Claims, users: Claims, k: string)
    requires UniqueKeys(users)
    ensures Get(Merge(goms, users), k) == if k in Keys(users) then Get(users, k) else Get(goms, k)
    decreases |users|
  {
    if users != [] {
      var last := users[|users| - 1];
      var init := users[..|users| - 1];
      assert users == init + [last];
      assert Keys(users) == Keys(init) + [last.0];
      MergeGet(goms, init, k);
      GetSnoc(init, last.0, last.1, k);
      if k == last.0 {
        GetUnique(users, |users| - 1);
      }
    }
  }

  /** `Object.values(d).flat()` */
  function Flatten(d: Claims): (items: seq<int>)
    ensures forall x :: x in items <==> exists k :: 0 <= k < |d| && x in d[k].1
  {
    if d == [] then []
    else
      var init := d[..|d| - 1];
      assert forall k :: 0 <= k < |init| ==> init[k] == d[k];
      Flatten(init) + d[|d| - 1].1
  }

  // ----------------------------------------------------------- demand

  /** The counter the `forEach` builds: `demandCounter[item] = (demandCounter[item] || 0) + 1`. */
  function Tally(items: seq<int>): (m: map<int, nat>)
    ensures forall x :: x in m ==> 1 <= m[x] <= |items|
  {
    if items == [] then map[]
    else
      var x := items[|items| - 1];
      var m := Tally(items[..|items| - 1]);
      m[x := (if x in m then m[x] else 0) + 1]
  }

  /** The counter holds exactly the items, each with its number of occurrences. */
  lemma {:induction false} TallyCounts(items: seq<int>)
    ensures forall x :: x in Tally(items) <==> x in items
    ensures forall x :: x in Tally(items) ==> Tally(items)[x] == Count(items, x)
  {
    if items != [] {
      var init := items[..|items| - 1];
      TallyCounts(init);
      assert forall y :: y in items <==> y in init || y == items[|items| - 1];
    }
  }

  /** `demandCounter` for the two claim maps. */
  function Demand(goms: Claims, users: Claims): map<int, nat>
  {
    Tally(Flatten(Merge(goms, users)))
  }

  /** The demand loop: every occurrence of an item in the merged map counts once. */
  method CountDemand(all: Claims) returns (demand: map<int, nat>)
    ensures demand == Tally(Flatten(all))
    ensures forall x :: x in demand <==> x in Flatten(all)
    ensures forall x :: x in demand ==> demand[x] == Count(Flatten(all), x)
  {
    var items := Flatten(all);
    TallyCounts(items);
    demand := map[];
    var i := 0;
    while i < |items|
      invariant 0 <= i <= |items|
      invariant demand == Tally(items[..i])
    {
      var item := items[i];
      demand := demand[item := (if item in demand then demand[item] else 0) + 1];
      TallySnoc(items, i);
      i := i + 1;
    }
    assert items[..|items|] == items;
  }

  lemma TallySnoc(items: seq<int>, i: nat)
    requires i < |items|
    ensures var m := Tally(items[..i]);
      Tally(items[..i + 1]) == m[items[i] := (if items[i] in m then m[items[i]] else 0) + 1]
  {
    assert items[..i + 1][..i] == items[..i];
  }

  // --------------------------------------------------------- priority

  /** An item nobody else wants: `demandCounter[i] === 1`. */
  predicate IsLow(demand: map<int, nat>, i: int)
  {
    i in demand && demand[i] == 1
  }

  /** A contested item: `demandCounter[i] > 3`. */
  predicate IsHigh(demand: map<int, nat>, i: int)
  {
    i in demand && demand[i] > 3
  }

  /** `items.filter(i => demandCounter[i] === 1).length` */
  function LowCount(demand: map<int, nat>, items: seq<int>): nat
  {
    if items == [] then 0
    else LowCount(demand, items[..|items| - 1]) + (if IsLow(demand, items[|items| - 1]) then 1 else 0)
  }

  /** `items.filter(i => demandCounter[i] > 3).length` */
  function HighCount(demand: map<int, nat>, items: seq<int>): nat
  {
    if items == [] then 0
    else HighCount(demand, items[..|items| - 1]) + (if IsHigh(demand, items[|items| - 1]) then 1 else 0)
  }

  /** `priorityScore(items)` */
  function PriorityScore(demand: map<int, nat>, items: seq<int>): int
  {
    5 * |items| + 3 * LowCount(demand, items) - 2 * HighCount(demand, items)
  }

  /** What one claim is worth: 8 for an uncontested item, 3 for a contested one, else 5. */
  function Weight(demand: map<int, nat>, i: int): int
  {
    if IsLow(demand, i) then 8 else if IsHigh(demand, i) then 3 else 5
  }

  /** The total weight of a list; every occurrence counts, duplicates included. */
  function WeightSum(demand: map<int, nat>, items: seq<int>): (w: int)
    ensures 3 * |items| <= w <= 8 * |items|
  {
    if items == [] then 0
    else WeightSum(demand, items[..|items| - 1]) + Weight(demand, items[|items| - 1])
  }

  /** The score is the sum of the per-claim weights, so it lies between 3 and 8 per claim. */
  lemma {:induction false} ScoreIsWeightSum(demand: map<int, nat>, items: seq<int>)
    ensures PriorityScore(demand, items) == WeightSum(demand, items)
    ensures 3 * |items| <= PriorityScore(demand, items) <= 8 * |items|
  {
    if items != [] {
      ScoreIsWeightSum(demand, items[..|items| - 1]);
    }
  }

  // ---------------------------------------------------------- sorting

  function Score(demand: map<int, nat>, e: Entry): int
  {
    PriorityScore(demand, e.1)
  }

  /** Highest key first. */
  ghost predicate NonIncreasing<T>(key: T -> int, xs: seq<T>)
  {
    forall i, j :: 0 <= i < j < |xs| ==> key(xs[i]) >= key(xs[j])
  }

  /** The elements whose key is `v`, in their order. */
  function WithKey<T>(key: T -> int, xs: seq<T>, v: int): seq<T>
  {
    if xs == [] then []
    else
      var last := xs[|xs| - 1];
      WithKey(key, xs[..|xs| - 1], v) + (if key(last) == v then [last] else [])
  }

  /** Places `e` after every element whose key is at least as high. */
  function InsertBy<T(==)>(key: T -> int, sorted: seq<T>, e: T): (r: seq<T>)
    requires NonIncreasing(key, sorted)
    ensures NonIncreasing(key, r)
    ensures multiset(r) == multiset(sorted) + multiset{e}
    decreases |sorted|
  {
    if sorted == [] then [e]
    else
      var last := sorted[|sorted| - 1];
      var init := sorted[..|sorted| - 1];
      if key(last) >= key(e) then sorted + [e]
      else
        assert sorted == init + [last];
        var r' := InsertBy(key, init, e);
        LastIsLowest(key, sorted);
        assert forall x :: x in r' ==> x in multiset(init) + multiset{e};
        AppendBelow(key, r', last);
        r' + [last]
  }

  lemma LastIsLowest<T>(key: T -> int, sorted: seq<T>)
    requires NonIncreasing(key, sorted) && sorted != []
    ensures forall x :: x in sorted[..|sorted| - 1] ==> key(x) >= key(sorted[|sorted| - 1])
  {
    var init := sorted[..|sorted| - 1];
    forall x | x in init ensures key(x) >= key(sorted[|sorted| - 1]) {
      var k :| 0 <= k < |init| && init[k] == x;
      assert sorted[k] == x;
    }
  }

  lemma AppendBelow<T>(key: T -> int, xs: seq<T>, y: T)
    requires NonIncreasing(key, xs)
    requires forall x :: x in xs ==> key(x) >= key(y)
    ensures NonIncreasing(key, xs + [y])
  {
    var r := xs + [y];
    forall i, j | 0 <= i < j < |r| ensures key(r[i]) >= key(r[j]) {
      assert r[i] == xs[i];
      if j < |xs| {
        assert r[j] == xs[j];
      } else {
        assert xs[i] in xs;
      }
    }
  }

  /** A stable sort by descending key (insertion sort, so ties keep their order). */
  function SortBy<T(==)>(key: T -> int, xs: seq<T>): (r: seq<T>)
    ensures NonIncreasing(key, r)
    ensures multiset(r) == multiset(xs)
  {
    if xs == [] then []
    else
      var init := xs[..|xs| - 1];
      assert xs == init + [xs[|xs| - 1]];
      InsertBy(key, SortBy(key, init), xs[|xs| - 1])
  }

  lemma WithKeySnoc<T>(key: T -> int, xs: seq<T>, y: T, v: int)
    ensures WithKey(key, xs + [y], v) == WithKey(key, xs, v) + (if key(y) == v then [y] else [])
  {
    assert (xs + [y])[..|xs|] == xs;
  }

  lemma AppendCommuteEmpty<T>(w: seq<T>, a: seq<T>, b: seq<T>)
    requires a == [] || b == []
    ensures w + a + b == w + b + a
  {
  }

  /** Inserting keeps the relative order of the elements of every key. */
  lemma {:induction false} InsertStable<T>(key: T -> int, sorted: seq<T>, e: T, v: int)
    requires NonIncreasing(key, sorted)
    ensures WithKey(key, InsertBy(key, sorted, e), v) == WithKey(key, sorted, v) + (if key(e) == v then [e] else [])
    decreases |sorted|
  {
    if sorted == [] {
      assert InsertBy(key, sorted, e) == [] + [e];
      WithKeySnoc(key, [], e, v);
    } else {
      var last := sorted[|sorted| - 1];
      var init := sorted[..|sorted| - 1];
      assert sorted == init + [last];
      if key(last) >= key(e) {
        assert InsertBy(key, sorted, e) == sorted + [e];
        WithKeySnoc(key, sorted, e, v);
      } else {
        assert NonIncreasing(key, init);
        InsertStable(key, init, e, v);
        InsertPastLast(key, sorted, e, v);
      }
    }
  }

  /** The step of `InsertStable` where `e` moves in front of the last element. */
  lemma InsertPastLast<T>(key: T -> int, sorted: seq<T>, e: T, v: int)
    requires NonIncreasing(key, sorted) && sorted != []
    requires key(sorted[|sorted| - 1]) < key(e)
    requires var init := sorted[..|sorted| - 1];
      WithKey(key, InsertBy(key, init, e), v) == WithKey(key, init, v) + (if key(e) == v then [e] else [])
    ensures WithKey(key, InsertBy(key, sorted, e), v) == WithKey(key, sorted, v) + (if key(e) == v then [e] else [])
  {
    var last := sorted[|sorted| - 1];
    var init := sorted[..|sorted| - 1];
    assert sorted == init + [last];
    var r' := InsertBy(key, init, e);
    assert InsertBy(key, sorted, e) == r' + [last];
    WithKeySnoc(key, r', last, v);
    WithKeySnoc(key, init, last, v);
    AppendCommuteEmpty(WithKey(key, init, v), if key(e) == v then [e] else [], if key(last) == v then [last] else []);
  }

  /** The sort is stable: for every key, the elements with that key keep their order. */
  lemma {:induction false} SortStable<T>(key: T -> int, xs: seq<T>, v: int)
    ensures WithKey(key, SortBy(key, xs), v) == WithKey(key, xs, v)
  {
    if xs != [] {
      var init := xs[..|xs| - 1];
      SortStable(key, init, v);
      InsertStable(key, SortBy(key, init), xs[|xs| - 1], v);
    }
  }

  /**
   * `Object.entries(userClaims).sort(([, a], [, b]) => priorityScore(b) - priorityScore(a))`.
   * JavaScript's sort is stable, so this is the stable sort by descending score.
   */
  function SortUsers(demand: map<int, nat>, users: Claims): (sorted: seq<Entry>)
    ensures multiset(sorted) == multiset(users)
    ensures forall i, j :: 0 <= i < j < |sorted| ==> Score(demand, sorted[i]) >= Score(demand, sorted[j])
  {
    SortBy(e => Score(demand, e), users)
  }

  /** Users with equal scores are served in the order of the claim map. */
  lemma SortUsersStable(demand: map<int, nat>, users: Claims, v: int)
    ensures WithKey(e => Score(demand, e), SortUsers(demand, users), v) == WithKey(e => Score(demand, e), users, v)
  {
    SortStable(e => Score(demand, e), users, v);
  }
}
