/**
 * Checker mode: `processClaims` and the "Check Specific Number" lookup.
 * Every maximal run of digits in the pasted text is a claimed number; the
 * universe is 1..N; the unclaimed list is the universe minus the claims.
 */
module Checker {
  import opened Wrappers
  import opened Seqs
  import opened Text

  // ------------------------------------------------- number extraction

  /** `s[i..j]` is one match of `/\d+/g`: a run of digits that cannot be extended. */
  ghost predicate MaximalRun(s: string, i: int, j: int)
  {
    && 0 <= i < j <= |s|
    && AllDigits(s[i..j])
    && (i == 0 || !IsDigit(s[i - 1]))
    && (j == |s| || !IsDigit(s[j]))
  }

  /** `i` does not fall strictly inside a run of digits. */
  predicate Boundary(s: string, i: nat)
    requires i <= |s|
  {
    i == 0 || i == |s| || !IsDigit(s[i - 1]) || !IsDigit(s[i])
  }

  /** The digit runs of `s[i..]`, scanned left to right. */
  function RunsFrom(s: string, i: nat): (rs: seq<(nat, nat)>)
    requires i <= |s|
    ensures forall r :: r in rs ==> i <= r.0 < r.1 <= |s| && AllDigits(s[r.0..r.1])
    decreases |s| - i
  {
    if i == |s| then []
    else if !IsDigit(s[i]) then RunsFrom(s, i + 1)
    else
      var j := DigitEnd(s, i);
      assert AllDigits(s[i..j]) by {
        forall k | 0 <= k < j - i ensures IsDigit(s[i..j][k]) {
          assert s[i..j][k] == s[i + k];
        }
      }
      [(i, j)] + RunsFrom(s, j)
  }

  /** The scan finds exactly the maximal digit runs that start at or after a boundary. */
  lemma {:induction false} RunsFromAreMaximal(s: string, i0: nat)
    requires i0 <= |s| && Boundary(s, i0)
    ensures forall i: nat, j: nat :: (i, j) in RunsFrom(s, i0) <==> i0 <= i && MaximalRun(s, i, j)
    decreases |s| - i0
  {
    if i0 == |s| {
    } else if !IsDigit(s[i0]) {
      RunsFromAreMaximal(s, i0 + 1);
    } else {
      var j0 := DigitEnd(s, i0);
      RunsFromAreMaximal(s, j0);
      assert MaximalRun(s, i0, j0);
      forall i: nat, j: nat | i0 <= i && MaximalRun(s, i, j)
        ensures (i, j) == (i0, j0) || j0 <= i
      {
      }
    }
  }

  /** The matches of `/\d+/g` in `s`, as index pairs. */
  function Runs(s: string): seq<(nat, nat)>
  {
    RunsFrom(s, 0)
  }

  /** `(s.match(/\d+/g) || []).map(Number)`: the value of every digit run, in order. */
  function Numbers(s: string): (ns: seq<nat>)
    ensures |ns| == |Runs(s)|
  {
    var rs := Runs(s);
    seq(|rs|, k requires 0 <= k < |rs| => assert rs[k] in rs; DigitValue(s[rs[k].0..rs[k].1]))
  }

  /** The set of the entries of a list: `new Set(xs)`. */
  function Elements(xs: seq<nat>): (e: set<nat>)
    ensures forall x :: x in e <==> x in xs
  {
    if xs == [] then {} else {xs[0]} + Elements(xs[1..])
  }

  /** `new Set(matches.map(Number))` */
  function ClaimedSet(s: string): set<nat>
  {
    Elements(Numbers(s))
  }

  /** A number is claimed exactly when some maximal digit run of the text spells it. */
  lemma ClaimedSetIsRunValues(s: string, x: nat)
    ensures x in ClaimedSet(s) <==> exists i: nat, j: nat :: MaximalRun(s, i, j) && DigitValue(s[i..j]) == x
  {
    RunsFromAreMaximal(s, 0);
    var rs := Runs(s);
    if x in ClaimedSet(s) {
      var k :| 0 <= k < |rs| && Numbers(s)[k] == x;
      assert rs[k] in rs;
      assert MaximalRun(s, rs[k].0, rs[k].1);
    }
    if exists i: nat, j: nat :: MaximalRun(s, i, j) && DigitValue(s[i..j]) == x {
      var i: nat, j: nat :| MaximalRun(s, i, j) && DigitValue(s[i..j]) == x;
      assert (i, j) in rs;
      var k :| 0 <= k < |rs| && rs[k] == (i, j);
      assert Numbers(s)[k] == x;
    }
  }

  // ----------------------------------------------------------- sorting

  /** Adds `x` to an ascending list of distinct numbers, keeping it so. */
  function InsertAscending(xs: seq<nat>, x: nat): (r: seq<nat>)
    requires StrictlyAscending(xs)
    ensures StrictlyAscending(r)
    ensures forall y :: y in r <==> y in xs || y == x
  {
    if xs == [] then [x]
    else if x < xs[0] then
      assert forall y :: y in xs ==> x < y;
      AscendingCons(x, xs);
      [x] + xs
    else if x == xs[0] then xs
    else
      var rest := InsertAscending(xs[1..], x);
      assert forall y :: y in rest ==> xs[0] < y;
      AscendingCons(xs[0], rest);
      [xs[0]] + rest
  }

  /** `Array.from(new Set(xs)).sort((a, b) => a - b)` */
  function AscendingSet(xs: seq<nat>): (r: seq<nat>)
    ensures StrictlyAscending(r)
    ensures forall y :: y in r <==> y in xs
  {
    if xs == [] then []
    else InsertAscending(AscendingSet(xs[..|xs| - 1]), xs[|xs| - 1])
  }

  /** The universe of item numbers, 1..n. */
  function Universe(n: nat): set<nat>
  {
    if n == 0 then {} else Universe(n - 1) + {n}
  }

  lemma {:induction false} UniverseMembers(n: nat)
    ensures forall k: nat :: k in Universe(n) <==> 1 <= k <= n
  {
    if n > 0 {
      UniverseMembers(n - 1);
    }
  }

  /** `Array.from({ length: n }, (_, i) => i + 1).filter((num) => !claimed.has(num))` */
  function UnclaimedUpTo(claimed: set<nat>, n: nat): (r: seq<nat>)
    ensures StrictlyAscending(r)
    ensures forall k: nat :: k in r <==> 1 <= k <= n && k !in claimed
    ensures forall k :: 0 <= k < |r| ==> r[k] <= n
  {
    if n == 0 then []
    else UnclaimedUpTo(claimed, n - 1) + (if n in claimed then [] else [n])
  }

  lemma {:induction false} UniverseSize(n: nat)
    ensures |Universe(n)| == n
  {
    if n > 0 {
      UniverseSize(n - 1);
      UniverseStep(n);
    }
  }

  lemma UniverseStep(n: nat)
    requires n >= 1
    ensures |Universe(n)| == |Universe(n - 1)| + 1
  {
    UniverseMembers(n - 1);
    assert n !in Universe(n - 1);
  }

  /** An ascending list of distinct numbers has as many entries as its set of elements. */
  lemma {:induction false} AscendingSize(xs: seq<nat>)
    requires StrictlyAscending(xs)
    ensures |Elements(xs)| == |xs|
  {
    if xs != [] {
      AscendingSize(xs[1..]);
      assert xs[0] !in Elements(xs[1..]);
    }
  }

  // ----------------------------------------------------- processClaims

  datatype CheckerResult = CheckerResult(
    claimed: seq<nat>,
    unclaimed: seq<nat>,
    countClaimed: nat,
    countUnclaimed: nat,
    percentClaimed: real,
    percentUnclaimed: real)

  /** `count / total * 100`, exact (App.jsx then rounds it with `toFixed(2)`). */
  function Percent(count: nat, total: nat): real
    requires total >= 1
  {
    (count as real) * 100.0 / (total as real)
  }

  /**
   * `processClaims(rawData, totalItems)`. The claimed count is the size of the
   * whole claimed set, numbers outside 1..N included, so the two counts add up
   * to N plus the number of out-of-range claims.
   */
  function ProcessClaims(text: string, total: nat): (r: CheckerResult)
    requires total >= 1
    ensures StrictlyAscending(r.claimed)
    ensures forall x: nat :: x in r.claimed <==> x in ClaimedSet(text)
    ensures StrictlyAscending(r.unclaimed)
    ensures forall k: nat :: k in r.unclaimed <==> 1 <= k <= total && k !in ClaimedSet(text)
    ensures r.countClaimed == |r.claimed| == |ClaimedSet(text)|
    ensures r.countUnclaimed == |r.unclaimed| == |Universe(total) - ClaimedSet(text)|
    ensures r.countClaimed + r.countUnclaimed == total + |ClaimedSet(text) - Universe(total)|
  {
    var claimedSet := ClaimedSet(text);
    var claimed := AscendingSet(Numbers(text));
    var unclaimed := UnclaimedUpTo(claimedSet, total);
    CountsAdd(claimedSet, claimed, unclaimed, total);
    CheckerResult(claimed, unclaimed, |claimedSet|, |unclaimed|,
                  Percent(|claimedSet|, total), Percent(|unclaimed|, total))
  }

  lemma CountsAdd(claimedSet: set<nat>, claimed: seq<nat>, unclaimed: seq<nat>, total: nat)
    requires StrictlyAscending(claimed) && forall x: nat :: x in claimed <==> x in claimedSet
    requires StrictlyAscending(unclaimed)
    requires forall k: nat :: k in unclaimed <==> 1 <= k <= total && k !in claimedSet
    ensures |claimed| == |claimedSet|
    ensures |unclaimed| == |Universe(total) - claimedSet|
    ensures |claimedSet| + |unclaimed| == total + |claimedSet - Universe(total)|
  {
    AscendingSize(claimed);
    assert Elements(claimed) == claimedSet;
    AscendingSize(unclaimed);
    UniverseMembers(total);
    assert Elements(unclaimed) == Universe(total) - claimedSet;
    UniverseSize(total);
    PartitionSizes(claimedSet, Universe(total));
  }

  /** Counting a set and the rest of a universe against the universe and what lies outside it. */
  lemma PartitionSizes(c: set<nat>, u: set<nat>)
    ensures |c| + |u - c| == |u| + |c - u|
  {
    assert u == (u - c) + (u * c);
    assert c == (c - u) + (u * c);
  }

  /**
   * The two percentages add up to 100 exactly when every claimed number lies in
   * 1..N; an out-of-range claim pushes the sum above 100.
   */
  lemma PercentsSum(text: string, total: nat)
    requires total >= 1
    ensures var r := ProcessClaims(text, total);
      && (r.percentClaimed + r.percentUnclaimed == 100.0 <==> ClaimedSet(text) <= Universe(total))
      && r.percentClaimed + r.percentUnclaimed >= 100.0
  {
    var r := ProcessClaims(text, total);
    var extra := |ClaimedSet(text) - Universe(total)|;
    PercentOfSum(r.countClaimed, r.countUnclaimed, total, extra);
    NoneOutside(ClaimedSet(text), Universe(total));
  }

  lemma NoneOutside(a: set<nat>, u: set<nat>)
    ensures a <= u <==> |a - u| == 0
  {
    if a <= u {
      assert a - u == {};
    } else {
      var x :| x in a && x !in u;
      assert x in a - u;
    }
  }

  lemma PercentOfSum(a: nat, b: nat, total: nat, extra: nat)
    requires total >= 1 && a + b == total + extra
    ensures Percent(a, total) + Percent(b, total) == 100.0 + (extra as real) * 100.0 / (total as real)
    ensures (extra as real) * 100.0 / (total as real) >= 0.0
    ensures (extra as real) * 100.0 / (total as real) == 0.0 <==> extra == 0
  {
    var t := total as real;
    assert (a as real) * 100.0 / t + (b as real) * 100.0 / t == ((a as real) + (b as real)) * 100.0 / t;
    assert (a as real) + (b as real) == t + extra as real;
    assert (t + extra as real) * 100.0 / t == t * 100.0 / t + (extra as real) * 100.0 / t;
  }

  // ------------------------------------------------------------ lookup

  /**
   * The "Check" button: `results.claimed.includes(parseInt(lookupNumber, 10))`.
   * An entry without a digit parses to `NaN`, which is never included.
   */
  function Lookup(claimed: seq<nat>, entry: string): (found: bool)
    ensures found ==> HasDigit(entry)
    ensures found ==> exists x: nat :: x in claimed && ParseInt(entry) == Some(x)
    ensures ParseInt(entry).Some? && ParseInt(entry).value in claimed ==> found
  {
    match ParseInt(entry)
    case None => false
    case Some(v) => v in claimed
  }

  /**
   * The lookup reports exactly whether the number `parseInt` reads from the
   * entry is claimed, whatever form it takes: "7", "07", "+7", " 7" and "7x"
   * all look up 7, and an entry without a number is never claimed.
   */
  lemma LookupReads(text: string, total: nat, entry: string)
    requires total >= 1
    ensures Lookup(ProcessClaims(text, total).claimed, entry) <==>
      ParseInt(entry).Some? && ParseInt(entry).value >= 0 && ParseInt(entry).value in ClaimedSet(text)
  {
    var r := ProcessClaims(text, total);
    match ParseInt(entry)
    case None =>
    case Some(v) =>
      if v >= 0 {
        var x: nat := v;
        assert x in r.claimed <==> x in ClaimedSet(text);
      } else {
        assert forall y :: y in r.claimed ==> y >= 0;
      }
  }

  /** Looking up the decimal form of a number reports whether the text claims it. */
  lemma LookupDecimal(text: string, total: nat, x: nat)
    requires total >= 1
    ensures Lookup(ProcessClaims(text, total).claimed, Decimal(x)) <==> x in ClaimedSet(text)
  {
    ParseIntShow(x);
    assert Show(x) == Decimal(x);
  }
}
