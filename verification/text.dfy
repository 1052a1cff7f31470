/**
 * The text primitives App.jsx relies on: `String.prototype.trim`, the
 * `/[0-9]/` and `/\d+/` regular expressions, `split` and `join`, and
 * `parseInt(s, 10)`. Characters are restricted to ASCII semantics: the
 * whitespace set is the ASCII one and a digit is '0'..'9'.
 */
module Text {
  import opened Wrappers
  import Seqs

  /** What `\d` and `[0-9]` match (no `u` flag: ASCII digits only). */
  predicate IsDigit(c: char)
  {
    '0' <= c <= '9'
  }

  /** The ASCII part of the whitespace set that `trim` removes. */
  predicate IsSpace(c: char)
  {
    c == ' ' || c == '\t' || c == '\n' || c == '\r' || c == '\U{B}' || c == '\U{C}'
  }

  predicate AllDigits(s: string)
  {
    forall k :: 0 <= k < |s| ==> IsDigit(s[k])
  }

  /** `/[0-9]/.test(s)` */
  predicate HasDigit(s: string)
  {
    exists k :: 0 <= k < |s| && IsDigit(s[k])
  }

  // ---------------------------------------------------------------- trim

  /** The first index at or after `i` that does not hold whitespace. */
  function SkipSpaces(s: string, i: nat): (j: nat)
    requires i <= |s|
    ensures i <= j <= |s|
    ensures forall k :: i <= k < j ==> IsSpace(s[k])
    ensures j == |s| || !IsSpace(s[j])
    decreases |s| - i
  {
    if i < |s| && IsSpace(s[i]) then SkipSpaces(s, i + 1) else i
  }

  /** The end of `s[lo..j]` once its trailing whitespace is dropped. */
  function SkipSpacesBack(s: string, lo: nat, j: nat): (e: nat)
    requires lo <= j <= |s|
    ensures lo <= e <= j
    ensures forall k :: e <= k < j ==> IsSpace(s[k])
    ensures e == lo || !IsSpace(s[e - 1])
    decreases j - lo
  {
    if lo < j && IsSpace(s[j - 1]) then SkipSpacesBack(s, lo, j - 1) else j
  }

  /** `s.trim()`: empty exactly when `s` is all whitespace; only whitespace is removed. */
  function Trim(s: string): (r: string)
    ensures r == [] <==> forall k :: 0 <= k < |s| ==> IsSpace(s[k])
    ensures r != [] ==> !IsSpace(r[0]) && !IsSpace(r[|r| - 1])
    ensures HasDigit(r) <==> HasDigit(s)
    ensures forall c :: c !in s ==> c !in r
    ensures exists a, b ::
      && 0 <= a <= b <= |s| && r == s[a..b]
      && forall k :: 0 <= k < |s| && !(a <= k < b) ==> IsSpace(s[k])
  {
    var a := SkipSpaces(s, 0);
    var b := SkipSpacesBack(s, a, |s|);
    assert forall k :: 0 <= k < |s| && !(a <= k < b) ==> IsSpace(s[k]);
    SliceHasDigit(s, a, b);
    SliceChars(s, a, b);
    s[a..b]
  }

  /** Cutting away only whitespace keeps every digit. */
  lemma SliceHasDigit(s: string, a: nat, b: nat)
    requires a <= b <= |s|
    requires forall k :: 0 <= k < |s| && !(a <= k < b) ==> IsSpace(s[k])
    ensures HasDigit(s[a..b]) <==> HasDigit(s)
  {
    var r := s[a..b];
    if HasDigit(s) {
      var k :| 0 <= k < |s| && IsDigit(s[k]);
      assert r[k - a] == s[k];
    }
    if HasDigit(r) {
      var k :| 0 <= k < |r| && IsDigit(r[k]);
      assert s[a + k] == r[k];
    }
  }

  /** A slice holds no character its text lacks. */
  lemma SliceChars(s: string, a: nat, b: nat)
    requires a <= b <= |s|
    ensures forall c :: c !in s ==> c !in s[a..b]
  {
    var r := s[a..b];
    forall c | c in r ensures c in s {
      var k :| 0 <= k < |r| && r[k] == c;
      assert s[a + k] == c;
    }
  }

  // ------------------------------------------------------- digit runs

  /** The end of the run of digits that starts at `i`. */
  function DigitEnd(s: string, i: nat): (j: nat)
    requires i <= |s|
    ensures i <= j <= |s|
    ensures forall k :: i <= k < j ==> IsDigit(s[k])
    ensures j == |s| || !IsDigit(s[j])
    decreases |s| - i
  {
    if i < |s| && IsDigit(s[i]) then DigitEnd(s, i + 1) else i
  }

  function DigitOf(c: char): nat
    requires IsDigit(c)
  {
    (c as int - '0' as int) as nat
  }

  function CharOf(d: nat): (c: char)
    requires d < 10
    ensures IsDigit(c) && DigitOf(c) == d
  {
    ('0' as int + d) as char
  }

  /** `Number(ds)` for a string of decimal digits, read most significant first. */
  function DigitValue(ds: string): nat
    requires AllDigits(ds)
  {
    if ds == [] then 0
    else 10 * DigitValue(ds[..|ds| - 1]) + DigitOf(ds[|ds| - 1])
  }

  /** Leading zeros do not change the value of a digit run ("007" reads as 7). */
  lemma {:induction false} LeadingZeroIgnored(ds: string)
    requires AllDigits(ds)
    ensures AllDigits(['0'] + ds) && DigitValue(['0'] + ds) == DigitValue(ds)
    decreases |ds|
  {
    if ds != [] {
      var init := ds[..|ds| - 1];
      LeadingZeroIgnored(init);
      assert (['0'] + ds)[..|ds|] == ['0'] + init;
    }
  }

  /** The canonical decimal rendering of a natural number. */
  function Decimal(n: nat): (r: string)
    ensures |r| >= 1 && AllDigits(r)
    ensures r[0] != '0' || r == "0"
    ensures DigitValue(r) == n
  {
    if n < 10 then [CharOf(n)]
    else
      var r := Decimal(n / 10) + [CharOf(n % 10)];
      assert r[..|r| - 1] == Decimal(n / 10);
      r
  }

  // --------------------------------------------------------- parseInt

  /** Where the digits of `parseInt` start: after leading whitespace and an optional sign. */
  function DigitStart(s: string): (b: nat)
    ensures b <= |s|
  {
    var a := SkipSpaces(s, 0);
    if a < |s| && (s[a] == '-' || s[a] == '+') then a + 1 else a
  }

  /**
   * `parseInt(s, 10)`: skip leading whitespace, read an optional sign and then
   * the longest digit prefix; `None` (JavaScript's `NaN`) when that prefix is empty.
   */
  function ParseInt(s: string): (r: Option<int>)
    ensures r.None? <==> DigitStart(s) == |s| || !IsDigit(s[DigitStart(s)])
    ensures r.Some? ==> HasDigit(s)
  {
    var a := SkipSpaces(s, 0);
    var b := DigitStart(s);
    var e := DigitEnd(s, b);
    if e == b then None
    else
      var v: int := DigitValue(s[b..e]);
      assert IsDigit(s[b]);
      Some(if b > a && s[a] == '-' then -v else v)
  }

  /**
   * A digit run after an optional sign is read up to the first non-digit:
   * `parseInt("12x")` is 12 and `parseInt("-3")` is -3.
   */
  lemma ParseIntReadsDigitPrefix(sign: string, ds: string, rest: string)
    requires sign == "" || sign == "+" || sign == "-"
    requires ds != [] && AllDigits(ds)
    requires rest == [] || !IsDigit(rest[0])
    ensures ParseInt(sign + ds + rest) == Some(if sign == "-" then 0 - DigitValue(ds) else DigitValue(ds))
  {
    var s := sign + ds + rest;
    var n := |sign|;
    var e := n + |ds|;
    SignedLayout(sign, ds, rest);
    DigitEndExact(s, n, e);
    ParseIntReads(s, n, e);
    var v: int := DigitValue(ds);
    assert ParseInt(s) == Some(if n > 0 && s[0] == '-' then 0 - v else v);
  }

  /** Where the sign, the digits and the rest sit in `sign + ds + rest`. */
  lemma SignedLayout(sign: string, ds: string, rest: string)
    requires sign == "" || sign == "+" || sign == "-"
    requires ds != [] && AllDigits(ds)
    requires rest == [] || !IsDigit(rest[0])
    ensures var s, n := sign + ds + rest, |sign|;
      && SkipSpaces(s, 0) == 0
      && DigitStart(s) == n
      && (forall k :: n <= k < n + |ds| ==> IsDigit(s[k]))
      && (n + |ds| == |s| || !IsDigit(s[n + |ds|]))
      && s[n..n + |ds|] == ds
      && (n > 0 && s[0] == '-' <==> sign == "-")
  {
    var s := sign + ds + rest;
    var n := |sign|;
    var e := n + |ds|;
    assert s[0] == if sign == "" then ds[0] else sign[0];
    SkipSpacesAt(s, 0);
    forall k | n <= k < e ensures IsDigit(s[k]) {
      assert s[k] == ds[k - n];
    }
    if e < |s| {
      assert s[e] == rest[0];
    }
    assert s[n..e] == ds;
  }

  /** `parseInt` reads the digits between the sign and the first non-digit. */
  lemma ParseIntReads(s: string, b: nat, e: nat)
    requires DigitStart(s) == b < e && DigitEnd(s, b) == e
    ensures AllDigits(s[b..e])
    ensures ParseInt(s) == Some(if b > SkipSpaces(s, 0) && s[SkipSpaces(s, 0)] == '-' then 0 - DigitValue(s[b..e]) else DigitValue(s[b..e]))
  {
  }

  /** Skipping whitespace stops at once on a non-space character. */
  lemma SkipSpacesAt(s: string, i: nat)
    requires i < |s| && !IsSpace(s[i])
    ensures SkipSpaces(s, i) == i
  {
  }

  /** The digit run that starts at `b` ends at the first non-digit. */
  lemma DigitEndExact(s: string, b: nat, e: nat)
    requires b <= e <= |s|
    requires forall k :: b <= k < e ==> IsDigit(s[k])
    requires e == |s| || !IsDigit(s[e])
    ensures DigitEnd(s, b) == e
  {
    var j := DigitEnd(s, b);
    assert !(j < e) && !(e < j);
  }

  /** Whitespace before the number is skipped: `parseInt(" 7")` is `parseInt("7")`. */
  lemma ParseIntSkipsSpaces(ws: string, s: string)
    requires forall k :: 0 <= k < |ws| ==> IsSpace(ws[k])
    ensures ParseInt(ws + s) == ParseInt(s)
  {
    var a, b := SkipSpaces(s, 0), DigitStart(s);
    var e := DigitEnd(s, b);
    ShiftedStart(ws, s);
    ShiftedEnd(ws, s, b);
    if e > b {
      var neg := b > a && s[a] == '-';
      ParseIntReads(s, b, e);
      ParseIntIs(s, a, b, e, s[b..e], neg);
      SliceShift(ws, s, b, e);
      ShiftedRead(ws, s, a, b, e, s[b..e], neg);
    } else {
      ParseIntNoDigits(s);
      ParseIntNoDigits(ws + s);
    }
  }

  /** The number `s` holds at `a..e` is read the same from `ws + s`. */
  lemma ShiftedRead(ws: string, s: string, a: nat, b: nat, e: nat, ds: string, neg: bool)
    requires a <= b < e <= |s| && (ws + s)[|ws| + b..|ws| + e] == ds && AllDigits(ds)
    requires SkipSpaces(ws + s, 0) == |ws| + a && (ws + s)[|ws| + a] == s[a]
    requires DigitStart(ws + s) == |ws| + b && DigitEnd(ws + s, |ws| + b) == |ws| + e
    requires neg == (b > a && s[a] == '-')
    ensures ParseInt(ws + s) == Some(if neg then 0 - DigitValue(ds) else DigitValue(ds))
  {
    ParseIntIs(ws + s, |ws| + a, |ws| + b, |ws| + e, ds, neg);
  }

  /** `parseInt` in terms of where its sign and digits sit and what the digits are worth. */
  lemma ParseIntIs(s: string, a: nat, b: nat, e: nat, ds: string, neg: bool)
    requires SkipSpaces(s, 0) == a && DigitStart(s) == b < e && DigitEnd(s, b) == e
    requires s[b..e] == ds && AllDigits(ds)
    requires neg == (b > a && s[a] == '-')
    ensures ParseInt(s) == Some(if neg then 0 - DigitValue(ds) else DigitValue(ds))
  {
    ParseIntReads(s, b, e);
  }

  /** Without a digit after the whitespace and the sign, `parseInt` gives `NaN`. */
  lemma ParseIntNoDigits(s: string)
    requires DigitEnd(s, DigitStart(s)) == DigitStart(s)
    ensures ParseInt(s).None?
  {
  }

  /** A slice of `s` is the shifted slice of `p + s`. */
  lemma SliceShift(p: string, s: string, i: nat, j: nat)
    requires i <= j <= |s|
    ensures (p + s)[|p| + i..|p| + j] == s[i..j]
  {
  }

  /** Leading whitespace shifts where the sign and the digits of `s` start. */
  lemma ShiftedStart(ws: string, s: string)
    requires forall k :: 0 <= k < |ws| ==> IsSpace(ws[k])
    ensures var t, n, a := ws + s, |ws|, SkipSpaces(s, 0);
      && SkipSpaces(t, 0) == n + a
      && (a < |s| ==> t[n + a] == s[a])
      && DigitStart(t) == n + DigitStart(s)
  {
    var t, n := ws + s, |ws|;
    var a := SkipSpaces(s, 0);
    forall k | 0 <= k < n + a ensures IsSpace(t[k]) {
      if k >= n {
        assert t[k] == s[k - n];
      }
    }
    if a < |s| {
      assert t[n + a] == s[a];
    }
    SkipSpacesExact(t, 0, n + a);
  }

  /** A digit run of `s` ends, shifted, where the same run of `ws + s` ends. */
  lemma ShiftedEnd(ws: string, s: string, b: nat)
    requires b <= |s|
    ensures DigitEnd(ws + s, |ws| + b) == |ws| + DigitEnd(s, b)
  {
    var e := DigitEnd(s, b);
    ShiftedDigits(ws, s, b, e);
    DigitEndExact(ws + s, |ws| + b, |ws| + e);
  }

  /** The digit run of `s` from `b` to `e` is the digit run of `ws + s` from `|ws| + b`. */
  lemma ShiftedDigits(ws: string, s: string, b: nat, e: nat)
    requires b <= |s| && e == DigitEnd(s, b)
    ensures var t, n := ws + s, |ws|;
      && (forall k :: n + b <= k < n + e ==> IsDigit(t[k]))
      && (n + e == |t| || !IsDigit(t[n + e]))
  {
    var t, n := ws + s, |ws|;
    forall k | n + b <= k < n + e ensures IsDigit(t[k]) {
      assert t[k] == s[k - n];
    }
    if e < |s| {
      assert t[n + e] == s[e];
    }
  }

  /** Skipping whitespace from `i` stops at the first non-space at or after `i`. */
  lemma SkipSpacesExact(s: string, i: nat, j: nat)
    requires i <= j <= |s|
    requires forall k :: i <= k < j ==> IsSpace(s[k])
    requires j == |s| || !IsSpace(s[j])
    ensures SkipSpaces(s, i) == j
  {
    var r := SkipSpaces(s, i);
    assert !(r < j) && !(j < r);
  }

  /** The decimal rendering of an integer, with a '-' for negatives. */
  function Show(n: int): string
  {
    if n < 0 then "-" + Decimal(-n) else Decimal(n)
  }

  /** `parseInt` reads back what `Show` wrote. */
  lemma ParseIntShow(n: int)
    ensures ParseInt(Show(n)) == Some(n)
  {
    if n < 0 {
      ParseIntReadsDigitPrefix("-", Decimal(-n), "");
      assert "-" + Decimal(-n) + "" == Show(n);
    } else {
      ParseIntReadsDigitPrefix("", Decimal(n), "");
      assert "" + Decimal(n) + "" == Show(n);
    }
  }

  // ----------------------------------------------------- split / join

  /** The first index at or after `i` that holds `c`, or `|s|` when there is none. */
  function FindFrom(s: string, c: char, i: nat): (k: nat)
    requires i <= |s|
    ensures i <= k <= |s|
    ensures k < |s| ==> s[k] == c
    ensures forall j :: i <= j < k ==> s[j] != c
    decreases |s| - i
  {
    if i == |s| || s[i] == c then i else FindFrom(s, c, i + 1)
  }

  /** The first index of `c` in `s`, or `|s|` when there is none. */
  function Find(s: string, c: char): (k: nat)
    ensures k <= |s|
    ensures k < |s| ==> s[k] == c
    ensures forall j :: 0 <= j < k ==> s[j] != c
  {
    FindFrom(s, c, 0)
  }

  /** `s.split(sep)` for a one-character separator. */
  function Split(s: string, sep: char): (ps: seq<string>)
    ensures |ps| >= 1
    ensures forall p :: p in ps ==> sep !in p
    decreases |s|
  {
    var k := Find(s, sep);
    if k == |s| then [s]
    else [s[..k]] + Split(s[k + 1..], sep)
  }

  /** A character absent from the text is absent from every piece of its split. */
  lemma {:induction false} SplitAvoids(s: string, sep: char, c: char)
    requires c !in s
    ensures forall p :: p in Split(s, sep) ==> c !in p
    decreases |s|
  {
    var k := Find(s, sep);
    if k < |s| {
      SplitAvoids(s[k + 1..], sep, c);
    }
  }

  /** `ps.join(sep)` */
  function Join(ps: seq<string>, sep: char): (r: string)
    ensures |ps| >= 1 ==> ps[0] <= r
  {
    if |ps| == 0 then ""
    else if |ps| == 1 then ps[0]
    else ps[0] + [sep] + Join(ps[1..], sep)
  }

  /** Joining the pieces of a split gives back the text. */
  lemma {:induction false} JoinSplit(s: string, sep: char)
    ensures Join(Split(s, sep), sep) == s
    decreases |s|
  {
    var k := Find(s, sep);
    SplitAt(s, sep);
    if k < |s| {
      var rest := Split(s[k + 1..], sep);
      JoinSplit(s[k + 1..], sep);
      JoinCons(s[..k], rest, sep);
      SliceAt(s, k);
    }
  }

  lemma SliceAt(s: string, k: nat)
    requires k < |s|
    ensures s == s[..k] + [s[k]] + s[k + 1..]
  {
  }

  lemma JoinCons(p: string, rest: seq<string>, sep: char)
    requires |rest| >= 1
    ensures Join([p] + rest, sep) == p + [sep] + Join(rest, sep)
  {
    assert ([p] + rest)[1..] == rest;
  }

  /** Splitting joined pieces gives back the pieces, when none holds the separator. */
  lemma {:induction false} SplitJoin(ps: seq<string>, sep: char)
    requires |ps| >= 1
    requires forall p :: p in ps ==> sep !in p
    ensures Split(Join(ps, sep), sep) == ps
    decreases |ps|
  {
    assert ps[0] in ps;
    SplitWhole(ps[0], sep);
    if |ps| > 1 {
      SplitJoin(ps[1..], sep);
      JoinCons(ps[0], ps[1..], sep);
      assert ps == [ps[0]] + ps[1..];
      SplitAround(ps[0], Join(ps[1..], sep), sep);
    }
  }

  /** A text without the separator splits into itself alone. */
  lemma SplitWhole(p: string, sep: char)
    requires sep !in p
    ensures Split(p, sep) == [p]
  {
    SplitAt(p, sep);
  }

  /** The split distributes over a separator placed between two texts. */
  lemma {:induction false} SplitAround(a: string, b: string, sep: char)
    ensures Split(a + [sep] + b, sep) == Split(a, sep) + Split(b, sep)
    decreases |a|
  {
    var s := a + [sep] + b;
    var k := Find(a, sep);
    FindAround(a, b, sep);
    SplitAt(s, sep);
    SliceAround(a, b, sep, k);
    if k == |a| {
      SplitAt(a, sep);
      assert a[..k] == a;
    } else {
      var a' := a[k + 1..];
      SplitAround(a', b, sep);
      SplitAt(a, sep);
      Seqs.AppendAssoc([a[..k]], Split(a', sep), Split(b, sep));
    }
  }

  lemma SliceAround(a: string, b: string, sep: char, k: nat)
    requires k <= |a|
    ensures (a + [sep] + b)[..k] == a[..k]
    ensures k == |a| ==> (a + [sep] + b)[k + 1..] == b
    ensures k < |a| ==> (a + [sep] + b)[k + 1..] == a[k + 1..] + [sep] + b
  {
  }

  /** One step of the split: the text up to the first separator, then the split of the rest. */
  lemma SplitAt(s: string, sep: char)
    ensures var k := Find(s, sep);
      Split(s, sep) == if k == |s| then [s] else [s[..k]] + Split(s[k + 1..], sep)
  {
  }

  lemma FindAround(a: string, b: string, sep: char)
    ensures Find(a + [sep] + b, sep) == Find(a, sep)
  {
    var s := a + [sep] + b;
    var k := Find(a, sep);
    var m := Find(s, sep);
    assert s[|a|] == sep;
    if k < |a| { assert s[k] == a[k]; }
  }

  /** One trailing carriage return removed: the `\r?` of `/\r?\n/`. */
  function DropCR(l: string): string
  {
    if |l| > 0 && l[|l| - 1] == '\r' then l[..|l| - 1] else l
  }

  /**
   * `s.split(/\r?\n/)`: split on line feeds and strip one carriage return
   * before each line feed (the last piece is not followed by one).
   */
  function Lines(s: string): (ls: seq<string>)
    ensures |ls| == |Split(s, '\n')| >= 1
    ensures forall l :: l in ls ==> '\n' !in l
  {
    var ps := Split(s, '\n');
    var ls := seq(|ps|, k requires 0 <= k < |ps| => if k < |ps| - 1 then DropCR(ps[k]) else ps[k]);
    assert forall l :: l in ls ==> '\n' !in l by {
      forall l | l in ls ensures '\n' !in l {
        var k :| 0 <= k < |ls| && ls[k] == l;
        assert ps[k] in ps;
      }
    }
    ls
  }

  /** Without carriage returns, the lines are exactly the pieces between line feeds. */
  lemma LinesWithoutCR(s: string)
    requires '\r' !in s
    ensures Lines(s) == Split(s, '\n')
  {
    var ps := Split(s, '\n');
    SplitAvoids(s, '\n', '\r');
    forall k | 0 <= k < |ps| ensures DropCR(ps[k]) == ps[k] {
      assert ps[k] in ps;
    }
  }

  /** A line that keeps no carriage return at its end. */
  predicate NoTrailingCR(l: string)
  {
    l == [] || l[|l| - 1] != '\r'
  }

  /** Lines without line feeds or trailing carriage returns, joined by line feeds, are read back unchanged. */
  lemma LinesJoin(ps: seq<string>)
    requires |ps| >= 1
    requires forall p :: p in ps ==> '\n' !in p && NoTrailingCR(p)
    ensures Lines(Join(ps, '\n')) == ps
  {
    SplitJoin(ps, '\n');
    forall k | 0 <= k < |ps| ensures DropCR(ps[k]) == ps[k] {
      assert ps[k] in ps;
    }
  }

  /** `ps.join("\r\n")` */
  function JoinCRLF(ps: seq<string>): string
  {
    if |ps| == 0 then ""
    else if |ps| == 1 then ps[0]
    else ps[0] + ['\r', '\n'] + JoinCRLF(ps[1..])
  }

  /** Every line but the last with the carriage return that ends it in CRLF text. */
  function WithCR(ps: seq<string>): (qs: seq<string>)
    ensures |qs| == |ps|
  {
    seq(|ps|, k requires 0 <= k < |ps| => if k < |ps| - 1 then ps[k] + ['\r'] else ps[k])
  }

  /** Lines written with CRLF line ends are read back unchanged. */
  lemma LinesCRLF(ps: seq<string>)
    requires |ps| >= 1
    requires forall p :: p in ps ==> '\n' !in p
    ensures Lines(JoinCRLF(ps)) == ps
  {
    var qs := WithCR(ps);
    JoinCRLFIsJoin(ps);
    WithCRNoLF(ps);
    SplitJoin(qs, '\n');
    DropWithCR(ps);
  }

  lemma WithCRNoLF(ps: seq<string>)
    requires forall p :: p in ps ==> '\n' !in p
    ensures forall q :: q in WithCR(ps) ==> '\n' !in q
  {
    var qs := WithCR(ps);
    forall q | q in qs ensures '\n' !in q {
      var k :| 0 <= k < |qs| && qs[k] == q;
      assert ps[k] in ps;
    }
  }

  lemma DropWithCR(ps: seq<string>)
    ensures forall k :: 0 <= k < |ps| - 1 ==> DropCR(WithCR(ps)[k]) == ps[k]
  {
    var qs := WithCR(ps);
    forall k | 0 <= k < |ps| - 1 ensures DropCR(qs[k]) == ps[k] {
      assert qs[k][..|qs[k]| - 1] == ps[k];
    }
  }

  /** Joining with CRLF is joining the lines with their carriage returns by line feeds. */
  lemma {:induction false} JoinCRLFIsJoin(ps: seq<string>)
    requires |ps| >= 1
    ensures JoinCRLF(ps) == Join(WithCR(ps), '\n')
    decreases |ps|
  {
    if |ps| > 1 {
      JoinCRLFIsJoin(ps[1..]);
      assert WithCR(ps) == [ps[0] + ['\r']] + WithCR(ps[1..]);
      JoinCons(ps[0] + ['\r'], WithCR(ps[1..]), '\n');
      assert ps[0] + ['\r', '\n'] == ps[0] + ['\r'] + ['\n'];
    }
  }

  /** Joining pieces free of a character gives a text free of it. */
  lemma {:induction false} JoinAvoids(ps: seq<string>, sep: char, c: char)
    requires c != sep
    requires forall p :: p in ps ==> c !in p
    ensures c !in Join(ps, sep)
    decreases |ps|
  {
    if |ps| > 1 {
      JoinAvoids(ps[1..], sep, c);
      assert ps[0] in ps;
    } else if |ps| == 1 {
      assert ps[0] in ps;
    }
  }
}
