/**
 * `parseClaims`: turns a block of text into an object mapping each user name
 * to the list of numbers claimed under it. A line without a digit names the
 * current user (and empties that user's list); a line with a digit is a
 * comma-separated list of numbers for the current user; blank lines and data
 * lines before the first name are ignored.
 */
module Blocks {
  import opened Wrappers
  import opened Seqs
  import opened Text
  import opened Dict

  type Claims = Dict<seq<int>>

  // --------------------------------------------------------- data lines

  /** `parseInt(s.trim(), 10)`, with `None` for `NaN`. */
  function ParseToken(token: string): (r: Option<int>)
    ensures r.Some? ==> HasDigit(token)
  {
    ParseInt(Trim(token))
  }

  /** A parsed value as a list: empty for `NaN`. */
  function Kept(o: Option<int>): seq<int>
  {
    match o
    case None => []
    case Some(v) => [v]
  }

  /** `.filter(n => !isNaN(n))` */
  function Present(os: seq<Option<int>>): (ns: seq<int>)
    ensures |ns| <= |os|
  {
    if os == [] then [] else Kept(os[0]) + Present(os[1..])
  }

  lemma {:induction false} PresentConcat(a: seq<Option<int>>, b: seq<Option<int>>)
    ensures Present(a + b) == Present(a) + Present(b)
    decreases |a|
  {
    if a == [] {
      assert a + b == b;
    } else {
      var h := Kept(a[0]);
      PresentConcat(a[1..], b);
      assert (a + b)[0] == a[0];
      assert (a + b)[1..] == a[1..] + b;
      assert Present(a + b) == h + Present(a[1..] + b);
      assert Present(a) == h + Present(a[1..]);
      assert h + (Present(a[1..]) + Present(b)) == (h + Present(a[1..])) + Present(b);
    }
  }

  /** The numbers of one data line: its comma-separated tokens, each read by `parseInt`. */
  function LineNumbers(line: string): (ns: seq<int>)
    ensures |ns| <= |Split(line, ',')|
  {
    Present(Map(ParseToken, Split(line, ',')))
  }

  /** A single token yields its `parseInt` value, or nothing when that is `NaN`. */
  lemma LineNumbersOfToken(token: string)
    requires ',' !in token
    ensures LineNumbers(token) == Kept(ParseToken(token))
  {
    assert Text.Find(token, ',') == |token|;
    assert Split(token, ',') == [token];
    var o := ParseToken(token);
    assert Map(ParseToken, [token]) == [o];
    assert [o][1..] == [];
    assert Present([o]) == Kept(o) + Present([]);
  }

  /** The tokens on either side of a comma contribute in left-to-right order. */
  lemma LineNumbersAroundComma(a: string, b: string)
    ensures LineNumbers(a + [','] + b) == LineNumbers(a) + LineNumbers(b)
  {
    SplitAround(a, b, ',');
    MapConcat(ParseToken, Split(a, ','), Split(b, ','));
    PresentConcat(Map(ParseToken, Split(a, ',')), Map(ParseToken, Split(b, ',')));
  }

  // ------------------------------------------------------ the line scan

  /** How the loop treats a line: skipped, a user's name, or numbers for the current user. */
  datatype LineKind = Blank | Header(name: string) | Data(numbers: seq<int>)

  /**
   * `if (!line.trim()) continue; if (!/[0-9]/.test(line)) ... else ...`: a blank
   * line is skipped, a line without a digit names a user (trimmed), any other
   * line carries numbers.
   */
  function Classify(line: string): (k: LineKind)
    ensures k.Blank? <==> Trim(line) == ""
    ensures k.Header? <==> Trim(line) != "" && !HasDigit(line)
    ensures k.Header? ==> k.name == Trim(line) && k.name != "" && !HasDigit(k.name)
    ensures k.Data? ==> HasDigit(line) && k.numbers == LineNumbers(line)
  {
    if Trim(line) == "" then Blank
    else if !HasDigit(line) then Header(Trim(line))
    else Data(LineNumbers(line))
  }

  function Kinds(lines: seq<string>): (ks: seq<LineKind>)
    ensures |ks| == |lines|
    ensures forall i :: 0 <= i < |lines| ==> ks[i] == Classify(lines[i])
  {
    seq(|lines|, i requires 0 <= i < |lines| => Classify(lines[i]))
  }

  /** The loop's state: `currentUser` (`None` for `null`) and the `claims` object. */
  datatype ParseState = ParseState(current: Option<string>, claims: Claims)

  /** `d[k].push(...xs)` when `d[k]` exists. */
  function Extend(d: Claims, k: string, xs: seq<int>): (r: Claims)
    ensures Get(r, k) == match Get(d, k) case None => None case Some(v) => Some(v + xs)
    ensures forall k' :: k' != k ==> Get(r, k') == Get(d, k')
    ensures Keys(r) == Keys(d)
    ensures UniqueKeys(d) ==> UniqueKeys(r)
  {
    match Get(d, k)
    case None => d
    case Some(v) => Put(d, k, v + xs)
  }

  /** One iteration of the loop. */
  function Feed(st: ParseState, k: LineKind): ParseState
  {
    match k
    case Blank => st
    case Header(name) => ParseState(Some(name), Put(st.claims, name, []))
    case Data(ns) =>
      match st.current
      case None => st
      case Some(user) => ParseState(st.current, Extend(st.claims, user, ns))
  }

  /** The state after the loop has consumed lines of kinds `ks`. */
  function Run(ks: seq<LineKind>): ParseState
  {
    if ks == [] then ParseState(None, [])
    else Feed(Run(ks[..|ks| - 1]), ks[|ks| - 1])
  }

  /** The lines `parseClaims` scans: `raw.trim().split(/\r?\n/)`. */
  function RawLines(raw: string): seq<string>
  {
    Lines(Trim(raw))
  }

  /** `parseClaims(raw)` as a function of its input. */
  function ParseSpec(raw: string): Claims
  {
    Run(Kinds(RawLines(raw))).claims
  }

  /** `parseClaims(raw)` */
  method ParseClaims(raw: string) returns (claims: Claims)
    ensures claims == ParseSpec(raw)
    ensures UniqueKeys(claims)
    ensures forall name :: name in Keys(claims) ==> name != "" && !HasDigit(name)
  {
    var lines := RawLines(raw);
    ghost var kinds := Kinds(lines);
    claims := [];
    var current: Option<string> := None;
    var i := 0;
    while i < |lines|
      invariant 0 <= i <= |lines|
      invariant ParseState(current, claims) == Run(kinds[..i])
    {
      var line := lines[i];
      RunStep(lines, i);
      FeedLine(ParseState(current, claims), line);
      if Trim(line) == "" {
      } else if !HasDigit(line) {
        current := Some(Trim(line));
        claims := Put(claims, Trim(line), []);
      } else if current.Some? {
        claims := Extend(claims, current.value, LineNumbers(line));
      }
      i := i + 1;
    }
    assert kinds[..|lines|] == kinds;
    ParsedNames(raw);
  }

  /** One iteration of the scan feeds the next line's kind to the state. */
  lemma RunStep(lines: seq<string>, i: nat)
    requires i < |lines|
    ensures Run(Kinds(lines)[..i + 1]) == Feed(Run(Kinds(lines)[..i]), Classify(lines[i]))
  {
    var kinds := Kinds(lines);
    SliceSnoc(kinds, i);
    RunSnoc(kinds[..i], kinds[i]);
  }

  /** What one line does to the state, case by case. */
  lemma FeedLine(st: ParseState, line: string)
    ensures Feed(st, Classify(line)) ==
      if Trim(line) == "" then st
      else if !HasDigit(line) then ParseState(Some(Trim(line)), Put(st.claims, Trim(line), []))
      else if st.current.None? then st
      else ParseState(st.current, Extend(st.claims, st.current.value, LineNumbers(line)))
  {
  }

  /** A parsed claim map has unique, non-empty, digit-free names. */
  lemma ParsedNames(raw: string)
    ensures UniqueKeys(ParseSpec(raw))
    ensures forall name :: name in Keys(ParseSpec(raw)) ==> name != "" && !HasDigit(name)
  {
    RunKeys(Kinds(RawLines(raw)));
    HeaderNamesOfLines(RawLines(raw));
  }

  // ------------------------------------------- what the scan computes

  /** The names on the header lines, in order. */
  function HeaderNames(ks: seq<LineKind>): (hs: seq<string>)
    ensures forall h :: h in hs ==> Header(h) in ks
  {
    if ks == [] then []
    else
      var init := ks[..|ks| - 1];
      var last := ks[|ks| - 1];
      assert forall k :: k in init ==> k in ks;
      HeaderNames(init) + (if last.Header? then [last.name] else [])
  }

  /** A header read from text is a non-empty, digit-free name. */
  lemma HeaderNamesOfLines(lines: seq<string>)
    ensures forall h :: h in HeaderNames(Kinds(lines)) ==> h != "" && !HasDigit(h)
  {
    var ks := Kinds(lines);
    forall h | h in HeaderNames(ks) ensures h != "" && !HasDigit(h) {
      var j :| 0 <= j < |ks| && ks[j] == Header(h);
      assert Classify(lines[j]) == Header(h);
    }
  }

  ghost predicate NoHeaderFrom(ks: seq<LineKind>, i: nat)
  {
    forall m :: i <= m < |ks| ==> !ks[m].Header?
  }

  /** The position of the last header line. */
  function LastHeader(ks: seq<LineKind>): (r: Option<nat>)
    ensures r.Some? ==> r.value < |ks| && ks[r.value].Header?
  {
    if ks == [] then None
    else if ks[|ks| - 1].Header? then Some(|ks| - 1)
    else LastHeader(ks[..|ks| - 1])
  }

  /** No header follows the last one, and there is none at all when it is missing. */
  lemma {:induction false} LastHeaderIsLast(ks: seq<LineKind>)
    ensures LastHeader(ks).Some? ==> NoHeaderFrom(ks, LastHeader(ks).value + 1)
    ensures LastHeader(ks).None? ==> NoHeaderFrom(ks, 0)
  {
    if ks != [] && !ks[|ks| - 1].Header? {
      var init := ks[..|ks| - 1];
      LastHeaderIsLast(init);
      assert forall m :: 0 <= m < |init| ==> ks[m] == init[m];
    }
  }

  /** The position of the last header line naming `user`. */
  function LastHeaderNamed(ks: seq<LineKind>, user: string): (r: Option<nat>)
    ensures r.Some? ==> r.value < |ks| && ks[r.value] == Header(user)
  {
    if ks == [] then None
    else if ks[|ks| - 1] == Header(user) then Some(|ks| - 1)
    else LastHeaderNamed(ks[..|ks| - 1], user)
  }

  /** No header for `user` follows the last one, and there is none at all when it is missing. */
  lemma {:induction false} LastHeaderNamedIsLast(ks: seq<LineKind>, user: string)
    ensures LastHeaderNamed(ks, user).Some? ==>
      forall m :: LastHeaderNamed(ks, user).value < m < |ks| ==> ks[m] != Header(user)
    ensures LastHeaderNamed(ks, user).None? <==> Header(user) !in ks
  {
    if ks != [] && ks[|ks| - 1] != Header(user) {
      var init := ks[..|ks| - 1];
      LastHeaderNamedIsLast(init, user);
      assert forall m :: 0 <= m < |init| ==> ks[m] == init[m];
      assert ks == init + [ks[|ks| - 1]];
    }
  }

  function Contribution(k: LineKind): seq<int>
  {
    if k.Data? then k.numbers else []
  }

  /** The numbers of the lines from position `i` up to the next header (or the end). */
  function DataRun(ks: seq<LineKind>, i: nat): seq<int>
    requires i <= |ks|
    decreases |ks| - i
  {
    if i == |ks| || ks[i].Header? then []
    else Contribution(ks[i]) + DataRun(ks, i + 1)
  }

  lemma {:induction false} DataRunSnoc(ks: seq<LineKind>, k: LineKind, i: nat)
    requires i <= |ks|
    ensures NoHeaderFrom(ks, i) && !k.Header? ==> DataRun(ks + [k], i) == DataRun(ks, i) + Contribution(k)
    ensures NoHeaderFrom(ks, i) && k.Header? ==> DataRun(ks + [k], i) == DataRun(ks, i)
    ensures !NoHeaderFrom(ks, i) ==> DataRun(ks + [k], i) == DataRun(ks, i)
    decreases |ks| - i
  {
    var all := ks + [k];
    if i == |ks| {
      assert all[i] == k;
      assert DataRun(all, i + 1) == [];
    } else if ks[i].Header? {
      assert all[i] == ks[i];
    } else {
      assert all[i] == ks[i];
      DataRunSnoc(ks, k, i + 1);
      assert NoHeaderFrom(ks, i) <==> NoHeaderFrom(ks, i + 1);
      var c := Contribution(ks[i]);
      assert c + (DataRun(ks, i + 1) + Contribution(k)) == (c + DataRun(ks, i + 1)) + Contribution(k);
    }
  }

  /** A line that contributes no numbers leaves every run as it was. */
  lemma DataRunSnocSilent(ks: seq<LineKind>, k: LineKind, i: nat)
    requires i <= |ks| && !k.Data?
    ensures DataRun(ks + [k], i) == DataRun(ks, i)
  {
    DataRunSnoc(ks, k, i);
    assert DataRun(ks, i) + Contribution(k) == DataRun(ks, i);
  }

  /** `currentUser` is the name on the last header line. */
  lemma {:induction false} RunCurrent(ks: seq<LineKind>)
    ensures Run(ks).current == match LastHeader(ks) case None => None case Some(j) => Some(ks[j].name)
  {
    if ks != [] {
      var init := ks[..|ks| - 1];
      RunCurrent(init);
      if !ks[|ks| - 1].Header? {
        match LastHeader(init)
        case None =>
        case Some(j) => assert ks[j] == init[j];
      }
    }
  }

  /** The users appear in the order of their first header line, each once. */
  lemma {:induction false} RunKeys(ks: seq<LineKind>)
    ensures Keys(Run(ks).claims) == Distinct(HeaderNames(ks))
    ensures UniqueKeys(Run(ks).claims)
  {
    if ks != [] {
      var init := ks[..|ks| - 1];
      var last := ks[|ks| - 1];
      RunKeys(init);
      var hs := HeaderNames(init);
      if last.Header? {
        var n := last.name;
        assert HeaderNames(ks) == hs + [n];
        assert (hs + [n])[..|hs|] == hs;
        assert Distinct(hs + [n]) == if n in hs then Distinct(hs) else Distinct(hs) + [n];
      } else {
        assert HeaderNames(ks) == hs + [] == hs;
        assert Keys(Run(ks).claims) == Keys(Run(init).claims);
      }
    }
  }

  /**
   * What a user's list should be: the numbers of the data lines between the
   * LAST header naming that user and the next header, or no entry at all when
   * no header names the user.
   */
  function Expected(ks: seq<LineKind>, user: string): Option<seq<int>>
  {
    match LastHeaderNamed(ks, user)
    case None => None
    case Some(j) => Some(DataRun(ks, j + 1))
  }

  /**
   * The lists `parseClaims` builds are the expected ones: a repeated header
   * empties the list, and data lines before any header belong to nobody.
   */
  lemma {:induction false} RunClaims(ks: seq<LineKind>, user: string)
    ensures Get(Run(ks).claims, user) == Expected(ks, user)
  {
    if ks != [] {
      var init := ks[..|ks| - 1];
      var last := ks[|ks| - 1];
      assert ks == init + [last];
      RunClaims(init, user);
      RunCurrent(init);
      match last
      case Blank => StepBlank(init, user);
      case Header(name) => StepHeader(init, name, user);
      case Data(ns) => StepData(init, ns, user);
    }
  }

  lemma RunSnoc(init: seq<LineKind>, k: LineKind)
    ensures Run(init + [k]) == Feed(Run(init), k)
  {
    assert (init + [k])[..|init|] == init;
  }

  lemma LastNamedSnoc(init: seq<LineKind>, k: LineKind, user: string)
    ensures LastHeaderNamed(init + [k], user) == if k == Header(user) then Some(|init|) else LastHeaderNamed(init, user)
  {
    assert (init + [k])[..|init|] == init;
  }

  /**
   * A line that is not a header for `user`, and is not a data line of
   * `user`'s current run, leaves `user`'s expected list alone.
   */
  lemma ExpectedSnocOther(init: seq<LineKind>, k: LineKind, user: string)
    requires k != Header(user)
    requires k.Data? && LastHeaderNamed(init, user).Some? ==> !NoHeaderFrom(init, LastHeaderNamed(init, user).value + 1)
    ensures Expected(init + [k], user) == Expected(init, user)
  {
    var ks := init + [k];
    LastNamedSnoc(init, k, user);
    var r := LastHeaderNamed(init, user);
    if r.Some? {
      var i := r.value + 1;
      if k.Data? {
        DataRunClosed(init, k, i);
      } else {
        DataRunSnocSilent(init, k, i);
      }
      ExpectedAt(init, user, r.value);
      ExpectedAt(ks, user, r.value);
    }
  }

  lemma ExpectedAt(ks: seq<LineKind>, user: string, j: nat)
    requires LastHeaderNamed(ks, user) == Some(j)
    ensures Expected(ks, user) == Some(DataRun(ks, j + 1))
  {
  }

  /** A run already closed by a header is not extended by a new line. */
  lemma DataRunClosed(ks: seq<LineKind>, k: LineKind, i: nat)
    requires i <= |ks| && !NoHeaderFrom(ks, i)
    ensures DataRun(ks + [k], i) == DataRun(ks, i)
  {
    DataRunSnoc(ks, k, i);
  }

  lemma StepBlank(init: seq<LineKind>, user: string)
    requires Get(Run(init).claims, user) == Expected(init, user)
    ensures Get(Run(init + [Blank]).claims, user) == Expected(init + [Blank], user)
  {
    RunSnoc(init, Blank);
    ExpectedSnocOther(init, Blank, user);
  }

  lemma StepHeader(init: seq<LineKind>, name: string, user: string)
    requires Get(Run(init).claims, user) == Expected(init, user)
    ensures Get(Run(init + [Header(name)]).claims, user) == Expected(init + [Header(name)], user)
  {
    RunSnoc(init, Header(name));
    LastNamedSnoc(init, Header(name), user);
    if name == user {
      HeaderOpensRun(init, user);
    } else {
      HeaderKeepsOthers(init, name, user);
    }
  }

  /** A header for `user` gives it a fresh, empty list. */
  lemma HeaderOpensRun(init: seq<LineKind>, user: string)
    ensures Get(Run(init + [Header(user)]).claims, user) == Expected(init + [Header(user)], user)
  {
    var ks := init + [Header(user)];
    RunSnoc(init, Header(user));
    LastNamedSnoc(init, Header(user), user);
    assert Run(ks).claims == Put(Run(init).claims, user, []);
    assert DataRun(ks, |init| + 1) == [];
  }

  /** A header for another name leaves `user`'s list and expected list alone. */
  lemma HeaderKeepsOthers(init: seq<LineKind>, name: string, user: string)
    requires name != user
    requires Get(Run(init).claims, user) == Expected(init, user)
    ensures Get(Run(init + [Header(name)]).claims, user) == Expected(init + [Header(name)], user)
  {
    RunSnoc(init, Header(name));
    ExpectedSnocOther(init, Header(name), user);
    assert Run(init + [Header(name)]).claims == Put(Run(init).claims, name, []);
  }

  lemma StepData(init: seq<LineKind>, ns: seq<int>, user: string)
    requires Get(Run(init).claims, user) == Expected(init, user)
    requires Run(init).current == match LastHeader(init) case None => None case Some(j) => Some(init[j].name)
    ensures Get(Run(init + [Data(ns)]).claims, user) == Expected(init + [Data(ns)], user)
  {
    RunSnoc(init, Data(ns));
    LastNamedSnoc(init, Data(ns), user);
    var st := Run(init);
    if st.current == Some(user) {
      DataExtendsCurrent(init, ns, user);
    } else {
      DataKeepsOthers(init, ns, user);
    }
  }

  /** A data line extends the list of the user named by the last header. */
  lemma DataExtendsCurrent(init: seq<LineKind>, ns: seq<int>, user: string)
    requires Get(Run(init).claims, user) == Expected(init, user)
    requires Run(init).current == match LastHeader(init) case None => None case Some(j) => Some(init[j].name)
    requires Run(init).current == Some(user)
    ensures Get(Run(init + [Data(ns)]).claims, user) == Expected(init + [Data(ns)], user)
  {
    var j := LastHeader(init).value;
    assert init[j] == Header(user);
    DataExpectedGrows(init, ns, user, j);
    DataClaimGrows(init, ns, user, DataRun(init, j + 1));
  }

  lemma DataExpectedGrows(init: seq<LineKind>, ns: seq<int>, user: string, j: nat)
    requires LastHeader(init) == Some(j) && init[j] == Header(user)
    ensures Expected(init, user) == Some(DataRun(init, j + 1))
    ensures Expected(init + [Data(ns)], user) == Some(DataRun(init, j + 1) + ns)
  {
    CurrentIsLastNamed(init, user);
    ExpectedAt(init, user, j);
    LastNamedSnoc(init, Data(ns), user);
    LastHeaderIsLast(init);
    DataRunOpen(init, Data(ns), j + 1);
    ExpectedAt(init + [Data(ns)], user, j);
  }

  lemma DataClaimGrows(init: seq<LineKind>, ns: seq<int>, user: string, v: seq<int>)
    requires Run(init).current == Some(user) && Get(Run(init).claims, user) == Some(v)
    ensures Get(Run(init + [Data(ns)]).claims, user) == Some(v + ns)
  {
    RunSnoc(init, Data(ns));
  }

  /** When the last header names `user`, it is also the last header naming `user`. */
  lemma CurrentIsLastNamed(init: seq<LineKind>, user: string)
    requires LastHeader(init).Some? && init[LastHeader(init).value].name == user
    ensures LastHeaderNamed(init, user) == LastHeader(init)
  {
    LastHeaderIsLast(init);
    LastHeaderNamedIsLast(init, user);
    var jc := LastHeader(init).value;
    assert init[jc] == Header(user);
    var j := LastHeaderNamed(init, user).value;
    assert !(j < jc) && !(jc < j);
  }

  /** A data line extends a run that no header has closed. */
  lemma DataRunOpen(ks: seq<LineKind>, k: LineKind, i: nat)
    requires i <= |ks| && NoHeaderFrom(ks, i) && k.Data?
    ensures DataRun(ks + [k], i) == DataRun(ks, i) + k.numbers
  {
    DataRunSnoc(ks, k, i);
  }

  /** A data line leaves the lists of everyone but the current user alone. */
  lemma DataKeepsOthers(init: seq<LineKind>, ns: seq<int>, user: string)
    requires Get(Run(init).claims, user) == Expected(init, user)
    requires Run(init).current == match LastHeader(init) case None => None case Some(j) => Some(init[j].name)
    requires Run(init).current != Some(user)
    ensures Get(Run(init + [Data(ns)]).claims, user) == Expected(init + [Data(ns)], user)
  {
    RunSnoc(init, Data(ns));
    assert Get(Run(init + [Data(ns)]).claims, user) == Get(Run(init).claims, user);
    LaterHeader(init, user);
    ExpectedSnocOther(init, Data(ns), user);
  }

  /** When the last header does not name `user`, a later header closes `user`'s run. */
  lemma LaterHeader(init: seq<LineKind>, user: string)
    requires LastHeader(init).None? || init[LastHeader(init).value] != Header(user)
    ensures LastHeaderNamed(init, user).Some? ==> !NoHeaderFrom(init, LastHeaderNamed(init, user).value + 1)
  {
    var r := LastHeaderNamed(init, user);
    if r.Some? {
      LastHeaderIsLast(init);
      LastHeaderNamedIsLast(init, user);
      var jc := LastHeader(init).value;
      assert r.value < jc;
    }
  }

  /** Lines before the first header contribute nothing at all. */
  lemma {:induction false} LeadingLinesIgnored(prefix: seq<LineKind>, ks: seq<LineKind>)
    requires NoHeaderFrom(prefix, 0)
    ensures Run(prefix + ks) == Run(ks)
    decreases |ks|
  {
    if ks == [] {
      assert prefix + ks == prefix;
      NoHeaderRun(prefix);
    } else {
      var init := ks[..|ks| - 1];
      LeadingLinesIgnored(prefix, init);
      assert (prefix + ks)[..|prefix + ks| - 1] == prefix + init;
    }
  }

  lemma {:induction false} NoHeaderRun(ks: seq<LineKind>)
    requires NoHeaderFrom(ks, 0)
    ensures Run(ks) == ParseState(None, [])
  {
    if ks != [] {
      NoHeaderRun(ks[..|ks| - 1]);
    }
  }
}
