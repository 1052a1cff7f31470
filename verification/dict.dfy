/**
 * A plain JavaScript object keyed by names, as App.jsx uses it: an
 * insertion-ordered association list. Assigning to an existing key keeps its
 * position; assigning to a new key appends it. (Keys that look like array
 * indices would be enumerated first by JavaScript; the names used here never
 * contain a digit, so insertion order is enumeration order.)
 */
module Dict {
  import opened Wrappers

  type Dict<V> = seq<(string, V)>

  /** `Object.keys(d)` */
  function Keys<V>(d: Dict<V>): (ks: seq<string>)
    ensures |ks| == |d|
    ensures forall i :: 0 <= i < |d| ==> ks[i] == d[i].0
  {
    seq(|d|, i requires 0 <= i < |d| => d[i].0)
  }

  /** What every JavaScript object satisfies: no key occurs twice. */
  predicate UniqueKeys<V>(d: Dict<V>)
  {
    forall i, j :: 0 <= i < j < |d| ==> d[i].0 != d[j].0
  }

  /** The position of key `k`, if present. */
  function Find<V>(d: Dict<V>, k: string): (r: Option<nat>)
    ensures r.None? <==> k !in Keys(d)
    ensures r.Some? ==> r.value < |d| && d[r.value].0 == k
    ensures r.Some? ==> forall j :: 0 <= j < r.value ==> d[j].0 != k
  {
    if d == [] then None
    else if d[0].0 == k then Some(0)
    else match Find(d[1..], k)
      case None => None
      case Some(i) => Some(i + 1)
  }

  /** `d[k]`, with `None` for `undefined`. */
  function Get<V>(d: Dict<V>, k: string): (r: Option<V>)
    ensures r.Some? <==> k in Keys(d)
  {
    match Find(d, k)
    case None => None
    case Some(i) => Some(d[i].1)
  }

  /** With unique keys, the lookup of any entry's key gives that entry's value. */
  lemma GetUnique<V>(d: Dict<V>, i: nat)
    requires UniqueKeys(d) && i < |d|
    ensures Get(d, d[i].0) == Some(d[i].1)
  {
  }

  /** `d[k] = v` */
  function Put<V>(d: Dict<V>, k: string, v: V): (r: Dict<V>)
    ensures Keys(r) == if k in Keys(d) then Keys(d) else Keys(d) + [k]
    ensures Get(r, k) == Some(v)
    ensures forall k' :: k' != k ==> Get(r, k') == Get(d, k')
    ensures UniqueKeys(d) ==> UniqueKeys(r)
  {
    match Find(d, k)
    case Some(i) =>
      var r := d[i := (k, v)];
      assert Keys(r) == Keys(d);
      PutAt(d, i, k, v);
      r
    case None =>
      var r := d + [(k, v)];
      assert Keys(r) == Keys(d) + [k];
      PutEnd(d, k, v);
      r
  }

  lemma PutAt<V>(d: Dict<V>, i: nat, k: string, v: V)
    requires Find(d, k) == Some(i)
    ensures forall k' :: Get(d[i := (k, v)], k') == if k' == k then Some(v) else Get(d, k')
  {
    var r := d[i := (k, v)];
    forall k' ensures Get(r, k') == if k' == k then Some(v) else Get(d, k') {
      FindAt(d, i, k, v, k');
    }
  }

  lemma FindAt<V>(d: Dict<V>, i: nat, k: string, v: V, k': string)
    requires Find(d, k) == Some(i)
    ensures Find(d[i := (k, v)], k') == Find(d, k')
  {
    var r := d[i := (k, v)];
    assert Keys(r) == Keys(d);
    FindKeys(r, d, k');
  }

  /** The position of a key depends only on the key sequence. */
  lemma FindKeys<V>(d1: Dict<V>, d2: Dict<V>, k: string)
    requires Keys(d1) == Keys(d2)
    ensures Find(d1, k) == Find(d2, k)
  {
    var a, b := Find(d1, k), Find(d2, k);
    assert a.None? <==> b.None?;
    if a.Some? {
      var i, j := a.value, b.value;
      assert Keys(d1)[i] == k && Keys(d2)[j] == k;
      assert forall m :: 0 <= m < |d1| ==> d1[m].0 == d2[m].0 by {
        forall m | 0 <= m < |d1| ensures d1[m].0 == d2[m].0 {
          assert Keys(d1)[m] == Keys(d2)[m];
        }
      }
      assert !(i < j) && !(j < i);
    }
  }

  lemma PutEnd<V>(d: Dict<V>, k: string, v: V)
    requires k !in Keys(d)
    ensures forall k' :: Get(d + [(k, v)], k') == if k' == k then Some(v) else Get(d, k')
  {
    forall k' ensures Get(d + [(k, v)], k') == if k' == k then Some(v) else Get(d, k') {
      FindEnd(d, k, v, k');
    }
  }

  lemma FindEnd<V>(d: Dict<V>, k: string, v: V, k': string)
    ensures Find(d + [(k, v)], k') == if k' in Keys(d) then Find(d, k') else if k' == k then Some(|d|) else None
    decreases |d|
  {
    if d != [] {
      assert (d + [(k, v)])[1..] == d[1..] + [(k, v)];
      assert Keys(d) == [d[0].0] + Keys(d[1..]);
      FindEnd(d[1..], k, v, k');
    }
  }

  lemma KeysSnoc<V>(d: Dict<V>, k: string, v: V)
    ensures Keys(d + [(k, v)]) == Keys(d) + [k]
  {
  }

  /** Appending an entry leaves the lookups of earlier keys alone. */
  lemma GetSnoc<V>(d: Dict<V>, k: string, v: V, k': string)
    ensures Get(d + [(k, v)], k') == if k' in Keys(d) then Get(d, k') else if k' == k then Some(v) else None
  {
    FindEnd(d, k, v, k');
  }
}
