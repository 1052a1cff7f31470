/**
 * The second half of `assignClaims`: the priority group is granted its items
 * outright, then the general users, highest score first, take whatever is
 * still free, and every claim on an item someone else holds is recorded as a
 * miss naming the holder.
 */
module Assignment {
  import opened Wrappers
  import opened Seqs
  import opened Dict
  import opened Blocks
  import opened Scoring

  /** `{ item, takenBy }` */
  datatype Miss = Miss(item: int, takenBy: string)

  /** `{ got, missed }` */
  datatype Report = Report(got: seq<int>, missed: seq<Miss>)

  type Results = Dict<Report>

  /** The two objects the loops update: `itemAssignment` and `results`. */
  datatype Ledger = Ledger(owner: map<int, string>, results: Results)

  /** `!itemAssignment[item]`: nobody holds the item, or its holder's name is falsy. */
  predicate Free(owner: map<int, string>, item: int)
  {
    item !in owner || owner[item] == ""
  }

  /** `results[name] = { got: [], missed: [] }` */
  function Reset(l: Ledger, name: string): Ledger
  {
    Ledger(l.owner, Put(l.results, name, Report([], [])))
  }

  /** `results[name].got.push(item)`; `assignClaims` always creates the entry before it does this. */
  function AddGot(results: Results, name: string, item: int): Results
  {
    match Get(results, name)
    case None => results
    case Some(rep) => Put(results, name, Report(rep.got + [item], rep.missed))
  }

  /** `results[name].missed.push(miss)` */
  function AddMiss(results: Results, name: string, miss: Miss): Results
  {
    match Get(results, name)
    case None => results
    case Some(rep) => Put(results, name, Report(rep.got, rep.missed + [miss]))
  }

  // ------------------------------------------------ the priority phase

  /** The inner loop for one priority owner: every item is taken over and granted. */
  function GrantItems(l: Ledger, gom: string, items: seq<int>): Ledger
  {
    if items == [] then l
    else
      var m := GrantItems(l, gom, items[..|items| - 1]);
      var x := items[|items| - 1];
      Ledger(m.owner[x := gom], AddGot(m.results, gom, x))
  }

  /** `Object.entries(gomsClaims).forEach(...)`, starting from two empty objects. */
  function GrantGoms(goms: Claims): Ledger
  {
    if goms == [] then Ledger(map[], [])
    else
      var last := goms[|goms| - 1];
      GrantItems(Reset(GrantGoms(goms[..|goms| - 1]), last.0), last.0, last.1)
  }

  // ---------------------------------------------------- the user phase

  /** One claim of a general user: take it if free, note a miss if someone else holds it. */
  function ServeItem(l: Ledger, user: string, item: int): Ledger
  {
    if Free(l.owner, item) then Ledger(l.owner[item := user], AddGot(l.results, user, item))
    else if l.owner[item] != user then Ledger(l.owner, AddMiss(l.results, user, Miss(item, l.owner[item])))
    else l
  }

  /** The inner loop for one general user. */
  function ServeItems(l: Ledger, user: string, items: seq<int>): Ledger
  {
    if items == [] then l
    else ServeItem(ServeItems(l, user, items[..|items| - 1]), user, items[|items| - 1])
  }

  /** `sortedUsers.forEach(...)` */
  function ServeUsers(l: Ledger, sorted: seq<Entry>): Ledger
  {
    if sorted == [] then l
    else
      var last := sorted[|sorted| - 1];
      ServeItems(Reset(ServeUsers(l, sorted[..|sorted| - 1]), last.0), last.0, last.1)
  }

  /** `assignClaims(gomsClaims, userClaims)` as a function of its inputs. */
  function AssignSpec(goms: Claims, users: Claims): Results
  {
    ServeUsers(GrantGoms(goms), SortUsers(Demand(goms, users), users)).results
  }

  /** `assignClaims(gomsClaims, userClaims)` */
  method AssignClaims(goms: Claims, users: Claims) returns (results: Results)
    ensures results == AssignSpec(goms, users)
  {
    var all := Merge(goms, users);
    var demand := CountDemand(all);
    var sortedUsers := SortUsers(demand, users);
    var owner;
    owner, results := GrantPriority(goms);
    owner, results := ServeGeneral(owner, results, sortedUsers);
  }

  /** The priority loop, from two empty objects. */
  method GrantPriority(goms: Claims) returns (owner: map<int, string>, results: Results)
    ensures Ledger(owner, results) == GrantGoms(goms)
  {
    owner := map[];
    results := [];
    var g := 0;
    while g < |goms|
      invariant 0 <= g <= |goms|
      invariant Ledger(owner, results) == GrantGoms(goms[..g])
    {
      var gom := goms[g].0;
      ghost var prev := Ledger(owner, results);
      results := Put(results, gom, Report([], []));
      assert Ledger(owner, results) == Reset(prev, gom);
      owner, results := GrantOne(owner, results, gom, goms[g].1);
      GrantGomsSnoc(goms, g);
      g := g + 1;
    }
    assert goms[..|goms|] == goms;
  }

  lemma GrantGomsSnoc(goms: Claims, g: nat)
    requires g < |goms|
    ensures GrantGoms(goms[..g + 1])
      == GrantItems(Reset(GrantGoms(goms[..g]), goms[g].0), goms[g].0, goms[g].1)
  {
    assert goms[..g + 1][..g] == goms[..g];
  }

  /** `items.forEach(item => { itemAssignment[item] = gom; results[gom].got.push(item); })` */
  method GrantOne(owner0: map<int, string>, results0: Results, gom: string, items: seq<int>)
    returns (owner: map<int, string>, results: Results)
    ensures Ledger(owner, results) == GrantItems(Ledger(owner0, results0), gom, items)
  {
    owner, results := owner0, results0;
    var k := 0;
    while k < |items|
      invariant 0 <= k <= |items|
      invariant Ledger(owner, results) == GrantItems(Ledger(owner0, results0), gom, items[..k])
    {
      owner := owner[items[k] := gom];
      results := AddGot(results, gom, items[k]);
      GrantItemsSnoc(Ledger(owner0, results0), gom, items, k);
      k := k + 1;
    }
    assert items[..|items|] == items;
  }

  lemma GrantItemsSnoc(l: Ledger, gom: string, items: seq<int>, k: nat)
    requires k < |items|
    ensures var m := GrantItems(l, gom, items[..k]);
      GrantItems(l, gom, items[..k + 1]) == Ledger(m.owner[items[k] := gom], AddGot(m.results, gom, items[k]))
  {
    assert items[..k + 1][..k] == items[..k];
  }

  /** The general-user loop, continuing from the priority phase's objects. */
  method ServeGeneral(owner0: map<int, string>, results0: Results, sortedUsers: seq<Entry>)
    returns (owner: map<int, string>, results: Results)
    ensures Ledger(owner, results) == ServeUsers(Ledger(owner0, results0), sortedUsers)
  {
    owner, results := owner0, results0;
    var u := 0;
    while u < |sortedUsers|
      invariant 0 <= u <= |sortedUsers|
      invariant Ledger(owner, results) == ServeUsers(Ledger(owner0, results0), sortedUsers[..u])
    {
      var user := sortedUsers[u].0;
      ghost var prev := Ledger(owner, results);
      results := Put(results, user, Report([], []));
      assert Ledger(owner, results) == Reset(prev, user);
      owner, results := ServeOne(owner, results, user, sortedUsers[u].1);
      ServeUsersSnoc(Ledger(owner0, results0), sortedUsers, u);
      u := u + 1;
    }
    assert sortedUsers[..|sortedUsers|] == sortedUsers;
  }

  lemma ServeUsersSnoc(l: Ledger, sorted: seq<Entry>, u: nat)
    requires u < |sorted|
    ensures ServeUsers(l, sorted[..u + 1])
      == ServeItems(Reset(ServeUsers(l, sorted[..u]), sorted[u].0), sorted[u].0, sorted[u].1)
  {
    assert sorted[..u + 1][..u] == sorted[..u];
  }

  /** One general user's `items.forEach(...)`. */
  method ServeOne(owner0: map<int, string>, results0: Results, user: string, items: seq<int>)
    returns (owner: map<int, string>, results: Results)
    ensures Ledger(owner, results) == ServeItems(Ledger(owner0, results0), user, items)
  {
    owner, results := owner0, results0;
    var k := 0;
    while k < |items|
      invariant 0 <= k <= |items|
      invariant Ledger(owner, results) == ServeItems(Ledger(owner0, results0), user, items[..k])
    {
      var item := items[k];
      ghost var before := Ledger(owner, results);
      if item !in owner || owner[item] == "" {
        owner := owner[item := user];
        results := AddGot(results, user, item);
      } else if owner[item] != user {
        results := AddMiss(results, user, Miss(item, owner[item]));
      }
      assert Ledger(owner, results) == ServeItem(before, user, item);
      ServeItemsSnoc(Ledger(owner0, results0), user, items, k);
      k := k + 1;
    }
    assert items[..|items|] == items;
  }

  lemma ServeItemsSnoc(l: Ledger, user: string, items: seq<int>, k: nat)
    requires k < |items|
    ensures ServeItems(l, user, items[..k + 1]) == ServeItem(ServeItems(l, user, items[..k]), user, items[k])
  {
    assert items[..k + 1][..k] == items[..k];
  }

  // ------------------------------------------------------------ outcomes

  /** The `got` list of `name`, empty when `name` has no entry. */
  function GotOf(results: Results, name: string): seq<int>
  {
    match Get(results, name)
    case None => []
    case Some(r) => r.got
  }

  /** The last priority owner whose list holds `x`. */
  function LastClaimant(goms: Claims, x: int): (r: Option<string>)
    ensures r.Some? <==> x in Flatten(goms)
    ensures r.Some? ==> r.value in Keys(goms)
  {
    if goms == [] then None
    else
      var last := goms[|goms| - 1];
      var init := goms[..|goms| - 1];
      assert Keys(goms) == Keys(init) + [last.0];
      if x in last.1 then Some(last.0) else LastClaimant(init, x)
  }

  /** One priority owner's loop takes over every item on its list. */
  lemma {:induction false} GrantItemsOwner(l: Ledger, gom: string, items: seq<int>)
    ensures GrantItems(l, gom, items).owner == l.owner + (map x | x in items :: gom)
  {
    if items == [] {
      assert l.owner + (map x | x in items :: gom) == l.owner;
    } else {
      var init := items[..|items| - 1];
      GrantItemsOwner(l, gom, init);
      OverwriteSnoc(l.owner, init, items[|items| - 1], gom);
      assert init + [items[|items| - 1]] == items;
    }
  }

  /** Taking over one more item extends the overwrite by that item. */
  lemma OverwriteSnoc(o: map<int, string>, init: seq<int>, x: int, gom: string)
    ensures (o + (map y | y in init :: gom))[x := gom] == o + (map y | y in init + [x] :: gom)
  {
    var a := (o + (map y | y in init :: gom))[x := gom];
    var b := o + (map y | y in init + [x] :: gom);
    assert forall y :: y in init + [x] <==> y in init || y == x;
    assert a.Keys == b.Keys;
    forall y | y in a.Keys ensures a[y] == b[y] {
    }
  }

  /** One priority owner's loop grants it every item on its list and touches no other entry. */
  lemma {:induction false} GrantItemsOutcome(l: Ledger, gom: string, items: seq<int>)
    requires gom in Keys(l.results)
    ensures Get(GrantItems(l, gom, items).results, gom)
      == Some(Report(Get(l.results, gom).value.got + items, Get(l.results, gom).value.missed))
    ensures forall k :: k != gom ==> Get(GrantItems(l, gom, items).results, k) == Get(l.results, k)
    ensures Keys(GrantItems(l, gom, items).results) == Keys(l.results)
  {
    var rep := Get(l.results, gom).value;
    if items == [] {
      assert rep.got + items == rep.got;
    } else {
      var init := items[..|items| - 1];
      var x := items[|items| - 1];
      assert items == init + [x];
      GrantItemsOutcome(l, gom, init);
      assert rep.got + init + [x] == rep.got + items;
    }
  }

  /**
   * After the priority phase every item on a priority list is held by the
   * LAST priority owner listing it (`itemAssignment` keeps the later owner),
   * and `results` has exactly the priority owners' names.
   */
  lemma {:induction false} GrantGomsOwner(goms: Claims)
    ensures forall x :: x in GrantGoms(goms).owner <==> LastClaimant(goms, x).Some?
    ensures forall x :: x in GrantGoms(goms).owner ==> GrantGoms(goms).owner[x] == LastClaimant(goms, x).value
    ensures forall k :: k in Keys(GrantGoms(goms).results) <==> k in Keys(goms)
  {
    if goms != [] {
      var init := goms[..|goms| - 1];
      var last := goms[|goms| - 1];
      assert Keys(goms) == Keys(init) + [last.0];
      GrantGomsOwner(init);
      var r := Reset(GrantGoms(init), last.0);
      GrantItemsOwner(r, last.0, last.1);
      GrantItemsOutcome(r, last.0, last.1);
      var o := GrantGoms(goms).owner;
      assert o == GrantGoms(init).owner + (map y | y in last.1 :: last.0);
      forall x
        ensures (x in o <==> LastClaimant(goms, x).Some?)
        ensures x in o ==> o[x] == LastClaimant(goms, x).value
      {
        assert LastClaimant(goms, x) == if x in last.1 then Some(last.0) else LastClaimant(init, x);
      }
    }
  }

  /** A priority owner's report: its whole list granted, nothing missed. */
  function Granted(goms: Claims, g: string): Option<Report>
  {
    match Get(goms, g)
    case None => None
    case Some(items) => Some(Report(items, []))
  }

  /** Every priority owner is granted its whole list, duplicates included, and misses nothing. */
  lemma {:induction false} GrantGomsResults(goms: Claims)
    requires UniqueKeys(goms)
    ensures forall g :: Get(GrantGoms(goms).results, g) == Granted(goms, g)
  {
    if goms != [] {
      var init := goms[..|goms| - 1];
      var last := goms[|goms| - 1];
      assert goms == init + [last];
      assert Keys(goms) == Keys(init) + [last.0];
      GrantGomsResults(init);
      forall g ensures Get(GrantGoms(goms).results, g) == Granted(goms, g)
      {
        GrantGomsStep(goms, g);
      }
    }
  }

  lemma GrantGomsStep(goms: Claims, g: string)
    requires UniqueKeys(goms) && goms != []
    requires Get(GrantGoms(goms[..|goms| - 1]).results, g) == Granted(goms[..|goms| - 1], g)
    ensures Get(GrantGoms(goms).results, g) == Granted(goms, g)
  {
    GrantedLast(goms, g);
    GrantGomsLast(goms, g);
  }

  /** The last priority entry's report, and everyone else's as before. */
  lemma GrantGomsLast(goms: Claims, g: string)
    requires goms != []
    ensures var last := goms[|goms| - 1];
      Get(GrantGoms(goms).results, g)
        == if g == last.0 then Some(Report(last.1, [])) else Get(GrantGoms(goms[..|goms| - 1]).results, g)
  {
    var last := goms[|goms| - 1];
    var r := Reset(GrantGoms(goms[..|goms| - 1]), last.0);
    assert GrantGoms(goms) == GrantItems(r, last.0, last.1);
    if g == last.0 {
      GrantItemsOwn(r, last.0, last.1);
    } else {
      GrantItemsOther(r, last.0, last.1, g);
    }
  }

  lemma GrantItemsOwn(r: Ledger, gom: string, items: seq<int>)
    requires Get(r.results, gom) == Some(Report([], []))
    ensures Get(GrantItems(r, gom, items).results, gom) == Some(Report(items, []))
  {
    GrantItemsOutcome(r, gom, items);
    assert [] + items == items;
  }

  lemma GrantItemsOther(r: Ledger, gom: string, items: seq<int>, g: string)
    requires gom in Keys(r.results) && g != gom
    ensures Get(GrantItems(r, gom, items).results, g) == Get(r.results, g)
  {
    GrantItemsOutcome(r, gom, items);
  }

  /** What `Granted` says of a claim map with one more entry at the end. */
  lemma GrantedLast(goms: Claims, g: string)
    requires UniqueKeys(goms) && goms != []
    ensures var last := goms[|goms| - 1];
      Granted(goms, g) == if g == last.0 then Some(Report(last.1, [])) else Granted(goms[..|goms| - 1], g)
  {
    var init := goms[..|goms| - 1];
    var last := goms[|goms| - 1];
    LastSplit(goms);
    KeysSnoc(init, last.0, last.1);
    GetSnoc(init, last.0, last.1, g);
    forall i | 0 <= i < |init| ensures Keys(init)[i] != last.0 {
      assert init[i] == goms[i];
    }
  }

  /** The items of `items` that were free at the start, in order, repeats included. */
  function FreeItems(owner: map<int, string>, items: seq<int>): (fs: seq<int>)
    ensures forall x :: x in fs <==> x in items && Free(owner, x)
  {
    if items == [] then []
    else
      var x := items[|items| - 1];
      FreeItems(owner, items[..|items| - 1]) + (if Free(owner, x) then [x] else [])
  }

  /** A miss for every claim on an item another name held at the start. */
  function Missed(owner: map<int, string>, user: string, items: seq<int>): (ms: seq<Miss>)
    ensures forall m :: m in ms ==> m.item in items && m.item in owner && m.takenBy == owner[m.item] != user
  {
    if items == [] then []
    else
      var x := items[|items| - 1];
      Missed(owner, user, items[..|items| - 1])
      + (if !Free(owner, x) && owner[x] != user then [Miss(x, owner[x])] else [])
  }

  /** A general user's loop only touches that user's entry of `results`. */
  lemma {:induction false} ServeItemsFrame(l: Ledger, user: string, items: seq<int>)
    requires user in Keys(l.results)
    ensures forall k :: k != user ==> Get(ServeItems(l, user, items).results, k) == Get(l.results, k)
    ensures Keys(ServeItems(l, user, items).results) == Keys(l.results)
  {
    if items != [] {
      ServeItemsFrame(l, user, items[..|items| - 1]);
    }
  }

  /** One claim changes the holders only when the item was free. */
  lemma ServeItemOwner(m: Ledger, user: string, x: int)
    ensures ServeItem(m, user, x).owner == if Free(m.owner, x) then m.owner[x := user] else m.owner
  {
  }

  /** A general user's loop takes over exactly the items that were free at its start. */
  lemma {:induction false} ServeItemsOwner(l: Ledger, user: string, items: seq<int>)
    requires user != ""
    ensures var o := ServeItems(l, user, items).owner;
      && (forall y :: y in o <==> y in l.owner || y in FreeItems(l.owner, items))
      && (forall y :: y in o ==> o[y] == if y in FreeItems(l.owner, items) then user else l.owner[y])
  {
    if items != [] {
      var init := items[..|items| - 1];
      var x := items[|items| - 1];
      ServeItemsOwner(l, user, init);
      var m := ServeItems(l, user, init);
      ServeItemOwner(m, user, x);
      assert ServeItems(l, user, items).owner == ServeItem(m, user, x).owner;
      var fi := FreeItems(l.owner, init);
      if Free(l.owner, x) {
        assert FreeItems(l.owner, items) == fi + [x];
      } else {
        assert FreeItems(l.owner, items) == fi + [];
      }
    }
  }

  /** What one claim does to the claimant's own report. */
  lemma ServeItemReport(m: Ledger, user: string, x: int)
    requires user in Keys(m.results)
    ensures var rep := Get(m.results, user).value;
      Get(ServeItem(m, user, x).results, user) ==
        if Free(m.owner, x) then Some(Report(rep.got + [x], rep.missed))
        else if m.owner[x] != user then Some(Report(rep.got, rep.missed + [Miss(x, m.owner[x])]))
        else Some(rep)
    ensures Keys(ServeItem(m, user, x).results) == Keys(m.results)
  {
  }

  /** Whether the user's loop finds `x` free, in terms of the holders at its start. */
  lemma FreeNow(l: Ledger, user: string, init: seq<int>, x: int)
    requires user != ""
    ensures var o := ServeItems(l, user, init).owner;
      && (Free(o, x) <==> Free(l.owner, x) && x !in FreeItems(l.owner, init))
      && (!Free(o, x) ==> o[x] == if x in FreeItems(l.owner, init) then user else l.owner[x])
  {
    ServeItemsOwner(l, user, init);
  }

  /** The distinct free items grow by `x` exactly when `x` is free and new. */
  lemma FreeDistinctSnoc(o: map<int, string>, items: seq<int>)
    requires items != []
    ensures var init, x := items[..|items| - 1], items[|items| - 1];
      Distinct(FreeItems(o, items))
        == Distinct(FreeItems(o, init)) + (if Free(o, x) && x !in FreeItems(o, init) then [x] else [])
  {
    var init, x := items[..|items| - 1], items[|items| - 1];
    var fi := FreeItems(o, init);
    if Free(o, x) {
      assert FreeItems(o, items) == fi + [x];
      DistinctSnoc(fi, x);
    } else {
      assert FreeItems(o, items) == fi + [];
      assert fi + [] == fi;
      assert Distinct(fi) + [] == Distinct(fi);
    }
  }

  /**
   * A general user gets, once each and in order of first claim, the items
   * that were free when its loop started; claims on items it already holds
   * add nothing.
   */
  lemma {:induction false} ServeItemsGot(l: Ledger, user: string, items: seq<int>, rep: Report)
    requires user != "" && Get(l.results, user) == Some(rep)
    ensures Get(ServeItems(l, user, items).results, user).Some?
    ensures Get(ServeItems(l, user, items).results, user).value.got == rep.got + Distinct(FreeItems(l.owner, items))
  {
    if items == [] {
      assert rep.got + [] == rep.got;
    } else {
      var init := items[..|items| - 1];
      var x := items[|items| - 1];
      ServeItemsGot(l, user, init, rep);
      var m := ServeItems(l, user, init);
      assert ServeItems(l, user, items) == ServeItem(m, user, x);
      FreeNow(l, user, init, x);
      ServeItemReport(m, user, x);
      FreeDistinctSnoc(l.owner, items);
      var d := Distinct(FreeItems(l.owner, init));
      var added := if Free(m.owner, x) then [x] else [];
      assert Get(ServeItem(m, user, x).results, user).value.got == rep.got + d + added;
      AppendAssoc(rep.got, d, added);
    }
  }

  /**
   * Every claim a general user makes on an item another name held when its
   * loop started becomes a miss naming that holder, in claim order.
   */
  lemma {:induction false} ServeItemsMissed(l: Ledger, user: string, items: seq<int>, rep: Report)
    requires user != "" && Get(l.results, user) == Some(rep)
    ensures Get(ServeItems(l, user, items).results, user).Some?
    ensures Get(ServeItems(l, user, items).results, user).value.missed == rep.missed + Missed(l.owner, user, items)
  {
    if items == [] {
      assert rep.missed + [] == rep.missed;
    } else {
      var init := items[..|items| - 1];
      var x := items[|items| - 1];
      ServeItemsMissed(l, user, init, rep);
      ServeItemsOwner(l, user, init);
      var m := ServeItems(l, user, init);
      var mi := Missed(l.owner, user, init);
      ServeItemReport(m, user, x);
      assert ServeItems(l, user, items).results == ServeItem(m, user, x).results;
      var now := Get(ServeItems(l, user, items).results, user).value.missed;
      if Free(l.owner, x) {
        assert Missed(l.owner, user, items) == mi + [];
        assert mi + [] == mi;
        if x in FreeItems(l.owner, init) {
          assert !Free(m.owner, x) && m.owner[x] == user;
        } else {
          assert Free(m.owner, x);
        }
      } else {
        assert !Free(m.owner, x) && m.owner[x] == l.owner[x];
        if l.owner[x] != user {
          assert Missed(l.owner, user, items) == mi + [Miss(x, l.owner[x])];
          assert now == rep.missed + mi + [Miss(x, l.owner[x])];
        } else {
          assert Missed(l.owner, user, items) == mi + [];
          assert mi + [] == mi;
        }
      }
    }
  }

  // ---------------------------------------------------- whole-run facts

  /** Sorting keeps the set of user names. */
  lemma SortedNames(demand: map<int, nat>, users: Claims)
    ensures forall k :: k in Keys(SortUsers(demand, users)) <==> k in Keys(users)
  {
    var sorted := SortUsers(demand, users);
    forall k ensures k in Keys(sorted) <==> k in Keys(users) {
      if k in Keys(sorted) {
        var i :| 0 <= i < |sorted| && Keys(sorted)[i] == k;
        assert sorted[i] in multiset(users);
        var j :| 0 <= j < |users| && users[j] == sorted[i];
        assert Keys(users)[j] == k;
      }
      if k in Keys(users) {
        var j :| 0 <= j < |users| && Keys(users)[j] == k;
        assert users[j] in multiset(sorted);
        var i :| 0 <= i < |sorted| && sorted[i] == users[j];
        assert Keys(sorted)[i] == k;
      }
    }
  }

  /** The user phase leaves the entries of names it does not serve alone, and adds the served names. */
  lemma {:induction false} ServeUsersFrame(l: Ledger, sorted: seq<Entry>)
    ensures forall k :: k !in Keys(sorted) ==> Get(ServeUsers(l, sorted).results, k) == Get(l.results, k)
    ensures forall k :: k in Keys(ServeUsers(l, sorted).results) <==> k in Keys(l.results) || k in Keys(sorted)
  {
    if sorted != [] {
      var init := sorted[..|sorted| - 1];
      var last := sorted[|sorted| - 1];
      assert Keys(sorted) == Keys(init) + [last.0];
      ServeUsersFrame(l, init);
      var r := Reset(ServeUsers(l, init), last.0);
      ServeItemsFrame(r, last.0, last.1);
    }
  }

  /**
   * What holds while the general users are served, starting from the
   * priority phase's ledger `l0`: the priority holders are never displaced,
   * every holder has a non-empty name, and every item in a served user's
   * `got` is held by that user and was not held after the priority phase.
   */
  ghost predicate Settled(l0: Ledger, names: seq<string>, l: Ledger)
  {
    && (forall x :: x in l0.owner ==> x in l.owner && l.owner[x] == l0.owner[x])
    && (forall x :: x in l.owner ==> l.owner[x] != "")
    && (forall u, x :: u in names && x in GotOf(l.results, u) ==> x in l.owner && l.owner[x] == u && x !in l0.owner)
  }

  /** Serving one more user with a non-empty name keeps `Settled`. */
  lemma ServeUserSettled(l0: Ledger, names: seq<string>, l: Ledger, u: string, items: seq<int>)
    requires Settled(l0, names, l) && u != ""
    ensures Settled(l0, names + [u], ServeItems(Reset(l, u), u, items))
  {
    var l' := ServeItems(Reset(l, u), u, items);
    ServeKeepsHolders(Reset(l, u), u, items);
    forall v, x | v in names + [u] && x in GotOf(l'.results, v)
      ensures x in l'.owner && l'.owner[x] == v && x !in l0.owner
    {
      HeldAfterServe(l0, names, l, u, items, v, x);
    }
  }

  /** Serving a user with a non-empty name keeps every non-empty holder and adds only non-empty ones. */
  lemma ServeKeepsHolders(l: Ledger, u: string, items: seq<int>)
    requires u != "" && forall x :: x in l.owner ==> l.owner[x] != ""
    ensures var o := ServeItems(l, u, items).owner;
      && (forall x :: x in l.owner ==> x in o && o[x] == l.owner[x])
      && (forall x :: x in o ==> o[x] != "")
  {
    ServeItemsOwner(l, u, items);
  }

  /** An item reported as got after serving `u` is held by whoever got it, and was not a priority item. */
  lemma HeldAfterServe(l0: Ledger, names: seq<string>, l: Ledger, u: string, items: seq<int>, v: string, x: int)
    requires Settled(l0, names, l) && u != ""
    requires v in names + [u] && x in GotOf(ServeItems(Reset(l, u), u, items).results, v)
    ensures var o := ServeItems(Reset(l, u), u, items).owner;
      x in o && o[x] == v && x !in l0.owner
  {
    if v == u {
      HeldByNew(l0, names, l, u, items, x);
    } else {
      HeldByEarlier(l0, names, l, u, items, v, x);
    }
  }

  lemma HeldByNew(l0: Ledger, names: seq<string>, l: Ledger, u: string, items: seq<int>, x: int)
    requires Settled(l0, names, l) && u != ""
    requires x in GotOf(ServeItems(Reset(l, u), u, items).results, u)
    ensures var o := ServeItems(Reset(l, u), u, items).owner;
      x in o && o[x] == u && x !in l0.owner
  {
    var r := Reset(l, u);
    var fs := FreeItems(l.owner, items);
    ServeItemsOwner(r, u, items);
    ServeItemsGot(r, u, items, Report([], []));
    assert GotOf(ServeItems(r, u, items).results, u) == [] + Distinct(fs);
    assert x in fs;
  }

  lemma HeldByEarlier(l0: Ledger, names: seq<string>, l: Ledger, u: string, items: seq<int>, v: string, x: int)
    requires Settled(l0, names, l) && u != "" && v != u && v in names + [u]
    requires x in GotOf(ServeItems(Reset(l, u), u, items).results, v)
    ensures var o := ServeItems(Reset(l, u), u, items).owner;
      x in o && o[x] == v && x !in l0.owner
  {
    var r := Reset(l, u);
    ServeItemsOwner(r, u, items);
    ServeItemsFrame(r, u, items);
    assert GotOf(ServeItems(r, u, items).results, v) == GotOf(l.results, v);
    assert v in names;
    assert x !in FreeItems(l.owner, items);
  }

  /** The user phase keeps `Settled` for every name it serves. */
  lemma {:induction false} ServeUsersSettled(l0: Ledger, sorted: seq<Entry>)
    requires forall x :: x in l0.owner ==> l0.owner[x] != ""
    requires forall i :: 0 <= i < |sorted| ==> sorted[i].0 != ""
    ensures Settled(l0, Keys(sorted), ServeUsers(l0, sorted))
  {
    if sorted != [] {
      var init := sorted[..|sorted| - 1];
      var last := sorted[|sorted| - 1];
      assert Keys(sorted) == Keys(init) + [last.0];
      ServeUsersSettled(l0, init);
      ServeUserSettled(l0, Keys(init), ServeUsers(l0, init), last.0, last.1);
    }
  }

  /** Every item held after the priority phase is held by a non-empty priority name. */
  lemma PriorityHolders(goms: Claims)
    requires forall k :: k in Keys(goms) ==> k != ""
    ensures forall x :: x in GrantGoms(goms).owner <==> x in Flatten(goms)
    ensures forall x :: x in GrantGoms(goms).owner ==> GrantGoms(goms).owner[x] != ""
  {
    GrantGomsOwner(goms);
  }

  /** What `Settled` gives once every user has been served. */
  lemma SettledExclusive(l0: Ledger, names: seq<string>, l: Ledger)
    requires Settled(l0, names, l)
    ensures forall u, v, x ::
      (u in names && v in names && x in GotOf(l.results, u) && x in GotOf(l.results, v)) ==> u == v
    ensures forall u, x :: u in names && x in GotOf(l.results, u) ==> x !in l0.owner
  {
    forall u, v, x | u in names && v in names && x in GotOf(l.results, u) && x in GotOf(l.results, v)
      ensures u == v
    {
      assert l.owner[x] == u && l.owner[x] == v;
    }
  }

  /**
   * With non-empty names (which `parseClaims` guarantees), no item ends up in
   * two general users' `got`, and no general user gets an item that any
   * priority owner claimed.
   */
  lemma Exclusive(goms: Claims, users: Claims)
    requires forall k :: k in Keys(goms) ==> k != ""
    requires forall k :: k in Keys(users) ==> k != ""
    ensures forall u, v, x ::
      (u in Keys(users) && v in Keys(users) && x in GotOf(AssignSpec(goms, users), u) && x in GotOf(AssignSpec(goms, users), v))
      ==> u == v
    ensures forall u, x :: u in Keys(users) && x in GotOf(AssignSpec(goms, users), u) ==> x !in Flatten(goms)
  {
    var l0 := GrantGoms(goms);
    var sorted := SortUsers(Demand(goms, users), users);
    PriorityHolders(goms);
    SortedNames(Demand(goms, users), users);
    forall i | 0 <= i < |sorted| ensures sorted[i].0 != "" {
      assert Keys(sorted)[i] in Keys(sorted);
    }
    ServeUsersSettled(l0, sorted);
    SettledExclusive(l0, Keys(sorted), ServeUsers(l0, sorted));
  }

  /** A priority owner that no general user shares a name with keeps its whole list and misses nothing. */
  lemma PriorityGranted(goms: Claims, users: Claims, g: string)
    requires UniqueKeys(goms) && g !in Keys(users)
    ensures Get(AssignSpec(goms, users), g) == Granted(goms, g)
  {
    var sorted := SortUsers(Demand(goms, users), users);
    GrantGomsResults(goms);
    SortedNames(Demand(goms, users), users);
    ServeUsersFrame(GrantGoms(goms), sorted);
  }

  /** `results` has exactly one entry per priority owner and per general user. */
  lemma ResultNames(goms: Claims, users: Claims)
    ensures forall k :: k in Keys(AssignSpec(goms, users)) <==> k in Keys(goms) || k in Keys(users)
  {
    var sorted := SortUsers(Demand(goms, users), users);
    GrantGomsOwner(goms);
    SortedNames(Demand(goms, users), users);
    ServeUsersFrame(GrantGoms(goms), sorted);
  }
}
