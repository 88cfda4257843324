/**
 Reconciling the pushlog after a strip (hgext/pushlog/__init__.py, `handledestroyed`): rows of stripped changesets are
 deleted and the others renumbered one by one, under the UNIQUE index on `rev`.
 */
module PushReconcile {
  import opened Prelude

  /** A row of `changesets`. The UNIQUE index on `node` makes the table a map. */
  datatype Slot = Slot(pushid: nat, rev: nat)

  type Table = map<string, Slot>

  /** Revisions by node: the repository after the strip. */
  type Revs = map<string, nat>

  ghost predicate DistinctRevs(t: Table) {
    forall m, n :: m in t && n in t && t[m].rev == t[n].rev ==> m == n
  }

  // ---------------------------------------------------------------- the statements

  function DeleteAll(t: Table, nodes: seq<string>): Table {
    if nodes == [] then t else DeleteAll(t - {nodes[0]}, nodes[1..])
  }

  /** UPDATE changesets SET rev=? WHERE node=?; None when another row has that rev. */
  function UpdateRev(t: Table, node: string, rev: nat): Option<Table> {
    if exists m :: m in t && m != node && t[m].rev == rev then None
    else Some(if node in t then t[node := t[node].(rev := rev)] else t)
  }

  type Update = (string, nat)

  function UpdateAll(t: Table, updates: seq<Update>): Option<Table>
    decreases |updates|
  {
    if updates == [] then Some(t)
    else
      match UpdateRev(t, updates[0].0, updates[0].1)
      case None => None
      case Some(t') => UpdateAll(t', updates[1..])
  }

  /** The listed nodes that the repository no longer has. */
  function Deletes(listing: seq<string>, repo: Revs): seq<string> {
    if listing == [] then []
    else (if listing[0] in repo then [] else [listing[0]]) + Deletes(listing[1..], repo)
  }

  /** The listed nodes that moved, with their new revisions. */
  function Updates(listing: seq<string>, t: Table, repo: Revs): seq<Update>
    requires forall i :: 0 <= i < |listing| ==> listing[i] in t
  {
    if listing == [] then []
    else
      var node := listing[0];
      (if node in repo && repo[node] != t[node].rev then [(node, repo[node])] else []) + Updates(listing[1..], t, repo)
  }

  /** The result of `SELECT ... ORDER BY pushid, rev`. */
  ghost predicate IsListing(listing: seq<string>, t: Table) {
    && (forall i :: 0 <= i < |listing| ==> listing[i] in t)
    && (forall n :: n in t ==> n in listing)
    && (forall i, j :: 0 <= i < j < |listing| ==> Precedes(t[listing[i]], t[listing[j]]))
  }

  predicate Precedes(a: Slot, b: Slot) {
    a.pushid < b.pushid || (a.pushid == b.pushid && a.rev < b.rev)
  }

  // ---------------------------------------------------------------- what reconciling should do

  function Reconciled(t: Table, repo: Revs): Table {
    map n | n in t && n in repo :: Slot(t[n].pushid, repo[n])
  }

  /** An update takes a revision that a row updated later still holds. */
  ghost predicate Clash(t: Table, updates: seq<Update>) {
    exists i, j :: 0 <= i < j < |updates| && updates[j].0 in t && updates[i].1 == t[updates[j].0].rev
  }

  /** Each pending update is of a row of its own, to the row's revision in the repository; the other rows are right. */
  ghost predicate Pending(t: Table, updates: seq<Update>, repo: Revs) {
    && (forall n :: n in t ==> n in repo)
    && (forall i :: 0 <= i < |updates| ==> updates[i].0 in t && updates[i].1 == repo[updates[i].0])
    && (forall i, j :: 0 <= i < j < |updates| ==> updates[i].0 != updates[j].0)
    && (forall n :: n in t && t[n].rev != repo[n] ==> exists i :: 0 <= i < |updates| && updates[i].0 == n)
  }

  lemma FirstUpdate(t: Table, updates: seq<Update>, repo: Revs)
    requires Pending(t, updates, repo) && Injective(repo) && updates != []
    ensures UpdateRev(t, updates[0].0, updates[0].1).None? ==> Clash(t, updates)
    ensures UpdateRev(t, updates[0].0, updates[0].1).Some? ==>
              forall j :: 0 < j < |updates| ==> updates[0].1 != t[updates[j].0].rev
  {
    var (node, rev) := updates[0];
    if UpdateRev(t, node, rev).None? {
      var m :| m in t && m != node && t[m].rev == rev;
      assert t[m].rev != repo[m];
      var j :| 0 <= j < |updates| && updates[j].0 == m;
      assert 0 < j && updates[0].1 == t[updates[j].0].rev;
    } else {
      forall j | 0 < j < |updates|
        ensures rev != t[updates[j].0].rev
      {
        assert updates[0].0 != updates[j].0;
      }
    }
  }

  lemma OneUpdated(t: Table, updates: seq<Update>, repo: Revs)
    requires Pending(t, updates, repo) && updates != []
    ensures var t' := t[updates[0].0 := t[updates[0].0].(rev := updates[0].1)];
            Pending(t', updates[1..], repo) && Reconciled(t', repo) == Reconciled(t, repo)
  {
    var (node, rev) := updates[0];
    var t' := t[node := t[node].(rev := rev)];
    forall n | n in t' && t'[n].rev != repo[n]
      ensures exists i :: 0 <= i < |updates[1..]| && updates[1..][i].0 == n
    {
      var i :| 0 <= i < |updates| && updates[i].0 == n;
      assert updates[1..][i - 1] == updates[i];
    }
  }

  lemma ClashLater(t: Table, updates: seq<Update>, repo: Revs)
    requires Pending(t, updates, repo) && updates != []
    requires forall j :: 0 < j < |updates| ==> updates[0].1 != t[updates[j].0].rev
    ensures Clash(t, updates) <==> Clash(t[updates[0].0 := t[updates[0].0].(rev := updates[0].1)], updates[1..])
  {
    var t', rest := t[updates[0].0 := t[updates[0].0].(rev := updates[0].1)], updates[1..];
    forall j | 0 < j < |updates|
      ensures rest[j - 1] == updates[j] && t'[updates[j].0] == t[updates[j].0]
    {
      assert updates[0].0 != updates[j].0;
    }
    if Clash(t, updates) {
      var i, j :| 0 <= i < j < |updates| && updates[j].0 in t && updates[i].1 == t[updates[j].0].rev;
      assert rest[i - 1].1 == t'[rest[j - 1].0].rev;
    }
    if Clash(t', rest) {
      var i, j :| 0 <= i < j < |rest| && rest[j].0 in t' && rest[i].1 == t'[rest[j].0].rev;
      assert updates[i + 1].1 == t[updates[j + 1].0].rev;
    }
  }

  /** The updates go through exactly when none takes a revision that a later one has still to free. */
  lemma {:induction false} UpdatesUnlessClash(t: Table, updates: seq<Update>, repo: Revs)
    requires Pending(t, updates, repo) && Injective(repo)
    ensures UpdateAll(t, updates) == if Clash(t, updates) then None else Some(Reconciled(t, repo))
    decreases |updates|
  {
    hide Pending, Injective, Clash, Reconciled;
    if updates == [] {
      NothingPending(t, repo);
    } else {
      FirstUpdate(t, updates, repo);
      RowUpdated(t, updates, repo);
      if UpdateRev(t, updates[0].0, updates[0].1).Some? {
        OneUpdated(t, updates, repo);
        ClashLater(t, updates, repo);
        UpdatesUnlessClash(t[updates[0].0 := t[updates[0].0].(rev := updates[0].1)], updates[1..], repo);
      }
    }
  }

  lemma RowUpdated(t: Table, updates: seq<Update>, repo: Revs)
    requires Pending(t, updates, repo) && updates != []
    ensures updates[0].0 in t
  {
  }

  lemma NothingPending(t: Table, repo: Revs)
    requires Pending(t, [], repo)
    ensures !Clash(t, []) && Reconciled(t, repo) == t
  {
    forall n | n in t
      ensures Reconciled(t, repo)[n] == t[n]
    {
      assert t[n].rev == repo[n];
    }
  }

  // ---------------------------------------------------------------- from the listing to the statements

  predicate Moved(t: Table, repo: Revs, n: string) {
    n in t && n in repo && repo[n] != t[n].rev
  }

  ghost predicate Listed(listing: seq<string>, t: Table) {
    forall i :: 0 <= i < |listing| ==> listing[i] in t
  }

  lemma {:induction false} UpdateSource(listing: seq<string>, t: Table, repo: Revs, i: nat) returns (p: nat)
    requires Listed(listing, t) && i < |Updates(listing, t, repo)|
    ensures p < |listing| && Moved(t, repo, listing[p])
    ensures Updates(listing, t, repo)[i] == (listing[p], repo[listing[p]])
  {
    if Moved(t, repo, listing[0]) {
      if i == 0 { return 0; }
      p := UpdateSource(listing[1..], t, repo, i - 1);
    } else {
      p := UpdateSource(listing[1..], t, repo, i);
    }
    p := p + 1;
  }

  lemma {:induction false} UpdateSources(listing: seq<string>, t: Table, repo: Revs, i: nat, j: nat)
    returns (p: nat, q: nat)
    requires Listed(listing, t) && i < j < |Updates(listing, t, repo)|
    ensures p < q < |listing| && Updates(listing, t, repo)[i].0 == listing[p]
    ensures Updates(listing, t, repo)[j].0 == listing[q]
  {
    if Moved(t, repo, listing[0]) {
      if i == 0 {
        q := UpdateSource(listing[1..], t, repo, j - 1);
        return 0, q + 1;
      }
      p, q := UpdateSources(listing[1..], t, repo, i - 1, j - 1);
    } else {
      p, q := UpdateSources(listing[1..], t, repo, i, j);
    }
    p, q := p + 1, q + 1;
  }

  lemma {:induction false} UpdateOf(listing: seq<string>, t: Table, repo: Revs, p: nat) returns (i: nat)
    requires Listed(listing, t) && p < |listing| && Moved(t, repo, listing[p])
    ensures i < |Updates(listing, t, repo)| && Updates(listing, t, repo)[i] == (listing[p], repo[listing[p]])
  {
    if p == 0 { return 0; }
    i := UpdateOf(listing[1..], t, repo, p - 1);
    i := if Moved(t, repo, listing[0]) then i + 1 else i;
  }

  lemma {:induction false} UpdatesOf(listing: seq<string>, t: Table, repo: Revs, p: nat, q: nat)
    returns (i: nat, j: nat)
    requires Listed(listing, t) && p < q < |listing| && Moved(t, repo, listing[p]) && Moved(t, repo, listing[q])
    ensures i < j < |Updates(listing, t, repo)|
    ensures Updates(listing, t, repo)[i] == (listing[p], repo[listing[p]])
    ensures Updates(listing, t, repo)[j] == (listing[q], repo[listing[q]])
  {
    if p == 0 {
      j := UpdateOf(listing[1..], t, repo, q - 1);
      return 0, j + 1;
    }
    i, j := UpdatesOf(listing[1..], t, repo, p - 1, q - 1);
    if Moved(t, repo, listing[0]) { i, j := i + 1, j + 1; }
  }

  /** The rows whose changeset is still there. */
  function Surviving(t: Table, repo: Revs): Table {
    map n | n in t && n in repo :: t[n]
  }

  lemma {:induction false} DeletesStripped(listing: seq<string>, t: Table, repo: Revs)
    ensures DeleteAll(t, Deletes(listing, repo)) == map n | n in t && (n in repo || n !in listing) :: t[n]
  {
    if listing != [] {
      if listing[0] in repo {
        DeletesStripped(listing[1..], t, repo);
        assert [] + Deletes(listing[1..], repo) == Deletes(listing[1..], repo);
      } else {
        DeletesStripped(listing[1..], t - {listing[0]}, repo);
        assert ([listing[0]] + Deletes(listing[1..], repo))[1..] == Deletes(listing[1..], repo);
      }
    }
  }

  lemma ListingDistinct(listing: seq<string>, t: Table, p: nat, q: nat)
    requires IsListing(listing, t) && p < q < |listing|
    ensures listing[p] != listing[q] && Precedes(t[listing[p]], t[listing[q]])
  {
  }

  lemma UpdatesPending(listing: seq<string>, t: Table, repo: Revs)
    requires IsListing(listing, t)
    ensures Pending(Surviving(t, repo), Updates(listing, t, repo), repo)
  {
    hide IsListing, Updates;
    assert Listed(listing, t) by { ListingListed(listing, t); }
    var now, updates := Surviving(t, repo), Updates(listing, t, repo);
    forall i | 0 <= i < |updates|
      ensures updates[i].0 in now && updates[i].1 == repo[updates[i].0]
    {
      var p := UpdateSource(listing, t, repo, i);
    }
    forall i, j | 0 <= i < j < |updates|
      ensures updates[i].0 != updates[j].0
    {
      var p, q := UpdateSources(listing, t, repo, i, j);
      ListingDistinct(listing, t, p, q);
    }
    forall n | n in now && now[n].rev != repo[n]
      ensures exists i :: 0 <= i < |updates| && updates[i].0 == n
    {
      var p := PositionOf(listing, t, n);
      var i := UpdateOf(listing, t, repo, p);
    }
  }

  lemma ListingListed(listing: seq<string>, t: Table)
    requires IsListing(listing, t)
    ensures Listed(listing, t)
  {
  }

  lemma PositionOf(listing: seq<string>, t: Table, n: string) returns (p: nat)
    requires IsListing(listing, t) && n in t
    ensures p < |listing| && listing[p] == n
  {
    p :| p < |listing| && listing[p] == n;
  }

  /** A surviving row listed before another one takes over the revision that one still has. */
  ghost predicate Overtakes(t: Table, repo: Revs) {
    exists a, b :: a in t && b in t && a in repo && b in repo && Precedes(t[a], t[b]) && repo[a] == t[b].rev
  }

  lemma ClashOvertakes(listing: seq<string>, t: Table, repo: Revs)
    requires IsListing(listing, t) && Clash(Surviving(t, repo), Updates(listing, t, repo))
    ensures Overtakes(t, repo)
  {
    hide IsListing, Updates;
    ListingListed(listing, t);
    var now, updates := Surviving(t, repo), Updates(listing, t, repo);
    var i, j :| 0 <= i < j < |updates| && updates[j].0 in now && updates[i].1 == now[updates[j].0].rev;
    var p, q := UpdateSources(listing, t, repo, i, j);
    var p' := UpdateSource(listing, t, repo, i);
    ListingDistinct(listing, t, p, q);
    assert repo[listing[p]] == t[listing[q]].rev;
  }

  lemma BothMoved(t: Table, repo: Revs, a: string, b: string)
    requires DistinctRevs(t) && Injective(repo) && a in t && b in t && a in repo && b in repo && a != b
    requires repo[a] == t[b].rev
    ensures Moved(t, repo, a) && Moved(t, repo, b)
  {
  }

  lemma OvertakingClashes(listing: seq<string>, t: Table, repo: Revs)
    requires IsListing(listing, t) && DistinctRevs(t) && Injective(repo) && Overtakes(t, repo)
    ensures Clash(Surviving(t, repo), Updates(listing, t, repo))
  {
    var a, b :| a in t && b in t && a in repo && b in repo && Precedes(t[a], t[b]) && repo[a] == t[b].rev;
    hide IsListing, Updates, DistinctRevs, Injective, Moved;
    ListingListed(listing, t);
    var now, updates := Surviving(t, repo), Updates(listing, t, repo);
    var p := PositionOf(listing, t, a);
    var q := PositionOf(listing, t, b);
    if q < p { ListingDistinct(listing, t, q, p); }
    BothMoved(t, repo, a, b);
    var i, j := UpdatesOf(listing, t, repo, p, q);
    assert updates[i].1 == now[updates[j].0].rev;
  }

  /** What `handledestroyed` commits; None when an UPDATE violates the index and nothing is committed. */
  function Handled(t: Table, listing: seq<string>, repo: Revs): Option<Table>
    requires Listed(listing, t)
  {
    UpdateAll(DeleteAll(t, Deletes(listing, repo)), Updates(listing, t, repo))
  }

  /** Reconciling succeeds exactly when no row overtakes another; then the rows left are those of the remaining
      changesets, under the repository's revisions and their old pushes. */
  lemma ReconcilesUnlessOvertaking(t: Table, listing: seq<string>, repo: Revs)
    requires IsListing(listing, t) && DistinctRevs(t) && Injective(repo)
    ensures Listed(listing, t)
    ensures Handled(t, listing, repo) == if Overtakes(t, repo) then None else Some(Reconciled(t, repo))
  {
    hide Overtakes, Clash, Updates, Deletes, Pending;
    ListingListed(listing, t);
    DeletesStripped(listing, t, repo);
    var now := Surviving(t, repo);
    assert DeleteAll(t, Deletes(listing, repo)) == now by {
      assert forall n :: n in t ==> n in listing;
    }
    UpdatesPending(listing, t, repo);
    UpdatesUnlessClash(now, Updates(listing, t, repo), repo);
    if Overtakes(t, repo) {
      OvertakingClashes(listing, t, repo);
    } else if Clash(now, Updates(listing, t, repo)) {
      ClashOvertakes(listing, t, repo);
    }
    assert Reconciled(now, repo) == Reconciled(t, repo);
  }

  // ---------------------------------------------------------------- strips that keep the order

  /** What is left of a repository, in its old order. */
  function Strip(repo: seq<string>, gone: set<string>): seq<string> {
    if repo == [] then [] else (if repo[0] in gone then [] else [repo[0]]) + Strip(repo[1..], gone)
  }

  lemma {:induction false} StripSource(repo: seq<string>, gone: set<string>, i: nat) returns (p: nat)
    requires i < |Strip(repo, gone)|
    ensures i <= p < |repo| && repo[p] == Strip(repo, gone)[i] && repo[p] !in gone
  {
    if repo[0] in gone {
      p := StripSource(repo[1..], gone, i);
    } else {
      if i == 0 { return 0; }
      p := StripSource(repo[1..], gone, i - 1);
    }
    p := p + 1;
  }

  lemma {:induction false} StripKeepsOrder(repo: seq<string>, gone: set<string>, i: nat, j: nat)
    returns (p: nat, q: nat)
    requires i < j < |Strip(repo, gone)|
    ensures p < q < |repo| && repo[p] == Strip(repo, gone)[i] && repo[q] == Strip(repo, gone)[j]
  {
    if repo[0] in gone {
      p, q := StripKeepsOrder(repo[1..], gone, i, j);
    } else {
      if i == 0 {
        q := StripSource(repo[1..], gone, j - 1);
        return 0, q + 1;
      }
      p, q := StripKeepsOrder(repo[1..], gone, i - 1, j - 1);
    }
    p, q := p + 1, q + 1;
  }

  ghost predicate RevsOf(repo: seq<string>, revs: Revs) {
    && (forall n :: n in revs ==> revs[n] < |repo| && repo[revs[n]] == n)
    && (forall r :: 0 <= r < |repo| ==> repo[r] in revs && revs[repo[r]] == r)
  }

  /** The table agrees with the repository before the strip, and later pushes brought later revisions. */
  ghost predicate InPushOrder(t: Table, repo: seq<string>) {
    && (forall n :: n in t ==> t[n].rev < |repo| && repo[t[n].rev] == n)
    && (forall m, n :: m in t && n in t && t[m].pushid < t[n].pushid ==> t[m].rev < t[n].rev)
  }

  lemma BeforeMeansLower(t: Table, repo: seq<string>, a: string, b: string)
    requires InPushOrder(t, repo) && a in t && b in t && Precedes(t[a], t[b])
    ensures t[a].rev < t[b].rev
  {
  }

  /** A strip that keeps the order of what it leaves is always reconciled when pushes follow the revision order. */
  lemma OrderedStripReconciles(t: Table, listing: seq<string>, repo: seq<string>, gone: set<string>, revs: Revs)
    requires IsListing(listing, t) && InPushOrder(t, repo) && Distinct(repo) && RevsOf(Strip(repo, gone), revs)
    ensures Listed(listing, t) && Handled(t, listing, revs) == Some(Reconciled(t, revs))
    ensures forall n :: n in t ==> (n in revs <==> n !in gone)
  {
    hide IsListing, Handled, Reconciled;
    StripDistinct(repo, gone, revs);
    ReconcilesUnlessOvertaking(t, listing, revs);
    forall a, b | a in t && b in t && a in revs && b in revs && Precedes(t[a], t[b])
      ensures revs[a] != t[b].rev
    {
      BeforeMeansLower(t, repo, a, b);
      StrippedRevs(repo, gone, revs, a, b);
    }
    forall n | n in t
      ensures n in revs <==> n !in gone
    {
      KeptUnlessGone(repo, gone, t[n].rev);
    }
  }

  /** A remaining changeset moves down, and not past another one. */
  lemma StrippedRevs(repo: seq<string>, gone: set<string>, revs: Revs, a: string, b: string)
    requires Distinct(repo) && RevsOf(Strip(repo, gone), revs) && a in revs && b in revs && a in repo && b in repo
    ensures forall r :: 0 <= r < |repo| && repo[r] == b ==> revs[b] <= r
    ensures forall q, r :: 0 <= q < r < |repo| && repo[q] == a && repo[r] == b ==> revs[a] < revs[b]
  {
    var p := StripSource(repo, gone, revs[b]);
    if revs[b] < revs[a] {
      var q, r := StripKeepsOrder(repo, gone, revs[b], revs[a]);
    }
  }

  lemma {:induction false} KeptUnlessGone(repo: seq<string>, gone: set<string>, r: nat)
    requires r < |repo| && Distinct(repo)
    ensures repo[r] in Strip(repo, gone) <==> repo[r] !in gone
  {
    if repo[r] in Strip(repo, gone) {
      var i :| 0 <= i < |Strip(repo, gone)| && Strip(repo, gone)[i] == repo[r];
      var p := StripSource(repo, gone, i);
    } else if r > 0 {
      KeptUnlessGone(repo[1..], gone, r - 1);
    }
  }

  lemma StripDistinct(repo: seq<string>, gone: set<string>, revs: Revs)
    requires Distinct(repo) && RevsOf(Strip(repo, gone), revs)
    ensures Injective(revs)
  {
  }

  /** Push order against revision order: `C` was pushed before `B`. Stripping `X` moves `C` onto the revision of `B`. */
  const BEFORE_STRIP := ["R", "X", "B", "C"]
  const LISTING := ["R", "X", "C", "B"]

  function OutOfOrder(): Table {
    map["R" := Slot(1, 0), "X" := Slot(1, 1), "C" := Slot(2, 3), "B" := Slot(3, 2)]
  }

  function AfterStrip(): Revs {
    map["R" := 0, "B" := 1, "C" := 2]
  }

  lemma OutOfOrderListing()
    ensures IsListing(LISTING, OutOfOrder())
  {
    assert LISTING[0] == "R" && LISTING[1] == "X" && LISTING[2] == "C" && LISTING[3] == "B";
  }

  lemma OutOfOrderRevs()
    ensures DistinctRevs(OutOfOrder())
  {
  }

  lemma OutOfOrderStrip()
    ensures Strip(BEFORE_STRIP, {"X"}) == ["R", "B", "C"] && RevsOf(Strip(BEFORE_STRIP, {"X"}), AfterStrip())
    ensures Injective(AfterStrip())
  {
    assert BEFORE_STRIP[1..] == ["X", "B", "C"];
    assert ["X", "B", "C"][1..] == ["B", "C"];
    assert ["B", "C"][1..] == ["C"];
    assert ["C"][1..] == [];
    assert Strip(["C"], {"X"}) == ["C"];
    assert Strip(["B", "C"], {"X"}) == ["B", "C"];
  }

  /** Without the agreement of the two orders the index can refuse an update. */
  lemma OvertakingExample()
    ensures Listed(LISTING, OutOfOrder()) && Handled(OutOfOrder(), LISTING, AfterStrip()) == None
  {
    hide Handled, IsListing, DistinctRevs, Injective, Strip, RevsOf;
    OutOfOrderListing();
    OutOfOrderRevs();
    OutOfOrderStrip();
    ReconcilesUnlessOvertaking(OutOfOrder(), LISTING, AfterStrip());
    assert Precedes(OutOfOrder()["C"], OutOfOrder()["B"]) && AfterStrip()["C"] == OutOfOrder()["B"].rev;
  }

  // ---------------------------------------------------------------- the method

  lemma CompareStep(listing: seq<string>, t: Table, repo: Revs, i: nat, deletes: seq<string>, updates: seq<Update>)
    requires Listed(listing, t) && i < |listing|
    ensures var n := listing[i];
            && deletes + Deletes(listing[i..], repo)
               == (if n in repo then deletes else deletes + [n]) + Deletes(listing[i + 1..], repo)
            && updates + Updates(listing[i..], t, repo)
               == (if Moved(t, repo, n) then updates + [(n, repo[n])] else updates) + Updates(listing[i + 1..], t, repo)
  {
    var n, rest := listing[i], listing[i + 1..];
    assert listing[i..][0] == n && listing[i..][1..] == rest;
    assert deletes + ([n] + Deletes(rest, repo)) == deletes + [n] + Deletes(rest, repo);
    assert Moved(t, repo, n) ==>
             updates + ([(n, repo[n])] + Updates(rest, t, repo)) == updates + [(n, repo[n])] + Updates(rest, t, repo);
    assert [] + Deletes(rest, repo) == Deletes(rest, repo) && [] + Updates(rest, t, repo) == Updates(rest, t, repo);
  }

  lemma CompareEnd(t: Table, repo: Revs, deletes: seq<string>, updates: seq<Update>)
    ensures deletes + Deletes([], repo) == deletes && updates + Updates([], t, repo) == updates
  {
  }

  class ChangesetsTable {
    var rows: Table

    constructor (rows: Table)
      ensures this.rows == rows
    {
      this.rows := rows;
    }

    /** The loop over the SELECT. */
    method Compare(listing: seq<string>, repo: Revs) returns (deletes: seq<string>, revupdates: seq<Update>)
      requires Listed(listing, rows)
      ensures deletes == Deletes(listing, repo) && revupdates == Updates(listing, rows, repo)
    {
      hide Deletes, Updates;
      deletes, revupdates := [], [];
      var i := 0;
      assert listing[0..] == listing;
      while i < |listing|
        invariant i <= |listing|
        invariant deletes + Deletes(listing[i..], repo) == Deletes(listing, repo)
        invariant revupdates + Updates(listing[i..], rows, repo) == Updates(listing, rows, repo)
      {
        var node := listing[i];
        CompareStep(listing, rows, repo, i, deletes, revupdates);
        if node in repo {
          if repo[node] != rows[node].rev {
            revupdates := revupdates + [(node, repo[node])];
          }
        } else {
          deletes := deletes + [node];
        }
        i := i + 1;
      }
      CompareEnd(rows, repo, deletes, revupdates);
      assert listing[i..] == [];
    }

    /** `handledestroyed`; `listing` is what its SELECT returns. When an UPDATE is refused nothing is committed. */
    method HandleDestroyed(listing: seq<string>, repo: Revs) returns (committed: bool)
      requires Listed(listing, rows)
      modifies this
      ensures committed == Handled(old(rows), listing, repo).Some?
      ensures rows == if committed then Handled(old(rows), listing, repo).value else old(rows)
    {
      hide UpdateRev, Updates, Deletes;
      var deletes, revupdates := Compare(listing, repo);
      var working := rows;
      var i := 0;
      assert deletes[0..] == deletes && revupdates[0..] == revupdates;
      while i < |deletes|
        invariant i <= |deletes| && rows == old(rows)
        invariant DeleteAll(working, deletes[i..]) == DeleteAll(rows, deletes)
      {
        assert deletes[i..][0] == deletes[i] && deletes[i..][1..] == deletes[i + 1..];
        working := working - {deletes[i]};
        i := i + 1;
      }
      i := 0;
      while i < |revupdates|
        invariant i <= |revupdates| && rows == old(rows)
        invariant UpdateAll(working, revupdates[i..]) == Handled(rows, listing, repo)
      {
        assert revupdates[i..][0] == revupdates[i] && revupdates[i..][1..] == revupdates[i + 1..];
        var updated := UpdateRev(working, revupdates[i].0, revupdates[i].1);
        if updated.None? {
          return false;
        }
        working := updated.value;
        i := i + 1;
      }
      rows := working;
      return true;
    }
  }
}
