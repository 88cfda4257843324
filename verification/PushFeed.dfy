/**
 The pushlog pages (hgext/pushlog/feed.py): the entries a query collects, the pages that partition the log, and the
 change list that tells the first changeset of each push from the others.
 */
module PushFeed {
  import opened Prelude
  import opened PushTables
  import PushQuery
  import PushReconcile

  const PUSHES_PER_PAGE: nat := 10

  // ---------------------------------------------------------------- pages of pushes

  /** `LIMIT` and `OFFSET`; a negative offset skips nothing. */
  function Limited<T>(s: seq<T>, offset: int, limit: nat): seq<T> {
    var from := if offset < 0 then 0 else if offset > |s| then |s| else offset;
    var to := if from + limit > |s| then |s| else from + limit;
    s[from..to]
  }

  /** The rows up to the last replicated push. */
  function Replicated(pushlog: seq<PushRow>, last: nat): (r: seq<PushRow>)
    ensures |r| <= |pushlog|
    ensures forall i :: 0 <= i < |r| ==> r[i].id <= last && r[i] in pushlog
    ensures forall p :: p in pushlog && p.id <= last ==> p in r
  {
    if pushlog == [] then [] else (if pushlog[0].id <= last then [pushlog[0]] else []) + Replicated(pushlog[1..], last)
  }

  function Insert(row: PushRow, rows: seq<PushRow>): (r: seq<PushRow>)
    ensures multiset(r) == multiset{row} + multiset(rows)
  {
    if rows == [] then [row]
    else if row.id >= rows[0].id then [row] + rows
    else
      assert rows == [rows[0]] + rows[1..];
      [rows[0]] + Insert(row, rows[1..])
  }

  /** `ORDER BY id DESC`. */
  function NewestFirst(rows: seq<PushRow>): (r: seq<PushRow>)
    ensures multiset(r) == multiset(rows)
  {
    if rows == [] then []
    else
      assert rows == [rows[0]] + rows[1..];
      Insert(rows[0], NewestFirst(rows[1..]))
  }

  ghost predicate IdsFall(rows: seq<PushRow>) {
    forall i, j :: 0 <= i < j < |rows| ==> rows[i].id > rows[j].id
  }

  lemma InsertMember(row: PushRow, rows: seq<PushRow>, x: PushRow)
    ensures x in Insert(row, rows) <==> x == row || x in rows
  {
    assert x in Insert(row, rows) <==> x in multiset(Insert(row, rows));
  }

  lemma {:induction false} InsertFalls(row: PushRow, rows: seq<PushRow>)
    requires IdsFall(rows) && forall i :: 0 <= i < |rows| ==> rows[i].id != row.id
    ensures IdsFall(Insert(row, rows))
  {
    if rows != [] && row.id < rows[0].id {
      var rest := Insert(row, rows[1..]);
      InsertFalls(row, rows[1..]);
      forall j | 0 <= j < |rest|
        ensures rows[0].id > rest[j].id
      {
        InsertMember(row, rows[1..], rest[j]);
        assert rest[j] in rest;
      }
    }
  }

  /** Under the primary key the order is strict. */
  lemma {:induction false} NewestFalls(rows: seq<PushRow>)
    requires DistinctIds(rows)
    ensures IdsFall(NewestFirst(rows))
  {
    if rows != [] {
      var rest := NewestFirst(rows[1..]);
      NewestFalls(rows[1..]);
      forall i | 0 <= i < |rest|
        ensures rest[i].id != rows[0].id
      {
        assert rest[i] in multiset(rows[1..]);
      }
      InsertFalls(rows[0], rest);
    }
  }

  lemma {:induction false} ReplicatedDistinct(pushlog: seq<PushRow>, last: nat)
    requires DistinctIds(pushlog)
    ensures DistinctIds(Replicated(pushlog, last))
  {
    if pushlog != [] {
      var rest := Replicated(pushlog[1..], last);
      ReplicatedDistinct(pushlog[1..], last);
      forall i | 0 <= i < |rest|
        ensures rest[i].id != pushlog[0].id
      {
        assert rest[i] in pushlog[1..];
      }
    }
  }

  lemma NewestLength(rows: seq<PushRow>)
    ensures |NewestFirst(rows)| == |rows|
  {
    assert |multiset(NewestFirst(rows))| == |multiset(rows)|;
  }

  /** The pushes a page without other criteria shows. */
  function CountPage(t: Tables, last: nat, page: int): seq<Push> {
    var all := NewestFirst(Replicated(t.pushlog, last));
    PushQuery.PushesOf(Limited(all, (page - 1) * PUSHES_PER_PAGE, PUSHES_PER_PAGE), t.changesets, true)
  }

  function CountPages(t: Tables, last: nat, pages: nat): seq<Push> {
    if pages == 0 then [] else CountPages(t, last, pages - 1) + CountPage(t, last, pages)
  }

  function PageCount(entries: nat): nat {
    (entries + PUSHES_PER_PAGE - 1) / PUSHES_PER_PAGE
  }

  lemma {:induction false} PushesOfConcat(a: seq<PushRow>, b: seq<PushRow>, changesets: seq<ChangesetRow>)
    ensures PushQuery.PushesOf(a + b, changesets, true)
         == PushQuery.PushesOf(a, changesets, true) + PushQuery.PushesOf(b, changesets, true)
  {
    hide PushQuery.PushOf;
    if a == [] {
      assert a + b == b;
    } else {
      assert (a + b)[0] == a[0] && (a + b)[1..] == a[1..] + b;
      PushesOfConcat(a[1..], b, changesets);
    }
  }

  lemma LimitedMore<T>(s: seq<T>, m: nat, n: nat)
    ensures Limited(s, 0, m) + Limited(s, m, n) == Limited(s, 0, m + n)
  {
  }

  lemma LimitedNone<T>(s: seq<T>)
    ensures Limited(s, 0, 0) == []
  {
  }

  lemma CountPagesMore(t: Tables, last: nat, pages: nat)
    requires pages > 0
    ensures var all := NewestFirst(Replicated(t.pushlog, last));
            CountPages(t, last, pages) == CountPages(t, last, pages - 1)
            + PushQuery.PushesOf(Limited(all, (pages - 1) * PUSHES_PER_PAGE, PUSHES_PER_PAGE), t.changesets, true)
  {
  }

  lemma {:induction false} PagesSoFar(t: Tables, last: nat, pages: nat)
    ensures CountPages(t, last, pages)
         == PushQuery.PushesOf(Limited(NewestFirst(Replicated(t.pushlog, last)), 0, pages * PUSHES_PER_PAGE),
                               t.changesets, true)
  {
    hide PushQuery.PushesOf, NewestFirst, Replicated, Limited;
    var all := NewestFirst(Replicated(t.pushlog, last));
    if pages > 0 {
      hide CountPages;
      PagesSoFar(t, last, pages - 1);
      CountPagesMore(t, last, pages);
      var m := (pages - 1) * PUSHES_PER_PAGE;
      PushesOfConcat(Limited(all, 0, m), Limited(all, m, PUSHES_PER_PAGE), t.changesets);
      LimitedMore(all, m, PUSHES_PER_PAGE);
    } else {
      NoPushes(t.changesets);
      LimitedNone(all);
    }
  }

  lemma NoPushes(changesets: seq<ChangesetRow>)
    ensures PushQuery.PushesOf([], changesets, true) == []
  {
  }

  /** The pages that the navigation offers show every replicated push exactly once, by falling id. */
  lemma PagesPartitionTheLog(t: Tables, last: nat)
    ensures var shown := NewestFirst(Replicated(t.pushlog, last));
            && CountPages(t, last, PageCount(|t.pushlog|)) == PushQuery.PushesOf(shown, t.changesets, true)
            && multiset(shown) == multiset(Replicated(t.pushlog, last))
            && (DistinctIds(t.pushlog) ==> IdsFall(shown))
  {
    hide PushQuery.PushesOf, NewestFirst, IdsFall, DistinctIds;
    PagesSoFar(t, last, PageCount(|t.pushlog|));
    var all := NewestFirst(Replicated(t.pushlog, last));
    NewestLength(Replicated(t.pushlog, last));
    if DistinctIds(t.pushlog) {
      ReplicatedDistinct(t.pushlog, last);
      NewestFalls(Replicated(t.pushlog, last));
    }
    assert Limited(all, 0, PageCount(|t.pushlog|) * PUSHES_PER_PAGE) == all;
  }

  /** A page shows ten pushes, and the last one what is left. */
  lemma PageShows(t: Tables, last: nat, page: nat, k: nat)
    requires page > 0
    ensures var shown, page' := NewestFirst(Replicated(t.pushlog, last)), CountPage(t, last, page);
            && (k < |page'| <==> k < 10 && 10 * (page - 1) + k < |shown|)
            && (k < |page'| ==> page'[k] == PushQuery.PushOf(shown[10 * (page - 1) + k], t.changesets, true))
  {
    hide NewestFirst, Replicated, PushQuery.PushOf;
  }

  // ---------------------------------------------------------------- the entries of a query

  datatype Entry = Entry(pushid: nat, user: string, when: nat, node: string)

  function EntriesFor(p: Push, nodes: seq<string>): (r: seq<Entry>)
    ensures |r| == |nodes| && forall i :: 0 <= i < |r| ==> r[i] == Entry(p.id, p.user, p.when, nodes[i])
  {
    if nodes == [] then [] else [Entry(p.id, p.user, p.when, nodes[0])] + EntriesFor(p, nodes[1..])
  }

  function Entries(pushes: seq<Push>, tipsonly: bool): seq<Entry> {
    if pushes == [] then []
    else
      var p := pushes[0];
      EntriesFor(p, if tipsonly && p.nodes != [] then p.nodes[..1] else p.nodes) + Entries(pushes[1..], tipsonly)
  }

  /** The first node of a push without nodes is asked for. */
  predicate NoTip(pushes: seq<Push>, tipsonly: bool, guarded: bool) {
    tipsonly && !guarded && exists i :: 0 <= i < |pushes| && pushes[i].nodes == []
  }

  /** The loops of `do_query`: `guarded` is the COUNT query, the only one that looks whether a push has nodes before it
      takes the first. None stands for the IndexError of the others. */
  method CollectEntries(pushes: seq<Push>, tipsonly: bool, guarded: bool) returns (entries: Option<seq<Entry>>)
    ensures entries.None? <==> NoTip(pushes, tipsonly, guarded)
    ensures entries.Some? ==> entries.value == Entries(pushes, tipsonly)
  {
    hide Entries, EntriesFor;
    var all: seq<Entry> := [];
    var i := 0;
    assert pushes[0..] == pushes;
    while i < |pushes|
      invariant i <= |pushes|
      invariant tipsonly && !guarded ==> forall k :: 0 <= k < i ==> pushes[k].nodes != []
      invariant all + Entries(pushes[i..], tipsonly) == Entries(pushes, tipsonly)
    {
      var push := pushes[i];
      var nodes := push.nodes;
      if tipsonly && (!guarded || push.nodes != []) {
        if push.nodes == [] {
          return None;
        }
        nodes := [push.nodes[0]];
      }
      EntriesStep(pushes, tipsonly, i, all, nodes);
      all := AppendNodes(all, push, nodes);
      i := i + 1;
    }
    NoEntries(pushes[i..], tipsonly);
    return Some(all);
  }

  method AppendNodes(entries: seq<Entry>, push: Push, nodes: seq<string>) returns (all: seq<Entry>)
    ensures all == entries + EntriesFor(push, nodes)
  {
    hide EntriesFor;
    all := entries;
    var j := 0;
    while j < |nodes|
      invariant j <= |nodes| && all == entries + EntriesFor(push, nodes)[..j]
    {
      all := all + [Entry(push.id, push.user, push.when, nodes[j])];
      j := j + 1;
    }
    assert EntriesFor(push, nodes)[..j] == EntriesFor(push, nodes);
  }

  lemma NoEntries(pushes: seq<Push>, tipsonly: bool)
    requires pushes == []
    ensures Entries(pushes, tipsonly) == []
  {
  }

  lemma EntriesStep(pushes: seq<Push>, tipsonly: bool, i: nat, all: seq<Entry>, nodes: seq<string>)
    requires i < |pushes|
    requires nodes == if tipsonly && pushes[i].nodes != [] then [pushes[i].nodes[0]] else pushes[i].nodes
    ensures all + Entries(pushes[i..], tipsonly)
         == all + EntriesFor(pushes[i], nodes) + Entries(pushes[i + 1..], tipsonly)
  {
    assert pushes[i..][0] == pushes[i] && pushes[i..][1..] == pushes[i + 1..];
    assert pushes[i].nodes != [] ==> pushes[i].nodes[..1] == [pushes[i].nodes[0]];
  }

  /** The number of nodes in the first `k` pushes. */
  function NodesBefore(pushes: seq<Push>, k: nat): nat
    requires k <= |pushes|
  {
    if k == 0 then 0 else NodesBefore(pushes, k - 1) + |pushes[k - 1].nodes|
  }

  lemma {:induction false} NodesBeforeRest(pushes: seq<Push>, k: nat)
    requires 0 < k <= |pushes|
    ensures NodesBefore(pushes, k) == |pushes[0].nodes| + NodesBefore(pushes[1..], k - 1)
    decreases k
  {
    if k > 1 { NodesBeforeRest(pushes, k - 1); }
  }

  /** Without `tipsonly` the entries are the nodes of the first push in order, then those of the second, and so on. */
  lemma {:induction false} EntryOfNode(pushes: seq<Push>, k: nat, j: nat)
    ensures |Entries(pushes, false)| == NodesBefore(pushes, |pushes|)
    ensures k < |pushes| && j < |pushes[k].nodes| ==>
              var p, n := pushes[k], NodesBefore(pushes, k) + j;
              n < |Entries(pushes, false)| && Entries(pushes, false)[n] == Entry(p.id, p.user, p.when, p.nodes[j])
    decreases |pushes|
  {
    if pushes != [] {
      var own := EntriesFor(pushes[0], pushes[0].nodes);
      NodesBeforeRest(pushes, |pushes|);
      EntryOfNode(pushes[1..], if k > 0 then k - 1 else 0, j);
      assert Entries(pushes, false) == own + Entries(pushes[1..], false);
      if 0 < k < |pushes| {
        NodesBeforeRest(pushes, k);
        assert pushes[1..][k - 1] == pushes[k];
      }
    }
  }

  /** With `tipsonly` they are the first node of each push, if it has one. */
  lemma {:induction false} EntryOfTip(pushes: seq<Push>, k: nat)
    requires forall i :: 0 <= i < |pushes| ==> pushes[i].nodes != []
    ensures |Entries(pushes, true)| == |pushes|
    ensures k < |pushes| ==>
              var p := pushes[k]; Entries(pushes, true)[k] == Entry(p.id, p.user, p.when, p.nodes[0])
    decreases |pushes|
  {
    if pushes != [] { EntryOfTip(pushes[1..], if k > 0 then k - 1 else 0); }
  }

  /** A push without nodes adds no entry. */
  lemma {:induction false} EmptyPushSkipped(a: seq<Push>, p: Push, b: seq<Push>)
    requires p.nodes == []
    ensures Entries(a + [p] + b, true) == Entries(a + b, true)
    decreases |a|
  {
    var all := a + [p] + b;
    if a == [] {
      assert all[1..] == b && a + b == b;
      assert Entries(all, true) == [] + Entries(b, true);
    } else {
      assert all[1..] == a[1..] + [p] + b && (a + b)[1..] == a[1..] + b;
      EmptyPushSkipped(a[1..], p, b);
    }
  }

  /** No changeset is recorded for the push. */
  predicate Emptied(p: PushRow, changesets: seq<ChangesetRow>) {
    forall k :: 0 <= k < |changesets| ==> changesets[k].pushid != p.id
  }

  lemma {:induction false} NoCells(p: PushRow, changesets: seq<ChangesetRow>)
    ensures PushQuery.CellsOf(changesets, p.id) == [] <==> Emptied(p, changesets)
  {
    if changesets != [] {
      NoCells(p, changesets[1..]);
      assert forall k :: 0 < k < |changesets| ==> changesets[k] == changesets[1..][k - 1];
    }
  }

  lemma EmptyPushIff(p: PushRow, changesets: seq<ChangesetRow>, reverse: bool)
    ensures PushQuery.PushOf(p, changesets, reverse).nodes == [] <==> Emptied(p, changesets)
  {
    var cells := PushQuery.CellsOf(changesets, p.id);
    NoCells(p, changesets);
    assert |PushQuery.SortCells(cells)| == |multiset(PushQuery.SortCells(cells))| == |multiset(cells)| == |cells|;
  }

  /** A tips-only query raises exactly when it is no COUNT query and selects a push that has lost its changesets. */
  lemma TipsOnlyRaisesIff(selected: seq<PushRow>, changesets: seq<ChangesetRow>, guarded: bool)
    ensures NoTip(PushQuery.PushesOf(selected, changesets, true), true, guarded)
       <==> !guarded && exists i :: 0 <= i < |selected| && Emptied(selected[i], changesets)
  {
    hide Emptied, PushQuery.PushOf;
    var pushes := PushQuery.PushesOf(selected, changesets, true);
    forall i | 0 <= i < |selected|
      ensures pushes[i].nodes == [] <==> Emptied(selected[i], changesets)
    {
      EmptyPushIff(selected[i], changesets, true);
    }
  }

  /** Two pushes of one changeset each; a strip takes the second changeset and leaves its push without one. */
  const BOTH_PUSHED: PushReconcile.Table := map["a" := PushReconcile.Slot(1, 0), "b" := PushReconcile.Slot(2, 1)]
  const FIRST_LEFT: PushReconcile.Table := map["a" := PushReconcile.Slot(1, 0)]

  lemma SecondStripped()
    ensures PushReconcile.Listed(["a", "b"], BOTH_PUSHED)
    ensures PushReconcile.Handled(BOTH_PUSHED, ["a", "b"], map["a" := 0]) == Some(FIRST_LEFT)
  {
    var listing, repo := ["a", "b"], map["a" := 0];
    assert listing[1..] == ["b"] && ["b"][1..] == [];
    assert PushReconcile.Deletes(["b"], repo) == ["b"];
    assert PushReconcile.Deletes(listing, repo) == ["b"];
    assert PushReconcile.DeleteAll(BOTH_PUSHED - {"b"}, []) == FIRST_LEFT;
    assert PushReconcile.DeleteAll(BOTH_PUSHED, ["b"]) == FIRST_LEFT;
    assert PushReconcile.Updates(["b"], BOTH_PUSHED, repo) == [];
    assert PushReconcile.Updates(listing, BOTH_PUSHED, repo) == [];
  }

  /** After that strip a query by date for tips only raises. */
  lemma StrippedPushRaises(selected: seq<PushRow>, changesets: seq<ChangesetRow>)
    requires selected == [PushRow(2, "user", 20), PushRow(1, "user", 10)] && changesets == [ChangesetRow(1, 0, "a")]
    ensures PushReconcile.Listed(["a", "b"], BOTH_PUSHED)
    ensures PushReconcile.Handled(BOTH_PUSHED, ["a", "b"], map["a" := 0]) == Some(FIRST_LEFT)
    ensures NoTip(PushQuery.PushesOf(selected, changesets, true), true, false)
  {
    hide PushReconcile.Handled, PushQuery.PushesOf, NoTip;
    SecondStripped();
    TipsOnlyRaisesIff(selected, changesets, false);
    assert Emptied(selected[0], changesets);
  }

  // ---------------------------------------------------------------- the change list

  /** A line of the list: the first one of a push carries the number of its changesets, and whether that first changeset
      is a merge hides them all. */
  datatype Item = Item(entry: Entry, pushcount: Option<nat>, hidden: bool)

  function Rest(entries: seq<Entry>, hidden: bool): (r: seq<Item>)
    ensures |r| == |entries| && forall i :: 0 <= i < |r| ==> r[i] == Item(entries[i], None, hidden)
  {
    if entries == [] then [] else [Item(entries[0], None, hidden)] + Rest(entries[1..], hidden)
  }

  /** `handle_entries_for_push`. */
  function ForPush(samepush: seq<Entry>, merges: set<string>): (r: seq<Item>)
    requires samepush != []
    ensures |r| == |samepush|
    ensures r[0] == Item(samepush[0], Some(|samepush|), samepush[0].node in merges)
    ensures forall i :: 0 < i < |r| ==> r[i] == Item(samepush[i], None, samepush[0].node in merges)
  {
    var hidden := samepush[0].node in merges;
    [Item(samepush[0], Some(|samepush|), hidden)] + Rest(samepush[1..], hidden)
  }

  function RunEnd(entries: seq<Entry>, i: nat): (e: nat)
    requires 0 < i <= |entries|
    ensures i <= e <= |entries|
    ensures forall k :: i <= k < e ==> entries[k].pushid == entries[0].pushid
    ensures e < |entries| ==> entries[e].pushid != entries[0].pushid
    decreases |entries| - i
  {
    if i == |entries| || entries[i].pushid != entries[0].pushid then i else RunEnd(entries, i + 1)
  }

  function ChangeList(entries: seq<Entry>, merges: set<string>): seq<Item>
    decreases |entries|
  {
    if entries == [] then []
    else
      var e := RunEnd(entries, 1);
      ForPush(entries[..e], merges) + ChangeList(entries[e..], merges)
  }

  /** The list shows every entry once, in order, and counts a push exactly on its first entry. */
  lemma {:induction false} ChangeListShowsAll(entries: seq<Entry>, merges: set<string>, k: nat)
    ensures |ChangeList(entries, merges)| == |entries|
    ensures k < |entries| ==>
              && ChangeList(entries, merges)[k].entry == entries[k]
              && (ChangeList(entries, merges)[k].pushcount.Some? <==>
                   k == 0 || entries[k - 1].pushid != entries[k].pushid)
    decreases |entries|
  {
    if entries != [] {
      var e := RunEnd(entries, 1);
      hide RunEnd;
      ChangeListShowsAll(entries[e..], merges, if k < e then 0 else k - e);
      if e < k < |entries| {
        assert entries[e..][k - e - 1] == entries[k - 1];
      }
    }
  }

  lemma ChangeListStarts(entries: seq<Entry>, merges: set<string>)
    requires entries != []
    ensures var e := RunEnd(entries, 1);
            ChangeList(entries, merges) == ForPush(entries[..e], merges) + ChangeList(entries[e..], merges)
  {
    hide RunEnd, ForPush;
  }

  /** The count on the first entry of a push is the number of entries up to the next push. */
  lemma {:induction false} CountsTheRun(entries: seq<Entry>, merges: set<string>, k: nat)
    requires k < |entries| && (k == 0 || entries[k - 1].pushid != entries[k].pushid)
    ensures |ChangeList(entries, merges)| == |entries|
    ensures ChangeList(entries, merges)[k].pushcount == Some(RunEnd(entries[k..], 1))
    decreases |entries|
  {
    hide RunEnd, ForPush, ChangeList;
    ChangeListShowsAll(entries, merges, k);
    ChangeListStarts(entries, merges);
    var e := RunEnd(entries, 1);
    if k == 0 {
      assert entries[0..] == entries;
    } else {
      assert k >= e;
      assert entries[e..][k - e..] == entries[k..];
      CountsTheRun(entries[e..], merges, k - e);
    }
  }

  /** All entries of a push are hidden when its first one is a merge, and none when it is not. */
  lemma {:induction false} HiddenWithFirst(entries: seq<Entry>, merges: set<string>, first: nat, k: nat)
    requires first <= k < |entries| && (first == 0 || entries[first - 1].pushid != entries[first].pushid)
    requires forall i :: first <= i <= k ==> entries[i].pushid == entries[first].pushid
    ensures |ChangeList(entries, merges)| == |entries|
    ensures ChangeList(entries, merges)[k].hidden <==> entries[first].node in merges
    decreases |entries|
  {
    hide ChangeList;
    ChangeListShowsAll(entries, merges, k);
    ChangeListStarts(entries, merges);
    var e := RunEnd(entries, 1);
    if first < e {
      assert first == 0;
    } else {
      hide RunEnd, ForPush;
      assert forall i :: 0 <= i < |entries| - e ==> entries[e..][i] == entries[e + i];
      HiddenWithFirst(entries[e..], merges, first - e, k - e);
    }
  }

  /** `pushlog_changelist` over the visible entries. */
  method ListChanges(entries: seq<Entry>, merges: set<string>, tiponly: bool) returns (out: seq<Item>)
    ensures out == if tiponly && entries != [] then ChangeList(entries, merges)[..1] else ChangeList(entries, merges)
  {
    hide ForPush, ChangeList, RunEnd;
    out := [];
    ListNothing(merges);
    if entries == [] {
      return;
    }
    var samepush, lastid := [entries[0]], entries[0].pushid;
    var i := 1;
    ghost var start := 0;
    assert entries[0..] == entries;
    ListStart(entries);
    while i < |entries|
      invariant 0 <= start < i <= |entries| && samepush == entries[start..i] && lastid == entries[start].pushid
      invariant RunEnd(entries[start..], i - start) == RunEnd(entries[start..], 1)
      invariant out + ChangeList(entries[start..], merges) == ChangeList(entries, merges)
      invariant tiponly ==> out == []
    {
      var entry := entries[i];
      RunStep(entries, start, i);
      SliceGrows(entries, start, i);
      if entry.pushid == lastid {
        samepush := samepush + [entry];
      } else {
        ListStep(entries, merges, start, i);
        if tiponly {
          return ForPush(samepush, merges)[..1];
        }
        out := out + ForPush(samepush, merges);
        lastid := entry.pushid;
        samepush := [entry];
        start := i;
        ListStart(entries[i..]);
      }
      i := i + 1;
    }
    RunStep(entries, start, i);
    ListStep(entries, merges, start, i);
    if tiponly {
      return ForPush(samepush, merges)[..1];
    }
    out := out + ForPush(samepush, merges);
    assert entries[i..] == [];
  }

  lemma SliceGrows(entries: seq<Entry>, start: nat, i: nat)
    requires start <= i < |entries|
    ensures entries[start..i] + [entries[i]] == entries[start..i + 1] && [entries[i]] == entries[i..i + 1]
  {
  }

  lemma ListNothing(merges: set<string>)
    ensures ChangeList([], merges) == []
  {
  }

  lemma ListStart(entries: seq<Entry>)
    requires entries != []
    ensures RunEnd(entries, 1) >= 1
  {
  }

  lemma RunStep(entries: seq<Entry>, start: nat, i: nat)
    requires start < i <= |entries|
    ensures RunEnd(entries[start..], i - start)
         == if i < |entries| && entries[i].pushid == entries[start].pushid then RunEnd(entries[start..], i + 1 - start)
            else i - start
  {
  }

  lemma ListStep(entries: seq<Entry>, merges: set<string>, start: nat, i: nat)
    requires start < i <= |entries| && RunEnd(entries[start..], 1) == i - start
    ensures ChangeList(entries[start..], merges)
         == ForPush(entries[start..i], merges) + ChangeList(entries[i..], merges)
    ensures (ForPush(entries[start..i], merges) + ChangeList(entries[i..], merges))[..1]
         == ForPush(entries[start..i], merges)[..1]
  {
    assert entries[start..][..i - start] == entries[start..i] && entries[start..][i - start..] == entries[i..];
  }
}
