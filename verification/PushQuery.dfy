/**
 Reading pushes back from the tables (hgext/pushlog/__init__.py, `pushes`): rows of a join are grouped by push and their
 nodes sorted in Python, so that the order in which a push's rows arrive does not matter.
 */
module PushQuery {
  import opened Prelude
  import opened PushTables
  import PushStream

  /** A revision and its node; NULL in the row of a push that has lost its changesets. */
  type Cell = (nat, string)

  datatype Row = Row(push: PushRow, cell: Option<Cell>)

  // ---------------------------------------------------------------- sorting

  ghost predicate SortedCells(s: seq<Cell>) {
    forall i, j :: 0 <= i < j < |s| ==> s[i].0 < s[j].0
  }

  ghost predicate DistinctCells(s: seq<Cell>) {
    forall i, j :: 0 <= i < j < |s| ==> s[i].0 != s[j].0
  }

  function InsertCell(c: Cell, s: seq<Cell>): (r: seq<Cell>)
    ensures multiset(r) == multiset{c} + multiset(s)
  {
    if s == [] then [c]
    else if c.0 <= s[0].0 then [c] + s
    else
      assert s == [s[0]] + s[1..];
      [s[0]] + InsertCell(c, s[1..])
  }

  function SortCells(s: seq<Cell>): (r: seq<Cell>)
    ensures multiset(r) == multiset(s)
  {
    if s == [] then []
    else
      assert s == [s[0]] + s[1..];
      InsertCell(s[0], SortCells(s[1..]))
  }

  lemma InsertMember(c: Cell, s: seq<Cell>, x: Cell)
    ensures x in InsertCell(c, s) <==> x == c || x in s
  {
    assert x in InsertCell(c, s) <==> x in multiset(InsertCell(c, s));
  }

  lemma {:induction false} InsertSorts(c: Cell, s: seq<Cell>)
    requires SortedCells(s) && forall i :: 0 <= i < |s| ==> s[i].0 != c.0
    ensures SortedCells(InsertCell(c, s))
  {
    if s != [] && s[0].0 < c.0 {
      var rest := InsertCell(c, s[1..]);
      InsertSorts(c, s[1..]);
      forall j | 0 <= j < |rest|
        ensures s[0].0 < rest[j].0
      {
        InsertMember(c, s[1..], rest[j]);
        assert rest[j] in rest;
      }
    }
  }

  lemma {:induction false} SortSorts(s: seq<Cell>)
    requires DistinctCells(s)
    ensures SortedCells(SortCells(s))
  {
    if s != [] {
      var rest := SortCells(s[1..]);
      SortSorts(s[1..]);
      forall i | 0 <= i < |rest|
        ensures rest[i].0 != s[0].0
      {
        assert rest[i] in multiset(s[1..]);
      }
      InsertSorts(s[0], rest);
    }
  }

  lemma TailMultiset(s: seq<Cell>)
    requires s != []
    ensures multiset(s[1..]) == multiset(s) - multiset{s[0]}
  {
    assert s == [s[0]] + s[1..];
  }

  lemma {:induction false} SortedUnique(s: seq<Cell>, t: seq<Cell>)
    requires SortedCells(s) && SortedCells(t) && multiset(s) == multiset(t)
    ensures s == t
    decreases |s|
  {
    if s == [] {
      assert |t| == |multiset(t)|;
    } else {
      assert s[0] in multiset(t) && t[0] in multiset(s);
      assert s[0] == t[0];
      TailMultiset(s);
      TailMultiset(t);
      SortedUnique(s[1..], t[1..]);
    }
  }

  lemma DistinctPermuted(s: seq<Cell>, t: seq<Cell>)
    requires DistinctCells(s) && multiset(s) == multiset(t)
    ensures DistinctCells(t)
  {
    forall i, j | 0 <= i < j < |t|
      ensures t[i].0 != t[j].0
    {
      if t[i].0 == t[j].0 {
        assert t[i] in multiset(s) && t[j] in multiset(s);
        var a :| 0 <= a < |s| && s[a] == t[i];
        var b :| 0 <= b < |s| && s[b] == t[j];
        assert a == b;
        TwiceInMultiset(t, i, j);
        OnceInMultiset(s, a);
      }
    }
  }

  lemma TwiceInMultiset(s: seq<Cell>, i: nat, j: nat)
    requires i < j < |s| && s[i] == s[j]
    ensures multiset(s)[s[i]] >= 2
  {
    assert s == s[..i] + [s[i]] + s[i + 1..j] + [s[j]] + s[j + 1..];
  }

  lemma OnceInMultiset(s: seq<Cell>, a: nat)
    requires DistinctCells(s) && a < |s|
    ensures multiset(s)[s[a]] == 1
  {
    assert s == s[..a] + [s[a]] + s[a + 1..];
    assert s[a] !in s[..a] && s[a] !in s[a + 1..];
  }

  /** Rows in any order sort to the same list. */
  lemma SortForgetsOrder(s: seq<Cell>, t: seq<Cell>)
    requires DistinctCells(s) && multiset(s) == multiset(t)
    ensures SortCells(s) == SortCells(t)
  {
    hide SortCells, DistinctCells;
    DistinctPermuted(s, t);
    SortSorts(s);
    SortSorts(t);
    SortedUnique(SortCells(s), SortCells(t));
  }

  function Reversed<T>(s: seq<T>): (r: seq<T>)
    ensures |r| == |s| && forall i :: 0 <= i < |s| ==> r[i] == s[|s| - 1 - i]
  {
    if s == [] then [] else Reversed(s[1..]) + [s[0]]
  }

  // ---------------------------------------------------------------- grouping

  /** The changesets of the rows that have one. */
  function CellsIn(rows: seq<Row>): seq<Cell> {
    if rows == [] then [] else (if rows[0].cell.Some? then [rows[0].cell.value] else []) + CellsIn(rows[1..])
  }

  function NodesOf(cells: seq<Cell>): (r: seq<string>)
    ensures |r| == |cells| && forall i :: 0 <= i < |r| ==> r[i] == cells[i].1
  {
    if cells == [] then [] else [cells[0].1] + NodesOf(cells[1..])
  }

  function SortedNodes(cells: seq<Cell>, reverse: bool): seq<string> {
    NodesOf(if reverse then Reversed(SortCells(cells)) else SortCells(cells))
  }

  function GroupEnd(rows: seq<Row>, i: nat): (e: nat)
    requires 0 < i <= |rows|
    ensures i <= e <= |rows|
    ensures forall k :: i <= k < e ==> rows[k].push.id == rows[0].push.id
    ensures e < |rows| ==> rows[e].push.id != rows[0].push.id
    decreases |rows| - i
  {
    if i == |rows| || rows[i].push.id != rows[0].push.id then i else GroupEnd(rows, i + 1)
  }

  /** The pushes read from a stream of rows: one for each run of rows with the same push id. */
  function Grouped(rows: seq<Row>, reverse: bool): seq<Push>
    decreases |rows|
  {
    if rows == [] then []
    else
      var e := GroupEnd(rows, 1);
      var p := rows[0].push;
      [PushStream.Push(p.id, p.user, p.date, SortedNodes(CellsIn(rows[..e]), reverse))] + Grouped(rows[e..], reverse)
  }

  /** The next group starts at `i` and ends at `j`. */
  lemma GroupedStep(rows: seq<Row>, reverse: bool, out: seq<Push>, i: nat, j: nat)
    requires i < j <= |rows| && GroupEnd(rows[i..], 1) == j - i
    ensures out + Grouped(rows[i..], reverse)
         == out + [PushStream.Push(rows[i].push.id, rows[i].push.user, rows[i].push.date,
                                   SortedNodes(CellsIn(rows[i..j]), reverse))]
            + Grouped(rows[j..], reverse)
  {
    hide SortedNodes, CellsIn, GroupEnd;
    var rest := rows[i..];
    assert rest[..j - i] == rows[i..j] && rest[j - i..] == rows[j..];
  }

  method Pushes(rows: seq<Row>, reverse: bool) returns (out: seq<Push>)
    ensures out == Grouped(rows, reverse)
  {
    hide SortedNodes, CellsIn, Grouped, GroupEnd;
    out := [];
    var i := 0;
    assert rows[0..] == rows;
    while i < |rows|
      invariant i <= |rows|
      invariant out + Grouped(rows[i..], reverse) == Grouped(rows, reverse)
    {
      var first := rows[i].push;
      var j := RunEnd(rows, i);
      GroupedStep(rows, reverse, out, i, j);
      out := out + [PushStream.Push(first.id, first.user, first.date, SortedNodes(CellsIn(rows[i..j]), reverse))];
      i := j;
    }
    GroupedEnd(rows[i..], reverse);
  }

  /** `groupby`: the end of the run of rows that share the push id of row `i`. */
  method RunEnd(rows: seq<Row>, i: nat) returns (j: nat)
    requires i < |rows|
    ensures i < j <= |rows| && GroupEnd(rows[i..], 1) == j - i
  {
    j := i + 1;
    while j < |rows| && rows[j].push.id == rows[i].push.id
      invariant i < j <= |rows|
      invariant GroupEnd(rows[i..], j - i) == GroupEnd(rows[i..], 1)
    {
      j := j + 1;
    }
  }

  lemma GroupedEnd(rows: seq<Row>, reverse: bool)
    requires rows == []
    ensures Grouped(rows, reverse) == []
  {
  }

  // ---------------------------------------------------------------- what the database may send

  /** The changesets recorded for a push. */
  function CellsOf(changesets: seq<ChangesetRow>, id: nat): seq<Cell> {
    if changesets == [] then []
    else
      var rest := CellsOf(changesets[1..], id);
      if changesets[0].pushid == id then [(changesets[0].rev, changesets[0].node)] + rest else rest
  }

  /** The rows that the LEFT JOIN yields for one push, in any order: one for each changeset, or one without. */
  ghost predicate JoinRows(rows: seq<Row>, p: PushRow, cells: seq<Cell>) {
    && rows != [] && (forall i :: 0 <= i < |rows| ==> rows[i].push == p)
    && (if cells == [] then rows == [Row(p, None)]
        else (forall i :: 0 <= i < |rows| ==> rows[i].cell.Some?) && multiset(CellsIn(rows)) == multiset(cells))
  }

  /** The rows of the selected pushes, one push after the other. */
  ghost predicate Arrive(rows: seq<Row>, selected: seq<PushRow>, changesets: seq<ChangesetRow>)
    decreases |selected|
  {
    if selected == [] then rows == []
    else exists k: nat | k <= |rows| ::
        && JoinRows(rows[..k], selected[0], CellsOf(changesets, selected[0].id))
        && Arrive(rows[k..], selected[1..], changesets)
  }

  /** A push as it should be read: its changesets by ascending or descending revision. */
  function PushOf(p: PushRow, changesets: seq<ChangesetRow>, reverse: bool): Push {
    PushStream.Push(p.id, p.user, p.date, SortedNodes(CellsOf(changesets, p.id), reverse))
  }

  function PushesOf(selected: seq<PushRow>, changesets: seq<ChangesetRow>, reverse: bool): (r: seq<Push>)
    ensures |r| == |selected| && forall i :: 0 <= i < |r| ==> r[i] == PushOf(selected[i], changesets, reverse)
  {
    if selected == [] then []
    else [PushOf(selected[0], changesets, reverse)] + PushesOf(selected[1..], changesets, reverse)
  }

  lemma {:induction false} CellSource(changesets: seq<ChangesetRow>, id: nat, i: nat) returns (x: nat)
    requires i < |CellsOf(changesets, id)|
    ensures i <= x < |changesets| && changesets[x].pushid == id
    ensures CellsOf(changesets, id)[i] == (changesets[x].rev, changesets[x].node)
  {
    if changesets[0].pushid == id {
      if i == 0 { return 0; }
      x := CellSource(changesets[1..], id, i - 1);
    } else {
      x := CellSource(changesets[1..], id, i);
    }
    x := x + 1;
  }

  lemma {:induction false} CellsDistinct(changesets: seq<ChangesetRow>, id: nat)
    requires DistinctRevs(changesets)
    ensures DistinctCells(CellsOf(changesets, id))
  {
    if changesets != [] {
      var rest := CellsOf(changesets[1..], id);
      CellsDistinct(changesets[1..], id);
      forall i | 0 <= i < |rest|
        ensures rest[i].0 != changesets[0].rev
      {
        var x := CellSource(changesets[1..], id, i);
        assert changesets[1..][x] == changesets[x + 1];
      }
    }
  }

  lemma OneGroup(rows: seq<Row>, p: PushRow, changesets: seq<ChangesetRow>, reverse: bool)
    requires JoinRows(rows, p, CellsOf(changesets, p.id)) && DistinctRevs(changesets)
    ensures SortedNodes(CellsIn(rows), reverse) == SortedNodes(CellsOf(changesets, p.id), reverse)
  {
    hide DistinctRevs, SortCells;
    var cells := CellsOf(changesets, p.id);
    if cells == [] {
      assert CellsIn(rows) == [];
    } else {
      CellsDistinct(changesets, p.id);
      SortForgetsOrder(cells, CellsIn(rows));
    }
  }

  lemma ArriveHead(rows: seq<Row>, selected: seq<PushRow>, changesets: seq<ChangesetRow>)
    requires Arrive(rows, selected, changesets) && rows != []
    ensures selected != [] && rows[0].push == selected[0]
  {
    if selected != [] {
      var k: nat :|
        && k <= |rows| && JoinRows(rows[..k], selected[0], CellsOf(changesets, selected[0].id))
        && Arrive(rows[k..], selected[1..], changesets);
      assert rows[..k][0] == rows[0];
    }
  }

  lemma FirstGroup(rows: seq<Row>, selected: seq<PushRow>, changesets: seq<ChangesetRow>, k: nat)
    requires selected != [] && DistinctIds(selected) && k <= |rows|
    requires JoinRows(rows[..k], selected[0], CellsOf(changesets, selected[0].id))
    requires Arrive(rows[k..], selected[1..], changesets)
    ensures 0 < k && GroupEnd(rows, 1) == k && rows[0].push == selected[0]
  {
    var e := GroupEnd(rows, 1);
    assert rows[..k][0] == rows[0];
    forall i | 0 <= i < k
      ensures rows[i].push == selected[0]
    {
      assert rows[..k][i] == rows[i];
    }
    if k < |rows| {
      ArriveHead(rows[k..], selected[1..], changesets);
      assert rows[k..][0] == rows[k] && rows[k].push.id != rows[0].push.id;
    }
  }

  lemma NothingArrives(rows: seq<Row>, changesets: seq<ChangesetRow>)
    requires Arrive(rows, [], changesets)
    ensures rows == []
  {
  }

  lemma SplitArrival(rows: seq<Row>, selected: seq<PushRow>, changesets: seq<ChangesetRow>) returns (k: nat)
    requires Arrive(rows, selected, changesets) && selected != []
    ensures k <= |rows| && JoinRows(rows[..k], selected[0], CellsOf(changesets, selected[0].id))
    ensures Arrive(rows[k..], selected[1..], changesets)
  {
    k :|
      && k <= |rows| && JoinRows(rows[..k], selected[0], CellsOf(changesets, selected[0].id))
      && Arrive(rows[k..], selected[1..], changesets);
  }

  /** However the rows of each push arrive, the pushes read are the selected ones, none lost, each with all its
      changesets in revision order. */
  lemma {:induction false} ReadsTheSelection(rows: seq<Row>, selected: seq<PushRow>, changesets: seq<ChangesetRow>,
                                             reverse: bool)
    requires Arrive(rows, selected, changesets) && DistinctIds(selected) && DistinctRevs(changesets)
    ensures Grouped(rows, reverse) == PushesOf(selected, changesets, reverse)
    decreases |selected|
  {
    hide SortedNodes, CellsIn, CellsOf, Arrive, DistinctRevs, JoinRows, GroupEnd, Grouped;
    if selected == [] {
      NothingArrives(rows, changesets);
      GroupedEnd(rows, reverse);
    } else {
      var k := SplitArrival(rows, selected, changesets);
      FirstGroup(rows, selected, changesets, k);
      OneGroup(rows[..k], selected[0], changesets, reverse);
      GroupedStep(rows, reverse, [], 0, k);
      assert rows[0..] == rows && rows[0..k] == rows[..k];
      ReadsTheSelection(rows[k..], selected[1..], changesets, reverse);
      var p := PushOf(selected[0], changesets, reverse);
      assert [] + Grouped(rows, reverse) == Grouped(rows, reverse) && [] + [p] == [p];
    }
  }

  /** Rows ordered by the database and rows that merely come push by push read the same. */
  lemma OrderingInPythonIsEnough(ordered: seq<Row>, grouped: seq<Row>, selected: seq<PushRow>,
                                 changesets: seq<ChangesetRow>, reverse: bool)
    requires Arrive(ordered, selected, changesets) && Arrive(grouped, selected, changesets)
    requires DistinctIds(selected) && DistinctRevs(changesets)
    ensures Grouped(grouped, reverse) == Grouped(ordered, reverse)
  {
    ReadsTheSelection(ordered, selected, changesets, reverse);
    ReadsTheSelection(grouped, selected, changesets, reverse);
  }

  lemma {:induction false} CellsAreRows(changesets: seq<ChangesetRow>, id: nat, c: Cell)
    ensures c in CellsOf(changesets, id) <==> ChangesetRow(id, c.0, c.1) in changesets
  {
    if changesets != [] { CellsAreRows(changesets[1..], id, c); }
  }

  /** `cells` are the revisions and nodes recorded for a push. */
  ghost predicate RecordedFor(cells: seq<Cell>, changesets: seq<ChangesetRow>, id: nat) {
    forall c: Cell :: c in cells <==> ChangesetRow(id, c.0, c.1) in changesets
  }

  lemma SortedAreRows(changesets: seq<ChangesetRow>, id: nat)
    ensures RecordedFor(SortCells(CellsOf(changesets, id)), changesets, id)
  {
    var sorted := SortCells(CellsOf(changesets, id));
    forall c: Cell
      ensures c in sorted <==> ChangesetRow(id, c.0, c.1) in changesets
    {
      CellsAreRows(changesets, id, c);
      assert c in sorted <==> c in multiset(sorted);
    }
  }

  /** Read oldest first, the nodes of a push are all its nodes by ascending revision. */
  lemma NodesAscend(p: PushRow, changesets: seq<ChangesetRow>) returns (cells: seq<Cell>)
    requires DistinctRevs(changesets)
    ensures var push := PushOf(p, changesets, false);
            push.id == p.id && push.user == p.user && push.when == p.date && push.nodes == NodesOf(cells)
    ensures RecordedFor(cells, changesets, p.id) && forall i, j :: 0 <= i < j < |cells| ==> cells[i].0 < cells[j].0
  {
    hide DistinctRevs, SortCells, CellsOf;
    CellsDistinct(changesets, p.id);
    SortSorts(CellsOf(changesets, p.id));
    SortedAreRows(changesets, p.id);
    cells := SortCells(CellsOf(changesets, p.id));
  }

  /** Read newest first, they come by descending revision. */
  lemma NodesDescend(p: PushRow, changesets: seq<ChangesetRow>) returns (cells: seq<Cell>)
    requires DistinctRevs(changesets)
    ensures var push := PushOf(p, changesets, true);
            push.id == p.id && push.user == p.user && push.when == p.date && push.nodes == NodesOf(cells)
    ensures RecordedFor(cells, changesets, p.id) && forall i, j :: 0 <= i < j < |cells| ==> cells[j].0 < cells[i].0
  {
    hide DistinctRevs, SortCells, CellsOf;
    var sorted := SortCells(CellsOf(changesets, p.id));
    CellsDistinct(changesets, p.id);
    SortSorts(CellsOf(changesets, p.id));
    SortedAreRows(changesets, p.id);
    cells := Reversed(sorted);
    assert forall i :: 0 <= i < |sorted| ==> sorted[i] == cells[|sorted| - 1 - i];
  }

  /** The nodes of a push read newest first start with its highest revision. */
  lemma NewestNodeFirst(p: PushRow, changesets: seq<ChangesetRow>, c: Cell)
    requires DistinctRevs(changesets) && c in CellsOf(changesets, p.id)
    ensures exists top: Cell ::
              top in CellsOf(changesets, p.id) && c.0 <= top.0 && PushOf(p, changesets, true).nodes[..1] == [top.1]
  {
    hide DistinctRevs, SortCells, Reversed, NodesOf, CellsOf;
    var cells := CellsOf(changesets, p.id);
    var sorted := SortCells(cells);
    CellsDistinct(changesets, p.id);
    SortSorts(cells);
    LastIsGreatest(sorted, c);
    var nodes := NodesOf(Reversed(sorted));
    assert nodes[..1] == [nodes[0]];
  }

  lemma LastIsGreatest(sorted: seq<Cell>, c: Cell)
    requires SortedCells(sorted) && c in multiset(sorted)
    ensures sorted != [] && c.0 <= sorted[|sorted| - 1].0 && sorted[|sorted| - 1] in multiset(sorted)
  {
    var i :| 0 <= i < |sorted| && sorted[i] == c;
  }
}
