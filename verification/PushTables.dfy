/** The two tables of the pushlog database and their UNIQUE indexes (hgext/pushlog/__init__.py). */
module PushTables {
  import opened Prelude
  import PushStream

  type Push = PushStream.Push

  datatype PushRow = PushRow(id: nat, user: string, date: nat)

  datatype ChangesetRow = ChangesetRow(pushid: nat, rev: nat, node: string)

  datatype Tables = Tables(pushlog: seq<PushRow>, changesets: seq<ChangesetRow>)

  const EMPTY := Tables([], [])

  predicate DistinctIds(rows: seq<PushRow>) {
    forall i, j :: 0 <= i < j < |rows| ==> rows[i].id != rows[j].id
  }

  predicate DistinctNodes(rows: seq<ChangesetRow>) {
    forall i, j :: 0 <= i < j < |rows| ==> rows[i].node != rows[j].node
  }

  predicate DistinctRevs(rows: seq<ChangesetRow>) {
    forall i, j :: 0 <= i < j < |rows| ==> rows[i].rev != rows[j].rev
  }

  /** The primary key of `pushlog` and the indexes `changeset_node` and `changeset_rev`. */
  predicate Indexed(t: Tables) {
    DistinctIds(t.pushlog) && DistinctNodes(t.changesets) && DistinctRevs(t.changesets)
  }

  // ---------------------------------------------------------------- inserts, which an index may refuse

  function InsertPush(t: Tables, row: PushRow): Option<Tables> {
    if exists i :: 0 <= i < |t.pushlog| && t.pushlog[i].id == row.id then None
    else Some(t.(pushlog := t.pushlog + [row]))
  }

  function InsertChangeset(t: Tables, row: ChangesetRow): Option<Tables> {
    if exists i ::
         0 <= i < |t.changesets| && (t.changesets[i].node == row.node || t.changesets[i].rev == row.rev)
    then None
    else Some(t.(changesets := t.changesets + [row]))
  }

  /** Revisions by node: the local repository. */
  type Revs = map<string, nat>

  predicate Known(nodes: seq<string>, revs: Revs) {
    PushStream.AllKnown(nodes, revs.Keys)
  }

  function InsertNodes(t: Tables, pushid: nat, nodes: seq<string>, revs: Revs): Option<Tables>
    requires Known(nodes, revs)
    decreases |nodes|
  {
    if nodes == [] then Some(t)
    else
      match InsertChangeset(t, ChangesetRow(pushid, revs[nodes[0]], nodes[0]))
      case None => None
      case Some(t') => InsertNodes(t', pushid, nodes[1..], revs)
  }

  function InsertWhole(t: Tables, p: Push, revs: Revs): Option<Tables>
    requires Known(p.nodes, revs)
  {
    match InsertPush(t, PushRow(p.id, p.user, p.when))
    case None => None
    case Some(t') => InsertNodes(t', p.id, p.nodes, revs)
  }

  predicate AllKnown(pushes: seq<Push>, revs: Revs) {
    forall i :: 0 <= i < |pushes| ==> Known(pushes[i].nodes, revs)
  }

  function InsertAll(t: Tables, pushes: seq<Push>, revs: Revs): Option<Tables>
    requires AllKnown(pushes, revs)
    decreases |pushes|
  {
    if pushes == [] then Some(t)
    else
      match InsertWhole(t, pushes[0], revs)
      case None => None
      case Some(t') => InsertAll(t', pushes[1..], revs)
  }

  // ---------------------------------------------------------------- the rows of a list of pushes

  function PushRows(pushes: seq<Push>): (r: seq<PushRow>)
    ensures |r| == |pushes|
    ensures forall i :: 0 <= i < |r| ==> r[i] == PushRow(pushes[i].id, pushes[i].user, pushes[i].when)
  {
    if pushes == [] then [] else [PushRow(pushes[0].id, pushes[0].user, pushes[0].when)] + PushRows(pushes[1..])
  }

  function NodeRows(pushid: nat, nodes: seq<string>, revs: Revs): (r: seq<ChangesetRow>)
    requires Known(nodes, revs)
    ensures |r| == |nodes| && forall i :: 0 <= i < |r| ==> r[i] == ChangesetRow(pushid, revs[nodes[i]], nodes[i])
  {
    if nodes == [] then [] else [ChangesetRow(pushid, revs[nodes[0]], nodes[0])] + NodeRows(pushid, nodes[1..], revs)
  }

  function ChangesetRows(pushes: seq<Push>, revs: Revs): seq<ChangesetRow>
    requires AllKnown(pushes, revs)
  {
    if pushes == [] then [] else NodeRows(pushes[0].id, pushes[0].nodes, revs) + ChangesetRows(pushes[1..], revs)
  }

  function Added(t: Tables, pushes: seq<Push>, revs: Revs): Tables
    requires AllKnown(pushes, revs)
  {
    Tables(t.pushlog + PushRows(pushes), t.changesets + ChangesetRows(pushes, revs))
  }

  lemma IndexedPrefix(t: Tables, pushRows: seq<PushRow>, rows: seq<ChangesetRow>)
    requires Indexed(Tables(t.pushlog + pushRows, t.changesets + rows))
    ensures Indexed(t)
  {
    var all := Tables(t.pushlog + pushRows, t.changesets + rows);
    assert forall i :: 0 <= i < |t.pushlog| ==> all.pushlog[i] == t.pushlog[i];
    assert forall i :: 0 <= i < |t.changesets| ==> all.changesets[i] == t.changesets[i];
  }

  /** A row and the rows behind it. */
  lemma RowsBehind(t: Tables, row: ChangesetRow, rest: seq<ChangesetRow>)
    ensures t.(changesets := t.changesets + ([row] + rest))
         == t.(changesets := (t.changesets + [row]) + rest)
    ensures Indexed(t.(changesets := t.changesets + ([row] + rest))) ==> Indexed(t.(changesets := t.changesets + [row]))
  {
    hide Indexed;
    var one := t.(changesets := t.changesets + [row]);
    assert t.changesets + ([row] + rest) == one.changesets + rest;
    if Indexed(t.(changesets := t.changesets + ([row] + rest))) {
      assert t.pushlog + [] == t.pushlog;
      IndexedPrefix(one, [], rest);
    }
  }

  /** The indexes let rows in exactly when they would still hold with all of them there. */
  lemma {:induction false} InsertNodesIff(t: Tables, pushid: nat, nodes: seq<string>, revs: Revs)
    requires Known(nodes, revs) && Indexed(t)
    ensures var all := t.(changesets := t.changesets + NodeRows(pushid, nodes, revs));
            InsertNodes(t, pushid, nodes, revs) == if Indexed(all) then Some(all) else None
    decreases |nodes|
  {
    hide Indexed, InsertChangeset;
    if nodes == [] {
      assert t.changesets + NodeRows(pushid, nodes, revs) == t.changesets;
    } else {
      var row := ChangesetRow(pushid, revs[nodes[0]], nodes[0]);
      var one := t.(changesets := t.changesets + [row]);
      InsertOneIff(t, row);
      RowsBehind(t, row, NodeRows(pushid, nodes[1..], revs));
      if Indexed(one) { InsertNodesIff(one, pushid, nodes[1..], revs); }
    }
  }

  lemma InsertOneIff(t: Tables, row: ChangesetRow)
    requires Indexed(t)
    ensures InsertChangeset(t, row)
         == if Indexed(t.(changesets := t.changesets + [row])) then Some(t.(changesets := t.changesets + [row]))
            else None
  {
    var all := t.changesets + [row];
    if i :| 0 <= i < |t.changesets| && (t.changesets[i].node == row.node || t.changesets[i].rev == row.rev) {
      assert all[i] == t.changesets[i] && all[|t.changesets|] == row;
    }
  }

  lemma InsertPushIff(t: Tables, row: PushRow)
    requires Indexed(t)
    ensures InsertPush(t, row)
         == if Indexed(t.(pushlog := t.pushlog + [row])) then Some(t.(pushlog := t.pushlog + [row])) else None
  {
    var all := t.pushlog + [row];
    if i :| 0 <= i < |t.pushlog| && t.pushlog[i].id == row.id {
      assert all[i] == t.pushlog[i] && all[|t.pushlog|] == row;
    }
  }

  lemma InsertWholeIff(t: Tables, p: Push, revs: Revs)
    requires Known(p.nodes, revs) && Indexed(t)
    ensures var all := Tables(t.pushlog + [PushRow(p.id, p.user, p.when)],
                              t.changesets + NodeRows(p.id, p.nodes, revs));
            InsertWhole(t, p, revs) == if Indexed(all) then Some(all) else None
  {
    hide Indexed, InsertPush, InsertNodes;
    var row := PushRow(p.id, p.user, p.when);
    var rows := NodeRows(p.id, p.nodes, revs);
    var one := t.(pushlog := t.pushlog + [row]);
    InsertPushIff(t, row);
    if Indexed(one) {
      InsertNodesIff(one, p.id, p.nodes, revs);
    } else if Indexed(Tables(t.pushlog + [row], t.changesets + rows)) {
      assert one.pushlog + [] == one.pushlog;
      IndexedPrefix(one, [], rows);
    }
  }

  lemma {:induction false} InsertAllIff(t: Tables, pushes: seq<Push>, revs: Revs)
    requires AllKnown(pushes, revs) && Indexed(t)
    ensures InsertAll(t, pushes, revs)
         == if Indexed(Added(t, pushes, revs)) then Some(Added(t, pushes, revs)) else None
    decreases |pushes|
  {
    hide Indexed, InsertWhole;
    if pushes == [] {
      assert Added(t, pushes, revs) == t;
    } else {
      var p := pushes[0];
      var one := Tables(t.pushlog + [PushRow(p.id, p.user, p.when)], t.changesets + NodeRows(p.id, p.nodes, revs));
      InsertWholeIff(t, p, revs);
      AddedStep(t, pushes, revs);
      if Indexed(one) {
        InsertAllIff(one, pushes[1..], revs);
      } else if Indexed(Added(t, pushes, revs)) {
        IndexedPrefix(one, PushRows(pushes[1..]), ChangesetRows(pushes[1..], revs));
      }
    }
  }

  lemma AddedStep(t: Tables, pushes: seq<Push>, revs: Revs)
    requires AllKnown(pushes, revs) && pushes != []
    ensures var p := pushes[0];
            var one := Tables(t.pushlog + [PushRow(p.id, p.user, p.when)],
                              t.changesets + NodeRows(p.id, p.nodes, revs));
            Added(t, pushes, revs) == Added(one, pushes[1..], revs)
  {
    var p := pushes[0];
    assert t.pushlog + PushRows(pushes) == t.pushlog + [PushRow(p.id, p.user, p.when)] + PushRows(pushes[1..]);
    assert t.changesets + ChangesetRows(pushes, revs)
        == t.changesets + NodeRows(p.id, p.nodes, revs) + ChangesetRows(pushes[1..], revs);
  }

  lemma {:induction false} AddedTwice(t: Tables, a: seq<Push>, b: seq<Push>, revs: Revs)
    requires AllKnown(a, revs) && AllKnown(b, revs)
    ensures AllKnown(a + b, revs) && Added(Added(t, a, revs), b, revs) == Added(t, a + b, revs)
    decreases |a|
  {
    if a == [] {
      assert a + b == b && Added(t, a, revs) == t;
    } else {
      assert (a + b)[0] == a[0] && (a + b)[1..] == a[1..] + b;
      AddedStep(t, a, revs);
      AddedStep(t, a + b, revs);
      var p := a[0];
      AddedTwice(Tables(t.pushlog + [PushRow(p.id, p.user, p.when)], t.changesets + NodeRows(p.id, p.nodes, revs)),
                 a[1..], b, revs);
    }
  }

  // ---------------------------------------------------------------- logs that fit the indexes

  function LastId(rows: seq<PushRow>): nat {
    if rows == [] then 0
    else
      var before := LastId(rows[..|rows| - 1]);
      if rows[|rows| - 1].id > before then rows[|rows| - 1].id else before
  }

  ghost predicate IdsGrow(log: seq<Push>) {
    && (forall i :: 0 <= i < |log| ==> log[i].id > 0)
    && (forall i, j :: 0 <= i < j < |log| ==> log[i].id < log[j].id)
  }

  ghost predicate NodesOnce(log: seq<Push>) {
    && (forall i, m, n :: 0 <= i < |log| && 0 <= m < n < |log[i].nodes| ==> log[i].nodes[m] != log[i].nodes[n])
    && (forall i, m, j, n :: 0 <= i < j < |log| && 0 <= m < |log[i].nodes| && 0 <= n < |log[j].nodes| ==>
          log[i].nodes[m] != log[j].nodes[n])
  }

  lemma {:induction false} RowSource(pushes: seq<Push>, revs: Revs, x: nat) returns (i: nat, m: nat)
    requires AllKnown(pushes, revs) && x < |ChangesetRows(pushes, revs)|
    ensures i < |pushes| && m < |pushes[i].nodes| && pushes[i].nodes[m] in revs
    ensures var node := pushes[i].nodes[m];
            ChangesetRows(pushes, revs)[x] == ChangesetRow(pushes[i].id, revs[node], node)
  {
    var own := |pushes[0].nodes|;
    if x < own {
      i, m := 0, x;
    } else {
      i, m := RowSource(pushes[1..], revs, x - own);
      i := i + 1;
    }
  }

  /** Every row gives its node the revision the repository gives it. */
  ghost predicate Named(rows: seq<ChangesetRow>, revs: Revs) {
    forall x :: 0 <= x < |rows| ==> rows[x].node in revs && rows[x].rev == revs[rows[x].node]
  }

  lemma RowsNamed(pushes: seq<Push>, revs: Revs)
    requires AllKnown(pushes, revs)
    ensures Named(ChangesetRows(pushes, revs), revs)
  {
    forall x | 0 <= x < |ChangesetRows(pushes, revs)|
      ensures ChangesetRows(pushes, revs)[x].node in revs
      ensures ChangesetRows(pushes, revs)[x].rev == revs[ChangesetRows(pushes, revs)[x].node]
    {
      var i, m := RowSource(pushes, revs, x);
    }
  }

  lemma {:induction false} RowsDistinct(pushes: seq<Push>, revs: Revs)
    requires AllKnown(pushes, revs) && NodesOnce(pushes)
    ensures DistinctNodes(ChangesetRows(pushes, revs))
  {
    if pushes != [] {
      var own, rest := NodeRows(pushes[0].id, pushes[0].nodes, revs), ChangesetRows(pushes[1..], revs);
      NodesOnceRest(pushes);
      RowsDistinct(pushes[1..], revs);
      forall x, y | 0 <= x < |own| && 0 <= y < |rest|
        ensures own[x].node != rest[y].node
      {
        var i, m := RowSource(pushes[1..], revs, y);
        assert pushes[1..][i] == pushes[i + 1];
      }
      assert DistinctNodes(own);
      DistinctConcat(own, rest);
    }
  }

  lemma NodesOnceRest(pushes: seq<Push>)
    requires NodesOnce(pushes) && pushes != []
    ensures NodesOnce(pushes[1..])
  {
    var rest := pushes[1..];
    assert forall i :: 0 <= i < |rest| ==> rest[i] == pushes[i + 1];
  }

  lemma DistinctConcat(a: seq<ChangesetRow>, b: seq<ChangesetRow>)
    requires DistinctNodes(a) && DistinctNodes(b)
    requires forall x, y :: 0 <= x < |a| && 0 <= y < |b| ==> a[x].node != b[y].node
    ensures DistinctNodes(a + b)
  {
  }

  lemma DistinctByName(rows: seq<ChangesetRow>, revs: Revs)
    requires DistinctNodes(rows) && Injective(revs) && Named(rows, revs)
    ensures DistinctRevs(rows)
  {
  }

  lemma IdsDistinct(log: seq<Push>)
    requires IdsGrow(log)
    ensures DistinctIds(PushRows(log))
  {
    forall i, j | 0 <= i < j < |log|
      ensures PushRows(log)[i].id != PushRows(log)[j].id
    {
      assert log[i].id < log[j].id;
    }
  }

  lemma LogFitsIndexes(log: seq<Push>, revs: Revs)
    requires IdsGrow(log) && NodesOnce(log) && AllKnown(log, revs) && Injective(revs)
    ensures Indexed(Added(EMPTY, log, revs))
  {
    hide NodesOnce, ChangesetRows, AllKnown, DistinctNodes;
    RowsDistinct(log, revs);
    RowsNamed(log, revs);
    DistinctByName(ChangesetRows(log, revs), revs);
    IdsDistinct(log);
    assert [] + ChangesetRows(log, revs) == ChangesetRows(log, revs) && [] + PushRows(log) == PushRows(log);
  }

  lemma {:induction false} LastIdBounds(rows: seq<PushRow>, i: nat)
    requires i < |rows|
    ensures rows[i].id <= LastId(rows)
    decreases |rows|
  {
    var front := rows[..|rows| - 1];
    if i < |front| { LastIdBounds(front, i); }
  }

  lemma {:induction false} PushRowsConcat(a: seq<Push>, b: seq<Push>)
    ensures PushRows(a + b) == PushRows(a) + PushRows(b)
  {
    assert forall i :: 0 <= i < |a| ==> (a + b)[i] == a[i];
  }

  lemma RowsFirst(pushes: seq<Push>, revs: Revs)
    requires AllKnown(pushes, revs) && pushes != []
    ensures Known(pushes[0].nodes, revs) && AllKnown(pushes[1..], revs)
    ensures ChangesetRows(pushes, revs)
         == NodeRows(pushes[0].id, pushes[0].nodes, revs) + ChangesetRows(pushes[1..], revs)
  {
  }

  lemma AllKnownConcat(a: seq<Push>, b: seq<Push>, revs: Revs)
    requires AllKnown(a, revs) && AllKnown(b, revs)
    ensures AllKnown(a + b, revs)
  {
  }

  lemma NoRows(pushes: seq<Push>, revs: Revs)
    requires pushes == []
    ensures AllKnown(pushes, revs) && ChangesetRows(pushes, revs) == []
  {
  }

  lemma {:induction false} RowsConcat(a: seq<Push>, b: seq<Push>, revs: Revs)
    requires AllKnown(a, revs) && AllKnown(b, revs)
    ensures AllKnown(a + b, revs)
    ensures PushRows(a + b) == PushRows(a) + PushRows(b)
    ensures ChangesetRows(a + b, revs) == ChangesetRows(a, revs) + ChangesetRows(b, revs)
  {
    hide NodeRows, Known, AllKnown, ChangesetRows, PushRows;
    PushRowsConcat(a, b);
    AllKnownConcat(a, b, revs);
    if a == [] {
      assert a + b == b;
      NoRows(a, revs);
    } else {
      assert (a + b)[0] == a[0] && (a + b)[1..] == a[1..] + b;
      RowsFirst(a, revs);
      RowsFirst(a + b, revs);
      RowsConcat(a[1..], b, revs);
    }
  }

  /** No push of `more` shares an id or a changeset with one of `log`. */
  ghost predicate Apart(log: seq<Push>, more: seq<Push>) {
    && (forall i, j :: 0 <= i < |log| && 0 <= j < |more| ==> log[i].id != more[j].id)
    && (forall i, m, j, n ::
          0 <= i < |log| && 0 <= m < |log[i].nodes| && 0 <= j < |more| && 0 <= n < |more[j].nodes| ==>
          log[i].nodes[m] != more[j].nodes[n])
  }

  lemma RowsApart(log: seq<Push>, more: seq<Push>, revs: Revs)
    requires AllKnown(log, revs) && AllKnown(more, revs) && Apart(log, more)
    requires DistinctNodes(ChangesetRows(log, revs)) && DistinctNodes(ChangesetRows(more, revs))
    ensures DistinctNodes(ChangesetRows(log, revs) + ChangesetRows(more, revs))
  {
    var a, b := ChangesetRows(log, revs), ChangesetRows(more, revs);
    forall x, y | 0 <= x < |a| && 0 <= y < |b|
      ensures a[x].node != b[y].node
    {
      var i, m := RowSource(log, revs, x);
      var j, n := RowSource(more, revs, y);
    }
    DistinctConcat(a, b);
  }

  lemma IdsApart(log: seq<Push>, more: seq<Push>)
    requires Apart(log, more) && DistinctIds(PushRows(log)) && DistinctIds(PushRows(more))
    ensures DistinctIds(PushRows(log) + PushRows(more))
  {
  }

  /** Further pushes that share nothing with a stored log are stored too: no index refuses a row of theirs. */
  lemma RecordsApart(log: seq<Push>, more: seq<Push>, revs: Revs)
    requires AllKnown(log, revs) && AllKnown(more, revs) && Injective(revs)
    requires Indexed(Added(EMPTY, log, revs)) && IdsGrow(more) && NodesOnce(more) && Apart(log, more)
    ensures AllKnown(log + more, revs)
    ensures InsertAll(Added(EMPTY, log, revs), more, revs) == Some(Added(EMPTY, log + more, revs))
  {
    hide NodesOnce, ChangesetRows, AllKnown, DistinctNodes, DistinctRevs, DistinctIds, Apart, Injective, IdsGrow;
    hide InsertAll;
    var t := Added(EMPTY, log, revs);
    RowsConcat(log, more, revs);
    assert [] + PushRows(log) == PushRows(log) && [] + ChangesetRows(log, revs) == ChangesetRows(log, revs);
    RowsDistinct(more, revs);
    RowsApart(log, more, revs);
    RowsNamed(log + more, revs);
    DistinctByName(ChangesetRows(log + more, revs), revs);
    IdsDistinct(more);
    IdsApart(log, more);
    AddedTwice(EMPTY, log, more, revs);
    assert [] + PushRows(log + more) == PushRows(log + more);
    assert [] + ChangesetRows(log + more, revs) == ChangesetRows(log + more, revs);
    InsertAllIff(t, more, revs);
  }
}
