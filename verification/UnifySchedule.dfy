/**
 Scheduling of the pulls that rebuild a unified repository (hgext/unifyrepo/__init__.py).

 `order` lists the wanted nodes in push order, as revisions of the staging repository `g`.
 */
module UnifySchedule {
  import opened Prelude
  import opened Dag

  // ---------------------------------------------------------------- the schedule

  /** The wanted nodes that have `n` as a parent. */
  function Children(g: Graph, order: seq<nat>, n: nat): set<nat> {
    set c | c in order && c < |g| && n in g[c]
  }

  /** What the scan finds at a node: a DAG head, a child of the previous node, or a change of branch. */
  datatype Step = Head | Continue | Branch

  function StepAt(g: Graph, order: seq<nat>, j: nat): Step
    requires j < |order|
  {
    if Children(g, order, order[j]) == {} then Head
    else if j > 0 && order[j] in Children(g, order, order[j - 1]) then Continue
    else Branch
  }

  function Steps(g: Graph, order: seq<nat>): (r: seq<Step>)
    ensures |r| == |order| && forall j :: 0 <= j < |r| ==> r[j] == StepAt(g, order, j)
  {
    seq(|order|, j requires 0 <= j < |order| => StepAt(g, order, j))
  }

  /** The positions in push order that step `j` of the scan emits. */
  function EmittedAt(steps: seq<Step>, j: nat): seq<nat>
    requires j < |steps|
  {
    if steps[j].Head? then [j]
    else if steps[j].Branch? && j > 0 && !steps[j - 1].Head? then [j - 1]
    else []
  }

  /** The positions emitted by the first `n` steps. */
  function Positions(steps: seq<Step>, n: nat): seq<nat>
    requires n <= |steps|
  {
    if n == 0 then [] else Positions(steps, n - 1) + EmittedAt(steps, n - 1)
  }

  predicate Below(s: seq<nat>, n: nat) {
    forall i :: 0 <= i < |s| ==> s[i] < n
  }

  function NodesAt(order: seq<nat>, positions: seq<nat>): (r: seq<nat>)
    requires Below(positions, |order|)
    ensures |r| == |positions| && forall i :: 0 <= i < |r| ==> r[i] == order[positions[i]]
  {
    seq(|positions|, i requires 0 <= i < |positions| => order[positions[i]])
  }

  /** The emitted positions strictly increase, so the schedule is a duplicate-free subsequence of push order. */
  lemma {:induction false} PositionsIncrease(steps: seq<Step>, n: nat)
    requires n <= |steps|
    ensures Increasing(Positions(steps, n)) && Below(Positions(steps, n), n)
    ensures n > 0 && !steps[n - 1].Head? ==> Below(Positions(steps, n), n - 1)
  {
    if n > 0 { PositionsIncrease(steps, n - 1); }
  }

  lemma {:induction false} PositionsGrow(steps: seq<Step>, m: nat, n: nat)
    requires m <= n <= |steps|
    ensures Positions(steps, m) <= Positions(steps, n)
    decreases n
  {
    if m < n { PositionsGrow(steps, m, n - 1); }
  }

  lemma NodesAtAppend(order: seq<nat>, ps: seq<nat>, more: seq<nat>)
    requires Below(ps, |order|) && Below(more, |order|)
    ensures Below(ps + more, |order|) && NodesAt(order, ps + more) == NodesAt(order, ps) + NodesAt(order, more)
  {
    forall i | 0 <= i < |ps + more|
      ensures (ps + more)[i] < |order|
    {
      assert i >= |ps| ==> (ps + more)[i] == more[i - |ps|];
    }
  }

  /** The node that step `j` emits, if it emits one. */
  function NodesEmittedAt(order: seq<nat>, steps: seq<Step>, j: nat): seq<nat>
    requires j < |steps| == |order|
  {
    if steps[j].Head? then [order[j]]
    else if steps[j].Branch? && j > 0 && !steps[j - 1].Head? then [order[j - 1]]
    else []
  }

  lemma EmittedNodes(order: seq<nat>, steps: seq<Step>, j: nat)
    requires j < |steps| == |order|
    ensures Below(EmittedAt(steps, j), |order|)
    ensures NodesAt(order, EmittedAt(steps, j)) == NodesEmittedAt(order, steps, j)
  {
  }

  lemma NodesAtStep(order: seq<nat>, steps: seq<Step>, j: nat)
    requires j < |steps| == |order| && Below(Positions(steps, j), |order|)
    ensures Below(Positions(steps, j + 1), |order|)
    ensures NodesAt(order, Positions(steps, j + 1)) ==
            NodesAt(order, Positions(steps, j)) + NodesEmittedAt(order, steps, j)
  {
    hide EmittedAt, NodesEmittedAt, NodesAt, Below;
    EmittedNodes(order, steps, j);
    NodesAtAppend(order, Positions(steps, j), EmittedAt(steps, j));
  }

  function Schedule(g: Graph, order: seq<nat>): seq<nat> {
    PositionsIncrease(Steps(g, order), |order|);
    NodesAt(order, Positions(Steps(g, order), |order|))
  }

  /** A dictionary whose missing entries are the empty set. */
  function Lookup(m: map<nat, set<nat>>, n: nat): set<nat> {
    if n in m then m[n] else {}
  }

  /** The node -> children index is filled by one pass over the repository. */
  method IndexChildren(g: Graph, order: seq<nat>) returns (clchildren: map<nat, set<nat>>)
    ensures forall n: nat :: Lookup(clchildren, n) == Children(g, order, n)
  {
    clchildren := map[];
    for rev := 0 to |g|
      invariant forall n: nat :: Lookup(clchildren, n) == set c | c in Children(g, order, n) && c < rev
    {
      if rev in order {
        ghost var before := clchildren;
        for i := 0 to |g[rev]|
          invariant forall n: nat :: Lookup(clchildren, n) == Lookup(before, n) + if n in g[rev][..i] then {rev} else {}
        {
          var p := g[rev][i];
          clchildren := clchildren[p := Lookup(clchildren, p) + {rev}];
        }
        assert g[rev][..|g[rev]|] == g[rev];
      }
    }
  }

  /** `emitfastforwardnodes`; `closing` is its final assertion that no node is left pending. */
  method EmitFastForwardNodes(g: Graph, order: seq<nat>) returns (out: seq<nat>, closing: bool)
    ensures out == Schedule(g, order)
    ensures closing <==> order == [] || Children(g, order, order[|order| - 1]) == {}
  {
    var clchildren := IndexChildren(g, order);
    var wantedchildren: set<nat> := {};
    var lastnode: Option<nat> := None;
    out := [];
    ghost var steps := Steps(g, order);
    PositionsIncrease(steps, 0);
    for j := 0 to |order|
      invariant Below(Positions(steps, j), |order|) && out == NodesAt(order, Positions(steps, j))
      invariant lastnode == if j > 0 && !steps[j - 1].Head? then Some(order[j - 1]) else None
      invariant wantedchildren == if lastnode.Some? then Children(g, order, lastnode.value) else {}
    {
      var node := order[j];
      var children := Lookup(clchildren, node);
      NodesAtStep(order, steps, j);
      assert steps[j] == StepAt(g, order, j);
      if children == {} {
        out := out + [node];
        wantedchildren := {};
        lastnode := None;
        continue;
      }
      if node in wantedchildren {
        lastnode := Some(node);
        wantedchildren := children;
        continue;
      }
      if lastnode.Some? {
        out := out + [lastnode.value];
      }
      lastnode := Some(node);
      wantedchildren := children;
    }
    closing := lastnode.None?;
  }

  // ---------------------------------------------------------------- what the schedule covers

  function Elements(s: seq<nat>): set<nat> { set x | x in s }

  /** Push order places every wanted parent before its children; ancestors may be left out. */
  ghost predicate WantedParentsFirst(g: Graph, order: seq<nat>) {
    && Distinct(order)
    && Below(order, |g|)
    && (forall i, p: nat :: 0 <= i < |order| && p in g[order[i]] && p in order ==>
         exists k :: 0 <= k < i && order[k] == p)
  }

  /** The destination `dest` is a repository, and push order places every parent before its children. */
  ghost predicate PushOrder(g: Graph, dest: seq<nat>, order: seq<nat>) {
    && Distinct(order)
    && Below(order, |g|)
    && Below(dest, |g|)
    && (forall x :: x in order ==> x !in dest)
    && Closed(g, Elements(dest))
    && (forall i, p: nat :: 0 <= i < |order| && p in g[order[i]] ==>
         p in dest || exists k :: 0 <= k < i && order[k] == p)
  }

  lemma PushOrderWanted(g: Graph, dest: seq<nat>, order: seq<nat>)
    requires PushOrder(g, dest, order)
    ensures WantedParentsFirst(g, order)
  {
  }

  lemma ParentPosition(g: Graph, dest: seq<nat>, order: seq<nat>, i: nat, p: nat) returns (k: nat)
    requires PushOrder(g, dest, order) && i < |order| && p in g[order[i]] && p !in dest
    ensures k < i && order[k] == p
  {
    k :| 0 <= k < i && order[k] == p;
  }

  /** Every ancestor of a wanted node is in the destination or at or before the node in push order. */
  lemma {:induction false} AncestorsAtOrBefore(g: Graph, dest: seq<nat>, order: seq<nat>, i: nat, a: nat)
    returns (k: nat)
    requires PushOrder(g, dest, order) && i < |order| && IsAncestor(g, a, order[i])
    ensures a in dest || (k <= i && order[k] == a)
    decreases i
  {
    k := i;
    if a != order[i] {
      var p: nat :| p in g[order[i]] && IsAncestor(g, a, p);
      if p in dest {
        ClosedUnderAncestors(g, Elements(dest), a, p);
      } else {
        var j := ParentPosition(g, dest, order, i, p);
        k := AncestorsAtOrBefore(g, dest, order, j, a);
      }
    }
  }

  lemma ChildPosition(g: Graph, order: seq<nat>, i: nat, c: nat) returns (j: nat)
    requires WantedParentsFirst(g, order) && i < |order| && c in Children(g, order, order[i])
    ensures i < j < |order| && order[j] == c
  {
    j :| 0 <= j < |order| && order[j] == c;
    var p: nat := order[i];
    assert p in g[order[j]] && p in order;
    var k :| 0 <= k < j && order[k] == p;
  }

  /** The last wanted node has no wanted child, so the closing assertion holds. */
  lemma ClosingAssertion(g: Graph, order: seq<nat>)
    requires WantedParentsFirst(g, order) && order != []
    ensures Children(g, order, order[|order| - 1]) == {}
  {
    var children := Children(g, order, order[|order| - 1]);
    if children != {} {
      var c :| c in children;
      var j := ChildPosition(g, order, |order| - 1, c);
    }
  }

  lemma {:induction false} HeadsEmitted(steps: seq<Step>, j: nat)
    requires j < |steps| && steps[j].Head?
    ensures j in Positions(steps, |steps|)
  {
    PositionsGrow(steps, j + 1, |steps|);
    var upto := Positions(steps, j + 1);
    assert upto[|upto| - 1] == j;
    assert Positions(steps, |steps|)[|upto| - 1] == j;
  }

  /** Every wanted node is an emitted node or an ancestor of one: nothing is left unpulled. */
  lemma {:induction false} EveryNodeCovered(g: Graph, order: seq<nat>, i: nat) returns (k: nat)
    requires WantedParentsFirst(g, order) && i < |order|
    ensures k in Positions(Steps(g, order), |order|) && k < |order| && IsAncestor(g, order[i], order[k])
    decreases |order| - i
  {
    if Children(g, order, order[i]) == {} {
      HeadsEmitted(Steps(g, order), i);
      k := i;
    } else {
      var c :| c in Children(g, order, order[i]);
      var j := ChildPosition(g, order, i, c);
      k := EveryNodeCovered(g, order, j);
      assert IsAncestor(g, order[i], order[i]);
      AncestorTrans(g, order[i], order[j], order[k]);
    }
  }

  ghost predicate Covers(g: Graph, order: seq<nat>, ps: seq<nat>)
    requires Below(order, |g|) && Below(ps, |order|)
  {
    forall i :: 0 <= i < |order| ==> exists k :: 0 <= k < |ps| && IsAncestor(g, order[i], order[ps[k]])
  }

  ghost predicate PullsNothingLater(g: Graph, order: seq<nat>, ps: seq<nat>)
    requires Below(order, |g|) && Below(ps, |order|)
  {
    forall k, i :: 0 <= k < |ps| && 0 <= i < |order| && IsAncestor(g, order[i], order[ps[k]]) ==> i <= ps[k]
  }

  lemma ScheduleCovers(g: Graph, order: seq<nat>, ps: seq<nat>)
    requires WantedParentsFirst(g, order) && Below(ps, |order|) && ps == Positions(Steps(g, order), |order|)
    ensures Covers(g, order, ps)
  {
    forall i | 0 <= i < |order|
      ensures exists k :: 0 <= k < |ps| && IsAncestor(g, order[i], order[ps[k]])
    {
      var e := EveryNodeCovered(g, order, i);
      var k :| 0 <= k < |ps| && ps[k] == e;
    }
  }

  /** When push order leaves no ancestor out, an emitted node pulls no wanted node from later in push order. */
  lemma ScheduleIsTight(g: Graph, dest: seq<nat>, order: seq<nat>, ps: seq<nat>)
    requires PushOrder(g, dest, order) && Below(ps, |order|)
    ensures PullsNothingLater(g, order, ps)
  {
    forall k, i | 0 <= k < |ps| && 0 <= i < |order| && IsAncestor(g, order[i], order[ps[k]])
      ensures i <= ps[k]
    {
      var at := AncestorsAtOrBefore(g, dest, order, ps[k], order[i]);
    }
  }

  /**
   The schedule is a strictly increasing subsequence of push order that holds every DAG head, and every wanted node
   is pulled by some emitted node.
   */
  lemma ScheduleCoversExactly(g: Graph, order: seq<nat>)
    requires WantedParentsFirst(g, order)
    ensures var steps := Steps(g, order);
            var ps := Positions(steps, |order|);
            && Increasing(ps)
            && Below(ps, |order|)
            && (forall j :: 0 <= j < |steps| && steps[j].Head? ==> j in ps)
            && Covers(g, order, ps)
  {
    var steps := Steps(g, order);
    var ps := Positions(steps, |order|);
    PositionsIncrease(steps, |order|);
    forall j | 0 <= j < |steps| && steps[j].Head?
      ensures j in ps
    {
      HeadsEmitted(steps, j);
    }
    ScheduleCovers(g, order, ps);
  }

  // ---------------------------------------------------------------- replaying the schedule

  /** The revisions below `n` that pulling `head` transfers, in the order they are appended. */
  ghost function Transferred(g: Graph, dest: seq<nat>, head: nat, n: nat): (r: seq<nat>)
    requires head < |g|
    ensures Below(r, n) && Increasing(r)
    ensures forall x: nat :: x in r <==> x < n && IsAncestor(g, x, head) && x !in dest
  {
    if n == 0 then []
    else
      var rest := Transferred(g, dest, head, n - 1);
      if IsAncestor(g, n - 1, head) && n - 1 !in dest then rest + [n - 1] else rest
  }

  ghost function Pull(g: Graph, dest: seq<nat>, head: nat): seq<nat>
    requires head < |g|
  {
    dest + Transferred(g, dest, head, |g|)
  }

  ghost function PullAll(g: Graph, dest: seq<nat>, heads: seq<nat>): seq<nat>
    requires Below(heads, |g|)
  {
    if heads == [] then dest
    else Pull(g, PullAll(g, dest, heads[..|heads| - 1]), heads[|heads| - 1])
  }

  /** No head directly follows an unfinished run that it does not continue. */
  ghost predicate NoRunCutByHead(g: Graph, order: seq<nat>)
    requires Below(order, |g|)
  {
    forall j :: 0 < j < |order| && Children(g, order, order[j]) == {} && Children(g, order, order[j - 1]) != {}
      ==> order[j - 1] in g[order[j]]
  }

  /** Where the run that is still pending after `n` steps starts. */
  function RunStart(steps: seq<Step>, n: nat): (s: nat)
    requires n <= |steps|
    ensures s <= n && (n > 0 && !steps[n - 1].Head? ==> s < n)
  {
    if n == 0 then 0
    else if steps[n - 1].Head? then n
    else if steps[n - 1].Continue? && n > 1 && !steps[n - 2].Head? then RunStart(steps, n - 1)
    else n - 1
  }

  ghost predicate Linear(g: Graph, order: seq<nat>, s: nat, e: nat)
    requires e < |order| && Below(order, |g|)
  {
    forall k :: s <= k < e ==> order[k] in g[order[k + 1]]
  }

  lemma {:induction false} LinearAncestors(g: Graph, order: seq<nat>, s: nat, e: nat, k: nat)
    requires Below(order, |g|) && s <= k <= e < |order| && Linear(g, order, s, e)
    ensures IsAncestor(g, order[k], order[e]) && (k < e ==> order[k] < order[e])
    decreases e
  {
    if k < e {
      LinearAncestors(g, order, s, e - 1, k);
      assert order[e - 1] in g[order[e]];
    }
  }

  lemma TransferredIsRun(g: Graph, dest: seq<nat>, order: seq<nat>, s: nat, e: nat, x: nat)
    requires PushOrder(g, dest, order) && s <= e < |order|
    requires IsAncestor(g, x, order[e]) && x !in dest + order[..s]
    ensures x in order[s..e + 1]
  {
    var k := AncestorsAtOrBefore(g, dest, order, e, x);
    assert forall i :: 0 <= i < s ==> order[i] == order[..s][i];
    assert order[s..e + 1][k - s] == x;
  }

  lemma RunIsTransferred(g: Graph, dest: seq<nat>, order: seq<nat>, s: nat, e: nat, x: nat)
    requires PushOrder(g, dest, order) && s <= e < |order| && Linear(g, order, s, e) && x in order[s..e + 1]
    ensures IsAncestor(g, x, order[e]) && x !in dest + order[..s]
  {
    var k :| 0 <= k < e + 1 - s && order[s..e + 1][k] == x;
    assert order[s + k] == x;
    LinearAncestors(g, order, s, e, s + k);
  }

  lemma RunIncreases(g: Graph, order: seq<nat>, s: nat, e: nat)
    requires Below(order, |g|) && s <= e < |order| && Linear(g, order, s, e)
    ensures Increasing(order[s..e + 1])
  {
    var run := order[s..e + 1];
    forall i, j | 0 <= i < j < |run|
      ensures run[i] < run[j]
    {
      LinearAncestors(g, order, s, s + j, s + i);
    }
  }

  /** Pulling the tip of a linear run transfers that run and nothing else, in push order. */
  lemma PullRun(g: Graph, dest: seq<nat>, order: seq<nat>, s: nat, e: nat)
    requires PushOrder(g, dest, order) && s <= e < |order| && Linear(g, order, s, e)
    ensures Pull(g, dest + order[..s], order[e]) == dest + order[..e + 1]
  {
    var have, run := dest + order[..s], order[s..e + 1];
    RunIncreases(g, order, s, e);
    var got := Transferred(g, have, order[e], |g|);
    forall x: nat
      ensures x in got <==> x in run
    {
      if x in got { TransferredIsRun(g, dest, order, s, e, x); }
      if x in run { RunIsTransferred(g, dest, order, s, e, x); }
    }
    IncreasingUnique(got, run);
    assert have + run == dest + order[..e + 1];
  }

  lemma {:induction false} RunIsLinear(g: Graph, order: seq<nat>, n: nat)
    requires 0 < n <= |order| && Below(order, |g|) && !Steps(g, order)[n - 1].Head?
    ensures Linear(g, order, RunStart(Steps(g, order), n), n - 1)
    decreases n
  {
    var steps := Steps(g, order);
    if steps[n - 1].Continue? && n > 1 && !steps[n - 2].Head? {
      RunIsLinear(g, order, n - 1);
      assert order[n - 2] in g[order[n - 1]];
    }
  }

  lemma AppendHead(g: Graph, dest: seq<nat>, order: seq<nat>, ps: seq<nat>, k: nat)
    requires Below(order, |g|) && Below(ps, |order|) && k < |order|
    ensures Below(NodesAt(order, ps), |g|) && Below(NodesAt(order, ps + [k]), |g|)
    ensures PullAll(g, dest, NodesAt(order, ps + [k])) == Pull(g, PullAll(g, dest, NodesAt(order, ps)), order[k])
  {
    var heads := NodesAt(order, ps + [k]);
    assert heads[..|heads| - 1] == NodesAt(order, ps);
  }

  /** Every emitted position ends a linear run that starts where the pending run does. */
  ghost predicate EmitsLinearRuns(g: Graph, order: seq<nat>, steps: seq<Step>)
    requires |steps| == |order| && Below(order, |g|)
  {
    forall j :: 0 <= j < |steps| && EmittedAt(steps, j) != [] ==>
      EndsRun(g, order, RunStart(steps, j), EmittedAt(steps, j)[0])
  }

  ghost predicate EndsRun(g: Graph, order: seq<nat>, s: nat, e: nat)
    requires Below(order, |g|)
  {
    s <= e < |order| && Linear(g, order, s, e)
  }

  lemma LinearMore(g: Graph, order: seq<nat>, s: nat, e: nat)
    requires Below(order, |g|) && s < e < |order| && Linear(g, order, s, e - 1) && order[e - 1] in g[order[e]]
    ensures Linear(g, order, s, e)
  {
  }

  lemma LinearOne(g: Graph, order: seq<nat>, e: nat)
    requires Below(order, |g|) && e < |order|
    ensures Linear(g, order, e, e)
  {
  }

  lemma {:induction false} UncutEmission(g: Graph, order: seq<nat>, j: nat)
    requires Below(order, |g|) && NoRunCutByHead(g, order) && j < |order| && EmittedAt(Steps(g, order), j) != []
    ensures EndsRun(g, order, RunStart(Steps(g, order), j), EmittedAt(Steps(g, order), j)[0])
  {
    hide Linear;
    if j > 0 && !Steps(g, order)[j - 1].Head? {
      RunIsLinear(g, order, j);
      if Steps(g, order)[j].Head? { LinearMore(g, order, RunStart(Steps(g, order), j), j); }
    } else {
      LinearOne(g, order, j);
    }
  }

  lemma UncutRunsAreLinear(g: Graph, order: seq<nat>)
    requires Below(order, |g|) && NoRunCutByHead(g, order)
    ensures EmitsLinearRuns(g, order, Steps(g, order))
  {
    hide NoRunCutByHead, EndsRun, Children, EmittedAt, RunStart;
    var steps := Steps(g, order);
    forall j | 0 <= j < |steps| && EmittedAt(steps, j) != []
      ensures EndsRun(g, order, RunStart(steps, j), EmittedAt(steps, j)[0])
    {
      UncutEmission(g, order, j);
    }
  }

  lemma RunStartStep(steps: seq<Step>, j: nat)
    requires j < |steps|
    ensures RunStart(steps, j + 1) ==
            if EmittedAt(steps, j) == [] then RunStart(steps, j) else EmittedAt(steps, j)[0] + 1
  {
  }

  lemma ReplayRun(g: Graph, dest: seq<nat>, order: seq<nat>, before: seq<nat>, s: nat, e: nat)
    requires PushOrder(g, dest, order) && Below(before, |order|)
    requires s <= e < |order| && Linear(g, order, s, e)
    requires PullAll(g, dest, NodesAt(order, before)) == dest + order[..s]
    ensures PullAll(g, dest, NodesAt(order, before + [e])) == dest + order[..e + 1]
  {
    PullRun(g, dest, order, s, e);
    AppendHead(g, dest, order, before, e);
  }

  /** The nodes emitted by the first `n` steps have transferred everything before the pending run. */
  ghost predicate Replayed(g: Graph, dest: seq<nat>, order: seq<nat>, steps: seq<Step>, n: nat)
    requires n <= |steps| == |order| && Below(order, |g|)
  {
    var ps := Positions(steps, n);
    Below(ps, |order|) && PullAll(g, dest, NodesAt(order, ps)) == dest + order[..RunStart(steps, n)]
  }

  lemma EmitsOne(steps: seq<Step>, j: nat)
    requires j < |steps|
    ensures EmittedAt(steps, j) == [] || EmittedAt(steps, j) == [EmittedAt(steps, j)[0]]
  {
  }

  lemma BelowAppend(s: seq<nat>, x: nat, n: nat)
    requires Below(s, n) && x < n
    ensures Below(s + [x], n)
  {
  }

  lemma ReplayStep(g: Graph, dest: seq<nat>, order: seq<nat>, steps: seq<Step>, j: nat)
    requires PushOrder(g, dest, order) && j < |steps| == |order| && Replayed(g, dest, order, steps, j)
    requires EmittedAt(steps, j) != [] ==> EndsRun(g, order, RunStart(steps, j), EmittedAt(steps, j)[0])
    ensures Replayed(g, dest, order, steps, j + 1)
  {
    hide PushOrder, PullAll, NodesAt, RunStart, Linear, EmittedAt, Below;
    var before, now := Positions(steps, j), EmittedAt(steps, j);
    RunStartStep(steps, j);
    OrderBelow(g, dest, order);
    EmitsOne(steps, j);
    if now == [] {
      assert before + now == before;
    } else {
      BelowAppend(before, now[0], |order|);
      ReplayRun(g, dest, order, before, RunStart(steps, j), now[0]);
      assert Positions(steps, j + 1) == before + [now[0]];
    }
  }

  lemma {:induction false} ReplayedSoFar(g: Graph, dest: seq<nat>, order: seq<nat>, steps: seq<Step>, n: nat)
    requires PushOrder(g, dest, order) && n <= |steps| == |order| && EmitsLinearRuns(g, order, steps)
    ensures Replayed(g, dest, order, steps, n)
  {
    assert Replayed(g, dest, order, steps, 0) by { assert dest + order[..0] == dest; }
    for k := 0 to n
      invariant Replayed(g, dest, order, steps, k)
    {
      ReplayStep(g, dest, order, steps, k);
    }
  }

  lemma {:induction false} PullAllGrows(g: Graph, dest: seq<nat>, heads: seq<nat>, m: nat)
    requires m <= |heads| && Below(heads, |g|)
    ensures PullAll(g, dest, heads[..m]) <= PullAll(g, dest, heads)
    decreases |heads|
  {
    if m < |heads| {
      var front := heads[..|heads| - 1];
      assert front[..m] == heads[..m];
      PullAllGrows(g, dest, front, m);
    } else {
      assert heads[..m] == heads;
    }
  }

  /** Nothing beyond the ancestors of the pulled nodes is ever transferred. */
  lemma {:induction false} PullAllBounded(g: Graph, dest: seq<nat>, order: seq<nat>, ps: seq<nat>, bound: nat, x: nat)
    requires PushOrder(g, dest, order) && bound <= |order| && Below(ps, bound)
    requires Below(NodesAt(order, ps), |g|) && x in PullAll(g, dest, NodesAt(order, ps))
    ensures x in dest || exists k :: 0 <= k < bound && order[k] == x
    decreases |ps|
  {
    if ps != [] {
      var front, k := ps[..|ps| - 1], ps[|ps| - 1];
      assert ps == front + [k];
      AppendHead(g, dest, order, front, k);
      var have := PullAll(g, dest, NodesAt(order, front));
      if x in have {
        PullAllBounded(g, dest, order, front, bound, x);
      } else {
        var at := AncestorsAtOrBefore(g, dest, order, k, x);
      }
    }
  }

  /** The tip of a run that the next node does not continue is no ancestor of that node. */
  lemma NotAnAncestor(g: Graph, dest: seq<nat>, order: seq<nat>, j: nat)
    requires PushOrder(g, dest, order) && 0 < j < |order| && order[j - 1] !in g[order[j]]
    ensures !IsAncestor(g, order[j - 1], order[j])
  {
    var tip := order[j - 1];
    if IsAncestor(g, tip, order[j]) {
      var p: nat :| p in g[order[j]] && IsAncestor(g, tip, p);
      if p in dest {
        ClosedUnderAncestors(g, Elements(dest), tip, p);
      } else {
        var k := ParentPosition(g, dest, order, j, p);
        var at := AncestorsAtOrBefore(g, dest, order, k, tip);
      }
    }
  }

  /** A list that starts with `part`, which holds order[j] but not order[j - 1], is not `dest + order`. */
  lemma NotPushOrder(dest: seq<nat>, order: seq<nat>, part: seq<nat>, result: seq<nat>, j: nat)
    requires Distinct(order) && (forall x :: x in order ==> x !in dest)
    requires 0 < j < |order| && order[j] in part && order[j - 1] !in part && part <= result
    ensures result != dest + order
  {
    var i :| 0 <= i < |part| && part[i] == order[j];
    var all := dest + order;
    assert forall k :: 0 <= k < |dest| ==> all[k] in dest;
    assert forall k :: 0 <= k < |order| ==> all[|dest| + k] == order[k];
    if |dest| < i < |all| && result[i - 1] == all[i - 1] && result[i] == all[i] {
      assert all[i] == order[i - |dest|];
      assert result[i - 1] == part[i - 1];
    }
  }

  /** When step `j` meets a head that cuts a run short, the head is transferred and the tip of the run is not. */
  lemma CutRun(g: Graph, dest: seq<nat>, order: seq<nat>, ps: seq<nat>, j: nat) returns (part: seq<nat>)
    requires PushOrder(g, dest, order) && 0 < j < |order| && order[j - 1] !in g[order[j]] && Below(ps, j - 1)
    ensures Below(NodesAt(order, ps + [j]), |g|)
    ensures part == PullAll(g, dest, NodesAt(order, ps + [j]))
    ensures order[j] in part && order[j - 1] !in part
  {
    AppendHead(g, dest, order, ps, j);
    var have := PullAll(g, dest, NodesAt(order, ps));
    part := Pull(g, have, order[j]);
    assert IsAncestor(g, order[j], order[j]);
    NotAnAncestor(g, dest, order, j);
    if order[j - 1] in have { PullAllBounded(g, dest, order, ps, j - 1, order[j - 1]); }
  }

  lemma SchedulePrefix(g: Graph, order: seq<nat>, steps: seq<Step>, n: nat)
    requires steps == Steps(g, order) && n <= |order|
    ensures Below(Positions(steps, n), |order|) && NodesAt(order, Positions(steps, n)) <= Schedule(g, order)
  {
    PositionsIncrease(steps, n);
    PositionsIncrease(steps, |order|);
    PositionsGrow(steps, n, |order|);
  }

  lemma NodesBelow(g: Graph, order: seq<nat>)
    requires Below(order, |g|)
    ensures Below(Schedule(g, order), |g|)
  {
    PositionsIncrease(Steps(g, order), |order|);
  }

  lemma CutReplay(g: Graph, dest: seq<nat>, order: seq<nat>, ps: seq<nat>, j: nat, heads: seq<nat>)
    requires PushOrder(g, dest, order) && 0 < j < |order| && order[j - 1] !in g[order[j]] && Below(ps, j - 1)
    requires Below(heads, |g|) && NodesAt(order, ps + [j]) <= heads
    ensures PullAll(g, dest, heads) != dest + order
  {
    var part := CutRun(g, dest, order, ps, j);
    var upto := NodesAt(order, ps + [j]);
    assert heads[..|upto|] == upto;
    PullAllGrows(g, dest, heads, |upto|);
    NotPushOrder(dest, order, part, PullAll(g, dest, heads), j);
  }

  /** A head placed right after a run it does not continue is transferred before the tip of that run. */
  lemma CutRunIsReordered(g: Graph, dest: seq<nat>, order: seq<nat>, j: nat)
    requires PushOrder(g, dest, order) && 0 < j < |order| && order[j - 1] !in g[order[j]]
    requires Steps(g, order)[j].Head? && !Steps(g, order)[j - 1].Head?
    requires Below(Schedule(g, order), |g|)
    ensures PullAll(g, dest, Schedule(g, order)) != dest + order
  {
    var steps := Steps(g, order);
    PositionsIncrease(steps, j);
    SchedulePrefix(g, order, steps, j + 1);
    CutReplay(g, dest, order, Positions(steps, j), j, Schedule(g, order));
  }

  lemma UncutRunsReplay(g: Graph, dest: seq<nat>, order: seq<nat>)
    requires PushOrder(g, dest, order) && NoRunCutByHead(g, order) && Below(Schedule(g, order), |g|)
    ensures PullAll(g, dest, Schedule(g, order)) == dest + order
  {
    var steps := Steps(g, order);
    UncutRunsAreLinear(g, order);
    ReplayedSoFar(g, dest, order, steps, |order|);
    if order != [] {
      PushOrderWanted(g, dest, order);
      ClosingAssertion(g, order);
      assert steps[|order| - 1].Head?;
    }
    assert order[..|order|] == order;
  }

  lemma OrderBelow(g: Graph, dest: seq<nat>, order: seq<nat>)
    requires PushOrder(g, dest, order)
    ensures Below(order, |g|)
  {
  }

  lemma CutAt(g: Graph, order: seq<nat>) returns (j: nat)
    requires Below(order, |g|) && !NoRunCutByHead(g, order)
    ensures 0 < j < |order| && order[j - 1] !in g[order[j]]
    ensures Steps(g, order)[j].Head? && !Steps(g, order)[j - 1].Head?
  {
    j :| 0 < j < |order| && Children(g, order, order[j]) == {} && Children(g, order, order[j - 1]) != {}
         && order[j - 1] !in g[order[j]];
  }

  /**
   Replaying the schedule recreates the repository in push order exactly when no head cuts a run short:
   the scan drops the pending node when a head follows it on another branch.
   */
  lemma ReplayIsPushOrder(g: Graph, dest: seq<nat>, order: seq<nat>)
    requires PushOrder(g, dest, order)
    ensures Below(Schedule(g, order), |g|)
    ensures PullAll(g, dest, Schedule(g, order)) == dest + order <==> NoRunCutByHead(g, order)
  {
    hide NoRunCutByHead, Schedule, PullAll, Steps, Children;
    OrderBelow(g, dest, order);
    NodesBelow(g, order);
    if NoRunCutByHead(g, order) {
      UncutRunsReplay(g, dest, order);
    } else {
      var j := CutAt(g, order);
      CutRunIsReordered(g, dest, order, j);
    }
  }

  const CUT_GRAPH: Graph := [[], [0], [0], [1]]
  const CUT_ORDER: seq<nat> := [0, 1, 2, 3]

  lemma CutSteps()
    ensures PushOrder(CUT_GRAPH, [], CUT_ORDER) && Steps(CUT_GRAPH, CUT_ORDER) == [Branch, Continue, Head, Head]
  {
    var g, order := CUT_GRAPH, CUT_ORDER;
    assert order[0] in g[order[1]] && order[0] in g[order[2]] && order[1] in g[order[3]];
    assert 1 in Children(g, order, 0) && 2 in Children(g, order, 0) && 3 in Children(g, order, 1);
    assert Children(g, order, 2) == {} && Children(g, order, 3) == {};
  }

  lemma CutPositions(steps: seq<Step>)
    requires steps == [Branch, Continue, Head, Head]
    ensures Positions(steps, 4) == [2, 3]
  {
    assert Positions(steps, 1) == [];
    assert Positions(steps, 2) == [];
    assert Positions(steps, 3) == [2];
  }

  /** Node 2 is a head on another branch than the run 0, 1: the scan drops node 1, which then arrives after node 2. */
  lemma ReplayCounterexample()
    ensures PushOrder(CUT_GRAPH, [], CUT_ORDER) && Schedule(CUT_GRAPH, CUT_ORDER) == [2, 3]
    ensures PullAll(CUT_GRAPH, [], Schedule(CUT_GRAPH, CUT_ORDER)) != CUT_ORDER
  {
    CutSteps();
    CutPositions(Steps(CUT_GRAPH, CUT_ORDER));
    CutReplay(CUT_GRAPH, [], CUT_ORDER, [], 2, [2, 3]);
    assert [] + CUT_ORDER == CUT_ORDER;
  }
}
