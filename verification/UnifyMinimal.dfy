/**
 Whether the schedule of hgext/unifyrepo/__init__.py pulls as seldom as possible: statements about UnifySchedule. Only
 schedules that recreate push order are compared.
 */
module UnifyMinimal {
  import opened Prelude
  import opened Dag
  import opened UnifySchedule

  // ---------------------------------------------------------------- runs of push order

  /** Node `n` of push order does not continue the node before it. */
  predicate StartsRun(g: Graph, order: seq<nat>, n: nat)
    requires Below(order, |g|) && n < |order|
  {
    n == 0 || order[n - 1] !in g[order[n]]
  }

  /** The number of linear runs among the first `n` nodes. */
  function Runs(g: Graph, order: seq<nat>, n: nat): nat
    requires Below(order, |g|) && n <= |order|
  {
    if n == 0 then 0 else Runs(g, order, n - 1) + if StartsRun(g, order, n - 1) then 1 else 0
  }

  lemma {:induction false} RunsGrow(g: Graph, order: seq<nat>, m: nat, n: nat)
    requires Below(order, |g|) && m <= n <= |order|
    ensures Runs(g, order, m) <= Runs(g, order, n)
    decreases n
  {
    if m < n { RunsGrow(g, order, m, n - 1); }
  }

  lemma {:induction false} RunsStay(g: Graph, order: seq<nat>, m: nat, n: nat)
    requires Below(order, |g|) && m <= n <= |order| && forall k :: m <= k < n ==> !StartsRun(g, order, k)
    ensures Runs(g, order, m) == Runs(g, order, n)
    decreases n
  {
    if m < n { RunsStay(g, order, m, n - 1); }
  }

  /** What the scan has emitted and what it holds pending add up to the runs so far. */
  lemma {:induction false} EmissionsCountRuns(g: Graph, order: seq<nat>, steps: seq<Step>, n: nat)
    requires Below(order, |g|) && NoRunCutByHead(g, order) && steps == Steps(g, order) && n <= |order|
    ensures |Positions(steps, n)| + (if n > 0 && !steps[n - 1].Head? then 1 else 0) == Runs(g, order, n)
  {
    if n > 0 {
      EmissionsCountRuns(g, order, steps, n - 1);
      StepEmission(g, order, steps, n - 1);
    }
  }

  /** A step emits a node exactly when it ends a run or closes the pending one. */
  lemma StepEmission(g: Graph, order: seq<nat>, steps: seq<Step>, j: nat)
    requires Below(order, |g|) && NoRunCutByHead(g, order) && steps == Steps(g, order) && j < |order|
    ensures |EmittedAt(steps, j)| + (if steps[j].Head? then 0 else 1)
         == (if j > 0 && !steps[j - 1].Head? then 1 else 0) + if StartsRun(g, order, j) then 1 else 0
  {
    if j > 0 {
      ContinuesIff(g, order, j);
    }
  }

  lemma ContinuesIff(g: Graph, order: seq<nat>, j: nat)
    requires Below(order, |g|) && 0 < j < |order|
    ensures order[j] in Children(g, order, order[j - 1]) <==> !StartsRun(g, order, j)
  {
  }

  /** A schedule that recreates push order pulls once for each run. */
  lemma ScheduleCountsRuns(g: Graph, dest: seq<nat>, order: seq<nat>)
    requires PushOrder(g, dest, order) && NoRunCutByHead(g, order)
    ensures |Schedule(g, order)| == Runs(g, order, |order|)
  {
    hide PushOrder, NoRunCutByHead, Positions, StartsRun;
    var steps := Steps(g, order);
    OrderBelow(g, dest, order);
    PositionsIncrease(steps, |order|);
    EmissionsCountRuns(g, order, steps, |order|);
    if order != [] {
      PushOrderWanted(g, dest, order);
      ClosingAssertion(g, order);
    }
  }

  // ---------------------------------------------------------------- stretches that one pull transfers

  /** All of a stretch of push order are ancestors of its last node, by ascending revision. */
  ghost predicate Pullable(g: Graph, order: seq<nat>, s: nat, e: nat)
    requires Below(order, |g|)
  {
    && s <= e < |order| && Increasing(order[s..e + 1])
    && forall k :: s <= k <= e ==> IsAncestor(g, order[k], order[e])
  }

  lemma PullableFacts(g: Graph, order: seq<nat>, s: nat, e: nat)
    requires Below(order, |g|) && Pullable(g, order, s, e)
    ensures s <= e < |order| && order[e] < |g| && Increasing(order[s..e + 1])
  {
  }

  /** Pulling the last node of such a stretch transfers the stretch and nothing else. */
  lemma PullStretch(g: Graph, dest: seq<nat>, order: seq<nat>, s: nat, e: nat)
    requires PushOrder(g, dest, order) && Pullable(g, order, s, e)
    ensures Pull(g, dest + order[..s], order[e]) == dest + order[..e + 1]
  {
    hide IsAncestor, PushOrder, Pullable;
    OrderBelow(g, dest, order);
    PullableFacts(g, order, s, e);
    var have, stretch := dest + order[..s], order[s..e + 1];
    var got := Transferred(g, have, order[e], |g|);
    forall x: nat
      ensures x in got <==> x in stretch
    {
      if x in got { TransferredIsRun(g, dest, order, s, e, x); }
      if x in stretch { StretchIsTransferred(g, dest, order, s, e, x); }
    }
    IncreasingUnique(got, stretch);
    assert have + stretch == dest + order[..e + 1];
  }

  lemma StretchIsTransferred(g: Graph, dest: seq<nat>, order: seq<nat>, s: nat, e: nat, x: nat)
    requires PushOrder(g, dest, order) && Pullable(g, order, s, e) && x in order[s..e + 1]
    ensures x < |g| && IsAncestor(g, x, order[e]) && x !in dest + order[..s]
  {
    var k :| 0 <= k < e + 1 - s && order[s..e + 1][k] == x;
    assert order[s + k] == x;
  }

  /** The other way round: what one pull transfers in push order is such a stretch. */
  lemma TransferIsPullable(g: Graph, dest: seq<nat>, order: seq<nat>, s: nat, e: nat, h: nat)
    requires PushOrder(g, dest, order) && s <= e < |order| && h < |g|
    requires Pull(g, dest + order[..s], h) == dest + order[..e + 1]
    ensures Pullable(g, order, s, e)
  {
    hide IsAncestor, Closed;
    var have, stretch := dest + order[..s], order[s..e + 1];
    var got := Transferred(g, have, h, |g|);
    assert dest + order[..e + 1] == have + stretch;
    assert got == (have + got)[|have|..] == (have + stretch)[|have|..] == stretch;
    assert stretch[e - s] == order[e] && order[e] in got;
    HeadIsLast(g, dest, order, s, h, got);
    forall k | s <= k <= e
      ensures IsAncestor(g, order[k], order[e])
    {
      assert stretch[k - s] == order[k] && order[k] in got;
    }
  }

  lemma HeadIsLast(g: Graph, dest: seq<nat>, order: seq<nat>, s: nat, h: nat, got: seq<nat>)
    requires PushOrder(g, dest, order) && s <= |order| && h < |g|
    requires got == Transferred(g, dest + order[..s], h, |g|) && got != []
    ensures got[|got| - 1] == h
  {
    var have := dest + order[..s];
    assert got[0] in got;
    if h in have {
      HaveClosed(g, dest, order, s);
      ClosedUnderAncestors(g, Elements(have), got[0], h);
    }
    assert IsAncestor(g, h, h) && h in got;
    var last := got[|got| - 1];
    assert last in got;
    AncestorLe(g, last, h);
    var k :| 0 <= k < |got| && got[k] == h;
  }

  lemma HaveClosed(g: Graph, dest: seq<nat>, order: seq<nat>, s: nat)
    requires PushOrder(g, dest, order) && s <= |order|
    ensures Closed(g, Elements(dest + order[..s]))
  {
    var have := dest + order[..s];
    forall r, p | r in Elements(have) && r < |g| && p in g[r]
      ensures p in Elements(have)
    {
      if r in dest {
        assert p in Elements(dest);
      } else {
        var i :| 0 <= i < s && order[..s][i] == r;
        if p !in dest {
          var k := ParentPosition(g, dest, order, i, p);
          assert order[..s][k] == p;
        }
      }
    }
  }

  // ---------------------------------------------------------------- no schedule is shorter

  /** The run that starts at `b`, at a later revision than the node before it, leads to a descendant of that node. */
  ghost predicate Joins(g: Graph, order: seq<nat>, b: nat, e: nat)
    requires Below(order, |g|)
  {
    && 0 < b <= e < |order| && StartsRun(g, order, b) && Linear(g, order, b, e)
    && order[b - 1] < order[b] && IsAncestor(g, order[b - 1], order[e])
  }

  ghost predicate NoRunJoins(g: Graph, order: seq<nat>)
    requires Below(order, |g|)
  {
    forall b: nat, e: nat :: !Joins(g, order, b, e)
  }

  lemma {:induction false} LastStart(g: Graph, order: seq<nat>, lo: nat, e: nat) returns (b: nat)
    requires Below(order, |g|) && lo < |order| && lo <= e < |order| && exists k :: lo < k <= e && StartsRun(g, order, k)
    ensures lo < b <= e && StartsRun(g, order, b) && Linear(g, order, b, e)
    decreases e
  {
    if StartsRun(g, order, e) {
      b := e;
    } else {
      var k :| lo < k <= e && StartsRun(g, order, k);
      b := LastStart(g, order, lo, e - 1);
      LinearMore(g, order, b, e);
    }
  }

  lemma StretchJoins(g: Graph, order: seq<nat>, s: nat, e: nat) returns (b: nat)
    requires Below(order, |g|) && Pullable(g, order, s, e) && exists k :: s < k <= e && StartsRun(g, order, k)
    ensures Joins(g, order, b, e)
  {
    b := LastStart(g, order, s, e);
    var stretch := order[s..e + 1];
    assert stretch[b - 1 - s] == order[b - 1] && stretch[b - s] == order[b];
  }

  /** A stretch that one pull transfers is part of one run. */
  lemma StretchIsOneRun(g: Graph, order: seq<nat>, s: nat, e: nat)
    requires Below(order, |g|) && NoRunJoins(g, order) && Pullable(g, order, s, e)
    ensures Runs(g, order, e + 1) <= Runs(g, order, s) + 1
  {
    if exists k :: s < k <= e && StartsRun(g, order, k) {
      var b := StretchJoins(g, order, s, e);
    } else {
      RunsStay(g, order, s + 1, e + 1);
    }
  }

  /** Any schedule that recreates push order has pulled a beginning of it after each pull. */
  lemma PrefixPulled(g: Graph, dest: seq<nat>, order: seq<nat>, heads: seq<nat>, i: nat) returns (n: nat)
    requires Below(heads, |g|) && PullAll(g, dest, heads) == dest + order && i <= |heads|
    ensures n <= |order| && PullAll(g, dest, heads[..i]) == dest + order[..n]
  {
    PullAllGrows(g, dest, heads, i);
    PullAllKeeps(g, dest, heads[..i]);
    var part := PullAll(g, dest, heads[..i]);
    n := |part| - |dest|;
    assert part == (dest + order)[..|part|] == dest + order[..n];
  }

  lemma {:induction false} PullAllKeeps(g: Graph, dest: seq<nat>, heads: seq<nat>)
    requires Below(heads, |g|)
    ensures dest <= PullAll(g, dest, heads)
  {
    PullAllGrows(g, dest, heads, 0);
    assert heads[..0] == [];
  }

  lemma PullLast(g: Graph, dest: seq<nat>, heads: seq<nat>, i: nat)
    requires Below(heads, |g|) && i < |heads|
    ensures PullAll(g, dest, heads[..i + 1]) == Pull(g, PullAll(g, dest, heads[..i]), heads[i])
  {
    assert heads[..i + 1][..i] == heads[..i];
  }

  lemma {:induction false} PullsAtLeastRuns(g: Graph, dest: seq<nat>, order: seq<nat>, heads: seq<nat>, i: nat, n: nat)
    requires PushOrder(g, dest, order) && NoRunJoins(g, order)
    requires Below(heads, |g|) && PullAll(g, dest, heads) == dest + order && i <= |heads|
    requires n <= |order| && PullAll(g, dest, heads[..i]) == dest + order[..n]
    ensures Runs(g, order, n) <= i
    decreases i
  {
    hide PullAll, NoRunJoins, Pull;
    if i == 0 {
      NothingPulled(g, dest, heads[..0]);
      assert |dest + order[..n]| == |dest|;
    } else {
      var m := PrefixPulled(g, dest, order, heads, i - 1);
      PullsAtLeastRuns(g, dest, order, heads, i - 1, m);
      PullLast(g, dest, heads, i - 1);
      PullGrows(g, dest + order[..m], heads[i - 1]);
      assert |dest + order[..m]| <= |dest + order[..n]|;
      if m < n {
        TransferIsPullable(g, dest, order, m, n - 1, heads[i - 1]);
        StretchIsOneRun(g, order, m, n - 1);
      }
    }
  }

  lemma NothingPulled(g: Graph, dest: seq<nat>, heads: seq<nat>)
    requires heads == []
    ensures PullAll(g, dest, heads) == dest
  {
  }

  lemma PullGrows(g: Graph, have: seq<nat>, h: nat)
    requires h < |g|
    ensures |have| <= |Pull(g, have, h)|
  {
  }

  // ---------------------------------------------------------------- a shorter schedule

  /** `heads` recreates the first `n` nodes, and its last pull the stretch from `s` on. */
  ghost predicate Recreates(g: Graph, dest: seq<nat>, order: seq<nat>, heads: seq<nat>, n: nat, s: nat)
    requires Below(order, |g|)
  {
    && heads != [] && Below(heads, |g|) && 0 < n <= |order| && Pullable(g, order, s, n - 1)
    && heads[|heads| - 1] == order[n - 1]
    && PullAll(g, dest, heads[..|heads| - 1]) == dest + order[..s]
  }

  lemma RecreatesAll(g: Graph, dest: seq<nat>, order: seq<nat>, heads: seq<nat>, n: nat, s: nat)
    requires PushOrder(g, dest, order) && Recreates(g, dest, order, heads, n, s)
    ensures PullAll(g, dest, heads) == dest + order[..n]
  {
    PullStretch(g, dest, order, s, n - 1);
  }

  lemma WithHead(g: Graph, dest: seq<nat>, order: seq<nat>, front: seq<nat>, n: nat, s: nat)
    requires Below(order, |g|) && Below(front, |g|) && 0 < n <= |order| && Pullable(g, order, s, n - 1)
    requires PullAll(g, dest, front) == dest + order[..s]
    ensures Recreates(g, dest, order, front + [order[n - 1]], n, s)
  {
    var heads := front + [order[n - 1]];
    assert heads[..|heads| - 1] == front;
  }

  lemma PullableOne(g: Graph, order: seq<nat>, e: nat)
    requires Below(order, |g|) && e < |order|
    ensures Pullable(g, order, e, e)
  {
  }

  lemma PullableMore(g: Graph, order: seq<nat>, s: nat, e: nat)
    requires Below(order, |g|) && e + 1 < |order| && Pullable(g, order, s, e) && order[e] in g[order[e + 1]]
    ensures Pullable(g, order, s, e + 1)
  {
    forall k | s <= k <= e
      ensures IsAncestor(g, order[k], order[e + 1])
    {
      AncestorTrans(g, order[k], order[e], order[e + 1]) by { assert IsAncestor(g, order[e], order[e]); }
    }
    Ascends(g, order, s, e, e + 1);
  }

  /** A stretch followed by a later revision ascends. */
  lemma Ascends(g: Graph, order: seq<nat>, s: nat, m: nat, e: nat)
    requires s <= m < e < |order| && Increasing(order[s..m + 1]) && Increasing(order[m + 1..e + 1])
    requires order[m] < order[m + 1]
    ensures Increasing(order[s..e + 1])
  {
    var left, right, all := order[s..m + 1], order[m + 1..e + 1], order[s..e + 1];
    assert all == left + right;
    assert left[m - s] == order[m] && right[0] == order[m + 1];
    forall i, j | 0 <= i < j < |all|
      ensures all[i] < all[j]
    {
      if i <= m - s < j {
        assert left[i] <= left[m - s] && right[0] <= right[j - |left|];
      }
    }
  }

  lemma FrontBelow(g: Graph, heads: seq<nat>)
    requires heads != [] && Below(heads, |g|)
    ensures Below(heads[..|heads| - 1], |g|)
  {
  }

  /** One more node: a run goes on in the last pull, a new run takes one more pull. */
  lemma OneMore(g: Graph, dest: seq<nat>, order: seq<nat>, heads: seq<nat>, n: nat, s: nat)
    returns (more: seq<nat>, s': nat)
    requires PushOrder(g, dest, order) && Recreates(g, dest, order, heads, n, s) && n < |order|
    ensures Recreates(g, dest, order, more, n + 1, s')
    ensures |more| - |heads| == Runs(g, order, n + 1) - Runs(g, order, n)
  {
    hide PushOrder, PullAll, Pullable, Below, Increasing;
    OrderBelow(g, dest, order);
    if StartsRun(g, order, n) {
      RecreatesAll(g, dest, order, heads, n, s);
      PullableOne(g, order, n);
      WithHead(g, dest, order, heads, n + 1, n);
      more, s' := heads + [order[n]], n;
    } else {
      PullableMore(g, order, s, n - 1);
      FrontBelow(g, heads);
      WithHead(g, dest, order, heads[..|heads| - 1], n + 1, s);
      more, s' := heads[..|heads| - 1] + [order[n]], s;
    }
  }

  lemma {:induction false} MoreTo(g: Graph, dest: seq<nat>, order: seq<nat>, heads: seq<nat>, n: nat, s: nat, m: nat)
    returns (more: seq<nat>, s': nat)
    requires PushOrder(g, dest, order) && Recreates(g, dest, order, heads, n, s) && n <= m <= |order|
    ensures Recreates(g, dest, order, more, m, s')
    ensures |more| - |heads| == Runs(g, order, m) - Runs(g, order, n)
    decreases m - n
  {
    hide Recreates, Runs;
    if n == m {
      more, s' := heads, s;
    } else {
      var one, t := OneMore(g, dest, order, heads, n, s);
      more, s' := MoreTo(g, dest, order, one, n + 1, t, m);
    }
  }

  lemma FirstPull(g: Graph, dest: seq<nat>, order: seq<nat>)
    requires PushOrder(g, dest, order) && order != []
    ensures Recreates(g, dest, order, [order[0]], 1, 0) && Runs(g, order, 1) == 1
  {
    PullableOne(g, order, 0);
    assert dest + order[..0] == dest;
    WithHead(g, dest, order, [], 1, 0);
    assert [] + [order[0]] == [order[0]];
    assert Runs(g, order, 0) == 0;
  }

  /** A run that joins the one before it is transferred together with it. */
  lemma JoinedStretch(g: Graph, order: seq<nat>, s: nat, b: nat, e: nat)
    requires Below(order, |g|) && Joins(g, order, b, e) && Pullable(g, order, s, b - 1)
    ensures Pullable(g, order, s, e)
  {
    hide IsAncestor;
    forall k | s <= k <= e
      ensures IsAncestor(g, order[k], order[e])
    {
      if k < b {
        AncestorTrans(g, order[k], order[b - 1], order[e]);
      } else {
        LinearAncestors(g, order, b, e, k);
      }
    }
    RunIncreases(g, order, b, e);
    Ascends(g, order, s, b - 1, e);
  }

  /** So one pull less is enough. */
  lemma ShorterSchedule(g: Graph, dest: seq<nat>, order: seq<nat>, b: nat, e: nat) returns (heads: seq<nat>)
    requires PushOrder(g, dest, order) && Joins(g, order, b, e)
    ensures Below(heads, |g|) && PullAll(g, dest, heads) == dest + order && |heads| < Runs(g, order, |order|)
  {
    hide PullAll, Pullable, PushOrder;
    OrderBelow(g, dest, order);
    FirstPull(g, dest, order);
    var before, s := MoreTo(g, dest, order, [order[0]], 1, 0, b);
    var front := before[..|before| - 1];
    JoinedStretch(g, order, s, b, e);
    WithHead(g, dest, order, front, e + 1, s);
    var joined := front + [order[e]];
    RunsGrow(g, order, b + 1, e + 1);
    var t;
    heads, t := MoreTo(g, dest, order, joined, e + 1, s, |order|);
    RecreatesAll(g, dest, order, heads, |order|, t);
    assert order[..|order|] == order;
  }

  // ---------------------------------------------------------------- when the schedule is minimal

  ghost predicate Minimal(g: Graph, dest: seq<nat>, order: seq<nat>, n: nat) {
    forall heads :: Below(heads, |g|) && PullAll(g, dest, heads) == dest + order ==> n <= |heads|
  }

  /**
   A schedule that recreates push order takes the fewest pulls of all that do exactly if no run of push order leads to a
   descendant of the node before it.
   */
  lemma ScheduleIsMinimalIff(g: Graph, dest: seq<nat>, order: seq<nat>)
    requires PushOrder(g, dest, order) && NoRunCutByHead(g, order)
    ensures Minimal(g, dest, order, |Schedule(g, order)|) <==> NoRunJoins(g, order)
  {
    hide PullAll, Schedule, PushOrder, NoRunCutByHead, Joins;
    OrderBelow(g, dest, order);
    ScheduleCountsRuns(g, dest, order);
    if NoRunJoins(g, order) {
      forall heads | Below(heads, |g|) && PullAll(g, dest, heads) == dest + order
        ensures Runs(g, order, |order|) <= |heads|
      {
        assert heads[..|heads|] == heads && order[..|order|] == order;
        PullsAtLeastRuns(g, dest, order, heads, |heads|, |order|);
      }
    } else {
      var b: nat, e: nat :| Joins(g, order, b, e);
      var heads := ShorterSchedule(g, dest, order, b, e);
    }
  }

  /** No wanted node has two wanted parents. */
  ghost predicate NoWantedMerge(g: Graph, order: seq<nat>)
    requires Below(order, |g|)
  {
    forall i, p, q :: 0 <= i < |order| && p in g[order[i]] && q in g[order[i]] && p in order && q in order ==> p == q
  }

  lemma {:induction false} OnlyMergesJoin(g: Graph, dest: seq<nat>, order: seq<nat>, b: nat, e: nat)
    requires PushOrder(g, dest, order) && NoWantedMerge(g, order)
    requires 0 < b <= e < |order| && StartsRun(g, order, b) && Linear(g, order, b, e)
    ensures !IsAncestor(g, order[b - 1], order[e])
    decreases e
  {
    if e == b {
      NotAnAncestor(g, dest, order, b);
    } else if IsAncestor(g, order[b - 1], order[e]) {
      var p: nat :| p in g[order[e]] && IsAncestor(g, order[b - 1], p);
      OnlyMergesJoin(g, dest, order, b, e - 1);
      assert order[e - 1] in g[order[e]] && order[b - 1] in order;
      if p in dest {
        ClosedUnderAncestors(g, Elements(dest), order[b - 1], p);
      } else {
        WantedParent(g, dest, order, e, p);
      }
    }
  }

  lemma WantedParent(g: Graph, dest: seq<nat>, order: seq<nat>, e: nat, p: nat)
    requires PushOrder(g, dest, order) && NoWantedMerge(g, order) && 0 < e < |order|
    requires order[e - 1] in g[order[e]] && p in g[order[e]] && p !in dest
    ensures p == order[e - 1]
  {
    var k := ParentPosition(g, dest, order, e, p);
    assert order[k] in order && order[e - 1] in order;
  }

  /** Without wanted merges the schedule is minimal whenever it recreates push order. */
  lemma MinimalWithoutMerges(g: Graph, dest: seq<nat>, order: seq<nat>)
    requires PushOrder(g, dest, order) && NoRunCutByHead(g, order) && NoWantedMerge(g, order)
    ensures Minimal(g, dest, order, |Schedule(g, order)|)
  {
    hide Minimal, PushOrder, NoRunCutByHead, NoWantedMerge;
    OrderBelow(g, dest, order);
    ScheduleIsMinimalIff(g, dest, order);
    forall b: nat, e: nat
      ensures !Joins(g, order, b, e)
    {
      if Joins(g, order, b, e) { OnlyMergesJoin(g, dest, order, b, e); }
    }
  }

  const MERGE_GRAPH: Graph := [[], [], [0, 1]]
  const MERGE_ORDER: seq<nat> := [0, 1, 2]

  lemma MergeSteps()
    ensures PushOrder(MERGE_GRAPH, [], MERGE_ORDER) && NoRunCutByHead(MERGE_GRAPH, MERGE_ORDER)
    ensures Steps(MERGE_GRAPH, MERGE_ORDER) == [Branch, Branch, Head]
  {
    var g, order := MERGE_GRAPH, MERGE_ORDER;
    assert order[0] == 0 && order[1] == 1 && order[2] == 2;
    assert order[0] in g[order[2]] && order[1] in g[order[2]] && order[0] !in g[order[1]];
    assert 2 in Children(g, order, 0) && 2 in Children(g, order, 1) && Children(g, order, 2) == {};
  }

  lemma MergePositions(steps: seq<Step>)
    requires steps == [Branch, Branch, Head]
    ensures Positions(steps, 3) == [0, 2]
  {
    assert Positions(steps, 1) == [];
    assert Positions(steps, 2) == [0];
  }

  lemma MergeStretch()
    ensures Pullable(MERGE_GRAPH, MERGE_ORDER, 0, 2)
  {
    var g, order := MERGE_GRAPH, MERGE_ORDER;
    assert order[0..3] == order && g[2] == [0, 1];
    assert 0 in g[2] && 1 in g[2];
    assert IsAncestor(g, 0, 0) && IsAncestor(g, 1, 1) && IsAncestor(g, 2, 2);
  }

  /** Two roots and their merge: the schedule pulls twice, while one pull of the merge recreates push order. */
  lemma MergePulledTwice()
    ensures PushOrder(MERGE_GRAPH, [], MERGE_ORDER) && NoRunCutByHead(MERGE_GRAPH, MERGE_ORDER)
    ensures Schedule(MERGE_GRAPH, MERGE_ORDER) == [0, 2]
    ensures PullAll(MERGE_GRAPH, [], [2]) == MERGE_ORDER
  {
    hide PushOrder, NoRunCutByHead, Pullable, Steps, Positions, Pull;
    var g, order := MERGE_GRAPH, MERGE_ORDER;
    MergeSteps();
    MergePositions(Steps(g, order));
    MergeStretch();
    PullStretch(g, [], order, 0, 2);
    assert [] + order[..0] == [] && [] + order[..3] == order;
    assert [2][..0] == [];
  }
}
