/**
 The path graphs of the McCabe checker (pylib/mccabe/mccabe.py): a visitor that grows a graph behind a moving tail,
 and what the resulting numbers of edges and nodes say about the code.
 */
module PathGraphs {
  import opened Prelude

  /** The syntax tree as the visitor tells its nodes apart; `Other` is every class without a visit method. */
  datatype Ast =
    | Simple(line: nat)
    | Other(children: Body)
    | FunctionDef(name: string, line: nat, body: Body)
    | ClassDef(name: string, body: Body)
    | Loop(line: nat, body: Body)
    | If(line: nat, body: Body, orelse: Body)
    | TryExcept(line: nat, body: Body, handlers: Handlers)
    | With(line: nat, body: Body)

  datatype Body = End | Then(head: Ast, rest: Body)

  datatype Handlers = NoMore | Handler(body: Body, rest: Handlers)

  // ---------------------------------------------------------------- decisions, read off the syntax

  function Decisions(a: Ast): nat {
    match a
    case Simple(_) => 0
    case Other(children) => BodyDecisions(children)
    case FunctionDef(_, _, body) => 1 + BodyDecisions(body)
    case ClassDef(_, body) => BodyDecisions(body)
    case Loop(_, body) => 1 + BodyDecisions(body)
    case If(_, body, orelse) => 1 + BodyDecisions(body) + BodyDecisions(orelse)
    case TryExcept(_, body, handlers) => BodyDecisions(body) + HandlerDecisions(handlers)
    case With(_, body) => BodyDecisions(body)
  }

  function BodyDecisions(b: Body): nat {
    match b
    case End => 0
    case Then(a, rest) => Decisions(a) + BodyDecisions(rest)
  }

  function HandlerDecisions(h: Handlers): nat {
    match h
    case NoMore => 0
    case Handler(body, rest) => 1 + BodyDecisions(body) + HandlerDecisions(rest)
  }

  // ---------------------------------------------------------------- a graph and its tail

  /** The adjacency lists of a graph: only nodes with an outgoing edge have one. */
  type Nodes = map<nat, seq<nat>>

  /** Nodes are numbered as they are created; `next` is the number of the next one. */
  datatype Path = Path(nodes: Nodes, next: nat, tail: nat)

  function Edges(nodes: Nodes, n: nat): seq<nat> {
    if n in nodes then nodes[n] else []
  }

  function Connect(nodes: Nodes, n1: nat, n2: nat): Nodes {
    nodes[n1 := Edges(nodes, n1) + [n2]]
  }

  function ConnectAll(nodes: Nodes, ends: seq<nat>, n2: nat): Nodes
    decreases |ends|
  {
    if ends == [] then nodes else ConnectAll(Connect(nodes, ends[0], n2), ends[1..], n2)
  }

  function Append(p: Path): Path {
    Path(Connect(p.nodes, p.tail, p.next), p.next + 1, p.next)
  }

  /** A new bottom node under all the loose ends. */
  function Join(p: Path, ends: seq<nat>): Path {
    Path(ConnectAll(p.nodes, ends, p.next), p.next + 1, p.next)
  }

  /** What visiting a node does to the graph under construction. */
  function Walk(a: Ast, p: Path): Path
    decreases a
  {
    match a
    case Simple(_) => Append(p)
    case Other(children) => WalkAll(children, p)
    case FunctionDef(_, _, body) => WalkBlock(body, p)
    case ClassDef(_, body) => WalkAll(body, p)
    case Loop(_, body) => WalkBlock(body, p)
    case If(_, body, orelse) =>
      if orelse.End? then WalkBlock(body, p)
      else
        var b := WalkAll(body, Append(p));
        var e := WalkAll(orelse, b.(tail := p.next));
        Join(e, [b.tail, e.tail])
    case TryExcept(_, body, handlers) =>
      var b := WalkAll(body, Append(p));
      var (h, ends) := WalkHandlers(handlers, b, p.next, [b.tail]);
      Join(h, ends)
    case With(_, body) => WalkAll(body, Append(p))
  }

  /** A block that may be skipped: the bottom node hangs under its end and under its entry. */
  function WalkBlock(body: Body, p: Path): Path
    decreases body, 1
  {
    var b := WalkAll(body, Append(p));
    Join(b, [b.tail, p.next])
  }

  function WalkAll(b: Body, p: Path): Path
    decreases b, 0
  {
    match b
    case End => p
    case Then(a, rest) => WalkAll(rest, Walk(a, p))
  }

  function WalkHandlers(h: Handlers, p: Path, entry: nat, ends: seq<nat>): (Path, seq<nat>)
    decreases h
  {
    match h
    case NoMore => (p, ends)
    case Handler(body, rest) =>
      var b := WalkAll(body, p.(tail := entry));
      WalkHandlers(rest, b, entry, ends + [b.tail])
  }

  // ---------------------------------------------------------------- one exit, edges downwards

  /** Every edge leads to a node created later. */
  ghost predicate Downwards(p: Path) {
    && p.tail < p.next
    && forall n :: n in p.nodes ==> n < p.next && p.nodes[n] != [] && forall m :: m in p.nodes[n] ==> n < m < p.next
  }

  /** From `p` to `q`: only the tail and the new nodes got edges, and of these only the new tail has none going out. */
  ghost predicate Grown(p: Path, q: Path) {
    && p.next <= q.next && Downwards(q)
    && (forall n: nat :: n < p.next && n != p.tail ==>
         (n in p.nodes <==> n in q.nodes) && Edges(p.nodes, n) == Edges(q.nodes, n))
    && (forall n: nat :: p.next <= n < q.next && n != q.tail ==> n in q.nodes)
    && (q == p || (p.next <= q.tail && q.tail !in q.nodes && p.tail in q.nodes))
  }

  lemma AppendGrows(p: Path)
    requires Downwards(p)
    ensures Grown(p, Append(p)) && Append(p).tail == p.next
  {
  }

  lemma GrownTrans(p: Path, q: Path, r: Path)
    requires Grown(p, q) && Grown(q, r)
    ensures Grown(p, r)
  {
  }

  lemma {:induction false} ConnectAllEdges(nodes: Nodes, ends: seq<nat>, bottom: nat)
    ensures var all := ConnectAll(nodes, ends, bottom);
            && (forall n :: n in all <==> n in nodes || n in ends)
            && (forall n :: n !in ends ==> Edges(all, n) == Edges(nodes, n))
            && (forall n, m :: n in all && m in all[n] ==> m in Edges(nodes, n) || m == bottom)
            && (forall n, m :: m in Edges(nodes, n) ==> m in Edges(all, n))
            && (forall n :: n in ends ==> bottom in Edges(all, n))
    decreases |ends|
  {
    if ends != [] {
      assert bottom in Edges(Connect(nodes, ends[0], bottom), ends[0]);
      ConnectAllEdges(Connect(nodes, ends[0], bottom), ends[1..], bottom);
      assert forall n :: n in ends <==> n == ends[0] || n in ends[1..];
    }
  }

  /** Branches from a block entered at node `p.next` lie open at `ends`. */
  ghost predicate Pending(p: Path, b: Path, ends: seq<nat>) {
    && p.tail < p.next < b.next && Downwards(b) && p.tail in b.nodes
    && (forall n: nat :: n < p.next && n != p.tail ==>
         (n in p.nodes <==> n in b.nodes) && Edges(p.nodes, n) == Edges(b.nodes, n))
    && (forall n: nat :: p.next <= n < b.next ==> n in b.nodes || n in ends)
    && (forall n :: n in ends ==> p.next <= n < b.next)
  }

  lemma FirstBranch(p: Path, b: Path)
    requires Downwards(p) && Grown(Append(p), b)
    ensures Pending(p, b, [b.tail])
  {
  }

  lemma AnotherBranch(p: Path, b: Path, ends: seq<nat>, c: Path)
    requires Pending(p, b, ends) && Grown(b.(tail := p.next), c)
    ensures Pending(p, c, ends + [c.tail])
  {
    assert forall n :: n in ends + [c.tail] <==> n in ends || n == c.tail;
  }

  lemma GrownRefl(p: Path)
    requires Downwards(p)
    ensures Grown(p, p)
  {
  }

  lemma JoinDownwards(p: Path, b: Path, ends: seq<nat>)
    requires Pending(p, b, ends)
    ensures Downwards(Join(b, ends))
  {
    hide ConnectAll;
    var q := Join(b, ends);
    ConnectAllEdges(b.nodes, ends, b.next);
    forall n | n in q.nodes
      ensures n < q.next && q.nodes[n] != [] && forall m :: m in q.nodes[n] ==> n < m < q.next
    {
      assert n !in ends ==> Edges(q.nodes, n) == Edges(b.nodes, n);
      assert n in ends ==> b.next in Edges(q.nodes, n);
      assert n < b.next;
    }
  }

  lemma JoinGrows(p: Path, b: Path, ends: seq<nat>)
    requires Pending(p, b, ends)
    ensures Grown(p, Join(b, ends))
  {
    hide ConnectAll, Downwards;
    JoinDownwards(p, b, ends);
    ConnectAllEdges(b.nodes, ends, b.next);
    assert b.next !in ends;
    NothingNew(b, b.next);
  }

  lemma NothingNew(b: Path, n: nat)
    requires Downwards(b) && b.next <= n
    ensures n !in b.nodes
  {
  }

  // ---------------------------------------------------------------- counting edges

  function SumEdges(nodes: Nodes, n: nat): nat {
    if n == 0 then 0 else SumEdges(nodes, n - 1) + |Edges(nodes, n - 1)|
  }

  lemma {:induction false} SumSame(a: Nodes, b: Nodes, n: nat)
    requires forall i: nat :: i < n ==> Edges(a, i) == Edges(b, i)
    ensures SumEdges(a, n) == SumEdges(b, n)
  {
    if n > 0 { SumSame(a, b, n - 1); }
  }

  lemma {:induction false} SumReplaced(nodes: Nodes, k: nat, v: seq<nat>, n: nat)
    requires k < n
    ensures SumEdges(nodes[k := v], n) == SumEdges(nodes, n) - |Edges(nodes, k)| + |v|
  {
    if k == n - 1 {
      SumSame(nodes, nodes[k := v], n - 1);
    } else {
      SumReplaced(nodes, k, v, n - 1);
    }
  }

  lemma {:induction false} SumConnectAll(nodes: Nodes, ends: seq<nat>, bottom: nat, n: nat)
    requires forall e :: e in ends ==> e < n
    ensures SumEdges(ConnectAll(nodes, ends, bottom), n) == SumEdges(nodes, n) + |ends|
    decreases |ends|
  {
    hide SumEdges;
    if ends != [] {
      assert ends[0] in ends && forall e :: e in ends[1..] ==> e in ends;
      SumReplaced(nodes, ends[0], Edges(nodes, ends[0]) + [bottom], n);
      SumConnectAll(Connect(nodes, ends[0], bottom), ends[1..], bottom, n);
    }
  }

  /** Edges against nodes: a new node under `k` old ones adds `k - 1`. */
  function Weight(p: Path): int {
    SumEdges(p.nodes, p.next) - p.next
  }

  lemma AppendWeight(p: Path)
    requires Downwards(p)
    ensures Weight(Append(p)) == Weight(p)
  {
    SumReplaced(p.nodes, p.tail, Edges(p.nodes, p.tail) + [p.next], p.next);
  }

  lemma JoinWeight(p: Path, ends: seq<nat>)
    requires Downwards(p) && forall e :: e in ends ==> e < p.next
    ensures Weight(Join(p, ends)) == Weight(p) + |ends| - 1
  {
    hide ConnectAll;
    SumConnectAll(p.nodes, ends, p.next, p.next);
    ConnectAllEdges(p.nodes, ends, p.next);
  }

  // ---------------------------------------------------------------- a visit grows by its decisions

  ghost predicate Visited(p: Path, q: Path, decisions: nat) {
    Grown(p, q) && Weight(q) == Weight(p) + decisions
  }

  lemma VisitedTrans(p: Path, q: Path, r: Path, m: nat, n: nat)
    requires Visited(p, q, m) && Visited(q, r, n)
    ensures Visited(p, r, m + n)
  {
    hide Weight, Grown;
    GrownTrans(p, q, r);
  }

  lemma Appended(p: Path)
    requires Downwards(p)
    ensures Visited(p, Append(p), 0) && Downwards(Append(p)) && Append(p).tail == p.next
  {
    hide Weight;
    AppendGrows(p);
    AppendWeight(p);
  }

  lemma Joined(p: Path, b: Path, ends: seq<nat>, decisions: nat)
    requires Pending(p, b, ends) && |ends| > 0 && Weight(b) == Weight(p) + decisions
    ensures Visited(p, Join(b, ends), decisions + |ends| - 1)
  {
    hide Weight, Grown;
    JoinGrows(p, b, ends);
    JoinWeight(b, ends);
  }

  lemma {:induction false} WalkVisits(a: Ast, p: Path)
    requires Downwards(p)
    ensures Visited(p, Walk(a, p), Decisions(a))
    decreases a
  {
    hide Append, Join, Grown, Downwards, Weight;
    Appended(p);
    match a
    case Simple(_) =>
    case Other(children) => WalkAllVisits(children, p);
    case FunctionDef(_, _, body) => WalkBlockVisits(body, p);
    case ClassDef(_, body) => WalkAllVisits(body, p);
    case Loop(_, body) => WalkBlockVisits(body, p);
    case If(_, body, orelse) =>
      if orelse.End? {
        WalkBlockVisits(body, p);
      } else {
        WalkAllVisits(body, Append(p));
        WalkIfVisits(orelse, p, WalkAll(body, Append(p)), BodyDecisions(body));
      }
    case TryExcept(_, body, handlers) =>
      WalkAllVisits(body, Append(p));
      var b := WalkAll(body, Append(p));
      FirstBranch(p, b);
      WalkHandlersVisits(handlers, p, b, [b.tail], BodyDecisions(body));
    case With(_, body) =>
      WalkAllVisits(body, Append(p));
      VisitedTrans(p, Append(p), WalkAll(body, Append(p)), 0, BodyDecisions(body));
  }

  lemma {:induction false} WalkAllVisits(b: Body, p: Path)
    requires Downwards(p)
    ensures Visited(p, WalkAll(b, p), BodyDecisions(b))
    decreases b, 0
  {
    hide Append, Join, Grown, Downwards, Weight;
    match b
    case End => GrownRefl(p);
    case Then(a, rest) =>
      WalkVisits(a, p);
      VisitedDownwards(p, Walk(a, p), Decisions(a));
      WalkAllVisits(rest, Walk(a, p));
      VisitedTrans(p, Walk(a, p), WalkAll(rest, Walk(a, p)), Decisions(a), BodyDecisions(rest));
  }

  lemma VisitedDownwards(p: Path, q: Path, decisions: nat)
    requires Visited(p, q, decisions)
    ensures Downwards(q) && p.next <= q.next
  {
  }

  lemma BranchDownwards(p: Path, b: Path, ends: seq<nat>)
    requires Pending(p, b, ends)
    ensures Downwards(b.(tail := p.next)) && Weight(b.(tail := p.next)) == Weight(b)
  {
  }

  lemma {:induction false} WalkBlockVisits(body: Body, p: Path)
    requires Downwards(p)
    ensures Visited(p, WalkBlock(body, p), 1 + BodyDecisions(body))
    decreases body, 1
  {
    hide Append, Join, Grown, Downwards, Weight, Pending;
    Appended(p);
    WalkAllVisits(body, Append(p));
    var b := WalkAll(body, Append(p));
    FirstBranch(p, b);
    BranchDownwards(p, b, [b.tail]);
    GrownRefl(b.(tail := p.next));
    AnotherBranch(p, b, [b.tail], b.(tail := p.next));
    PendingTail(p, b, [b.tail] + [p.next]);
    Joined(p, b, [b.tail] + [p.next], BodyDecisions(body));
    assert [b.tail] + [p.next] == [b.tail, p.next];
  }

  /** Where the tail stands does not matter to the open branches. */
  lemma PendingTail(p: Path, b: Path, ends: seq<nat>)
    requires Pending(p, b.(tail := p.next), ends) && Downwards(b)
    ensures Pending(p, b, ends)
  {
  }

  lemma {:induction false} WalkIfVisits(orelse: Body, p: Path, b: Path, decisions: nat)
    requires Downwards(p) && Visited(Append(p), b, decisions)
    ensures var e := WalkAll(orelse, b.(tail := p.next));
            Visited(p, Join(e, [b.tail, e.tail]), 1 + decisions + BodyDecisions(orelse))
    decreases orelse, 1
  {
    hide Append, Join, Grown, Downwards, Weight, Pending;
    Appended(p);
    FirstBranch(p, b);
    BranchDownwards(p, b, [b.tail]);
    WalkAllVisits(orelse, b.(tail := p.next));
    var e := WalkAll(orelse, b.(tail := p.next));
    AnotherBranch(p, b, [b.tail], e);
    assert [b.tail] + [e.tail] == [b.tail, e.tail];
    Joined(p, e, [b.tail, e.tail], decisions + BodyDecisions(orelse));
  }

  lemma {:induction false} WalkHandlersVisits(h: Handlers, p: Path, b: Path, ends: seq<nat>, decisions: nat)
    requires Pending(p, b, ends) && |ends| > 0 && Weight(b) == Weight(p) + decisions
    ensures var (e, all) := WalkHandlers(h, b, p.next, ends);
            Visited(p, Join(e, all), decisions + |ends| - 1 + HandlerDecisions(h))
    decreases h
  {
    hide Append, Join, Grown, Downwards, Weight, Pending;
    match h
    case NoMore => Joined(p, b, ends, decisions);
    case Handler(body, rest) =>
      BranchDownwards(p, b, ends);
      WalkAllVisits(body, b.(tail := p.next));
      var c := WalkAll(body, b.(tail := p.next));
      AnotherBranch(p, b, ends, c);
      WalkHandlersVisits(rest, p, c, ends + [c.tail], decisions + BodyDecisions(body));
  }

  // ---------------------------------------------------------------- complexity

  /** The sum of the lengths of all adjacency lists. */
  ghost function TotalEdges(nodes: Nodes): nat
    decreases |nodes|
  {
    if nodes == map[] then 0
    else
      var k :| k in nodes;
      |nodes[k]| + TotalEdges(nodes - {k})
  }

  ghost predicate KeysBelow(nodes: Nodes, n: nat) {
    forall k :: k in nodes ==> k < n
  }

  lemma {:induction false} SumRemoved(nodes: Nodes, k: nat, n: nat)
    requires k in nodes && k < n
    ensures SumEdges(nodes, n) == |nodes[k]| + SumEdges(nodes - {k}, n)
  {
    if k == n - 1 {
      SumSame(nodes, nodes - {k}, n - 1);
    } else {
      SumRemoved(nodes, k, n - 1);
    }
  }

  lemma {:induction false} SumEmpty(n: nat)
    ensures SumEdges(map[], n) == 0
  {
    if n > 0 { SumEmpty(n - 1); }
  }

  lemma {:induction false} TotalIsSum(nodes: Nodes, n: nat)
    requires KeysBelow(nodes, n)
    ensures TotalEdges(nodes) == SumEdges(nodes, n)
    decreases |nodes|
  {
    hide SumEdges;
    if nodes == map[] {
      SumEmpty(n);
    } else {
      var k :| k in nodes && TotalEdges(nodes) == |nodes[k]| + TotalEdges(nodes - {k});
      SumRemoved(nodes, k, n);
      TotalIsSum(nodes - {k}, n);
    }
  }

  lemma {:induction false} BoundKeys(nodes: Nodes) returns (n: nat)
    ensures KeysBelow(nodes, n)
    decreases |nodes|
  {
    if nodes == map[] {
      n := 0;
    } else {
      var k :| k in nodes;
      n := BoundKeys(nodes - {k});
      assert forall j :: j in nodes && j != k ==> j in nodes - {k};
      n := if n <= k then k + 1 else n;
    }
  }

  /** The total does not depend on the order the lists are visited in. */
  lemma TotalPick(nodes: Nodes, k: nat)
    requires k in nodes
    ensures TotalEdges(nodes) == |nodes[k]| + TotalEdges(nodes - {k})
  {
    hide SumEdges, TotalEdges;
    var n := BoundKeys(nodes);
    TotalIsSum(nodes, n);
    TotalIsSum(nodes - {k}, n);
    SumRemoved(nodes, k, n);
  }

  ghost function Complexity(nodes: Nodes): int {
    TotalEdges(nodes) - |nodes| + 2
  }

  function Start(first: nat): Path {
    Path(map[], first + 1, first)
  }

  function Range(lo: nat, hi: nat): (s: set<nat>)
    requires lo <= hi
    ensures |s| == hi - lo && forall n: nat :: n in s <==> lo <= n < hi
    decreases hi - lo
  {
    if lo == hi then {} else Range(lo, hi - 1) + {hi - 1}
  }

  /** The nodes of a finished graph with an outgoing edge are all of them but the tail. */
  lemma FinishedKeys(first: nat, q: Path)
    requires Grown(Start(first), q)
    ensures |q.nodes| == q.next - first - 1
  {
    var all := Range(first, q.next);
    forall n: nat
      ensures n in q.nodes <==> n in all && n != q.tail
    {
      if n < first { assert n !in Start(first).nodes; }
    }
    assert q.nodes.Keys == all - {q.tail};
    assert q.tail in all;
  }

  /** The checker's number for a finished graph is the number of decisions of the body it was made from, plus two. */
  lemma ComplexityIsDecisions(body: Body, first: nat)
    ensures Complexity(WalkAll(body, Start(first)).nodes) == BodyDecisions(body) + 2
  {
    hide WalkAll, Grown, SumEdges, TotalEdges;
    var p, q := Start(first), WalkAll(body, Start(first));
    StartDownwards(first);
    WalkAllVisits(body, p);
    FinishedKeys(first, q);
    SumEmpty(p.next);
    VisitedDownwards(p, q, BodyDecisions(body));
    TotalIsSum(q.nodes, q.next);
  }

  lemma StartDownwards(first: nat)
    ensures Downwards(Start(first))
  {
  }

  /** The bodies of the examples. */
  function Just(a: Ast): Body {
    Then(a, End)
  }

  const STATEMENT := Just(Simple(0))

  lemma WalkJust(a: Ast, p: Path)
    ensures WalkAll(Just(a), p) == Walk(a, p) && WalkAll(STATEMENT, p) == Append(p)
  {
    assert WalkAll(End, Walk(a, p)) == Walk(a, p);
    assert WalkAll(End, Walk(Simple(0), p)) == Walk(Simple(0), p);
  }

  lemma JoinTwo(p: Path, m: nat, n: nat)
    ensures Join(p, [m, n]) == Path(Connect(Connect(p.nodes, m, p.next), n, p.next), p.next + 1, p.next)
  {
    assert [m, n][1..] == [n] && [n][1..] == [];
    assert ConnectAll(p.nodes, [m, n], p.next) == ConnectAll(Connect(p.nodes, m, p.next), [n], p.next);
  }

  /** The function, the statement at node 1 and a first branch with one simple statement. */
  lemma BranchBegun(p: Path)
    requires p == Append(Start(0))
    ensures p == Path(map[0 := [1]], 2, 1) && WalkAll(STATEMENT, p) == Path(map[0 := [1], 1 := [2]], 3, 2)
  {
    WalkJust(Simple(0), p);
    assert [] + [1] == [1] && [] + [2] == [2];
  }

  lemma SkippedBlock()
    ensures WalkBlock(STATEMENT, Start(0)) == Path(map[0 := [1], 1 := [2, 3], 2 := [3]], 4, 3)
  {
    var b := WalkAll(STATEMENT, Append(Start(0)));
    BranchBegun(Append(Start(0)));
    JoinTwo(b, 2, 1);
    assert [] + [3] == [3] && [2] + [3] == [2, 3];
    assert Connect(Connect(b.nodes, 2, 3), 1, 3) == map[0 := [1], 1 := [2, 3], 2 := [3]];
  }

  lemma TwoBranches(orelse: Body, p: Path)
    requires orelse == STATEMENT && p == Path(map[0 := [1], 1 := [2]], 3, 2)
    ensures var e := WalkAll(orelse, p.(tail := 1));
            e.tail == 3 && Join(e, [2, 3]) == Path(map[0 := [1], 1 := [2, 3], 2 := [4], 3 := [4]], 5, 4)
  {
    WalkJust(Simple(0), p.(tail := 1));
    var e := Append(p.(tail := 1));
    assert [2] + [3] == [2, 3] && [] + [4] == [4];
    JoinTwo(e, 2, 3);
    assert Connect(Connect(e.nodes, 2, 4), 3, 4) == map[0 := [1], 1 := [2, 3], 2 := [4], 3 := [4]];
  }

  /** The graphs of a block that may be skipped, of the two ways through an `if` and through a `try` with one handler,
      and of statements that add no way: node 0 is the function, node 1 the statement, and nodes are numbered as they
      are met. */
  lemma GraphsOfStatements(line: nat)
    ensures var skipped := Path(map[0 := [1], 1 := [2, 3], 2 := [3]], 4, 3);
            && WalkAll(Just(Loop(line, STATEMENT)), Start(0)) == skipped
            && WalkAll(Just(FunctionDef("f", line, STATEMENT)), Start(0)) == skipped
            && WalkAll(Just(If(line, STATEMENT, End)), Start(0)) == skipped
    ensures var branched := Path(map[0 := [1], 1 := [2, 3], 2 := [4], 3 := [4]], 5, 4);
            && WalkAll(Just(If(line, STATEMENT, STATEMENT)), Start(0)) == branched
            && WalkAll(Just(TryExcept(line, STATEMENT, Handler(STATEMENT, NoMore))), Start(0)) == branched
    ensures WalkAll(Just(With(line, STATEMENT)), Start(0)) == Path(map[0 := [1], 1 := [2]], 3, 2)
    ensures WalkAll(Just(ClassDef("C", STATEMENT)), Start(0)) == Path(map[0 := [1]], 2, 1)
    ensures WalkAll(Just(Other(STATEMENT)), Start(0)) == Path(map[0 := [1]], 2, 1)
  {
    hide WalkAll, WalkBlock, Join;
    var p := Append(Start(0));
    SkippedBlock();
    WalkJust(Loop(line, STATEMENT), Start(0));
    WalkJust(FunctionDef("f", line, STATEMENT), Start(0));
    WalkJust(If(line, STATEMENT, End), Start(0));
    BranchBegun(p);
    TwoBranches(STATEMENT, WalkAll(STATEMENT, p));
    WalkJust(If(line, STATEMENT, STATEMENT), Start(0));
    WalkJust(TryExcept(line, STATEMENT, Handler(STATEMENT, NoMore)), Start(0));
    assert WalkHandlers(NoMore, WalkAll(STATEMENT, WalkAll(STATEMENT, p).(tail := 1)), 1, [2] + [3]).1 == [2, 3];
    WalkJust(With(line, STATEMENT), Start(0));
    WalkJust(ClassDef("C", STATEMENT), Start(0));
    WalkJust(Other(STATEMENT), Start(0));
  }

  /** `n` leads to `m` along edges. */
  ghost predicate Leads(nodes: Nodes, n: nat, m: nat, steps: nat)
    decreases steps
  {
    if steps == 0 then n == m else exists k :: k in Edges(nodes, n) && Leads(nodes, k, m, steps - 1)
  }

  /** A finished graph has no cycle. */
  lemma {:induction false} NoCycle(p: Path, n: nat, m: nat, steps: nat)
    requires Downwards(p) && Leads(p.nodes, n, m, steps)
    ensures n + steps <= m
    decreases steps
  {
    if steps > 0 {
      var k :| k in Edges(p.nodes, n) && Leads(p.nodes, k, m, steps - 1);
      NoCycle(p, k, m, steps - 1);
    }
  }

  /** From each of its nodes a finished graph leads to the tail, its only exit. */
  lemma {:induction false} LeadsToTail(first: nat, q: Path, n: nat) returns (steps: nat)
    requires Grown(Start(first), q) && first <= n < q.next
    ensures Leads(q.nodes, n, q.tail, steps)
    decreases q.next - n
  {
    if n == q.tail {
      steps := 0;
    } else {
      assert n in q.nodes;
      var k := q.nodes[n][0];
      assert k in q.nodes[n];
      steps := LeadsToTail(first, q, k);
      assert k in Edges(q.nodes, n) && Leads(q.nodes, k, q.tail, steps);
      steps := steps + 1;
    }
  }

  // ---------------------------------------------------------------- a whole module

  datatype Record = Record(entity: string, line: nat, nodes: Nodes)

  type Records = map<string, Record>

  function LoopName(line: nat): string {
    "Loop " + Decimal(line)
  }

  /** Loops of different lines never share a key, and a loop's name ends in its line. */
  lemma LoopNamed(l: nat, m: nat)
    ensures LoopName(l) == LoopName(m) ==> l == m
    ensures LoopName(l)[..5] == "Loop " && LoopName(l)[5..] == Decimal(l)
  {
    assert LoopName(l)[5..] == Decimal(l) && LoopName(m)[5..] == Decimal(m);
    if LoopName(l) == LoopName(m) { DecimalInjective(l, m); }
  }

  /** What visiting a node does outside any graph: the finished graphs so far and the number of the next node. */
  function Scan(a: Ast, classname: string, graphs: Records, next: nat): (Records, nat)
    decreases a
  {
    match a
    case Simple(_) => (graphs, next)
    case Other(children) => ScanAll(children, classname, graphs, next)
    case FunctionDef(name, line, body) =>
      var p := WalkAll(body, Start(next));
      (graphs[classname + name := Record(classname + name, line, p.nodes)], p.next)
    case ClassDef(name, body) => ScanAll(body, classname + name + ".", graphs, next)
    case Loop(line, body) =>
      var p := WalkAll(body, Start(next));
      (graphs[classname + LoopName(line) := Record(LoopName(line), line, p.nodes)], p.next)
    case If(_, body, orelse) =>
      var (g, n) := ScanAll(body, classname, graphs, next);
      ScanAll(orelse, classname, g, n)
    case TryExcept(_, body, handlers) =>
      var (g, n) := ScanAll(body, classname, graphs, next);
      ScanHandlers(handlers, classname, g, n)
    case With(_, body) => ScanAll(body, classname, graphs, next)
  }

  function ScanAll(b: Body, classname: string, graphs: Records, next: nat): (Records, nat)
    decreases b
  {
    match b
    case End => (graphs, next)
    case Then(a, rest) => var (g, n) := Scan(a, classname, graphs, next); ScanAll(rest, classname, g, n)
  }

  function ScanHandlers(h: Handlers, classname: string, graphs: Records, next: nat): (Records, nat)
    decreases h
  {
    match h
    case NoMore => (graphs, next)
    case Handler(body, rest) =>
      var (g, n) := ScanAll(body, classname, graphs, next);
      ScanHandlers(rest, classname, g, n)
  }

  /** What the checker reports about a key, read off the syntax. */
  datatype Finding = Finding(entity: string, line: nat, complexity: nat)

  type Outline = map<string, Finding>

  /** The functions and loops outside any other, by key; a later one takes the place of an earlier one. */
  function Outlined(a: Ast, classname: string, o: Outline): Outline
    decreases a
  {
    match a
    case Simple(_) => o
    case Other(children) => OutlinedAll(children, classname, o)
    case FunctionDef(name, line, body) =>
      o[classname + name := Finding(classname + name, line, BodyDecisions(body) + 2)]
    case ClassDef(name, body) => OutlinedAll(body, classname + name + ".", o)
    case Loop(line, body) => o[classname + LoopName(line) := Finding(LoopName(line), line, BodyDecisions(body) + 2)]
    case If(_, body, orelse) => OutlinedAll(orelse, classname, OutlinedAll(body, classname, o))
    case TryExcept(_, body, handlers) => OutlinedHandlers(handlers, classname, OutlinedAll(body, classname, o))
    case With(_, body) => OutlinedAll(body, classname, o)
  }

  function OutlinedAll(b: Body, classname: string, o: Outline): Outline
    decreases b
  {
    match b
    case End => o
    case Then(a, rest) => OutlinedAll(rest, classname, Outlined(a, classname, o))
  }

  function OutlinedHandlers(h: Handlers, classname: string, o: Outline): Outline
    decreases h
  {
    match h
    case NoMore => o
    case Handler(body, rest) => OutlinedHandlers(rest, classname, OutlinedAll(body, classname, o))
  }

  lemma OutlinedJust(a: Ast, classname: string, o: Outline)
    ensures OutlinedAll(Just(a), classname, o) == Outlined(a, classname, o)
  {
    assert OutlinedAll(End, classname, Outlined(a, classname, o)) == Outlined(a, classname, o);
  }

  lemma OneStatement()
    ensures BodyDecisions(STATEMENT) == 0 && BodyDecisions(Just(Loop(1, STATEMENT))) == 1
  {
    assert Decisions(Loop(1, STATEMENT)) == 1 + BodyDecisions(STATEMENT) && BodyDecisions(End) == 0;
  }

  lemma LoopAtSeven()
    ensures LoopName(7) == "Loop 7"
  {
    assert Decimal(7) == "7";
  }

  /** A function is outlined once, with the decisions of what it holds and none of those as findings of their own;
      classes lend their names to keys, but not to the entity of a loop. */
  lemma OutlineNames(o: Outline)
    ensures Outlined(FunctionDef("f", 2, Just(Loop(1, STATEMENT))), "", o) == o["f" := Finding("f", 2, 3)]
    ensures Outlined(ClassDef("C", Just(FunctionDef("m", 2, STATEMENT))), "", o) == o["C.m" := Finding("C.m", 2, 2)]
    ensures Outlined(ClassDef("C", Just(ClassDef("D", Just(Loop(7, STATEMENT))))), "", o)
         == o["C.D.Loop 7" := Finding("Loop 7", 7, 2)]
  {
    hide BodyDecisions, LoopName;
    OneStatement();
    LoopAtSeven();
    assert "" + "f" == "f" && "" + "C" + "." == "C." && "C." + "m" == "C.m";
    assert "C." + "D" + "." == "C.D." && "C.D." + "Loop 7" == "C.D.Loop 7";
    OutlinedJust(FunctionDef("m", 2, STATEMENT), "C.", o);
    OutlinedJust(Loop(7, STATEMENT), "C.D.", o);
    OutlinedJust(ClassDef("D", Just(Loop(7, STATEMENT))), "C.", o);
  }

  /** Both parts of an `if` and all parts of a `try` are outlined, the later in the place of the earlier. */
  lemma OutlineParts(o: Outline, f: Ast, g: Ast)
    requires f == FunctionDef("f", 2, STATEMENT) && g == FunctionDef("f", 3, STATEMENT)
    ensures Outlined(If(1, Just(f), Just(g)), "", o) == o["f" := Finding("f", 3, 2)]
    ensures Outlined(If(1, Just(f), End), "", o) == o["f" := Finding("f", 2, 2)]
    ensures Outlined(TryExcept(1, Just(f), Handler(Just(g), NoMore)), "", o) == o["f" := Finding("f", 3, 2)]
    ensures Outlined(With(1, Just(f)), "", o) == Outlined(Other(Just(f)), "", o) == o["f" := Finding("f", 2, 2)]
  {
    hide BodyDecisions;
    OneStatement();
    assert "" + "f" == "f";
    var once := o["f" := Finding("f", 2, 2)];
    OutlinedJust(f, "", o);
    OutlinedJust(g, "", once);
    assert OutlinedAll(End, "", once) == once;
    assert once["f" := Finding("f", 3, 2)] == o["f" := Finding("f", 3, 2)];
    assert OutlinedHandlers(NoMore, "", o["f" := Finding("f", 3, 2)]) == o["f" := Finding("f", 3, 2)];
  }

  ghost predicate Shown(r: Record, f: Finding) {
    r.entity == f.entity && r.line == f.line && Complexity(r.nodes) == f.complexity
  }

  ghost predicate Matches(graphs: Records, o: Outline) {
    graphs.Keys == o.Keys && forall k :: k in o ==> Shown(graphs[k], o[k])
  }

  lemma MatchesStored(graphs: Records, o: Outline, key: string, r: Record, f: Finding)
    requires Matches(graphs, o) && Shown(r, f)
    ensures Matches(graphs[key := r], o[key := f])
  {
  }

  /** Visiting a module stores exactly the graphs of its outline, each with the complexity the syntax gives it. */
  lemma {:induction false} ScanMatches(a: Ast, classname: string, graphs: Records, next: nat, o: Outline)
    requires Matches(graphs, o)
    ensures Matches(Scan(a, classname, graphs, next).0, Outlined(a, classname, o))
    decreases a
  {
    hide Matches, Complexity, WalkAll, BodyDecisions, LoopName;
    match a
    case Simple(_) =>
    case Other(children) => ScanAllMatches(children, classname, graphs, next, o);
    case FunctionDef(name, line, body) =>
      ComplexityIsDecisions(body, next);
      MatchesStored(graphs, o, classname + name, Record(classname + name, line, WalkAll(body, Start(next)).nodes),
                    Finding(classname + name, line, BodyDecisions(body) + 2));
    case ClassDef(name, body) => ScanAllMatches(body, classname + name + ".", graphs, next, o);
    case Loop(line, body) =>
      ComplexityIsDecisions(body, next);
      MatchesStored(graphs, o, classname + LoopName(line),
                    Record(LoopName(line), line, WalkAll(body, Start(next)).nodes),
                    Finding(LoopName(line), line, BodyDecisions(body) + 2));
    case If(_, body, orelse) =>
      ScanAllMatches(body, classname, graphs, next, o);
      var (g, n) := ScanAll(body, classname, graphs, next);
      ScanAllMatches(orelse, classname, g, n, OutlinedAll(body, classname, o));
    case TryExcept(_, body, handlers) =>
      ScanAllMatches(body, classname, graphs, next, o);
      var (g, n) := ScanAll(body, classname, graphs, next);
      ScanHandlersMatches(handlers, classname, g, n, OutlinedAll(body, classname, o));
    case With(_, body) => ScanAllMatches(body, classname, graphs, next, o);
  }

  lemma {:induction false} ScanAllMatches(b: Body, classname: string, graphs: Records, next: nat, o: Outline)
    requires Matches(graphs, o)
    ensures Matches(ScanAll(b, classname, graphs, next).0, OutlinedAll(b, classname, o))
    decreases b
  {
    hide Matches;
    match b
    case End =>
    case Then(a, rest) =>
      ScanMatches(a, classname, graphs, next, o);
      var (g, n) := Scan(a, classname, graphs, next);
      ScanAllMatches(rest, classname, g, n, Outlined(a, classname, o));
  }

  lemma {:induction false} ScanHandlersMatches(h: Handlers, classname: string, graphs: Records, next: nat, o: Outline)
    requires Matches(graphs, o)
    ensures Matches(ScanHandlers(h, classname, graphs, next).0, OutlinedHandlers(h, classname, o))
    decreases h
  {
    hide Matches;
    match h
    case NoMore =>
    case Handler(body, rest) =>
      ScanAllMatches(body, classname, graphs, next, o);
      var (g, n) := ScanAll(body, classname, graphs, next);
      ScanHandlersMatches(rest, classname, g, n, OutlinedAll(body, classname, o));
  }

  // ---------------------------------------------------------------- the visitor

  class PathGraph {
    const entity: string
    const line: nat
    var nodes: Nodes

    constructor (entity: string, line: nat)
      ensures Value() == Record(entity, line, map[])
    {
      this.entity, this.line, nodes := entity, line, map[];
    }

    function Value(): Record
      reads this
    {
      Record(entity, line, nodes)
    }

    method ConnectTo(n1: nat, n2: nat)
      modifies this
      ensures nodes == Connect(old(nodes), n1, n2)
    {
      nodes := nodes[n1 := Edges(nodes, n1) + [n2]];
    }

    method CountPaths() returns (c: int)
      ensures c == Complexity(nodes)
    {
      var rest := nodes;
      var edges := 0;
      while rest.Keys != {}
        invariant edges + TotalEdges(rest) == TotalEdges(nodes)
        decreases |rest|
      {
        var k :| k in rest.Keys;
        TotalPick(rest, k);
        edges := edges + |rest[k]|;
        rest := rest - {k};
      }
      assert rest == map[];
      return edges - |nodes| + 2;
    }
  }

  lemma AppendedTail(p: Path)
    ensures Append(p).tail == p.next
  {
  }

  class PathGraphingAstVisitor {
    var classname: string
    var graphs: map<string, PathGraph>
    var graph: PathGraph?
    var tail: Option<nat>
    var next: nat

    constructor ()
      ensures Valid() && graph == null && classname == "" && graphs == map[] && next == 0
    {
      classname, graphs, graph, tail, next := "", map[], null, None, 0;
    }

    ghost predicate Valid()
      reads this
    {
      (graph == null <==> tail.None?) && forall k :: k in graphs ==> graphs[k] != graph
    }

    ghost function At(): Path
      requires graph != null && tail.Some?
      reads this`graph, this`next, this`tail, graph
    {
      Path(graph.nodes, next, tail.value)
    }

    ghost function Stored(): Records
      reads this`graphs, graphs.Values
    {
      map k | k in graphs :: graphs[k].Value()
    }

    /** Inside a graph a visit of `a` walks it on; outside it scans for graphs to store. */
    twostate predicate Visits(a: Ast)
      requires old(Valid()) && Valid()
      reads this, graph, graphs.Values
    {
      && classname == old(classname) && graph == old(graph)
      && (graph != null ==> graphs == old(graphs) && Stored() == old(Stored()) && At() == Walk(a, old(At())))
      && (graph == null ==> (Stored(), next) == Scan(a, classname, old(Stored()), old(next)))
    }

    twostate predicate VisitsAll(b: Body)
      requires old(Valid()) && Valid()
      reads this, graph, graphs.Values
    {
      && classname == old(classname) && graph == old(graph)
      && (graph != null ==> graphs == old(graphs) && Stored() == old(Stored()) && At() == WalkAll(b, old(At())))
      && (graph == null ==> (Stored(), next) == ScanAll(b, classname, old(Stored()), old(next)))
    }

    method AppendPathNode() returns (pathnode: Option<nat>)
      requires Valid()
      modifies this`tail, this`next, graph
      ensures Valid()
      ensures graph == null ==> pathnode.None? && tail == old(tail) && next == old(next)
      ensures graph != null ==> pathnode == Some(old(next)) && At() == Append(old(At()))
    {
      if tail.None? {
        return None;
      }
      graph.ConnectTo(tail.value, next);
      pathnode, tail, next := Some(next), Some(next), next + 1;
    }

    /** A bottom node under the loose ends. */
    method Bottom(ends: seq<nat>)
      requires Valid() && graph != null
      modifies this`tail, this`next, graph
      ensures Valid() && At() == Join(old(At()), ends)
    {
      var i := 0;
      while i < |ends|
        invariant i <= |ends| && next == old(next) && tail == old(tail) && Valid()
        invariant ConnectAll(graph.nodes, ends[i..], next) == ConnectAll(old(graph.nodes), ends, next)
      {
        graph.ConnectTo(ends[i], next);
        assert ends[i..][0] == ends[i] && ends[i..][1..] == ends[i + 1..];
        i := i + 1;
      }
      tail, next := Some(next), next + 1;
    }

    method Dispatch(a: Ast)
      requires Valid()
      modifies this, graph
      ensures Valid() && Visits(a)
      decreases a, 1
    {
      hide Join, WalkAll, ScanAll, WalkHandlers, ScanHandlers, WalkBlock, LoopName;
      match a
      case Simple(_) => var _ := AppendPathNode();
      case Other(children) => DispatchList(children);
      case FunctionDef(name, line, body) => VisitFunctionDef(a);
      case ClassDef(name, body) =>
        var oldClassname := classname;
        classname := classname + name + ".";
        DispatchList(body);
        classname := oldClassname;
      case Loop(line, body) => VisitLoop(a);
      case If(_, body, orelse) => VisitIf(a);
      case TryExcept(_, body, handlers) => VisitTryExcept(a);
      case With(_, body) =>
        var _ := AppendPathNode();
        DispatchList(body);
    }

    method DispatchList(b: Body)
      requires Valid()
      modifies this, graph
      ensures Valid() && VisitsAll(b)
      decreases b, 0
    {
      match b
      case End =>
      case Then(a, rest) =>
        Dispatch(a);
        DispatchList(rest);
    }

    method OpenGraph(entity: string, line: nat)
      requires Valid() && graph == null
      modifies this`graph, this`tail, this`next
      ensures Valid() && graph != null && fresh(graph) && graph.entity == entity && graph.line == line
      ensures At() == Start(old(next)) && Stored() == old(Stored())
    {
      graph := new PathGraph(entity, line);
      tail, next := Some(next), next + 1;
    }

    method StoreGraph(key: string)
      requires Valid() && graph != null
      modifies this`graphs, this`graph, this`tail
      ensures Valid() && graph == null && Stored() == old(Stored())[key := old(graph.Value())]
    {
      ghost var stored := Stored();
      graphs := graphs[key := graph];
      assert Stored() == stored[key := graph.Value()];
      graph, tail := null, None;
    }

    /** A function or loop outside any graph gets a graph of its own, stored under `key`. */
    method OwnGraph(entity: string, line: nat, key: string, body: Body)
      requires Valid() && graph == null
      modifies this
      ensures Valid() && classname == old(classname) && graph == null
      ensures var p := WalkAll(body, Start(old(next)));
              Stored() == old(Stored())[key := Record(entity, line, p.nodes)] && next == p.next
      decreases body, 1
    {
      hide WalkAll, ScanAll;
      OpenGraph(entity, line);
      DispatchList(body);
      StoreGraph(key);
    }

    /** A function or loop inside a graph. */
    method Block(body: Body)
      requires Valid() && graph != null
      modifies this, graph
      ensures Valid() && classname == old(classname) && graph == old(graph) && graphs == old(graphs)
      ensures Stored() == old(Stored()) && At() == WalkBlock(body, old(At()))
      decreases body, 1
    {
      hide WalkAll, Append, Join;
      ghost var p := At();
      var pathnode := AppendPathNode();
      AppendedTail(p);
      tail := pathnode;
      assert At() == Append(p);
      DispatchList(body);
      ghost var b := At();
      Bottom([tail.value, pathnode.value]);
      assert At() == Join(b, [b.tail, p.next]);
    }

    method VisitFunctionDef(a: Ast)
      requires Valid() && a.FunctionDef?
      modifies this, graph
      ensures Valid() && Visits(a)
      decreases a, 0
    {
      hide WalkAll, ScanAll, WalkBlock;
      var entity := classname + a.name;
      if graph != null {
        Block(a.body);
      } else {
        OwnGraph(entity, a.line, classname + a.name, a.body);
      }
    }

    method VisitLoop(a: Ast)
      requires Valid() && a.Loop?
      modifies this, graph
      ensures Valid() && Visits(a)
      decreases a, 0
    {
      hide WalkAll, ScanAll, WalkBlock, LoopName;
      var name := LoopName(a.line);
      if graph == null {
        OwnGraph(name, a.line, classname + name, a.body);
      } else {
        Block(a.body);
      }
    }

    /** Outside any graph there is no tail, so nothing to hang a bottom node under. */
    method VisitIf(a: Ast)
      requires Valid() && a.If?
      modifies this, graph
      ensures Valid() && Visits(a)
      decreases a, 0
    {
      hide Append, Join, LoopName, WalkAll, ScanAll;
      if graph == null {
        DispatchList(a.body);
        DispatchList(a.orelse);
      } else {
        IfInGraph(a);
      }
    }

    method IfInGraph(a: Ast)
      requires Valid() && a.If? && graph != null
      modifies this, graph
      ensures Valid() && classname == old(classname) && graph == old(graph) && graphs == old(graphs)
      ensures Stored() == old(Stored()) && At() == Walk(a, old(At()))
      decreases a, 0, 0
    {
      hide Append, Join, ScanAll;
      ghost var p := At();
      var pathnode := AppendPathNode();
      DispatchList(a.body);
      var looseEnd, other := tail, pathnode;
      if !a.orelse.End? {
        tail := pathnode;
        DispatchList(a.orelse);
        other := tail;
      }
      ghost var e := At();
      Bottom([looseEnd.value, other.value]);
      assert At() == Join(e, [looseEnd.value, other.value]);
    }

    method VisitTryExcept(a: Ast)
      requires Valid() && a.TryExcept?
      modifies this, graph
      ensures Valid() && Visits(a)
      decreases a, 0
    {
      hide Append, Join, WalkAll, ScanAll, WalkHandlers, ScanHandlers, WalkBlock, LoopName;
      var pathnode := AppendPathNode();
      DispatchList(a.body);
      if pathnode.None? {
        VisitHandlers(a.handlers);
      } else {
        var ends := VisitBranches(a.handlers, pathnode.value, [tail.value]);
        Bottom(ends);
      }
    }

    /** The handlers of a `try` outside any graph: there is no tail to hang them under. */
    method VisitHandlers(h: Handlers)
      requires Valid() && graph == null
      modifies this
      ensures Valid() && classname == old(classname) && graph == null
      ensures (Stored(), next) == ScanHandlers(h, classname, old(Stored()), old(next))
      decreases h
    {
      match h
      case NoMore =>
      case Handler(body, rest) =>
        DispatchList(body);
        VisitHandlers(rest);
    }

    /** The handlers of a `try` inside a graph: each starts from the `try` and leaves a loose end. */
    method VisitBranches(h: Handlers, pathnode: nat, ends: seq<nat>) returns (looseEnds: seq<nat>)
      requires Valid() && graph != null
      modifies this, graph
      ensures Valid() && classname == old(classname) && graph == old(graph) && graphs == old(graphs)
      ensures Stored() == old(Stored()) && (At(), looseEnds) == WalkHandlers(h, old(At()), pathnode, ends)
      decreases h
    {
      match h
      case NoMore => return ends;
      case Handler(body, rest) =>
        tail := Some(pathnode);
        DispatchList(body);
        looseEnds := VisitBranches(rest, pathnode, ends + [tail.value]);
    }
  }

  method ReportGraphs(visitor: PathGraphingAstVisitor, limit: int, ghost o: Outline)
    returns (found: map<string, Finding>)
    requires limit >= 0 && Matches(visitor.Stored(), o)
    ensures forall k :: k in found <==> k in o && o[k].complexity >= limit
    ensures forall k :: k in found ==> found[k] == o[k]
  {
    hide Complexity;
    found := map[];
    var rest := visitor.graphs.Keys;
    assert visitor.Stored().Keys == rest;
    while rest != {}
      invariant rest <= o.Keys == visitor.graphs.Keys
      invariant forall k :: k in found <==> k in o && k !in rest && o[k].complexity >= limit
      invariant forall k :: k in found ==> found[k] == o[k]
    {
      var k :| k in rest;
      var graph := visitor.graphs[k];
      assert Shown(visitor.Stored()[k], o[k]);
      var complexity := graph.CountPaths();
      if complexity >= limit {
        found := found[k := Finding(graph.entity, graph.line, complexity)];
      }
      rest := rest - {k};
    }
  }

  /** The checker: the graphs of a module whose complexity reaches the limit, unless the limit is off. */
  method Run(tree: Ast, maxComplexity: int) returns (found: map<string, Finding>)
    ensures var outline := Outlined(tree, "", map[]);
            && (forall k :: k in found <==>
                 0 <= maxComplexity && k in outline && outline[k].complexity >= maxComplexity)
            && (forall k :: k in found ==> found[k] == outline[k])
  {
    hide Outlined, Scan, Walk, Complexity;
    if maxComplexity < 0 {
      return map[];
    }
    var visitor := new PathGraphingAstVisitor();
    assert visitor.Stored() == map[];
    visitor.Dispatch(tree);
    ScanMatches(tree, "", map[], 0, map[]);
    found := ReportGraphs(visitor, maxComplexity, Outlined(tree, "", map[]));
  }
}
