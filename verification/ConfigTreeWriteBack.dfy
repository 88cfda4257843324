/** Writing what was read gives back the lines, exactly when reading raised no error: statements about ConfigTree. */
module ConfigTreeWriteBack {
  import opened Prelude
  import opened ConfigQuote
  import opened ConfigTree
  import opened ConfigTreeRoundTrip

  // ---------------------------------------------------------------- sections are numbered as they are written

  /** Section `i` and those below it are the numbers from `i` up to `hi`, in the order in which they are written. */
  ghost predicate Preorder(arena: seq<Node>, i: nat, hi: nat)
    decreases hi - i, 0, 0
  {
    i < hi <= |arena| && Tiles(arena, i, i + 1, arena[i].subs, hi)
  }

  /** The subsections `refs` of `parent` take up the numbers from `lo` up to `hi`, one after the other. */
  ghost predicate Tiles(arena: seq<Node>, parent: nat, lo: nat, refs: seq<SubRef>, hi: nat)
    requires hi <= |arena|
    decreases hi - lo, 1, |refs|
  {
    if refs == [] then lo == hi
    else
      var next := End(refs, hi);
      && refs[0].node == lo < next <= hi && arena[lo].parent == parent
      && Preorder(arena, lo, next) && Tiles(arena, parent, next, refs[1..], hi)
  }

  /** Where the first subsection ends. */
  function End(refs: seq<SubRef>, hi: nat): nat {
    if |refs| > 1 then refs[1].node else hi
  }

  lemma {:induction false} LastTile(arena: seq<Node>, parent: nat, lo: nat, refs: seq<SubRef>, hi: nat)
    requires hi <= |arena| && Tiles(arena, parent, lo, refs, hi) && refs != []
    ensures var l := refs[|refs| - 1].node; lo <= l < hi && arena[l].parent == parent && Preorder(arena, l, hi)
    decreases |refs|
  {
    if |refs| > 1 { LastTile(arena, parent, End(refs, hi), refs[1..], hi); }
  }

  /** `p` is `i`, or the last subsection of `i`, or the last one of that, and so on. */
  ghost predicate OnSpine(arena: seq<Node>, i: nat, p: nat)
    requires Linked(arena) && i < |arena|
    decreases |arena| - i
  {
    i == p || (arena[i].subs != [] && OnSpine(arena, arena[i].subs[|arena[i].subs| - 1].node, p))
  }

  lemma {:induction false} SpineAbove(arena: seq<Node>, i: nat, p: nat)
    requires Linked(arena) && i < |arena| && OnSpine(arena, i, p)
    ensures i <= p < |arena|
    decreases |arena| - i
  {
    if i != p { SpineAbove(arena, arena[i].subs[|arena[i].subs| - 1].node, p); }
  }

  /** The newest section ends the spine. */
  lemma {:induction false} NewestOnSpine(arena: seq<Node>, i: nat)
    requires Linked(arena) && Preorder(arena, i, |arena|)
    ensures OnSpine(arena, i, |arena| - 1) && arena[|arena| - 1].subs == []
    decreases |arena| - i
  {
    var subs := arena[i].subs;
    if subs != [] {
      LastTile(arena, i, i + 1, subs, |arena|);
      NewestOnSpine(arena, subs[|subs| - 1].node);
    }
  }

  lemma {:induction false} ParentOnSpine(arena: seq<Node>, i: nat, x: nat)
    requires Linked(arena) && Preorder(arena, i, |arena|) && OnSpine(arena, i, x) && x != i
    ensures x < |arena| && OnSpine(arena, i, arena[x].parent)
    decreases |arena| - i
  {
    var subs := arena[i].subs;
    var l := subs[|subs| - 1].node;
    LastTile(arena, i, i + 1, subs, |arena|);
    if x != l { ParentOnSpine(arena, l, x); }
  }

  lemma {:induction false} MatchOnSpine(arena: seq<Node>, sect: nat, depth: nat)
    requires Linked(arena) && Preorder(arena, 0, |arena|) && sect < |arena| && OnSpine(arena, 0, sect)
    ensures MatchDepth(arena, sect, depth).Some? ==> OnSpine(arena, 0, MatchDepth(arena, sect, depth).value)
    decreases sect
  {
    hide OnSpine, Preorder;
    if depth < arena[sect].depth && arena[sect].parent != sect {
      ParentOnSpine(arena, 0, sect);
      MatchOnSpine(arena, arena[sect].parent, depth);
    }
  }

  lemma RootOnSpine(arena: seq<Node>)
    requires Linked(arena)
    ensures OnSpine(arena, 0, 0)
  {
  }

  /** A marker opens a subsection of a section on the spine. */
  lemma ParentForOnSpine(arena: seq<Node>, cur: nat, depth: nat)
    requires Linked(arena) && Preorder(arena, 0, |arena|) && cur < |arena| && OnSpine(arena, 0, cur) && depth > 0
    requires ParentFor(arena, cur, depth).Ok?
    ensures OnSpine(arena, 0, ParentFor(arena, cur, depth).value)
  {
    hide OnSpine, Preorder, MatchDepth;
    RootOnSpine(arena);
    var s := if depth < arena[cur].depth then MatchDepth(arena, cur, depth).value else cur;
    MatchOnSpine(arena, cur, depth);
    if depth <= arena[cur].depth && s != 0 { ParentOnSpine(arena, 0, s); }
  }

  // ---------------------------------------------------------------- what a change leaves alone

  lemma {:induction false} PreorderFrame(a: seq<Node>, b: seq<Node>, i: nat, hi: nat)
    requires Linked(a) && Linked(b) && Preorder(a, i, hi) && hi <= |b| && forall k :: i <= k < hi ==> a[k] == b[k]
    ensures Preorder(b, i, hi) && TreeOf(a, i) == TreeOf(b, i)
    decreases hi - i, 0, 0
  {
    TilesFrame(a, b, i, i + 1, a[i].subs, hi);
  }

  lemma {:induction false} TilesFrame(a: seq<Node>, b: seq<Node>, parent: nat, lo: nat, refs: seq<SubRef>, hi: nat)
    requires Linked(a) && Linked(b) && hi <= |a| && hi <= |b| && Tiles(a, parent, lo, refs, hi)
    requires parent < lo <= hi && forall k :: lo <= k < hi ==> a[k] == b[k]
    ensures RefsAbove(refs, parent, hi) && Tiles(b, parent, lo, refs, hi)
    ensures ForestOf(a, parent, refs) == ForestOf(b, parent, refs)
    decreases hi - lo, 1, |refs|
  {
    if refs != [] {
      PreorderFrame(a, b, lo, End(refs, hi));
      TilesFrame(a, b, parent, End(refs, hi), refs[1..], hi);
      assert refs == [refs[0]] + refs[1..];
    }
  }

  // ---------------------------------------------------------------- a key

  lemma {:induction false} WriteScalarsAppend(scalars: seq<Scalar>, s: Scalar)
    ensures WriteScalars(scalars + [s]) == WriteScalars(scalars) + (Comments(s.comments) + [KeyValue(s.key, s.value)])
  {
    if scalars == [] {
      assert scalars + [s] == [s] && [s][1..] == [];
      ScalarWritten([s]);
      assert WriteScalars([]) == [];
    } else {
      assert (scalars + [s])[1..] == scalars[1..] + [s];
      WriteScalarsAppend(scalars[1..], s);
      ScalarWritten(scalars);
      ScalarWritten(scalars + [s]);
    }
  }

  function KeyLines(s: Scalar): seq<Line> {
    Comments(s.comments) + [KeyValue(s.key, s.value)]
  }

  lemma KeyAppended(scalars: seq<Scalar>, s: Scalar)
    ensures WriteScalars(scalars + [s]) == WriteScalars(scalars) + KeyLines(s)
  {
    WriteScalarsAppend(scalars, s);
  }

  /** Adding a key to the newest section appends its lines to what is written. */
  lemma {:induction false} SpineScalar(a: seq<Node>, b: seq<Node>, i: nat, s: Scalar, d: nat)
    requires Linked(a) && Linked(b) && Preorder(a, i, |a|) && b == AddScalar(a, |a| - 1, s)
    ensures Preorder(b, i, |b|) && WriteTree(TreeOf(b, i), d) == WriteTree(TreeOf(a, i), d) + KeyLines(s)
    decreases |a| - i, 0, 0
  {
    hide WriteTree, WriteForest, WriteScalars, KeyLines, Tiles, Linked;
    TreeWritten(a, i, d);
    TreeWritten(b, i, d);
    PreorderTiles(a, i, |a|);
    PreorderTiles(b, i, |b|);
    if a[i].subs == [] {
      EmptyTiles(a, i, i + 1, |a|);
      KeyAppended(a[i].scalars, s);
      NoTiles(b, i, |b|);
      NoForestWritten(a, i, [], d + 1);
      NoForestWritten(b, i, [], d + 1);
    } else {
      TilesScalar(a, b, i, i + 1, a[i].subs, s, d + 1);
    }
  }

  lemma ForestWritten(arena: seq<Node>, parent: nat, refs: seq<SubRef>, d: nat)
    requires Linked(arena) && parent < |arena| && RefsAbove(refs, parent, |arena|) && refs != []
    ensures RefsAbove(refs[1..], parent, |arena|)
    ensures WriteForest(ForestOf(arena, parent, refs), d)
         == Comments(refs[0].comments) + [Marker(d, refs[0].name)] + WriteTree(TreeOf(arena, refs[0].node), d)
            + WriteForest(ForestOf(arena, parent, refs[1..]), d)
  {
    SubWritten(ForestOf(arena, parent, refs), d);
  }

  lemma NoForestWritten(arena: seq<Node>, parent: nat, refs: seq<SubRef>, d: nat)
    requires Linked(arena) && parent < |arena| && refs == []
    ensures RefsAbove(refs, parent, |arena|) && WriteForest(ForestOf(arena, parent, refs), d) == []
  {
    NothingWritten(d);
  }

  lemma TilesFirst(arena: seq<Node>, parent: nat, lo: nat, refs: seq<SubRef>, hi: nat)
    requires hi <= |arena| && refs != []
    ensures var next := End(refs, hi);
            Tiles(arena, parent, lo, refs, hi)
            <==> && refs[0].node == lo < next <= hi && arena[lo].parent == parent
                 && Preorder(arena, lo, next) && Tiles(arena, parent, next, refs[1..], hi)
  {
  }

  lemma EmptyTiles(arena: seq<Node>, parent: nat, lo: nat, hi: nat)
    requires hi <= |arena| && Tiles(arena, parent, lo, [], hi)
    ensures lo == hi
  {
  }

  lemma NoTiles(arena: seq<Node>, parent: nat, hi: nat)
    requires hi <= |arena|
    ensures Tiles(arena, parent, hi, [], hi)
  {
  }

  /** What the lines of the last part grow by, the whole grows by. */
  lemma GrowsBehind(front: seq<Line>, part: seq<Line>, more: seq<Line>)
    ensures front + (part + more) == front + part + more
  {
  }

  lemma TilesBound(arena: seq<Node>, parent: nat, lo: nat, refs: seq<SubRef>, hi: nat)
    requires hi <= |arena| && parent < lo && Tiles(arena, parent, lo, refs, hi)
    ensures RefsAbove(refs, parent, hi) && lo <= hi
    decreases |refs|
  {
    if refs != [] {
      TilesBound(arena, parent, End(refs, hi), refs[1..], hi);
      assert refs == [refs[0]] + refs[1..];
    }
  }

  lemma {:induction false} TilesScalar(a: seq<Node>, b: seq<Node>, parent: nat, lo: nat, refs: seq<SubRef>, s: Scalar,
                                       d: nat)
    requires Linked(a) && Linked(b) && b == AddScalar(a, |a| - 1, s)
    requires Tiles(a, parent, lo, refs, |a|) && parent < lo && refs != []
    ensures RefsAbove(refs, parent, |a|) && Tiles(b, parent, lo, refs, |b|)
    ensures WriteForest(ForestOf(b, parent, refs), d) == WriteForest(ForestOf(a, parent, refs), d) + KeyLines(s)
    decreases |a| - lo, 1, |refs|
  {
    hide KeyLines, Linked, Tiles, Preorder, WriteTree, WriteForest, TreeOf, ForestOf, Comments;
    var next, rest := End(refs, |a|), refs[1..];
    TilesBound(a, parent, lo, refs, |a|);
    TilesFirst(a, parent, lo, refs, |a|);
    TilesFirst(b, parent, lo, refs, |b|);
    ForestWritten(a, parent, refs, d);
    ForestWritten(b, parent, refs, d);
    var head := Comments(refs[0].comments) + [Marker(d, refs[0].name)];
    if rest == [] {
      SpineScalar(a, b, lo, s, d);
      NoForestWritten(a, parent, rest, d);
      NoForestWritten(b, parent, rest, d);
      NoTiles(b, parent, |b|);
      GrowsBehind(head, WriteTree(TreeOf(a, lo), d), KeyLines(s));
    } else {
      TilesBound(a, parent, next, rest, |a|);
      PreorderFrame(a, b, lo, next);
      TilesScalar(a, b, parent, next, rest, s, d);
      GrowsBehind(head + WriteTree(TreeOf(a, lo), d), WriteForest(ForestOf(a, parent, rest), d), KeyLines(s));
    }
  }

  // ---------------------------------------------------------------- a marker

  function MarkerLines(depth: nat, name: string, comments: seq<string>): seq<Line> {
    Comments(comments) + [Marker(depth, name)]
  }

  lemma NewNode(b: seq<Node>, n: nat, d: nat)
    requires Linked(b) && n + 1 == |b| && b[n].subs == [] && b[n].scalars == []
    ensures Preorder(b, n, n + 1) && WriteTree(TreeOf(b, n), d) == []
  {
    WrittenEnd(TreeOf(b, n), d);
    NothingWritten(d + 1);
  }

  /** A new last subsection. */
  lemma {:induction false} TilesMore(a: seq<Node>, b: seq<Node>, parent: nat, lo: nat, refs: seq<SubRef>, r: SubRef,
                                     d: nat)
    requires Linked(a) && Linked(b) && |b| == |a| + 1 && r.node == |a| && parent < lo <= |a|
    requires Tiles(a, parent, lo, refs, |a|) && forall k :: lo <= k < |a| ==> b[k] == a[k]
    requires b[|a|].parent == parent && b[|a|].subs == [] && b[|a|].scalars == []
    ensures RefsAbove(refs, parent, |a|) && RefsAbove(refs + [r], parent, |b|) && Tiles(b, parent, lo, refs + [r], |b|)
    ensures WriteForest(ForestOf(b, parent, refs + [r]), d)
         == WriteForest(ForestOf(a, parent, refs), d) + MarkerLines(d, r.name, r.comments)
    decreases |refs|
  {
    hide Linked, Tiles, Preorder, WriteTree, WriteForest, TreeOf, ForestOf, Comments;
    var all := refs + [r];
    TilesBound(a, parent, lo, refs, |a|);
    assert RefsAbove(all, parent, |b|);
    ForestWritten(b, parent, all, d);
    TilesFirst(b, parent, lo, all, |b|);
    if refs == [] {
      assert all[1..] == [];
      NewNode(b, |a|, d);
      EmptyTiles(a, parent, lo, |a|);
      NoTiles(b, parent, |b|);
      NoForestWritten(b, parent, [], d);
      NoForestWritten(a, parent, [], d);
    } else {
      var next, rest := End(refs, |a|), refs[1..];
      assert all[0] == refs[0] && all[1..] == rest + [r] && End(all, |b|) == next;
      TilesFirst(a, parent, lo, refs, |a|);
      ForestWritten(a, parent, refs, d);
      PreorderFrame(a, b, lo, next);
      TilesMore(a, b, parent, next, rest, r, d);
      GrowsBehind(Comments(refs[0].comments) + [Marker(d, refs[0].name)] + WriteTree(TreeOf(a, lo), d),
                  WriteForest(ForestOf(a, parent, rest), d), MarkerLines(d, r.name, r.comments));
    }
  }

  lemma TreeWritten(arena: seq<Node>, i: nat, d: nat)
    requires Linked(arena) && i < |arena|
    ensures RefsAbove(arena[i].subs, i, |arena|)
    ensures WriteTree(TreeOf(arena, i), d)
         == WriteScalars(arena[i].scalars) + WriteForest(ForestOf(arena, i, arena[i].subs), d + 1)
  {
    WrittenEnd(TreeOf(arena, i), d);
  }

  lemma PreorderTiles(arena: seq<Node>, i: nat, hi: nat)
    requires i < hi <= |arena|
    ensures Preorder(arena, i, hi) <==> Tiles(arena, i, i + 1, arena[i].subs, hi)
  {
  }

  lemma AddNodeFields(arena: seq<Node>, p: nat, name: string, comments: seq<string>)
    requires p < |arena|
    ensures var b := AddNode(arena, p, name, comments);
            && |b| == |arena| + 1 && (forall k :: 0 <= k < |arena| && k != p ==> b[k] == arena[k])
            && b[p] == arena[p].(subs := arena[p].subs + [SubRef(name, comments, |arena|)])
            && b[|arena|] == Node(p, arena[p].depth + 1, [], [])
  {
  }

  lemma SubDepth(arena: seq<Node>, i: nat)
    requires Linked(arena) && 0 < i < |arena|
    ensures arena[i].parent < i && arena[i].depth == arena[arena[i].parent].depth + 1
  {
  }

  /** Opening a subsection of a section on the spine appends its lines to what is written. */
  lemma {:induction false} SpineNode(a: seq<Node>, b: seq<Node>, i: nat, p: nat, name: string, comments: seq<string>)
    requires Linked(a) && Linked(b) && Preorder(a, i, |a|) && OnSpine(a, i, p) && p < |a|
    requires b == AddNode(a, p, name, comments)
    ensures Preorder(b, i, |b|)
    ensures WriteTree(TreeOf(b, i), a[i].depth)
         == WriteTree(TreeOf(a, i), a[i].depth) + MarkerLines(a[p].depth + 1, name, comments)
    decreases |a| - i, 0, 0
  {
    hide WriteTree, WriteForest, WriteScalars, MarkerLines, Tiles, Linked;
    var d := a[i].depth;
    TreeWritten(a, i, d);
    TreeWritten(b, i, d);
    PreorderTiles(a, i, |a|);
    PreorderTiles(b, i, |b|);
    AddNodeFields(a, p, name, comments);
    if i == p {
      TilesMore(a, b, i, i + 1, a[i].subs, SubRef(name, comments, |a|), d + 1);
    } else {
      SpineAbove(a, i, p);
      LastTile(a, i, i + 1, a[i].subs, |a|);
      TilesNode(a, b, i, i + 1, a[i].subs, p, name, comments);
    }
  }

  lemma {:induction false} TilesNode(a: seq<Node>, b: seq<Node>, parent: nat, lo: nat, refs: seq<SubRef>, p: nat,
                                     name: string, comments: seq<string>)
    requires Linked(a) && Linked(b) && p < |a| && b == AddNode(a, p, name, comments)
    requires Tiles(a, parent, lo, refs, |a|) && parent < lo && refs != []
    requires refs[|refs| - 1].node < |a| && OnSpine(a, refs[|refs| - 1].node, p)
    ensures RefsAbove(refs, parent, |a|) && Tiles(b, parent, lo, refs, |b|)
    ensures var d := a[parent].depth + 1;
            WriteForest(ForestOf(b, parent, refs), d)
            == WriteForest(ForestOf(a, parent, refs), d) + MarkerLines(a[p].depth + 1, name, comments)
    decreases |a| - lo, 1, |refs|
  {
    hide MarkerLines, Linked, Tiles, Preorder, WriteTree, WriteForest, TreeOf, ForestOf, Comments, AddNode, OnSpine;
    TilesBound(a, parent, lo, refs, |a|);
    var d := a[parent].depth + 1;
    var next, rest := End(refs, |a|), refs[1..];
    var head := Comments(refs[0].comments) + [Marker(d, refs[0].name)];
    var more := MarkerLines(a[p].depth + 1, name, comments);
    AddNodeFields(a, p, name, comments);
    TilesFirst(a, parent, lo, refs, |a|);
    TilesFirst(b, parent, lo, refs, |b|);
    ForestWritten(a, parent, refs, d);
    ForestWritten(b, parent, refs, d);
    SubDepth(a, lo);
    SpineAbove(a, refs[|refs| - 1].node, p);
    if rest == [] {
      SpineNode(a, b, lo, p, name, comments);
      NoForestWritten(a, parent, rest, d);
      NoForestWritten(b, parent, rest, d);
      NoTiles(b, parent, |b|);
      GrowsBehind(head, WriteTree(TreeOf(a, lo), d), more);
    } else {
      assert rest[|rest| - 1] == refs[|refs| - 1];
      LastTile(a, parent, next, rest, |a|);
      PreorderFrame(a, b, lo, next);
      TilesNode(a, b, parent, next, rest, p, name, comments);
      GrowsBehind(head + WriteTree(TreeOf(a, lo), d), WriteForest(ForestOf(a, parent, rest), d), more);
    }
  }

  // ---------------------------------------------------------------- reading line by line

  /** The lines of what has been read, with the comments that wait. */
  ghost function Text(st: State): seq<Line>
    requires Good(st)
  {
    if st.started then Comments(st.initial) + (WriteTree(TreeOf(st.arena, 0), 0) + Comments(Pending(st)))
    else Comments(st.comments)
  }

  /** Reading `lines` without an error has led to this state. */
  ghost predicate Kept(st: State, lines: seq<Line>) {
    && Good(st) && Preorder(st.arena, 0, |st.arena|) && st.cur == |st.arena| - 1 && st.errors == []
    && (if st.started then st.arena[0].scalars != [] || st.arena[0].subs != []
        else st.arena == START.arena && st.initial == [] && !st.reset)
    && Text(st) == lines
  }

  lemma StartKept()
    ensures Kept(START, [])
  {
    StartGood();
  }

  lemma CommentsMore(texts: seq<string>, text: string)
    ensures Comments(texts + [text]) == Comments(texts) + [Comment(text)]
  {
  }

  lemma NoneWritten()
    ensures WriteTree(TreeOf(START.arena, 0), 0) == [] && Comments([]) == []
  {
    StartGood();
    assert TreeOf(START.arena, 0) == Tree([], NoSub);
    WrittenEnd(Tree([], NoSub), 0);
    NothingWritten(1);
  }

  lemma CommentKept(st: State, lines: seq<Line>, text: string)
    requires Kept(st, lines)
    ensures Kept(Step(st, Comment(text)), lines + [Comment(text)])
  {
    hide Linked, Preorder, WriteTree, TreeOf, Comments;
    CommentsMore(Pending(st), text);
    CommentsMore(st.comments, text);
    if st.started {
      GrowsBehind(WriteTree(TreeOf(st.arena, 0), 0), Comments(Pending(st)), [Comment(text)]);
      GrowsBehind(Comments(st.initial), WriteTree(TreeOf(st.arena, 0), 0) + Comments(Pending(st)), [Comment(text)]);
    }
  }

  /** Before an entry the comments that wait become its own, or the initial comment. */
  lemma BeginKept(st: State, lines: seq<Line>)
    requires Kept(st, lines)
    ensures Good(Begin(st))
    ensures var now := Begin(st);
            lines == Comments(now.initial) + (WriteTree(TreeOf(now.arena, 0), 0) + Comments(now.comments))
  {
    hide Linked, Preorder, WriteTree, Comments;
    if !st.started { NoneWritten(); }
  }

  /** An entry with its comments. */
  lemma EntryText(initial: seq<Line>, before: seq<Line>, comments: seq<Line>, line: Line)
    ensures initial + (before + (comments + [line])) == initial + (before + comments) + [line]
  {
  }

  lemma KeyKept(st: State, lines: seq<Line>, key: string, value: Value)
    requires Kept(st, lines) && Step(st, KeyValue(key, value)).errors == []
    ensures Kept(Step(st, KeyValue(key, value)), lines + [KeyValue(key, value)])
  {
    hide Linked, Preorder, WriteTree, Comments, HasKey, AddScalar;
    var now := Begin(st);
    BeginKept(st, lines);
    var s := Scalar(key, value, now.comments);
    var b := AddScalar(now.arena, now.cur, s);
    StepGood(st, KeyValue(key, value));
    AddScalarLinked(now.arena, now.cur, s);
    AddScalarRoot(now.arena, now.cur, s);
    SpineScalar(now.arena, b, 0, s, 0);
    EntryText(Comments(now.initial), WriteTree(TreeOf(now.arena, 0), 0), Comments(now.comments), KeyValue(key, value));
    NoneWritten();
  }

  lemma AddScalarRoot(arena: seq<Node>, at: nat, s: Scalar)
    requires at < |arena|
    ensures var b := AddScalar(arena, at, s);
            && |b| == |arena| && b[0].subs == arena[0].subs
            && (b[0].scalars != [] || b[0].subs != [] <==> at == 0 || arena[0].scalars != [] || arena[0].subs != [])
  {
  }

  /** A section below the root means that the root has one. */
  lemma RootHasSub(arena: seq<Node>)
    requires Linked(arena) && Preorder(arena, 0, |arena|) && |arena| > 1
    ensures arena[0].subs != []
  {
  }

  /** A marker that is accepted appends its lines, and its section is the newest. */
  lemma OpensSection(arena: seq<Node>, cur: nat, depth: nat, name: string, comments: seq<string>)
    requires Linked(arena) && Preorder(arena, 0, |arena|) && cur == |arena| - 1 && depth > 0
    requires ParentFor(arena, cur, depth).Ok?
    ensures var b := AddNode(arena, ParentFor(arena, cur, depth).value, name, comments);
            && Linked(b) && |b| == |arena| + 1 && Preorder(b, 0, |b|) && b[0].subs != []
            && WriteTree(TreeOf(b, 0), 0) == WriteTree(TreeOf(arena, 0), 0) + MarkerLines(depth, name, comments)
  {
    hide Linked, Preorder, WriteTree, MarkerLines, AddNode, ParentFor, OnSpine;
    var parent := ParentFor(arena, cur, depth).value;
    AddNodeLinked(arena, parent, name, comments);
    NewestOnSpine(arena, 0);
    ParentForOnSpine(arena, cur, depth);
    RootDepth(arena);
    SpineNode(arena, AddNode(arena, parent, name, comments), 0, parent, name, comments);
    RootHasSub(AddNode(arena, parent, name, comments));
  }

  lemma MarkerKept(st: State, lines: seq<Line>, depth: nat, name: string)
    requires Kept(st, lines) && depth > 0 && Step(st, Marker(depth, name)).errors == []
    ensures Kept(Step(st, Marker(depth, name)), lines + [Marker(depth, name)])
  {
    hide Linked, Preorder, WriteTree, TreeOf, Comments, HasKey, AddNode, ParentFor;
    var now := Begin(st);
    BeginKept(st, lines);
    OpensSection(now.arena, now.cur, depth, name, now.comments);
    EntryText(Comments(now.initial), WriteTree(TreeOf(now.arena, 0), 0), Comments(now.comments), Marker(depth, name));
    NoneWritten();
  }

  lemma RootDepth(arena: seq<Node>)
    requires Linked(arena)
    ensures arena[0].depth == 0
  {
  }

  lemma {:induction false} RunKept(st: State, before: seq<Line>, lines: seq<Line>)
    requires Kept(st, before) && Readable(lines) && Run(st, lines).errors == []
    ensures Kept(Run(st, lines), before + lines)
    decreases |lines|
  {
    hide Kept, Step, Linked;
    GoodIfKept(st, before);
    if lines == [] {
      assert before + lines == before;
    } else {
      RunStep(st, lines);
      var line, next := lines[0], Step(st, lines[0]);
      ErrorsGrow(next, lines[1..]);
      match line {
        case Comment(text) => CommentKept(st, before, text);
        case KeyValue(key, value) => KeyKept(st, before, key, value);
        case Marker(depth, name) => MarkerKept(st, before, depth, name);
      }
      RunKept(next, before + [line], lines[1..]);
      assert before + [line] + lines[1..] == before + lines;
    }
  }

  lemma GoodIfKept(st: State, lines: seq<Line>)
    requires Kept(st, lines)
    ensures Good(st)
  {
  }

  lemma FinishWritten(st: State, lines: seq<Line>)
    requires Kept(st, lines)
    ensures WriteConfig(Finish(st)) == lines
  {
    hide Linked, Preorder, WriteTree, Comments;
    RootEmpty(st.arena);
    NoneWritten();
  }

  /**
   Reading loses and moves nothing exactly when it reports no error: writing what was read gives back the very lines.
   */
  lemma ReadThenWrite(lines: seq<Line>)
    requires Readable(lines)
    ensures WriteConfig(Read(lines)) == lines <==> ReadErrors(lines) == []
  {
    hide Kept, Finish, WriteConfig, Run, Linked;
    if ReadErrors(lines) == [] {
      StartKept();
      StartGood();
      RunKept(START, [], lines);
      assert [] + lines == lines;
      FinishWritten(Run(START, lines), lines);
    } else {
      ReadWellFormed(lines);
      WriteThenRead(Read(lines));
    }
  }
}
