/** Reading the lines that `write` emits rebuilds the configuration: statements about ConfigTree. */
module ConfigTreeRoundTrip {
  import opened Prelude
  import opened ConfigQuote
  import opened ConfigTree

  // ---------------------------------------------------------------- well-formed configurations

  function ScalarKeys(scalars: seq<Scalar>): set<string> {
    set s | s in scalars :: s.key
  }

  function SubNames(f: Forest): set<string> {
    match f
    case NoSub => {}
    case Sub(name, _, _, next) => {name} + SubNames(next)
  }

  predicate DistinctScalars(scalars: seq<Scalar>) {
    forall i, j :: 0 <= i < j < |scalars| ==> scalars[i].key != scalars[j].key
  }

  /** The names used in a section are distinct, at every level. */
  predicate WellFormed(t: Tree)
    decreases t
  {
    DistinctScalars(t.scalars) && ScalarKeys(t.scalars) !! SubNames(t.subs) && WellFormedForest(t.subs)
  }

  predicate WellFormedForest(f: Forest)
    decreases f
  {
    match f
    case NoSub => true
    case Sub(name, _, body, next) => name !in SubNames(next) && WellFormed(body) && WellFormedForest(next)
  }

  // ---------------------------------------------------------------- reading a written section

  function NodeKeys(n: Node): set<string> {
    (set s | s in n.scalars :: s.key) + (set r | r in n.subs :: r.name)
  }

  lemma HasKeyIff(n: Node, key: string)
    ensures HasKey(n, key) <==> key in NodeKeys(n)
  {
    if key in NodeKeys(n) {
      if s :| s in n.scalars && s.key == key {
        var k :| 0 <= k < |n.scalars| && n.scalars[k] == s;
      } else {
        var r :| r in n.subs && r.name == key;
        var k :| 0 <= k < |n.subs| && n.subs[k] == r;
      }
    }
  }

  lemma {:induction false} RunConcat(st: State, a: seq<Line>, b: seq<Line>)
    requires Good(st) && Readable(a) && Readable(b)
    ensures Readable(a + b) && Run(st, a + b) == Run(Run(st, a), b)
    decreases |a|
  {
    hide Step, Linked;
    if a == [] {
      assert a + b == b;
    } else {
      StepGood(st, a[0]);
      assert (a + b)[0] == a[0] && (a + b)[1..] == a[1..] + b;
      RunConcat(Step(st, a[0]), a[1..], b);
    }
  }

  /** The reader is past the first entry and has no comment waiting. */
  ghost predicate Ready(st: State) {
    Good(st) && st.started && Pending(st) == []
  }

  /** The two states differ at most in how the comments waiting are represented. */
  ghost predicate Alike(a: State, b: State) {
    a.arena == b.arena && a.cur == b.cur && Pending(a) == Pending(b) && a.started == b.started
    && a.initial == b.initial && a.errors == b.errors
  }

  lemma {:induction false} RunComments(st: State, texts: seq<string>)
    requires Good(st)
    ensures Readable(Comments(texts))
    ensures Alike(Run(st, Comments(texts)), st.(comments := Pending(st) + texts, reset := false))
    decreases |texts|
  {
    hide Linked, ParentFor, HasKey, AddNode, AddScalar;
    var lines := Comments(texts);
    if texts == [] {
      assert Pending(st) + texts == Pending(st);
    } else {
      StepGood(st, lines[0]);
      var next := Step(st, lines[0]);
      assert lines[1..] == Comments(texts[1..]);
      RunComments(next, texts[1..]);
      assert Pending(next) + texts[1..] == Pending(st) + texts;
    }
  }

  /** Lines that are no comments read the same in states that are alike. */
  lemma StepAlike(a: State, b: State, line: Line)
    requires Good(a) && Good(b) && Alike(a, b) && !line.Comment? && (line.Marker? ==> line.depth > 0)
    ensures Step(a, line) == Step(b, line)
  {
    hide Linked, ParentFor, HasKey, AddNode, AddScalar;
  }

  /** The comments before an entry, then the entry. */
  lemma RunEntry(st: State, texts: seq<string>, line: Line) returns (next: State)
    requires Ready(st) && !line.Comment? && (line.Marker? ==> line.depth > 0)
    ensures Readable(Comments(texts) + [line])
    ensures next == Step(st.(comments := texts, reset := false), line) == Run(st, Comments(texts) + [line])
    ensures Good(next)
  {
    RunComments(st, texts);
    assert Pending(st) + texts == texts;
    var with := Run(st, Comments(texts));
    RunConcat(st, Comments(texts), [line]);
    StepAlike(with, st.(comments := texts, reset := false), line);
    next := Step(with, line);
    StepGood(with, line);
    assert [line][1..] == [];
    assert Run(next, []) == next;
  }

  // ---------------------------------------------------------------- a written section is rebuilt

  /** The section at or above `i` that is no deeper than `d`. */
  ghost function UpTo(arena: seq<Node>, i: nat, d: nat): (r: nat)
    requires Linked(arena) && i < |arena|
    ensures r < |arena|
    decreases i
  {
    if arena[i].depth <= d || arena[i].parent == i then i else UpTo(arena, arena[i].parent, d)
  }

  lemma {:induction false} MatchUnder(arena: seq<Node>, cur: nat, c: nat, d: nat)
    requires Linked(arena) && cur < |arena| && UpTo(arena, cur, d) == c && arena[c].depth == d && arena[cur].depth > d
    ensures MatchDepth(arena, cur, d + 1).Some? && arena[MatchDepth(arena, cur, d + 1).value].parent == c
    decreases cur
  {
    if arena[cur].depth > d + 1 { MatchUnder(arena, arena[cur].parent, c, d); }
  }

  /** A marker one level below section `c` opens a subsection of `c`, however deep below `c` the reader is. */
  lemma MarkerParent(arena: seq<Node>, cur: nat, c: nat, d: nat)
    requires Linked(arena) && cur < |arena| && UpTo(arena, cur, d) == c && arena[c].depth == d
    ensures ParentFor(arena, cur, d + 1) == Ok(c)
  {
    if arena[cur].depth > d { MatchUnder(arena, cur, c, d); }
  }

  /** The tree of a section depends on no section before it. */
  lemma {:induction false} TreeFrame(a: seq<Node>, b: seq<Node>, i: nat)
    requires Linked(a) && Linked(b) && i < |a| <= |b| && forall k :: i <= k < |a| ==> a[k] == b[k]
    ensures TreeOf(a, i) == TreeOf(b, i)
    decreases |a| - i, 1, 0
  {
    ForestFrame(a, b, i, a[i].subs);
  }

  lemma {:induction false} ForestFrame(a: seq<Node>, b: seq<Node>, i: nat, refs: seq<SubRef>)
    requires Linked(a) && Linked(b) && i < |a| <= |b| && forall k :: i < k < |a| ==> a[k] == b[k]
    requires RefsAbove(refs, i, |a|)
    ensures ForestOf(a, i, refs) == ForestOf(b, i, refs)
    decreases |a| - i, 0, |refs|
  {
    if refs != [] {
      TreeFrame(a, b, refs[0].node);
      ForestFrame(a, b, i, refs[1..]);
    }
  }

  /** Reading went from `st` to `now` and touched, of the sections there were, at most `c`. */
  ghost predicate Extends(st: State, now: State, c: nat)
    requires Good(st) && c < |st.arena|
  {
    && Ready(now) && |st.arena| <= |now.arena| && now.initial == st.initial && now.errors == st.errors
    && (forall i :: 0 <= i < |st.arena| && i != c ==> now.arena[i] == st.arena[i])
    && now.arena[c].parent == st.arena[c].parent && now.arena[c].depth == st.arena[c].depth
    && UpTo(now.arena, now.cur, st.arena[c].depth) == c
  }

  lemma ScalarStep(st: State, s: Scalar) returns (next: State)
    requires Ready(st) && s.key !in NodeKeys(st.arena[st.cur])
    ensures Readable(Comments(s.comments) + [KeyValue(s.key, s.value)])
    ensures next == Run(st, Comments(s.comments) + [KeyValue(s.key, s.value)])
    ensures Ready(next) && next.cur == st.cur && next.initial == st.initial && next.errors == st.errors
    ensures next.arena == AddScalar(st.arena, st.cur, s)
  {
    next := RunEntry(st, s.comments, KeyValue(s.key, s.value));
    HasKeyIff(st.arena[st.cur], s.key);
  }

  lemma {:induction false} RunScalars(st: State, scalars: seq<Scalar>) returns (next: State)
    requires Ready(st) && DistinctScalars(scalars) && ScalarKeys(scalars) !! NodeKeys(st.arena[st.cur])
    ensures Readable(WriteScalars(scalars)) && next == Run(st, WriteScalars(scalars))
    ensures Ready(next) && next.cur == st.cur && next.initial == st.initial && next.errors == st.errors
    ensures next.arena == st.arena[st.cur := st.arena[st.cur].(scalars := st.arena[st.cur].scalars + scalars)]
    decreases |scalars|
  {
    hide Linked, Step, HasKey, Comments, NodeKeys, ScalarKeys, DistinctScalars, WriteScalars;
    var node := st.arena[st.cur];
    if scalars == [] {
      next := st;
      NothingToWrite();
      assert node.(scalars := node.scalars + scalars) == node;
    } else {
      var s, rest := scalars[0], scalars[1..];
      KeysSplit(scalars, node);
      var one := ScalarStep(st, s);
      next := RunScalars(one, rest);
      ScalarWritten(scalars);
      RunConcat(st, Comments(s.comments) + [KeyValue(s.key, s.value)], WriteScalars(rest));
      assert node.scalars + [s] + rest == node.scalars + scalars;
    }
  }

  lemma NothingToWrite()
    ensures WriteScalars([]) == []
  {
  }

  lemma KeysSplit(scalars: seq<Scalar>, node: Node)
    requires scalars != [] && DistinctScalars(scalars) && ScalarKeys(scalars) !! NodeKeys(node)
    ensures scalars[0].key !in NodeKeys(node) && DistinctScalars(scalars[1..])
    ensures ScalarKeys(scalars[1..]) !! NodeKeys(node.(scalars := node.scalars + [scalars[0]]))
  {
    assert scalars[0] in scalars && scalars[0].key in ScalarKeys(scalars);
    var more := node.(scalars := node.scalars + [scalars[0]]);
    forall key | key in ScalarKeys(scalars[1..])
      ensures key !in NodeKeys(more)
    {
      var s :| s in scalars[1..] && s.key == key;
      assert s in scalars && key in ScalarKeys(scalars);
    }
  }

  lemma {:induction false} UpToParent(arena: seq<Node>, cur: nat, n: nat, d: nat)
    requires Linked(arena) && cur < |arena| && UpTo(arena, cur, d + 1) == n && n > 0 && arena[n].depth == d + 1
    ensures UpTo(arena, cur, d) == arena[n].parent
    decreases cur
  {
    if cur != n {
      UpToParent(arena, arena[cur].parent, n, d);
    }
  }

  lemma ExtendsTrans(st: State, mid: State, now: State, c: nat)
    requires Good(st) && c < |st.arena| && Extends(st, mid, c) && Extends(mid, now, c)
    ensures Extends(st, now, c)
  {
    hide Linked, Ready;
  }

  lemma MarkerStep(st: State, c: nat, name: string, comments: seq<string>) returns (next: State)
    requires Ready(st) && c < |st.arena| && UpTo(st.arena, st.cur, st.arena[c].depth) == c
    requires name !in NodeKeys(st.arena[c])
    ensures Readable(Comments(comments) + [Marker(st.arena[c].depth + 1, name)])
    ensures next == Run(st, Comments(comments) + [Marker(st.arena[c].depth + 1, name)])
    ensures Ready(next) && next.initial == st.initial && next.errors == st.errors
    ensures next.arena == AddNode(st.arena, c, name, comments) && next.cur == |st.arena|
  {
    hide Linked, AddNode;
    next := RunEntry(st, comments, Marker(st.arena[c].depth + 1, name));
    MarkerParent(st.arena, st.cur, c, st.arena[c].depth);
    HasKeyIff(st.arena[c], name);
  }

  lemma NodeKeysGrow(node: Node, ref: SubRef)
    ensures NodeKeys(node.(subs := node.subs + [ref])) == NodeKeys(node) + {ref.name}
  {
  }

  /** A subsection was opened and filled: section `c` got one more reference, and nothing else before it changed. */
  lemma SubDone(st: State, one: State, two: State, c: nat, name: string, comments: seq<string>)
    requires Ready(st) && c < |st.arena| && Ready(one)
    requires one.arena == AddNode(st.arena, c, name, comments) && one.cur == |st.arena|
    requires one.initial == st.initial && one.errors == st.errors && Extends(one, two, |st.arena|)
    ensures Extends(st, two, c) && c < |st.arena| < |two.arena|
    ensures Ready(two) && UpTo(two.arena, two.cur, two.arena[c].depth) == c
    ensures two.arena[c] == st.arena[c].(subs := st.arena[c].subs + [SubRef(name, comments, |st.arena|)])
  {
    hide Linked;
    var n := |st.arena|;
    assert one.arena[n] == Node(c, st.arena[c].depth + 1, [], []);
    assert two.arena[n].parent == c && two.arena[n].depth == st.arena[c].depth + 1;
    UpToParent(two.arena, two.cur, n, st.arena[c].depth);
  }

  /** The lines of a section, read where that section has just been opened, fill in exactly that section. */
  lemma {:induction false} RunTree(st: State, c: nat, t: Tree) returns (next: State)
    requires Ready(st) && st.cur == c && WellFormed(t) && st.arena[c].scalars == [] && st.arena[c].subs == []
    ensures Readable(WriteTree(t, st.arena[c].depth)) && next == Run(st, WriteTree(t, st.arena[c].depth))
    ensures Extends(st, next, c) && TreeOf(next.arena, c) == t
    decreases t
  {
    hide Linked, HasKey, Comments, WriteTree, WriteForest, WriteScalars, Run, Step, ScalarKeys, SubNames;
    var d := st.arena[c].depth;
    assert NodeKeys(st.arena[c]) == {};
    var mid := RunScalars(st, t.scalars);
    assert [] + t.scalars == t.scalars;
    assert Extends(st, mid, c);
    KeysApart(t, mid.arena[c]);
    var refs;
    next, refs := RunForest(mid, c, t.subs);
    ExtendsTrans(st, mid, next, c);
    WrittenEnd(t, d);
    RunConcat(st, WriteScalars(t.scalars), WriteForest(t.subs, d + 1));
    assert next.arena[c].subs == [] + refs == refs;
  }

  lemma KeysApart(t: Tree, node: Node)
    requires WellFormed(t) && node.scalars == t.scalars && node.subs == []
    ensures SubNames(t.subs) !! NodeKeys(node) && WellFormedForest(t.subs)
  {
    assert NodeKeys(node) == ScalarKeys(t.scalars);
  }

  lemma {:induction false} RunForest(st: State, c: nat, f: Forest) returns (next: State, refs: seq<SubRef>)
    requires Ready(st) && c < |st.arena| && UpTo(st.arena, st.cur, st.arena[c].depth) == c
    requires WellFormedForest(f) && SubNames(f) !! NodeKeys(st.arena[c])
    ensures Readable(WriteForest(f, st.arena[c].depth + 1)) && next == Run(st, WriteForest(f, st.arena[c].depth + 1))
    ensures Extends(st, next, c) && next.arena[c] == st.arena[c].(subs := st.arena[c].subs + refs)
    ensures RefsAbove(refs, c, |next.arena|) && ForestOf(next.arena, c, refs) == f
    decreases f, 1
  {
    hide Linked, HasKey, Comments, WriteTree, WriteForest, WriteScalars, Run, Step, NodeKeys, WellFormed;
    var d := st.arena[c].depth;
    match f {
      case NoSub =>
        next, refs := st, [];
        NothingWritten(d + 1);
        RunNothing(st);
        assert st.arena[c].subs + refs == st.arena[c].subs;
      case Sub(name, comments, body, more) =>
        var ref := SubRef(name, comments, |st.arena|);
        var two := RunSub(st, c, f);
        var rest;
        next, rest := RunForest(two, c, more);
        refs := [ref] + rest;
        ExtendsTrans(st, two, next, c);
        ForestGrows(two, next, c, ref, rest);
        SubWritten(f, d + 1);
        RunConcat(st, Comments(comments) + [Marker(d + 1, name)] + WriteTree(body, d + 1), WriteForest(more, d + 1));
        assert st.arena[c].subs + [ref] + rest == st.arena[c].subs + refs;
    }
  }

  /** One subsection: its comments, its marker and its lines. */
  lemma {:induction false} RunSub(st: State, c: nat, f: Forest) returns (two: State)
    requires Ready(st) && c < |st.arena| && UpTo(st.arena, st.cur, st.arena[c].depth) == c
    requires f.Sub? && WellFormedForest(f) && SubNames(f) !! NodeKeys(st.arena[c])
    ensures var d := st.arena[c].depth;
            var lines := Comments(f.comments) + [Marker(d + 1, f.name)] + WriteTree(f.body, d + 1);
            Readable(lines) && two == Run(st, lines)
    ensures Extends(st, two, c) && c < |st.arena| < |two.arena| && Ready(two)
    ensures UpTo(two.arena, two.cur, two.arena[c].depth) == c
    ensures two.arena[c] == st.arena[c].(subs := st.arena[c].subs + [SubRef(f.name, f.comments, |st.arena|)])
    ensures SubNames(f.next) !! NodeKeys(two.arena[c]) && TreeOf(two.arena, |st.arena|) == f.body
    decreases f, 0
  {
    hide Linked, HasKey, Comments, WriteTree, WriteForest, WriteScalars, Run, Step, NodeKeys, WellFormed, Extends, UpTo;
    var d, n := st.arena[c].depth, |st.arena|;
    var one := MarkerStep(st, c, f.name, f.comments);
    two := RunTree(one, n, f.body);
    SubDone(st, one, two, c, f.name, f.comments);
    NodeKeysGrow(st.arena[c], SubRef(f.name, f.comments, n));
    RunConcat(st, Comments(f.comments) + [Marker(d + 1, f.name)], WriteTree(f.body, d + 1));
  }

  lemma RunNothing(st: State)
    requires Good(st)
    ensures Run(st, []) == st
  {
  }

  lemma ForestGrows(two: State, next: State, c: nat, ref: SubRef, rest: seq<SubRef>)
    requires Good(two) && c < ref.node < |two.arena| && Extends(two, next, c) && RefsAbove(rest, c, |next.arena|)
    ensures RefsAbove([ref] + rest, c, |next.arena|)
    ensures ForestOf(next.arena, c, [ref] + rest)
         == Sub(ref.name, ref.comments, TreeOf(two.arena, ref.node), ForestOf(next.arena, c, rest))
  {
    TreeFrame(two.arena, next.arena, ref.node);
    assert ([ref] + rest)[1..] == rest;
  }

  // ---------------------------------------------------------------- whole configurations

  /** The first entry written, if there is one, has no comments, and an empty configuration has no final comment. */
  predicate FirstEntryBare(c: Config) {
    if c.root.scalars != [] then c.root.scalars[0].comments == []
    else if c.root.subs.Sub? then c.root.subs.comments == []
    else c.final == []
  }

  /** The comments before the first entry belong to the initial comment once they are read back. */
  function Normalize(c: Config): (r: Config)
    ensures FirstEntryBare(r)
  {
    if c.root.scalars != [] then
      var s := c.root.scalars[0];
      c.(initial := c.initial + s.comments, root := c.root.(scalars := [s.(comments := [])] + c.root.scalars[1..]))
    else if c.root.subs.Sub? then
      c.(initial := c.initial + c.root.subs.comments, root := c.root.(subs := c.root.subs.(comments := [])))
    else c.(initial := c.initial + c.final, final := [])
  }

  lemma {:induction false} CommentsConcat(a: seq<string>, b: seq<string>)
    ensures Comments(a + b) == Comments(a) + Comments(b)
  {
  }

  lemma NoComments()
    ensures Comments([]) == []
  {
  }

  lemma Regroup(a: seq<Line>, line: Line, b: seq<Line>, c: seq<Line>)
    ensures a + [line] + b + c == a + ([] + [line] + b + c)
  {
  }

  lemma FirstScalar(t: Tree, depth: nat)
    requires t.scalars != []
    ensures var s := t.scalars[0];
            WriteTree(t, depth) ==
              Comments(s.comments) + WriteTree(t.(scalars := [s.(comments := [])] + t.scalars[1..]), depth)
  {
    hide Comments, WriteScalars, WriteForest, WriteTree;
    var s := t.scalars[0];
    var bare := [s.(comments := [])] + t.scalars[1..];
    ScalarWritten(t.scalars);
    ScalarWritten(bare);
    assert bare[1..] == t.scalars[1..];
    NoComments();
    WrittenEnd(t, depth);
    WrittenEnd(t.(scalars := bare), depth);
    Regroup(Comments(s.comments), KeyValue(s.key, s.value), WriteScalars(t.scalars[1..]),
            WriteForest(t.subs, depth + 1));
  }

  lemma FirstSub(t: Tree, depth: nat)
    requires t.scalars == [] && t.subs.Sub?
    ensures WriteTree(t, depth) == Comments(t.subs.comments) + WriteTree(t.(subs := t.subs.(comments := [])), depth)
  {
    hide Comments, WriteScalars, WriteForest, WriteTree;
    var bare := t.(subs := t.subs.(comments := []));
    SubWritten(t.subs, depth + 1);
    SubWritten(bare.subs, depth + 1);
    NoComments();
    WrittenEnd(t, depth);
    WrittenEnd(bare, depth);
    var f := t.subs;
    Regroup(Comments(f.comments), Marker(depth + 1, f.name), WriteTree(f.body, depth + 1),
            WriteForest(f.next, depth + 1));
    assert [] + WriteForest(f, depth + 1) == WriteForest(f, depth + 1);
    assert [] + WriteForest(bare.subs, depth + 1) == WriteForest(bare.subs, depth + 1);
  }

  /** Moving those comments changes no line. */
  lemma NormalizeSameLines(c: Config)
    ensures WriteConfig(Normalize(c)) == WriteConfig(c)
  {
    hide Comments, WriteTree;
    if c.root.scalars != [] {
      CommentsConcat(c.initial, c.root.scalars[0].comments);
      FirstScalar(c.root, 0);
    } else if c.root.subs.Sub? {
      CommentsConcat(c.initial, c.root.subs.comments);
      FirstSub(c.root, 0);
    } else {
      CommentsConcat(c.initial, c.final);
      NoComments();
      WrittenEnd(c.root, 0);
      NothingWritten(1);
    }
  }

  /** Where the reader stands once the initial comment is read, as if the first entry had already been met. */
  function Opened(initial: seq<string>): State {
    START.(started := true, reset := true, initial := initial)
  }

  lemma FirstEntryOpens(st: State, initial: seq<string>, line: Line)
    requires Good(st) && Alike(st, START.(comments := initial, reset := false)) && !line.Comment?
    requires line.Marker? ==> line.depth > 0
    ensures Good(Opened(initial)) && Step(st, line) == Step(Opened(initial), line)
  {
    hide Linked, HasKey, AddNode, AddScalar, ParentFor;
    ReadyOpened(initial);
  }

  lemma FirstLine(initial: seq<string>, lines: seq<Line>)
    requires Readable(lines) && lines != [] && !lines[0].Comment?
    ensures Readable(Comments(initial) + lines)
    ensures Good(Opened(initial)) && Run(START, Comments(initial) + lines) == Run(Opened(initial), lines)
  {
    hide Linked, Step, Comments;
    StartGood();
    RunComments(START, initial);
    assert [] + initial == initial;
    var st := Run(START, Comments(initial));
    RunConcat(START, Comments(initial), lines);
    FirstEntryOpens(st, initial, lines[0]);
  }

  lemma ReadyOpened(initial: seq<string>)
    ensures Ready(Opened(initial))
  {
  }

  lemma Ending(st: State, final: seq<string>)
    requires Ready(st) && !(TreeOf(st.arena, 0) == Tree([], NoSub) && st.initial == [])
    ensures Readable(Comments(final))
    ensures Finish(Run(st, Comments(final))) == Config(st.initial, TreeOf(st.arena, 0), final)
    ensures Run(st, Comments(final)).errors == st.errors
  {
    RunComments(st, final);
    assert Pending(st) + final == final;
  }

  predicate NotEmpty(t: Tree) {
    t.scalars != [] || t.subs.Sub?
  }

  lemma FirstLineIsEntry(t: Tree)
    requires NotEmpty(t)
    requires if t.scalars != [] then t.scalars[0].comments == [] else t.subs.comments == []
    ensures WriteTree(t, 0) != [] && !WriteTree(t, 0)[0].Comment?
  {
    assert Comments([]) == [];
    WrittenEnd(t, 0);
  }

  /** The body of a configuration whose first entry has no comments. */
  lemma BodyRead(c: Config) returns (st: State)
    requires WellFormed(c.root) && NotEmpty(c.root) && FirstEntryBare(c)
    ensures Readable(WriteConfig(c)) && Readable(Comments(c.final))
    ensures Ready(st) && TreeOf(st.arena, 0) == c.root && st.initial == c.initial && st.errors == []
    ensures Run(START, WriteConfig(c)) == Run(st, Comments(c.final))
  {
    hide WriteTree, Comments, Linked, Step, Run, TreeOf, Ready, WellFormed;
    var open := Opened(c.initial);
    ReadyOpened(c.initial);
    FirstLineIsEntry(c.root);
    st := RunTree(open, 0, c.root);
    ExtendsReady(open, st, 0);
    RunComments(st, c.final);
    ConfigRead(c, st);
  }

  lemma ExtendsReady(st: State, now: State, c: nat)
    requires Good(st) && c < |st.arena| && Extends(st, now, c)
    ensures Ready(now) && Good(now) && now.initial == st.initial && now.errors == st.errors
  {
  }

  lemma ConfigRead(c: Config, st: State)
    requires Readable(WriteTree(c.root, 0)) && Good(Opened(c.initial))
    requires st == Run(Opened(c.initial), WriteTree(c.root, 0))
    requires WriteTree(c.root, 0) != [] && !WriteTree(c.root, 0)[0].Comment?
    requires Readable(Comments(c.final)) && Good(st)
    ensures Readable(WriteConfig(c)) && Run(START, WriteConfig(c)) == Run(st, Comments(c.final))
  {
    hide WriteTree, Comments, Linked, Step, Run;
    StartGood();
    var lines := WriteTree(c.root, 0);
    FirstLine(c.initial, lines);
    RunConcat(START, Comments(c.initial) + lines, Comments(c.final));
    assert WriteConfig(c) == Comments(c.initial) + lines + Comments(c.final);
  }

  lemma EmptyRead(c: Config)
    requires !NotEmpty(c.root) && FirstEntryBare(c)
    ensures Readable(WriteConfig(c)) && ReadErrors(WriteConfig(c)) == [] && Read(WriteConfig(c)) == c
  {
    WrittenEnd(c.root, 0);
    NothingWritten(1);
    assert Comments([]) == [];
    assert WriteConfig(c) == Comments(c.initial);
    RunComments(START, c.initial);
    assert [] + c.initial == c.initial;
    assert TreeOf(START.arena, 0) == Tree([], NoSub);
  }

  lemma BareRoundTrip(c: Config)
    requires WellFormed(c.root) && FirstEntryBare(c)
    ensures Readable(WriteConfig(c)) && ReadErrors(WriteConfig(c)) == [] && Read(WriteConfig(c)) == c
  {
    if NotEmpty(c.root) {
      var st := BodyRead(c);
      Ending(st, c.final);
    } else {
      EmptyRead(c);
    }
  }

  lemma NormalizeWellFormed(c: Config)
    requires WellFormed(c.root)
    ensures WellFormed(Normalize(c).root)
  {
    if c.root.scalars != [] {
      var n := Normalize(c).root;
      assert forall i :: 0 <= i < |n.scalars| ==> n.scalars[i].key == c.root.scalars[i].key;
      assert ScalarKeys(n.scalars) == ScalarKeys(c.root.scalars) by {
        forall key
          ensures key in ScalarKeys(n.scalars) <==> key in ScalarKeys(c.root.scalars)
        {
          if s :| s in n.scalars && s.key == key {
            var i :| 0 <= i < |n.scalars| && n.scalars[i] == s;
            assert c.root.scalars[i].key == key;
          }
          if s :| s in c.root.scalars && s.key == key {
            var i :| 0 <= i < |c.root.scalars| && c.root.scalars[i] == s;
            assert n.scalars[i].key == key;
          }
        }
      }
    }
  }

  /**
   Reading what was written raises no error and rebuilds every section, in order and with its comments; only the
   comments before the first entry have moved to the initial comment.
   */
  lemma WriteThenRead(c: Config)
    requires WellFormed(c.root)
    ensures Readable(WriteConfig(c)) && ReadErrors(WriteConfig(c)) == [] && Read(WriteConfig(c)) == Normalize(c)
  {
    NormalizeSameLines(c);
    NormalizeWellFormed(c);
    BareRoundTrip(Normalize(c));
  }

  /** A configuration is rebuilt exactly when its first entry has no comments. */
  lemma RoundTripExactly(c: Config)
    requires WellFormed(c.root)
    ensures Readable(WriteConfig(c)) && (Read(WriteConfig(c)) == c <==> FirstEntryBare(c))
  {
    WriteThenRead(c);
    if FirstEntryBare(c) { BareRoundTrip(c); }
  }

  // ---------------------------------------------------------------- reading any lines

  ghost predicate NodeOk(n: Node) {
    && DistinctScalars(n.scalars)
    && (forall i, j :: 0 <= i < j < |n.subs| ==> n.subs[i].name != n.subs[j].name)
    && (forall i, j :: 0 <= i < |n.scalars| && 0 <= j < |n.subs| ==> n.scalars[i].key != n.subs[j].name)
  }

  ghost predicate Safe(st: State) {
    Good(st) && NoNestingLevel !in st.errors && forall i :: 0 <= i < |st.arena| ==> NodeOk(st.arena[i])
  }

  lemma AddSubOk(n: Node, ref: SubRef)
    requires NodeOk(n) && !HasKey(n, ref.name)
    ensures NodeOk(n.(subs := n.subs + [ref]))
  {
  }

  lemma AddScalarOk(n: Node, s: Scalar)
    requires NodeOk(n) && !HasKey(n, s.key)
    ensures NodeOk(n.(scalars := n.scalars + [s]))
  {
  }

  lemma NestingLevelFound(arena: seq<Node>, cur: nat, depth: nat)
    requires Linked(arena) && cur < |arena| && depth > 0
    ensures ParentFor(arena, cur, depth) != Err(NoNestingLevel)
  {
    if depth < arena[cur].depth { MatchDepthFinds(arena, cur, depth); }
  }

  lemma StepSafe(st: State, line: Line)
    requires Safe(st) && (line.Marker? ==> line.depth > 0)
    ensures Safe(Step(st, line))
  {
    hide Linked, HasKey, NodeOk, ParentFor;
    StepGood(st, line);
    var now := Begin(st);
    match line {
      case Comment(_) =>
      case KeyValue(key, value) =>
        if !HasKey(now.arena[now.cur], key) { AddScalarOk(now.arena[now.cur], Scalar(key, value, now.comments)); }
      case Marker(depth, name) =>
        NestingLevelFound(now.arena, now.cur, depth);
        match ParentFor(now.arena, now.cur, depth) {
          case Err(_) =>
          case Ok(parent) =>
            EmptyNodeOk(parent, now.arena[parent].depth + 1);
            if !HasKey(now.arena[parent], name) {
              AddSubOk(now.arena[parent], SubRef(name, now.comments, |now.arena|));
            }
        }
    }
  }

  lemma EmptyNodeOk(parent: nat, depth: nat)
    ensures NodeOk(Node(parent, depth, [], []))
  {
  }

  /** Whatever the lines, the reader never fails to find a nesting level and never lets two entries share a name. */
  lemma {:induction false} RunSafe(st: State, lines: seq<Line>)
    requires Safe(st) && Readable(lines)
    ensures Safe(Run(st, lines))
    decreases |lines|
  {
    hide Linked, Step, NodeOk;
    if lines != [] {
      StepSafe(st, lines[0]);
      RunSafe(Step(st, lines[0]), lines[1..]);
    }
  }

  function RefNames(refs: seq<SubRef>): set<string> {
    set r | r in refs :: r.name
  }

  lemma {:induction false} TreeOk(arena: seq<Node>, i: nat)
    requires Linked(arena) && i < |arena| && forall k :: 0 <= k < |arena| ==> NodeOk(arena[k])
    ensures WellFormed(TreeOf(arena, i))
    decreases |arena| - i, 1, 0
  {
    var n := arena[i];
    assert NodeOk(n);
    ForestOk(arena, i, n.subs);
    assert ScalarKeys(n.scalars) !! RefNames(n.subs);
  }

  lemma {:induction false} ForestOk(arena: seq<Node>, lo: nat, refs: seq<SubRef>)
    requires Linked(arena) && lo < |arena| && RefsAbove(refs, lo, |arena|)
    requires forall k :: 0 <= k < |arena| ==> NodeOk(arena[k])
    requires forall i, j :: 0 <= i < j < |refs| ==> refs[i].name != refs[j].name
    ensures WellFormedForest(ForestOf(arena, lo, refs)) && SubNames(ForestOf(arena, lo, refs)) == RefNames(refs)
    decreases |arena| - lo, 0, |refs|
  {
    if refs != [] {
      TreeOk(arena, refs[0].node);
      ForestOk(arena, lo, refs[1..]);
      assert refs == [refs[0]] + refs[1..];
    }
  }

  // ---------------------------------------------------------------- the first entry of what was read

  /** The first line that is no comment is a marker more than one level deep, which no section can take. */
  predicate StartsNested(lines: seq<Line>) {
    lines != [] && match lines[0]
      case Comment(_) => StartsNested(lines[1..])
      case Marker(depth, _) => depth > 1
      case KeyValue(_, _) => false
  }

  /** The root's first entry has no comments and will stay the first one. */
  ghost predicate FirstBare(st: State)
    requires Good(st)
  {
    var root := st.arena[0];
    if root.scalars != [] then root.scalars[0].comments == []
    else st.cur != 0 && root.subs != [] && root.subs[0].comments == []
  }

  lemma StepBare(st: State, line: Line)
    requires Good(st) && FirstBare(st) && (line.Marker? ==> line.depth > 0)
    ensures Good(Step(st, line)) && FirstBare(Step(st, line)) && st.errors <= Step(st, line).errors
  {
    hide Linked, HasKey, ParentFor;
    StepGood(st, line);
  }

  lemma {:induction false} RunBare(st: State, lines: seq<Line>)
    requires Good(st) && Readable(lines) && FirstBare(st)
    ensures FirstBare(Run(st, lines))
    decreases |lines|
  {
    hide Linked, Step, FirstBare;
    if lines != [] {
      StepBare(st, lines[0]);
      RunBare(Step(st, lines[0]), lines[1..]);
    }
  }

  lemma {:induction false} ErrorsGrow(st: State, lines: seq<Line>)
    requires Good(st) && Readable(lines)
    ensures st.errors <= Run(st, lines).errors
    decreases |lines|
  {
    hide Linked, Step;
    if lines != [] {
      StepGood(st, lines[0]);
      StepErrors(st, lines[0]);
      ErrorsGrow(Step(st, lines[0]), lines[1..]);
    }
  }

  lemma StepErrors(st: State, line: Line)
    requires Good(st) && (line.Marker? ==> line.depth > 0)
    ensures st.errors <= Step(st, line).errors
  {
    hide Linked, HasKey, ParentFor, AddNode, AddScalar;
  }

  lemma {:induction false} LeadingComments(lines: seq<Line>) returns (texts: seq<string>, rest: seq<Line>)
    ensures lines == Comments(texts) + rest && (rest != [] ==> !rest[0].Comment?)
    ensures StartsNested(lines) <==> rest != [] && rest[0].Marker? && rest[0].depth > 1
  {
    if lines != [] && lines[0].Comment? {
      texts, rest := LeadingComments(lines[1..]);
      assert lines == [lines[0]] + lines[1..];
      texts := [lines[0].text] + texts;
    } else {
      texts, rest := [], lines;
      assert Comments([]) + lines == lines;
    }
  }

  lemma FirstStep(initial: seq<string>, line: Line)
    requires !line.Comment? && (line.Marker? ==> line.depth > 0) && Good(Opened(initial))
    ensures Good(Step(Opened(initial), line))
    ensures if line.Marker? && line.depth > 1 then Step(Opened(initial), line).errors == [TooNested]
            else FirstBare(Step(Opened(initial), line))
  {
    hide Linked;
    StepGood(Opened(initial), line);
  }

  lemma FinishBare(st: State)
    requires Good(st) && FirstBare(st)
    ensures FirstEntryBare(Finish(st))
  {
    var subs := st.arena[0].subs;
    assert TreeOf(st.arena, 0) == Tree(st.arena[0].scalars, ForestOf(st.arena, 0, subs));
    if subs != [] { assert ForestOf(st.arena, 0, subs).comments == subs[0].comments; }
  }

  lemma CommentsOnly(texts: seq<string>)
    ensures Readable(Comments(texts)) && FirstEntryBare(Read(Comments(texts)))
  {
    StartGood();
    RunComments(START, texts);
    assert TreeOf(START.arena, 0) == Tree([], NoSub);
  }

  lemma FirstReadBare(texts: seq<string>, rest: seq<Line>)
    requires Readable(rest) && rest != [] && !rest[0].Comment?
    ensures Readable(Comments(texts) + rest)
    ensures if rest[0].Marker? && rest[0].depth > 1 then ReadErrors(Comments(texts) + rest) != []
            else FirstEntryBare(Read(Comments(texts) + rest))
  {
    hide Linked, Step, Comments, Finish, Run, FirstBare, FirstEntryBare;
    FirstLine(texts, rest);
    FirstStep(texts, rest[0]);
    RunStep(Opened(texts), rest);
    var st := Step(Opened(texts), rest[0]);
    if rest[0].Marker? && rest[0].depth > 1 {
      ErrorsGrow(st, rest[1..]);
    } else {
      RunBare(st, rest[1..]);
      FinishBare(Run(st, rest[1..]));
    }
  }

  /** Unless the first line is nested too deep, what is read has no comments in front of its first entry: they are in
      the initial comment. Lines read without an error are of that kind. */
  lemma ReadsFirstBare(lines: seq<Line>)
    requires Readable(lines)
    ensures if StartsNested(lines) then ReadErrors(lines) != [] else FirstEntryBare(Read(lines))
  {
    hide FirstEntryBare, Read, ReadErrors, Comments;
    var texts, rest := LeadingComments(lines);
    if rest == [] {
      CommentsOnly(texts);
      assert Comments(texts) + [] == Comments(texts);
    } else {
      assert forall i :: 0 <= i < |rest| ==> rest[i] == lines[|Comments(texts)| + i];
      FirstReadBare(texts, rest);
    }
  }

  lemma ReadWellFormed(lines: seq<Line>)
    requires Readable(lines)
    ensures NoNestingLevel !in ReadErrors(lines) && WellFormed(Read(lines).root)
  {
    assert Safe(START) by { StartGood(); }
    RunSafe(START, lines);
    TreeOk(Run(START, lines).arena, 0);
  }

  /**
   Any lines at all: no nesting level is missed. Lines that were read without an error, or that do not start nested
   too deep, are read into a configuration that writing and reading again does not change. After other lines one such
   pass moves the comments before the first entry, unless there are none, and a further pass changes nothing.
   */
  lemma ReadIsStable(lines: seq<Line>)
    requires Readable(lines)
    ensures NoNestingLevel !in ReadErrors(lines) && WellFormed(Read(lines).root)
    ensures var c := Read(lines);
            && Readable(WriteConfig(c)) && ReadErrors(WriteConfig(c)) == []
            && (ReadErrors(lines) == [] || !StartsNested(lines) ==> Read(WriteConfig(c)) == c)
            && (Read(WriteConfig(c)) == c <==> FirstEntryBare(c))
            && Read(WriteConfig(c)) == Normalize(c)
    ensures var c := Normalize(Read(lines));
            Readable(WriteConfig(c)) && Read(WriteConfig(c)) == c
  {
    hide FirstEntryBare, Read, ReadErrors, WriteConfig, Normalize, WellFormed;
    ReadWellFormed(lines);
    var c := Read(lines);
    WriteThenRead(c);
    RoundTripExactly(c);
    ReadsFirstBare(lines);
    NormalizeSameLines(c);
  }

  // ---------------------------------------------------------------- where a configuration changes

  lemma KeyAlone(initial: seq<string>, key: string, value: Value, comments: seq<string>)
    ensures WellFormed(Tree([Scalar(key, value, comments)], NoSub))
    ensures Normalize(Config(initial, Tree([Scalar(key, value, comments)], NoSub), []))
         == Config(initial + comments, Tree([Scalar(key, value, [])], NoSub), [])
  {
    var s := Scalar(key, value, comments);
    assert [s][1..] == [] && [s.(comments := [])] + [] == [s.(comments := [])];
  }

  /** A configuration of one key with a comment of its own comes back with that comment in front of everything. */
  lemma FirstCommentMoves(value: Value)
    ensures var c := Config([], Tree([Scalar("k", value, ["# c"])], NoSub), []);
            && Readable(WriteConfig(c))
            && Read(WriteConfig(c)) == Config(["# c"], Tree([Scalar("k", value, [])], NoSub), [])
  {
    hide Read, WriteConfig, WellFormed, Normalize;
    KeyAlone([], "k", value, ["# c"]);
    WriteThenRead(Config([], Tree([Scalar("k", value, ["# c"])], NoSub), []));
    assert [] + ["# c"] == ["# c"];
  }

  /** A first marker two levels deep is refused, and the comment behind it stays with the key it precedes: writing and
      reading what was read moves it. */
  lemma NestedStartMoves(value: Value)
    ensures var lines := [Marker(2, "x"), Comment("# c"), KeyValue("k", value)];
            && Readable(lines) && ReadErrors(lines) == [TooNested]
            && var c := Read(lines); Readable(WriteConfig(c)) && Read(WriteConfig(c)) != c
  {
    var lines := [Marker(2, "x"), Comment("# c"), KeyValue("k", value)];
    NestedStart(value);
    ReadIsStable(lines);
  }

  const NESTED_REFUSED := START.(reset := true, started := true, errors := [TooNested])

  lemma NestedSteps()
    ensures Good(START) && Step(START, Marker(2, "x")) == NESTED_REFUSED
    ensures Good(NESTED_REFUSED)
    ensures Step(NESTED_REFUSED, Comment("# c")) == NESTED_REFUSED.(comments := ["# c"], reset := false)
  {
    StartGood();
  }

  lemma KeyAfterComment(value: Value)
    ensures var two := NESTED_REFUSED.(comments := ["# c"], reset := false);
            && Good(two)
            && Step(two, KeyValue("k", value)) ==
               two.(arena := [Node(0, 0, [Scalar("k", value, ["# c"])], [])], reset := true)
  {
    var scalar := Scalar("k", value, ["# c"]);
    var arena := [Node(0, 0, [], [])];
    assert [] + [scalar] == [scalar];
    assert AddScalar(arena, 0, scalar) == [Node(0, 0, [scalar], [])];
    assert !HasKey(arena[0], "k");
  }

  lemma RunThree(st: State, one: Line, two: Line, three: Line)
    requires Good(st) && Readable([one, two, three])
    requires one.Marker? ==> one.depth > 0
    requires two.Marker? ==> two.depth > 0
    requires three.Marker? ==> three.depth > 0
    ensures Good(Step(st, one)) && Good(Step(Step(st, one), two))
    ensures Run(st, [one, two, three]) == Step(Step(Step(st, one), two), three)
  {
    hide Linked, Step;
    var lines := [one, two, three];
    RunStep(st, lines);
    assert lines[1..] == [two, three];
    RunStep(Step(st, one), [two, three]);
    assert [two, three][1..] == [three];
    RunStep(Step(Step(st, one), two), [three]);
    assert [three][1..] == [];
  }

  lemma NestedStart(value: Value)
    ensures var lines := [Marker(2, "x"), Comment("# c"), KeyValue("k", value)];
            && Readable(lines) && ReadErrors(lines) == [TooNested]
            && Read(lines) == Config([], Tree([Scalar("k", value, ["# c"])], NoSub), [])
  {
    hide Step, Linked, Run;
    var lines := [Marker(2, "x"), Comment("# c"), KeyValue("k", value)];
    NestedSteps();
    KeyAfterComment(value);
    RunThree(START, lines[0], lines[1], lines[2]);
    var arena := [Node(0, 0, [Scalar("k", value, ["# c"])], [])];
    assert Run(START, lines).arena == arena;
    assert TreeOf(arena, 0) == Tree([Scalar("k", value, ["# c"])], NoSub);
  }
}
