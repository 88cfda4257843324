/**
 Writing a tree of sections as lines and rebuilding it (pylib/configobj/configobj.py). A line is a comment,
 a section marker with its depth, or a key with its value.
 */
module ConfigTree {
  import opened Prelude
  import opened ConfigQuote

  datatype Line = Comment(text: string) | Marker(depth: nat, name: string) | KeyValue(key: string, value: Value)

  datatype Scalar = Scalar(key: string, value: Value, comments: seq<string>)

  /** A section: its scalars, then its subsections, each in order. */
  datatype Tree = Tree(scalars: seq<Scalar>, subs: Forest)

  datatype Forest = NoSub | Sub(name: string, comments: seq<string>, body: Tree, next: Forest)

  datatype Config = Config(initial: seq<string>, root: Tree, final: seq<string>)

  // ---------------------------------------------------------------- writing

  function Comments(texts: seq<string>): (lines: seq<Line>)
    ensures |lines| == |texts| && forall i :: 0 <= i < |lines| ==> lines[i] == Comment(texts[i])
  {
    seq(|texts|, i requires 0 <= i < |texts| => Comment(texts[i]))
  }

  function WriteScalars(scalars: seq<Scalar>): seq<Line> {
    if scalars == [] then []
    else Comments(scalars[0].comments) + ([KeyValue(scalars[0].key, scalars[0].value)] + WriteScalars(scalars[1..]))
  }

  /** The lines of a section at the given depth. */
  function WriteTree(t: Tree, depth: nat): seq<Line>
    decreases t
  {
    WriteScalars(t.scalars) + WriteForest(t.subs, depth + 1)
  }

  function WriteForest(f: Forest, depth: nat): seq<Line>
    decreases f
  {
    match f
    case NoSub => []
    case Sub(name, comments, body, next) =>
      Comments(comments) + ([Marker(depth, name)] + (WriteTree(body, depth) + WriteForest(next, depth)))
  }

  function WriteConfig(c: Config): seq<Line> {
    Comments(c.initial) + (WriteTree(c.root, 0) + Comments(c.final))
  }

  /** `write` for one section: the entries in the order scalars, then subsections. */
  method Write(t: Tree, depth: nat) returns (out: seq<Line>)
    ensures out == WriteTree(t, depth)
    decreases t
  {
    hide Comments, WriteTree, WriteForest, WriteScalars;
    out := [];
    for i := 0 to |t.scalars|
      invariant out + WriteScalars(t.scalars[i..]) == WriteScalars(t.scalars)
    {
      var s := t.scalars[i];
      ghost var rest := t.scalars[i..];
      ScalarWritten(rest);
      assert rest[1..] == t.scalars[i + 1..];
      ghost var entry := Comments(s.comments) + [KeyValue(s.key, s.value)];
      assert out + (entry + WriteScalars(rest[1..])) == (out + entry) + WriteScalars(rest[1..]);
      out := out + (Comments(s.comments) + [KeyValue(s.key, s.value)]);
    }
    WrittenEnd(t, depth);
    assert out == WriteScalars(t.scalars) by { assert t.scalars[|t.scalars|..] == []; }
    var rest := t.subs;
    while rest.Sub?
      invariant out + WriteForest(rest, depth + 1) == WriteTree(t, depth)
      invariant rest == t.subs || rest < t.subs
      decreases rest
    {
      SubWritten(rest, depth + 1);
      var body := Write(rest.body, depth + 1);
      ghost var entry := Comments(rest.comments) + [Marker(depth + 1, rest.name)] + body;
      assert out + (entry + WriteForest(rest.next, depth + 1)) == (out + entry) + WriteForest(rest.next, depth + 1);
      out := out + (Comments(rest.comments) + [Marker(depth + 1, rest.name)] + body);
      rest := rest.next;
    }
    NothingWritten(depth + 1);
  }

  lemma ScalarWritten(scalars: seq<Scalar>)
    requires scalars != []
    ensures WriteScalars(scalars) == Comments(scalars[0].comments) + [KeyValue(scalars[0].key, scalars[0].value)]
                                     + WriteScalars(scalars[1..])
  {
  }

  lemma SubWritten(f: Forest, depth: nat)
    requires f.Sub?
    ensures WriteForest(f, depth) == Comments(f.comments) + [Marker(depth, f.name)] + WriteTree(f.body, depth)
                                     + WriteForest(f.next, depth)
  {
  }

  lemma WrittenEnd(t: Tree, depth: nat)
    ensures WriteScalars([]) == []
    ensures WriteTree(t, depth) == WriteScalars(t.scalars) + WriteForest(t.subs, depth + 1)
  {
  }

  lemma NothingWritten(depth: nat)
    ensures WriteForest(NoSub, depth) == []
  {
  }

  // ---------------------------------------------------------------- the sections being rebuilt

  datatype SubRef = SubRef(name: string, comments: seq<string>, node: nat)

  /** A section object. Sections refer to each other by their number; the root is its own parent. */
  datatype Node = Node(parent: nat, depth: nat, scalars: seq<Scalar>, subs: seq<SubRef>)

  predicate HasKey(n: Node, key: string) {
    || (exists k :: 0 <= k < |n.scalars| && n.scalars[k].key == key)
    || (exists k :: 0 <= k < |n.subs| && n.subs[k].name == key)
  }

  /** Parents and children are consistent. */
  ghost predicate Linked(arena: seq<Node>) {
    && |arena| > 0 && arena[0].parent == 0 && arena[0].depth == 0
    && (forall i :: 0 < i < |arena| ==> arena[i].parent < i && arena[i].depth == arena[arena[i].parent].depth + 1)
    && (forall i :: 0 <= i < |arena| ==> RefsAbove(arena[i].subs, i, |arena|))
  }

  ghost predicate RefsAbove(refs: seq<SubRef>, lo: nat, hi: nat) {
    forall k :: 0 <= k < |refs| ==> lo < refs[k].node < hi
  }

  ghost function TreeOf(arena: seq<Node>, i: nat): Tree
    requires Linked(arena) && i < |arena|
    decreases |arena| - i, 1, 0
  {
    Tree(arena[i].scalars, ForestOf(arena, i, arena[i].subs))
  }

  ghost function ForestOf(arena: seq<Node>, lo: nat, refs: seq<SubRef>): Forest
    requires Linked(arena) && lo < |arena| && RefsAbove(refs, lo, |arena|)
    decreases |arena| - lo, 0, |refs|
  {
    if refs == [] then NoSub
    else Sub(refs[0].name, refs[0].comments, TreeOf(arena, refs[0].node), ForestOf(arena, lo, refs[1..]))
  }

  /** `_match_depth`: up through the parents to a section of the wanted depth. */
  function MatchDepth(arena: seq<Node>, sect: nat, depth: nat): (r: Option<nat>)
    requires Linked(arena) && sect < |arena|
    ensures r.Some? ==> r.value < |arena| && arena[r.value].depth == depth
    decreases sect
  {
    if depth < arena[sect].depth then
      if arena[sect].parent == sect then None else MatchDepth(arena, arena[sect].parent, depth)
    else if arena[sect].depth == depth then Some(sect)
    else None
  }

  method FindDepth(arena: seq<Node>, start: nat, depth: nat) returns (r: Option<nat>)
    requires Linked(arena) && start < |arena|
    ensures r == MatchDepth(arena, start, depth)
  {
    var sect: nat := start;
    while depth < arena[sect].depth
      invariant sect < |arena|
      invariant MatchDepth(arena, sect, depth) == MatchDepth(arena, start, depth)
      decreases sect
    {
      if arena[sect].parent == sect {
        return None;
      }
      sect := arena[sect].parent;
    }
    if arena[sect].depth == depth {
      return Some(sect);
    }
    return None;
  }

  /** Parents lose exactly one level a step, so a smaller depth is always found. */
  lemma {:induction false} MatchDepthFinds(arena: seq<Node>, sect: nat, depth: nat)
    requires Linked(arena) && sect < |arena| && depth <= arena[sect].depth
    ensures MatchDepth(arena, sect, depth).Some?
    decreases sect
  {
    if depth < arena[sect].depth { MatchDepthFinds(arena, arena[sect].parent, depth); }
  }

  // ---------------------------------------------------------------- reading

  datatype Error = NoNestingLevel | TooNested | DuplicateSection | DuplicateKey

  /** What `_parse` keeps between two lines. */
  datatype State = State(
    arena: seq<Node>, cur: nat, comments: seq<string>, reset: bool, started: bool, initial: seq<string>,
    errors: seq<Error>)

  const START := State([Node(0, 0, [], [])], 0, [], false, false, [], [])

  ghost predicate Good(st: State) {
    Linked(st.arena) && st.cur < |st.arena|
  }

  /** The section a marker of this depth goes into. */
  function ParentFor(arena: seq<Node>, cur: nat, depth: nat): (r: Result<nat, Error>)
    requires Linked(arena) && cur < |arena| && depth > 0
    ensures r.Ok? ==> r.value < |arena| && arena[r.value].depth + 1 == depth
  {
    if depth < arena[cur].depth then
      match MatchDepth(arena, cur, depth)
      case Some(s) => Ok(arena[s].parent)
      case None => Err(NoNestingLevel)
    else if depth == arena[cur].depth then Ok(arena[cur].parent)
    else if depth == arena[cur].depth + 1 then Ok(cur)
    else Err(TooNested)
  }

  /** The comments that a line read now would get. */
  function Pending(st: State): seq<string> {
    if st.reset then [] else st.comments
  }

  /** A line that is no comment: the first one ends the initial comment. */
  function Begin(st: State): State {
    if st.started then st.(comments := Pending(st), reset := true)
    else st.(initial := Pending(st), comments := [], reset := true, started := true)
  }

  function AddNode(arena: seq<Node>, parent: nat, name: string, comments: seq<string>): seq<Node>
    requires parent < |arena|
  {
    arena[parent := arena[parent].(subs := arena[parent].subs + [SubRef(name, comments, |arena|)])]
    + [Node(parent, arena[parent].depth + 1, [], [])]
  }

  function AddScalar(arena: seq<Node>, at: nat, s: Scalar): seq<Node>
    requires at < |arena|
  {
    arena[at := arena[at].(scalars := arena[at].scalars + [s])]
  }

  /** One line; a marker has at least one bracket. */
  function Step(st: State, line: Line): State
    requires Good(st) && (line.Marker? ==> line.depth > 0)
  {
    match line
    case Comment(text) => st.(comments := Pending(st) + [text], reset := false)
    case Marker(depth, name) =>
      var now := Begin(st);
      (match ParentFor(now.arena, now.cur, depth)
       case Err(e) => now.(errors := now.errors + [e])
       case Ok(parent) =>
         if HasKey(now.arena[parent], name) then now.(errors := now.errors + [DuplicateSection])
         else now.(arena := AddNode(now.arena, parent, name, now.comments), cur := |now.arena|))
    case KeyValue(key, value) =>
      var now := Begin(st);
      if HasKey(now.arena[now.cur], key) then now.(errors := now.errors + [DuplicateKey])
      else now.(arena := AddScalar(now.arena, now.cur, Scalar(key, value, now.comments)))
  }

  lemma AddNodeLinked(arena: seq<Node>, parent: nat, name: string, comments: seq<string>)
    requires Linked(arena) && parent < |arena|
    ensures Linked(AddNode(arena, parent, name, comments)) && |AddNode(arena, parent, name, comments)| == |arena| + 1
  {
    var now := AddNode(arena, parent, name, comments);
    forall i | 0 < i < |now|
      ensures now[i].parent < i && now[i].depth == now[now[i].parent].depth + 1
    {
      if i < |arena| { assert now[i].parent == arena[i].parent; }
    }
    forall i | 0 <= i < |now|
      ensures RefsAbove(now[i].subs, i, |now|)
    {
      if i < |arena| { assert RefsAbove(arena[i].subs, i, |arena|); }
    }
  }

  lemma AddScalarLinked(arena: seq<Node>, at: nat, s: Scalar)
    requires Linked(arena) && at < |arena|
    ensures Linked(AddScalar(arena, at, s)) && |AddScalar(arena, at, s)| == |arena|
  {
    var now := AddScalar(arena, at, s);
    forall i | 0 <= i < |now|
      ensures RefsAbove(now[i].subs, i, |now|)
    {
      assert RefsAbove(arena[i].subs, i, |arena|);
    }
  }

  lemma StepGood(st: State, line: Line)
    requires Good(st) && (line.Marker? ==> line.depth > 0)
    ensures Good(Step(st, line))
  {
    hide Linked, HasKey, AddNode, AddScalar, ParentFor;
    var now := Begin(st);
    match line {
      case Comment(_) =>
      case KeyValue(key, value) => AddScalarLinked(now.arena, now.cur, Scalar(key, value, now.comments));
      case Marker(depth, name) =>
        match ParentFor(now.arena, now.cur, depth) {
          case Ok(parent) => AddNodeLinked(now.arena, parent, name, now.comments);
          case Err(_) =>
        }
    }
  }

  /** The section of depth `depth - 1` that the current section is or is inside of. */
  lemma {:induction false} ParentEncloses(arena: seq<Node>, cur: nat, depth: nat)
    requires Linked(arena) && cur < |arena| && 0 < depth <= arena[cur].depth + 1
    ensures ParentFor(arena, cur, depth).Ok? && Within(arena, cur, ParentFor(arena, cur, depth).value)
    ensures arena[ParentFor(arena, cur, depth).value].depth == depth - 1
  {
    if depth < arena[cur].depth {
      MatchDepthFinds(arena, cur, depth);
      MatchedEncloses(arena, cur, depth);
      var s := MatchDepth(arena, cur, depth).value;
      WithinParent(arena, cur, s);
    } else if depth == arena[cur].depth {
      assert Within(arena, arena[cur].parent, arena[cur].parent);
    }
  }

  ghost predicate Within(arena: seq<Node>, inner: nat, outer: nat)
    requires Linked(arena) && inner < |arena|
    decreases inner
  {
    inner == outer || (inner > 0 && Within(arena, arena[inner].parent, outer))
  }

  lemma {:induction false} MatchedEncloses(arena: seq<Node>, sect: nat, depth: nat)
    requires Linked(arena) && sect < |arena| && MatchDepth(arena, sect, depth).Some?
    ensures Within(arena, sect, MatchDepth(arena, sect, depth).value)
    decreases sect
  {
    if depth < arena[sect].depth { MatchedEncloses(arena, arena[sect].parent, depth); }
  }

  lemma {:induction false} WithinParent(arena: seq<Node>, inner: nat, s: nat)
    requires Linked(arena) && inner < |arena| && s < |arena| && s > 0 && Within(arena, inner, s)
    ensures Within(arena, inner, arena[s].parent)
    decreases inner
  {
    if inner != s {
      WithinParent(arena, arena[inner].parent, s);
    } else {
      assert Within(arena, arena[s].parent, arena[s].parent);
    }
  }

  /** Whether a line is refused, and why: a marker more than one level below the current section, or a name that its
      section has already, as a key or as a section. */
  ghost function Refusal(st: State, line: Line): Option<Error>
    requires Good(st) && (line.Marker? ==> line.depth > 0)
  {
    match line
    case Comment(_) => None
    case KeyValue(key, _) => if key in Names(st.arena[st.cur]) then Some(DuplicateKey) else None
    case Marker(depth, name) =>
      if depth > st.arena[st.cur].depth + 1 then Some(TooNested)
      else
        ParentEncloses(st.arena, st.cur, depth);
        if name in Names(st.arena[ParentFor(st.arena, st.cur, depth).value]) then Some(DuplicateSection) else None
  }

  ghost function Names(n: Node): set<string> {
    (set k | 0 <= k < |n.scalars| :: n.scalars[k].key) + set k | 0 <= k < |n.subs| :: n.subs[k].name
  }

  /** A refused line leaves the sections and the current one as they are; any other adds no error. */
  lemma RefusedLineIgnored(st: State, line: Line)
    requires Good(st) && (line.Marker? ==> line.depth > 0)
    ensures Step(st, line).errors == st.errors + match Refusal(st, line) case None => [] case Some(e) => [e]
    ensures Refusal(st, line).Some? ==> Step(st, line).arena == st.arena && Step(st, line).cur == st.cur
    ensures line.KeyValue? ==> Step(st, line).cur == st.cur
    ensures line.Comment? ==> Step(st, line).arena == st.arena && Step(st, line).cur == st.cur
  {
    hide ParentFor, AddNode, AddScalar, Linked;
    if line.Marker? && line.depth <= st.arena[st.cur].depth + 1 {
      ParentEncloses(st.arena, st.cur, line.depth);
      NamesAreKeys(st.arena[ParentFor(st.arena, st.cur, line.depth).value], line.name);
    } else if line.Marker? {
      TooDeep(st.arena, st.cur, line.depth);
    } else if line.KeyValue? {
      NamesAreKeys(st.arena[st.cur], line.key);
    }
  }

  lemma NamesAreKeys(n: Node, key: string)
    ensures HasKey(n, key) <==> key in Names(n)
  {
  }

  lemma TooDeep(arena: seq<Node>, cur: nat, depth: nat)
    requires Linked(arena) && cur < |arena| && depth > arena[cur].depth + 1
    ensures ParentFor(arena, cur, depth) == Err(TooNested)
  {
  }

  predicate Readable(lines: seq<Line>) {
    forall i :: 0 <= i < |lines| ==> lines[i].Marker? ==> lines[i].depth > 0
  }

  /** The state after reading the lines. */
  function Run(st: State, lines: seq<Line>): (r: State)
    requires Good(st) && Readable(lines)
    ensures Good(r)
    decreases |lines|
  {
    if lines == [] then st
    else
      StepGood(st, lines[0]);
      Run(Step(st, lines[0]), lines[1..])
  }

  lemma RunStep(st: State, lines: seq<Line>)
    requires Good(st) && Readable(lines) && lines != []
    ensures (lines[0].Marker? ==> lines[0].depth > 0) && Readable(lines[1..])
    ensures Good(Step(st, lines[0])) && Run(st, lines) == Run(Step(st, lines[0]), lines[1..])
  {
    StepGood(st, lines[0]);
  }

  /** `later` has every section of `before`, in its place and with its entries, and perhaps more behind them. */
  ghost predicate Grows(before: seq<Node>, later: seq<Node>) {
    && |before| <= |later|
    && forall i :: 0 <= i < |before| ==>
         && later[i].parent == before[i].parent && later[i].depth == before[i].depth
         && before[i].scalars <= later[i].scalars && before[i].subs <= later[i].subs
  }

  lemma StepGrows(st: State, line: Line)
    requires Good(st) && (line.Marker? ==> line.depth > 0)
    ensures Grows(st.arena, Step(st, line).arena)
  {
    hide Linked, HasKey, MatchDepth;
  }

  lemma GrowsOn(a: seq<Node>, b: seq<Node>, c: seq<Node>)
    requires Grows(a, b) && Grows(b, c)
    ensures Grows(a, c)
  {
    forall i | 0 <= i < |a|
      ensures a[i].scalars <= c[i].scalars && a[i].subs <= c[i].subs
    {
      assert a[i].scalars <= b[i].scalars <= c[i].scalars && a[i].subs <= b[i].subs <= c[i].subs;
    }
  }

  /** Whatever is read later, an entry that was accepted stays: of two with one name the first wins. */
  lemma {:induction false} EntriesStay(st: State, lines: seq<Line>)
    requires Good(st) && Readable(lines)
    ensures Grows(st.arena, Run(st, lines).arena)
    decreases |lines|
  {
    hide Step, Grows;
    if lines == [] {
      GrowsNot(st.arena);
    } else {
      RunStep(st, lines);
      StepGrows(st, lines[0]);
      EntriesStay(Step(st, lines[0]), lines[1..]);
      GrowsOn(st.arena, Step(st, lines[0]).arena, Run(st, lines).arena);
    }
  }

  lemma GrowsNot(a: seq<Node>)
    ensures Grows(a, a)
  {
  }

  lemma RootEmpty(arena: seq<Node>)
    requires Linked(arena)
    ensures TreeOf(arena, 0) == Tree([], NoSub) <==> arena[0].scalars == [] && arena[0].subs == []
  {
  }

  lemma StartGood()
    ensures Good(START)
  {
  }

  /** What is kept of the comments after the last line. */
  ghost function Finish(st: State): Config
    requires Good(st)
  {
    var root := TreeOf(st.arena, 0);
    if root == Tree([], NoSub) && st.initial == [] then Config(st.comments, root, [])
    else Config(st.initial, root, if st.reset then [] else st.comments)
  }

  ghost function Read(lines: seq<Line>): Config
    requires Readable(lines)
  {
    Finish(Run(START, lines))
  }

  ghost function ReadErrors(lines: seq<Line>): seq<Error>
    requires Readable(lines)
  {
    Run(START, lines).errors
  }

  /** The reader: section objects, comments and errors are filled in place while the lines are scanned. */
  class ConfigReader {
    var arena: seq<Node>
    var initialComment: seq<string>
    var finalComment: seq<string>
    var errors: seq<Error>

    constructor ()
      ensures arena == START.arena && initialComment == [] && finalComment == [] && errors == []
    {
      arena := START.arena;
      initialComment, finalComment, errors := [], [], [];
    }

    /** `_parse` of a fresh reader. */
    method Parse(infile: seq<Line>)
      requires Readable(infile)
      requires arena == START.arena && initialComment == [] && finalComment == [] && errors == []
      modifies this
      ensures Linked(arena) && errors == ReadErrors(infile)
      ensures Config(initialComment, TreeOf(arena, 0), finalComment) == Read(infile)
    {
      hide Linked, HasKey, AddNode, AddScalar, MatchDepth, TreeOf, Readable;
      StartGood();
      assert infile[0..] == infile;
      var commentList: seq<string> := [];
      var doneStart, resetComment := false, false;
      var thisSection: nat := 0;
      var curIndex: nat := 0;
      while curIndex < |infile|
        invariant 0 <= curIndex <= |infile| && finalComment == []
        invariant Good(State(arena, thisSection, commentList, resetComment, doneStart, initialComment, errors))
        invariant Readable(infile[curIndex..])
        invariant Run(State(arena, thisSection, commentList, resetComment, doneStart, initialComment, errors),
                      infile[curIndex..])
               == Run(START, infile)
      {
        ghost var st := State(arena, thisSection, commentList, resetComment, doneStart, initialComment, errors);
        var line := infile[curIndex];
        ghost var rest := infile[curIndex..];
        assert rest[0] == line && rest[1..] == infile[curIndex + 1..];
        RunStep(st, rest);
        if resetComment {
          commentList := [];
        }
        curIndex := curIndex + 1;
        if line.Comment? {
          resetComment := false;
          commentList := commentList + [line.text];
          continue;
        }
        if !doneStart {
          initialComment := commentList;
          commentList := [];
          doneStart := true;
        }
        resetComment := true;
        match line {
          case Marker(depth, name) =>
            var parent: nat := 0;
            if depth < arena[thisSection].depth {
              var sect := FindDepth(arena, thisSection, depth);
              if sect.None? {
                errors := errors + [NoNestingLevel];
                continue;
              }
              parent := arena[sect.value].parent;
            } else if depth == arena[thisSection].depth {
              parent := arena[thisSection].parent;
            } else if depth == arena[thisSection].depth + 1 {
              parent := thisSection;
            } else {
              errors := errors + [TooNested];
              continue;
            }
            if HasKey(arena[parent], name) {
              errors := errors + [DuplicateSection];
              continue;
            }
            thisSection := |arena|;
            arena := AddNode(arena, parent, name, commentList);
          case KeyValue(key, value) =>
            if HasKey(arena[thisSection], key) {
              errors := errors + [DuplicateKey];
              continue;
            }
            arena := AddScalar(arena, thisSection, Scalar(key, value, commentList));
        }
      }
      RootEmpty(arena);
      if arena[0].scalars == [] && arena[0].subs == [] && initialComment == [] {
        initialComment := commentList;
      } else if !resetComment {
        finalComment := commentList;
      }
    }
  }
}
