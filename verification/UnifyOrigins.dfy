/** Which original push each new push comes from, and in what order they come (hgext/unifyrepo/__init__.py). */
module UnifyOrigins {
  import opened Prelude
  import opened UnifyPushes
  import UnifyGroups

  // ---------------------------------------------------------------- the push kept for a changeset

  /** Push `j` of source `i` holds the changeset, and so does the source's repository. */
  ghost predicate Pushed(sources: seq<Source>, i: nat, j: nat, n: Node) {
    && i < |sources| && j < |sources[i].pushes|
    && n in sources[i].pushes[j].nodes && n in sources[i].nodes
  }

  ghost predicate FromPush(s: Source, p: Push, e: Entry) {
    e.node in p.nodes && e.node in s.nodes && e.info == InfoOf(s, p, e.node)
  }

  ghost predicate FromPushes(s: Source, pushes: seq<Push>, e: Entry) {
    exists p :: p in pushes && FromPush(s, p, e)
  }

  ghost predicate FromSources(sources: seq<Source>, e: Entry) {
    exists s :: s in sources && FromPushes(s, s.pushes, e)
  }

  lemma {:induction false} EntriesOfPush(s: Source, p: Push, nodes: seq<Node>)
    requires forall n :: n in nodes ==> n in p.nodes
    ensures forall e :: e in PushEntries(s, p, nodes) ==> FromPush(s, p, e)
    ensures forall n :: n in nodes && n in s.nodes ==> Entry(n, InfoOf(s, p, n)) in PushEntries(s, p, nodes)
  {
    hide InfoOf;
    if nodes != [] {
      var front := nodes[..|nodes| - 1];
      EntriesOfPush(s, p, front);
      assert nodes == front + [nodes[|nodes| - 1]];
    }
  }

  lemma {:induction false} EntriesOfPushes(s: Source, pushes: seq<Push>)
    ensures forall e :: e in SourceEntries(s, pushes) ==> FromPushes(s, pushes, e)
  {
    hide FromPush;
    if pushes != [] {
      var front, p := pushes[..|pushes| - 1], pushes[|pushes| - 1];
      EntriesOfPushes(s, front);
      EntriesOfPush(s, p, p.nodes);
      assert forall q :: q in front ==> q in pushes;
    }
  }

  lemma {:induction false} EntriesOfSources(sources: seq<Source>)
    ensures forall e :: e in Entries(sources) ==> FromSources(sources, e)
  {
    hide FromPushes;
    if sources != [] {
      var front, s := sources[..|sources| - 1], sources[|sources| - 1];
      EntriesOfSources(front);
      EntriesOfPushes(s, s.pushes);
      assert forall t :: t in front ==> t in sources;
    }
  }

  lemma {:induction false} SplitPushes(s: Source, pushes: seq<Push>, j: nat) returns (a: seq<Entry>, b: seq<Entry>)
    requires j < |pushes|
    ensures SourceEntries(s, pushes) == a + PushEntries(s, pushes[j], pushes[j].nodes) + b
    ensures forall e :: e in a ==> FromPushes(s, pushes[..j], e)
    ensures forall e :: e in b ==> FromPushes(s, pushes[j + 1..], e)
    decreases |pushes|
  {
    hide FromPush, PushEntries;
    var front, p := pushes[..|pushes| - 1], pushes[|pushes| - 1];
    if j == |front| {
      EntriesOfPushes(s, front);
      a, b := SourceEntries(s, front), [];
    } else {
      a, b := SplitPushes(s, front, j);
      EntriesOfPush(s, p, p.nodes);
      assert front[..j] == pushes[..j] && front[j + 1..] + [p] == pushes[j + 1..];
      b := b + PushEntries(s, p, p.nodes);
    }
  }

  lemma {:induction false} SplitSources(sources: seq<Source>, i: nat) returns (a: seq<Entry>, b: seq<Entry>)
    requires i < |sources|
    ensures Entries(sources) == a + SourceEntries(sources[i], sources[i].pushes) + b
    ensures forall e :: e in a ==> FromSources(sources[..i], e)
    ensures forall e :: e in b ==> FromSources(sources[i + 1..], e)
    decreases |sources|
  {
    hide FromPushes, SourceEntries;
    var front, s := sources[..|sources| - 1], sources[|sources| - 1];
    if i == |front| {
      EntriesOfSources(front);
      a, b := Entries(front), [];
    } else {
      a, b := SplitSources(front, i);
      EntriesOfPushes(s, s.pushes);
      assert front[..i] == sources[..i] && front[i + 1..] + [s] == sources[i + 1..];
      b := b + SourceEntries(s, s.pushes);
    }
  }

  lemma InPart(a: seq<Entry>, b: seq<Entry>, c: seq<Entry>, i: nat)
    requires i < |a + b + c|
    ensures var e := (a + b + c)[i]; if i < |a| then e in a else if i < |a| + |b| then e in b else e in c
  {
  }

  /** Entries of later pushes are no earlier in time, entries of earlier pushes later: the one in the middle wins. */
  lemma MiddleWins(a: seq<Entry>, b: seq<Entry>, c: seq<Entry>, e: Entry)
    requires e in b && forall x :: x in b && x.node == e.node ==> x == e
    requires forall x :: x in a && x.node == e.node ==> e.info.when < x.info.when
    requires forall x :: x in c && x.node == e.node ==> e.info.when <= x.info.when
    ensures var info := KeepAll(map[], a + b + c); e.node in info && info[e.node] == e.info
  {
    hide KeepAll;
    var all := a + b + c;
    var info := KeepAll(map[], all);
    KeepAllEarliest(all);
    var m: nat :| m < |b| && b[m] == e;
    assert all[|a| + m] == e;
    var i :| 0 <= i < |all| && all[i] == Entry(e.node, info[e.node]) && FirstEarliest(all, i);
    InPart(a, b, c, i);
  }

  /** Push `(i, j)` is the first of the earliest that hold the changeset. */
  ghost predicate FirstPushed(sources: seq<Source>, i: nat, j: nat, n: Node) {
    && Pushed(sources, i, j, n)
    && forall k: nat, l: nat | Pushed(sources, k, l, n) ::
         && sources[i].pushes[j].when <= sources[k].pushes[l].when
         && (k < i || (k == i && l < j) ==> sources[i].pushes[j].when < sources[k].pushes[l].when)
  }

  lemma PushedBefore(sources: seq<Source>, i: nat, j: nat, n: Node, e: Entry)
    requires FirstPushed(sources, i, j, n) && e.node == n
    requires FromSources(sources[..i], e) || FromPushes(sources[i], sources[i].pushes[..j], e)
    ensures sources[i].pushes[j].when < e.info.when
  {
    if FromSources(sources[..i], e) {
      var s :| s in sources[..i] && FromPushes(s, s.pushes, e);
      var p :| p in s.pushes && FromPush(s, p, e);
      var k: nat :| k < i && sources[k] == s;
      var l: nat :| l < |s.pushes| && s.pushes[l] == p;
      assert Pushed(sources, k, l, n);
    } else {
      var p :| p in sources[i].pushes[..j] && FromPush(sources[i], p, e);
      var l: nat :| l < j && sources[i].pushes[l] == p;
      assert Pushed(sources, i, l, n);
    }
  }

  lemma PushedBehind(sources: seq<Source>, i: nat, j: nat, n: Node, e: Entry)
    requires FirstPushed(sources, i, j, n) && e.node == n
    requires FromSources(sources[i + 1..], e) || FromPushes(sources[i], sources[i].pushes[j + 1..], e)
    ensures sources[i].pushes[j].when <= e.info.when
  {
    if FromSources(sources[i + 1..], e) {
      var s :| s in sources[i + 1..] && FromPushes(s, s.pushes, e);
      var p :| p in s.pushes && FromPush(s, p, e);
      var k: nat :| i < k < |sources| && sources[k] == s;
      var l: nat :| l < |s.pushes| && s.pushes[l] == p;
      assert Pushed(sources, k, l, n);
    } else {
      var p :| p in sources[i].pushes[j + 1..] && FromPush(sources[i], p, e);
      var l: nat :| j < l < |sources[i].pushes| && sources[i].pushes[l] == p;
      assert Pushed(sources, i, l, n);
    }
  }

  /** A changeset is given time, user, id and revision of the earliest push of any source that holds it; among those of
      one time, of the first push of the first source. */
  lemma EarliestPushWins(sources: seq<Source>, i: nat, j: nat, n: Node)
    requires Pushed(sources, i, j, n) && FirstPushed(sources, i, j, n)
    ensures var info, s, p := KeepAll(map[], Entries(sources)), sources[i], sources[i].pushes[j];
            && n in info
            && info[n].when == p.when && info[n].path == s.path && info[n].who == p.user && info[n].pushid == p.id
            && info[n].rev < |s.nodes| && s.nodes[info[n].rev] == n
  {
    hide Entries, SourceEntries, PushEntries, KeepAll, FromSources, FromPushes, FirstPushed;
    var s, p := sources[i], sources[i].pushes[j];
    var e := Entry(n, InfoOf(s, p, n));
    var a, d := SplitSources(sources, i);
    var b, c := SplitPushes(s, s.pushes, j);
    var own := PushEntries(s, p, p.nodes);
    EntriesOfPush(s, p, p.nodes);
    forall x: Entry | x in a + b && x.node == n
      ensures e.info.when < x.info.when
    {
      PushedBefore(sources, i, j, n, x);
    }
    forall x: Entry | x in c + d && x.node == n
      ensures e.info.when <= x.info.when
    {
      PushedBehind(sources, i, j, n, x);
    }
    MiddleWins(a + b, own, c + d, e);
    assert a + (b + own + c) + d == a + b + own + (c + d);
  }

  /** Only changesets of some push are given one. */
  lemma KeptIsPushed(sources: seq<Source>, n: Node)
    ensures n in KeepAll(map[], Entries(sources)) <==> exists i: nat, j: nat :: Pushed(sources, i, j, n)
  {
    hide Entries, SourceEntries, KeepAll, PushEntries;
    var info := KeepAll(map[], Entries(sources));
    KeepAllEarliest(Entries(sources));
    EntriesOfSources(sources);
    if n in info {
      var e := Entry(n, info[n]);
      assert e in Entries(sources);
      var s :| s in sources && FromPushes(s, s.pushes, e);
      var p :| p in s.pushes && FromPush(s, p, e);
      var i: nat :| i < |sources| && sources[i] == s;
      var j: nat :| j < |s.pushes| && s.pushes[j] == p;
      assert Pushed(sources, i, j, n);
    }
    if i: nat, j: nat :| Pushed(sources, i, j, n) {
      var s, p := sources[i], sources[i].pushes[j];
      var a, b := SplitSources(sources, i);
      var c, d := SplitPushes(s, s.pushes, j);
      EntriesOfPush(s, p, p.nodes);
      assert Entry(n, InfoOf(s, p, n)) in Entries(sources);
    }
  }

  // ---------------------------------------------------------------- the new pushes

  /** What is missing keeps its order. */
  lemma {:induction false} MissingInOrder(nodes: seq<Node>, have: set<Node>, i: nat, j: nat) returns (a: nat, b: nat)
    requires i < j < |nodes| && nodes[i] !in have && nodes[j] !in have
    ensures a < b < |Missing(nodes, have)|
    ensures Missing(nodes, have)[a] == nodes[i] && Missing(nodes, have)[b] == nodes[j]
  {
    hide Distinct;
    var rest := Missing(nodes[1..], have);
    var skip := |Missing(nodes, have)| - |rest|;
    if i == 0 {
      assert nodes[1..][j - 1] == nodes[j];
      b :| 0 <= b < |rest| && rest[b] == nodes[j];
      a, b := 0, b + 1;
    } else {
      a, b := MissingInOrder(nodes[1..], have, i - 1, j - 1);
      a, b := a + skip, b + skip;
    }
  }

  /** Each new push is what the destination lacks of one group, and they follow the order of the groups. */
  lemma {:induction false} InsertedFrom(groups: seq<Group>, have: set<Node>, last: nat, i: nat, j: nat)
    returns (a: nat, b: nat)
    requires i <= j < |Inserted(groups, have, last)|
    ensures a <= b < |groups| && (i < j ==> a < b)
    ensures var p, g := Inserted(groups, have, last)[i], groups[a];
            p.user == g.who && p.when == g.when && p.nodes == Missing(g.nodes, have)
    ensures var p, g := Inserted(groups, have, last)[j], groups[b];
            p.user == g.who && p.when == g.when && p.nodes == Missing(g.nodes, have)
    decreases |groups|
  {
    hide Missing;
    var front := groups[..|groups| - 1];
    var done := Inserted(front, have, last);
    if j < |done| {
      a, b := InsertedFrom(front, have, last, i, j);
    } else if i < |done| {
      a, b := InsertedFrom(front, have, last, i, i);
      b := |front|;
    } else {
      a, b := |front|, |front|;
    }
  }

  /** New pushes are numbered by the time of the original pushes. */
  lemma NewPushesByTime(items: seq<Entry>, have: set<Node>, last: nat, i: nat, j: nat)
    requires UnifyGroups.Sorted(items) && i < j < |Inserted(Regroup(items), have, last)|
    ensures var pushes := Inserted(Regroup(items), have, last);
            pushes[i].id < pushes[j].id && pushes[i].when <= pushes[j].when
  {
    hide Regroup, Inserted, UnifyGroups.Sorted;
    RegroupCuts(items);
    var a, b := InsertedFrom(Regroup(items), have, last, i, j);
    UnifyGroups.GroupsByTime(Regroup(items), items, a, b);
  }

  /** A changeset in a new push keeps the user and the time it was first pushed with. */
  lemma NewPushKeepsOrigin(sources: seq<Source>, items: seq<Entry>, have: set<Node>, last: nat, i: nat, n: Node)
    requires PathsNameRepositories(sources) && PushIdsUnique(sources)
    requires var info := KeepAll(map[], Entries(sources));
             forall e :: e in items ==> e.node in info && e.info == info[e.node]
    requires i < |Inserted(Regroup(items), have, last)| && n in Inserted(Regroup(items), have, last)[i].nodes
    ensures var info, p := KeepAll(map[], Entries(sources)), Inserted(Regroup(items), have, last)[i];
            n !in have && n in info && info[n].who == p.user && info[n].when == p.when
  {
    hide Regroup, Inserted, KeepAll, Entries, PathsNameRepositories, PushIdsUnique;
    RegroupCuts(items);
    KeepAllEarliest(Entries(sources));
    var a, b := InsertedFrom(Regroup(items), have, last, i, i);
    GroupsKeepProvenance(sources, KeepAll(map[], Entries(sources)), items, Regroup(items), Regroup(items)[a], n);
  }
}
