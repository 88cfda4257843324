/** Merging the push logs of several source repositories into one (hgext/unifyrepo/__init__.py). */
module UnifyPushes {
  import opened Prelude
  import PushStream
  import PushTables

  type Node = string

  type Push = PushStream.Push

  /** A source repository: `nodes[rev]` is the changeset with that revision number. */
  datatype Source = Source(path: string, nodes: seq<Node>, pushes: seq<Push>)

  /** The original push of a changeset, as recorded for one source. */
  datatype PushInfo = PushInfo(when: nat, path: string, rev: nat, who: string, pushid: nat)

  datatype Entry = Entry(node: Node, info: PushInfo)

  // ---------------------------------------------------------------- earliest push of every node

  function RevOf(nodes: seq<Node>, node: Node): (rev: nat)
    requires node in nodes
    ensures rev < |nodes| && nodes[rev] == node
  {
    Find(nodes, node, 0)
  }

  /** What the source records about a changeset of one of its pushes. */
  function InfoOf(s: Source, push: Push, n: Node): PushInfo
    requires n in s.nodes
  {
    PushInfo(push.when, s.path, RevOf(s.nodes, n), push.user, push.id)
  }

  /** The entries one push contributes; nodes the repository does not hold are skipped. */
  function PushEntries(s: Source, push: Push, nodes: seq<Node>): seq<Entry> {
    if nodes == [] then []
    else
      var front, n := nodes[..|nodes| - 1], nodes[|nodes| - 1];
      PushEntries(s, push, front) +
      if n in s.nodes then [Entry(n, InfoOf(s, push, n))] else []
  }

  function SourceEntries(s: Source, pushes: seq<Push>): seq<Entry> {
    if pushes == [] then []
    else
      var push := pushes[|pushes| - 1];
      SourceEntries(s, pushes[..|pushes| - 1]) + PushEntries(s, push, push.nodes)
  }

  function Entries(sources: seq<Source>): seq<Entry> {
    if sources == [] then []
    else
      var s := sources[|sources| - 1];
      Entries(sources[..|sources| - 1]) + SourceEntries(s, s.pushes)
  }

  /** `info` is what the first of the earliest entries for `node` says. */
  ghost predicate IsEarliest(entries: seq<Entry>, node: Node, info: PushInfo) {
    exists i :: 0 <= i < |entries| && entries[i] == Entry(node, info) && FirstEarliest(entries, i)
  }

  ghost predicate FirstEarliest(entries: seq<Entry>, i: nat)
    requires i < |entries|
  {
    forall j :: 0 <= j < |entries| && entries[j].node == entries[i].node ==>
      entries[i].info.when <= entries[j].info.when && (j < i ==> entries[i].info.when < entries[j].info.when)
  }

  /** `info` maps each node of `entries` to its earliest push, and nothing else. */
  ghost predicate Earliest(entries: seq<Entry>, info: map<Node, PushInfo>) {
    && (forall n :: n in info ==> IsEarliest(entries, n, info[n]))
    && (forall i :: 0 <= i < |entries| ==> entries[i].node in info)
  }

  function Keep(info: map<Node, PushInfo>, e: Entry): map<Node, PushInfo> {
    if e.node !in info || e.info.when < info[e.node].when then info[e.node := e.info] else info
  }

  lemma StaysEarliest(entries: seq<Entry>, n: Node, info: PushInfo, e: Entry)
    requires IsEarliest(entries, n, info) && (e.node == n ==> info.when <= e.info.when)
    ensures IsEarliest(entries + [e], n, info)
  {
    var all := entries + [e];
    var i :| 0 <= i < |entries| && entries[i] == Entry(n, info) && FirstEarliest(entries, i);
    assert all[i] == Entry(n, info) && FirstEarliest(all, i);
  }

  lemma BecomesEarliest(entries: seq<Entry>, e: Entry)
    requires forall i :: 0 <= i < |entries| && entries[i].node == e.node ==> e.info.when < entries[i].info.when
    ensures IsEarliest(entries + [e], e.node, e.info)
  {
    var all := entries + [e];
    assert all[|entries|] == Entry(e.node, e.info) && FirstEarliest(all, |entries|);
  }

  lemma EarliestBounds(entries: seq<Entry>, n: Node, info: PushInfo)
    requires IsEarliest(entries, n, info)
    ensures forall i :: 0 <= i < |entries| && entries[i].node == n ==> info.when <= entries[i].info.when
  {
    var i :| 0 <= i < |entries| && entries[i] == Entry(n, info) && FirstEarliest(entries, i);
  }

  lemma KeepsEarliest(entries: seq<Entry>, info: map<Node, PushInfo>, e: Entry)
    requires Earliest(entries, info)
    ensures Earliest(entries + [e], Keep(info, e))
  {
    hide IsEarliest;
    var all, now := entries + [e], Keep(info, e);
    if e.node in info { EarliestBounds(entries, e.node, info[e.node]); }
    forall n | n in now
      ensures IsEarliest(all, n, now[n])
    {
      if n in info && (n != e.node || info[n].when <= e.info.when) {
        StaysEarliest(entries, n, info[n], e);
      } else {
        BecomesEarliest(entries, e);
      }
    }
  }

  function KeepAll(info: map<Node, PushInfo>, entries: seq<Entry>): map<Node, PushInfo> {
    if entries == [] then info else Keep(KeepAll(info, entries[..|entries| - 1]), entries[|entries| - 1])
  }

  lemma {:induction false} KeepAllEarliest(entries: seq<Entry>)
    ensures Earliest(entries, KeepAll(map[], entries))
  {
    if entries != [] {
      var front, e := entries[..|entries| - 1], entries[|entries| - 1];
      KeepAllEarliest(front);
      KeepsEarliest(front, KeepAll(map[], front), e);
      assert entries == front + [e];
    }
  }

  lemma {:induction false} KeepAllConcat(info: map<Node, PushInfo>, a: seq<Entry>, b: seq<Entry>)
    ensures KeepAll(info, a + b) == KeepAll(KeepAll(info, a), b)
  {
    if b == [] {
      assert a + b == a;
    } else {
      var front := b[..|b| - 1];
      assert (a + b)[..|a + b| - 1] == a + front;
      KeepAllConcat(info, a, front);
    }
  }

  lemma CollectNone(s: Source, push: Push, info: map<Node, PushInfo>)
    ensures KeepAll(info, PushEntries(s, push, [])) == info
  {
  }

  lemma CollectStep(s: Source, push: Push, info: map<Node, PushInfo>, k: nat)
    requires k < |push.nodes|
    ensures var n, before := push.nodes[k], KeepAll(info, PushEntries(s, push, push.nodes[..k]));
            KeepAll(info, PushEntries(s, push, push.nodes[..k + 1])) ==
            if n in s.nodes then Keep(before, Entry(n, InfoOf(s, push, n))) else before
  {
    hide Keep, InfoOf;
    var n, before := push.nodes[k], PushEntries(s, push, push.nodes[..k]);
    assert push.nodes[..k + 1][..k] == push.nodes[..k];
    if n in s.nodes {
      KeepLast(info, before, Entry(n, InfoOf(s, push, n)));
    } else {
      assert before + [] == before;
    }
  }

  lemma KeepLast(info: map<Node, PushInfo>, entries: seq<Entry>, e: Entry)
    ensures KeepAll(info, entries + [e]) == Keep(KeepAll(info, entries), e)
  {
    assert (entries + [e])[..|entries|] == entries;
  }

  method CollectPush(s: Source, push: Push, info: map<Node, PushInfo>) returns (nodepushinfo: map<Node, PushInfo>)
    ensures nodepushinfo == KeepAll(info, PushEntries(s, push, push.nodes))
  {
    hide KeepAll, PushEntries, RevOf;
    nodepushinfo := info;
    CollectNone(s, push, info);
    for k := 0 to |push.nodes|
      invariant nodepushinfo == KeepAll(info, PushEntries(s, push, push.nodes[..k]))
    {
      var n := push.nodes[k];
      CollectStep(s, push, info, k);
      if n in s.nodes {
        var rev := RevOf(s.nodes, n);
        if n !in nodepushinfo {
          nodepushinfo := nodepushinfo[n := PushInfo(push.when, s.path, rev, push.user, push.id)];
        } else {
          var currentwhen := nodepushinfo[n].when;
          if push.when < currentwhen {
            nodepushinfo := nodepushinfo[n := PushInfo(push.when, s.path, rev, push.user, push.id)];
          }
        }
      }
    }
    assert push.nodes[..|push.nodes|] == push.nodes;
  }

  /** The collection pass of `unifyrepo` over every push of every source. */
  method CollectPushInfo(sources: seq<Source>) returns (nodepushinfo: map<Node, PushInfo>)
    ensures nodepushinfo == KeepAll(map[], Entries(sources))
    ensures Earliest(Entries(sources), nodepushinfo)
  {
    nodepushinfo := map[];
    for i := 0 to |sources|
      invariant nodepushinfo == KeepAll(map[], Entries(sources[..i]))
    {
      var s := sources[i];
      ghost var before := nodepushinfo;
      for j := 0 to |s.pushes|
        invariant nodepushinfo == KeepAll(before, SourceEntries(s, s.pushes[..j]))
      {
        assert s.pushes[..j + 1][..j] == s.pushes[..j];
        KeepAllConcat(before, SourceEntries(s, s.pushes[..j]), PushEntries(s, s.pushes[j], s.pushes[j].nodes));
        nodepushinfo := CollectPush(s, s.pushes[j], nodepushinfo);
      }
      assert s.pushes[..|s.pushes|] == s.pushes;
      assert sources[..i + 1][..i] == sources[..i];
      KeepAllConcat(map[], Entries(sources[..i]), SourceEntries(s, s.pushes));
    }
    assert sources[..|sources|] == sources;
    KeepAllEarliest(Entries(sources));
  }

  // ---------------------------------------------------------------- the inverse map

  /** Sections of the settings file may name the same repository, but a path names one repository. */
  ghost predicate PathsNameRepositories(sources: seq<Source>) {
    forall s, t :: s in sources && t in sources && s.path == t.path ==> s == t
  }

  /** `e` is the record of a push made to a source. */
  ghost predicate Recorded(sources: seq<Source>, e: Entry) {
    exists s, p :: s in sources && p in s.pushes && RecordedIn(s, p, e)
  }

  ghost predicate RecordedIn(s: Source, p: Push, e: Entry) {
    && e.node in p.nodes && e.info.rev < |s.nodes| && s.nodes[e.info.rev] == e.node
    && e.info.path == s.path && e.info.when == p.when && e.info.who == p.user && e.info.pushid == p.id
  }

  lemma {:induction false} PushEntriesRecorded(s: Source, p: Push, nodes: seq<Node>, e: Entry)
    requires e in PushEntries(s, p, nodes) && forall n :: n in nodes ==> n in p.nodes
    ensures RecordedIn(s, p, e)
  {
    var front := nodes[..|nodes| - 1];
    if e in PushEntries(s, p, front) { PushEntriesRecorded(s, p, front, e); }
  }

  lemma {:induction false} SourceEntriesRecorded(s: Source, pushes: seq<Push>, e: Entry) returns (p: Push)
    requires e in SourceEntries(s, pushes)
    ensures p in pushes && RecordedIn(s, p, e)
  {
    var front := pushes[..|pushes| - 1];
    if e in SourceEntries(s, front) {
      p := SourceEntriesRecorded(s, front, e);
    } else {
      p := pushes[|pushes| - 1];
      PushEntriesRecorded(s, p, p.nodes, e);
    }
  }

  lemma {:induction false} EntriesRecorded(sources: seq<Source>, e: Entry)
    requires e in Entries(sources)
    ensures Recorded(sources, e)
  {
    var front, s := sources[..|sources| - 1], sources[|sources| - 1];
    if e in Entries(front) {
      EntriesRecorded(front, e);
      var t, p :| t in front && p in t.pushes && RecordedIn(t, p, e);
      assert t in sources;
    } else {
      var p := SourceEntriesRecorded(s, s.pushes, e);
    }
  }

  lemma InfoRecorded(sources: seq<Source>, info: map<Node, PushInfo>, n: Node)
    requires Earliest(Entries(sources), info) && n in info
    ensures Recorded(sources, Entry(n, info[n]))
  {
    EntriesRecorded(sources, Entry(n, info[n]));
  }

  /** Two changesets never share a push record, so inverting the map loses none. */
  lemma InfoInjective(sources: seq<Source>, info: map<Node, PushInfo>, m: Node, n: Node)
    requires Earliest(Entries(sources), info) && PathsNameRepositories(sources)
    requires m in info && n in info && info[m] == info[n]
    ensures m == n
  {
    InfoRecorded(sources, info, m);
    InfoRecorded(sources, info, n);
    var s, p :| s in sources && p in s.pushes && RecordedIn(s, p, Entry(m, info[m]));
    var t, q :| t in sources && q in t.pushes && RecordedIn(t, q, Entry(n, info[n]));
    assert s == t;
  }

  /** `items` are the items of the inverse of `info` restricted to the aggregated nodes, in some order. */
  ghost predicate InverseItems(info: map<Node, PushInfo>, wanted: set<Node>, items: seq<Entry>) {
    && (forall i, j :: 0 <= i < j < |items| ==> items[i].info != items[j].info)
    && (forall e :: e in items ==> e.node in info && e.node in wanted && e.info == info[e.node])
    && (forall n :: n in info && n in wanted ==> exists e :: e in items && e.info == info[n])
  }

  /** Every aggregated changeset is listed exactly once. */
  lemma InverseLosesNothing(sources: seq<Source>, info: map<Node, PushInfo>, wanted: set<Node>, items: seq<Entry>)
    requires Earliest(Entries(sources), info) && PathsNameRepositories(sources) && InverseItems(info, wanted, items)
    ensures forall n :: n in info && n in wanted ==> Entry(n, info[n]) in items
    ensures forall i, j :: 0 <= i < j < |items| ==> items[i].node != items[j].node
  {
    forall n | n in info && n in wanted
      ensures Entry(n, info[n]) in items
    {
      var e :| e in items && e.info == info[n];
      InfoInjective(sources, info, e.node, n);
    }
  }

  // ---------------------------------------------------------------- grouping into pushes

  datatype Group = Group(source: string, pushid: nat, who: string, when: nat, nodes: seq<Node>)

  function Nodes(items: seq<Entry>): (r: seq<Node>)
    ensures |r| == |items| && forall i :: 0 <= i < |r| ==> r[i] == items[i].node
  {
    seq(|items|, i requires 0 <= i < |items| => items[i].node)
  }

  function Flatten(groups: seq<Group>): seq<Node> {
    if groups == [] then [] else Flatten(groups[..|groups| - 1]) + groups[|groups| - 1].nodes
  }

  predicate SamePush(a: Group, b: Group) {
    a.source == b.source && a.pushid == b.pushid
  }

  /** The items a group stands for: items of one push, led by the one whose user and time the group keeps. */
  ghost predicate Stands(g: Group, items: seq<Entry>) {
    && items != [] && g.nodes == Nodes(items)
    && g.who == items[0].info.who && g.when == items[0].info.when
    && forall i :: 0 <= i < |items| ==> items[i].info.path == g.source && items[i].info.pushid == g.pushid
  }

  /** `groups` cut `items` into consecutive stretches, each of one push, neighbours of different pushes. */
  ghost predicate Groups(groups: seq<Group>, items: seq<Entry>) {
    if groups == [] then items == []
    else
      var front, g := groups[..|groups| - 1], groups[|groups| - 1];
      var cut := |items| - |g.nodes|;
      && 0 <= cut && Stands(g, items[cut..]) && Groups(front, items[..cut])
      && (front != [] ==> !SamePush(front[|front| - 1], g))
  }

  lemma GroupStarts(groups: seq<Group>, items: seq<Entry>, e: Entry, g: Group)
    requires Groups(groups, items) && (groups != [] ==> !SamePush(groups[|groups| - 1], g))
    requires g == Group(e.info.path, e.info.pushid, e.info.who, e.info.when, [e.node])
    ensures Groups(groups + [g], items + [e])
  {
    var all, now := items + [e], groups + [g];
    assert now[..|now| - 1] == groups;
    assert all[|items|..] == [e] && all[..|items|] == items;
  }

  lemma StandsMore(g: Group, items: seq<Entry>, e: Entry)
    requires Stands(g, items) && g.source == e.info.path && g.pushid == e.info.pushid
    ensures Stands(g.(nodes := g.nodes + [e.node]), items + [e])
  {
  }

  lemma {:induction false} GroupsLast(groups: seq<Group>, g: Group, items: seq<Entry>)
    ensures Groups(groups + [g], items)
       <==> && |g.nodes| <= |items| && Stands(g, items[|items| - |g.nodes|..])
            && Groups(groups, items[..|items| - |g.nodes|])
            && (groups != [] ==> !SamePush(groups[|groups| - 1], g))
  {
    hide Stands, SamePush;
    var all := groups + [g];
    assert all[..|all| - 1] == groups && all[|all| - 1] == g;
  }

  lemma {:induction false} GroupGrows(groups: seq<Group>, g: Group, items: seq<Entry>, e: Entry)
    requires Groups(groups + [g], items) && g.source == e.info.path && g.pushid == e.info.pushid
    ensures Groups(groups + [g.(nodes := g.nodes + [e.node])], items + [e])
  {
    hide Groups, Stands;
    var more := g.(nodes := g.nodes + [e.node]);
    GroupsLast(groups, g, items);
    GroupsLast(groups, more, items + [e]);
    var all, cut := items + [e], |items| - |g.nodes|;
    assert all[cut..] == items[cut..] + [e] && all[..cut] == items[..cut];
    StandsMore(g, items[cut..], e);
  }

  function Start(e: Entry): Group {
    Group(e.info.path, e.info.pushid, e.info.who, e.info.when, [e.node])
  }

  /** One item joins the last group when it is of the same push, and starts a group otherwise. */
  function Join(groups: seq<Group>, e: Entry): seq<Group> {
    if groups != [] && SamePush(groups[|groups| - 1], Start(e)) then
      var g := groups[|groups| - 1];
      groups[..|groups| - 1] + [g.(nodes := g.nodes + [e.node])]
    else
      groups + [Start(e)]
  }

  function Regroup(items: seq<Entry>): seq<Group> {
    if items == [] then [] else Join(Regroup(items[..|items| - 1]), items[|items| - 1])
  }

  lemma {:induction false} RegroupCuts(items: seq<Entry>)
    ensures Groups(Regroup(items), items)
  {
    if items != [] {
      var front, e := items[..|items| - 1], items[|items| - 1];
      var groups := Regroup(front);
      RegroupCuts(front);
      assert items == front + [e];
      if groups != [] && SamePush(groups[|groups| - 1], Start(e)) {
        var g := groups[|groups| - 1];
        assert groups == groups[..|groups| - 1] + [g];
        GroupGrows(groups[..|groups| - 1], g, front, e);
      } else {
        GroupStarts(groups, front, e, Start(e));
      }
    }
  }

  lemma RegroupNone()
    ensures Regroup([]) == []
  {
  }

  lemma RegroupSome(items: seq<Entry>)
    requires items != []
    ensures Regroup(items) != []
  {
  }

  lemma RegroupStep(items: seq<Entry>, i: nat)
    requires i < |items|
    ensures Regroup(items[..i + 1]) == Join(Regroup(items[..i]), items[i])
  {
    assert items[..i + 1][..i] == items[..i];
  }

  /** `unifypushes` over the sorted items. The last group is yielded only when its source path is not empty. */
  method UnifyPushes(items: seq<Entry>) returns (out: seq<Group>)
    ensures Groups(Regroup(items), items) && (items != [] ==> Regroup(items) != [])
    ensures out == if items != [] && items[|items| - 1].info.path == "" then Regroup(items)[..|Regroup(items)| - 1]
                   else Regroup(items)
  {
    hide Groups, Regroup;
    RegroupNone();
    var lastsource: Option<string> := None;
    var lastid, lastwhen, lastwho := 0, 0, "";
    var nodes: seq<Node> := [];
    out := [];
    for i := 0 to |items|
      invariant lastsource.None? ==> i == 0 && out == [] && nodes == []
      invariant lastsource.Some? ==> i > 0 && lastsource.value == items[i - 1].info.path
      invariant lastsource.Some? ==>
                  out + [Group(lastsource.value, lastid, lastwho, lastwhen, nodes)] == Regroup(items[..i])
    {
      var Entry(node, PushInfo(when, source, rev, who, pushid)) := items[i];
      ghost var groups := Regroup(items[..i]);
      RegroupStep(items, i);
      if lastsource.None? {
        assert items[..0] == [] && groups == [];
        lastsource, lastid, lastwhen, lastwho := Some(source), pushid, when, who;
        nodes := nodes + [node];
        assert nodes == [node];
        continue;
      }
      assert groups[..|groups| - 1] == out;
      assert groups[|groups| - 1] == Group(lastsource.value, lastid, lastwho, lastwhen, nodes);
      if lastsource.value == source && lastid == pushid {
        nodes := nodes + [node];
        continue;
      }
      out := out + [Group(lastsource.value, lastid, lastwho, lastwhen, nodes)];
      lastsource, lastid, lastwhen, lastwho := Some(source), pushid, when, who;
      nodes := [node];
    }
    assert items[..|items|] == items;
    if items != [] { RegroupSome(items); }
    RegroupCuts(items);
    if lastsource.Some? && lastsource.value != "" {
      out := out + [Group(lastsource.value, lastid, lastwho, lastwhen, nodes)];
    }
  }

  /** Grouping loses, adds and reorders nothing. */
  lemma {:induction false} GroupsConserve(groups: seq<Group>, items: seq<Entry>)
    requires Groups(groups, items)
    ensures Flatten(groups) == Nodes(items)
  {
    if groups != [] {
      var front, g := groups[..|groups| - 1], groups[|groups| - 1];
      var cut := |items| - |g.nodes|;
      GroupsConserve(front, items[..cut]);
      assert Nodes(items) == Nodes(items[..cut]) + Nodes(items[cut..]);
    }
  }

  /** Two neighbouring groups are always of different pushes. */
  lemma {:induction false} GroupsAlternate(groups: seq<Group>, items: seq<Entry>, i: nat)
    requires Groups(groups, items) && 0 < i < |groups|
    ensures !SamePush(groups[i - 1], groups[i])
  {
    var front, g := groups[..|groups| - 1], groups[|groups| - 1];
    if i < |front| { GroupsAlternate(front, items[..|items| - |g.nodes|], i); }
  }

  lemma {:induction false} GroupItems(groups: seq<Group>, items: seq<Entry>, g: Group) returns (own: seq<Entry>)
    requires Groups(groups, items) && g in groups
    ensures Stands(g, own) && forall e :: e in own ==> e in items
  {
    var front, last := groups[..|groups| - 1], groups[|groups| - 1];
    var cut := |items| - |last.nodes|;
    if g == last {
      own := items[cut..];
    } else {
      own := GroupItems(front, items[..cut], g);
    }
  }

  ghost predicate PushIdsUnique(sources: seq<Source>) {
    forall s, p, q :: s in sources && p in s.pushes && q in s.pushes && p.id == q.id ==> p == q
  }

  lemma SamePushSameRecord(sources: seq<Source>, info: map<Node, PushInfo>, a: Entry, b: Entry)
    requires Earliest(Entries(sources), info) && PathsNameRepositories(sources) && PushIdsUnique(sources)
    requires a.node in info && a.info == info[a.node] && b.node in info && b.info == info[b.node]
    requires a.info.path == b.info.path && a.info.pushid == b.info.pushid
    ensures a.info.who == b.info.who && a.info.when == b.info.when
  {
    InfoRecorded(sources, info, a.node);
    InfoRecorded(sources, info, b.node);
    var s, p :| s in sources && p in s.pushes && RecordedIn(s, p, a);
    var t, q :| t in sources && q in t.pushes && RecordedIn(t, q, b);
    assert s == t && p == q;
  }

  /** Every changeset keeps the user and time of its original push. */
  lemma GroupsKeepProvenance(sources: seq<Source>, info: map<Node, PushInfo>, items: seq<Entry>,
                             groups: seq<Group>, g: Group, n: Node)
    requires Earliest(Entries(sources), info) && PathsNameRepositories(sources) && PushIdsUnique(sources)
    requires forall e :: e in items ==> e.node in info && e.info == info[e.node]
    requires Groups(groups, items) && g in groups && n in g.nodes
    ensures n in info && info[n].who == g.who && info[n].when == g.when
  {
    var own := GroupItems(groups, items, g);
    var k :| 0 <= k < |own| && own[k].node == n;
    SamePushSameRecord(sources, info, own[0], own[k]);
  }

  // ---------------------------------------------------------------- new pushes of the destination

  function LogNodes(log: seq<Push>): set<Node> {
    set p, n | p in log && n in p.nodes :: n
  }

  /** The largest id in the log. */
  function LastPushId(log: seq<Push>): nat {
    PushTables.LastId(PushTables.PushRows(log))
  }

  lemma LastPushIdBounds(log: seq<Push>)
    ensures forall i :: 0 <= i < |log| ==> log[i].id <= LastPushId(log)
  {
    var rows := PushTables.PushRows(log);
    forall i | 0 <= i < |log|
      ensures log[i].id <= LastPushId(log)
    {
      PushTables.LastIdBounds(rows, i);
    }
  }

  function Missing(nodes: seq<Node>, have: set<Node>): (r: seq<Node>)
    ensures forall n :: n in r <==> n in nodes && n !in have
    ensures Distinct(nodes) ==> Distinct(r)
  {
    if nodes == [] then []
    else (if nodes[0] in have then [] else [nodes[0]]) + Missing(nodes[1..], have)
  }

  /** The pushes inserted for the given groups when the destination already logs `have` up to id `last`. */
  function Inserted(groups: seq<Group>, have: set<Node>, last: nat): (r: seq<Push>)
    ensures forall i :: 0 <= i < |r| ==> r[i].id == last + 1 + i && r[i].nodes != []
  {
    if groups == [] then []
    else
      var front, g := groups[..|groups| - 1], groups[|groups| - 1];
      var done := Inserted(front, have, last);
      var missing := Missing(g.nodes, have);
      if missing == [] then done else done + [PushStream.Push(last + 1 + |done|, g.who, g.when, missing)]
  }

  lemma NoLogNodes(log: seq<Push>)
    requires log == []
    ensures LogNodes(log) == {}
  {
  }

  lemma LogNodesStep(log: seq<Push>, i: nat)
    requires i < |log|
    ensures LogNodes(log[..i + 1]) == LogNodes(log[..i]) + set n | n in log[i].nodes
  {
    assert log[..i + 1] == log[..i] + [log[i]];
  }

  lemma FlattenLast(front: seq<Group>, g: Group)
    ensures Flatten(front + [g]) == Flatten(front) + g.nodes
  {
    assert (front + [g])[..|front|] == front;
  }

  lemma InsertedLast(front: seq<Group>, g: Group, have: set<Node>, last: nat)
    ensures var done, missing := Inserted(front, have, last), Missing(g.nodes, have);
            Inserted(front + [g], have, last) ==
            if missing == [] then done else done + [PushStream.Push(last + 1 + |done|, g.who, g.when, missing)]
  {
    hide Missing;
    assert (front + [g])[..|front|] == front;
  }

  method NewPushes(log: seq<Push>, groups: seq<Group>) returns (out: seq<Push>)
    ensures out == Inserted(groups, LogNodes(log), LastPushId(log))
    ensures forall i :: 0 <= i < |out| ==> out[i].id == LastPushId(log) + 1 + i
    ensures forall i, j :: 0 <= i < |out| && 0 <= j < |log| ==> log[j].id < out[i].id
  {
    hide LogNodes, LastPushId, Missing;
    LastPushIdBounds(log);
    var lastpushid := LastPushId(log);
    var destpushnodes: set<Node> := {};
    assert LogNodes(log[..0]) == {} by { NoLogNodes(log[..0]); }
    for i := 0 to |log|
      invariant destpushnodes == LogNodes(log[..i])
    {
      LogNodesStep(log, i);
      destpushnodes := destpushnodes + set n | n in log[i].nodes;
    }
    assert log[..|log|] == log;
    out := [];
    for i := 0 to |groups|
      invariant out == Inserted(groups[..i], LogNodes(log), LastPushId(log))
      invariant lastpushid == LastPushId(log) + |out|
    {
      var missing := Missing(groups[i].nodes, destpushnodes);
      assert groups[..i + 1] == groups[..i] + [groups[i]];
      InsertedLast(groups[..i], groups[i], LogNodes(log), LastPushId(log));
      if missing == [] {
        continue;
      }
      lastpushid := lastpushid + 1;
      out := out + [PushStream.Push(lastpushid, groups[i].who, groups[i].when, missing)];
    }
    assert groups[..|groups|] == groups;
  }

  function Count(pushes: seq<Push>, n: Node): nat {
    if pushes == [] then 0
    else Count(pushes[..|pushes| - 1], n) + multiset(pushes[|pushes| - 1].nodes)[n]
  }

  lemma MissingMultiset(nodes: seq<Node>, have: set<Node>, n: Node)
    ensures multiset(Missing(nodes, have))[n] == if n in have then 0 else multiset(nodes)[n]
  {
    if nodes != [] {
      MissingMultiset(nodes[1..], have, n);
      assert nodes == [nodes[0]] + nodes[1..];
    }
  }

  /** Each node is inserted as often as it is listed when the destination lacks it, and never otherwise. */
  lemma {:induction false} InsertedCount(groups: seq<Group>, have: set<Node>, last: nat, n: Node)
    ensures Count(Inserted(groups, have, last), n) == if n in have then 0 else multiset(Flatten(groups))[n]
  {
    if groups != [] {
      var front, g := groups[..|groups| - 1], groups[|groups| - 1];
      InsertedCount(front, have, last, n);
      MissingMultiset(g.nodes, have, n);
      var done := Inserted(front, have, last);
      var all := Inserted(groups, have, last);
      if all != done { assert all[..|all| - 1] == done; }
    }
  }

  lemma DistinctCount(s: seq<Node>, n: Node)
    requires Distinct(s) && n in s
    ensures multiset(s)[n] == 1
  {
    var i :| 0 <= i < |s| && s[i] == n;
    assert s == s[..i] + [n] + s[i + 1..];
    assert n !in multiset(s[..i]) && n !in multiset(s[i + 1..]);
  }

  lemma {:induction false} CountedIsLogged(pushes: seq<Push>, n: Node)
    ensures Count(pushes, n) > 0 <==> n in LogNodes(pushes)
  {
    if pushes != [] {
      var front, p := pushes[..|pushes| - 1], pushes[|pushes| - 1];
      CountedIsLogged(front, n);
      assert LogNodes(pushes) == LogNodes(front) + (set m | m in p.nodes) by {
        assert pushes == front + [p];
      }
      assert multiset(p.nodes)[n] > 0 <==> n in p.nodes;
    }
  }

  lemma RegroupConserves(items: seq<Entry>)
    ensures Flatten(Regroup(items)) == Nodes(items)
  {
    RegroupCuts(items);
    GroupsConserve(Regroup(items), items);
  }

  lemma ItemsAreWanted(info: map<Node, PushInfo>, wanted: set<Node>, items: seq<Entry>)
    requires InverseItems(info, wanted, items)
    ensures forall i :: 0 <= i < |items| ==> items[i].node in info && items[i].node in wanted
  {
    assert forall i :: 0 <= i < |items| ==> items[i] in items;
  }

  lemma ListedOnce(sources: seq<Source>, info: map<Node, PushInfo>, wanted: set<Node>, items: seq<Entry>, n: Node)
    requires Earliest(Entries(sources), info) && PathsNameRepositories(sources) && InverseItems(info, wanted, items)
    ensures Distinct(Nodes(items))
    ensures n in Nodes(items) <==> n in info && n in wanted
  {
    hide Earliest, Entries, PathsNameRepositories, InverseItems;
    InverseLosesNothing(sources, info, wanted, items);
    ItemsAreWanted(info, wanted, items);
    if n in info && n in wanted {
      var i :| 0 <= i < |items| && items[i] == Entry(n, info[n]);
      assert Nodes(items)[i] == n;
    }
    if n in Nodes(items) {
      var i :| 0 <= i < |items| && items[i].node == n;
    }
  }

  /**
   End to end: every aggregated changeset that the destination's push log lacks ends up in exactly one inserted push,
   and no other changeset is inserted.
   */
  lemma EveryChangesetPushedOnce(sources: seq<Source>, info: map<Node, PushInfo>, wanted: set<Node>, items: seq<Entry>,
                                 log: seq<Push>, n: Node)
    requires Earliest(Entries(sources), info) && PathsNameRepositories(sources) && InverseItems(info, wanted, items)
    ensures Count(Inserted(Regroup(items), LogNodes(log), LastPushId(log)), n)
         == if n in info && n in wanted && n !in LogNodes(log) then 1 else 0
  {
    RegroupConserves(items);
    ListedOnce(sources, info, wanted, items, n);
    InsertedCount(Regroup(items), LogNodes(log), LastPushId(log), n);
    if n in Nodes(items) { DistinctCount(Nodes(items), n); }
  }

  lemma MissingNothing(nodes: seq<Node>, have: set<Node>)
    requires forall n :: n in nodes ==> n in have
    ensures Missing(nodes, have) == []
  {
  }

  lemma {:induction false} NothingMissing(groups: seq<Group>, have: set<Node>, last: nat)
    requires forall n :: n in Flatten(groups) ==> n in have
    ensures Inserted(groups, have, last) == []
  {
    if groups != [] {
      var front, g := groups[..|groups| - 1], groups[|groups| - 1];
      assert forall n :: n in g.nodes || n in Flatten(front) ==> n in Flatten(groups);
      NothingMissing(front, have, last);
      MissingNothing(g.nodes, have);
    }
  }

  /** Once the inserted pushes are recorded, a second pass has nothing to insert. */
  lemma SecondPassIsEmpty(groups: seq<Group>, log: seq<Push>)
    ensures var recorded := log + Inserted(groups, LogNodes(log), LastPushId(log));
            Inserted(groups, LogNodes(recorded), LastPushId(recorded)) == []
  {
    var added := Inserted(groups, LogNodes(log), LastPushId(log));
    var recorded := log + added;
    forall n | n in Flatten(groups)
      ensures n in LogNodes(recorded)
    {
      InsertedCount(groups, LogNodes(log), LastPushId(log), n);
      CountedIsLogged(added, n);
      if n in LogNodes(added) {
        var p :| p in added && n in p.nodes;
        assert p in recorded;
      } else {
        var p :| p in log && n in p.nodes;
        assert p in recorded;
      }
    }
    NothingMissing(groups, LogNodes(recorded), LastPushId(recorded));
  }

  // ---------------------------------------------------------------- recording the new pushes

  /** Every node of a push stands in the given list. */
  ghost predicate NodesFrom(pushes: seq<Push>, nodes: seq<Node>) {
    forall i, m :: 0 <= i < |pushes| && 0 <= m < |pushes[i].nodes| ==> pushes[i].nodes[m] in nodes
  }

  lemma InsertedMore(done: seq<Push>, p: Push, before: seq<Node>, own: seq<Node>)
    requires PushTables.NodesOnce(done) && NodesFrom(done, before) && Distinct(before + own)
    requires Distinct(p.nodes) && forall n :: n in p.nodes ==> n in own
    ensures PushTables.NodesOnce(done + [p]) && NodesFrom(done + [p], before + own)
  {
    var all := done + [p];
    assert forall n :: 0 <= n < |p.nodes| ==> p.nodes[n] in own;
    forall i, m, n | 0 <= i < |done| && 0 <= m < |done[i].nodes| && 0 <= n < |p.nodes|
      ensures done[i].nodes[m] != p.nodes[n]
    {
      var x :| 0 <= x < |before| && before[x] == done[i].nodes[m];
      var y :| 0 <= y < |own| && own[y] == p.nodes[n];
      assert (before + own)[x] != (before + own)[|before| + y];
    }
  }

  lemma DistinctParts(a: seq<Node>, b: seq<Node>)
    requires Distinct(a + b)
    ensures Distinct(a) && Distinct(b)
  {
    assert a == (a + b)[..|a|] && b == (a + b)[|a|..];
  }

  lemma NodesFromMore(pushes: seq<Push>, before: seq<Node>, own: seq<Node>)
    requires NodesFrom(pushes, before)
    ensures NodesFrom(pushes, before + own)
  {
  }

  lemma InsertedNone(groups: seq<Group>, have: set<Node>, last: nat)
    requires groups == []
    ensures Once(Inserted(groups, have, last), Flatten(groups))
  {
  }

  ghost predicate Once(pushes: seq<Push>, nodes: seq<Node>) {
    PushTables.NodesOnce(pushes) && NodesFrom(pushes, nodes)
  }

  lemma OnceMore(done: seq<Push>, p: Push, before: seq<Node>, own: seq<Node>)
    requires Once(done, before) && Distinct(before + own) && Distinct(p.nodes) && forall n :: n in p.nodes ==> n in own
    ensures Once(done + [p], before + own)
  {
    InsertedMore(done, p, before, own);
  }

  lemma OnceSame(done: seq<Push>, before: seq<Node>, own: seq<Node>)
    requires Once(done, before)
    ensures Once(done, before + own)
  {
    NodesFromMore(done, before, own);
  }

  lemma {:induction false} InsertedOnce(groups: seq<Group>, have: set<Node>, last: nat)
    requires Distinct(Flatten(groups))
    ensures Once(Inserted(groups, have, last), Flatten(groups))
  {
    hide Once, Distinct, Missing, Flatten, Inserted;
    if groups == [] {
      InsertedNone(groups, have, last);
    } else {
      var front, g := groups[..|groups| - 1], groups[|groups| - 1];
      assert groups == front + [g];
      var before := Flatten(front);
      FlattenLast(front, g);
      InsertedLast(front, g, have, last);
      DistinctParts(before, g.nodes);
      InsertedOnce(front, have, last);
      var done, missing := Inserted(front, have, last), Missing(g.nodes, have);
      if missing == [] {
        OnceSame(done, before, g.nodes);
      } else {
        OnceMore(done, PushStream.Push(last + 1 + |done|, g.who, g.when, missing), before, g.nodes);
      }
    }
  }

  lemma {:induction false} InsertedLacked(groups: seq<Group>, have: set<Node>, last: nat)
    ensures forall i, m ::
              0 <= i < |Inserted(groups, have, last)| && 0 <= m < |Inserted(groups, have, last)[i].nodes| ==>
              Inserted(groups, have, last)[i].nodes[m] !in have
  {
    if groups != [] {
      var front, g := groups[..|groups| - 1], groups[|groups| - 1];
      InsertedLacked(front, have, last);
      assert forall m :: 0 <= m < |Missing(g.nodes, have)| ==> Missing(g.nodes, have)[m] in Missing(g.nodes, have);
    }
  }

  lemma InsertedApart(groups: seq<Group>, log: seq<Push>)
    ensures PushTables.Apart(log, Inserted(groups, LogNodes(log), LastPushId(log)))
  {
    LastPushIdBounds(log);
    InsertedLacked(groups, LogNodes(log), LastPushId(log));
    forall i, m | 0 <= i < |log| && 0 <= m < |log[i].nodes|
      ensures log[i].nodes[m] in LogNodes(log)
    {
      assert log[i] in log && log[i].nodes[m] in log[i].nodes;
    }
  }

  /** When the groups name each changeset once, all in the destination, no index refuses a row of the new pushes. */
  lemma NewPushesRecorded(groups: seq<Group>, log: seq<Push>, revs: PushTables.Revs)
    requires Distinct(Flatten(groups)) && forall n :: n in Flatten(groups) ==> n in revs
    requires PushTables.AllKnown(log, revs) && Injective(revs)
    requires PushTables.Indexed(PushTables.Added(PushTables.EMPTY, log, revs))
    ensures var new' := Inserted(groups, LogNodes(log), LastPushId(log));
            && PushTables.AllKnown(new', revs) && PushTables.AllKnown(log + new', revs)
            && PushTables.InsertAll(PushTables.Added(PushTables.EMPTY, log, revs), new', revs)
            == Some(PushTables.Added(PushTables.EMPTY, log + new', revs))
  {
    hide PushTables.NodesOnce, PushTables.Apart, PushTables.Indexed, Injective, LastPushId, LogNodes;
    var have, last := LogNodes(log), LastPushId(log);
    var more := Inserted(groups, have, last);
    InsertedOnce(groups, have, last);
    InsertedApart(groups, log);
    assert PushTables.AllKnown(more, revs);
    assert PushTables.IdsGrow(more);
    PushTables.RecordsApart(log, more, revs);
  }

  /**
   End to end: when every aggregated changeset was pulled into the destination, recording the new pushes succeeds and
   leaves the destination's log followed by them.
   */
  lemma RecordingSucceeds(sources: seq<Source>, info: map<Node, PushInfo>, wanted: set<Node>, items: seq<Entry>,
                          log: seq<Push>, revs: PushTables.Revs)
    requires Earliest(Entries(sources), info) && PathsNameRepositories(sources) && InverseItems(info, wanted, items)
    requires forall n :: n in info && n in wanted ==> n in revs
    requires PushTables.AllKnown(log, revs) && Injective(revs)
    requires PushTables.Indexed(PushTables.Added(PushTables.EMPTY, log, revs))
    ensures var new' := Inserted(Regroup(items), LogNodes(log), LastPushId(log));
            && PushTables.AllKnown(new', revs) && PushTables.AllKnown(log + new', revs)
            && PushTables.InsertAll(PushTables.Added(PushTables.EMPTY, log, revs), new', revs)
            == Some(PushTables.Added(PushTables.EMPTY, log + new', revs))
  {
    hide Earliest, Entries, PathsNameRepositories, InverseItems, PushTables.Indexed, Injective, LastPushId, LogNodes;
    RegroupConserves(items);
    forall n | n in Flatten(Regroup(items))
      ensures n in revs
    {
      ListedOnce(sources, info, wanted, items, n);
    }
    ListedOnce(sources, info, wanted, items, "");
    NewPushesRecorded(Regroup(items), log, revs);
  }
}
