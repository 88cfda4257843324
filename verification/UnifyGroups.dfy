/** When an original push stays one push: statements about UnifyPushes (hgext/unifyrepo/__init__.py). */
module UnifyGroups {
  import opened Prelude
  import opened UnifyPushes

  // ---------------------------------------------------------------- the order of the items

  lemma BeforeOneWay(a: string, b: string)
    requires Before(a, b)
    ensures a != b && !Before(b, a)
  {
    BeforeIrreflexive(a);
    if Before(b, a) { BeforeTrans(a, b, a); }
  }

  /** How `sorted` compares two push records; a source has one changeset for a revision. */
  predicate Less(a: PushInfo, b: PushInfo) {
    a.when < b.when || (a.when == b.when && (Before(a.path, b.path) || (a.path == b.path && a.rev < b.rev)))
  }

  ghost predicate Sorted(items: seq<Entry>) {
    forall i, j :: 0 <= i < j < |items| ==> Less(items[i].info, items[j].info)
  }

  predicate OfPush(info: PushInfo, path: string, id: nat) {
    info.path == path && info.pushid == id
  }

  /** The changesets of a push share its time. */
  ghost predicate OneTime(items: seq<Entry>) {
    forall a, b :: a in items && b in items && OfPush(a.info, b.info.path, b.info.pushid) ==> a.info.when == b.info.when
  }

  lemma Between(items: seq<Entry>, i: nat, k: nat, j: nat)
    requires Sorted(items) && i < k < j < |items|
    requires items[i].info.when == items[j].info.when && items[i].info.path == items[j].info.path
    ensures var a, b, c := items[i].info, items[k].info, items[j].info;
            b.when == a.when && b.path == a.path && a.rev < b.rev < c.rev
  {
    var a, b, c := items[i].info, items[k].info, items[j].info;
    if Before(a.path, b.path) { BeforeOneWay(a.path, b.path); }
    if Before(b.path, c.path) { BeforeOneWay(b.path, c.path); }
  }

  lemma IndexByRev(items: seq<Entry>, i: nat, j: nat)
    requires Sorted(items) && i < |items| && j < |items|
    requires items[i].info.when == items[j].info.when && items[i].info.path == items[j].info.path
    requires items[i].info.rev < items[j].info.rev
    ensures i < j
  {
    if j < i && Before(items[j].info.path, items[i].info.path) {
      BeforeOneWay(items[j].info.path, items[i].info.path);
    }
  }

  // ---------------------------------------------------------------- where the groups stand

  /** The number of items before group `i`. */
  function Offset(groups: seq<Group>, i: nat): nat
    requires i <= |groups|
  {
    |Flatten(groups[..i])|
  }

  lemma OffsetStep(groups: seq<Group>, i: nat)
    requires i < |groups|
    ensures Offset(groups, i + 1) == Offset(groups, i) + |groups[i].nodes|
  {
    assert groups[..i + 1] == groups[..i] + [groups[i]];
    FlattenLast(groups[..i], groups[i]);
  }

  lemma {:induction false} OffsetsGrow(groups: seq<Group>, i: nat, j: nat)
    requires i <= j <= |groups|
    ensures Offset(groups, i) <= Offset(groups, j)
    decreases j
  {
    if i < j {
      OffsetsGrow(groups, i, j - 1);
      OffsetStep(groups, j - 1);
    }
  }

  /** The items of group `i` are those from its offset on, and the first one gives its time. */
  ghost predicate Holds(groups: seq<Group>, items: seq<Entry>, i: nat)
    requires i < |groups|
  {
    && Offset(groups, i) < Offset(groups, i + 1) <= |items|
    && groups[i].when == items[Offset(groups, i)].info.when
    && forall k :: Offset(groups, i) <= k < Offset(groups, i + 1) ==>
         OfPush(items[k].info, groups[i].source, groups[i].pushid)
  }

  lemma {:induction false} GroupHolds(groups: seq<Group>, items: seq<Entry>, i: nat)
    requires Groups(groups, items) && i < |groups|
    ensures Holds(groups, items, i)
    decreases |groups|
  {
    var front, g := groups[..|groups| - 1], groups[|groups| - 1];
    var cut := |items| - |g.nodes|;
    OffsetStep(groups, i);
    if i < |front| {
      GroupHolds(front, items[..cut], i);
      assert front[..i] == groups[..i] && front[..i + 1] == groups[..i + 1];
    } else {
      GroupsConserve(front, items[..cut]);
      assert groups[..i] == front;
      forall k | cut <= k < |items|
        ensures OfPush(items[k].info, g.source, g.pushid)
      {
        assert items[k] == items[cut..][k - cut];
      }
    }
  }

  /** Every item is in some group. */
  lemma GroupOf(groups: seq<Group>, items: seq<Entry>, k: nat) returns (i: nat)
    requires Groups(groups, items) && k < |items|
    ensures i < |groups| && Offset(groups, i) <= k < Offset(groups, i + 1)
    ensures OfPush(items[k].info, groups[i].source, groups[i].pushid)
  {
    GroupsConserve(groups, items);
    assert groups[..|groups|] == groups;
    i := Holder(groups, k, |groups|);
    GroupHolds(groups, items, i);
  }

  lemma {:induction false} Holder(groups: seq<Group>, k: nat, n: nat) returns (i: nat)
    requires n <= |groups| && k < Offset(groups, n)
    ensures i < n && Offset(groups, i) <= k < Offset(groups, i + 1)
    decreases n
  {
    if n > 0 && Offset(groups, n - 1) <= k {
      i := n - 1;
    } else {
      assert n > 0 by { assert groups[..0] == []; }
      i := Holder(groups, k, n - 1);
    }
  }

  /** The groups come by time, and those of one time by source. */
  lemma GroupsByTime(groups: seq<Group>, items: seq<Entry>, i: nat, j: nat)
    requires Groups(groups, items) && Sorted(items) && i < j < |groups|
    ensures var g, h := groups[i], groups[j];
            g.when < h.when || (g.when == h.when && (g.source == h.source || Before(g.source, h.source)))
  {
    GroupHolds(groups, items, i);
    GroupHolds(groups, items, j);
    OffsetsGrow(groups, i + 1, j);
    assert Less(items[Offset(groups, i)].info, items[Offset(groups, j)].info);
  }

  // ---------------------------------------------------------------- one push, one group

  /** The push has two groups. */
  ghost predicate Torn(groups: seq<Group>, path: string, id: nat) {
    exists i, j :: 0 <= i < j < |groups| && IsGroup(groups[i], path, id) && IsGroup(groups[j], path, id)
  }

  predicate IsGroup(g: Group, path: string, id: nat) {
    g.source == path && g.pushid == id
  }

  /** Another push of the same source and time has a revision between two of the push. */
  ghost predicate Crossed(items: seq<Entry>, path: string, id: nat) {
    exists x, y, z :: x in items && y in items && z in items && Crosses(x.info, y.info, z.info, path, id)
  }

  predicate Crosses(x: PushInfo, y: PushInfo, z: PushInfo, path: string, id: nat) {
    && OfPush(x, path, id) && OfPush(z, path, id) && y.path == path && y.pushid != id
    && y.when == x.when && x.rev < y.rev < z.rev
  }

  lemma TornIsCrossed(groups: seq<Group>, items: seq<Entry>, path: string, id: nat)
    requires Groups(groups, items) && Sorted(items) && OneTime(items) && Torn(groups, path, id)
    ensures Crossed(items, path, id)
  {
    hide Groups, Sorted, OneTime;
    var i, j :| 0 <= i < j < |groups| && IsGroup(groups[i], path, id) && IsGroup(groups[j], path, id);
    GroupsAlternate(groups, items, i + 1);
    assert i + 1 < j;
    GroupHolds(groups, items, i);
    GroupHolds(groups, items, i + 1);
    GroupHolds(groups, items, j);
    OffsetsGrow(groups, i + 2, j);
    var a, b, c := Offset(groups, i), Offset(groups, i + 1), Offset(groups, j);
    SameTime(items, a, c);
    Between(items, a, b, c);
    assert Crosses(items[a].info, items[b].info, items[c].info, path, id);
    assert items[a] in items && items[b] in items && items[c] in items;
  }

  lemma SameTime(items: seq<Entry>, a: nat, c: nat)
    requires OneTime(items) && a < |items| && c < |items|
    requires OfPush(items[a].info, items[c].info.path, items[c].info.pushid)
    ensures items[a].info.when == items[c].info.when
  {
    assert items[a] in items && items[c] in items;
  }

  lemma InGroupOrder(groups: seq<Group>, i: nat, a: nat, j: nat, b: nat)
    requires i < |groups| && j < |groups| && a < b
    requires Offset(groups, i) <= a && b < Offset(groups, j + 1)
    ensures i <= j
  {
    if j < i { OffsetsGrow(groups, j + 1, i); }
  }

  lemma CrossedIsTorn(groups: seq<Group>, items: seq<Entry>, path: string, id: nat)
    requires Groups(groups, items) && Sorted(items) && OneTime(items) && Crossed(items, path, id)
    ensures Torn(groups, path, id)
  {
    hide Groups, Sorted, OneTime;
    var x, y, z :| x in items && y in items && z in items && Crosses(x.info, y.info, z.info, path, id);
    var a: nat :| a < |items| && items[a] == x;
    var b: nat :| b < |items| && items[b] == y;
    var c: nat :| c < |items| && items[c] == z;
    SameTime(items, a, c);
    IndexByRev(items, a, b);
    IndexByRev(items, b, c);
    var i := GroupOf(groups, items, a);
    var k := GroupOf(groups, items, b);
    var j := GroupOf(groups, items, c);
    InGroupOrder(groups, i, a, k, b);
    InGroupOrder(groups, k, b, j, c);
  }

  /** A push of the sources is one push of the destination exactly if no other push of its source and time lies between
      its revisions. */
  lemma PushStaysWholeIff(sources: seq<Source>, info: map<Node, PushInfo>, items: seq<Entry>, groups: seq<Group>,
                          path: string, id: nat)
    requires Earliest(Entries(sources), info) && PathsNameRepositories(sources) && PushIdsUnique(sources)
    requires forall e :: e in items ==> e.node in info && e.info == info[e.node]
    requires Groups(groups, items) && Sorted(items)
    ensures Torn(groups, path, id) <==> Crossed(items, path, id)
  {
    hide Groups, Sorted, Earliest, Entries, PathsNameRepositories, PushIdsUnique, Torn, Crossed;
    forall a, b | a in items && b in items && OfPush(a.info, b.info.path, b.info.pushid)
      ensures a.info.when == b.info.when
    {
      SamePushSameRecord(sources, info, a, b);
    }
    assert OneTime(items);
    if Torn(groups, path, id) { TornIsCrossed(groups, items, path, id); }
    if Crossed(items, path, id) { CrossedIsTorn(groups, items, path, id); }
  }

  /** Two pushes of one source at the same time with interleaved revisions: the first one becomes two. */
  lemma InterleavedPushTorn(items: seq<Entry>, groups: seq<Group>)
    requires items == [Entry("a", PushInfo(5, "s", 0, "u", 1)), Entry("b", PushInfo(5, "s", 1, "v", 2)),
                       Entry("c", PushInfo(5, "s", 2, "u", 1))]
    requires groups == [Group("s", 1, "u", 5, ["a"]), Group("s", 2, "v", 5, ["b"]), Group("s", 1, "u", 5, ["c"])]
    ensures Sorted(items) && Regroup(items) == groups && Torn(groups, "s", 1)
  {
    RegroupStep(items, 0);
    RegroupStep(items, 1);
    RegroupStep(items, 2);
    assert items[..0] == [] && items[..3] == items;
    assert Regroup(items[..1]) == [groups[0]];
    assert Regroup(items[..2]) == [groups[0], groups[1]];
    assert IsGroup(groups[0], "s", 1) && IsGroup(groups[2], "s", 1);
  }
}
