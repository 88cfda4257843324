/**
 Which version introduced a changeset (hgext/mozext/__init__.py): versions are taken in sorted order, each claiming the
 ancestors of its head that no earlier version has claimed.
 */
module FirstVersion {
  import opened Prelude
  import opened Dag

  /** A version and the revision of its head. */
  type Version = (string, nat)

  /** `sorted(versions.items())`: the keys of a dictionary, each once, and heads that exist. */
  ghost predicate Versions(g: Graph, versions: seq<Version>) {
    && (forall i :: 0 <= i < |versions| ==> versions[i].1 < |g|)
    && (forall i, j :: 0 <= i < j < |versions| ==> versions[i].0 != versions[j].0)
  }

  function AncestorsOf(g: Graph, head: nat): set<nat>
    requires head < |g|
  {
    set r: nat | r < |g| && IsAncestor(g, r, head)
  }

  /** `findmissingrevs`: the ancestors of `head` that are not ancestors of any revision in `common`. */
  function FindMissing(g: Graph, common: set<nat>, head: nat): set<nat>
    requires head < |g| && forall c :: c in common ==> c < |g|
  {
    set r | r in AncestorsOf(g, head) && !exists c :: c in common && IsAncestor(g, r, c)
  }

  /** The first version whose head descends from `rev`, or is it. */
  function Introduced(g: Graph, versions: seq<Version>, rev: nat, i: nat): (r: Option<nat>)
    requires Versions(g, versions) && i <= |versions|
    ensures r.Some? ==> i <= r.value < |versions| && IsAncestor(g, rev, versions[r.value].1)
    ensures r.Some? ==> forall j :: i <= j < r.value ==> !IsAncestor(g, rev, versions[j].1)
    ensures r.None? ==> forall j :: i <= j < |versions| ==> !IsAncestor(g, rev, versions[j].1)
    decreases |versions| - i
  {
    if i == |versions| then None
    else if IsAncestor(g, rev, versions[i].1) then Some(i)
    else Introduced(g, versions, rev, i + 1)
  }

  /** The revisions claimed once the first `n` versions have been taken. */
  ghost predicate Seen(g: Graph, versions: seq<Version>, n: nat, seen: set<nat>)
    requires Versions(g, versions) && n <= |versions|
  {
    && (forall r :: r in seen ==> r < |g|)
    && (forall r: nat :: r < |g| ==> (r in seen <==> exists j :: 0 <= j < n && IsAncestor(g, r, versions[j].1)))
  }

  lemma SeenIsClosed(g: Graph, versions: seq<Version>, n: nat, seen: set<nat>, r: nat, c: nat)
    requires Versions(g, versions) && n <= |versions| && Seen(g, versions, n, seen)
    requires c in seen && c < |g| && r < |g| && IsAncestor(g, r, c)
    ensures r in seen
  {
    var j :| 0 <= j < n && IsAncestor(g, c, versions[j].1);
    AncestorTrans(g, r, c, versions[j].1);
  }

  lemma MissingIsUnseen(g: Graph, versions: seq<Version>, n: nat, seen: set<nat>)
    requires Versions(g, versions) && n < |versions| && Seen(g, versions, n, seen)
    ensures FindMissing(g, seen, versions[n].1) == AncestorsOf(g, versions[n].1) - seen
    ensures Seen(g, versions, n + 1, seen + FindMissing(g, seen, versions[n].1))
  {
    hide IsAncestor;
    var missing := FindMissing(g, seen, versions[n].1);
    forall r: nat | r < |g|
      ensures r in missing <==> r in AncestorsOf(g, versions[n].1) && r !in seen
    {
      if r in seen { SelfAncestor(g, r); }
      if c :| c in seen && IsAncestor(g, r, c) { SeenIsClosed(g, versions, n, seen, r, c); }
    }
  }

  lemma SelfAncestor(g: Graph, r: nat)
    requires r < |g|
    ensures IsAncestor(g, r, r)
  {
  }

  /** Each version has exactly the revisions it introduced. */
  ghost predicate Partition(g: Graph, versions: seq<Version>, n: nat, d: map<string, set<nat>>)
    requires Versions(g, versions) && n <= |versions|
  {
    && (forall v :: v in d <==> exists i :: 0 <= i < n && versions[i].0 == v)
    && (forall i :: 0 <= i < n ==> versions[i].0 in d)
    && (forall i, r: nat :: 0 <= i < n && r < |g| ==>
         (r in d[versions[i].0] <==> Introduced(g, versions, r, 0) == Some(i)))
    && (forall i, r :: 0 <= i < n && r in d[versions[i].0] ==> r < |g|)
  }

  lemma PartitionGrows(g: Graph, versions: seq<Version>, n: nat, d: map<string, set<nat>>, seen: set<nat>)
    requires Versions(g, versions) && n < |versions| && Seen(g, versions, n, seen) && Partition(g, versions, n, d)
    ensures Partition(g, versions, n + 1, d[versions[n].0 := AncestorsOf(g, versions[n].1) - seen])
  {
    hide IsAncestor;
    var mine := AncestorsOf(g, versions[n].1) - seen;
    var after := d[versions[n].0 := mine];
    forall r: nat | r < |g|
      ensures r in mine <==> Introduced(g, versions, r, 0) == Some(n)
    {
      var first := Introduced(g, versions, r, 0);
      if r in mine {
        assert first.Some? && !(first.value < n) && !(n < first.value);
      }
    }
  }

  /** `_earliest_version_ancestors`. */
  method EarliestVersionAncestors(g: Graph, versions: seq<Version>) returns (d: map<string, set<nat>>)
    requires Versions(g, versions)
    ensures Partition(g, versions, |versions|, d)
  {
    hide Partition, Seen, FindMissing, AncestorsOf;
    d := map[];
    var seen: set<nat> := {};
    NothingClaimed(g, versions);
    var n := 0;
    while n < |versions|
      invariant n <= |versions| && Seen(g, versions, n, seen) && Partition(g, versions, n, d)
    {
      SeenInRange(g, versions, n, seen);
      MissingIsUnseen(g, versions, n, seen);
      PartitionGrows(g, versions, n, d, seen);
      var ancestors := FindMissing(g, seen, versions[n].1);
      d := d[versions[n].0 := ancestors];
      seen := seen + ancestors;
      n := n + 1;
    }
  }

  lemma NothingClaimed(g: Graph, versions: seq<Version>)
    requires Versions(g, versions)
    ensures Seen(g, versions, 0, {}) && Partition(g, versions, 0, map[])
  {
  }

  lemma SeenInRange(g: Graph, versions: seq<Version>, n: nat, seen: set<nat>)
    requires Versions(g, versions) && n <= |versions| && Seen(g, versions, n, seen)
    ensures forall c :: c in seen ==> c < |g|
  {
  }

  lemma ClaimedBy(g: Graph, versions: seq<Version>, d: map<string, set<nat>>, r: nat, v: string) returns (i: nat)
    requires Versions(g, versions) && Partition(g, versions, |versions|, d) && r < |g| && v in d && r in d[v]
    ensures i < |versions| && versions[i].0 == v && Introduced(g, versions, r, 0) == Some(i)
  {
    i :| i < |versions| && versions[i].0 == v;
  }

  lemma Claims(g: Graph, versions: seq<Version>, d: map<string, set<nat>>, r: nat)
    requires Versions(g, versions) && Partition(g, versions, |versions|, d) && r < |g|
    ensures match Introduced(g, versions, r, 0)
            case Some(i) => versions[i].0 in d && r in d[versions[i].0]
            case None => forall v :: v in d ==> r !in d[v]
  {
  }

  /** The sets are disjoint and cover exactly the ancestors of the heads. */
  lemma DisjointAndComplete(g: Graph, versions: seq<Version>, d: map<string, set<nat>>, r: nat)
    requires Versions(g, versions) && Partition(g, versions, |versions|, d) && r < |g|
    ensures forall v, w :: v in d && w in d && r in d[v] && r in d[w] ==> v == w
    ensures (exists v :: v in d && r in d[v]) <==> exists i :: 0 <= i < |versions| && IsAncestor(g, r, versions[i].1)
  {
    hide IsAncestor, Partition;
    forall v, w | v in d && w in d && r in d[v] && r in d[w]
      ensures v == w
    {
      var i := ClaimedBy(g, versions, d, r, v);
      var j := ClaimedBy(g, versions, d, r, w);
    }
    Claims(g, versions, d, r);
  }

  /** The lookup of `_compute_first_version`, over the dictionary in any order: the version that introduced `rev`. */
  method FirstVersionOf(g: Graph, versions: seq<Version>, d: map<string, set<nat>>, order: seq<string>, rev: nat)
    returns (version: Option<string>)
    requires Versions(g, versions) && Partition(g, versions, |versions|, d) && rev < |g|
    requires forall v :: v in order <==> v in d
    ensures version == match Introduced(g, versions, rev, 0) case Some(i) => Some(versions[i].0) case None => None
  {
    hide IsAncestor, Partition;
    Claims(g, versions, d, rev);
    var k := 0;
    while k < |order|
      invariant k <= |order| && forall j :: 0 <= j < k ==> rev !in d[order[j]]
    {
      assert order[k] in order;
      if rev in d[order[k]] {
        ghost var i := ClaimedBy(g, versions, d, rev, order[k]);
        return Some(order[k]);
      }
      k := k + 1;
    }
    return None;
  }
}
