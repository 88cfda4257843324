/**
 Collapsing the heads of the Try repository (scripts/merge_try_heads.py and scripts/merge_try_heads_commit.py): which
 heads a run captures, what each merge does to that list, and what signals, rollbacks and stale tips leave behind.
 */
module TryMerge {
  import opened Prelude
  import opened Dag

  /** `node[r]` is the identity of revision `r`; a rolled-back identity is never used again. */
  datatype Repository = Repository(graph: Graph, node: seq<nat>, onDefault: seq<bool>, public: seq<bool>)

  ghost predicate WellFormed(repo: Repository) {
    && |repo.node| == |repo.onDefault| == |repo.public| == |repo.graph|
    && Distinct(repo.node)
    && (forall r, p :: 0 <= r < |repo.graph| && p in repo.graph[r] && repo.public[r] ==> repo.public[p])
  }

  type Repo = repo: Repository | WellFormed(repo) witness Repository([], [], [], [])

  /** A head of the default branch: no later revision of the branch descends from it. */
  predicate IsHead(repo: Repo, r: nat)
    requires r < |repo.graph|
  {
    repo.onDefault[r] && forall d :: r < d < |repo.graph| && repo.onDefault[d] ==> !IsAncestor(repo.graph, r, d)
  }

  /** The revset of `capture_heads`: a draft head of the default branch that `target` does not include. */
  predicate Unmerged(repo: Repo, target: nat, r: nat)
    requires r < |repo.graph| && target < |repo.graph|
  {
    IsHead(repo, r) && !repo.public[r] && !IsAncestor(repo.graph, r, target)
  }

  function CaptureBelow(repo: Repo, target: nat, n: nat): (s: seq<nat>)
    requires target < |repo.graph| && n <= |repo.graph|
    ensures Increasing(s) && forall r: nat :: r in s <==> r < n && Unmerged(repo, target, r)
  {
    if n == 0 then []
    else
      var before := CaptureBelow(repo, target, n - 1);
      if Unmerged(repo, target, n - 1) then IncreasingAppend(before, n - 1); before + [n - 1] else before
  }

  /** The heads still to merge into `target`, oldest first. */
  function CaptureHeads(repo: Repo, target: nat): (s: seq<nat>)
    requires target < |repo.graph|
    ensures Increasing(s) && forall r: nat :: r in s <==> r < |repo.graph| && Unmerged(repo, target, r)
    ensures forall i :: 0 <= i < |s| ==> s[i] < |repo.graph|
  {
    var s := CaptureBelow(repo, target, |repo.graph|);
    assert forall i :: 0 <= i < |s| ==> s[i] in s;
    s
  }

  /** The captured heads are exactly the drafts of the default branch that are not below the target and that no other
      revision of the branch descends from, each once and oldest first. */
  lemma HeadsCaptured(repo: Repo, target: nat)
    requires target < |repo.graph|
    ensures var heads := CaptureHeads(repo, target);
            && (forall i, j :: 0 <= i < j < |heads| ==> heads[i] < heads[j])
            && (forall h: nat :: h in heads <==>
                 && h < |repo.graph| && repo.onDefault[h] && !repo.public[h] && !IsAncestor(repo.graph, h, target)
                 && forall d: nat :: d < |repo.graph| && repo.onDefault[d] && IsAncestor(repo.graph, h, d) ==> d == h)
  {
    hide IsAncestor;
    forall h: nat, d: nat | d < |repo.graph| && IsAncestor(repo.graph, h, d)
      ensures h <= d
    {
      AncestorLe(repo.graph, h, d);
    }
    forall h: nat
      ensures h in CaptureHeads(repo, target) <==>
                && h < |repo.graph| && repo.onDefault[h] && !repo.public[h] && !IsAncestor(repo.graph, h, target)
                && forall d: nat :: d < |repo.graph| && repo.onDefault[d] && IsAncestor(repo.graph, h, d) ==> d == h
    {
      if h < |repo.graph| { assert h in CaptureHeads(repo, target) <==> Unmerged(repo, target, h); }
    }
  }

  // ---------------------------------------------------------------- no head is lost

  lemma {:induction false} DraftAbove(repo: Repo, a: nat, d: nat)
    requires d < |repo.graph| && IsAncestor(repo.graph, a, d) && a < |repo.graph| && !repo.public[a]
    ensures !repo.public[d]
    decreases d
  {
    if a != d {
      var p :| p in repo.graph[d] && IsAncestor(repo.graph, a, p);
      DraftAbove(repo, a, p);
    }
  }

  lemma {:induction false} HeadAbove(repo: Repo, r: nat) returns (h: nat)
    requires r < |repo.graph| && repo.onDefault[r]
    ensures h < |repo.graph| && IsHead(repo, h) && IsAncestor(repo.graph, r, h)
    decreases |repo.graph| - r
  {
    if IsHead(repo, r) {
      h := r;
    } else {
      var d: nat :| r < d < |repo.graph| && repo.onDefault[d] && IsAncestor(repo.graph, r, d);
      h := HeadAbove(repo, d);
      AncestorTrans(repo.graph, r, d, h);
    }
  }

  /** `r` is in what a run on `target` would produce: below the target or below a head the run captures. */
  ghost predicate Covered(repo: Repo, target: nat, r: nat)
    requires r < |repo.graph| && target < |repo.graph|
  {
    IsAncestor(repo.graph, r, target) || exists h :: h in CaptureHeads(repo, target) && IsAncestor(repo.graph, r, h)
  }

  /** Whatever target a run starts from, no draft revision of the default branch escapes it. */
  lemma NothingEscapes(repo: Repo, target: nat, r: nat)
    requires r < |repo.graph| && target < |repo.graph| && repo.onDefault[r] && !repo.public[r]
    ensures Covered(repo, target, r)
  {
    var h := HeadAbove(repo, r);
    DraftAbove(repo, r, h);
    if IsAncestor(repo.graph, h, target) {
      AncestorTrans(repo.graph, r, h, target);
    } else {
      assert h in CaptureHeads(repo, target);
    }
  }

  // ---------------------------------------------------------------- one merge

  /** `commit_merge`: a draft merge of `parent` and `head` on the default branch. */
  function Merge(repo: Repo, parent: nat, head: nat, node: nat): (r: Repo)
    requires parent < |repo.graph| && head < |repo.graph| && node !in repo.node
    ensures |r.graph| == |repo.graph| + 1
  {
    Appended(repo.graph, parent, head);
    Repository(repo.graph + [[parent, head]], repo.node + [node], repo.onDefault + [true], repo.public + [false])
  }

  lemma Appended(g: Graph, parent: nat, head: nat)
    requires parent < |g| && head < |g|
    ensures ParentsFirst(g + [[parent, head]])
  {
  }

  lemma MergeAncestry(repo: Repo, parent: nat, head: nat, node: nat, r: nat, d: nat)
    requires parent < |repo.graph| && head < |repo.graph| && node !in repo.node
    ensures d < |repo.graph| ==>
              (IsAncestor(Merge(repo, parent, head, node).graph, r, d) <==> IsAncestor(repo.graph, r, d))
    ensures r < |repo.graph| ==>
              (IsAncestor(Merge(repo, parent, head, node).graph, r, |repo.graph|)
               <==> IsAncestor(repo.graph, r, parent) || IsAncestor(repo.graph, r, head))
  {
    var g, h := repo.graph, Merge(repo, parent, head, node).graph;
    assert h[..|g|] == g && h[|g|] == [parent, head];
    if d < |g| { AncestorStable(g, h, r, d); }
    if r < |g| {
      AncestorStable(g, h, r, parent);
      AncestorStable(g, h, r, head);
      assert parent in h[|g|] && head in h[|g|];
    }
  }

  /** What is unmerged once `head` has been merged: seen from the new commit, or from an older target. */
  lemma UnmergedAfterMerge(repo: Repo, parent: nat, head: nat, node: nat, target: nat, r: nat)
    requires parent < |repo.graph| && target < |repo.graph| && node !in repo.node && r < |repo.graph|
    requires head < |repo.graph| && IsHead(repo, head)
    ensures var after := Merge(repo, parent, head, node);
            && (Unmerged(after, |repo.graph|, r) <==> Unmerged(repo, parent, r) && r != head)
            && (Unmerged(after, target, r) <==>
                 Unmerged(repo, target, r) && !IsAncestor(repo.graph, r, parent) && r != head)
  {
    hide Merge;
    MergeKeeps(repo, parent, head, node);
    var after := Merge(repo, parent, head, node);
    MergeAncestry(repo, parent, head, node, r, target);
    assert IsAncestor(after.graph, r, |repo.graph|) <==>
             IsAncestor(repo.graph, r, parent) || IsAncestor(repo.graph, r, head);
    forall d: nat | d < |repo.graph|
      ensures IsAncestor(after.graph, r, d) <==> IsAncestor(repo.graph, r, d)
    {
      MergeAncestry(repo, parent, head, node, r, d);
    }
    if IsHead(repo, r) && IsAncestor(repo.graph, r, head) && r != head {
      AncestorLe(repo.graph, r, head);
      assert false;
    }
    assert IsHead(after, r) ==> IsHead(repo, r) && !IsAncestor(after.graph, r, |repo.graph|);
  }

  lemma MergeKeeps(repo: Repo, parent: nat, head: nat, node: nat)
    requires parent < |repo.graph| && head < |repo.graph| && node !in repo.node
    ensures var after := Merge(repo, parent, head, node);
            && |after.graph| == |repo.graph| + 1 && after.onDefault[|repo.graph|] && !after.public[|repo.graph|]
            && after.node[|repo.graph|] == node && after.node[..|repo.graph|] == repo.node
            && (forall r :: 0 <= r < |repo.graph| ==>
                 after.onDefault[r] == repo.onDefault[r] && after.public[r] == repo.public[r])
  {
  }

  // ---------------------------------------------------------------- a run of merges

  ghost predicate NodesBelow(repo: Repo, minted: nat) {
    forall r :: 0 <= r < |repo.node| ==> repo.node[r] < minted
  }

  /** The newest merge after `k` of them. */
  function Tip(repo: Repo, target: nat, k: nat): nat {
    if k == 0 then target else |repo.graph| + k - 1
  }

  ghost predicate Runnable(repo: Repo, target: nat, heads: seq<nat>, minted: nat) {
    target < |repo.graph| && NodesBelow(repo, minted) && forall i :: 0 <= i < |heads| ==> heads[i] < |repo.graph|
  }

  /** The repository after the first `k` heads have been merged, one commit each, into a chain above `target`. */
  function Chain(repo: Repo, target: nat, heads: seq<nat>, minted: nat, k: nat): (r: Repo)
    requires Runnable(repo, target, heads, minted) && k <= |heads|
    ensures |r.graph| == |repo.graph| + k && NodesBelow(r, minted + k)
  {
    if k == 0 then repo
    else
      var before := Chain(repo, target, heads, minted, k - 1);
      MergeKeeps(before, Tip(repo, target, k - 1), heads[k - 1], minted + k - 1);
      Merge(before, Tip(repo, target, k - 1), heads[k - 1], minted + k - 1)
  }

  /** The heads still unmerged shrink by exactly the one merged, in order, and the new commit is not among them. */
  lemma MergeTakesOneHead(repo: Repo, parent: nat, node: nat)
    requires parent < |repo.graph| && node !in repo.node && CaptureHeads(repo, parent) != []
    ensures var heads := CaptureHeads(repo, parent);
            CaptureHeads(Merge(repo, parent, heads[0], node), |repo.graph|) == heads[1..]
  {
    hide Merge, Unmerged, IsAncestor;
    var heads := CaptureHeads(repo, parent);
    var after := Merge(repo, parent, heads[0], node);
    CapturedIsHead(repo, parent, heads[0]);
    forall r: nat
      ensures r in CaptureHeads(after, |repo.graph|) <==> r in heads[1..]
    {
      InTail(heads, r);
      if r < |repo.graph| {
        UnmergedAfterMerge(repo, parent, heads[0], node, parent, r);
      } else if r == |repo.graph| {
        TargetIsMerged(after, r);
      }
    }
    IncreasingUnique(CaptureHeads(after, |repo.graph|), heads[1..]);
  }

  lemma CapturedIsHead(repo: Repo, target: nat, h: nat)
    requires target < |repo.graph| && h in CaptureHeads(repo, target)
    ensures h < |repo.graph| && IsHead(repo, h)
  {
  }

  lemma TargetIsMerged(repo: Repo, target: nat)
    requires target < |repo.graph|
    ensures !Unmerged(repo, target, target)
  {
  }

  lemma InTail(s: seq<nat>, x: nat)
    requires Increasing(s) && |s| > 0
    ensures x in s[1..] <==> x in s && x != s[0]
  {
  }

  lemma ChainStep(repo: Repo, target: nat, heads: seq<nat>, minted: nat, k: nat) returns (before: Repo)
    requires Runnable(repo, target, heads, minted) && 0 < k <= |heads|
    ensures before == Chain(repo, target, heads, minted, k - 1)
    ensures |before.graph| == |repo.graph| + k - 1 && minted + k - 1 !in before.node
    ensures Tip(repo, target, k - 1) < |before.graph| && Tip(repo, target, k) == |before.graph|
    ensures heads[k - 1] < |before.graph|
    ensures Chain(repo, target, heads, minted, k)
         == Merge(before, Tip(repo, target, k - 1), heads[k - 1], minted + k - 1)
  {
    hide Merge;
    before := Chain(repo, target, heads, minted, k - 1);
  }

  /** Every merge takes the oldest unmerged head; `k` of them leave the rest. */
  lemma {:induction false} ResumeFromTip(repo: Repo, target: nat, heads: seq<nat>, minted: nat, k: nat)
    requires Runnable(repo, target, heads, minted) && heads == CaptureHeads(repo, target) && k <= |heads|
    ensures CaptureHeads(Chain(repo, target, heads, minted, k), Tip(repo, target, k)) == heads[k..]
  {
    hide Merge, Unmerged, IsAncestor, CaptureHeads;
    if k > 0 {
      ResumeFromTip(repo, target, heads, minted, k - 1);
      var before := ChainStep(repo, target, heads, minted, k);
      MergeTakesOneHead(before, Tip(repo, target, k - 1), minted + k - 1);
      assert heads[k - 1..][0] == heads[k - 1] && heads[k - 1..][1..] == heads[k..];
    }
  }

  /** After `k` merges, a run that merges into the `j`-th commit of the chain finds the heads not merged yet and, when
      that commit is not the newest, the chain's own tip: resuming from a stale tip costs one extra merge and no head.
      */
  lemma {:induction false} ResumeAnywhere(repo: Repo, target: nat, heads: seq<nat>, minted: nat, j: nat, k: nat)
    requires Runnable(repo, target, heads, minted) && heads == CaptureHeads(repo, target) && j <= k <= |heads|
    ensures CaptureHeads(Chain(repo, target, heads, minted, k), Tip(repo, target, j))
         == heads[k..] + if j < k then [Tip(repo, target, k)] else []
    decreases k
  {
    hide Merge, Chain, Unmerged, IsAncestor, CaptureHeads;
    if j == k {
      ResumeFromTip(repo, target, heads, minted, k);
    } else {
      var before := ChainStep(repo, target, heads, minted, k);
      ResumeAnywhere(repo, target, heads, minted, j, k - 1);
      ResumeFromTip(repo, target, heads, minted, k - 1);
      StaleStep(before, Tip(repo, target, k - 1), Tip(repo, target, j), minted + k - 1, heads[k - 1..], j < k - 1);
      assert heads[k - 1..][0] == heads[k - 1] && heads[k - 1..][1..] == heads[k..];
    }
  }

  /** One more merge on top of `parent`, seen from the older target `stale`. */
  lemma StaleStep(repo: Repo, parent: nat, stale: nat, node: nat, heads: seq<nat>, behind: bool)
    requires parent < |repo.graph| && stale < |repo.graph| && node !in repo.node && |heads| > 0
    requires CaptureHeads(repo, parent) == heads && CaptureHeads(repo, stale) == heads + if behind then [parent] else []
    requires !behind ==> stale == parent
    ensures heads[0] < |repo.graph|
    ensures CaptureHeads(Merge(repo, parent, heads[0], node), stale) == heads[1..] + [|repo.graph|]
  {
    hide Merge, Unmerged, IsAncestor;
    var after := Merge(repo, parent, heads[0], node);
    CapturedIsHead(repo, parent, heads[0]);
    forall r: nat
      ensures r in CaptureHeads(after, stale) <==> r in heads[1..] + [|repo.graph|]
    {
      InTail(heads, r);
      if r < |repo.graph| {
        UnmergedAfterMerge(repo, parent, heads[0], node, stale, r);
        StaleMember(repo, parent, stale, heads, behind, r);
      } else if r == |repo.graph| {
        NewestIsUnmerged(repo, parent, heads[0], node, stale);
      }
    }
    IncreasingAppend(heads[1..], |repo.graph|);
    IncreasingUnique(CaptureHeads(after, stale), heads[1..] + [|repo.graph|]);
  }

  lemma StaleMember(repo: Repo, parent: nat, stale: nat, heads: seq<nat>, behind: bool, r: nat)
    requires parent < |repo.graph| && stale < |repo.graph| && |heads| > 0 && r < |repo.graph|
    requires CaptureHeads(repo, parent) == heads && CaptureHeads(repo, stale) == heads + if behind then [parent] else []
    ensures Unmerged(repo, stale, r) && !IsAncestor(repo.graph, r, parent) <==> r in heads
  {
    assert r in heads <==> Unmerged(repo, parent, r);
    assert r in CaptureHeads(repo, stale) <==> Unmerged(repo, stale, r);
    assert r in heads + (if behind then [parent] else []) <==> r in heads || (behind && r == parent);
  }

  lemma NewestIsUnmerged(repo: Repo, parent: nat, head: nat, node: nat, stale: nat)
    requires parent < |repo.graph| && head < |repo.graph| && node !in repo.node && stale < |repo.graph|
    ensures Unmerged(Merge(repo, parent, head, node), stale, |repo.graph|)
  {
    hide IsAncestor;
    var after := Merge(repo, parent, head, node);
    if IsAncestor(after.graph, |repo.graph|, stale) {
      AncestorLe(after.graph, |repo.graph|, stale);
    }
  }

  /** The revisions of `s` that `d` does not include. */
  function Outside(g: Graph, s: seq<nat>, d: nat): (r: seq<nat>)
    requires d < |g|
    ensures forall x :: x in r <==> x in s && !IsAncestor(g, x, d)
    ensures Increasing(s) ==> Increasing(r)
  {
    if s == [] then []
    else
      var front, last := s[..|s| - 1], s[|s| - 1];
      assert s == front + [last];
      var before := Outside(g, front, d);
      if IsAncestor(g, last, d) then before
      else
        assert Increasing(s) ==> Increasing(before + [last]) by {
          if Increasing(s) { IncreasingAppend(before, last); }
        }
        before + [last]
  }

  /** Not included by either of two targets. */
  lemma UnmergedSwap(repo: Repo, a: nat, b: nat, r: nat)
    requires a < |repo.graph| && b < |repo.graph| && r < |repo.graph|
    ensures Unmerged(repo, a, r) && !IsAncestor(repo.graph, r, b) <==>
              Unmerged(repo, b, r) && !IsAncestor(repo.graph, r, a)
  {
  }

  lemma OldAncestry(repo: Repo, after: Repo, r: nat, d: nat)
    requires Extends(repo, after) && d < |repo.graph|
    ensures IsAncestor(repo.graph, r, d) <==> IsAncestor(after.graph, r, d)
  {
    AncestorStable(repo.graph, after.graph, r, d);
  }

  lemma SeenFromBelow(repo: Repo, target: nat, heads: seq<nat>, minted: nat, k: nat, other: nat, r: nat)
    requires Runnable(repo, target, heads, minted) && heads == CaptureHeads(repo, target) && 0 < k <= |heads|
    requires other < |repo.graph| && r < |repo.graph| + k - 1
    ensures Unmerged(Chain(repo, target, heads, minted, k), other, r)
       <==> r in heads[k..] && !IsAncestor(repo.graph, r, other)
  {
    hide Merge, Chain, Unmerged, IsAncestor, CaptureHeads, Extends, Runnable;
    var before := ChainStep(repo, target, heads, minted, k);
    var parent := Tip(repo, target, k - 1);
    var rest := heads[k - 1..];
    ResumeFromTip(repo, target, heads, minted, k - 1);
    CapturedIsHead(before, parent, heads[k - 1]);
    UnmergedAfterMerge(before, parent, heads[k - 1], minted + k - 1, other, r);
    UnmergedSwap(before, other, parent, r);
    ChainExtends(repo, target, heads, minted, k - 1);
    OldAncestry(repo, before, r, other);
    InTail(rest, r);
    assert rest[0] == heads[k - 1] && rest[1..] == heads[k..];
    assert r in CaptureHeads(before, parent) <==> Unmerged(before, parent, r);
  }

  /** After `k` merges onto one target, a run from any other old revision finds the heads not merged yet that this
      revision does not include, and the chain's tip. */
  lemma ResumeBelow(repo: Repo, target: nat, heads: seq<nat>, minted: nat, k: nat, other: nat)
    requires Runnable(repo, target, heads, minted) && heads == CaptureHeads(repo, target) && 0 < k <= |heads|
    requires other < |repo.graph|
    ensures CaptureHeads(Chain(repo, target, heads, minted, k), other)
         == Outside(repo.graph, heads[k..], other) + [Tip(repo, target, k)]
  {
    hide Merge, Chain, Unmerged, IsAncestor, CaptureHeads, Outside;
    var after, tip := Chain(repo, target, heads, minted, k), Tip(repo, target, k);
    var found := Outside(repo.graph, heads[k..], other);
    var before := ChainStep(repo, target, heads, minted, k);
    forall r: nat
      ensures r in CaptureHeads(after, other) <==> r in found + [tip]
    {
      if r < tip {
        SeenFromBelow(repo, target, heads, minted, k, other, r);
      } else if r == tip {
        NewestIsUnmerged(before, Tip(repo, target, k - 1), heads[k - 1], minted + k - 1, other);
      }
    }
    IncreasingAppend(found, tip);
    IncreasingUnique(CaptureHeads(after, other), found + [tip]);
  }

  lemma {:induction false} OutsideAll(repo: Repo, s: seq<nat>, d: nat)
    requires d < |repo.graph| && forall x :: x in s ==> x < |repo.graph| && !IsAncestor(repo.graph, x, d)
    ensures Outside(repo.graph, s, d) == s
  {
    hide IsAncestor;
    if s != [] {
      var front, last := s[..|s| - 1], s[|s| - 1];
      assert last in s && forall x :: x in front ==> x in s;
      OutsideAll(repo, front, d);
      assert s == front + [last];
    }
  }

  /** A public revision includes no captured head, and the target none either. */
  lemma PublicIncludesNone(repo: Repo, target: nat, k: nat, d: nat)
    requires target < |repo.graph| && d < |repo.graph| && (repo.public[d] || d == target)
    requires k <= |CaptureHeads(repo, target)|
    ensures Outside(repo.graph, CaptureHeads(repo, target)[k..], d) == CaptureHeads(repo, target)[k..]
  {
    hide CaptureHeads, IsAncestor, Outside;
    var rest := CaptureHeads(repo, target)[k..];
    forall x | x in rest
      ensures x < |repo.graph| && !IsAncestor(repo.graph, x, d)
    {
      assert x in CaptureHeads(repo, target);
      if IsAncestor(repo.graph, x, d) { DraftAbove(repo, x, d); }
    }
    OutsideAll(repo, rest, d);
  }

  /** A full run leaves every draft revision of the branch below its tip. */
  lemma FullRunMergesEverything(repo: Repo, target: nat, heads: seq<nat>, minted: nat, r: nat)
    requires Runnable(repo, target, heads, minted) && heads == CaptureHeads(repo, target)
    requires r < |repo.graph| && repo.onDefault[r] && !repo.public[r]
    ensures IsAncestor(Chain(repo, target, heads, minted, |heads|).graph, r, Tip(repo, target, |heads|))
  {
    hide Chain, CaptureHeads, IsAncestor;
    var end, tip := Chain(repo, target, heads, minted, |heads|), Tip(repo, target, |heads|);
    ResumeAnywhere(repo, target, heads, minted, |heads|, |heads|);
    assert CaptureHeads(end, tip) == [];
    ChainExtends(repo, target, heads, minted, |heads|);
    NothingEscapes(end, tip, r);
  }

  /** `after` keeps the revisions of `repo`, and publishes none on its own. */
  ghost predicate Extends(repo: Repo, after: Repo) {
    && |repo.graph| <= |after.graph| && after.graph[..|repo.graph|] == repo.graph
    && after.node[..|repo.node|] == repo.node
    && after.onDefault[..|repo.graph|] == repo.onDefault
  }

  lemma {:induction false} ChainExtends(repo: Repo, target: nat, heads: seq<nat>, minted: nat, k: nat)
    requires Runnable(repo, target, heads, minted) && k <= |heads|
    ensures var after := Chain(repo, target, heads, minted, k);
            Extends(repo, after) && after.public[..|repo.graph|] == repo.public
    ensures var nodes := Chain(repo, target, heads, minted, k).node;
            forall i :: |repo.graph| <= i < |repo.graph| + k ==> nodes[i] == minted + i - |repo.graph|
    ensures var graph := Chain(repo, target, heads, minted, k).graph;
            forall i :: 0 <= i < k ==> graph[|repo.graph| + i] == [Tip(repo, target, i), heads[i]]
  {
    if k > 0 {
      ChainExtends(repo, target, heads, minted, k - 1);
      var before := Chain(repo, target, heads, minted, k - 1);
      MergeExtends(before, Tip(repo, target, k - 1), heads[k - 1], minted + k - 1, |repo.graph|);
    }
  }

  lemma MergeExtends(repo: Repo, parent: nat, head: nat, node: nat, n: nat)
    requires parent < |repo.graph| && head < |repo.graph| && node !in repo.node && n <= |repo.graph|
    ensures var after := Merge(repo, parent, head, node);
            && after.graph[..n] == repo.graph[..n] && after.node[..n] == repo.node[..n]
            && after.onDefault[..n] == repo.onDefault[..n] && after.public[..n] == repo.public[..n]
            && (forall i :: 0 <= i < |repo.node| ==> after.node[i] == repo.node[i]) && after.node[|repo.graph|] == node
            && (forall i :: 0 <= i < |repo.graph| ==> after.graph[i] == repo.graph[i])
            && after.graph[|repo.graph|] == [parent, head]
  {
  }

  // ---------------------------------------------------------------- runs, signals and rollbacks

  /** `resolve_merge_target`: the recorded tip if this clone has it, else the base. */
  function ResolveMergeTarget(repo: Repo, tip: Option<nat>, base: nat): (r: nat)
    requires base < |repo.graph|
    ensures r < |repo.graph|
  {
    match tip
    case None => base
    case Some(node) => var r := Find(repo.node, node, 0); if r < |repo.graph| then r else base
  }

  /** The recorded tip is resumed from wherever the clone has it; with no tip, or one rolled back, the run starts from
      its base. */
  lemma TargetResolved(repo: Repo, tip: Option<nat>, base: nat)
    requires base < |repo.graph|
    ensures forall r :: 0 <= r < |repo.node| && tip == Some(repo.node[r]) ==> ResolveMergeTarget(repo, tip, base) == r
    ensures (forall r :: 0 <= r < |repo.node| ==> tip != Some(repo.node[r])) ==>
              ResolveMergeTarget(repo, tip, base) == base
  {
  }

  /** A clone between runs: its repository, the identities used up so far and the recorded merge tip. */
  datatype State = State(repo: Repo, minted: nat, tip: Option<nat>)

  /** What one driver run may do to a clone: keep `kept` merges, and record any tip the helper reported or none. */
  ghost predicate Ran(s: State, base: nat, kept: nat, t: State)
    requires base < |s.repo.graph|
  {
    var target := ResolveMergeTarget(s.repo, s.tip, base);
    var heads := CaptureHeads(s.repo, target);
    && Runnable(s.repo, target, heads, s.minted) && kept <= |heads|
    && t.repo == Chain(s.repo, target, heads, s.minted, kept)
    && s.minted + kept <= t.minted && NodesBelow(t.repo, t.minted)
    && (t.tip == s.tip || (t.tip.Some? && s.minted <= t.tip.value < s.minted + |heads|))
  }

  /** A pull adds revisions and may publish old ones. */
  ghost predicate Pulled(s: State, t: State) {
    Extends(s.repo, t.repo) && s.minted <= t.minted && NodesBelow(t.repo, t.minted) && t.tip == s.tip
  }

  ghost predicate Next(s: State, t: State) {
    Pulled(s, t) || exists base: nat, kept: nat | base < |s.repo.graph| :: Ran(s, base, kept, t)
  }

  ghost predicate IsHistory(states: seq<State>) {
    forall i :: 0 < i < |states| ==> Next(states[i - 1], states[i])
  }

  lemma NextExtends(s: State, t: State)
    requires Next(s, t)
    ensures Extends(s.repo, t.repo)
  {
    hide Chain, CaptureHeads, Runnable;
    if !Pulled(s, t) {
      var base: nat, kept: nat :| base < |s.repo.graph| && Ran(s, base, kept, t);
      var target := ResolveMergeTarget(s.repo, s.tip, base);
      ChainExtends(s.repo, target, CaptureHeads(s.repo, target), s.minted, kept);
    }
  }

  lemma {:induction false} HistoryExtends(states: seq<State>, i: nat, j: nat)
    requires IsHistory(states) && i <= j < |states|
    ensures Extends(states[i].repo, states[j].repo)
  {
    if i < j {
      HistoryExtends(states, i, j - 1);
      NextExtends(states[j - 1], states[j]);
      ExtendsTrans(states[i].repo, states[j - 1].repo, states[j].repo);
    }
  }

  lemma ExtendsTrans(a: Repo, b: Repo, c: Repo)
    requires Extends(a, b) && Extends(b, c)
    ensures Extends(a, c)
  {
    var n := |a.graph|;
    assert a.graph == b.graph[..n] == c.graph[..|b.graph|][..n] == c.graph[..n];
    assert a.node == b.node[..n] == c.node[..|b.graph|][..n] == c.node[..n];
    assert a.onDefault == b.onDefault[..n] == c.onDefault[..|b.graph|][..n] == c.onDefault[..n];
  }

  /** Safety: over any interleaving of pulls, runs, stops, rollbacks and stale tips, a revision of the branch that was
      pulled (or merged) once stays, and while it is a draft the next run, from whatever base, covers it. */
  lemma NoHeadLost(states: seq<State>, i: nat, j: nat, r: nat, base: nat)
    requires IsHistory(states) && i <= j < |states| && r < |states[i].repo.graph| && base < |states[j].repo.graph|
    requires states[i].repo.onDefault[r]
    ensures r < |states[j].repo.graph| && states[j].repo.node[r] == states[i].repo.node[r]
    ensures !states[j].repo.public[r] ==>
              Covered(states[j].repo, ResolveMergeTarget(states[j].repo, states[j].tip, base), r)
  {
    hide Covered, Next, IsHistory, ResolveMergeTarget;
    HistoryExtends(states, i, j);
    ghost var repo := states[j].repo;
    assert repo.onDefault[r] == repo.onDefault[..|states[i].repo.graph|][r];
    assert repo.node[r] == repo.node[..|states[i].repo.graph|][r];
    if !repo.public[r] {
      NothingEscapes(repo, ResolveMergeTarget(repo, states[j].tip, base), r);
    }
  }

  lemma FindIsUnique(nodes: seq<nat>, node: nat, r: nat)
    requires Distinct(nodes) && r < |nodes| && nodes[r] == node
    ensures Find(nodes, node, 0) == r
  {
  }

  /** Progress: when the tip a run recorded survived, the next run finds only what is left, and at most one head more.
      */
  lemma NextRunFinishes(s: State, base: nat, kept: nat, t: State, j: nat, base': nat)
    requires base < |s.repo.graph| && Ran(s, base, kept, t) && 0 < j <= kept && t.tip == Some(s.minted + j - 1)
    requires base' < |t.repo.graph|
    ensures var heads := CaptureHeads(s.repo, ResolveMergeTarget(s.repo, s.tip, base));
            var next := ResolveMergeTarget(t.repo, t.tip, base');
            CaptureHeads(t.repo, next) == heads[kept..] + if j < kept then [|t.repo.graph| - 1] else []
  {
    hide Chain, CaptureHeads, Find;
    var target := ResolveMergeTarget(s.repo, s.tip, base);
    var heads := CaptureHeads(s.repo, target);
    ChainExtends(s.repo, target, heads, s.minted, kept);
    assert t.repo.node[|s.repo.graph| + j - 1] == s.minted + j - 1;
    FindIsUnique(t.repo.node, s.minted + j - 1, |s.repo.graph| + j - 1);
    ResumeAnywhere(s.repo, target, heads, s.minted, j, kept);
  }

  /**
   When the recorded tip was rolled back, the next run starts from its base, whatever the last run had started from. It
   finds the heads that are left and that the base does not include (all of them, when the base is public or was the
   last run's target), and the tip of what was kept; if nothing was kept it finds what the repository held before.
   */
  lemma NextRunStartsOver(s: State, base: nat, kept: nat, t: State, j: nat, base': nat)
    requires base < |s.repo.graph| && base' < |s.repo.graph|
    requires Ran(s, base, kept, t) && kept < j && t.tip == Some(s.minted + j - 1)
    ensures base' < |t.repo.graph| && ResolveMergeTarget(t.repo, t.tip, base') == base'
    ensures var target := ResolveMergeTarget(s.repo, s.tip, base);
            var heads := CaptureHeads(s.repo, target);
            && kept <= |heads|
            && CaptureHeads(t.repo, base') ==
               (if kept == 0 then CaptureHeads(s.repo, base')
                else Outside(s.repo.graph, heads[kept..], base') + [|t.repo.graph| - 1])
            && (s.repo.public[base'] || base' == target ==>
                 Outside(s.repo.graph, heads[kept..], base') == heads[kept..])
  {
    hide Chain, CaptureHeads, Find, Outside;
    var target := ResolveMergeTarget(s.repo, s.tip, base);
    var heads := CaptureHeads(s.repo, target);
    ChainExtends(s.repo, target, heads, s.minted, kept);
    SnapshotBelow(s.repo, target, heads, s.minted, kept, s.minted + kept);
    if kept == 0 {
      ChainZero(s.repo, target, heads, s.minted);
    } else {
      ResumeBelow(s.repo, target, heads, s.minted, kept, base');
    }
    if s.repo.public[base'] || base' == target { PublicIncludesNone(s.repo, target, kept, base'); }
  }

  // ---------------------------------------------------------------- the helper and its driver

  const BATCH_SIZE: nat := 1000

  function Arriving(arrivals: seq<nat>): nat {
    if arrivals == [] then 0 else arrivals[0]
  }

  predicate Silent(arrivals: seq<nat>) {
    forall i :: 0 <= i < |arrivals| ==> arrivals[i] == 0
  }

  class Clone {
    var repo: Repo
    var minted: nat
    var tip: Option<nat>
    /** The helper's stop request, and the number of signals that reach it before each of its next steps. */
    var requested: bool
    var arrivals: seq<nat>
    /** How many merges were reported when the stop was requested. */
    ghost var asked: nat
    /** The progress lines the helper has written. */
    var reports: seq<(nat, nat)>

    constructor (repo: Repo, minted: nat, tip: Option<nat>)
      requires NodesBelow(repo, minted)
      ensures Valid() && Snapshot() == State(repo, minted, tip)
    {
      this.repo, this.minted, this.tip := repo, minted, tip;
      requested, arrivals, reports, asked := false, [], [], 0;
    }

    ghost predicate Valid()
      reads this
    {
      NodesBelow(repo, minted)
    }

    ghost function Snapshot(): State
      reads this
    {
      State(repo, minted, tip)
    }

    /** `handle_signal` for the signals that have arrived: the first one requests a stop, the next one aborts. */
    method Poll() returns (abort: bool)
      modifies `requested, `arrivals, `asked
      ensures requested == (old(requested) || Arriving(old(arrivals)) > 0)
      ensures abort == (Arriving(old(arrivals)) > if old(requested) then 0 else 1)
      ensures asked == if requested && !old(requested) then |reports| else old(asked)
      ensures Silent(old(arrivals)) ==> Silent(arrivals) && requested == old(requested) && !abort
    {
      abort := false;
      var signals: nat := Arriving(arrivals);
      assert Silent(arrivals) && arrivals != [] ==> Silent(arrivals[1..]);
      arrivals := if arrivals == [] then [] else arrivals[1..];
      while signals > 0 && !abort
        invariant !abort ==>
                    signals + (if requested then 1 else 0)
                    == Arriving(old(arrivals)) + (if old(requested) then 1 else 0)
        invariant Silent(old(arrivals)) ==> Silent(arrivals)
        invariant asked == if requested && !old(requested) then |reports| else old(asked)
        invariant abort ==> requested && Arriving(old(arrivals)) > if old(requested) then 0 else 1
      {
        if requested {
          abort := true;
        } else {
          requested, asked := true, |reports|;
        }
        signals := signals - 1;
      }
    }

    /** The helper has made `merged` merges of a run that started from `start` and reported each of them. */
    ghost predicate Merging(start: Repo, base: nat, heads: seq<nat>, node: nat, merged: nat)
      reads this
    {
      && Runnable(start, base, heads, node) && merged <= |heads|
      && repo == Chain(start, base, heads, node, merged) && minted == node + merged
      && |reports| == merged && forall i :: 0 <= i < merged ==> reports[i] == (i + 1, node + i)
    }

    /** After the stop was requested at most the merge in flight has been reported. */
    ghost predicate PromptlyStopped()
      reads this
    {
      requested ==> |reports| <= asked + 1
    }

    /** One merge and its report, unless a second signal comes in between. */
    method CommitAndReport(parent: nat, head: nat, merged: nat, ghost start: Repo, ghost base: nat,
                           ghost heads: seq<nat>, ghost node: nat)
      returns (abort: bool)
      requires Merging(start, base, heads, node, merged) && merged < |heads| && !requested
      requires parent == Tip(start, base, merged) && head == heads[merged]
      modifies this
      ensures tip == old(tip) && minted == old(minted) + 1
      ensures !abort ==>
                Merging(start, base, heads, node, merged + 1) && |repo.graph| - 1 == Tip(start, base, merged + 1)
      ensures abort ==> reports == old(reports) && requested
      ensures PromptlyStopped()
      ensures Silent(old(arrivals)) ==> Silent(arrivals) && requested == old(requested)
    {
      hide Chain, Merge;
      ghost var before := ChainStep(start, base, heads, node, merged + 1);
      repo := Merge(repo, parent, head, minted);
      minted := minted + 1;
      abort := Poll();
      if !abort {
        reports := reports + [(merged + 1, minted - 1)];
      }
    }

    /** `merge_heads` of the helper. A second signal rolls the open transaction back. */
    method MergeHeads(base: nat, heads: seq<nat>) returns (kept: nat, abort: bool)
      requires Runnable(repo, base, heads, minted) && !requested && reports == []
      modifies this
      ensures tip == old(tip) && kept <= |heads|
      ensures repo == Chain(old(repo), base, heads, old(minted), kept) && old(minted) + |reports| <= minted
      ensures kept <= |reports| <= |heads| && |reports| <= kept + BATCH_SIZE
      ensures forall i :: 0 <= i < |reports| ==> reports[i] == (i + 1, old(minted) + i)
      ensures !abort ==> |reports| == kept && (kept == |heads| || requested)
      ensures abort ==> requested && (|reports| == kept || kept % BATCH_SIZE == 0)
      ensures PromptlyStopped()
      ensures Silent(old(arrivals)) ==> !requested
    {
      hide Chain, Merge, Runnable, Silent, Arriving;
      var parent := base;
      var merged: nat := 0;
      ghost var start, node := repo, minted;
      ChainZero(start, base, heads, node);
      while true
        invariant Merging(start, base, heads, node, merged) && parent == Tip(start, base, merged) && tip == old(tip)
        invariant requested || merged % BATCH_SIZE == 0 || merged == |heads|
        invariant PromptlyStopped()
        invariant Silent(old(arrivals)) ==> Silent(arrivals) && !requested
        decreases |heads| - merged, !requested
      {
        abort := Poll();
        if abort {
          return merged, true;
        }
        if merged == |heads| || requested {
          break;
        }
        var snapshot, opening := repo, merged;
        var batchEnd := if merged + BATCH_SIZE < |heads| then merged + BATCH_SIZE else |heads|;
        while merged < batchEnd
          invariant opening <= merged <= batchEnd && PromptlyStopped()
          invariant Merging(start, base, heads, node, merged) && parent == Tip(start, base, merged) && tip == old(tip)
          invariant Silent(old(arrivals)) ==> Silent(arrivals) && !requested
        {
          abort := Poll();
          if !abort && requested {
            break;
          }
          if !abort {
            abort := CommitAndReport(parent, heads[merged], merged, start, base, heads, node);
          }
          if abort {
            repo := snapshot;
            return opening, true;
          }
          parent := |repo.graph| - 1;
          merged := merged + 1;
        }
        abort := Poll();
        if abort {
          repo := snapshot;
          return opening, true;
        }
      }
      return merged, false;
    }

    /** One run of the driver after its pull: `stopping` and `dying` say whether the driver itself was signalled once or
        twice by the time the helper ended. */
    method Run(base: nat, signals: seq<nat>, stopping: bool, dying: bool) returns (kept: nat, abort: bool)
      requires Valid() && base < |repo.graph|
      modifies this
      ensures Valid() && Ran(old(Snapshot()), base, kept, Snapshot())
      ensures tip == if reports != [] && !dying && (!abort || stopping) then Some(old(minted) + |reports| - 1)
                     else old(tip)
      ensures kept <= |reports| && (!abort ==> kept == |reports|)
      ensures (abort ==> kept == |reports| || kept % 1000 == 0)
      ensures requested ==> |reports| <= asked + 1
      ensures Silent(signals) ==>
                !abort && kept == |CaptureHeads(old(repo), ResolveMergeTarget(old(repo), old(tip), base))|
    {
      hide Chain, Merge, CaptureHeads, ResolveMergeTarget;
      var target := ResolveMergeTarget(repo, tip, base);
      var heads := CaptureHeads(repo, target);
      arrivals, requested, reports := signals, false, [];
      if heads == [] {
        ChainZero(repo, target, heads, minted);
        return 0, false;
      }
      ghost var start, node := repo, minted;
      kept, abort := MergeHeads(target, heads);
      SnapshotBelow(start, target, heads, node, kept, minted);
      if !dying && (!abort || stopping) && reports != [] {
        tip := Some(reports[|reports| - 1].1);
      }
    }
  }

  lemma ChainZero(repo: Repo, target: nat, heads: seq<nat>, minted: nat)
    requires Runnable(repo, target, heads, minted)
    ensures Chain(repo, target, heads, minted, 0) == repo
  {
  }

  lemma SnapshotBelow(repo: Repo, target: nat, heads: seq<nat>, minted: nat, k: nat, bound: nat)
    requires Runnable(repo, target, heads, minted) && k <= |heads| && minted + k <= bound
    ensures NodesBelow(Chain(repo, target, heads, minted, k), bound)
    ensures |Chain(repo, target, heads, minted, k).graph| == |repo.graph| + k
  {
  }
}
