/**
 The changeset graph of a repository. A revision is an index; `g[r]` lists the parents of
 revision `r`, which always come before it.
 */
module Dag {

  ghost predicate ParentsFirst(g: seq<seq<nat>>) {
    forall r, p :: 0 <= r < |g| && p in g[r] ==> p < r
  }

  type Graph = g: seq<seq<nat>> | ParentsFirst(g) witness []

  /** `a` is `d` or one of its ancestors. */
  predicate IsAncestor(g: Graph, a: nat, d: nat)
    requires d < |g|
    decreases d
  {
    a == d || exists p :: p in g[d] && IsAncestor(g, a, p)
  }

  lemma {:induction false} AncestorLe(g: Graph, a: nat, d: nat)
    requires d < |g| && IsAncestor(g, a, d)
    ensures a <= d
    decreases d
  {
    if a != d {
      var p :| p in g[d] && IsAncestor(g, a, p);
      AncestorLe(g, a, p);
    }
  }

  lemma {:induction false} AncestorTrans(g: Graph, a: nat, b: nat, c: nat)
    requires b < |g| && c < |g|
    requires IsAncestor(g, a, b) && IsAncestor(g, b, c)
    ensures IsAncestor(g, a, c)
    decreases c
  {
    if b != c {
      var p :| p in g[c] && IsAncestor(g, b, p);
      AncestorTrans(g, a, b, p);
    }
  }

  /** Adding revisions at the end changes no ancestry among the old ones. */
  lemma {:induction false} AncestorStable(g: Graph, h: Graph, a: nat, d: nat)
    requires d < |g| <= |h| && h[..|g|] == g
    ensures IsAncestor(g, a, d) <==> IsAncestor(h, a, d)
    decreases d
  {
    assert h[d] == g[d];
    forall p | p in g[d]
      ensures IsAncestor(g, a, p) <==> IsAncestor(h, a, p)
    {
      AncestorStable(g, h, a, p);
    }
  }

  /** A set of revisions that holds the parents of each of its members. */
  ghost predicate Closed(g: Graph, s: set<nat>) {
    forall r, p :: r in s && r < |g| && p in g[r] ==> p in s
  }

  lemma {:induction false} ClosedUnderAncestors(g: Graph, s: set<nat>, a: nat, d: nat)
    requires Closed(g, s) && d < |g| && d in s && IsAncestor(g, a, d)
    ensures a in s
    decreases d
  {
    if a != d {
      var p :| p in g[d] && IsAncestor(g, a, p);
      ClosedUnderAncestors(g, s, a, p);
    }
  }

  /** The ancestors of a revision are the least set that holds it and the parents of each of its members. */
  lemma AncestorsAreLeastClosed(g: Graph, a: nat, d: nat)
    requires d < |g|
    ensures IsAncestor(g, a, d) <==> forall s: set<nat> :: Closed(g, s) && d in s ==> a in s
  {
    if IsAncestor(g, a, d) {
      forall s: set<nat> | Closed(g, s) && d in s
        ensures a in s
      {
        ClosedUnderAncestors(g, s, a, d);
      }
    } else {
      var s := set x: nat | x <= d && IsAncestor(g, x, d);
      forall r, p | r in s && r < |g| && p in g[r]
        ensures p in s
      {
        assert IsAncestor(g, p, r);
        AncestorTrans(g, p, r, d);
      }
      assert Closed(g, s) && d in s && a !in s;
    }
  }
}
