/**
 Release builds around a changeset (hgext/firefoxreleases/__init__.py): two scans over the changelog that stop as soon
 as every release configuration has been found.
 */
module Releases {
  import opened Prelude
  import opened Dag

  /** Channel and platform. */
  type Config = (string, string)

  datatype Build = Build(config: Config, id: string)

  /** Builds by revision, and the configurations among them. */
  type Builds = map<nat, seq<Build>>

  ghost predicate ConfigsOf(revisions: Builds, configs: set<Config>) {
    forall c :: c in configs <==>
      exists r, i :: r in revisions && 0 <= i < |revisions[r]| && revisions[r][i].config == c
  }

  function BuildsAt(revisions: Builds, r: nat): seq<Build> {
    if r in revisions then revisions[r] else []
  }

  /** No build from `lo` to `hi` is of the configuration. */
  ghost predicate NoneIn(builds: seq<Build>, c: Config, lo: nat, hi: nat)
    requires hi <= |builds|
  {
    forall i :: lo <= i < hi ==> builds[i].config != c
  }

  /** The first build of a configuration. */
  function FirstOf(builds: seq<Build>, c: Config): (r: Option<Build>)
    ensures r.Some? ==> exists i :: 0 <= i < |builds| && builds[i] == r.value && NoneIn(builds, c, 0, i)
    ensures if r.Some? then r.value.config == c else NoneIn(builds, c, 0, |builds|)
  {
    if builds == [] then None else if builds[0].config == c then Some(builds[0]) else FirstOf(builds[1..], c)
  }

  /** The last build of a configuration. */
  function LastOf(builds: seq<Build>, c: Config): (r: Option<Build>)
    ensures r.Some? ==> exists i :: 0 <= i < |builds| && builds[i] == r.value && NoneIn(builds, c, i + 1, |builds|)
    ensures if r.Some? then r.value.config == c else NoneIn(builds, c, 0, |builds|)
  {
    if builds == [] then None
    else
      var later := LastOf(builds[1..], c);
      if later.Some? then later else if builds[0].config == c then Some(builds[0]) else None
  }

  function Get(m: map<Config, Build>, c: Config): Option<Build> {
    if c in m then Some(m[c]) else None
  }

  function OrElse(a: Option<Build>, b: Option<Build>): Option<Build> {
    if a.Some? then a else b
  }

  /** `setdefault` for each build in turn. */
  method SetDefaults(m: map<Config, Build>, builds: seq<Build>) returns (r: map<Config, Build>)
    ensures forall c :: Get(r, c) == OrElse(Get(m, c), FirstOf(builds, c))
  {
    r := m;
    var i := 0;
    while i < |builds|
      invariant i <= |builds|
      invariant forall c :: OrElse(Get(r, c), FirstOf(builds[i..], c)) == OrElse(Get(m, c), FirstOf(builds, c))
    {
      assert builds[i..][0] == builds[i] && builds[i..][1..] == builds[i + 1..];
      if builds[i].config !in r {
        r := r[builds[i].config := builds[i]];
      }
      i := i + 1;
    }
  }

  /** Assignment for each build in turn: the last one of a configuration stays. */
  method Assign(builds: seq<Build>) returns (r: map<Config, Build>)
    ensures forall c :: Get(r, c) == LastOf(builds, c)
  {
    r := map[];
    var i := 0;
    while i < |builds|
      invariant i <= |builds|
      invariant forall c :: OrElse(LastOf(builds[i..], c), Get(r, c)) == LastOf(builds, c)
    {
      assert builds[i..][0] == builds[i] && builds[i..][1..] == builds[i + 1..];
      r := r[builds[i].config := builds[i]];
      i := i + 1;
    }
  }

  // ---------------------------------------------------------------- the full scans

  /** The build of `c` at the highest strict ancestor in `[lo, rev)` that has one. */
  function Nearest(g: Graph, revisions: Builds, rev: nat, c: Config, lo: nat): Option<Build>
    requires lo <= rev < |g|
    decreases rev - lo
  {
    if lo == rev then None
    else OrElse(Nearest(g, revisions, rev, c, lo + 1),
                if IsAncestor(g, lo, rev) then FirstOf(BuildsAt(revisions, lo), c) else None)
  }

  /** The build of `c` at the lowest descendant in `[rev, hi)` that has one. */
  function Earliest(g: Graph, revisions: Builds, rev: nat, c: Config, hi: nat): Option<Build>
    requires rev <= hi <= |g|
  {
    if hi == rev then None
    else OrElse(Earliest(g, revisions, rev, c, hi - 1),
                if IsAncestor(g, rev, hi - 1) then FirstOf(BuildsAt(revisions, hi - 1), c) else None)
  }

  lemma {:induction false} NearestStays(g: Graph, revisions: Builds, rev: nat, c: Config, lo: nat, low: nat)
    requires low <= lo <= rev < |g| && Nearest(g, revisions, rev, c, lo).Some?
    ensures Nearest(g, revisions, rev, c, low) == Nearest(g, revisions, rev, c, lo)
    decreases lo - low
  {
    hide IsAncestor;
    if low < lo { NearestStays(g, revisions, rev, c, lo, low + 1); }
  }

  lemma {:induction false} EarliestStays(g: Graph, revisions: Builds, rev: nat, c: Config, hi: nat, high: nat)
    requires rev <= hi <= high <= |g| && Earliest(g, revisions, rev, c, hi).Some?
    ensures Earliest(g, revisions, rev, c, high) == Earliest(g, revisions, rev, c, hi)
    decreases high - hi
  {
    hide IsAncestor;
    if hi < high { EarliestStays(g, revisions, rev, c, hi, high - 1); }
  }

  /** What a scan that is not stopped finds, and where: no strict ancestor above has a build of the configuration. */
  lemma {:induction false} NearestIsHighest(g: Graph, revisions: Builds, rev: nat, c: Config, lo: nat) returns (r: nat)
    requires lo <= rev < |g|
    ensures var found := Nearest(g, revisions, rev, c, lo);
            if found.Some? then
              && lo <= r < rev && IsAncestor(g, r, rev) && FirstOf(BuildsAt(revisions, r), c) == found
              && (forall q :: r < q < rev && IsAncestor(g, q, rev) ==> FirstOf(BuildsAt(revisions, q), c).None?)
            else forall q :: lo <= q < rev && IsAncestor(g, q, rev) ==> FirstOf(BuildsAt(revisions, q), c).None?
    decreases rev - lo
  {
    hide IsAncestor;
    if lo < rev {
      r := NearestIsHighest(g, revisions, rev, c, lo + 1);
      if Nearest(g, revisions, rev, c, lo + 1).None? { r := lo; }
    } else {
      r := 0;
    }
  }

  lemma {:induction false} EarliestIsLowest(g: Graph, revisions: Builds, rev: nat, c: Config, hi: nat) returns (r: nat)
    requires rev <= hi <= |g|
    ensures var found := Earliest(g, revisions, rev, c, hi);
            if found.Some? then
              && rev <= r < hi && IsAncestor(g, rev, r) && FirstOf(BuildsAt(revisions, r), c) == found
              && (forall q :: rev <= q < r && IsAncestor(g, rev, q) ==> FirstOf(BuildsAt(revisions, q), c).None?)
            else forall q :: rev <= q < hi && IsAncestor(g, rev, q) ==> FirstOf(BuildsAt(revisions, q), c).None?
    decreases hi
  {
    hide IsAncestor;
    if rev < hi {
      r := EarliestIsLowest(g, revisions, rev, c, hi - 1);
      if Earliest(g, revisions, rev, c, hi - 1).None? { r := hi - 1; }
    } else {
      r := 0;
    }
  }

  lemma {:induction false} NearestHasConfig(g: Graph, revisions: Builds, configs: set<Config>, rev: nat, c: Config,
                                            lo: nat)
    requires lo <= rev < |g| && ConfigsOf(revisions, configs) && Nearest(g, revisions, rev, c, lo).Some?
    ensures c in configs
  {
    var r := NearestIsHighest(g, revisions, rev, c, lo);
    BuiltHasConfig(revisions, configs, r, c);
  }

  lemma {:induction false} EarliestHasConfig(g: Graph, revisions: Builds, configs: set<Config>, rev: nat, c: Config,
                                             hi: nat)
    requires rev <= hi <= |g| && ConfigsOf(revisions, configs) && Earliest(g, revisions, rev, c, hi).Some?
    ensures c in configs
  {
    var r := EarliestIsLowest(g, revisions, rev, c, hi);
    BuiltHasConfig(revisions, configs, r, c);
  }

  lemma BuiltHasConfig(revisions: Builds, configs: set<Config>, r: nat, c: Config)
    requires ConfigsOf(revisions, configs) && FirstOf(BuildsAt(revisions, r), c).Some?
    ensures c in configs
  {
    var b := FirstOf(BuildsAt(revisions, r), c).value;
    var i :| 0 <= i < |revisions[r]| && revisions[r][i] == b;
  }

  /** A subset of the same size is the whole set: the test the scans stop on. */
  lemma SameSize(a: set<Config>, b: set<Config>)
    requires a <= b && |a| == |b|
    ensures a == b
  {
    assert a + (b - a) == b;
    assert |b - a| == 0;
  }

  // ---------------------------------------------------------------- the search

  datatype ReleaseInfo =
    ReleaseInfo(previous: map<Config, Build>, this_: map<Config, Build>, first: map<Config, Build>,
                future: map<Config, Build>)

  /** The walk over the ancestors, from the nearest on. */
  method FindPrevious(g: Graph, revisions: Builds, configs: set<Config>, rev: nat)
    returns (previous: map<Config, Build>)
    requires rev < |g| && ConfigsOf(revisions, configs)
    ensures forall c :: Get(previous, c) == Nearest(g, revisions, rev, c, 0)
  {
    hide IsAncestor, ConfigsOf, Nearest;
    previous := map[];
    var r: nat := rev;
    NothingNearer(g, revisions, rev);
    while r > 0
      invariant r <= rev && forall c :: Get(previous, c) == Nearest(g, revisions, rev, c, r)
    {
      NearestSteps(g, revisions, rev, r - 1);
      r := r - 1;
      if !IsAncestor(g, r, rev) || r !in revisions {
        continue;
      }
      previous := SetDefaults(previous, revisions[r]);
      if |configs| == |previous| {
        FoundAllBefore(g, revisions, configs, rev, r, previous);
        return;
      }
    }
  }

  lemma NothingNearer(g: Graph, revisions: Builds, rev: nat)
    requires rev < |g|
    ensures forall c :: Nearest(g, revisions, rev, c, rev) == None
  {
  }

  lemma NearestSteps(g: Graph, revisions: Builds, rev: nat, r: nat)
    requires r < rev < |g|
    ensures forall c :: Nearest(g, revisions, rev, c, r)
                     == OrElse(Nearest(g, revisions, rev, c, r + 1),
                          if IsAncestor(g, r, rev) then FirstOf(BuildsAt(revisions, r), c) else None)
  {
  }

  lemma FoundAllBefore(g: Graph, revisions: Builds, configs: set<Config>, rev: nat, r: nat, previous: map<Config,
                       Build>)
    requires r <= rev < |g| && ConfigsOf(revisions, configs) && |configs| == |previous|
    requires forall c :: Get(previous, c) == Nearest(g, revisions, rev, c, r)
    ensures forall c :: Get(previous, c) == Nearest(g, revisions, rev, c, 0)
  {
    hide IsAncestor, ConfigsOf, Nearest;
    forall c | c in previous
      ensures c in configs
    {
      assert Get(previous, c).Some?;
      NearestHasConfig(g, revisions, configs, rev, c, r);
    }
    assert |previous.Keys| == |previous|;
    SameSize(previous.Keys, configs);
    forall c
      ensures Get(previous, c) == Nearest(g, revisions, rev, c, 0)
    {
      if c in previous {
        assert Get(previous, c).Some?;
        NearestStays(g, revisions, rev, c, r, 0);
      } else if Nearest(g, revisions, rev, c, 0).Some? {
        NearestHasConfig(g, revisions, configs, rev, c, 0);
      }
    }
  }

  /** The walk over the later revisions, which skips those that do not descend from `rev`. */
  method FindFirst(g: Graph, revisions: Builds, configs: set<Config>, rev: nat, here: map<Config, Build>)
    returns (first: map<Config, Build>)
    requires rev < |g| && ConfigsOf(revisions, configs) && forall c :: c in here ==> c in configs
    ensures forall c :: Get(first, c) == OrElse(Get(here, c), Earliest(g, revisions, rev, c, |g|))
  {
    hide IsAncestor, ConfigsOf, Earliest;
    first := here;
    var r: nat := rev;
    NothingEarlier(g, revisions, rev);
    while r < |g|
      invariant rev <= r <= |g| && forall c :: Get(first, c) == OrElse(Get(here, c), Earliest(g, revisions, rev, c, r))
    {
      if |configs| == |first| {
        FoundAllAfter(g, revisions, configs, rev, r, here, first);
        return;
      }
      EarliestSteps(g, revisions, rev, r);
      if r in revisions && IsAncestor(g, rev, r) {
        first := SetDefaults(first, revisions[r]);
      }
      r := r + 1;
    }
  }

  lemma NothingEarlier(g: Graph, revisions: Builds, rev: nat)
    requires rev < |g|
    ensures forall c :: Earliest(g, revisions, rev, c, rev) == None
  {
  }

  lemma EarliestSteps(g: Graph, revisions: Builds, rev: nat, r: nat)
    requires rev <= r < |g|
    ensures forall c :: Earliest(g, revisions, rev, c, r + 1)
                     == OrElse(Earliest(g, revisions, rev, c, r),
                          if IsAncestor(g, rev, r) then FirstOf(BuildsAt(revisions, r), c) else None)
  {
  }

  lemma FoundAllAfter(g: Graph, revisions: Builds, configs: set<Config>, rev: nat, r: nat, here: map<Config, Build>,
                      first: map<Config, Build>)
    requires rev <= r <= |g| && rev < |g| && ConfigsOf(revisions, configs) && |configs| == |first|
    requires forall c :: c in here ==> c in configs
    requires forall c :: Get(first, c) == OrElse(Get(here, c), Earliest(g, revisions, rev, c, r))
    ensures forall c :: Get(first, c) == OrElse(Get(here, c), Earliest(g, revisions, rev, c, |g|))
  {
    hide IsAncestor, ConfigsOf, Earliest;
    forall c | c in first
      ensures c in configs
    {
      assert Get(first, c).Some?;
      if c !in here { EarliestHasConfig(g, revisions, configs, rev, c, r); }
    }
    assert |first.Keys| == |first|;
    SameSize(first.Keys, configs);
    forall c
      ensures Get(first, c) == OrElse(Get(here, c), Earliest(g, revisions, rev, c, |g|))
    {
      if c in here {
      } else if c in first {
        assert Get(first, c).Some?;
        EarliestStays(g, revisions, rev, c, r, |g|);
      } else if Earliest(g, revisions, rev, c, |g|).Some? {
        EarliestHasConfig(g, revisions, configs, rev, c, |g|);
      }
    }
  }

  /** `release_info_for_changeset`. */
  method ReleaseInfoForChangeset(g: Graph, revisions: Builds, configs: set<Config>, rev: nat)
    returns (info: ReleaseInfo)
    requires rev < |g| && ConfigsOf(revisions, configs)
    ensures forall c :: Get(info.previous, c) == Nearest(g, revisions, rev, c, 0)
    ensures forall c :: Get(info.this_, c) == LastOf(BuildsAt(revisions, rev), c)
    ensures forall c :: Get(info.first, c) == OrElse(Get(info.this_, c), Earliest(g, revisions, rev, c, |g|))
    ensures forall c :: Get(info.future, c) == if c in info.this_ then None else Earliest(g, revisions, rev, c, |g|)
  {
    hide IsAncestor, ConfigsOf, Nearest, Earliest;
    var previous := FindPrevious(g, revisions, configs, rev);
    var here := Assign(BuildsAt(revisions, rev));
    forall c | c in here
      ensures c in configs
    {
      assert Get(here, c).Some?;
      BuiltHasConfig(revisions, configs, rev, c);
    }
    var first := FindFirst(g, revisions, configs, rev, here);
    var future := map c | c in first && c !in here :: first[c];
    forall c
      ensures Get(future, c) == if c in here then None else Earliest(g, revisions, rev, c, |g|)
    {
      assert Get(first, c) == OrElse(Get(here, c), Earliest(g, revisions, rev, c, |g|));
    }
    info := ReleaseInfo(previous, here, first, future);
  }
}
