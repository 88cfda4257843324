/**
 String interpolation with `%(key)s` references (pylib/configobj/configobj.py): the lookup through enclosing
 sections, the in-place splice loop, and its detection of reference cycles.
 */
module ConfigInterpolation {
  import opened Prelude

  datatype Entry = Text(text: string) | Items(items: seq<string>) | Subsection(node: nat)

  /** The top level has no name. */
  datatype Section = Section(name: Option<string>, parent: nat, entries: map<string, Entry>)

  /** The sections of a configuration; section 0 is the top level, its own parent. */
  ghost predicate Nested(env: seq<Section>) {
    && |env| > 0 && env[0].parent == 0
    && (forall i :: 0 < i < |env| ==> env[i].parent < i)
    && (forall i, k :: 0 <= i < |env| && k in env[i].entries && env[i].entries[k].Subsection? ==>
         env[i].entries[k].node < |env|)
  }

  type Sections = env: seq<Section> | Nested(env) witness [Section(None, 0, map[])]

  // ---------------------------------------------------------------- looking a key up

  /** `Broken` stands for asking a DEFAULT that is no section for a key. */
  datatype Fetched = Found(value: Entry, at: nat) | Missing | Broken

  function Lookup(env: Sections, i: nat, key: string): Option<Entry>
    requires i < |env|
  {
    if key in env[i].entries then Some(env[i].entries[key]) else None
  }

  /** The entry for `key` in the DEFAULT section of section `i`; None when DEFAULT cannot be asked. */
  function LookupDefault(env: Sections, i: nat, key: string): Option<Option<Entry>>
    requires i < |env|
  {
    match Lookup(env, i, "DEFAULT")
    case None => Some(None)
    case Some(Subsection(n)) => Some(Lookup(env, n, key))
    case Some(_) => None
  }

  predicate IsValue(e: Option<Entry>) {
    e.Some? && !e.value.Subsection?
  }

  /** `_fetch`: this section, its DEFAULT, then the same one level up. */
  function Fetch(env: Sections, i: nat, key: string): (r: Fetched)
    requires i < |env|
    ensures r.Found? ==> r.at < |env|
    decreases i
  {
    var own := Lookup(env, i, key);
    if IsValue(own) then Found(own.value, i)
    else
      match LookupDefault(env, i, key)
      case None => Broken
      case Some(default) =>
        if IsValue(default) then Found(default.value, i)
        else if env[i].parent != i then Fetch(env, env[i].parent, key)
        else if default.Some? then Found(default.value, i)
        else Missing
  }

  method FetchKey(env: Sections, section: nat, key: string) returns (r: Fetched)
    requires section < |env|
    ensures r == Fetch(env, section, key)
    ensures key in env[section].entries && !env[section].entries[key].Subsection? ==>
              r == Found(env[section].entries[key], section)
  {
    var current: nat := section;
    while true
      invariant current < |env|
      invariant Fetch(env, current, key) == Fetch(env, section, key)
      decreases current
    {
      var val := Lookup(env, current, key);
      if IsValue(val) {
        return Found(val.value, current);
      }
      var default := LookupDefault(env, current, key);
      if default.None? {
        return Broken;
      }
      val := default.value;
      if IsValue(val) {
        return Found(val.value, current);
      }
      if env[current].parent == current {
        return if val.None? then Missing else Found(val.value, current);
      }
      current := env[current].parent;
    }
  }

  /** `a` is `i` or encloses it. */
  ghost predicate Encloses(env: Sections, a: nat, i: nat)
    requires i < |env|
    decreases i
  {
    a == i || (env[i].parent != i && Encloses(env, a, env[i].parent))
  }

  ghost predicate Offers(env: Sections, i: nat, key: string)
    requires i < |env|
  {
    IsValue(Lookup(env, i, key)) || (var d := LookupDefault(env, i, key); d.Some? && IsValue(d.value))
  }

  /** A value is found in the innermost enclosing section that offers one. */
  lemma {:induction false} FetchIsInnermost(env: Sections, i: nat, key: string, s: nat)
    requires i < |env| && Fetch(env, i, key).Found? && !Fetch(env, i, key).value.Subsection?
    requires s < |env| && Encloses(env, s, i) && Offers(env, s, key)
    ensures var at := Fetch(env, i, key).at; Encloses(env, at, i) && Offers(env, at, key) && Encloses(env, s, at)
    decreases i
  {
    if Fetch(env, i, key).at != i || !Offers(env, i, key) {
      FetchIsInnermost(env, env[i].parent, key, s);
    }
  }

  /** The section has no value for `key`, and neither has its DEFAULT section, if there is one. */
  ghost predicate Passes(env: Sections, i: nat, key: string)
    requires i < |env|
  {
    var own := env[i].entries;
    && (key in own ==> own[key].Subsection?)
    && ("DEFAULT" in own ==>
         && own["DEFAULT"].Subsection?
         && var default := env[own["DEFAULT"].node].entries; key in default ==> default[key].Subsection?)
  }

  /** The innermost enclosing section that does not pass decides: its own value comes before the one of its DEFAULT
      section, and a DEFAULT that is no section is asked only when there is no own value. At the top level, what its
      DEFAULT section holds under the key is the answer even if it is a section. */
  lemma {:induction false} FetchedFrom(env: Sections, i: nat, key: string, s: nat)
    requires i < |env| && s < |env| && Encloses(env, s, i)
    requires forall t | 0 <= t < |env| && t != s && Encloses(env, t, i) && Encloses(env, s, t) :: Passes(env, t, key)
    ensures var own := env[s].entries;
            if key in own && !own[key].Subsection? then Fetch(env, i, key) == Found(own[key], s)
            else if "DEFAULT" in own && !own["DEFAULT"].Subsection? then Fetch(env, i, key) == Broken
            else
              var default := if "DEFAULT" in own then env[own["DEFAULT"].node].entries else map[];
              if key in default && (s == 0 || !default[key].Subsection?) then
                Fetch(env, i, key) == Found(default[key], s)
              else s == 0 ==> Fetch(env, i, key) == Missing
    decreases i
  {
    if i != s {
      assert Encloses(env, i, i) && Passes(env, i, key);
      FetchedFrom(env, env[i].parent, key, s);
    }
  }

  // ---------------------------------------------------------------- references in a text

  function NextClose(s: string, i: nat): (r: Option<nat>)
    ensures r.Some? ==> i <= r.value < |s| && s[r.value] == ')'
    decreases |s| - i
  {
    if i >= |s| then None else if s[i] == ')' then Some(i) else NextClose(s, i + 1)
  }

  /** The reference that starts at position `i`: where it ends. */
  function RefAt(s: string, i: nat): (r: Option<nat>)
    ensures r.Some? ==> i + 4 <= r.value <= |s|
  {
    if i + 1 < |s| && s[i] == '%' && s[i + 1] == '(' then
      match NextClose(s, i + 2)
      case Some(j) => if j + 1 < |s| && s[j + 1] == 's' then Some(j + 2) else None
      case None => None
    else None
  }

  /** The leftmost reference at or after `i`. */
  function Search(s: string, i: nat): (r: Option<(nat, nat)>)
    ensures r.Some? ==> i <= r.value.0 && r.value.0 + 4 <= r.value.1 <= |s| && RefAt(s, r.value.0) == Some(r.value.1)
    decreases |s| - i
  {
    if i >= |s| then None
    else if RefAt(s, i).Some? then Some((i, RefAt(s, i).value))
    else Search(s, i + 1)
  }

  function KeyAt(s: string, start: nat, end: nat): string
    requires start + 4 <= end <= |s|
  {
    s[start + 2..end - 2]
  }

  /** The text from `start` to `end` is `%(key)s`. */
  ghost predicate IsReference(s: string, start: nat, end: nat, key: string) {
    start <= end <= |s| && ')' !in key && s[start..end] == "%(" + key + ")s"
  }

  lemma {:induction false} CloseIsFirst(s: string, i: nat, j: nat)
    requires i <= j < |s| && s[j] == ')' && forall k :: i <= k < j ==> s[k] != ')'
    ensures NextClose(s, i) == Some(j)
    decreases j - i
  {
    if i < j { CloseIsFirst(s, i + 1, j); }
  }

  lemma {:induction false} NothingBeforeClose(s: string, i: nat)
    requires NextClose(s, i).Some?
    ensures forall k :: i <= k < NextClose(s, i).value ==> s[k] != ')'
    decreases |s| - i
  {
    if s[i] != ')' { NothingBeforeClose(s, i + 1); }
  }

  lemma ReferenceLetters(s: string, start: nat, end: nat, key: string)
    requires IsReference(s, start, end, key)
    ensures end == start + |key| + 4 && s[start] == '%' && s[start + 1] == '(' && s[end - 2] == ')' && s[end - 1] == 's'
    ensures s[start + 2..end - 2] == key
  {
    var ref := s[start..end];
    assert forall k :: 0 <= k < |ref| ==> s[start + k] == ref[k];
    assert ref[1] == '(' && ref[|key| + 2] == ')';
    forall k | 0 <= k < |key|
      ensures s[start + 2 + k] == key[k]
    {
      assert ref[k + 2] == key[k];
    }
  }

  lemma RefAtIff(s: string, start: nat, end: nat, key: string)
    ensures IsReference(s, start, end, key) ==> RefAt(s, start) == Some(end) && KeyAt(s, start, end) == key
    ensures RefAt(s, start) == Some(end) ==> IsReference(s, start, end, KeyAt(s, start, end))
  {
    if IsReference(s, start, end, key) {
      ReferenceLetters(s, start, end, key);
      forall k | start + 2 <= k < end - 2
        ensures s[k] != ')'
      {
        assert s[k] == key[k - start - 2];
      }
      CloseIsFirst(s, start + 2, end - 2);
    }
    if RefAt(s, start) == Some(end) {
      NothingBeforeClose(s, start + 2);
      assert s[start..end] == "%(" + s[start + 2..end - 2] + ")s";
    }
  }

  /** The search finds the leftmost `%(key)s` at or after `i`, if there is one. */
  lemma {:induction false} SearchIsLeftmost(s: string, i: nat)
    ensures match Search(s, i)
            case None => forall a: nat, b: nat, key | IsReference(s, a, b, key) :: a < i
            case Some((start, end)) =>
              && i <= start && IsReference(s, start, end, KeyAt(s, start, end))
              && forall a: nat, b: nat, key | IsReference(s, a, b, key) :: a < i || start <= a
    decreases |s| - i
  {
    hide IsReference, RefAt;
    forall a: nat, b: nat, key | IsReference(s, a, b, key)
      ensures a < |s| && RefAt(s, a) == Some(b)
    {
      RefAtIff(s, a, b, key);
    }
    if i < |s| {
      if RefAt(s, i).Some? { RefAtIff(s, i, RefAt(s, i).value, ""); }
      SearchIsLeftmost(s, i + 1);
    }
  }

  lemma {:induction false} NextCloseShift(a: string, b: string, i: nat)
    ensures NextClose(a + b, |a| + i) == match NextClose(b, i) case Some(j) => Some(|a| + j) case None => None
    decreases |b| - i
  {
    if i < |b| { NextCloseShift(a, b, i + 1); }
  }

  lemma RefAtShift(a: string, b: string, i: nat)
    requires i < |b|
    ensures RefAt(a + b, |a| + i) == match RefAt(b, i) case Some(j) => Some(|a| + j) case None => None
  {
    hide NextClose;
    NextCloseShift(a, b, i + 2);
  }

  /** Searching from a position looks at nothing before it. */
  lemma {:induction false} SearchShift(a: string, b: string, i: nat)
    ensures Search(a + b, |a| + i)
         == match Search(b, i) case Some((start, end)) => Some((|a| + start, |a| + end)) case None => None
    decreases |b| - i
  {
    hide RefAt, NextClose;
    if i < |b| {
      RefAtShift(a, b, i);
      SearchShift(a, b, i + 1);
    }
  }

  // ---------------------------------------------------------------- what interpolation means

  datatype Error = Loop(key: string) | MissingOption(key: string) | NotAString | BrokenDefault

  type Mark = (string, Option<string>)

  function Keys(env: Sections): set<string> {
    set i, k | 0 <= i < |env| && k in env[i].entries :: k
  }

  /** Every mark the expansion can leave. */
  function Marks(env: Sections): set<Mark> {
    set k, i | k in Keys(env) && 0 <= i < |env| :: (k, env[i].name)
  }

  lemma {:induction false} FetchedKey(env: Sections, i: nat, key: string)
    requires i < |env| && Fetch(env, i, key).Found?
    ensures key in Keys(env) && (key, env[Fetch(env, i, key).at].name) in Marks(env)
    decreases i
  {
    if !Offers(env, i, key) && env[i].parent != i { FetchedKey(env, env[i].parent, key); }
  }

  function Prepend(before: string, r: Result<string, Error>): Result<string, Error> {
    match r
    case Ok(s) => Ok(before + s)
    case Err(e) => Err(e)
  }

  /** The value `key` of section `at` stands for, when the marks in `trail` are being expanded. */
  function Expand(env: Sections, home: nat, u: set<Mark>, key: string, at: nat, value: Entry,
                  trail: set<Mark>): Result<string, Error>
    requires home < |env| && at < |env| && Marks(env) <= u && (key, env[at].name) in u
    decreases |u - trail|, 0, 0
  {
    var mark := (key, env[at].name);
    if mark in trail then Err(Loop(key))
    else if !value.Text? then Err(NotAString)
    else
      assert u - (trail + {mark}) == (u - trail) - {mark};
      Substitute(env, home, u, value.text, trail + {mark})
  }

  /** One reference. */
  function Resolve(env: Sections, home: nat, u: set<Mark>, key: string, trail: set<Mark>): Result<string, Error>
    requires home < |env| && Marks(env) <= u
    decreases |u - trail|, 1, 0
  {
    match Fetch(env, home, key)
    case Missing => Err(MissingOption(key))
    case Broken => Err(BrokenDefault)
    case Found(value, at) =>
      FetchedKey(env, home, key);
      Expand(env, home, u, key, at, value, trail)
  }

  /** The text with every reference replaced by what it stands for; replacements are not scanned again. */
  function Substitute(env: Sections, home: nat, u: set<Mark>, text: string, trail: set<Mark>): Result<string, Error>
    requires home < |env| && Marks(env) <= u
    decreases |u - trail|, 2, |text|
  {
    match Search(text, 0)
    case None => Ok(text)
    case Some((start, end)) =>
      match Resolve(env, home, u, KeyAt(text, start, end), trail)
      case Err(e) => Err(e)
      case Ok(replacement) => Prepend(text[..start] + replacement, Substitute(env, home, u, text[end..], trail))
  }

  /** `interpolate` for a value read from section `home`. */
  function Interpolate(env: Sections, home: nat, key: string, value: string): Result<string, Error>
    requires home < |env|
  {
    if '%' !in value then Ok(value)
    else Expand(env, home, Marks(env) + {(key, env[home].name)}, key, home, Text(value), {})
  }

  /** A value without a reference is what it stands for. */
  lemma Unreferenced(env: Sections, home: nat, key: string, value: string)
    requires home < |env| && Search(value, 0).None?
    ensures Interpolate(env, home, key, value) == Ok(value)
  {
    if '%' in value {
      var mark := (key, env[home].name);
      assert Substitute(env, home, Marks(env) + {mark}, value, {} + {mark}) == Ok(value);
    }
  }

  /** A value that is one reference to a key that is nowhere to be found. */
  lemma LoneMissing(env: Sections, home: nat, key: string, value: string, k: string)
    requires home < |env| && Search(value, 0) == Some((0, |value|)) && KeyAt(value, 0, |value|) == k
    requires Fetch(env, home, k).Missing?
    ensures Interpolate(env, home, key, value) == Err(MissingOption(k))
  {
    assert value[0] == '%';
    var mark := (key, env[home].name);
    var u := Marks(env) + {mark};
    assert Resolve(env, home, u, k, {} + {mark}) == Err(MissingOption(k));
    assert Substitute(env, home, u, value, {} + {mark}) == Err(MissingOption(k));
  }

  /** A value that is one reference to another key here, whose value has no reference. */
  lemma LoneReference(env: Sections, home: nat, key: string, value: string, k: string, text: string)
    requires home < |env| && Search(value, 0) == Some((0, |value|)) && KeyAt(value, 0, |value|) == k && k != key
    requires Fetch(env, home, k) == Found(Text(text), home) && Search(text, 0).None?
    ensures Interpolate(env, home, key, value) == Ok(text)
  {
    hide Marks, Search, Fetch, Keys;
    assert value[0] == '%';
    var mark, inner := (key, env[home].name), (k, env[home].name);
    var u := Marks(env) + {mark};
    FetchedKey(env, home, k);
    assert Substitute(env, home, u, text, {} + {mark} + {inner}) == Ok(text);
    assert Resolve(env, home, u, k, {} + {mark}) == Ok(text);
    assert value[|value|..] == "";
    assert Search("", 0).None? by { EmptySearch(); }
    assert Substitute(env, home, u, "", {} + {mark}) == Ok("");
    assert value[..0] + text == text && text + "" == text;
    assert Substitute(env, home, u, value, {} + {mark}) == Ok(text);
  }

  lemma EmptySearch()
    ensures Search("", 0).None?
  {
  }

  // ---------------------------------------------------------------- when it succeeds

  /** The keys a text refers to, left to right. */
  function References(text: string): seq<string>
    decreases |text|
  {
    match Search(text, 0)
    case None => []
    case Some((start, end)) => [KeyAt(text, start, end)] + References(text[end..])
  }

  /** The keys of `walk` refer to each other in turn, the first one from `text`. */
  ghost predicate IsWalk(env: Sections, home: nat, text: string, walk: seq<string>)
    requires home < |env|
    decreases |walk|
  {
    && |walk| > 0 && walk[0] in References(text)
    && (|walk| > 1 ==>
          var f := Fetch(env, home, walk[0]);
          f.Found? && f.value.Text? && IsWalk(env, home, f.value.text, walk[1..]))
  }

  /** The last key of `walk` cannot be expanded, and why. */
  ghost predicate IsDead(env: Sections, home: nat, trail: set<Mark>, walk: seq<string>, e: Error)
    requires home < |env|
  {
    && |walk| > 0
    && var k := walk[|walk| - 1];
       match Fetch(env, home, k)
       case Missing => e == MissingOption(k)
       case Broken => e == BrokenDefault
       case Found(value, at) =>
         if (k, env[at].name) in trail || k in walk[..|walk| - 1] then e == Loop(k) else !value.Text? && e == NotAString
  }

  /** A walk that dies behind key `k` dies in front of it. */
  lemma DeadLonger(env: Sections, home: nat, trail: set<Mark>, k: string, name: Option<string>, walk: seq<string>,
                   e: Error)
    requires home < |env| && |walk| > 0
    requires Fetch(env, home, k).Found? ==> name == env[Fetch(env, home, k).at].name
    ensures IsDead(env, home, trail + {(k, name)}, walk, e) == IsDead(env, home, trail, [k] + walk, e)
  {
    hide Fetch;
    var all, n := [k] + walk, |walk|;
    assert all[n] == walk[n - 1] && all[..n] == [k] + walk[..n - 1];
  }

  /** Every failure is a walk that dies for that reason. */
  lemma {:induction false} FailureHasWalk(env: Sections, home: nat, u: set<Mark>, text: string, trail: set<Mark>)
    returns (walk: seq<string>)
    requires home < |env| && Marks(env) <= u && Substitute(env, home, u, text, trail).Err?
    ensures IsWalk(env, home, text, walk)
    ensures IsDead(env, home, trail, walk, Substitute(env, home, u, text, trail).error)
    decreases |u - trail|, 1, |text|
  {
    hide Search, Fetch, Marks, KeyAt, IsDead;
    var (start, end) := Search(text, 0).value;
    var k := KeyAt(text, start, end);
    var one := Resolve(env, home, u, k, trail);
    if one.Ok? {
      walk := FailureHasWalk(env, home, u, text[end..], trail);
    } else {
      walk := ReferenceFails(env, home, u, k, trail);
      assert References(text)[0] == k;
    }
  }

  lemma {:induction false} ReferenceFails(env: Sections, home: nat, u: set<Mark>, k: string, trail: set<Mark>)
    returns (walk: seq<string>)
    requires home < |env| && Marks(env) <= u && Resolve(env, home, u, k, trail).Err?
    ensures |walk| > 0 && walk[0] == k
    ensures |walk| > 1 ==>
              var f := Fetch(env, home, k); f.Found? && f.value.Text? && IsWalk(env, home, f.value.text, walk[1..])
    ensures IsDead(env, home, trail, walk, Resolve(env, home, u, k, trail).error)
    decreases |u - trail|, 0, 0
  {
    hide Fetch, Marks, Substitute, IsWalk;
    var f := Fetch(env, home, k);
    if f.Found? {
      var mark := (k, env[f.at].name);
      FetchedKey(env, home, k);
      if mark !in trail && f.value.Text? {
        assert u - (trail + {mark}) == (u - trail) - {mark};
        var rest := FailureHasWalk(env, home, u, f.value.text, trail + {mark});
        WalkNonempty(env, home, f.value.text, rest);
        DeadLonger(env, home, trail, k, env[f.at].name, rest, Resolve(env, home, u, k, trail).error);
        return [k] + rest;
      }
    }
    walk := [k];
  }

  lemma WalkNonempty(env: Sections, home: nat, text: string, walk: seq<string>)
    requires home < |env| && IsWalk(env, home, text, walk)
    ensures |walk| > 0
  {
  }

  /** Every walk that dies is a failure. */
  lemma {:induction false} WalkFails(env: Sections, home: nat, u: set<Mark>, text: string, trail: set<Mark>,
                                     walk: seq<string>, e: Error)
    requires home < |env| && Marks(env) <= u
    requires IsWalk(env, home, text, walk) && IsDead(env, home, trail, walk, e)
    ensures Substitute(env, home, u, text, trail).Err?
    decreases |walk|, |text|
  {
    hide Search, Fetch, Marks, KeyAt, IsDead, Resolve;
    var (start, end) := Search(text, 0).value;
    var k := KeyAt(text, start, end);
    if k == walk[0] {
      WalkFailsAt(env, home, u, trail, walk, e);
    } else {
      assert walk[0] in References(text[end..]);
      WalkFails(env, home, u, text[end..], trail, walk, e);
    }
  }

  lemma {:induction false} WalkFailsAt(env: Sections, home: nat, u: set<Mark>, trail: set<Mark>, walk: seq<string>,
                                       e: Error)
    requires home < |env| && Marks(env) <= u && |walk| > 0
    requires |walk| > 1 ==>
               var f := Fetch(env, home, walk[0]);
               f.Found? && f.value.Text? && IsWalk(env, home, f.value.text, walk[1..])
    requires IsDead(env, home, trail, walk, e)
    ensures Resolve(env, home, u, walk[0], trail).Err?
    decreases |walk|, 0
  {
    hide Fetch, Marks, Substitute, IsWalk;
    var k := walk[0];
    var f := Fetch(env, home, k);
    if |walk| > 1 {
      FetchedKey(env, home, k);
      assert walk == [k] + walk[1..];
      DeadLonger(env, home, trail, k, env[f.at].name, walk[1..], e);
      if (k, env[f.at].name) !in trail {
        WalkFails(env, home, u, f.value.text, trail + {(k, env[f.at].name)}, walk[1..], e);
      }
    }
  }

  /** A value interpolates unless some walk of references from it dies: at a key nobody offers, at a value that is no
      text, or at a key that is on the walk already. */
  lemma InterpolatesUnlessDead(env: Sections, home: nat, key: string, value: string)
    requires home < |env| && '%' in value
    ensures Interpolate(env, home, key, value).Ok?
       <==> forall walk, e | IsWalk(env, home, value, walk) :: !IsDead(env, home, {(key, env[home].name)}, walk, e)
    ensures Interpolate(env, home, key, value).Err?
        ==> exists walk | IsWalk(env, home, value, walk) ::
              IsDead(env, home, {(key, env[home].name)}, walk, Interpolate(env, home, key, value).error)
  {
    hide Marks, Substitute, IsWalk, IsDead, Fetch;
    var mark := (key, env[home].name);
    var u := Marks(env) + {mark};
    assert {} + {mark} == {mark};
    assert Interpolate(env, home, key, value) == Substitute(env, home, u, value, {mark});
    if Interpolate(env, home, key, value).Err? {
      var walk := FailureHasWalk(env, home, u, value, {mark});
    }
    forall walk, e | IsWalk(env, home, value, walk) && IsDead(env, home, {mark}, walk, e)
      ensures Interpolate(env, home, key, value).Err?
    {
      WalkFails(env, home, u, value, {mark}, walk, e);
    }
  }

  // ---------------------------------------------------------------- what a reference stands for

  /** A text that expands below other keys expands to the same text on its own. */
  lemma {:induction false} TrailIrrelevant(env: Sections, home: nat, u: set<Mark>, v: set<Mark>, text: string,
                                           trail: set<Mark>, fewer: set<Mark>)
    requires home < |env| && Marks(env) <= u && Marks(env) <= v && fewer <= trail
    requires Substitute(env, home, u, text, trail).Ok?
    ensures Substitute(env, home, v, text, fewer) == Substitute(env, home, u, text, trail)
    decreases |u - trail|, 1, |text|
  {
    hide Search, Fetch, Marks, KeyAt, Resolve;
    if Search(text, 0).Some? {
      var (start, end) := Search(text, 0).value;
      TrailIrrelevantAt(env, home, u, v, KeyAt(text, start, end), trail, fewer);
      TrailIrrelevant(env, home, u, v, text[end..], trail, fewer);
    }
  }

  lemma {:induction false} TrailIrrelevantAt(env: Sections, home: nat, u: set<Mark>, v: set<Mark>, k: string,
                                             trail: set<Mark>, fewer: set<Mark>)
    requires home < |env| && Marks(env) <= u && Marks(env) <= v && fewer <= trail
    requires Resolve(env, home, u, k, trail).Ok?
    ensures Resolve(env, home, v, k, fewer) == Resolve(env, home, u, k, trail)
    decreases |u - trail|, 0, 0
  {
    hide Fetch, Marks, Substitute;
    var f := Fetch(env, home, k);
    FetchedKey(env, home, k);
    var mark := (k, env[f.at].name);
    assert u - (trail + {mark}) == (u - trail) - {mark};
    TrailIrrelevant(env, home, u, v, f.value.text, trail + {mark}, fewer + {mark});
  }

  /** A reference stands for the expansion of the text that is found under its key, wherever that is. */
  lemma ReferenceStandsFor(env: Sections, home: nat, u: set<Mark>, k: string, v: string, at: nat, trail: set<Mark>)
    requires home < |env| && Marks(env) <= u && Fetch(env, home, k) == Found(Text(v), at)
    requires Resolve(env, home, u, k, trail).Ok?
    ensures Resolve(env, home, u, k, trail) == Substitute(env, home, u, v, {})
  {
    hide Fetch, Marks, Search;
    FetchedKey(env, home, k);
    var mark := (k, env[at].name);
    assert u - (trail + {mark}) == (u - trail) - {mark};
    TrailIrrelevant(env, home, u, u, v, trail + {mark}, {});
  }

  /** The first reference of a text gives way to what it stands for; the text before it stays and the text behind it is
      expanded in turn. */
  lemma ReferenceReplaced(env: Sections, home: nat, u: set<Mark>, trail: set<Mark>, a: string, k: string, b: string)
    requires home < |env| && Marks(env) <= u && ')' !in k
    requires forall c: nat, d: nat, key | IsReference(a + ("%(" + k + ")s") + b, c, d, key) :: |a| <= c
    ensures Substitute(env, home, u, a + ("%(" + k + ")s") + b, trail)
         == match Resolve(env, home, u, k, trail)
            case Err(e) => Err(e)
            case Ok(v) =>
              match Substitute(env, home, u, b, trail)
              case Err(e) => Err(e)
              case Ok(w) => Ok(a + v + w)
  {
    hide Search, RefAt, KeyAt, Marks, Resolve;
    var ref := "%(" + k + ")s";
    var text, start, end := a + ref + b, |a|, |a| + |ref|;
    assert text[start..end] == ref && text[..start] == a && text[end..] == b;
    assert IsReference(text, start, end, k);
    SearchIsLeftmost(text, 0);
    RefAtIff(text, start, end, k);
    var (i, j) := Search(text, 0).value;
    RefAtIff(text, i, j, KeyAt(text, i, j));
    assert Search(text, 0) == Some((start, end));
  }

  lemma {:induction false} NoCookieNoReference(text: string, i: nat)
    requires '%' !in text
    ensures Search(text, i).None?
    decreases |text| - i
  {
    if i < |text| {
      assert text[i] in text;
      NoCookieNoReference(text, i + 1);
    }
  }

  /** A reference to a key of the same section is replaced by exactly what reading that key yields. */
  lemma ReferenceReadsAsKey(env: Sections, home: nat, u: set<Mark>, k: string, v: string, trail: set<Mark>)
    requires home < |env| && Marks(env) <= u && Fetch(env, home, k) == Found(Text(v), home)
    requires Resolve(env, home, u, k, trail).Ok?
    ensures Resolve(env, home, u, k, trail) == Interpolate(env, home, k, v)
  {
    hide Fetch, Marks, Search;
    FetchedKey(env, home, k);
    var own := Marks(env) + {(k, env[home].name)};
    TrailIrrelevantAt(env, home, u, own, k, trail, {});
    if '%' !in v {
      NoCookieNoReference(v, 0);
      assert Substitute(env, home, own, v, {} + {(k, env[home].name)}) == Ok(v);
    }
  }

  // ---------------------------------------------------------------- the engine

  lemma SpanShift(a: string, b: string, start: nat, end: nat)
    requires start + 4 <= end <= |b|
    ensures KeyAt(a + b, |a| + start, |a| + end) == KeyAt(b, start, end)
    ensures (a + b)[..|a| + start] == a + b[..start]
    ensures (a + b)[|a| + end..] == b[end..]
  {
  }

  lemma Spliced(front: string, rest: string, start: nat, end: nat, replacement: string)
    requires start + 4 <= end <= |rest|
    ensures (front + rest)[..|front| + start] + replacement + (front + rest)[|front| + end..]
         == front + (rest[..start] + replacement) + rest[end..]
  {
    SpanShift(front, rest, start, end);
    assert front + rest[..start] + replacement == front + (rest[..start] + replacement);
  }

  /** The next reference of a text whose front is done is the first one of the rest. */
  lemma NextReference(front: string, rest: string)
    ensures Search(front + rest, |front|)
         == match Search(rest, 0) case Some((start, end)) => Some((|front| + start, |front| + end)) case None => None
  {
    hide Search;
    SearchShift(front, rest, 0);
  }

  lemma PrependNothing(r: Result<string, Error>)
    ensures Prepend("", r) == r
  {
    if r.Ok? { assert "" + r.value == r.value; }
  }

  lemma PrependTwice(a: string, b: string, r: Result<string, Error>)
    ensures Prepend(a, Prepend(b, r)) == Prepend(a + b, r)
  {
    if r.Ok? { assert a + (b + r.value) == a + b + r.value; }
  }

  /** One turn of the loop: the replaced reference joins the part that is done. */
  lemma SubstituteStep(env: Sections, home: nat, u: set<Mark>, trail: set<Mark>, front: string, rest: string,
                       start: nat, end: nat)
    requires home < |env| && Marks(env) <= u && Search(rest, 0) == Some((start, end))
    ensures Prepend(front, Substitute(env, home, u, rest, trail))
         == match Resolve(env, home, u, KeyAt(rest, start, end), trail)
            case Ok(replacement) =>
              Prepend(front + (rest[..start] + replacement), Substitute(env, home, u, rest[end..], trail))
            case Err(e) => Err(e)
  {
    hide Search, Resolve, Marks, KeyAt;
    match Resolve(env, home, u, KeyAt(rest, start, end), trail)
    case Err(e) =>
    case Ok(replacement) =>
      PrependTwice(front, rest[..start] + replacement, Substitute(env, home, u, rest[end..], trail));
  }

  lemma SubstituteEnd(env: Sections, home: nat, u: set<Mark>, trail: set<Mark>, front: string, rest: string)
    requires home < |env| && Marks(env) <= u && Search(rest, 0).None?
    ensures Prepend(front, Substitute(env, home, u, rest, trail)) == Ok(front + rest)
  {
    hide Search, Marks;
  }

  lemma ResolveFound(env: Sections, home: nat, u: set<Mark>, key: string, trail: set<Mark>, value: Entry, at: nat)
    requires home < |env| && Marks(env) <= u && Fetch(env, home, key) == Found(value, at)
    ensures at < |env| && (key, env[at].name) in u
    ensures Resolve(env, home, u, key, trail) == Expand(env, home, u, key, at, value, trail)
  {
    hide Fetch, Marks, Expand;
    FetchedKey(env, home, key);
  }

  class InterpolationEngine {
    const env: Sections
    const section: nat
    /** The marks of the keys being expanded. */
    var backtrail: set<Mark>

    constructor (env: Sections, section: nat)
      requires section < |env|
      ensures this.env == env && this.section == section && backtrail == {}
    {
      this.env, this.section := env, section;
      backtrail := {};
    }

    /** The recursive worker: the text is spliced in place and searched again behind each replacement. */
    method RecursiveInterpolate(key: string, text: Entry, at: nat, ghost u: set<Mark>)
      returns (r: Result<string, Error>)
      requires section < |env| && at < |env| && Marks(env) <= u && (key, env[at].name) in u
      modifies this
      ensures r == Expand(env, section, u, key, at, text, old(backtrail))
      ensures r.Ok? ==> backtrail == old(backtrail)
      decreases |u - backtrail|
    {
      hide Search, KeyAt, Fetch, Marks, Substitute, Prepend;
      var mark := (key, env[at].name);
      if mark in backtrail {
        return Err(Loop(key));
      }
      ghost var trail := backtrail + {mark};
      assert u - trail == (u - backtrail) - {mark};
      backtrail := backtrail + {mark};
      if !text.Text? {
        return Err(NotAString);
      }
      var value := text.text;
      var start: nat := 0;
      ghost var front, rest := "", value;
      assert front + rest == value;
      PrependNothing(Substitute(env, section, u, rest, trail));
      while true
        invariant value == front + rest && start == |front| && backtrail == trail
        invariant Prepend(front, Substitute(env, section, u, rest, trail))
               == Substitute(env, section, u, text.text, trail)
        decreases |rest|
      {
        NextReference(front, rest);
        var found := Search(value, start);
        if found.None? {
          SubstituteEnd(env, section, u, trail, front, rest);
          break;
        }
        var (first, end) := found.value;
        ghost var (i, j) := Search(rest, 0).value;
        SpanShift(front, rest, i, j);
        SubstituteStep(env, section, u, trail, front, rest, i, j);
        var k := KeyAt(value, first, end);
        var fetched := FetchKey(env, section, k);
        match fetched
        case Missing => return Err(MissingOption(k));
        case Broken => return Err(BrokenDefault);
        case Found(v, s) =>
          ResolveFound(env, section, u, k, trail, v, s);
          var replacement := RecursiveInterpolate(k, v, s, u);
          if replacement.Err? {
            return replacement;
          }
          Spliced(front, rest, i, j, replacement.value);
          value := value[..first] + replacement.value + value[end..];
          start := first + |replacement.value|;
          front, rest := front + (rest[..i] + replacement.value), rest[j..];
      }
      backtrail := backtrail - {mark};
      return Ok(value);
    }

    method Run(key: string, value: string) returns (r: Result<string, Error>)
      requires section < |env| && backtrail == {}
      modifies this
      ensures r == Interpolate(env, section, key, value)
      ensures r.Ok? ==> backtrail == {}
    {
      if '%' !in value {
        return Ok(value);
      }
      r := RecursiveInterpolate(key, Text(value), section, Marks(env) + {(key, env[section].name)});
    }
  }
}
