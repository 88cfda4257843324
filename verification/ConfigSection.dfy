/**
 Sections as ordered dictionaries (pylib/configobj/configobj.py): the mutators that keep the key lists, the dictionary
 and the comments in step, renaming and merging. Reading a value interpolates it, unless interpolation is off.
 */
module ConfigSection {
  import opened Prelude
  import ConfigInterpolation

  datatype Comment = Comment(lines: seq<string>, inline: string)

  /** `scalars` and `sections` order the keys of the dictionary `entries`. */
  datatype Sect = Sect(
    scalars: seq<string>, sections: seq<string>, entries: map<string, Value>, comments: map<string, Comment>)

  datatype Value = Scalar(text: string) | Sub(sect: Sect)

  /** A plain dictionary given to `update` or `merge`, in its order. */
  datatype Items = NoItems | Item(key: string, val: Given, rest: Items)

  datatype Given = Text(text: string) | Dict(items: Items)

  const EMPTY := Sect([], [], map[], map[])

  // ---------------------------------------------------------------- the listing

  /** The two lists together list exactly the keys, once each, and exactly these have comments. */
  ghost predicate Listing(s: Sect) {
    && Distinct(s.scalars) && Distinct(s.sections) && (forall k :: k in s.scalars ==> k !in s.sections)
    && (forall k :: k in s.entries <==> k in s.scalars || k in s.sections)
    && s.comments.Keys == s.entries.Keys
  }

  /** The same, of a section and all sections below it. */
  ghost predicate Listed(s: Sect)
    decreases s
  {
    Listing(s) && forall k :: k in s.entries && s.entries[k].Sub? ==> Listed(s.entries[k].sect)
  }

  // ---------------------------------------------------------------- reading a value

  type ReadError = ConfigInterpolation.Error

  /** A section and its name; the top level has none. */
  datatype Level = Level(name: Option<string>, sect: Sect)

  /** Where a section stands: whether interpolation is on, the sections around it from the top level down, its name. */
  datatype Place = Place(on: bool, outer: seq<Level>, name: Option<string>)

  const TOP := Place(true, [], None)

  /** The place of the subsection `key` of `s`. */
  function Inside(p: Place, s: Sect, key: string): Place {
    Place(p.on, p.outer + [Level(p.name, s)], Some(key))
  }

  /** The DEFAULT section of a level; it may be the level below. */
  function DefaultAt(levels: seq<Level>, i: nat): Sect
    requires i < |levels|
  {
    var own := levels[i].sect;
    if i + 1 < |levels| && levels[i + 1].name == Some("DEFAULT") then levels[i + 1].sect
    else if "DEFAULT" in own.entries && own.entries["DEFAULT"].Sub? then own.entries["DEFAULT"].sect
    else EMPTY
  }

  /** The entries of a section as the lookup sees them; the only subsection it looks into is DEFAULT, at `default`. */
  function Seen(s: Sect, default: nat): map<string, ConfigInterpolation.Entry> {
    map k | k in s.entries ::
      match s.entries[k]
      case Scalar(text) => ConfigInterpolation.Text(text)
      case Sub(_) => ConfigInterpolation.Subsection(default)
  }

  function SeenSection(levels: seq<Level>, i: nat): ConfigInterpolation.Section
    requires i < 2 * |levels|
  {
    var n := |levels|;
    if i < n then
      ConfigInterpolation.Section(levels[i].name, if i == 0 then 0 else i - 1, Seen(levels[i].sect, n + i))
    else
      ConfigInterpolation.Section(Some("DEFAULT"), i - n, Seen(DefaultAt(levels, i - n), i))
  }

  /** What a lookup from the innermost level can reach: the levels, then the DEFAULT section of each. */
  function Env(levels: seq<Level>): (env: ConfigInterpolation.Sections)
    requires levels != []
    ensures |env| == 2 * |levels| && forall i :: 0 <= i < |env| ==> env[i] == SeenSection(levels, i)
  {
    seq(2 * |levels|, i requires 0 <= i < 2 * |levels| => SeenSection(levels, i))
  }

  function ReadText(p: Place, s: Sect, key: string, text: string): Result<string, ReadError> {
    if p.on then ConfigInterpolation.Interpolate(Env(p.outer + [Level(p.name, s)]), |p.outer|, key, text) else Ok(text)
  }

  /** `__getitem__` of a key that is there. */
  function Read(p: Place, s: Sect, key: string): Result<Value, ReadError>
    requires key in s.entries
  {
    match s.entries[key]
    case Sub(_) => Ok(s.entries[key])
    case Scalar(text) =>
      match ReadText(p, s, key, text)
      case Ok(expanded) => Ok(Scalar(expanded))
      case Err(e) => Err(e)
  }

  /** Level `i` has no text for the key, and no DEFAULT section. */
  ghost predicate Silent(levels: seq<Level>, i: nat, key: string)
    requires i < |levels|
  {
    key !in levels[i].sect.entries && "DEFAULT" !in levels[i].sect.entries
    && (i + 1 < |levels| ==> levels[i + 1].name != Some("DEFAULT"))
  }

  lemma {:induction false} LevelsEnclose(levels: seq<Level>, j: nat, i: nat)
    requires j < |levels| && i < |levels|
    ensures ConfigInterpolation.Encloses(Env(levels), j, i) <==> j <= i
    decreases i
  {
    if i > 0 { LevelsEnclose(levels, j, i - 1); }
  }

  lemma {:induction false} OnlyLevelsEnclose(levels: seq<Level>, t: nat, i: nat)
    requires i < |levels| && t < |Env(levels)| && ConfigInterpolation.Encloses(Env(levels), t, i)
    ensures t <= i
    decreases i
  {
    if t != i { OnlyLevelsEnclose(levels, t, i - 1); }
  }

  lemma SilentPasses(levels: seq<Level>, i: nat, key: string)
    requires i < |levels| && Silent(levels, i, key)
    ensures ConfigInterpolation.Passes(Env(levels), i, key)
  {
    assert Env(levels)[i] == SeenSection(levels, i);
  }

  /** The text stands in the level itself, or else in its DEFAULT section. */
  ghost predicate Gives(s: Sect, key: string, text: string) {
    || (key in s.entries && s.entries[key] == Scalar(text))
    || (&& key !in s.entries && "DEFAULT" in s.entries && s.entries["DEFAULT"].Sub?
        && var default := s.entries["DEFAULT"].sect.entries; key in default && default[key] == Scalar(text))
  }

  lemma LevelSeen(levels: seq<Level>, j: nat, key: string, text: string)
    requires j < |levels| && Gives(levels[j].sect, key, text)
    requires j + 1 < |levels| ==> levels[j + 1].name != Some("DEFAULT")
    ensures var env := Env(levels);
            var own := env[j].entries;
            if key in own then own[key] == ConfigInterpolation.Text(text)
            else
              && "DEFAULT" in own && own["DEFAULT"].Subsection?
              && var default := env[own["DEFAULT"].node].entries;
                 key in default && default[key] == ConfigInterpolation.Text(text)
  {
    assert Env(levels)[j] == SeenSection(levels, j);
    assert Env(levels)[|levels| + j] == SeenSection(levels, |levels| + j);
  }

  /** A reference is looked up from the section it stands in outwards: the first level with a text under the key gives
      it, from the section itself or else from its DEFAULT section. */
  lemma FoundInLevel(levels: seq<Level>, j: nat, key: string, text: string)
    requires j < |levels| && forall i :: j < i < |levels| ==> Silent(levels, i, key)
    requires j + 1 < |levels| ==> levels[j + 1].name != Some("DEFAULT")
    requires Gives(levels[j].sect, key, text)
    ensures ConfigInterpolation.Fetch(Env(levels), |levels| - 1, key)
         == ConfigInterpolation.Found(ConfigInterpolation.Text(text), j)
  {
    hide ConfigInterpolation.Fetch, ConfigInterpolation.Encloses, ConfigInterpolation.Passes, Silent, Seen;
    var env, last := Env(levels), |levels| - 1;
    LevelsEnclose(levels, j, last);
    forall t | 0 <= t < |env| && t != j && ConfigInterpolation.Encloses(env, t, last) &&
               ConfigInterpolation.Encloses(env, j, t)
      ensures ConfigInterpolation.Passes(env, t, key)
    {
      OnlyLevelsEnclose(levels, t, last);
      LevelsEnclose(levels, j, t);
      SilentPasses(levels, t, key);
    }
    ConfigInterpolation.FetchedFrom(env, last, key, j);
    LevelSeen(levels, j, key, text);
  }

  /** A text without a reference is read as it is. */
  lemma PlainTextReads(p: Place, s: Sect, key: string)
    requires key in s.entries && s.entries[key].Scalar?
    requires !p.on || ConfigInterpolation.Search(s.entries[key].text, 0).None?
    ensures Read(p, s, key) == Ok(s.entries[key])
  {
    if p.on {
      ConfigInterpolation.Unreferenced(Env(p.outer + [Level(p.name, s)]), |p.outer|, key, s.entries[key].text);
    }
  }

  // ---------------------------------------------------------------- the mutators

  function SetValue(s: Sect, key: string, v: Value): Sect {
    Sect(if key !in s.entries && v.Scalar? then s.scalars + [key] else s.scalars,
         if key !in s.entries && v.Sub? then s.sections + [key] else s.sections,
         s.entries[key := v],
         if key in s.comments then s.comments else s.comments[key := Comment([], "")])
  }

  /** `__setitem__`: a dictionary becomes a section. */
  function SetItem(s: Sect, key: string, val: Given): Sect
    decreases val, 1
  {
    match val
    case Text(text) => SetValue(s, key, Scalar(text))
    case Dict(items) => SetValue(s, key, Sub(SetAll(EMPTY, items)))
  }

  function SetAll(s: Sect, items: Items): Sect
    decreases items, 0
  {
    match items
    case NoItems => s
    case Item(key, val, rest) => SetAll(SetItem(s, key, val), rest)
  }

  function Remove(keys: seq<string>, key: string): seq<string> {
    if keys == [] then [] else if keys[0] == key then keys[1..] else [keys[0]] + Remove(keys[1..], key)
  }

  /** `__delitem__`. */
  function DelItem(s: Sect, key: string): Sect
    requires key in s.entries
  {
    Sect(if key in s.scalars then Remove(s.scalars, key) else s.scalars,
         if key in s.scalars then s.sections else Remove(s.sections, key),
         s.entries - {key},
         s.comments - {key})
  }

  /** What a merge leaves, and the error of the read that stopped it. */
  datatype Merged = Merged(sect: Sect, error: Option<ReadError>)

  /** A recursive update. Every key that is there already is read first. */
  function Merge(p: Place, s: Sect, items: Items): Merged
    decreases items
  {
    match items
    case NoItems => Merged(s, None)
    case Item(key, val, rest) =>
      var one := MergeItem(p, s, key, val);
      if one.error.Some? then one else Merge(p, one.sect, rest)
  }

  function MergeItem(p: Place, s: Sect, key: string, val: Given): Merged
    decreases val
  {
    if key !in s.entries then Merged(SetItem(s, key, val), None)
    else
      match Read(p, s, key)
      case Err(e) => Merged(s, Some(e))
      case Ok(Sub(sub)) =>
        if val.Dict? then
          var inner := Merge(Inside(p, s, key), sub, val.items);
          Merged(s.(entries := s.entries[key := Sub(inner.sect)]), inner.error)
        else Merged(SetItem(s, key, val), None)
      case Ok(Scalar(_)) => Merged(SetItem(s, key, val), None)
  }

  /** The new key takes the place of the old one, with value `v`. */
  function Renamed(s: Sect, oldkey: string, newkey: string, v: Value): Sect
    requires Listing(s) && oldkey in s.entries
  {
    var entries := (s.entries - {oldkey})[newkey := v];
    var comments := (s.comments - {oldkey})[newkey := s.comments[oldkey]];
    if oldkey in s.scalars then Sect(s.scalars[Find(s.scalars, oldkey, 0) := newkey], s.sections, entries, comments)
    else Sect(s.scalars, s.sections[Find(s.sections, oldkey, 0) := newkey], entries, comments)
  }

  /** `rename` stores under the new key what reading the old one gives. */
  function Rename(p: Place, s: Sect, oldkey: string, newkey: string): Result<Sect, ReadError>
    requires Listing(s) && oldkey in s.entries
  {
    match Read(p, s, oldkey)
    case Err(e) => Err(e)
    case Ok(v) => Ok(Renamed(s, oldkey, newkey, v))
  }

  // ---------------------------------------------------------------- each keeps the listing

  lemma SetValueListing(s: Sect, key: string, v: Value)
    requires Listing(s)
    ensures Listing(SetValue(s, key, v))
    ensures s.scalars <= SetValue(s, key, v).scalars && s.sections <= SetValue(s, key, v).sections
  {
    var t := SetValue(s, key, v);
    assert forall k :: k in t.scalars || k in t.sections <==> k in s.scalars || k in s.sections || k == key;
  }

  /** Setting a key keeps its place, or puts a new key last among its kind; it changes no other entry, no comment, and
      a dictionary replaces what was there. */
  lemma SetItemKeepsRest(s: Sect, key: string, val: Given)
    ensures var t := SetItem(s, key, val);
            && (forall k :: k in t.entries <==> k in s.entries || k == key)
            && (forall k :: k in s.entries && k != key ==> t.entries[k] == s.entries[k])
            && (val.Text? ==> t.entries[key] == Scalar(val.text))
            && (val.Dict? ==> t.entries[key].Sub? && t.entries[key].sect.entries.Keys == Keys(val.items))
            && (forall k :: k in t.comments <==> k in s.comments || k == key)
            && (forall k :: k in s.comments ==> t.comments[k] == s.comments[k])
            && (key !in s.comments ==> t.comments[key] == Comment([], ""))
            && (key in s.entries ==> t.scalars + t.sections == s.scalars + s.sections)
            && (key !in s.entries && val.Text? ==> t.scalars + t.sections == s.scalars + [key] + s.sections)
            && (key !in s.entries && val.Dict? ==> t.scalars + t.sections == s.scalars + s.sections + [key])
  {
    if val.Dict? { SetAllKeys(EMPTY, val.items); }
  }

  lemma {:induction false} SetAllKeys(s: Sect, items: Items)
    ensures SetAll(s, items).entries.Keys == s.entries.Keys + Keys(items)
    decreases items
  {
    match items
    case NoItems =>
    case Item(key, val, rest) => SetAllKeys(SetItem(s, key, val), rest);
  }

  lemma {:induction false} SetItemListed(s: Sect, key: string, val: Given)
    requires Listed(s)
    ensures Listed(SetItem(s, key, val))
    decreases val, 1
  {
    match val
    case Text(text) => SetValueListing(s, key, Scalar(text));
    case Dict(items) =>
      SetAllListed(EMPTY, items);
      SetValueListing(s, key, Sub(SetAll(EMPTY, items)));
  }

  lemma {:induction false} SetAllListed(s: Sect, items: Items)
    requires Listed(s)
    ensures Listed(SetAll(s, items))
    decreases items, 0
  {
    match items
    case NoItems =>
    case Item(key, val, rest) =>
      SetItemListed(s, key, val);
      SetAllListed(SetItem(s, key, val), rest);
  }

  lemma {:induction false} MergeListed(p: Place, s: Sect, items: Items)
    requires Listed(s)
    ensures Listed(Merge(p, s, items).sect)
    decreases items
  {
    hide Listed, Read, MergeItem;
    match items
    case NoItems =>
    case Item(key, val, rest) =>
      MergeItemListed(p, s, key, val);
      var one := MergeItem(p, s, key, val);
      if one.error.None? { MergeListed(p, one.sect, rest); }
  }

  lemma SubReplaced(s: Sect, key: string, sub: Sect)
    requires Listed(s) && key in s.entries && s.entries[key].Sub? && Listed(sub)
    ensures Listed(s.(entries := s.entries[key := Sub(sub)]))
  {
  }

  lemma {:induction false} MergeItemListed(p: Place, s: Sect, key: string, val: Given)
    requires Listed(s)
    ensures Listed(MergeItem(p, s, key, val).sect)
    decreases val
  {
    if key in s.entries && s.entries[key].Sub? && val.Dict? {
      MergeListed(Inside(p, s, key), s.entries[key].sect, val.items);
      SubReplaced(s, key, Merge(Inside(p, s, key), s.entries[key].sect, val.items).sect);
    } else {
      SetItemListed(s, key, val);
    }
  }

  lemma {:induction false} Removed(keys: seq<string>, key: string)
    requires Distinct(keys)
    ensures Distinct(Remove(keys, key)) && forall k :: k in Remove(keys, key) <==> k in keys && k != key
  {
    if keys != [] {
      assert keys == [keys[0]] + keys[1..];
      if keys[0] != key {
        Removed(keys[1..], key);
        var rest := Remove(keys[1..], key);
        assert keys[0] !in keys[1..];
        assert forall i :: 0 <= i < |rest| ==> rest[i] in rest;
      }
    }
  }

  lemma DelItemListed(s: Sect, key: string)
    requires Listed(s) && key in s.entries
    ensures Listed(DelItem(s, key))
  {
    if key in s.scalars { Removed(s.scalars, key); } else { Removed(s.sections, key); }
  }

  lemma Replaced(keys: seq<string>, i: nat, newkey: string)
    requires Distinct(keys) && i < |keys| && (newkey == keys[i] || newkey !in keys)
    ensures Distinct(keys[i := newkey])
    ensures forall k :: k in keys[i := newkey] <==> k == newkey || (k in keys && k != keys[i])
  {
    var after := keys[i := newkey];
    assert after[i] == newkey;
    forall k | k in keys && k != keys[i]
      ensures k in after
    {
      var j :| 0 <= j < |keys| && keys[j] == k;
      assert after[j] == k;
    }
  }

  lemma RenamedListing(s: Sect, oldkey: string, newkey: string, v: Value)
    requires Listing(s) && oldkey in s.entries && (newkey == oldkey || newkey !in s.entries)
    ensures Listing(Renamed(s, oldkey, newkey, v))
  {
    hide Find;
    if oldkey in s.scalars {
      Replaced(s.scalars, Find(s.scalars, oldkey, 0), newkey);
    } else {
      Replaced(s.sections, Find(s.sections, oldkey, 0), newkey);
    }
  }

  lemma ReadListed(p: Place, s: Sect, key: string)
    requires Listed(s) && key in s.entries && Read(p, s, key).Ok?
    ensures Read(p, s, key).value.Sub? ==> Listed(Read(p, s, key).value.sect)
  {
  }

  /** Sections below stay as they are. */
  lemma RenamedBelow(s: Sect, oldkey: string, newkey: string, v: Value)
    requires Listed(s) && oldkey in s.entries && (v.Sub? ==> Listed(v.sect)) && Listing(Renamed(s, oldkey, newkey, v))
    ensures Listed(Renamed(s, oldkey, newkey, v))
  {
  }

  /** A rename that reads the old value keeps the listing exactly unless the new key names another entry: then it is
      listed twice. */
  lemma RenameListedIff(p: Place, s: Sect, oldkey: string, newkey: string)
    requires Listed(s) && oldkey in s.entries && Rename(p, s, oldkey, newkey).Ok?
    ensures Listed(Rename(p, s, oldkey, newkey).value) <==> newkey == oldkey || newkey !in s.entries
  {
    hide Renamed, Read;
    var v := Read(p, s, oldkey).value;
    if newkey == oldkey || newkey !in s.entries {
      RenamedListing(s, oldkey, newkey, v);
      ReadListed(p, s, oldkey);
      RenamedBelow(s, oldkey, newkey, v);
    } else {
      ListedTwice(s, oldkey, newkey, v);
    }
  }

  /** The new key has the old one's place and comments and what reading the old one gave, and nothing else moves. The
      value stored is the old one exactly when that is read as it is. */
  lemma RenameKeepsPlace(p: Place, s: Sect, oldkey: string, newkey: string)
    requires Listed(s) && oldkey in s.entries && Rename(p, s, oldkey, newkey).Ok?
    ensures var t := Rename(p, s, oldkey, newkey).value;
            var keys := s.scalars + s.sections;
            && oldkey in keys && t.scalars + t.sections == keys[Find(keys, oldkey, 0) := newkey]
            && |t.scalars| == |s.scalars|
            && Read(p, s, oldkey) == Ok(t.entries[newkey]) && t.comments[newkey] == s.comments[oldkey]
            && (t.entries[newkey] == s.entries[oldkey] <==> Read(p, s, oldkey) == Ok(s.entries[oldkey]))
            && t.entries.Keys == s.entries.Keys - {oldkey} + {newkey}
            && (forall k :: k in s.entries && k != oldkey && k != newkey ==>
                 t.entries[k] == s.entries[k] && k in t.comments && t.comments[k] == s.comments[k])
  {
    hide Read, Find, Listed;
    ListedListing(s);
    RenamedInOrder(s, oldkey, newkey, Read(p, s, oldkey).value);
  }

  lemma ListedListing(s: Sect)
    requires Listed(s)
    ensures Listing(s)
  {
  }

  lemma RenamedInOrder(s: Sect, oldkey: string, newkey: string, v: Value)
    requires Listing(s) && oldkey in s.entries
    ensures var t, keys := Renamed(s, oldkey, newkey, v), s.scalars + s.sections;
            && oldkey in keys && t.scalars + t.sections == keys[Find(keys, oldkey, 0) := newkey]
            && |t.scalars| == |s.scalars|
  {
    hide Find, Distinct;
    if oldkey in s.scalars {
      FindInFront(s.scalars, s.sections, oldkey);
      UpdatedParts(s.scalars, s.sections, Find(s.scalars, oldkey, 0), newkey);
    } else {
      FindBehind(s.scalars, s.sections, oldkey);
      UpdatedParts(s.scalars, s.sections, |s.scalars| + Find(s.sections, oldkey, 0), newkey);
    }
  }

  lemma UpdatedParts(a: seq<string>, b: seq<string>, i: nat, x: string)
    requires i < |a| + |b|
    ensures (a + b)[i := x] == if i < |a| then a[i := x] + b else a + b[i - |a| := x]
  {
  }

  lemma FindInFront(a: seq<string>, b: seq<string>, key: string)
    requires key in a
    ensures Find(a + b, key, 0) == Find(a, key, 0) < |a|
  {
    hide Find;
    var i, all := Find(a, key, 0), a + b;
    FoundAt(all, key, i);
  }

  lemma FindBehind(a: seq<string>, b: seq<string>, key: string)
    requires key !in a && key in b
    ensures Find(a + b, key, 0) == |a| + Find(b, key, 0)
  {
    hide Find;
    var i, all := Find(b, key, 0), a + b;
    forall k | 0 <= k < |a| + i
      ensures all[k] != key
    {
      assert all[k] == if k < |a| then a[k] else b[k - |a|];
    }
    FoundAt(all, key, |a| + i);
  }

  lemma FoundAt(keys: seq<string>, key: string, i: nat)
    requires i < |keys| && keys[i] == key && forall k :: 0 <= k < i ==> keys[k] != key
    ensures Find(keys, key, 0) == i
  {
    hide Find;
  }

  lemma {:induction false} RemovedAt(keys: seq<string>, key: string, i: nat)
    requires i < |keys| && keys[i] == key && forall k :: 0 <= k < i ==> keys[k] != key
    ensures Remove(keys, key) == keys[..i] + keys[i + 1..]
    decreases i
  {
    if i == 0 {
      assert keys[..0] == [];
    } else {
      var rest := keys[1..];
      RemovedAt(rest, key, i - 1);
      assert [keys[0]] + (rest[..i - 1] + rest[i..]) == keys[..i] + keys[i + 1..];
    }
  }

  /** Removing a key keeps the others in order. */
  lemma RemovedInOrder(keys: seq<string>, key: string)
    requires key in keys
    ensures var i := Find(keys, key, 0); i < |keys| && Remove(keys, key) == keys[..i] + keys[i + 1..]
  {
    hide Find, Remove;
    RemovedAt(keys, key, Find(keys, key, 0));
  }

  lemma RemovedInFront(a: seq<string>, b: seq<string>, key: string)
    requires key in a
    ensures var keys := a + b;
            var i := Find(keys, key, 0);
            i < |keys| && Remove(a, key) + b == keys[..i] + keys[i + 1..]
  {
    hide Find, Remove;
    FindInFront(a, b, key);
    RemovedInOrder(a, key);
    var keys, i := a + b, Find(a, key, 0);
    assert keys[..i] == a[..i] && keys[i + 1..] == a[i + 1..] + b;
  }

  lemma RemovedBehind(a: seq<string>, b: seq<string>, key: string)
    requires key !in a && key in b
    ensures var keys := a + b;
            var i := Find(keys, key, 0);
            i < |keys| && a + Remove(b, key) == keys[..i] + keys[i + 1..]
  {
    hide Find, Remove;
    FindBehind(a, b, key);
    RemovedInOrder(b, key);
    var keys, i := a + b, Find(b, key, 0);
    assert keys[..|a| + i] == a + b[..i] && keys[|a| + i + 1..] == b[i + 1..];
  }

  lemma DeletedInOrder(s: Sect, key: string)
    requires Listed(s) && key in s.entries
    ensures var keys, t := s.scalars + s.sections, DelItem(s, key);
            var i := Find(keys, key, 0);
            i < |keys| && t.scalars + t.sections == keys[..i] + keys[i + 1..]
  {
    hide Find, Remove;
    if key in s.scalars {
      RemovedInFront(s.scalars, s.sections, key);
    } else {
      RemovedBehind(s.scalars, s.sections, key);
    }
  }

  lemma ListedTwice(s: Sect, oldkey: string, newkey: string, v: Value)
    requires Listing(s) && oldkey in s.entries && newkey in s.entries && newkey != oldkey
    ensures !Listing(Renamed(s, oldkey, newkey, v))
  {
    hide Find;
    var t := Renamed(s, oldkey, newkey, v);
    if oldkey in s.scalars {
      var i := Find(s.scalars, oldkey, 0);
      assert t.scalars[i] == newkey;
      if newkey in s.scalars {
        var j := Find(s.scalars, newkey, 0);
        assert t.scalars[j] == newkey;
      }
    } else {
      var i := Find(s.sections, oldkey, 0);
      assert t.sections[i] == newkey;
      if newkey in s.sections {
        var j := Find(s.sections, newkey, 0);
        assert t.sections[j] == newkey;
      }
    }
  }

  // ---------------------------------------------------------------- which list a key is in

  /** Each list holds the keys of its own kind of value; `write` prints the two lists differently. */
  ghost predicate KindsAgree(s: Sect) {
    && (forall k :: k in s.scalars && k in s.entries ==> s.entries[k].Scalar?)
    && (forall k :: k in s.sections && k in s.entries ==> s.entries[k].Sub?)
  }

  lemma NewKeyAgrees(s: Sect, key: string, v: Value)
    requires Listing(s) && KindsAgree(s) && key !in s.entries
    ensures KindsAgree(SetValue(s, key, v))
  {
    var t := SetValue(s, key, v);
    assert forall k :: k in t.scalars ==> k in s.scalars || (k == key && v.Scalar?);
    assert forall k :: k in t.sections ==> k in s.sections || (k == key && v.Sub?);
  }

  lemma HeldKeyAgrees(s: Sect, key: string, v: Value)
    requires Listing(s) && KindsAgree(s) && key in s.entries
    ensures KindsAgree(SetValue(s, key, v)) <==> s.entries[key].Scalar? == v.Scalar?
  {
  }

  /** Setting a key keeps the kinds apart exactly when it does not turn a scalar into a section or back. */
  lemma KindsAgreeIff(s: Sect, key: string, v: Value)
    requires Listing(s) && KindsAgree(s)
    ensures KindsAgree(SetValue(s, key, v)) <==> (key in s.entries ==> s.entries[key].Scalar? == v.Scalar?)
  {
    hide Listing, KindsAgree, SetValue;
    if key in s.entries { HeldKeyAgrees(s, key, v); } else { NewKeyAgrees(s, key, v); }
  }

  // ---------------------------------------------------------------- merging

  ghost predicate DistinctKeys(items: Items)
    decreases items
  {
    match items
    case NoItems => true
    case Item(key, val, rest) => key !in Keys(rest) && DistinctKeys(rest) && (val.Dict? ==> DistinctKeys(val.items))
  }

  function Keys(items: Items): set<string> {
    match items case NoItems => {} case Item(key, _, rest) => {key} + Keys(rest)
  }

  lemma MergeItemOthers(p: Place, s: Sect, key: string, val: Given, other: string)
    requires other != key
    ensures var t := MergeItem(p, s, key, val).sect;
            && (other in t.entries <==> other in s.entries)
            && (other in s.entries ==> t.entries[other] == s.entries[other])
            && (other in t.comments <==> other in s.comments)
  {
  }

  lemma {:induction false} MergeOthers(p: Place, s: Sect, items: Items, other: string)
    requires other !in Keys(items)
    ensures var t := Merge(p, s, items).sect;
            && (other in t.entries <==> other in s.entries)
            && (other in s.entries ==> t.entries[other] == s.entries[other])
            && (other in t.comments <==> other in s.comments)
    decreases items
  {
    hide MergeItem;
    match items
    case NoItems =>
    case Item(key, val, rest) =>
      MergeItemOthers(p, s, key, val, other);
      MergeOthers(p, MergeItem(p, s, key, val).sect, rest, other);
  }

  /** The text at the end of a path of keys. */
  function TextAt(s: Sect, path: seq<string>): Option<string>
    decreases |path|
  {
    if path == [] || path[0] !in s.entries then None
    else
      match s.entries[path[0]]
      case Scalar(text) => if |path| == 1 then Some(text) else None
      case Sub(sub) => TextAt(sub, path[1..])
  }

  /** The dictionary has something at the path, or a text on the way there. */
  predicate Touches(items: Items, path: seq<string>)
    decreases items
  {
    match items
    case NoItems => false
    case Item(key, val, rest) =>
      || Touches(rest, path)
      || (path != [] && key == path[0] && (|path| == 1 || val.Text? || Touches(val.items, path[1..])))
  }

  /** A merge keeps every text, at whatever level, that the dictionary has no word on. */
  lemma {:induction false} MergeKeepsUntouched(p: Place, s: Sect, items: Items, path: seq<string>)
    requires TextAt(s, path).Some? && !Touches(items, path)
    ensures TextAt(Merge(p, s, items).sect, path) == TextAt(s, path)
    decreases items
  {
    hide MergeItem, TextAt;
    match items
    case NoItems =>
    case Item(key, val, rest) =>
      var one := MergeItem(p, s, key, val);
      PathNonempty(s, path);
      if key != path[0] {
        MergeItemOthers(p, s, key, val, path[0]);
        SameAtHead(s, one.sect, path);
      } else {
        MergeItemBelow(p, s, key, val);
        TextBelow(s, one.sect, path);
        MergeKeepsUntouched(Inside(p, s, key), s.entries[key].sect, val.items, path[1..]);
      }
      if one.error.None? { MergeKeepsUntouched(p, one.sect, rest, path); }
  }

  lemma PathNonempty(s: Sect, path: seq<string>)
    requires TextAt(s, path).Some?
    ensures path != [] && path[0] in s.entries && (|path| > 1 ==> s.entries[path[0]].Sub?)
  {
  }

  lemma SameAtHead(s: Sect, t: Sect, path: seq<string>)
    requires path != [] && path[0] in s.entries && path[0] in t.entries && s.entries[path[0]] == t.entries[path[0]]
    ensures TextAt(s, path) == TextAt(t, path)
  {
  }

  lemma TextBelow(s: Sect, t: Sect, path: seq<string>)
    requires path != [] && path[0] in s.entries && path[0] in t.entries
    requires s.entries[path[0]].Sub? && t.entries[path[0]].Sub?
    ensures TextAt(s, path) == TextAt(s.entries[path[0]].sect, path[1..])
    ensures TextAt(t, path) == TextAt(t.entries[path[0]].sect, path[1..])
  {
  }

  lemma MergeItemBelow(p: Place, s: Sect, key: string, val: Given)
    requires key in s.entries && s.entries[key].Sub? && val.Dict?
    ensures var t := MergeItem(p, s, key, val).sect;
            key in t.entries && t.entries[key] == Sub(Merge(Inside(p, s, key), s.entries[key].sect, val.items).sect)
  {
  }

  lemma SetItemOthers(s: Sect, key: string, val: Given, other: string)
    requires other != key
    ensures var t := SetItem(s, key, val);
            && (other in t.entries <==> other in s.entries)
            && (other in s.entries ==> t.entries[other] == s.entries[other])
            && (other in t.comments <==> other in s.comments)
  {
  }

  lemma {:induction false} SetAllOthers(s: Sect, items: Items, other: string)
    requires other !in Keys(items)
    ensures var t := SetAll(s, items);
            && (other in t.entries <==> other in s.entries)
            && (other in s.entries ==> t.entries[other] == s.entries[other])
            && (other in t.comments <==> other in s.comments)
    decreases items
  {
    hide SetItem;
    match items
    case NoItems =>
    case Item(key, val, rest) =>
      SetItemOthers(s, key, val, other);
      SetAllOthers(SetItem(s, key, val), rest, other);
  }

  /** The section holds what the dictionary says, at every level. */
  predicate Holds(s: Sect, items: Items)
    decreases items
  {
    match items
    case NoItems => true
    case Item(key, val, rest) => HoldsItem(s, key, val) && Holds(s, rest)
  }

  predicate HoldsItem(s: Sect, key: string, val: Given)
    decreases val
  {
    && key in s.entries
    && match val
       case Text(text) => s.entries[key] == Scalar(text) && key in s.comments
       case Dict(items) => s.entries[key].Sub? && Holds(s.entries[key].sect, items)
  }

  /** Every text held under a key of the dictionary can be read, at every level. */
  predicate Readable(p: Place, s: Sect, items: Items)
    decreases items
  {
    match items
    case NoItems => true
    case Item(key, val, rest) => ReadableItem(p, s, key, val) && Readable(p, s, rest)
  }

  predicate ReadableItem(p: Place, s: Sect, key: string, val: Given)
    decreases val
  {
    key in s.entries ==>
      && Read(p, s, key).Ok?
      && (s.entries[key].Sub? && val.Dict? ==> Readable(Inside(p, s, key), s.entries[key].sect, val.items))
  }

  /** Merging what the section holds already changes nothing, and fails exactly when one of these texts cannot be read.
      */
  lemma {:induction false} MergeHeld(p: Place, s: Sect, items: Items)
    requires Holds(s, items)
    ensures Merge(p, s, items).sect == s && (Merge(p, s, items).error.None? <==> Readable(p, s, items))
    decreases items
  {
    hide MergeItem, HoldsItem, ReadableItem;
    match items
    case NoItems =>
    case Item(key, val, rest) =>
      MergeHeldItem(p, s, key, val);
      MergeHeld(p, s, rest);
  }

  lemma {:induction false} MergeHeldItem(p: Place, s: Sect, key: string, val: Given)
    requires HoldsItem(s, key, val)
    ensures MergeItem(p, s, key, val).sect == s
    ensures (MergeItem(p, s, key, val).error.None? <==> ReadableItem(p, s, key, val))
    decreases val
  {
    match val
    case Text(text) => assert s.entries[key := Scalar(text)] == s.entries;
    case Dict(items) =>
      MergeHeld(Inside(p, s, key), s.entries[key].sect, items);
      assert s.entries[key := s.entries[key]] == s.entries;
  }

  lemma {:induction false} SetAllHolds(s: Sect, items: Items)
    requires DistinctKeys(items)
    ensures Holds(SetAll(s, items), items)
    decreases items, 1
  {
    hide HoldsItem, SetItem;
    match items
    case NoItems =>
    case Item(key, val, rest) =>
      var t := SetItem(s, key, val);
      SetItemHolds(s, key, val);
      SetAllOthers(t, rest, key);
      HeldBehind(t, SetAll(t, rest), key, val);
      SetAllHolds(t, rest);
  }

  /** What later keys do not touch is still held. */
  lemma HeldBehind(t: Sect, u: Sect, key: string, val: Given)
    requires HoldsItem(t, key, val)
    requires (key in u.entries <==> key in t.entries) && (key in t.entries ==> u.entries[key] == t.entries[key])
    requires key in u.comments <==> key in t.comments
    ensures HoldsItem(u, key, val)
  {
  }

  lemma {:induction false} SetItemHolds(s: Sect, key: string, val: Given)
    requires val.Dict? ==> DistinctKeys(val.items)
    ensures HoldsItem(SetItem(s, key, val), key, val)
    decreases val, 0
  {
    if val.Dict? { SetAllHolds(EMPTY, val.items); }
  }

  /** A merge that is not stopped leaves a section that holds the dictionary. */
  lemma {:induction false} MergeHolds(p: Place, s: Sect, items: Items)
    requires DistinctKeys(items) && Merge(p, s, items).error.None?
    ensures Holds(Merge(p, s, items).sect, items)
    decreases items, 1
  {
    hide HoldsItem, MergeItem;
    match items
    case NoItems =>
    case Item(key, val, rest) =>
      var t := MergeItem(p, s, key, val).sect;
      MergeItemHolds(p, s, key, val);
      MergeOthers(p, t, rest, key);
      HeldBehind(t, Merge(p, t, rest).sect, key, val);
      MergeHolds(p, t, rest);
  }

  lemma {:induction false} MergeItemHolds(p: Place, s: Sect, key: string, val: Given)
    requires (val.Dict? ==> DistinctKeys(val.items)) && MergeItem(p, s, key, val).error.None?
    ensures HoldsItem(MergeItem(p, s, key, val).sect, key, val)
    decreases val, 0
  {
    if key in s.entries && s.entries[key].Sub? && val.Dict? {
      MergeHolds(Inside(p, s, key), s.entries[key].sect, val.items);
    } else {
      SetItemHolds(s, key, val);
    }
  }

  /** Once a dictionary has been merged, merging it again changes nothing; it raises exactly when a text that is held
      under one of its keys, at some level, cannot be interpolated. */
  lemma MergeTwice(p: Place, s: Sect, items: Items)
    requires DistinctKeys(items) && Merge(p, s, items).error.None?
    ensures var t := Merge(p, s, items).sect;
            Merge(p, t, items).sect == t && (Merge(p, t, items).error.None? <==> Readable(p, t, items))
  {
    MergeHolds(p, s, items);
    MergeHeld(p, Merge(p, s, items).sect, items);
  }

  /** With interpolation off a merge never fails, and merging twice is merging once. */
  lemma MergeTwiceUninterpolated(p: Place, s: Sect, items: Items)
    requires DistinctKeys(items) && !p.on
    ensures var t := Merge(p, s, items);
            t.error.None? && Merge(p, t.sect, items) == t
  {
    NeverStopped(p, s, items);
    NeverStopped(p, Merge(p, s, items).sect, items);
    MergeTwice(p, s, items);
  }

  lemma {:induction false} NeverStopped(p: Place, s: Sect, items: Items)
    requires !p.on
    ensures Merge(p, s, items).error.None?
    decreases items
  {
    hide MergeItem;
    match items
    case NoItems =>
    case Item(key, val, rest) =>
      NeverStoppedItem(p, s, key, val);
      NeverStopped(p, MergeItem(p, s, key, val).sect, rest);
  }

  lemma {:induction false} NeverStoppedItem(p: Place, s: Sect, key: string, val: Given)
    requires !p.on
    ensures MergeItem(p, s, key, val).error.None?
    decreases val
  {
    if key in s.entries && s.entries[key].Sub? && val.Dict? {
      NeverStopped(Inside(p, s, key), s.entries[key].sect, val.items);
    }
  }

  /** With `stringify` off a value that is no string is refused after its key has been listed. */
  function Refused(s: Sect, key: string): Sect {
    s.(scalars := if key in s.entries then s.scalars else s.scalars + [key],
       comments := if key in s.comments then s.comments else s.comments[key := Comment([], "")])
  }

  lemma RefusedListingIff(s: Sect, key: string)
    requires Listing(s)
    ensures Listing(Refused(s, key)) <==> key in s.entries
  {
    var t := Refused(s, key);
    if key in s.entries {
      assert t == s;
    } else {
      assert t.scalars[|s.scalars|] == key;
    }
  }

  // ---------------------------------------------------------------- where the mutators surprise

  /** One key whose text refers to an option that is nowhere set. */
  const DANGLING := Sect(["a"], [], map["a" := Scalar("%(x)s")], map["a" := Comment([], "")])

  lemma DanglingReference(k: string, value: string)
    requires |k| == 1 && k[0] != ')' && value == "%(" + k + ")s"
    ensures ConfigInterpolation.Search(value, 0) == Some((0, |value|))
    ensures ConfigInterpolation.KeyAt(value, 0, |value|) == k
  {
    assert value[3] == ')' && value[4] == 's';
    assert ConfigInterpolation.NextClose(value, 3) == Some(3);
    assert ConfigInterpolation.NextClose(value, 2) == Some(3);
  }

  /** Such a text cannot be read: `popitem` raises although the section is not empty. */
  lemma DanglingUnreadable()
    ensures Read(TOP, DANGLING, "a") == Err(ConfigInterpolation.MissingOption("x"))
  {
    var levels := [Level(None, DANGLING)];
    assert TOP.outer + [Level(TOP.name, DANGLING)] == levels;
    assert "%(" + "x" + ")s" == "%(x)s";
    DanglingReference("x", "%(x)s");
    assert ConfigInterpolation.Fetch(Env(levels), 0, "x").Missing?;
    ConfigInterpolation.LoneMissing(Env(levels), 0, "a", "%(x)s", "x");
  }

  /** Merging that key into an empty section works once; a second time, or with any other value, it raises. */
  lemma MergeTwiceRaises(val: Given)
    ensures Merge(TOP, EMPTY, Item("a", Text("%(x)s"), NoItems)) == Merged(DANGLING, None)
    ensures Merge(TOP, DANGLING, Item("a", val, NoItems))
         == Merged(DANGLING, Some(ConfigInterpolation.MissingOption("x")))
  {
    DanglingUnreadable();
    assert SetItem(EMPTY, "a", Text("%(x)s")) == DANGLING;
    assert Merge(TOP, DANGLING, NoItems) == Merged(DANGLING, None);
  }

  const REFERRING := Sect(["a", "b"], [], map["a" := Scalar("1"), "b" := Scalar("%(a)s")],
                          map["a" := Comment([], ""), "b" := Comment([], "")])

  lemma ReferringReads()
    ensures Read(TOP, REFERRING, "b") == Ok(Scalar("1"))
  {
    var levels := [Level(None, REFERRING)];
    assert TOP.outer + [Level(TOP.name, REFERRING)] == levels;
    assert "%(" + "a" + ")s" == "%(a)s";
    DanglingReference("a", "%(a)s");
    assert ConfigInterpolation.Fetch(Env(levels), 0, "a") ==
             ConfigInterpolation.Found(ConfigInterpolation.Text("1"), 0);
    assert ConfigInterpolation.Search("1", 0).None?;
    ConfigInterpolation.LoneReference(Env(levels), 0, "b", "%(a)s", "a", "1");
  }

  /** Renaming a key whose text refers to another one stores the text it expands to. */
  lemma RenameStoresExpansion()
    ensures Listing(REFERRING) && Rename(TOP, REFERRING, "b", "c").Ok?
    ensures var t := Rename(TOP, REFERRING, "b", "c").value; t.scalars == ["a", "c"] && t.entries["c"] == Scalar("1")
  {
    ReferringReads();
    assert REFERRING.scalars[1] == "b" && Find(REFERRING.scalars, "b", 0) == 1;
  }

  /** Renaming a key onto another one lists that one twice. */
  lemma RenamedOntoKey(s: Sect)
    requires s.scalars == ["a", "b"] && s.sections == [] && s.entries == map["a" := Scalar("1"), "b" := Scalar("2")]
    requires s.comments == map["a" := Comment([], ""), "b" := Comment([], "")]
    ensures Listed(s) && Rename(TOP, s, "a", "b").Ok?
    ensures var t := Rename(TOP, s, "a", "b").value;
            t.scalars == ["b", "b"] && t.entries == map["b" := Scalar("1")] && !Listed(t)
  {
    assert s.scalars[0] == "a" && s.scalars[1] == "b" && Find(s.scalars, "a", 0) == 0;
    PlainTextReads(TOP, s, "a");
    RenameListedIff(TOP, s, "a", "b");
  }

  /** A scalar replaced by a dictionary stays in the list of scalars. */
  lemma ScalarReplaced(s: Sect)
    requires s == Sect(["a"], [], map["a" := Scalar("1")], map["a" := Comment([], "")])
    ensures Listing(s) && KindsAgree(s)
    ensures var t := SetItem(s, "a", Dict(NoItems));
            t.scalars == ["a"] && t.sections == [] && t.entries == map["a" := Sub(EMPTY)] && !KindsAgree(t)
  {
    KindsAgreeIff(s, "a", Sub(EMPTY));
    assert SetAll(EMPTY, NoItems) == EMPTY;
  }

  /** A new key whose value is refused is listed, and has no entry. */
  lemma RefusedKeyListed()
    ensures Refused(EMPTY, "a") == Sect(["a"], [], map[], map["a" := Comment([], "")]) && !Listing(Refused(EMPTY, "a"))
  {
    RefusedListingIff(EMPTY, "a");
  }

  // ---------------------------------------------------------------- the class

  /** The KeyError, or what reading a value raised. */
  datatype Failure = KeyError | Unreadable(error: ReadError)

  class Section {
    var scalars: seq<string>
    var sections: seq<string>
    var entries: map<string, Value>
    var comments: map<string, Comment>

    constructor ()
      ensures State() == EMPTY && Valid()
    {
      scalars, sections, entries, comments := [], [], map[], map[];
    }

    function State(): Sect
      reads this
    {
      Sect(scalars, sections, entries, comments)
    }

    ghost predicate Valid()
      reads this
    {
      Listed(State())
    }

    method Set(key: string, val: Given)
      requires Valid()
      modifies this
      ensures Valid() && State() == SetItem(old(State()), key, val)
    {
      SetItemListed(State(), key, val);
      if key !in comments {
        comments := comments[key := Comment([], "")];
      }
      match val
      case Dict(items) =>
        if key !in entries {
          sections := sections + [key];
        }
        entries := entries[key := Sub(SetAll(EMPTY, items))];
      case Text(text) =>
        if key !in entries {
          scalars := scalars + [key];
        }
        entries := entries[key := Scalar(text)];
    }

    /** False stands for the KeyError. */
    method Delete(key: string) returns (ok: bool)
      requires Valid()
      modifies this
      ensures Valid() && ok == (key in old(entries))
      ensures State() == if ok then DelItem(old(State()), key) else old(State())
      ensures ok ==> entries == old(entries) - {key} && comments == old(comments) - {key}
      ensures ok ==>
                var keys := old(scalars + sections);
                var i := Find(keys, key, 0);
                i < |keys| && scalars + sections == keys[..i] + keys[i + 1..]
    {
      hide Listed, Remove, Find;
      if key in entries { DeletedInOrder(State(), key); }
      if key !in entries {
        return false;
      }
      DelItemListed(State(), key);
      entries := entries - {key};
      if key in scalars {
        scalars := Remove(scalars, key);
      } else {
        sections := Remove(sections, key);
      }
      comments := comments - {key};
      return true;
    }

    /** `p` is where the section stands. A value that cannot be read stays where it is. */
    method Pop(p: Place, key: string, default: Option<Value>) returns (r: Result<Value, Failure>)
      requires Valid()
      modifies this
      ensures Valid()
      ensures key !in old(entries) ==>
                State() == old(State()) && r == if default.Some? then Ok(default.value) else Err(KeyError)
      ensures key in old(entries) ==>
                match Read(p, old(State()), key)
                case Ok(v) => r == Ok(v) && State() == DelItem(old(State()), key)
                case Err(e) => r == Err(Unreadable(e)) && State() == old(State())
    {
      if key !in entries {
        return if default.Some? then Ok(default.value) else Err(KeyError);
      }
      match Read(p, State(), key)
      case Err(e) => return Err(Unreadable(e));
      case Ok(v) =>
        var _ := Delete(key);
        return Ok(v);
    }

    method PopItem(p: Place) returns (r: Result<(string, Value), Failure>)
      requires Valid()
      modifies this
      ensures Valid()
      ensures old(scalars + sections) == [] ==> r == Err(KeyError) && State() == old(State()) && entries == map[]
      ensures old(scalars + sections) != [] ==>
                var key := old(scalars + sections)[0];
                && key in old(entries)
                && match Read(p, old(State()), key)
                   case Ok(v) =>
                     && r == Ok((key, v)) && State() == DelItem(old(State()), key)
                     && scalars + sections == old(scalars + sections)[1..]
                   case Err(e) => r == Err(Unreadable(e)) && State() == old(State())
    {
      hide Listed, Read;
      FirstIsEntry(State());
      var sequence := scalars + sections;
      if sequence == [] {
        return Err(KeyError);
      }
      var key := sequence[0];
      match Read(p, State(), key)
      case Err(e) => return Err(Unreadable(e));
      case Ok(v) =>
        assert Find(sequence, key, 0) == 0;
        assert sequence[..0] + sequence[1..] == sequence[1..];
        var _ := Delete(key);
        return Ok((key, v));
    }

    /** The default is set before it is read back. */
    method SetDefault(p: Place, key: string, default: Given) returns (r: Result<Value, ReadError>)
      requires Valid()
      modifies this
      ensures Valid() && key in entries && r == Read(p, State(), key)
      ensures State() == if key in old(entries) then old(State()) else SetItem(old(State()), key, default)
    {
      if key !in entries {
        Set(key, default);
      }
      r := Read(p, State(), key);
    }

    method Clear()
      modifies this
      ensures Valid() && State() == EMPTY
    {
      scalars, sections, entries, comments := [], [], map[], map[];
    }

    method Update(items: Items)
      requires Valid()
      modifies this
      ensures Valid() && State() == SetAll(old(State()), items)
    {
      hide Listed, SetItem;
      var rest := items;
      while rest.Item?
        invariant Valid() && SetAll(State(), rest) == SetAll(old(State()), items)
        decreases rest
      {
        Set(rest.key, rest.val);
        rest := rest.rest;
      }
    }

    method MergeWith(p: Place, items: Items) returns (error: Option<ReadError>)
      requires Valid()
      modifies this
      ensures Valid() && Merged(State(), error) == Merge(p, old(State()), items)
    {
      hide Listed, SetItem, Read;
      var rest := items;
      while rest.Item?
        invariant Valid() && Merge(p, State(), rest) == Merge(p, old(State()), items)
        decreases rest
      {
        var key, val := rest.key, rest.val;
        MergeItemListed(p, State(), key, val);
        var isMapping := false;
        if key in entries {
          var present := Read(p, State(), key);
          if present.Err? {
            return Some(present.error);
          }
          isMapping := present.value.Sub?;
        }
        if isMapping && val.Dict? {
          SubIsRead(p, State(), key);
          var inner := Merge(Inside(p, State(), key), entries[key].sect, val.items);
          entries := entries[key := Sub(inner.sect)];
          if inner.error.Some? {
            return inner.error;
          }
        } else {
          Set(key, val);
        }
        rest := rest.rest;
      }
      return None;
    }

    /** A rename onto another entry leaves the listing broken. */
    method RenameKey(p: Place, oldkey: string, newkey: string) returns (failure: Option<Failure>)
      requires Valid()
      modifies this
      ensures oldkey !in old(entries) ==> failure == Some(KeyError) && State() == old(State())
      ensures oldkey in old(entries) ==>
                match Rename(p, old(State()), oldkey, newkey)
                case Ok(t) => failure == None && State() == t
                case Err(e) => failure == Some(Unreadable(e)) && State() == old(State())
      ensures Valid() <==> failure != None || newkey == oldkey || newkey !in old(entries)
    {
      hide Read;
      if oldkey !in scalars && oldkey !in sections {
        return Some(KeyError);
      }
      var val := Read(p, State(), oldkey);
      if val.Err? {
        return Some(Unreadable(val.error));
      }
      RenameListedIff(p, State(), oldkey, newkey);
      var comm := comments[oldkey];
      entries := (entries - {oldkey})[newkey := val.value];
      if oldkey in scalars {
        scalars := scalars[Find(scalars, oldkey, 0) := newkey];
      } else {
        sections := sections[Find(sections, oldkey, 0) := newkey];
      }
      comments := (comments - {oldkey})[newkey := comm];
      return None;
    }
  }

  lemma FirstIsEntry(s: Sect)
    requires Listed(s)
    ensures var keys := s.scalars + s.sections; if keys == [] then s.entries == map[] else keys[0] in s.entries
  {
    var keys := s.scalars + s.sections;
    assert keys != [] ==> keys[0] in s.scalars || keys[0] in s.sections;
  }

  lemma SubIsRead(p: Place, s: Sect, key: string)
    requires key in s.entries && Read(p, s, key).Ok? && Read(p, s, key).value.Sub?
    ensures s.entries[key] == Read(p, s, key).value
  {
  }
}
