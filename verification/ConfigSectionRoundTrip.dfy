/**
 Writing sections as they are listed and reading them back (pylib/configobj/configobj.py): what comes of a key that
 stays in the list of scalars after it has become a section, or the other way round.
 */
module ConfigSectionRoundTrip {
  import opened Prelude
  import opened ConfigSection
  import T = ConfigTree
  import R = ConfigTreeRoundTrip
  import W = ConfigTreeWriteBack
  import Q = ConfigQuote

  // ---------------------------------------------------------------- writing

  /** The order in which `write` goes through a section. */
  function AllKeys(s: Sect): seq<string> {
    s.scalars + s.sections
  }

  predicate Present(s: Sect, keys: seq<string>) {
    forall i :: 0 <= i < |keys| ==> keys[i] in s.entries
  }

  lemma AllPresent(s: Sect)
    requires Listed(s)
    ensures Present(s, AllKeys(s)) && Distinct(AllKeys(s)) && forall k :: k in s.entries <==> k in AllKeys(s)
  {
    var keys := AllKeys(s);
    forall i | 0 <= i < |keys|
      ensures keys[i] in s.entries
    {
      assert keys[i] in s.scalars || keys[i] in s.sections;
    }
  }

  lemma SubListed(s: Sect, k: string)
    requires Listed(s) && k in s.entries && s.entries[k].Sub?
    ensures Listed(s.entries[k].sect) && s.entries[k].sect < s
  {
  }

  ghost function OwnComments(s: Sect, k: string): seq<string>
    requires Listed(s) && k in s.entries
  {
    s.comments[k].lines
  }

  /** `write` for the entries `keys` of a section: a text becomes a key line, a section a marker and its own lines. */
  ghost function SectLines(s: Sect, keys: seq<string>, depth: nat): seq<T.Line>
    requires Listed(s) && Present(s, keys)
    decreases s, |keys|
  {
    if keys == [] then []
    else EntryLines(s, keys[0], depth) + SectLines(s, keys[1..], depth)
  }

  ghost function EntryLines(s: Sect, k: string, depth: nat): seq<T.Line>
    requires Listed(s) && k in s.entries
    decreases s, 0
  {
    T.Comments(OwnComments(s, k)) +
    match s.entries[k]
    case Scalar(text) => [T.KeyValue(k, Q.Text(text))]
    case Sub(sub) =>
      SubListed(s, k);
      AllPresent(sub);
      [T.Marker(depth + 1, k)] + SectLines(sub, AllKeys(sub), depth + 1)
  }

  // ---------------------------------------------------------------- what the section holds

  ghost function ScalarsOf(s: Sect, keys: seq<string>): seq<T.Scalar>
    requires Listed(s) && Present(s, keys)
    decreases |keys|
  {
    if keys == [] then []
    else if s.entries[keys[0]].Sub? then ScalarsOf(s, keys[1..])
    else
      var k := keys[0];
      [T.Scalar(k, Q.Text(s.entries[k].text), OwnComments(s, k))] + ScalarsOf(s, keys[1..])
  }

  ghost function SubsOf(s: Sect, keys: seq<string>): T.Forest
    requires Listed(s) && Present(s, keys)
    decreases s, |keys|
  {
    if keys == [] then T.NoSub
    else if s.entries[keys[0]].Scalar? then SubsOf(s, keys[1..])
    else
      var k := keys[0];
      SubListed(s, k);
      T.Sub(k, OwnComments(s, k), AsTree(s.entries[k].sect), SubsOf(s, keys[1..]))
  }

  /** The texts of a section and its subsections, each in the order of the listing. */
  ghost function AsTree(s: Sect): T.Tree
    requires Listed(s)
    decreases s, |AllKeys(s)| + 1
  {
    AllPresent(s);
    T.Tree(ScalarsOf(s, AllKeys(s)), SubsOf(s, AllKeys(s)))
  }

  predicate InOrder(s: Sect, keys: seq<string>)
    requires Present(s, keys)
  {
    forall i, j :: 0 <= i < j < |keys| && s.entries[keys[i]].Sub? ==> s.entries[keys[j]].Sub?
  }

  /** At no level does a text come behind a section. */
  ghost predicate TextsFirst(s: Sect)
    requires Listed(s)
    decreases s
  {
    AllPresent(s);
    InOrder(s, AllKeys(s)) && SubsInOrder(s, AllKeys(s))
  }

  ghost predicate SubsInOrder(s: Sect, keys: seq<string>)
    requires Listed(s) && Present(s, keys)
    decreases s, 0
  {
    forall i :: 0 <= i < |keys| && s.entries[keys[i]].Sub? ==>
      Listed(s.entries[keys[i]].sect) && TextsFirst(s.entries[keys[i]].sect)
  }

  // ---------------------------------------------------------------- names

  lemma {:induction false} ScalarsAreKeys(s: Sect, keys: seq<string>)
    requires Listed(s) && Present(s, keys) && Distinct(keys)
    ensures R.DistinctScalars(ScalarsOf(s, keys))
    ensures forall k :: k in R.ScalarKeys(ScalarsOf(s, keys)) ==> k in keys && s.entries[k].Scalar?
    decreases |keys|
  {
    hide Listed;
    if keys != [] {
      var rest := ScalarsOf(s, keys[1..]);
      assert keys[0] !in keys[1..] && forall k :: k in keys[1..] ==> k in keys;
      ScalarsAreKeys(s, keys[1..]);
      forall j | 0 <= j < |rest|
        ensures rest[j].key != keys[0]
      {
        assert rest[j] in rest && rest[j].key in R.ScalarKeys(rest);
      }
    }
  }

  lemma {:induction false} SubsWellFormed(s: Sect, keys: seq<string>)
    requires Listed(s) && Present(s, keys) && Distinct(keys)
    ensures R.WellFormedForest(SubsOf(s, keys))
    ensures forall k :: k in R.SubNames(SubsOf(s, keys)) ==> k in keys && s.entries[k].Sub?
    decreases s, |keys|
  {
    hide Listed;
    if keys != [] {
      assert keys[0] !in keys[1..] && forall k :: k in keys[1..] ==> k in keys;
      SubsWellFormed(s, keys[1..]);
      if s.entries[keys[0]].Sub? {
        SubListed(s, keys[0]);
        SectWellFormed(s.entries[keys[0]].sect);
      }
    }
  }

  lemma {:induction false} SectWellFormed(s: Sect)
    requires Listed(s)
    ensures R.WellFormed(AsTree(s))
    decreases s, |AllKeys(s)| + 1
  {
    AllPresent(s);
    ScalarsAreKeys(s, AllKeys(s));
    SubsWellFormed(s, AllKeys(s));
  }

  // ---------------------------------------------------------------- the lines against those of the tree

  /** The lines of the tree's own writing: the texts, then the sections. */
  ghost function TreeLines(s: Sect, keys: seq<string>, depth: nat): seq<T.Line>
    requires Listed(s) && Present(s, keys)
  {
    T.WriteScalars(ScalarsOf(s, keys)) + T.WriteForest(SubsOf(s, keys), depth + 1)
  }

  lemma TreeLinesAll(s: Sect, depth: nat)
    requires Listed(s)
    ensures Present(s, AllKeys(s)) && TreeLines(s, AllKeys(s), depth) == T.WriteTree(AsTree(s), depth)
  {
    AllPresent(s);
    T.WrittenEnd(AsTree(s), depth);
  }

  lemma NoLines(s: Sect, depth: nat)
    requires Listed(s)
    ensures SectLines(s, [], depth) == [] && ScalarsOf(s, []) == [] && SubsOf(s, []) == T.NoSub
    ensures TreeLines(s, [], depth) == []
  {
    T.NothingWritten(depth + 1);
  }

  /** A text in front: its lines are the first in either writing. */
  lemma TextInFront(s: Sect, keys: seq<string>, depth: nat)
    requires Listed(s) && Present(s, keys) && keys != [] && s.entries[keys[0]].Scalar?
    ensures Present(s, keys[1..])
    ensures TreeLines(s, keys, depth) == EntryLines(s, keys[0], depth) + TreeLines(s, keys[1..], depth)
  {
    hide Listed, T.WriteForest, T.Comments;
    var scalars := ScalarsOf(s, keys);
    T.ScalarWritten(scalars);
    assert scalars[1..] == ScalarsOf(s, keys[1..]);
    W.GrowsBehind(EntryLines(s, keys[0], depth), T.WriteScalars(scalars[1..]),
                  T.WriteForest(SubsOf(s, keys), depth + 1));
  }

  /** A section in front: its lines come behind those of all texts. */
  lemma SectionInFront(s: Sect, keys: seq<string>, depth: nat) returns (own: seq<T.Line>)
    requires Listed(s) && Present(s, keys) && keys != [] && s.entries[keys[0]].Sub?
    ensures Present(s, keys[1..]) && Listed(s.entries[keys[0]].sect)
    ensures own == T.Comments(OwnComments(s, keys[0])) + [T.Marker(depth + 1, keys[0])]
                   + T.WriteTree(AsTree(s.entries[keys[0]].sect), depth + 1)
    ensures T.WriteForest(SubsOf(s, keys), depth + 1) == own + T.WriteForest(SubsOf(s, keys[1..]), depth + 1)
    ensures ScalarsOf(s, keys) == ScalarsOf(s, keys[1..])
    ensures TreeLines(s, keys, depth) ==
            T.WriteScalars(ScalarsOf(s, keys[1..])) + (own + T.WriteForest(SubsOf(s, keys[1..]), depth + 1))
  {
    hide Listed, T.WriteTree, T.WriteForest, T.WriteScalars, T.Comments;
    SubListed(s, keys[0]);
    T.SubWritten(SubsOf(s, keys), depth + 1);
    own := T.Comments(OwnComments(s, keys[0])) + [T.Marker(depth + 1, keys[0])]
           + T.WriteTree(AsTree(s.entries[keys[0]].sect), depth + 1);
  }

  lemma EntryOfSection(s: Sect, k: string, depth: nat)
    requires Listed(s) && k in s.entries && s.entries[k].Sub?
    ensures Listed(s.entries[k].sect) && Present(s.entries[k].sect, AllKeys(s.entries[k].sect))
    ensures var sub := s.entries[k].sect;
            EntryLines(s, k, depth) == T.Comments(OwnComments(s, k)) + [T.Marker(depth + 1, k)]
                                       + SectLines(sub, AllKeys(sub), depth + 1)
  {
    hide Listed, SectLines, T.Comments;
    SubListed(s, k);
    var sub := s.entries[k].sect;
    AllPresent(sub);
    W.GrowsBehind(T.Comments(OwnComments(s, k)), [T.Marker(depth + 1, k)], SectLines(sub, AllKeys(sub), depth + 1));
  }

  /** Either writing has the same number of lines. */
  lemma {:induction false} SameLength(s: Sect, keys: seq<string>, depth: nat)
    requires Listed(s) && Present(s, keys)
    ensures |SectLines(s, keys, depth)| == |TreeLines(s, keys, depth)|
    decreases s, |keys|
  {
    hide Listed, EntryLines, TreeLines, AllKeys;
    if keys == [] {
      NoLines(s, depth);
    } else {
      SameLength(s, keys[1..], depth);
      if s.entries[keys[0]].Scalar? {
        TextInFront(s, keys, depth);
      } else {
        var own := SectionInFront(s, keys, depth);
        var sub := s.entries[keys[0]].sect;
        EntryOfSection(s, keys[0], depth);
        SubListed(s, keys[0]);
        SameLength(sub, AllKeys(sub), depth + 1);
        TreeLinesAll(sub, depth + 1);
        TreeLinesParts(s, keys[1..], depth);
      }
    }
  }

  lemma TreeLinesParts(s: Sect, keys: seq<string>, depth: nat)
    requires Listed(s) && Present(s, keys)
    ensures TreeLines(s, keys, depth) == T.WriteScalars(ScalarsOf(s, keys)) + T.WriteForest(SubsOf(s, keys), depth + 1)
  {
  }

  lemma {:induction false} OnlySections(s: Sect, keys: seq<string>)
    requires Listed(s) && Present(s, keys)
    ensures ScalarsOf(s, keys) == [] <==> forall i :: 0 <= i < |keys| ==> s.entries[keys[i]].Sub?
    decreases |keys|
  {
    hide Listed;
    if keys != [] {
      OnlySections(s, keys[1..]);
      assert forall i :: 0 < i < |keys| ==> keys[i] == keys[1..][i - 1];
    }
  }

  lemma InOrderFirst(s: Sect, keys: seq<string>)
    requires Present(s, keys) && keys != []
    ensures Present(s, keys[1..])
    ensures InOrder(s, keys)
       <==> && InOrder(s, keys[1..])
            && (s.entries[keys[0]].Sub? ==> forall i :: 0 <= i < |keys[1..]| ==> s.entries[keys[1..][i]].Sub?)
  {
    assert forall i :: 0 < i < |keys| ==> keys[i] == keys[1..][i - 1];
  }

  lemma SubsInOrderFirst(s: Sect, keys: seq<string>)
    requires Listed(s) && Present(s, keys) && keys != []
    ensures Present(s, keys[1..])
    ensures SubsInOrder(s, keys)
       <==> && SubsInOrder(s, keys[1..])
            && (s.entries[keys[0]].Sub? ==> Listed(s.entries[keys[0]].sect) && TextsFirst(s.entries[keys[0]].sect))
  {
    hide Listed, TextsFirst;
    assert forall i :: 0 < i < |keys| ==> keys[i] == keys[1..][i - 1];
  }

  /** With the texts first the section is written as its tree is. */
  lemma {:induction false} WrittenAsTree(s: Sect, keys: seq<string>, depth: nat)
    requires Listed(s) && Present(s, keys) && InOrder(s, keys) && SubsInOrder(s, keys)
    ensures SectLines(s, keys, depth) == TreeLines(s, keys, depth)
    decreases s, |keys|
  {
    hide Listed, EntryLines, TreeLines, AllKeys, InOrder, SubsInOrder;
    if keys == [] {
      NoLines(s, depth);
    } else {
      InOrderFirst(s, keys);
      SubsInOrderFirst(s, keys);
      WrittenAsTree(s, keys[1..], depth);
      if s.entries[keys[0]].Scalar? {
        TextInFront(s, keys, depth);
      } else {
        var own := SectionInFront(s, keys, depth);
        var sub := s.entries[keys[0]].sect;
        EntryOfSection(s, keys[0], depth);
        SubListed(s, keys[0]);
        WrittenAsTree(sub, AllKeys(sub), depth + 1);
        TreeLinesAll(sub, depth + 1);
        TreeLinesParts(s, keys[1..], depth);
        OnlySections(s, keys[1..]);
        NoScalarsWritten(ScalarsOf(s, keys[1..]));
      }
    }
  }

  lemma NoScalarsWritten(scalars: seq<T.Scalar>)
    requires scalars == []
    ensures T.WriteScalars(scalars) == []
  {
  }

  lemma Cancel(a: seq<T.Line>, x: seq<T.Line>, b: seq<T.Line>, y: seq<T.Line>)
    requires a + x == b + y && |a| == |b|
    ensures a == b && x == y
  {
    assert a == (a + x)[..|a|] && b == (b + y)[..|b|];
    assert x == (a + x)[|a|..] && y == (b + y)[|b|..];
  }

  /** Behind the comments in front, two equal writings have the same first entry. */
  lemma SameFirstEntry(a: seq<string>, x: T.Line, u: seq<T.Line>, b: seq<string>, y: T.Line, v: seq<T.Line>)
    requires T.Comments(a) + ([x] + u) == T.Comments(b) + ([y] + v) && !x.Comment? && !y.Comment?
    ensures x == y
  {
    var left, right := T.Comments(a) + ([x] + u), T.Comments(b) + ([y] + v);
    assert left[|a|] == x && forall i :: 0 <= i < |a| ==> left[i].Comment?;
    assert right[|b|] == y && forall i :: 0 <= i < |b| ==> right[i].Comment?;
  }

  /** A section in front of a text is not written as the tree is. */
  lemma SectionFirstDiffers(s: Sect, keys: seq<string>, depth: nat)
    requires Listed(s) && Present(s, keys) && keys != [] && s.entries[keys[0]].Sub?
    requires Present(s, keys[1..]) && ScalarsOf(s, keys[1..]) != []
    ensures SectLines(s, keys, depth) != TreeLines(s, keys, depth)
  {
    hide Listed, T.Comments, T.WriteTree, T.WriteForest, T.WriteScalars, TreeLines;
    var own := SectionInFront(s, keys, depth);
    var scalars := ScalarsOf(s, keys[1..]);
    EntryOfSection(s, keys[0], depth);
    T.ScalarWritten(scalars);
    var sub, forest := s.entries[keys[0]].sect, own + T.WriteForest(SubsOf(s, keys[1..]), depth + 1);
    var u := SectLines(sub, AllKeys(sub), depth + 1) + SectLines(s, keys[1..], depth);
    var v := T.WriteScalars(scalars[1..]) + forest;
    var x, y := T.Marker(depth + 1, keys[0]), T.KeyValue(scalars[0].key, scalars[0].value);
    assert SectLines(s, keys, depth) == T.Comments(OwnComments(s, keys[0])) + ([x] + u);
    assert TreeLines(s, keys, depth) == T.Comments(scalars[0].comments) + ([y] + v);
    if SectLines(s, keys, depth) == TreeLines(s, keys, depth) {
      SameFirstEntry(OwnComments(s, keys[0]), x, u, scalars[0].comments, y, v);
    }
  }

  /** And only then. */
  lemma {:induction false} OnlyWrittenInOrder(s: Sect, keys: seq<string>, depth: nat)
    requires Listed(s) && Present(s, keys) && SectLines(s, keys, depth) == TreeLines(s, keys, depth)
    ensures InOrder(s, keys) && SubsInOrder(s, keys)
    decreases s, |keys|
  {
    hide Listed, EntryLines, TreeLines, AllKeys, InOrder, SubsInOrder;
    hide T.WriteTree, T.WriteForest, T.WriteScalars, T.Comments;
    if keys == [] {
      NothingInOrder(s);
    } else {
      var k, rest := keys[0], keys[1..];
      InOrderFirst(s, keys);
      SubsInOrderFirst(s, keys);
      OnlySections(s, rest);
      if s.entries[k].Scalar? {
        TextInFront(s, keys, depth);
        var own := EntryLines(s, k, depth);
        Cancel(own, SectLines(s, rest, depth), own, TreeLines(s, rest, depth));
        OnlyWrittenInOrder(s, rest, depth);
      } else if ScalarsOf(s, rest) != [] {
        SectionFirstDiffers(s, keys, depth);
      } else {
        OnlySectionsLeft(s, keys, depth);
        OnlyWrittenInOrder(s, rest, depth);
        var sub := s.entries[k].sect;
        SubListed(s, k);
        AllPresent(sub);
        OnlyWrittenInOrder(sub, AllKeys(sub), depth + 1);
        TextsFirstIs(sub);
      }
    }
  }

  lemma TextsFirstIs(s: Sect)
    requires Listed(s)
    ensures Present(s, AllKeys(s)) && (TextsFirst(s) <==> InOrder(s, AllKeys(s)) && SubsInOrder(s, AllKeys(s)))
  {
    AllPresent(s);
  }

  lemma NothingInOrder(s: Sect)
    requires Listed(s)
    ensures InOrder(s, []) && SubsInOrder(s, [])
  {
  }

  /** Without texts the equal writings are equal section by section. */
  lemma OnlySectionsLeft(s: Sect, keys: seq<string>, depth: nat)
    requires Listed(s) && Present(s, keys) && keys != [] && s.entries[keys[0]].Sub?
    requires SectLines(s, keys, depth) == TreeLines(s, keys, depth)
    requires Present(s, keys[1..]) && ScalarsOf(s, keys[1..]) == []
    ensures SectLines(s, keys[1..], depth) == TreeLines(s, keys[1..], depth)
    ensures Listed(s.entries[keys[0]].sect)
    ensures var sub := s.entries[keys[0]].sect;
            && Present(sub, AllKeys(sub))
            && SectLines(sub, AllKeys(sub), depth + 1) == TreeLines(sub, AllKeys(sub), depth + 1)
  {
    hide Listed, TreeLines, AllKeys, T.WriteTree, T.WriteForest, T.WriteScalars, T.Comments;
    var own := SectionInFront(s, keys, depth);
    var k, sub := keys[0], s.entries[keys[0]].sect;
    EntryOfSection(s, k, depth);
    TreeLinesAll(sub, depth + 1);
    SameLength(sub, AllKeys(sub), depth + 1);
    NoScalarsWritten(ScalarsOf(s, keys[1..]));
    TreeLinesParts(s, keys[1..], depth);
    var front := T.Comments(OwnComments(s, k)) + [T.Marker(depth + 1, k)];
    var entry, lines := EntryLines(s, k, depth), SectLines(sub, AllKeys(sub), depth + 1);
    assert entry == front + lines && own == front + T.WriteTree(AsTree(sub), depth + 1);
    Cancel(entry, SectLines(s, keys[1..], depth), own, TreeLines(s, keys[1..], depth));
    Cancel(front, lines, front, T.WriteTree(AsTree(sub), depth + 1));
  }

  // ---------------------------------------------------------------- the round trip

  /** The lines of a whole configuration. */
  ghost function ConfigLines(initial: seq<string>, s: Sect, final: seq<string>): seq<T.Line>
    requires Listed(s)
  {
    AllPresent(s);
    T.Comments(initial) + (SectLines(s, AllKeys(s), 0) + T.Comments(final))
  }

  /** What the sections hold comes back without error, up to the comments before the first entry. */
  ghost predicate RoundTrips(initial: seq<string>, s: Sect, final: seq<string>)
    requires Listed(s)
  {
    var lines := ConfigLines(initial, s, final);
    && T.Readable(lines) && T.ReadErrors(lines) == []
    && T.Read(lines) == R.Normalize(T.Config(initial, AsTree(s), final))
  }

  lemma ConfigLinesIff(initial: seq<string>, s: Sect, final: seq<string>)
    requires Listed(s)
    ensures ConfigLines(initial, s, final) == T.WriteConfig(T.Config(initial, AsTree(s), final)) <==> TextsFirst(s)
  {
    hide Listed, SectLines, TreeLines, AsTree, T.WriteTree, T.Comments, TextsFirst;
    TextsFirstIs(s);
    TreeLinesAll(s, 0);
    var keys := AllKeys(s);
    var c := T.Config(initial, AsTree(s), final);
    assert T.WriteConfig(c) == T.Comments(initial) + (TreeLines(s, keys, 0) + T.Comments(final));
    if TextsFirst(s) {
      WrittenAsTree(s, keys, 0);
    } else if ConfigLines(initial, s, final) == T.WriteConfig(c) {
      SameLength(s, keys, 0);
      var a, b := SectLines(s, keys, 0), TreeLines(s, keys, 0);
      Cancel(T.Comments(initial), a + T.Comments(final), T.Comments(initial), b + T.Comments(final));
      Cancel(a, T.Comments(final), b, T.Comments(final));
      OnlyWrittenInOrder(s, keys, 0);
    }
  }

  /**
   Written as they are listed and read again, sections keep what they hold exactly when at no level a text is listed
   behind a section: otherwise the reader takes that text into the section.
   */
  lemma RoundTripsIff(initial: seq<string>, s: Sect, final: seq<string>)
    requires Listed(s)
    ensures RoundTrips(initial, s, final) <==> TextsFirst(s)
  {
    hide Listed, ConfigLines, AsTree, T.WriteConfig, T.Read, T.ReadErrors, R.Normalize, TextsFirst, R.WellFormed;
    var c, lines := T.Config(initial, AsTree(s), final), ConfigLines(initial, s, final);
    ConfigLinesIff(initial, s, final);
    SectWellFormed(s);
    R.NormalizeSameLines(c);
    if TextsFirst(s) { R.WriteThenRead(c); }
    if RoundTrips(initial, s, final) { W.ReadThenWrite(lines); }
  }

  /** The kinds agree in a section and all sections below it. */
  ghost predicate AllKindsAgree(s: Sect)
    decreases s
  {
    KindsAgree(s) && forall k :: k in s.entries && s.entries[k].Sub? ==> AllKindsAgree(s.entries[k].sect)
  }

  /** While each list holds the keys of its own kind, the texts come first. */
  lemma {:induction false} KindsKeepTextsFirst(s: Sect)
    requires Listed(s) && AllKindsAgree(s)
    ensures TextsFirst(s)
    decreases s
  {
    var keys := AllKeys(s);
    AllPresent(s);
    forall i | 0 <= i < |keys|
      ensures s.entries[keys[i]].Sub? <==> i >= |s.scalars|
    {
      assert keys[i] in if i < |s.scalars| then s.scalars else s.sections;
    }
    forall i | 0 <= i < |keys| && s.entries[keys[i]].Sub?
      ensures Listed(s.entries[keys[i]].sect) && TextsFirst(s.entries[keys[i]].sect)
    {
      KindsKeepTextsFirst(s.entries[keys[i]].sect);
    }
  }

  // ---------------------------------------------------------------- a text taken into a section

  const PLAIN := Comment([], "")
  const TWO_TEXTS := Sect(["a", "b"], [], map["a" := Scalar("1"), "b" := Scalar("2")], map["a" := PLAIN, "b" := PLAIN])
  const SWALLOWING := Sect(["a", "b"], [], map["a" := Sub(EMPTY), "b" := Scalar("2")], map["a" := PLAIN, "b" := PLAIN])

  lemma SwallowingListed()
    ensures Listed(SWALLOWING) && AllKeys(SWALLOWING) == ["a", "b"]
  {
    assert SWALLOWING.scalars[0] == "a" && SWALLOWING.scalars[1] == "b";
    assert Listed(EMPTY);
  }

  /** Where the text ends up. */
  function Swallowed(): T.Tree {
    T.Tree([], T.Sub("a", [], T.Tree([T.Scalar("b", Q.Text("2"), [])], T.NoSub), T.NoSub))
  }

  lemma SwallowingLines()
    ensures Listed(SWALLOWING)
    ensures ConfigLines([], SWALLOWING, []) == [T.Marker(1, "a"), T.KeyValue("b", Q.Text("2"))]
  {
    SwallowingListed();
    AllPresent(SWALLOWING);
    var s := SWALLOWING;
    assert T.Comments([]) == [];
    assert Listed(EMPTY) && AllKeys(EMPTY) == [];
    NoLines(EMPTY, 1);
    NoLines(s, 0);
    assert EntryLines(s, "a", 0) == [T.Marker(1, "a")];
    assert EntryLines(s, "b", 0) == [T.KeyValue("b", Q.Text("2"))];
    assert ["a", "b"][1..] == ["b"] && ["b"][1..] == [];
    assert SectLines(s, ["b"], 0) == EntryLines(s, "b", 0) + SectLines(s, [], 0);
  }

  lemma SwallowedLines()
    ensures T.WriteConfig(T.Config([], Swallowed(), [])) == [T.Marker(1, "a"), T.KeyValue("b", Q.Text("2"))]
    ensures R.WellFormed(Swallowed()) && R.Normalize(T.Config([], Swallowed(), [])) == T.Config([], Swallowed(), [])
  {
    var inner := T.Tree([T.Scalar("b", Q.Text("2"), [])], T.NoSub);
    assert T.Comments([]) == [];
    T.ScalarWritten(inner.scalars);
    assert inner.scalars[1..] == [];
    T.WrittenEnd(inner, 1);
    T.WrittenEnd(Swallowed(), 0);
    T.NothingWritten(1);
    T.NothingWritten(2);
    T.SubWritten(Swallowed().subs, 1);
  }

  /** Of two texts the first is replaced by an empty dictionary: read back, the second is inside that section. */
  lemma TextSwallowed()
    ensures SetItem(TWO_TEXTS, "a", Dict(NoItems)) == SWALLOWING && Listed(SWALLOWING)
    ensures var lines := ConfigLines([], SWALLOWING, []);
            && T.Readable(lines) && T.ReadErrors(lines) == [] && T.Read(lines) == T.Config([], Swallowed(), [])
    ensures !RoundTrips([], SWALLOWING, [])
  {
    hide T.WriteConfig, T.Read, T.ReadErrors, R.Normalize, R.WellFormed, ConfigLines, RoundTrips, TextsFirst;
    SwallowingLines();
    SwallowedLines();
    SwallowingListed();
    R.WriteThenRead(T.Config([], Swallowed(), []));
    assert SetAll(EMPTY, NoItems) == EMPTY;
    assert TWO_TEXTS.entries["a" := Sub(EMPTY)] == SWALLOWING.entries;
    TextsFirstIs(SWALLOWING);
    assert !InOrder(SWALLOWING, ["a", "b"]) by { assert ["a", "b"][0] == "a" && ["a", "b"][1] == "b"; }
    RoundTripsIff([], SWALLOWING, []);
  }
}
