/**
 Comparing two manifests line by line (hghooks/mozhghooks/changelog_correctness.py): the hook that finds changesets
 whose list of files is wrong.
 */
module ManifestDiff {
  import opened Prelude

  /** A manifest line: the file name up to the NUL, and the rest. */
  datatype Line = Line(file: string, data: string)

  /** Strictly sorted by file name. */
  predicate Sorted(m: seq<Line>) {
    m != [] ==> Sorted(m[1..]) && (|m| > 1 ==> Before(m[0].file, m[1].file))
  }

  /** The files of a manifest. */
  function Contents(m: seq<Line>): map<string, string> {
    if m == [] then map[] else Contents(m[1..])[m[0].file := m[0].data]
  }

  /** The files present in one manifest only, or with different lines. */
  function Difference(a: map<string, string>, b: map<string, string>): set<string> {
    set f | f in a.Keys + b.Keys && !(f in a && f in b && a[f] == b[f])
  }

  /** The comparison, one step after the other. */
  function Compare(m1: seq<Line>, m2: seq<Line>): set<string>
    decreases |m1| + |m2|
  {
    if m1 == [] && m2 == [] then {}
    else if m1 != [] && m2 != [] && m1[0] == m2[0] then Compare(m1[1..], m2[1..])
    else if m1 != [] && m2 != [] && m1[0].file == m2[0].file then {m2[0].file} + Compare(m1[1..], m2[1..])
    else if m2 == [] || (m1 != [] && Before(m1[0].file, m2[0].file)) then {m1[0].file} + Compare(m1[1..], m2)
    else {m2[0].file} + Compare(m1, m2[1..])
  }

  /** `get_changed_files`. */
  method GetChangedFiles(m1: seq<Line>, m2: seq<Line>) returns (changed: set<string>)
    ensures changed == Compare(m1, m2)
    ensures (forall i, j :: 0 <= i < j < |m1| ==> Before(m1[i].file, m1[j].file)) &&
            (forall i, j :: 0 <= i < j < |m2| ==> Before(m2[i].file, m2[j].file)) ==>
              forall f :: f in changed <==> exists l: Line :: l.file == f && (l in m1 <==> l !in m2)
  {
    hide Contents, Sorted, Difference, Before;
    changed := {};
    var i, j := 0, 0;
    assert m1[0..] == m1 && m2[0..] == m2;
    while true
      invariant i <= |m1| && j <= |m2|
      invariant changed + Compare(m1[i..], m2[j..]) == Compare(m1, m2)
      decreases |m1| - i + (|m2| - j)
    {
      if i == |m1| && j == |m2| {
        break;
      }
      Step(m1, m2, i, j);
      if i < |m1| && j < |m2| && m1[i] == m2[j] {
        i, j := i + 1, j + 1;
      } else if i < |m1| && j < |m2| && m1[i].file == m2[j].file {
        changed := changed + {m2[j].file};
        i, j := i + 1, j + 1;
      } else if j == |m2| || (i < |m1| && Before(m1[i].file, m2[j].file)) {
        changed := changed + {m1[i].file};
        i := i + 1;
      } else {
        changed := changed + {m2[j].file};
        j := j + 1;
      }
    }
    if (forall i, j :: 0 <= i < j < |m1| ==> Before(m1[i].file, m1[j].file)) &&
       (forall i, j :: 0 <= i < j < |m2| ==> Before(m2[i].file, m2[j].file)) {
      hide Compare;
      CompareFindsLines(m1, m2);
    }
  }

  /** In ascending manifests the comparison finds the files of the lines that only one of them has. */
  lemma CompareFindsLines(m1: seq<Line>, m2: seq<Line>)
    requires forall i, j :: 0 <= i < j < |m1| ==> Before(m1[i].file, m1[j].file)
    requires forall i, j :: 0 <= i < j < |m2| ==> Before(m2[i].file, m2[j].file)
    ensures forall f :: f in Compare(m1, m2) <==> exists l: Line :: l.file == f && (l in m1 <==> l !in m2)
  {
    hide Compare, Contents, Sorted, Difference, Before;
    SortedByPairs(m1);
    SortedByPairs(m2);
    CompareIsDifference(m1, m2);
    DifferenceOfLines(m1, m2);
  }

  lemma {:induction false} SortedByPairs(m: seq<Line>)
    requires forall i, j :: 0 <= i < j < |m| ==> Before(m[i].file, m[j].file)
    ensures Sorted(m)
  {
    if m != [] { SortedByPairs(m[1..]); }
  }

  lemma {:induction false} ContentsAreLines(m: seq<Line>, f: string, data: string)
    requires Sorted(m)
    ensures f in Contents(m) && Contents(m)[f] == data <==> Line(f, data) in m
  {
    hide Before, Sorted;
    if m != [] {
      SortedRest(m);
      FirstNotLater(m);
      ContentsAreLines(m[1..], f, data);
      if f == m[0].file && Line(f, data) in m[1..] { assert false; }
    }
  }

  lemma SortedRest(m: seq<Line>)
    requires Sorted(m) && m != []
    ensures Sorted(m[1..])
  {
  }

  /** The files that differ are those of the lines that only one of the manifests has. */
  lemma DifferenceOfLines(m1: seq<Line>, m2: seq<Line>)
    requires Sorted(m1) && Sorted(m2)
    ensures forall f ::
              f in Difference(Contents(m1), Contents(m2)) <==> exists l: Line :: l.file == f && (l in m1 <==> l !in m2)
  {
    hide Sorted, Contents;
    var a, b := Contents(m1), Contents(m2);
    forall l: Line
      ensures l in m1 <==> l.file in a && a[l.file] == l.data
      ensures l in m2 <==> l.file in b && b[l.file] == l.data
    {
      ContentsAreLines(m1, l.file, l.data);
      ContentsAreLines(m2, l.file, l.data);
    }
    forall f | f in Difference(a, b)
      ensures exists l: Line :: l.file == f && (l in m1 <==> l !in m2)
    {
      var l := Line(f, if f in a then a[f] else b[f]);
      assert l.file == f && (l in m1 <==> l !in m2);
    }
  }

  lemma Step(m1: seq<Line>, m2: seq<Line>, i: nat, j: nat)
    requires i <= |m1| && j <= |m2| && (i < |m1| || j < |m2|)
    ensures i < |m1| ==> m1[i..] != [] && m1[i..][0] == m1[i] && m1[i..][1..] == m1[i + 1..]
    ensures j < |m2| ==> m2[j..] != [] && m2[j..][0] == m2[j] && m2[j..][1..] == m2[j + 1..]
  {
  }

  lemma {:induction false} FirstIsLeast(m: seq<Line>, f: string)
    requires Sorted(m) && f in Contents(m)
    ensures f == m[0].file || (Before(m[0].file, f) && f in Contents(m[1..]))
  {
    if f != m[0].file {
      FirstIsLeast(m[1..], f);
      if f != m[1].file { BeforeTrans(m[0].file, m[1].file, f); }
    }
  }

  lemma FirstNotLater(m: seq<Line>)
    requires Sorted(m) && m != []
    ensures m[0].file !in Contents(m[1..])
  {
    if m[0].file in Contents(m[1..]) {
      FirstIsLeast(m[1..], m[0].file);
      BeforeIrreflexive(m[0].file);
      if m[0].file != m[1].file { BeforeTrans(m[0].file, m[1].file, m[0].file); }
    }
  }

  /** A file below the first of a manifest is not in it. */
  lemma BelowFirst(m: seq<Line>, f: string)
    requires Sorted(m) && (m != [] ==> Before(f, m[0].file))
    ensures f !in Contents(m)
  {
    if f in Contents(m) {
      FirstIsLeast(m, f);
      BeforeIrreflexive(f);
      if f != m[0].file { BeforeTrans(f, m[0].file, f); }
    }
  }

  /** On sorted manifests the comparison finds exactly the files that differ. */
  lemma {:induction false} CompareIsDifference(m1: seq<Line>, m2: seq<Line>)
    requires Sorted(m1) && Sorted(m2)
    ensures Compare(m1, m2) == Difference(Contents(m1), Contents(m2))
    decreases |m1| + |m2|
  {
    hide Before;
    if m1 == [] && m2 == [] {
    } else if m1 != [] && m2 != [] && m1[0].file == m2[0].file {
      FirstNotLater(m1);
      FirstNotLater(m2);
      CompareIsDifference(m1[1..], m2[1..]);
      BothFirst(m1, m2);
    } else if m2 == [] || (m1 != [] && Before(m1[0].file, m2[0].file)) {
      FirstNotLater(m1);
      BelowFirst(m2, m1[0].file);
      CompareIsDifference(m1[1..], m2);
    } else {
      if m1 != [] { BeforeTotal(m1[0].file, m2[0].file); }
      FirstNotLater(m2);
      BelowFirst(m1, m2[0].file);
      CompareIsDifference(m1, m2[1..]);
    }
  }

  lemma BothFirst(m1: seq<Line>, m2: seq<Line>)
    requires m1 != [] && m2 != [] && m1[0].file == m2[0].file
    requires m1[0].file !in Contents(m1[1..]) && m2[0].file !in Contents(m2[1..])
    ensures Difference(Contents(m1), Contents(m2))
         == (if m1[0] == m2[0] then {} else {m2[0].file}) + Difference(Contents(m1[1..]), Contents(m2[1..]))
  {
  }
}
