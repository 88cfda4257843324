/** What is written by `_quote` is read back unchanged, and exactly when it is not. */
module ConfigQuoteRoundTrip {
  import opened Prelude
  import opened ConfigQuote
  import opened ConfigQuoteMatching

  // ---------------------------------------------------------------- the whole line

  lemma {:induction false} OneLine(s: string)
    requires '\n' !in s
    ensures Lines(s) == [s]
  {
    if s != "" {
      assert s[0] in s && forall c :: c in s[1..] ==> c in s;
      OneLine(s[1..]);
      assert [s[0]] + s[1..] == s;
    }
  }

  /** Loading leaves this end of a line as it is. */
  predicate EndKept(text: string) {
    text != "" ==> text[|text| - 1] != '\r' && text[|text| - 1] != '\n'
  }

  /** A text of one line is read as it was written. */
  lemma OneLineReread(text: string)
    requires '\n' !in text && EndKept(text)
    ensures Reread(text) == ReadValue(" " + text, [])
  {
    var line := " " + text;
    OneLine(line);
    assert line[|line| - 1] == if text == "" then ' ' else text[|text| - 1];
    assert StripAll([line]) == [line];
  }

  /** A text that starts with a one-line member is handed to `_handle_value` as it is. */
  lemma PlainText(style: Style, v: string, rest: string)
    requires Fits(style, v) && '\n' !in rest && (rest != "" ==> rest[0] == ',') && EndKept(rest)
    ensures Reread(Apply(style, v) + rest) == HandleValue(Apply(style, v) + rest)
  {
    var text := Apply(style, v) + rest;
    FirstChar(style, v);
    assert '\n' !in text by { assert '\n' !in Apply(style, v); }
    LastChar(style, v);
    assert EndKept(text) by { assert rest == "" ==> text == Apply(style, v); }
    OneLineReread(text);
    var line := " " + text;
    assert line[1] == text[0];
    assert SpaceEnd(line, 0) == 1;
    assert line[1..] == text;
    NoTriple(style, v, rest);
  }

  lemma LastChar(style: Style, v: string)
    requires Fits(style, v)
    ensures Apply(style, v) != "" && EndKept(Apply(style, v))
  {
    if style == Bare { assert IsSpace('\r') && IsSpace('\n'); }
  }

  lemma NoTriple(style: Style, v: string, rest: string)
    requires Fits(style, v) && (rest != "" ==> rest[0] == ',')
    ensures !OpensTriple(Apply(style, v) + rest)
  {
    var text := Apply(style, v) + rest;
    if |text| >= 3 {
      assert text[..3][0] == text[0] && text[..3][1] == text[1] && text[..3][2] == text[2];
      if style == Bare {
        assert text[0] == v[0];
      } else if v == "" {
        assert text[2] == rest[0];
      } else {
        assert text[1] == v[0] && v[0] in v;
      }
    }
  }

  lemma ApplyOneLine(style: Style, v: string)
    requires Fits(style, v)
    ensures '\n' !in Apply(style, v)
  {
  }

  lemma {:induction false} ListingOneLine(ms: Members, tail: string)
    requires AllFit(ms) && '\n' !in tail
    ensures '\n' !in Listing(ms, tail)
  {
    if ms.Member? {
      ListingOneLine(ms.rest, tail);
      ApplyOneLine(ms.style, ms.text);
    }
  }

  // ---------------------------------------------------------------- triple quotes

  ghost predicate NoTripleWithin(s: string, i: nat, hi: nat, q: char) {
    hi <= |s| && forall j :: i <= j && j + 3 <= hi ==> !(s[j] == q && s[j + 1] == q && s[j + 2] == q)
  }

  /** The closing quotes of a value that holds no such triple are found at the end of the line, even when
      the value itself ends in that quote. */
  lemma {:induction false} TripleEndsLine(s: string, i: nat, q: char)
    requires q == '\'' || q == '"'
    requires i + 3 <= |s| && NoTripleWithin(s, i, |s| - 3, q) && '\n' !in s[i..|s| - 3]
    requires s[|s| - 3] == q && s[|s| - 2] == q && s[|s| - 1] == q
    ensures TripleEnd(s, i, q) == Some(|s| - 3)
    decreases |s| - i
  {
    if i + 3 < |s| {
      assert s[i] == s[i..|s| - 3][0];
      assert s[i + 1..|s| - 3] == s[i..|s| - 3][1..];
      if s[i] == q && s[i + 1] == q && s[i + 2] == q {
        assert i + 3 > |s| - 3;
        assert s[i + 3] == q;
        assert SpaceEnd(s, i + 3) == i + 3;
      }
      TripleEndsLine(s, i + 1, q);
    }
  }

  lemma {:induction false} NoTripleEnd(s: string, i: nat, q: char)
    requires i <= |s| && NoTripleWithin(s, i, |s|, q)
    ensures TripleEnd(s, i, q) == None
    decreases |s| - i
  {
    if i < |s| && s[i] != '\n' { NoTripleEnd(s, i + 1, q); }
  }

  lemma {:induction false} LinesPrefix(a: string, b: string)
    requires '\n' !in a
    ensures Lines(a + b) == [a + Lines(b)[0]] + Lines(b)[1..]
  {
    if a == "" {
      assert a + b == b && a + Lines(b)[0] == Lines(b)[0];
      assert Lines(b) == [Lines(b)[0]] + Lines(b)[1..];
    } else {
      assert (a + b)[0] == a[0] && (a + b)[1..] == a[1..] + b;
      assert a[0] in a && forall c :: c in a[1..] ==> c in a;
      LinesPrefix(a[1..], b);
      assert [a[0]] + (a[1..] + Lines(b)[0]) == a + Lines(b)[0];
    }
  }

  lemma {:induction false} LinesSuffix(s: string, t: string)
    requires '\n' !in t
    ensures Lines(s + t) == Lengthened(Lines(s), t)
  {
    hide Lengthened, InFront;
    if s == "" {
      LengthenedOne(t);
      assert s + t == t;
      OneLine(t);
    } else {
      assert (s + t)[0] == s[0] && (s + t)[1..] == s[1..] + t;
      LinesSuffix(s[1..], t);
      LinesStep(s);
      LinesStep(s + t);
      SuffixStep(s[0], Lines(s[1..]), t);
    }
  }

  /** The lines of a string with one more character in front. */
  function InFront(c: char, rest: seq<string>): (r: seq<string>)
    requires rest != []
    ensures r != []
  {
    if c == '\n' then [""] + rest else [[c] + rest[0]] + rest[1..]
  }

  lemma LinesStep(s: string)
    requires s != ""
    ensures Lines(s) == InFront(s[0], Lines(s[1..]))
  {
  }

  lemma LengthenedOne(t: string)
    ensures Lengthened([""], t) == [t]
  {
    assert "" + t == t;
  }

  /** Text added to the last line. */
  function Lengthened(lines: seq<string>, t: string): seq<string>
    requires lines != []
  {
    lines[..|lines| - 1] + [lines[|lines| - 1] + t]
  }

  lemma SuffixStep(c: char, rest: seq<string>, t: string)
    requires rest != []
    ensures InFront(c, Lengthened(rest, t)) == Lengthened(InFront(c, rest), t)
  {
    var all, longer := InFront(c, rest), Lengthened(rest, t);
    var n := |rest| - 1;
    if c == '\n' {
      assert all[..|rest|] == [""] + rest[..n];
    } else if n == 0 {
      assert longer[1..] == [] && [c] + (rest[0] + t) == [c] + rest[0] + t;
    } else {
      assert all[..n] == [[c] + rest[0]] + rest[1..n];
      assert longer[1..] == rest[1..n] + [rest[n] + t];
    }
  }

  /** The lines of a string, put together again behind a first line. */
  function Rejoin(lines: seq<string>): string {
    if lines == [] then "" else "\n" + lines[0] + Rejoin(lines[1..])
  }

  lemma {:induction false} LinesRejoin(s: string)
    ensures Lines(s)[0] + Rejoin(Lines(s)[1..]) == s
  {
    if s != "" {
      var rest := Lines(s[1..]);
      LinesRejoin(s[1..]);
      if s[0] == '\n' {
        assert Lines(s)[1..] == rest;
        assert Rejoin(rest) == "\n" + rest[0] + Rejoin(rest[1..]);
      } else {
        assert Lines(s)[1..] == rest[1..];
        assert [s[0]] + rest[0] + Rejoin(rest[1..]) == [s[0]] + (rest[0] + Rejoin(rest[1..]));
      }
      assert [s[0]] + s[1..] == s;
    }
  }

  lemma {:induction false} LinesHoldNoTriple(s: string, q: char)
    requires !HasTriple(s, q)
    ensures Lines(s)[0] <= s
    ensures forall k :: 0 <= k < |Lines(s)| ==> !HasTriple(Lines(s)[k], q)
  {
    if s != "" {
      var rest := Lines(s[1..]);
      assert !HasTriple(s[1..], q) by {
        assert forall i :: 0 <= i < |s| - 1 ==> s[1..][i] == s[i + 1];
      }
      LinesHoldNoTriple(s[1..], q);
      if s[0] != '\n' {
        var line := [s[0]] + rest[0];
        assert line <= s;
        assert forall i :: 0 <= i < |line| ==> line[i] == s[i];
      }
    }
  }

  function Thrice(q: char): string { [q, q, q] }

  lemma HasThrice(s: string, q: char)
    ensures HasTriple(s + Thrice(q), q)
  {
    var t := s + Thrice(q);
    assert t[|s|] == q && t[|s| + 1] == q && t[|s| + 2] == q;
  }

  lemma ShiftedTriple(line: string, off: nat, s: string, q: char)
    requires !HasTriple(s, q) && off + |s| <= |line|
    requires forall k :: 0 <= k < |s| ==> line[off + k] == s[k]
    ensures NoTripleWithin(line, off, off + |s|, q)
  {
    forall j | off <= j && j + 3 <= off + |s|
      ensures !(line[j] == q && line[j + 1] == q && line[j + 2] == q)
    {
      var k := j - off;
      assert line[off + k] == s[k] && line[off + (k + 1)] == s[k + 1] && line[off + (k + 2)] == s[k + 2];
    }
  }

  /** The closing line of a triple-quoted value: everything before the quotes belongs to the value. */
  lemma ClosingLine(line: string, off: nat, s: string, q: char)
    requires q == '\'' || q == '"'
    requires !HasTriple(s, q) && '\n' !in s && off + |s| + 3 == |line|
    requires line[off..off + |s|] == s && line[off + |s|..] == Thrice(q)
    ensures TripleEnd(line, off, q) == Some(off + |s|)
  {
    forall k | 0 <= k < |s|
      ensures line[off + k] == s[k]
    {
      assert line[off + k] == line[off..off + |s|][k];
    }
    ShiftedTriple(line, off, s, q);
    assert line[|line| - 3..][0] == line[|line| - 3] && line[|line| - 3..][1] == line[|line| - 2];
    assert line[|line| - 3..][2] == line[|line| - 1];
    TripleEndsLine(line, off, q);
  }

  lemma CloseAtOnce(sofar: string, last: string, q: char)
    requires q == '\'' || q == '"'
    requires !HasTriple(last, q) && '\n' !in last
    ensures CloseTriple(sofar, [last + Thrice(q)], q) == Ok(sofar + "\n" + last)
  {
    var line := last + Thrice(q);
    HasThrice(last, q);
    assert line[0..|last|] == last && line[|last|..] == Thrice(q);
    ClosingLine(line, 0, last, q);
    assert line[..|last|] == last;
  }

  lemma {:induction false} CloseLines(sofar: string, mid: seq<string>, last: string, q: char)
    requires q == '\'' || q == '"'
    requires (forall k :: 0 <= k < |mid| ==> !HasTriple(mid[k], q)) && !HasTriple(last, q) && '\n' !in last
    ensures CloseTriple(sofar, mid + [last + Thrice(q)], q) == Ok(sofar + Rejoin(mid + [last]))
    decreases |mid|
  {
    var lines := mid + [last + Thrice(q)];
    if mid == [] {
      CloseAtOnce(sofar, last, q);
      assert lines == [last + Thrice(q)] && mid + [last] == [last];
      assert sofar + Rejoin([last]) == sofar + "\n" + last;
    } else {
      var sofar' := sofar + "\n" + mid[0];
      CloseLines(sofar', mid[1..], last, q);
      assert lines[1..] == mid[1..] + [last + Thrice(q)] && (mid + [last])[1..] == mid[1..] + [last];
      assert sofar' + Rejoin(mid[1..] + [last]) == sofar + Rejoin(mid + [last]);
    }
  }

  /** The opening line of a value that goes on below it. */
  lemma OpeningLine(s: string, lines: seq<string>, q: char)
    requires q == '\'' || q == '"'
    requires !HasTriple(s, q)
    ensures OpensTriple(Thrice(q) + s)
    ensures MultilineValue(Thrice(q) + s, lines) == CloseTriple(s, lines, q)
  {
    var value := Thrice(q) + s;
    assert value[3..] == s && value[..3] == Thrice(q);
    ShiftedTriple(value, 3, s, q);
    NoTripleEnd(value, 3, q);
  }

  lemma SingleLineTriple(s: string, lines: seq<string>, q: char)
    requires q == '\'' || q == '"'
    requires !HasTriple(s, q) && '\n' !in s
    ensures OpensTriple(Thrice(q) + s + Thrice(q))
    ensures MultilineValue(Thrice(q) + s + Thrice(q), lines) == Ok(s)
  {
    var value := Thrice(q) + s + Thrice(q);
    assert value[..3] == Thrice(q) && value[3..3 + |s|] == s && value[3 + |s|..] == Thrice(q);
    ClosingLine(value, 3, s, q);
  }

  lemma BlankThenValue(value: string, lines: seq<string>)
    requires OpensTriple(value)
    ensures ReadValue(" " + value, lines) ==
            match MultilineValue(value, lines) case Ok(s) => Ok(Text(s)) case Err(e) => Err(e)
  {
    var first := " " + value;
    assert value[0] == value[..3][0];
    assert first[1] == value[0];
    assert SpaceEnd(first, 0) == 1;
    assert first[1..] == value;
  }

  function Opening(q: char): string { " " + Thrice(q) }

  /** The lines of a value between an opening and a closing text. */
  function Enclosed(open: string, segs: seq<string>, close: string): seq<string>
    requires segs != []
  {
    if |segs| == 1 then [open + segs[0] + close] else [open + segs[0]] + Lengthened(segs[1..], close)
  }

  /** The lines of a triple-quoted value. */
  lemma EnclosedLines(open: string, s: string, close: string)
    requires '\n' !in open && '\n' !in close
    ensures Lines(open + (s + close)) == Enclosed(open, Lines(s), close)
  {
    hide Lines;
    var segs := Lines(s);
    LinesSuffix(s, close);
    LinesPrefix(open, s + close);
    var ls := Lines(s + close);
    if |segs| == 1 {
      assert open + (segs[0] + close) == open + segs[0] + close;
    } else {
      assert ls[0] == segs[0] && ls[1..] == Lengthened(segs[1..], close);
    }
  }

  lemma TripleText(s: string, q: char)
    ensures " " + (Thrice(q) + s + Thrice(q)) == Opening(q) + (s + Thrice(q))
  {
  }

  /** A value that goes on below its first line. */
  lemma LongTriple(segs: seq<string>, n: nat, q: char)
    requires q == '\'' || q == '"'
    requires 0 < n == |segs| - 1
    requires forall k :: 0 <= k <= n ==> !HasTriple(segs[k], q) && '\n' !in segs[k]
    ensures ReadValue(Opening(q) + segs[0], Lengthened(segs[1..], Thrice(q))) == Ok(Text(segs[0] + Rejoin(segs[1..])))
  {
    hide ReadValue, MultilineValue, CloseTriple, HasTriple, Rejoin, Thrice;
    var rest := segs[1..n] + [segs[n] + Thrice(q)];
    assert Lengthened(segs[1..], Thrice(q)) == rest by { assert segs[1..][..n - 1] == segs[1..n]; }
    OpeningLine(segs[0], rest, q);
    CloseLines(segs[0], segs[1..n], segs[n], q);
    assert segs[1..n] + [segs[n]] == segs[1..];
    BlankThenValue(Thrice(q) + segs[0], rest);
    assert " " + (Thrice(q) + segs[0]) == Opening(q) + segs[0];
  }

  /** All lines but the last without the carriage returns they end in. */
  function StripUpper(lines: seq<string>): (r: seq<string>)
    requires lines != []
    ensures |r| == |lines| && r[|r| - 1] == lines[|r| - 1]
    ensures forall k :: 0 <= k < |r| - 1 ==> r[k] == StripEnd(lines[k])
  {
    if |lines| == 1 then lines else [StripEnd(lines[0])] + StripUpper(lines[1..])
  }

  /** A string without the carriage returns in front of its line ends. */
  function DropReturns(s: string): string {
    var kept := StripUpper(Lines(s));
    kept[0] + Rejoin(kept[1..])
  }

  /** Some line that is not the last one ends in a carriage return. */
  predicate HasCrLf(s: string) {
    exists i :: 0 <= i < |s| - 1 && s[i] == '\r' && s[i + 1] == '\n'
  }

  lemma {:induction false} StripBehind(a: string, b: string)
    requires a != "" && EndKept(a)
    ensures StripEnd(a + b) == a + StripEnd(b)
    decreases |b|
  {
    if b == "" {
      assert a + b == a;
    } else {
      assert (a + b)[..|a + b| - 1] == a + b[..|b| - 1] && (a + b)[|a + b| - 1] == b[|b| - 1];
      StripBehind(a, b[..|b| - 1]);
      assert b[..|b| - 1] + [b[|b| - 1]] == b;
    }
  }

  lemma {:induction false} StripPrefix(line: string)
    ensures StripEnd(line) <= line && (StripEnd(line) == line <==> EndKept(line))
  {
    if !EndKept(line) { StripPrefix(line[..|line| - 1]); }
  }

  lemma StrippedHoldsNoTriple(line: string, q: char)
    requires !HasTriple(line, q) && '\n' !in line
    ensures !HasTriple(StripEnd(line), q) && '\n' !in StripEnd(line)
  {
    StripPrefix(line);
    var t := StripEnd(line);
    assert forall i :: 0 <= i < |t| ==> t[i] == line[i];
  }

  /** The lines below the first, as they are loaded. */
  lemma {:induction false} LoadedBelow(segs: seq<string>, close: string)
    requires segs != [] && close != "" && EndKept(close)
    ensures StripAll(Lengthened(segs, close)) == Lengthened(StripUpper(segs), close)
  {
    hide StripEnd, StripAll, StripUpper, EndKept, Lengthened;
    LengthenedFirst(segs, close);
    LengthenedFirst(StripUpper(segs), close);
    if |segs| == 1 {
      KeptBehind(segs[0], close);
      LoadedOne(segs[0] + close);
    } else {
      LoadedBelow(segs[1..], close);
      UpperFirst(segs);
      StripFirst(segs[0], Lengthened(segs[1..], close));
    }
  }

  lemma LengthenedFirst(segs: seq<string>, close: string)
    requires segs != []
    ensures Lengthened(segs, close) ==
            if |segs| == 1 then [segs[0] + close] else [segs[0]] + Lengthened(segs[1..], close)
  {
  }

  lemma KeptBehind(a: string, close: string)
    requires close != "" && EndKept(close)
    ensures EndKept(a + close)
  {
  }

  lemma LoadedOne(line: string)
    requires EndKept(line)
    ensures StripAll([line]) == [line]
  {
    StripPrefix(line);
    assert [line][1..] == [] && StripAll([]) == [];
  }

  lemma StripFirst(first: string, below: seq<string>)
    ensures StripAll([first] + below) == [StripEnd(first)] + StripAll(below)
  {
    assert ([first] + below)[1..] == below;
  }

  lemma UpperFirst(segs: seq<string>)
    requires |segs| > 1
    ensures StripUpper(segs)[0] == StripEnd(segs[0]) && StripUpper(segs)[1..] == StripUpper(segs[1..])
  {
  }

  lemma LoadedMore(open: string, segs: seq<string>, close: string)
    requires |segs| > 1 && open != "" && EndKept(open) && close != "" && EndKept(close)
    ensures StripAll(Enclosed(open, segs, close)) == Enclosed(open, StripUpper(segs), close)
  {
    hide StripEnd, StripAll, StripUpper, EndKept, Lengthened;
    StripFirst(open + segs[0], Lengthened(segs[1..], close));
    StripBehind(open, segs[0]);
    LoadedBelow(segs[1..], close);
    UpperFirst(segs);
  }

  /** The lines of a triple-quoted value, as they are loaded. */
  lemma LoadedLines(open: string, segs: seq<string>, close: string)
    requires segs != [] && open != "" && EndKept(open) && close != "" && EndKept(close)
    ensures StripAll(Enclosed(open, segs, close)) == Enclosed(open, StripUpper(segs), close)
  {
    hide StripEnd, StripAll, StripUpper;
    if |segs| == 1 {
      LoadedOne(open + segs[0] + close);
    } else {
      LoadedMore(open, segs, close);
    }
  }

  /** A triple-quoted value as it is loaded. */
  lemma TripleReread(s: string, q: char)
    requires q == '\'' || q == '"'
    ensures var lines := Enclosed(Opening(q), StripUpper(Lines(s)), Thrice(q));
            Reread(Thrice(q) + s + Thrice(q)) == ReadValue(lines[0], lines[1..])
  {
    hide ReadValue, StripUpper, StripAll, Enclosed;
    TripleText(s, q);
    EnclosedLines(Opening(q), s, Thrice(q));
    LoadedLines(Opening(q), Lines(s), Thrice(q));
  }

  lemma TripleOnOneLine(s: string, q: char)
    requires (q == '\'' || q == '"') && !HasTriple(s, q) && Lines(s) == [s]
    ensures Reread(Thrice(q) + s + Thrice(q)) == Ok(Text(s))
  {
    hide Reread, ReadValue, HasTriple, StripUpper;
    TripleReread(s, q);
    SingleLineTriple(s, [], q);
    BlankThenValue(Thrice(q) + s + Thrice(q), []);
    TripleText(s, q);
    assert Opening(q) + (s + Thrice(q)) == Opening(q) + s + Thrice(q);
    assert [Opening(q) + s + Thrice(q)][1..] == [];
  }

  lemma TripleOverLines(s: string, q: char, kept: seq<string>)
    requires (q == '\'' || q == '"') && !HasTriple(s, q) && |Lines(s)| > 1 && kept == StripUpper(Lines(s))
    ensures Reread(Thrice(q) + s + Thrice(q)) == Ok(Text(kept[0] + Rejoin(kept[1..])))
  {
    hide Reread, ReadValue, StripEnd, HasTriple, StripUpper, Rejoin;
    TripleReread(s, q);
    LinesHoldNoTriple(s, q);
    var n := |kept| - 1;
    forall k | 0 <= k <= n
      ensures !HasTriple(kept[k], q) && '\n' !in kept[k]
    {
      StrippedHoldsNoTriple(Lines(s)[k], q);
    }
    LongTriple(kept, n, q);
    var below := Lengthened(kept[1..], Thrice(q));
    assert ([Opening(q) + kept[0]] + below)[1..] == below;
  }

  /** A triple-quoted value is read back, over however many lines, without the carriage returns at their ends. */
  lemma TripleValue(s: string, q: char)
    requires q == '\'' || q == '"'
    requires !HasTriple(s, q)
    ensures Reread(Thrice(q) + s + Thrice(q)) == Ok(Text(DropReturns(s)))
  {
    hide Reread, HasTriple;
    var segs := Lines(s);
    if |segs| == 1 {
      LinesRejoin(s);
      assert segs == [s] by { assert segs[0] + Rejoin([]) == segs[0]; }
      TripleOnOneLine(s, q);
      assert s + Rejoin([]) == s;
    } else {
      TripleOverLines(s, q, StripUpper(segs));
    }
  }

  predicate SomeReturn(lines: seq<string>) {
    |lines| > 1 && (!EndKept(lines[0]) || SomeReturn(lines[1..]))
  }

  lemma RejoinFirst(lines: seq<string>)
    requires lines != []
    ensures |Rejoin(lines)| == 1 + |lines[0]| + |Rejoin(lines[1..])|
  {
  }

  lemma {:induction false} StripShortens(lines: seq<string>)
    requires lines != []
    ensures if SomeReturn(lines) then |Rejoin(StripUpper(lines))| < |Rejoin(lines)| else StripUpper(lines) == lines
  {
    hide StripEnd, Rejoin, EndKept, StripUpper;
    var kept := StripUpper(lines);
    if |lines| > 1 {
      StripPrefix(lines[0]);
      StripShortens(lines[1..]);
      UpperFirst(lines);
      RejoinFirst(lines);
      RejoinFirst(kept);
      assert [lines[0]] + lines[1..] == lines && [kept[0]] + kept[1..] == kept;
    } else {
      assert kept == lines;
    }
  }

  /** A line that is not the last one ends in a carriage return exactly where the string has one before a line end. */
  lemma {:induction false} ReturnsInLines(s: string)
    ensures HasCrLf(s) <==> SomeReturn(Lines(s))
  {
    if s != "" {
      var rest, all := Lines(s[1..]), Lines(s);
      ReturnsInLines(s[1..]);
      CrLfBehind(s);
      FirstEmpty(s[1..]);
      assert all[1..] == if s[0] == '\n' then rest else rest[1..];
    }
  }

  lemma CrLfBehind(s: string)
    requires s != ""
    ensures HasCrLf(s) <==> HasCrLf(s[1..]) || (s[0] == '\r' && |s| > 1 && s[1] == '\n')
  {
    var t := s[1..];
    if i :| 0 <= i < |s| - 1 && s[i] == '\r' && s[i + 1] == '\n' {
      assert i > 0 ==> t[i - 1] == '\r' && t[i] == '\n';
    }
    if i :| 0 <= i < |t| - 1 && t[i] == '\r' && t[i + 1] == '\n' {
      assert s[i + 1] == '\r' && s[i + 2] == '\n';
    }
  }

  lemma FirstEmpty(t: string)
    ensures |Lines(t)| > 1 && Lines(t)[0] == "" <==> t != "" && t[0] == '\n'
  {
  }

  /** Nothing is dropped exactly when no carriage return stands before a line end. */
  lemma DropsNothing(s: string)
    ensures DropReturns(s) == s <==> !HasCrLf(s)
  {
    var segs := Lines(s);
    var kept := StripUpper(segs);
    LinesRejoin(s);
    ReturnsInLines(s);
    StripShortens(segs);
    assert Rejoin(segs) == "\n" + s by {
      assert "\n" + segs[0] + Rejoin(segs[1..]) == "\n" + (segs[0] + Rejoin(segs[1..]));
    }
    assert |Rejoin(kept)| == |"\n" + kept[0] + Rejoin(kept[1..])|;
  }

  // ---------------------------------------------------------------- the round trip

  /** A string is read back when it is not written bare with a blank at one end that `wspace_plus` overlooks. */
  lemma TextRoundTrip(s: string, writeEmptyValues: bool, text: string)
    requires Quote(Text(s), writeEmptyValues) == Ok(text) && CleanEnds(s, true)
    ensures Reread(text) == Ok(Text(DropReturns(s)))
  {
    hide DropReturns, Reread, HasCrLf;
    if s == "" || '\n' !in s { OneLineKept(s); }
    if writeEmptyValues && s == "" {
      EmptyText();
    } else if s != "" && ChooseStyle(s, true).value == TripleSingle {
      TripleValue(s, '\'');
    } else if s != "" && ChooseStyle(s, true).value == TripleDouble {
      TripleValue(s, '"');
    } else {
      var style := MemberStyle(s, true, text);
      SingleMember(style, s);
      PlainText(style, s, "");
      assert Apply(style, s) + "" == Apply(style, s);
    }
  }

  lemma OneLineKept(s: string)
    requires '\n' !in s
    ensures DropReturns(s) == s && !HasCrLf(s)
  {
    DropsNothing(s);
  }

  lemma JoinFirst(first: string, parts: seq<string>)
    requires parts != []
    ensures Join([first] + parts) == first + ", " + Join(parts)
  {
    assert ([first] + parts)[1..] == parts;
  }

  lemma JoinOne(part: string)
    ensures Join([part]) == part
  {
  }

  lemma NoMembers(items: seq<string>)
    requires items == []
    ensures QuoteMembers(items) == Ok([])
  {
  }

  lemma MembersFirst(items: seq<string>)
    requires items != [] && QuoteMembers(items).Ok?
    ensures QuoteText(items[0], false).Ok? && QuoteMembers(items[1..]).Ok?
    ensures QuoteMembers(items).value == [QuoteText(items[0], false).value] + QuoteMembers(items[1..]).value
  {
  }

  /** The text of a list that the writer accepts. */
  lemma {:induction false} ListText(items: seq<string>) returns (ms: Members, style: Style)
    requires items != [] && QuoteMembers(items).Ok? && forall k :: 0 <= k < |items| ==> CleanEnds(items[k], false)
    ensures AllFit(ms) && Fits(style, items[|items| - 1]) && items == Texts(ms) + [items[|items| - 1]]
    ensures QuoteMembers(items) == Ok(Quoted(ms) + [Apply(style, items[|items| - 1])])
    ensures Join(Quoted(ms) + [Apply(style, items[|items| - 1])]) == Listing(ms, Apply(style, items[|items| - 1]))
    decreases |items|
  {
    hide Fits, Apply, CleanEnds, QuoteText, QuoteMembers, Join;
    MembersFirst(items);
    var first := MemberStyle(items[0], false, QuoteText(items[0], false).value);
    var last := items[|items| - 1];
    if |items| == 1 {
      ms, style := Done, first;
      NoMembers(items[1..]);
      assert Quoted(ms) + [Apply(style, last)] == [Apply(first, items[0])] == [Apply(first, items[0])] + [];
      JoinOne(Apply(style, last));
    } else {
      var rest, st := ListText(items[1..]);
      ms, style := Member(first, items[0], rest), st;
      assert items == [items[0]] + items[1..];
      var parts := Quoted(rest) + [Apply(style, last)];
      assert Quoted(ms) + [Apply(style, last)] == [Apply(first, items[0])] + parts;
      JoinFirst(Apply(first, items[0]), parts);
      assert items[1..][|items| - 2] == last;
      assert QuoteMembers(items[1..]) == Ok(parts);
    }
  }

  lemma OneRoundTrip(style: Style, item: string)
    requires Fits(style, item)
    ensures Reread(Apply(style, item) + ",") == Ok(List([item]))
  {
    OneMember(style, item);
    PlainText(style, item, ",");
  }

  lemma ListingRest(ms: Members, tail: string) returns (rest: string)
    requires AllFit(ms) && ms.Member? && '\n' !in tail && tail != "" && EndKept(tail)
    ensures Listing(ms, tail) == Apply(ms.style, ms.text) + rest
    ensures rest != "" && rest[0] == ',' && '\n' !in rest && EndKept(rest)
  {
    rest := ", " + Listing(ms.rest, tail);
    ListingEnd(ms.rest, tail);
    ListingOneLine(ms.rest, tail);
  }

  lemma {:induction false} ListingEnd(ms: Members, tail: string)
    requires tail != ""
    ensures Listing(ms, tail) != "" && Listing(ms, tail)[|Listing(ms, tail)| - 1] == tail[|tail| - 1]
  {
    if ms.Member? { ListingEnd(ms.rest, tail); }
  }

  lemma ManyRoundTrip(ms: Members, style: Style, last: string)
    requires AllFit(ms) && ms.Member? && Fits(style, last)
    ensures Reread(Listing(ms, Apply(style, last))) == Ok(List(Texts(ms) + [last]))
  {
    ManyMembers(ms, style, last);
    ApplyOneLine(style, last);
    LastChar(style, last);
    var rest := ListingRest(ms, Apply(style, last));
    PlainText(ms.style, ms.text, rest);
  }

  /** A list is read back when none of its members is written bare with an overlooked blank at one end. */
  lemma ListRoundTrip(items: seq<string>, writeEmptyValues: bool, text: string)
    requires Quote(List(items), writeEmptyValues) == Ok(text)
    requires forall k :: 0 <= k < |items| ==> CleanEnds(items[k], false)
    ensures Reread(text) == Ok(List(items))
  {
    if items == [] {
      EmptyList();
    } else {
      hide Fits, Apply, Reread, CleanEnds;
      var ms, style := ListText(items);
      var last := items[|items| - 1];
      if ms == Done {
        OneRoundTrip(style, last);
        assert items == [last] && Quoted(ms) + [Apply(style, last)] == [Apply(style, last)];
      } else {
        ManyRoundTrip(ms, style, last);
      }
    }
  }

  lemma EmptyText()
    ensures Reread("") == Ok(Text(""))
  {
    OneLineReread("");
    assert " " + "" == " ";
    assert SpaceEnd(" ", 0) == 1 && " "[1..] == "";
    assert LastEnds("", 0) == Stop(0, NoStop);
    assert MatchTail("", 0) == LastUpTo(0);
    assert ItemEnds("", 0) == NoStop;
    assert MatchItems("", 0) == Some(0);
    assert "\"\""[1..1] == "";
  }

  lemma EmptyList()
    ensures Reread(",") == Ok(List([]))
  {
    OneLineReread(",");
    assert " ," == " " + ",";
    assert SpaceEnd(" ,", 0) == 1 && " ,"[1..] == ",";
    assert LastEnds(",", 0) == Stop(0, NoStop);
    assert FirstThatEnds(",", Stop(0, NoStop)) == FirstThatEnds(",", NoStop) == None;
    assert ItemEnds(",", 0) == NoStop;
    assert MatchItems(",", 0) == None;
  }

  // ---------------------------------------------------------------- and when it fails

  lemma {:induction false} StopsEarly(s: string, i: nat, m: nat, more: Stops)
    requires i <= m <= |s| && OnlyComment(s, m) && forall k :: i <= k < m ==> s[k] != ','
    ensures var r := FirstThatEnds(s, Append(RunEnds(s, i, ","), more)); r.Some? && r.value <= m
    decreases m - i
  {
    if i < m { StopsEarly(s, i + 1, m, more); }
  }

  lemma ShortText(s: string)
    ensures match HandleValue(s) case Ok(Text(x)) => |x| <= |s| case _ => true
  {
  }

  lemma ShortMultiline(value: string)
    requires OpensTriple(value)
    ensures match MultilineValue(value, []) case Ok(x) => |x| <= |value| case _ => true
  {
  }

  lemma LeadingBlankLost(s: string)
    requires s != "" && IsSpace(s[0])
    ensures ReadValue(" " + s, []) != Ok(Text(s))
  {
    var line := " " + s;
    assert line[1] == s[0] && SpaceEnd(line, 0) >= 2;
    var value := line[SpaceEnd(line, 0)..];
    ShortText(value);
    if OpensTriple(value) { ShortMultiline(value); }
  }

  lemma TrailingBlankLost(s: string)
    requires |s| >= 2 && !IsSpace(s[0]) && IsSpace(s[|s| - 1]) && s[0] != '\'' && s[0] != '"' && ',' !in s
    requires s[0] != '#'
    ensures HandleValue(s) != Ok(Text(s))
  {
    hide IsSpace, ItemEnds, FindAll, UnquoteAll;
    StopsEarly(s, 1, |s| - 1, Stop(0, NoStop));
    assert LastEnds(s, 0) == Append(RunEnds(s, 1, ","), Stop(0, NoStop));
  }

  lemma BlankThenPlain(s: string)
    requires s != "" && !IsSpace(s[0]) && s[0] != '\'' && s[0] != '"'
    ensures ReadValue(" " + s, []) == HandleValue(s)
  {
    var line := " " + s;
    assert line[1] == s[0] && SpaceEnd(line, 0) == 1 && line[1..] == s;
    BareNotTriple(s);
  }

  lemma PlainReread(s: string)
    requires s != "" && !IsSpace(s[0]) && s[0] != '\'' && s[0] != '"' && '\n' !in s && EndKept(s)
    ensures Reread(s) == HandleValue(s)
  {
    BlankThenPlain(s);
    OneLineReread(s);
  }

  lemma BareStyle(s: string, multiline: bool)
    requires s != "" && ChooseStyle(s, multiline) == Ok(Bare)
    ensures s[0] != '\'' && s[0] != '"' && ',' !in s && '#' !in s && '\n' !in s && EndKept(s)
  {
    assert '\r' in WSPACE_PLUS by { assert WSPACE_PLUS[1] == '\r'; }
    assert '\'' in WSPACE_PLUS by { assert WSPACE_PLUS[5] == '\''; }
    assert '"' in WSPACE_PLUS by { assert WSPACE_PLUS[6] == '"'; }
  }

  /** A string written bare whose end is an overlooked blank is read back without it, or not at all. */
  lemma TextLosesBlanks(s: string, writeEmptyValues: bool, text: string)
    requires Quote(Text(s), writeEmptyValues) == Ok(text) && !CleanEnds(s, true)
    ensures Reread(text) != Ok(Text(s))
  {
    BareStyle(s, true);
    assert text == s;
    hide ChooseStyle, Quote, Reread, ReadValue, HandleValue, EndKept;
    OneLineReread(s);
    if IsSpace(s[0]) {
      LeadingBlankLost(s);
    } else {
      assert s[0] in s;
      PlainReread(s);
      TrailingBlankLost(s);
    }
  }

  lemma BareNotTriple(s: string)
    requires s != "" && s[0] != '\'' && s[0] != '"'
    ensures !OpensTriple(s)
  {
    if |s| >= 3 { assert s[..3][0] == s[0]; }
  }

  /**
   Every string the writer accepts is read back exactly when no carriage return stands before one of its line ends
   and it is not written bare with, at one end, a blank that `wspace_plus` leaves out (a form feed, for instance).
   */
  lemma TextRoundTripExactly(s: string, writeEmptyValues: bool, text: string)
    requires Quote(Text(s), writeEmptyValues) == Ok(text)
    ensures Reread(text) == Ok(Text(s)) <==> CleanEnds(s, true) && !HasCrLf(s)
  {
    if CleanEnds(s, true) {
      TextRoundTrip(s, writeEmptyValues, text);
      DropsNothing(s);
    } else {
      TextLosesBlanks(s, writeEmptyValues, text);
    }
  }

  /** A string is refused only when it holds both triple quotes. */
  lemma TextRefused(s: string, writeEmptyValues: bool)
    ensures Quote(Text(s), writeEmptyValues) == Err(CannotQuote)
       <==> HasTriple(s, '"') && HasTriple(s, '\'')
  {
    if HasTriple(s, '"') { assert '"' in s; }
    if HasTriple(s, '\'') { assert '\'' in s; }
  }

  /** "a" and a form feed, written bare, comes back as "a". */
  lemma FormFeedLost()
    ensures Quote(Text("a\U{000C}"), false) == Ok("a\U{000C}")
    ensures Reread("a\U{000C}") != Ok(Text("a\U{000C}"))
  {
    TextRoundTripExactly("a\U{000C}", false, "a\U{000C}");
  }

  lemma ReturnDropped()
    ensures DropReturns("a\r\nb") == "a\nb"
  {
    var below := "\nb";
    assert "a\r\nb" == "a\r" + below && below[1..] == "b";
    OneLine("b");
    LinesPrefix("a\r", below);
    assert "a\r" + "" == "a\r";
    assert Lines("a\r\nb") == ["a\r", "b"];
    assert "a\r"[..1] == "a";
    assert ["a\r", "b"][1..] == ["b"];
    assert StripUpper(["a\r", "b"]) == ["a", "b"];
    assert ["a", "b"][1..] == ["b"] && ["b"][1..] == [];
  }

  /** A carriage return before a line end is written between triple quotes and lost by the loader. */
  lemma CarriageReturnLost(s: string, text: string)
    requires s == "a\r\nb" && text == Thrice('\'') + s + Thrice('\'')
    ensures Quote(Text(s), false) == Ok(text)
    ensures Reread(text) == Ok(Text("a\nb"))
  {
    hide DropReturns, Reread, Lines;
    assert s[2] == '\n';
    ReturnDropped();
    TripleValue(s, '\'');
  }
}
