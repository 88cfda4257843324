/** Lists with a member that is written bare with an overlooked blank at one end are never read back as they were. */
module ConfigQuoteLists {
  import opened Prelude
  import opened ConfigQuote
  import opened ConfigQuoteMatching
  import opened ConfigQuoteRoundTrip

  // ---------------------------------------------------------------- the items end after a comma

  /** A comma at or after `lo` and then only blanks lead up to `e`. */
  ghost predicate AfterComma(s: string, lo: nat, e: nat) {
    e <= |s| && exists c :: lo <= c < e && s[c] == ',' && forall m :: c < m < e ==> IsSpace(s[m])
  }

  ghost predicate AllAfterComma(s: string, lo: nat, stops: Stops) {
    match stops
    case NoStop => true
    case Stop(e, more) => AfterComma(s, lo, e) && AllAfterComma(s, lo, more)
  }

  ghost predicate AllFrom(lo: nat, stops: Stops) {
    match stops
    case NoStop => true
    case Stop(e, more) => lo <= e && AllFrom(lo, more)
  }

  lemma {:induction false} AppendFrom(lo: nat, a: Stops, b: Stops)
    requires AllFrom(lo, a) && AllFrom(lo, b)
    ensures AllFrom(lo, Append(a, b))
  {
    if a.Stop? { AppendFrom(lo, a.more, b); }
  }

  lemma {:induction false} AppendAfterComma(s: string, lo: nat, a: Stops, b: Stops)
    requires AllAfterComma(s, lo, a) && AllAfterComma(s, lo, b)
    ensures AllAfterComma(s, lo, Append(a, b))
  {
    hide AfterComma;
    if a.Stop? { AppendAfterComma(s, lo, a.more, b); }
  }

  lemma {:induction false} CloseEndsFrom(s: string, i: nat, q: char, lo: nat)
    requires lo <= i
    ensures AllFrom(lo, CloseEnds(s, i, q))
    decreases |s| - i
  {
    if i < |s| { CloseEndsFrom(s, i + 1, q, lo); }
  }

  lemma {:induction false} RunEndsFrom(s: string, i: nat, excluded: string, lo: nat)
    requires lo <= i
    ensures AllFrom(lo, RunEnds(s, i, excluded))
    decreases |s| - i
  {
    if i < |s| { RunEndsFrom(s, i + 1, excluded, lo); }
  }

  lemma {:induction false} DownAfterComma(s: string, lo: nat, c: nat, hi: nat)
    requires lo <= c < hi <= |s| && s[c] == ',' && forall m :: c < m < hi ==> IsSpace(s[m])
    ensures AllAfterComma(s, lo, Down(c + 1, hi))
    decreases hi
  {
    if c + 1 < hi { DownAfterComma(s, lo, c, hi - 1); }
  }

  lemma {:induction false} CommasAfter(s: string, lo: nat, starts: Stops)
    requires AllFrom(lo, starts)
    ensures AllAfterComma(s, lo, CommaAfter(s, starts))
  {
    hide AfterComma, Down;
    if starts.Stop? {
      CommasAfter(s, lo, starts.more);
      if starts.at <= |s| {
        var k := SpaceEnd(s, starts.at);
        if k < |s| && s[k] == ',' { DownAfterComma(s, lo, k, SpaceEnd(s, k + 1)); }
      }
      AppendAfterComma(s, lo, CommaEnds(s, starts.at), CommaAfter(s, starts.more));
    }
  }

  lemma ItemsAfterComma(s: string, i: nat)
    ensures AllAfterComma(s, i, ItemEnds(s, i))
  {
    hide AllAfterComma, CommaAfter;
    var unquoted := if i < |s| && s[i] !in "'\",#" then RunEnds(s, i + 1, ",#") else NoStop;
    RunEndsFrom(s, i + 1, ",#", i);
    CloseEndsFrom(s, i + 1, '"', i);
    CloseEndsFrom(s, i + 1, '\'', i);
    AppendFrom(i, QuotedEnds(s, i, '\''), unquoted);
    AppendFrom(i, QuotedEnds(s, i, '"'), Append(QuotedEnds(s, i, '\''), unquoted));
    CommasAfter(s, i, Alternatives(s, i, unquoted));
  }

  lemma {:induction false} MatchedAfterComma(s: string, i: nat)
    requires i <= |s| && MatchItems(s, i).Some?
    ensures MatchItems(s, i).value == i || AfterComma(s, i, MatchItems(s, i).value)
    decreases |s| - i, 1, NoStop
  {
    hide ItemEnds, MatchTail, AfterComma;
    ItemsAfterComma(s, i);
    if TryItems(s, i, ItemEnds(s, i)).Some? { TriedAfterComma(s, i, ItemEnds(s, i)); }
  }

  lemma {:induction false} TriedAfterComma(s: string, i: nat, ends: Stops)
    requires i <= |s| && AllAfterComma(s, i, ends) && TryItems(s, i, ends).Some?
    ensures AfterComma(s, i, TryItems(s, i, ends).value)
    decreases |s| - i, 0, ends
  {
    hide MatchTail, AfterComma;
    var e := ends.at;
    if i < e <= |s| && MatchItems(s, e).Some? {
      MatchedAfterComma(s, e);
      if MatchItems(s, e).value != e { AfterLower(s, i, e, MatchItems(s, e).value); }
    } else {
      TriedAfterComma(s, i, ends.more);
    }
  }

  lemma AfterLower(s: string, lo: nat, hi: nat, e: nat)
    requires lo <= hi && AfterComma(s, hi, e)
    ensures AfterComma(s, lo, e)
  {
  }

  // ---------------------------------------------------------------- tokens of a text cut behind a comma

  lemma {:induction false} FindItemLater(s: string, starts: Stops, more: Stops)
    requires FindItem(s, more).Some?
    ensures FindItem(s, Append(starts, more)).Some?
  {
    hide CommaEnds;
    if starts.Stop? { FindItemLater(s, starts.more, more); }
  }

  /** A lazy run finds an end at a comma ahead, or before it. */
  lemma {:induction false} RunFindsBefore(s: string, i: nat, c: nat)
    requires i <= c < |s| && CommaEnds(s, c).Stop? && forall k :: i <= k < c ==> s[k] != '\n'
    ensures FindItem(s, RunEnds(s, i, "\n")).Some?
    ensures var e := FindItem(s, RunEnds(s, i, "\n")).value.0; i <= e <= c && CommaEnds(s, e).Stop?
    decreases c - i
  {
    hide CommaEnds;
    if i < c && CommaEnds(s, i) == NoStop { RunFindsBefore(s, i + 1, c); }
  }

  lemma CommaStops(s: string, c: nat)
    requires c < |s| && s[c] == ','
    ensures CommaEnds(s, c).Stop?
  {
    CommaHere(s, c);
  }

  /** With a comma ahead `findall` takes a token right where it stands. */
  lemma TokenHere(s: string, i: nat, c: nat) returns (b: nat, rest: seq<string>)
    requires i <= c < |s| && s[c] == ',' && '\n' !in s
    ensures FindItem(s, ItemStarts(s, i)).Some? && FindItem(s, ItemStarts(s, i)).value.0 == b
    ensures FindAll(s, i) == [Slice(s, i, b)] + rest
  {
    hide CommaEnds, QuotedEnds, FindItem;
    CommaStops(s, c);
    RunFindsBefore(s, i, c);
    var taking := if i < |s| && s[i] !in "'\",#" then RunEnds(s, i + 1, "\n") else NoStop;
    FindItemLater(s, taking, RunEnds(s, i, "\n"));
    FindItemLater(s, QuotedEnds(s, i, '\''), Append(taking, RunEnds(s, i, "\n")));
    FindItemLater(s, QuotedEnds(s, i, '"'), Append(QuotedEnds(s, i, '\''), Append(taking, RunEnds(s, i, "\n"))));
    var item := FindItem(s, ItemStarts(s, i)).value;
    b := item.0;
    rest := if i < item.1 <= |s| then FindAll(s, item.1) else [];
  }

  lemma UnquoteFacts(token: string)
    requires Unquote(token).Ok?
    ensures |Unquote(token).value| <= |token|
    ensures ',' in token ==> ',' in Unquote(token).value
  {
    if ',' in token {
      var k :| 0 <= k < |token| && token[k] == ',';
      assert Unquote(token).value != token ==> Unquote(token).value[k - 1] == ',';
    }
  }

  lemma FirstUnquoted(token: string, rest: seq<string>)
    requires UnquoteAll([token] + rest).Ok?
    ensures Unquote(token).Ok? && UnquoteAll(rest).Ok?
    ensures UnquoteAll([token] + rest).value == [Unquote(token).value] + UnquoteAll(rest).value
  {
    assert ([token] + rest)[0] == token && ([token] + rest)[1..] == rest;
  }

  // ---------------------------------------------------------------- the members in front

  lemma {:induction false} SpaceEndCut(s: string, i: nat, m: nat)
    requires m <= i <= |s|
    ensures SpaceEnd(s[..i], m) == if SpaceEnd(s, m) < i then SpaceEnd(s, m) else i
    decreases i - m
  {
    if m < i { SpaceEndCut(s, i, m + 1); }
  }

  /** A clean member whose comma is still there is taken whole. */
  lemma MemberTaken(t: string, p: nat, style: Style, v: string, e: nat)
    requires Fits(style, v) && At(t, p, Apply(style, v)) && e == p + |Apply(style, v)|
    requires e < |t| && t[e] == ','
    ensures e + 1 <= SpaceEnd(t, e + 1) <= |t|
    ensures FindAll(t, p) == [Apply(style, v)] + FindAll(t, SpaceEnd(t, e + 1))
  {
    hide Apply, Fits, FindAll, FindItem, ItemEnds, ItemStarts;
    ItemFirst(t, p, style, v, e);
    FindsItem(t, p, e, SpaceEnd(t, e + 1));
  }

  /** Where an opening quote is never closed, only the fallback of the item expression is left. */
  lemma UnclosedStarts(t: string, p: nat, q: char)
    requires q == '\'' || q == '"'
    requires p < |t| && t[p] == q && (forall m :: p < m < |t| ==> t[m] != q)
    ensures ItemStarts(t, p) == RunEnds(t, p, "\n") && CommaEnds(t, p) == NoStop
  {
    NoCloseEnds(t, p + 1, q);
    assert SpaceEnd(t, p) == p;
  }

  lemma UnclosedToken(token: string, q: char)
    requires (q == '\'' || q == '"') && token != "" && token[0] == q && (forall m :: 0 < m < |token| ==> token[m] != q)
    ensures Unquote(token) == Ok(if |token| == 1 then "" else token)
  {
  }

  /** A quoted member that the text is cut inside of, behind a comma of its own, is not read as it was. */
  lemma QuotedCutOff(t: string, p: nat, q: char, v: string, c: nat)
    requires q == '\'' || q == '"'
    requires p < c < |t| && t[c] == ',' && '\n' !in t && t[p] == q && (forall m :: p < m < |t| ==> t[m] != q)
    requires q !in v && v != ""
    ensures match UnquoteAll(FindAll(t, p)) case Ok(found) => found != [] && found[0] != v case Err(_) => true
  {
    hide FindAll, ItemStarts, CommaEnds, RunEnds, Unquote, UnquoteAll, FindItem;
    var b, rest := TokenHere(t, p, c);
    UnclosedStarts(t, p, q);
    CommaStops(t, c);
    RunFindsBefore(t, p, c);
    var token := Slice(t, p, b);
    assert p < b <= c && token == t[p..b] && token[0] == q;
    UnclosedToken(token, q);
    if UnquoteAll([token] + rest).Ok? { FirstUnquoted(token, rest); }
  }

  lemma {:induction false} NoCloseEnds(t: string, i: nat, q: char)
    requires forall m :: i <= m < |t| ==> t[m] != q
    ensures CloseEnds(t, i, q) == NoStop
    decreases |t| - i
  {
    if i < |t| { NoCloseEnds(t, i + 1, q); }
  }

  /** The text is cut inside a clean member: then the member is quoted, and not read as it was. */
  lemma MemberCutOff(s: string, i: nat, p: nat, style: Style, v: string, e: nat)
    requires Fits(style, v) && At(s, p, Apply(style, v)) && e == p + |Apply(style, v)|
    requires p < i <= e && AfterComma(s, 0, i) && '\n' !in s
    ensures match UnquoteAll(FindAll(s[..i], p)) case Ok(found) => found != [] && found[0] != v case Err(_) => true
  {
    hide FindAll, UnquoteAll;
    var a := Apply(style, v);
    var c :| 0 <= c < i && s[c] == ',' && forall m :: c < m < i ==> IsSpace(s[m]);
    FirstChar(style, v);
    AtChar(s, p, a, 0);
    assert p < c;
    AtChar(s, p, a, c - p);
    AtChar(s, p, a, |a| - 1);
    var q := a[0];
    assert a[c - p] == ',' && ',' in a;
    assert a == [q] + v + [q];
    assert s[e - 1] == q && c < e - 1 && i <= e - 1;
    var t := s[..i];
    forall m | p < m < |t|
      ensures t[m] != q
    {
      AtChar(s, p, a, m - p);
      assert a[m - p] == v[m - p - 1];
    }
    assert a[c - p] == v[c - p - 1];
    QuotedCutOff(t, p, q, v, c);
  }

  /** The end of the blanks after a comma, in the text cut at `i`. */
  function Resume(s: string, i: nat, m: nat): nat
    requires m <= i <= |s|
  {
    if SpaceEnd(s, m) < i then SpaceEnd(s, m) else i
  }

  /** If the first token read agrees with a clean member, reading goes on behind the member's comma. */
  lemma FrontStep(s: string, i: nat, p: nat, style: Style, v: string, rest: string, found: seq<string>) returns (e: nat)
    requires Fits(style, v) && Suffix(s, p, Apply(style, v) + ", " + rest)
    requires p <= i <= |s| && AfterComma(s, 0, i) && '\n' !in s
    requires UnquoteAll(FindAll(s[..i], p)) == Ok(found) && found != [] && found[0] == v
    ensures e < i && e + 2 <= |s| && s[e] == ',' && s[e + 1] == ' ' && Suffix(s, e + 2, rest) && |s| == e + 2 + |rest|
    ensures UnquoteAll(FindAll(s[..i], Resume(s, i, e + 1))) == Ok(found[1..])
  {
    hide Fits, Apply, IsSpace, FindAll, UnquoteAll, AfterComma;
    var t := s[..i];
    e := MemberStands(s, p, style, v, rest);
    if i == p { NoTokens(t); }
    assert p < i;
    if i <= e { MemberCutOff(s, i, p, style, v, e); }
    assert e < i;
    assert t[p..e] == s[p..e];
    MemberTaken(t, p, style, v, e);
    SpaceEndCut(s, i, e + 1);
    FirstUnquoted(Apply(style, v), FindAll(t, SpaceEnd(t, e + 1)));
    assert found[1..] == UnquoteAll(FindAll(t, SpaceEnd(t, e + 1))).value;
  }

  /** If the tokens read agree with the clean members in front, the rest of them is read from behind the last of these.
      */
  lemma {:induction false} FrontTokens(s: string, i: nat, p: nat, ms: Members, tail: string,
                                       found: seq<string>, extra: seq<string>, want: seq<string>) returns (q: nat)
    requires AllFit(ms) && Suffix(s, p, Listing(ms, tail)) && p <= i <= |s| && AfterComma(s, 0, i) && '\n' !in s
    requires UnquoteAll(FindAll(s[..i], p)) == Ok(found)
    requires found + extra == Texts(ms) + want && |extra| <= 1 && |want| >= 1
    ensures |tail| <= |s| && q <= i
    ensures ms == Done ==> q == p
    ensures ms.Member? ==>
              var m := |s| - |tail| - 1; 0 < m <= i && s[m - 1] == ',' && s[m] == ' ' && q == Resume(s, i, m)
    ensures |Texts(ms)| <= |found| && UnquoteAll(FindAll(s[..i], q)) == Ok(found[|Texts(ms)|..])
    decreases ms
  {
    hide Fits, Apply, IsSpace, FindAll, UnquoteAll, AfterComma;
    match ms {
      case Done =>
        assert found[0..] == found;
        q := p;
      case Member(style, v, rest) =>
        assert (found + extra)[0] == v && (found + extra)[1..] == found[1..] + extra == Texts(rest) + want;
        var e := FrontStep(s, i, p, style, v, Listing(rest, tail), found);
        q := Resume(s, i, e + 1);
        if rest.Member? {
          NextMember(s, e, rest, tail);
          if i == e + 1 { NoTokens(s[..i]); }
          assert i > e + 1;
          q := FrontTokens(s, i, e + 2, rest, tail, found[1..], extra, want);
          assert found[1..][|Texts(rest)|..] == found[|Texts(ms)|..];
        }
    }
  }

  lemma NoTokens(t: string)
    ensures UnquoteAll(FindAll(t, |t|)) == Ok([])
  {
    NothingFoundAtEnd(t);
  }

  lemma MemberStands(s: string, p: nat, style: Style, v: string, rest: string) returns (e: nat)
    requires Suffix(s, p, Apply(style, v) + ", " + rest)
    ensures e == p + |Apply(style, v)| && e + 2 <= |s| && At(s, p, Apply(style, v)) && s[p..e] == Apply(style, v)
    ensures s[e] == ',' && s[e + 1] == ' ' && Suffix(s, e + 2, rest) && |s| == e + 2 + |rest|
  {
    var t := Apply(style, v) + ", " + rest;
    e := p + |Apply(style, v)|;
    assert |s| == p + |t|;
    assert t[..|Apply(style, v)|] == Apply(style, v);
    assert s[p..e] == s[p..][..e - p];
    assert s[e + 2..] == t[e + 2 - p..] == rest;
    assert s[e] == t[e - p] && s[e + 1] == t[e + 1 - p];
  }

  lemma NextMember(s: string, e: nat, rest: Members, tail: string)
    requires AllFit(rest) && rest.Member? && e + 2 <= |s| && s[e + 1] == ' ' && Suffix(s, e + 2, Listing(rest, tail))
    ensures SpaceEnd(s, e + 1) == e + 2
  {
    FirstChar(rest.style, rest.text);
    assert s[e + 2] == s[e + 2..][0] == Apply(rest.style, rest.text)[0];
  }

  // ---------------------------------------------------------------- the member with the blank

  /** Written bare, with a blank at one end. */
  ghost predicate BlankEnd(u: string) {
    && u != "" && ',' !in u && '#' !in u && '\n' !in u && u[0] != '\'' && u[0] != '"'
    && (IsSpace(u[0]) || IsSpace(u[|u| - 1]))
  }

  /** A list that is read: the tokens before position `i`, and perhaps a last one behind it. */
  lemma ListRead(s: string, items: seq<string>) returns (i: nat, found: seq<string>, extra: seq<string>)
    requires HandleValue(s) == Ok(List(items)) && items != []
    ensures 0 < i <= |s| && AfterComma(s, 0, i)
    ensures UnquoteAll(FindAll(s[..i], 0)) == Ok(found) && items == found + extra && |extra| <= 1
    ensures extra != [] ==>
              && MatchTail(s, i).LastUpTo? && i < MatchTail(s, i).end <= |s|
              && Unquote(s[i..MatchTail(s, i).end]) == Ok(extra[0])
  {
    hide MatchItems, FindAll, UnquoteAll, Unquote, AfterComma, MatchTail;
    MatchedAfterComma(s, 0);
    i := MatchItems(s, 0).value;
    found := UnquoteAll(FindAll(s[..i], 0)).value;
    extra := items[|found|..];
  }

  /** A comma behind `i` comes at or after `q` when `q` stands on something that is no blank. */
  lemma CommaFrom(s: string, i: nat, q: nat) returns (c: nat)
    requires AfterComma(s, 0, i) && q < i && !IsSpace(s[q])
    ensures q <= c < i && s[c] == ','
  {
    c :| 0 <= c < i && s[c] == ',' && forall m :: c < m < i ==> IsSpace(s[m]);
  }

  /** A token that starts too late to be the member either ends short of it or takes the comma behind it along. */
  lemma StartsLate(s: string, i: nat, q: nat, end: nat, u: string, found: seq<string>)
    requires '\n' !in s && AfterComma(s, 0, i) && q < i <= |s| && !IsSpace(s[q])
    requires q <= end <= |s| && (forall k :: q <= k < end ==> s[k] != ',') && (end < |s| ==> s[end] == ',')
    requires end < q + |u| && ',' !in u
    requires UnquoteAll(FindAll(s[..i], q)) == Ok(found)
    ensures end < |s| && found != [] && found[0] != u
  {
    hide FindAll, IsSpace, AfterComma, UnquoteAll, Unquote;
    var c := CommaFrom(s, i, q);
    var t := s[..i];
    var b, rest := TokenHere(t, q, c);
    FirstUnquoted(Slice(t, q, b), rest);
    UnquoteFacts(Slice(t, q, b));
    if found[0] == u { CoversComma(s, i, q, b, end, u); }
  }

  lemma CoversComma(s: string, i: nat, q: nat, b: nat, end: nat, u: string)
    requires q <= end < i <= |s| && end < q + |u| && |u| <= |Slice(s[..i], q, b)|
    ensures s[end] == ',' ==> ',' in Slice(s[..i], q, b)
  {
    assert Slice(s[..i], q, b)[end - q] == s[end];
  }

  /** A member that ends in a blank is read without it. */
  lemma EndsShort(s: string, i: nat, q: nat, u: string, found: seq<string>)
    requires '\n' !in s && AfterComma(s, 0, i) && q < i <= |s|
    requires BlankEnd(u) && !IsSpace(u[0]) && At(s, q, u) && (q + |u| < |s| ==> s[q + |u|] == ',')
    requires UnquoteAll(FindAll(s[..i], q)) == Ok(found)
    ensures q + |u| < |s| && found != [] && found[0] != u
  {
    hide FindAll, IsSpace, AfterComma, UnquoteAll, Unquote, CommaEnds, FindItem, ItemStarts;
    AtChar(s, q, u, 0);
    AtChar(s, q, u, |u| - 1);
    var c := CommaFrom(s, i, q);
    var end := q + |u|;
    forall k | q <= k < end
      ensures s[k] != ','
    {
      AtChar(s, q, u, k - q);
    }
    assert end <= c;
    var t := s[..i];
    var b, rest := TokenHere(t, q, c);
    BlankBeforeComma(t, end - 1);
    BareStarts(t, q);
    RunFindsBefore(t, q + 1, end - 1);
    FindItemPrefix(t, RunEnds(t, q + 1, "\n"), RunEnds(t, q, "\n"));
    FirstUnquoted(Slice(t, q, b), rest);
    UnquoteFacts(Slice(t, q, b));
    assert |Slice(t, q, b)| < |u|;
  }

  lemma BlankBeforeComma(t: string, k: nat)
    requires k + 1 < |t| && IsSpace(t[k]) && t[k + 1] == ','
    ensures CommaEnds(t, k).Stop?
  {
    assert SpaceEnd(t, k) == k + 1;
  }

  lemma BareStarts(t: string, q: nat)
    requires q < |t| && t[q] != '\'' && t[q] != '"' && t[q] != ',' && t[q] != '#'
    ensures ItemStarts(t, q) == Append(RunEnds(t, q + 1, "\n"), RunEnds(t, q, "\n"))
  {
  }

  /** As the last member, too: what is left behind the last comma is shorter than the member. */
  lemma LastShort(s: string, i: nat, p: nat, u: string)
    requires 2 <= p && p + |u| == |s| && At(s, p, u) && s[p - 2] == ',' && s[p - 1] == ' ' && BlankEnd(u)
    requires p - 1 <= i <= |s| && MatchTail(s, i).LastUpTo? && i < MatchTail(s, i).end <= |s|
    ensures MatchTail(s, i).end - i < |u|
  {
    AtChar(s, p, u, 0);
    AtChar(s, p, u, |u| - 1);
    if i <= p {
      if i < p || IsSpace(u[0]) {
        BlankStart(s, i);
      } else {
        forall k | p <= k < |s|
          ensures s[k] != ','
        {
          AtChar(s, p, u, k - p);
        }
        BlankTail(s, p);
      }
    }
  }

  lemma BlankStart(s: string, i: nat)
    requires 0 < i < |s| && IsSpace(s[i]) && MatchTail(s, i).LastUpTo?
    ensures MatchTail(s, i).end == i
  {
    assert QuotedEnds(s, i, '"') == NoStop && QuotedEnds(s, i, '\'') == NoStop;
    var empty := if s[i - 1] != ',' then Stop(i, NoStop) else NoStop;
    assert LastEnds(s, i) == empty;
    assert FirstThatEnds(s, NoStop) == None;
    assert FirstThatEnds(s, empty).Some? ==> FirstThatEnds(s, empty) == Some(i);
  }

  lemma BlankTail(s: string, p: nat)
    requires 0 < p && p + 1 < |s| && IsSpace(s[|s| - 1]) && !IsSpace(s[p]) && s[p] != '\'' && s[p] != '"' && s[p] != '#'
    requires forall k :: p <= k < |s| ==> s[k] != ','
    ensures MatchTail(s, p).LastUpTo? ==> MatchTail(s, p).end < |s|
  {
    hide IsSpace;
    var empty := if s[p - 1] != ',' then Stop(p, NoStop) else NoStop;
    assert LastEnds(s, p) == Append(RunEnds(s, p + 1, ","), empty);
    LastBlankIsComment(s);
    StopsEarly(s, p + 1, |s| - 1, empty);
  }

  lemma LastBlankIsComment(s: string)
    requires s != "" && IsSpace(s[|s| - 1])
    ensures OnlyComment(s, |s| - 1)
  {
    assert SpaceEnd(s, |s| - 1) == |s|;
  }

  // ---------------------------------------------------------------- the whole list

  /** Where the member stands in the text that is left when the reader has dropped the blanks in front. */
  ghost predicate Shown(ms: Members, u: string, w: string)
    requires u != ""
  {
    if ms == Done && IsSpace(u[0]) then |w| < |u| && (w != "" ==> !IsSpace(w[0])) else w == u
  }

  lemma BlankEndFacts(u: string)
    requires BlankEnd(u)
    ensures u != "" && ',' !in u
  {
  }

  lemma MemberAt(ms: Members, w: string, after: string, s: string) returns (p: nat)
    requires s == Listing(ms, w + after) && ',' !in w && (after != "" ==> after[0] == ',')
    ensures p + |w + after| == |s| && At(s, p, w) && (ms == Done ==> p == 0 && s == w + after)
    ensures (p + |w| < |s| ==> s[p + |w|] == ',') && (forall k :: p <= k < p + |w| ==> s[k] != ',')
  {
    ListingTail(ms, w + after);
    p := |Listing(ms, "")|;
    assert s[p..] == w + after && s[p..p + |w|] == w;
    if after != "" { assert s[p + |w|] == (w + after)[|w|]; }
    forall k | p <= k < p + |w|
      ensures s[k] != ','
    {
      assert s[k] == w[k - p];
    }
  }

  lemma ShownStart(s: string, w: string, after: string)
    requires s == w + after && s != "" && (w != "" ==> !IsSpace(w[0])) && (after != "" ==> after[0] == ',')
    ensures !IsSpace(s[0])
  {
  }

  /** Behind the last comma in front, reading goes on at the first character that is no blank. */
  lemma ResumesBehind(s: string, i: nat, q: nat, p: nat, u: string)
    requires 0 < p && p - 1 <= i <= |s| && u != "" && At(s, p, u) && s[p - 1] == ' '
    requires (p + |u| < |s| ==> s[p + |u|] == ',') && q == Resume(s, i, p - 1) && q < i
    ensures !IsSpace(s[q]) && p <= q <= p + |u|
    ensures IsSpace(u[0]) ==> p < q
    ensures !IsSpace(u[0]) ==> q == p
  {
    AtChar(s, p, u, 0);
    assert IsSpace(s[p - 1]);
    assert q == SpaceEnd(s, p - 1) == SpaceEnd(s, p);
    if p + |u| < |s| { SpaceEndStops(s, p - 1, p + |u|); }
  }

  /** The first token read is not the member. */
  lemma FirstTokenDiffers(s: string, i: nat, q: nat, p: nat, done: bool, u: string, w: string, after: string,
                          found: seq<string>)
    requires p + |w + after| == |s| && At(s, p, w) && '\n' !in s && BlankEnd(u) && ',' !in w
    requires if done && IsSpace(u[0]) then |w| < |u| && (w != "" ==> !IsSpace(w[0])) else w == u
    requires after != "" ==> after[0] == ','
    requires p + |w| < |s| ==> s[p + |w|] == ','
    requires forall k :: p <= k < p + |w| ==> s[k] != ','
    requires q < i <= |s| && AfterComma(s, 0, i)
    requires if done then p == 0 && q == 0 && s == w + after
             else 0 < p && p - 1 <= i && s[p - 1] == ' ' && q == Resume(s, i, p - 1)
    requires UnquoteAll(FindAll(s[..i], q)) == Ok(found)
    ensures found != [] && found[0] != u
  {
    hide FindAll, UnquoteAll, AfterComma, BlankEnd, IsSpace, Resume, At;
    BlankEndFacts(u);
    if !done { ResumesBehind(s, i, q, p, u); }
    if IsSpace(u[0]) {
      if done { ShownStart(s, w, after); }
      StartsLate(s, i, q, p + |w|, u, found);
    } else {
      EndsShort(s, i, q, u, found);
    }
  }

  /** Once the tokens in front agree, the member itself does not. */
  lemma NotTheMember(s: string, i: nat, q: nat, ms: Members, u: string, w: string, after: string,
                     found: seq<string>, extra: seq<string>, rest: seq<string>)
    requires s == Listing(ms, w + after) && '\n' !in s && BlankEnd(u) && ',' !in w && Shown(ms, u, w)
    requires after == "" ==> ms.Member? && rest == []
    requires after != "" ==> after[0] == ',' && (ms == Done || rest != [])
    requires 0 < i <= |s| && AfterComma(s, 0, i)
    requires ms == Done ==> q == 0
    requires ms.Member? ==>
               var m := |s| - |w + after| - 1; 0 < m <= i && s[m - 1] == ',' && s[m] == ' ' && q == Resume(s, i, m)
    requires UnquoteAll(FindAll(s[..i], q)) == Ok(found) && |extra| <= 1
    requires extra != [] ==>
               && MatchTail(s, i).LastUpTo? && i < MatchTail(s, i).end <= |s|
               && Unquote(s[i..MatchTail(s, i).end]) == Ok(extra[0])
    ensures found + extra != [u] + rest
  {
    hide FindAll, UnquoteAll, Unquote, AfterComma, MatchTail, Listing, BlankEnd, IsSpace, At;
    var p := MemberAt(ms, w, after, s);
    BlankEndFacts(u);
    if q < i {
      FirstTokenDiffers(s, i, q, p, ms == Done, u, w, after, found);
      assert (found + extra)[0] == found[0];
    } else {
      NoTokens(s[..i]);
      assert found == [];
      if extra != [] && [u] + rest == extra {
        assert after == "" && w == u;
        LastShort(s, i, p, u);
        UnquoteFacts(s[i..MatchTail(s, i).end]);
      }
    }
  }

  /** The text of a list up to its first such member, and behind it. */
  lemma {:induction false} SplitAtBlank(items: seq<string>, k: nat)
    returns (ms: Members, u: string, after: string, rest: seq<string>)
    requires k < |items| && QuoteMembers(items).Ok? && !CleanEnds(items[k], false)
    ensures AllFit(ms) && BlankEnd(u) && items == Texts(ms) + [u] + rest
    ensures Join(QuoteMembers(items).value) == Listing(ms, u + after) && '\n' !in after
    ensures (after == "" <==> rest == []) && (after != "" ==> after[0] == ',')
    decreases |items|
  {
    hide Fits, Apply, CleanEnds, QuoteText, BlankEnd;
    var first := QuoteText(items[0], false).value;
    var others := QuoteMembers(items[1..]).value;
    assert QuoteMembers(items) == Ok([first] + others) && ([first] + others)[1..] == others;
    assert items == [items[0]] + items[1..];
    if !CleanEnds(items[0], false) {
      UncleanMember(items[0]);
      ms, u, rest := Done, items[0], items[1..];
      JoinOneLine(rest);
      after := if rest == [] then "" else ", " + Join(others);
      assert u + "" == u;
      assert items == [] + [u] + rest;
      assert rest != [] ==> u + ", " + Join(others) == u + after;
      MembersCount(rest);
    } else {
      var style := MemberStyle(items[0], false, first);
      var more;
      more, u, after, rest := SplitAtBlank(items[1..], k - 1);
      ms := Member(style, items[0], more);
      MembersCount(items[1..]);
      assert Texts(ms) + [u] + rest == [items[0]] + (Texts(more) + [u] + rest);
    }
  }

  lemma MembersCount(items: seq<string>)
    requires QuoteMembers(items).Ok?
    ensures QuoteMembers(items).value == [] <==> items == []
  {
  }

  lemma UncleanMember(u: string)
    requires !CleanEnds(u, false) && QuoteText(u, false).Ok?
    ensures BlankEnd(u) && QuoteText(u, false) == Ok(u)
  {
    BareStyle(u, false);
  }

  lemma {:induction false} JoinOneLine(items: seq<string>)
    requires QuoteMembers(items).Ok?
    ensures '\n' !in Join(QuoteMembers(items).value)
  {
    hide QuoteText;
    if items != [] {
      JoinOneLine(items[1..]);
      QuoteTextOneLine(items[0]);
      var others := QuoteMembers(items[1..]).value;
      var first := QuoteText(items[0], false).value;
      assert ([first] + others)[1..] == others;
    }
  }

  lemma QuoteTextOneLine(s: string)
    requires QuoteText(s, false).Ok?
    ensures '\n' !in QuoteText(s, false).value
  {
  }

  /** The list is not read back. */
  lemma NotReadBack(s: string, ms: Members, u: string, w: string, after: string, rest: seq<string>, items: seq<string>)
    requires AllFit(ms) && s == Listing(ms, w + after) && '\n' !in s && BlankEnd(u) && ',' !in w && Shown(ms, u, w)
    requires after == "" ==> ms.Member? && rest == []
    requires after != "" ==> after[0] == ',' && (ms == Done || rest != [])
    requires items == Texts(ms) + [u] + rest
    ensures HandleValue(s) != Ok(List(items))
  {
    hide HandleValue, AllFit, Listing, AfterComma, UnquoteAll, FindAll, MatchTail, Unquote, BlankEnd, Shown;
    if HandleValue(s) == Ok(List(items)) {
      var i, found, extra := ListRead(s, items);
      assert s[0..] == s && items == Texts(ms) + ([u] + rest);
      var q := FrontTokens(s, i, 0, ms, w + after, found, extra, [u] + rest);
      var n := |Texts(ms)|;
      assert (found + extra)[n..] == found[n..] + extra && (Texts(ms) + ([u] + rest))[n..] == [u] + rest;
      NotTheMember(s, i, q, ms, u, w, after, found[n..], extra, rest);
    }
  }

  /** What the key expression leaves of the text. */
  lemma ValueShown(ms: Members, u: string, after: string, text: string) returns (w: string)
    requires AllFit(ms) && u != "" && ',' !in u && text == Listing(ms, u + after)
    requires (ms == Done ==> after != "") && (after != "" ==> after[0] == ',')
    ensures var line := " " + text; line[SpaceEnd(line, 0)..] == Listing(ms, w + after)
    ensures Shown(ms, u, w) && ',' !in w
  {
    var line := " " + text;
    var e := SpaceEnd(line, 0);
    if ms == Done && IsSpace(u[0]) {
      assert line[1] == u[0] && line[1 + |u|] == after[0];
      SpaceEndStops(line, 0, 1 + |u|);
      assert e >= 2;
      w := u[e - 1..];
      assert line[e..] == w + after;
      if w != "" { assert line[e] == w[0]; }
      assert forall c :: c in w ==> c in u;
    } else {
      w := u;
      if ms.Member? { FirstChar(ms.style, ms.text); }
      assert text != "" && !IsSpace(text[0]) && line[1] == text[0];
      assert e == 1 && line[1..] == text;
    }
  }

  /** A list with a member that is written bare with an overlooked blank at one end does not come back as it was. */
  lemma ListLosesBlanks(items: seq<string>, writeEmptyValues: bool, text: string, k: nat)
    requires Quote(List(items), writeEmptyValues) == Ok(text) && k < |items| && !CleanEnds(items[k], false)
    ensures Reread(text) != Ok(List(items))
  {
    hide CleanEnds, AllFit, Listing, BlankEnd, Shown, HandleValue, MultilineValue;
    var ms, u, after, rest := SplitAtBlank(items, k);
    MembersCount(items);
    QuotedLength(items);
    BlankEndFacts(u);
    JoinOneLine(items);
    if |items| == 1 {
      TextsLength(ms);
      assert ms == Done && rest == [];
      after := ",";
      DoneListing(u, "");
      DoneListing(u, after);
      assert u + "" == u;
    }
    assert text == Listing(ms, u + after) && '\n' !in text;
    var w := ValueShown(ms, u, after, text);
    var line := " " + text;
    ListEndKept(items, writeEmptyValues, text);
    OneLineReread(text);
    var value := line[SpaceEnd(line, 0)..];
    NotReadBack(value, ms, u, w, after, rest, items);
  }

  lemma QuotedEndKept(s: string)
    requires QuoteText(s, false).Ok?
    ensures QuoteText(s, false).value != "" && EndKept(QuoteText(s, false).value)
  {
    if s != "" && ChooseStyle(s, false) == Ok(Bare) { BareStyle(s, false); }
  }

  lemma {:induction false} JoinEndKept(items: seq<string>)
    requires items != [] && QuoteMembers(items).Ok?
    ensures QuoteMembers(items).value != []
    ensures var text := Join(QuoteMembers(items).value); text != "" && EndKept(text)
  {
    hide QuoteText;
    QuotedEndKept(items[0]);
    var first := QuoteText(items[0], false).value;
    var others := QuoteMembers(items[1..]).value;
    assert ([first] + others)[1..] == others;
    if |items| > 1 { JoinEndKept(items[1..]); }
  }

  lemma ListEndKept(items: seq<string>, writeEmptyValues: bool, text: string)
    requires items != [] && Quote(List(items), writeEmptyValues) == Ok(text)
    ensures EndKept(text)
  {
    JoinEndKept(items);
  }

  lemma TextsLength(ms: Members)
    ensures |Texts(ms)| == 0 <==> ms == Done
  {
  }

  lemma DoneListing(u: string, after: string)
    ensures Listing(Done, u + after) == u + after
  {
  }

  lemma {:induction false} QuotedLength(items: seq<string>)
    requires QuoteMembers(items).Ok?
    ensures |QuoteMembers(items).value| == |items|
  {
    if items != [] { QuotedLength(items[1..]); }
  }

  /** Every list the writer accepts is read back exactly when none of its members is written bare with, at one end, a
      blank that `wspace_plus` leaves out. */
  lemma ListRoundTripExactly(items: seq<string>, writeEmptyValues: bool, text: string)
    requires Quote(List(items), writeEmptyValues) == Ok(text)
    ensures Reread(text) == Ok(List(items)) <==> forall k :: 0 <= k < |items| ==> CleanEnds(items[k], false)
  {
    hide CleanEnds, Quote, Reread;
    if k :| 0 <= k < |items| && !CleanEnds(items[k], false) {
      ListLosesBlanks(items, writeEmptyValues, text, k);
    } else {
      ListRoundTrip(items, writeEmptyValues, text);
    }
  }

  /** A list member that ends in a form feed loses it too. */
  lemma ListLosesFormFeed(item: string)
    requires item == "a\U{000C}"
    ensures Quote(List([item]), false) == Ok(item + ",") && Reread(item + ",") != Ok(List([item]))
  {
    assert QuoteText(item, false) == Ok(item) && !CleanEnds(item, false);
    assert [item][1..] == [] && [item] + [] == [item];
    assert QuoteMembers([item]) == Ok([item]);
    hide Reread;
    ListLosesBlanks([item], false, item + ",", 0);
  }
}
