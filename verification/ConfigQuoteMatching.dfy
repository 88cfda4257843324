/** What the expressions of the reader match in a line that `_quote` wrote. */
module ConfigQuoteMatching {
  import opened Prelude
  import opened ConfigQuote

  // ---------------------------------------------------------------- the text of one quoted member

  /** `style` writes `v` on one line so that its delimiters can be found again. */
  ghost predicate Fits(style: Style, v: string) {
    match style
    case Bare =>
      && v != "" && ',' !in v && '#' !in v && '\n' !in v
      && v[0] != '\'' && v[0] != '"' && !IsSpace(v[0]) && !IsSpace(v[|v| - 1])
    case Single => '\'' !in v && '\n' !in v
    case Double => '"' !in v && '\n' !in v
    case _ => false
  }

  /** `t` stands in `s` at position `i`. */
  ghost predicate At(s: string, i: nat, t: string) {
    i + |t| <= |s| && s[i..i + |t|] == t
  }

  lemma AtChar(s: string, i: nat, t: string, k: nat)
    requires At(s, i, t) && k < |t|
    ensures s[i + k] == t[k]
  {
    assert s[i..i + |t|][k] == s[i + k];
  }

  /** A bare string does not start or end with a blank that the writer overlooks. */
  predicate CleanEnds(s: string, multiline: bool) {
    s != "" && ChooseStyle(s, multiline) == Ok(Bare) ==> !IsSpace(s[0]) && !IsSpace(s[|s| - 1])
  }

  /** The quoting of a string that is written without triple quotes, and why it can be read back. */
  lemma MemberStyle(s: string, multiline: bool, text: string) returns (style: Style)
    requires QuoteText(s, multiline) == Ok(text) && CleanEnds(s, multiline)
    requires s != "" && ChooseStyle(s, multiline).Ok? ==>
               ChooseStyle(s, multiline).value !in {TripleSingle, TripleDouble}
    ensures text == Apply(style, s) && Fits(style, s)
  {
    if s == "" {
      style := Double;
    } else {
      style := ChooseStyle(s, multiline).value;
      if style == Bare {
        assert '\'' in WSPACE_PLUS by { assert WSPACE_PLUS[5] == '\''; }
        assert '"' in WSPACE_PLUS by { assert WSPACE_PLUS[6] == '"'; }
      }
    }
  }

  // ---------------------------------------------------------------- where the matchers stop first

  lemma {:induction false} SpaceEndStops(s: string, i: nat, m: nat)
    requires i <= m < |s| && !IsSpace(s[m])
    ensures SpaceEnd(s, i) <= m
  {
  }

  lemma NoCommaAhead(s: string, i: nat, m: nat)
    requires i <= m < |s| && !IsSpace(s[m]) && forall k :: i <= k <= m ==> s[k] != ','
    ensures CommaEnds(s, i) == NoStop
  {
    SpaceEndStops(s, i, m);
  }

  lemma CommaHere(s: string, e: nat)
    requires e < |s| && s[e] == ','
    ensures CommaEnds(s, e).Stop? && CommaEnds(s, e).at == SpaceEnd(s, e + 1)
  {
    assert SpaceEnd(s, e) == e;
  }

  lemma {:induction false} CloseFirst(s: string, i: nat, q: char, k: nat)
    requires i <= k < |s| && s[k] == q && forall m :: i <= m < k ==> s[m] != q && s[m] != '\n'
    ensures CloseEnds(s, i, q).Stop? && CloseEnds(s, i, q).at == k + 1
    ensures k + 1 == |s| ==> CloseEnds(s, i, q) == Stop(k + 1, NoStop)
    decreases k - i
  {
    if i < k {
      CloseFirst(s, i + 1, q, k);
    } else {
      assert k + 1 == |s| ==> CloseEnds(s, k + 1, q) == NoStop;
    }
  }

  lemma QuotedFirst(s: string, i: nat, q: char, v: string)
    requires At(s, i, [q] + v + [q]) && q !in v && '\n' !in v
    ensures QuotedEnds(s, i, q).Stop? && QuotedEnds(s, i, q).at == i + |v| + 2
    ensures i + |v| + 2 == |s| ==> QuotedEnds(s, i, q) == Stop(|s|, NoStop)
    ensures s[i] == q
  {
    var t := [q] + v + [q];
    AtChar(s, i, t, 0);
    AtChar(s, i, t, |v| + 1);
    forall m | i + 1 <= m < i + |v| + 1
      ensures s[m] != q && s[m] != '\n'
    {
      AtChar(s, i, t, m - i);
      assert t[m - i] == v[m - i - 1];
    }
    CloseFirst(s, i + 1, q, i + |v| + 1);
  }

  /** When nothing before position `e` of a run is followed by a comma, the first comma found is the one at `e`. */
  lemma {:induction false} RunFirst(s: string, i: nat, e: nat)
    requires i <= e < |s| && s[e] == ',' && (e > i ==> !IsSpace(s[e - 1]))
    requires forall k :: i <= k < e ==> s[k] != ',' && s[k] != '#'
    ensures CommaAfter(s, RunEnds(s, i, ",#")).Stop? && CommaAfter(s, RunEnds(s, i, ",#")).at == SpaceEnd(s, e + 1)
    decreases e - i
  {
    if i < e {
      NoCommaAhead(s, i, e - 1);
      RunFirst(s, i + 1, e);
    } else {
      CommaHere(s, e);
    }
  }

  lemma {:induction false} RunFinds(s: string, i: nat, e: nat)
    requires i <= e < |s| && s[e] == ',' && (e > i ==> !IsSpace(s[e - 1]))
    requires forall k :: i <= k < e ==> s[k] != ',' && s[k] != '\n'
    ensures FindItem(s, RunEnds(s, i, "\n")) == Some((e, SpaceEnd(s, e + 1)))
    decreases e - i
  {
    if i < e {
      NoCommaAhead(s, i, e - 1);
      RunFinds(s, i + 1, e);
    } else {
      CommaHere(s, e);
    }
  }

  lemma {:induction false} FindItemPrefix(s: string, starts: Stops, more: Stops)
    requires FindItem(s, starts).Some?
    ensures FindItem(s, Append(starts, more)) == FindItem(s, starts)
  {
    if CommaEnds(s, starts.at) == NoStop { FindItemPrefix(s, starts.more, more); }
  }

  /** An unquoted member from `i` up to `e`. */
  ghost predicate BareRun(s: string, i: nat, e: nat) {
    && i < e <= |s| && s[i] != '\'' && s[i] != '"' && !IsSpace(s[i]) && !IsSpace(s[e - 1])
    && forall k :: i <= k < e ==> s[k] != ',' && s[k] != '#' && s[k] != '\n'
  }

  lemma BareChars(s: string, i: nat, v: string)
    requires At(s, i, v) && Fits(Bare, v)
    ensures BareRun(s, i, i + |v|)
  {
    AtChar(s, i, v, 0);
    AtChar(s, i, v, |v| - 1);
    forall k | i <= k < i + |v|
      ensures s[k] != ',' && s[k] != '#' && s[k] != '\n'
    {
      AtChar(s, i, v, k - i);
    }
  }

  lemma QuotedItem(s: string, i: nat, q: char, v: string)
    requires q == '\'' || q == '"'
    requires q !in v && '\n' !in v && At(s, i, [q] + v + [q])
    requires i + |v| + 2 < |s| && s[i + |v| + 2] == ','
    ensures ItemEnds(s, i).Stop? && ItemEnds(s, i).at == SpaceEnd(s, i + |v| + 3)
    ensures FindItem(s, ItemStarts(s, i)) == Some((i + |v| + 2, SpaceEnd(s, i + |v| + 3)))
  {
    QuotedFirst(s, i, q, v);
    CommaHere(s, i + |v| + 2);
  }

  lemma BareItem(s: string, i: nat, e: nat)
    requires BareRun(s, i, e) && e < |s| && s[e] == ','
    ensures ItemEnds(s, i).Stop? && ItemEnds(s, i).at == SpaceEnd(s, e + 1)
    ensures FindItem(s, ItemStarts(s, i)) == Some((e, SpaceEnd(s, e + 1)))
  {
    hide IsSpace;
    RunFirst(s, i + 1, e);
    RunFinds(s, i + 1, e);
    FindItemPrefix(s, RunEnds(s, i + 1, "\n"), RunEnds(s, i, "\n"));
  }

  /** A quoted member followed by a comma is the first thing the item expressions match. */
  lemma ItemFirst(s: string, i: nat, style: Style, v: string, e: nat)
    requires Fits(style, v) && At(s, i, Apply(style, v)) && e == i + |Apply(style, v)|
    requires e < |s| && s[e] == ','
    ensures ItemEnds(s, i).Stop? && ItemEnds(s, i).at == SpaceEnd(s, e + 1)
    ensures FindItem(s, ItemStarts(s, i)) == Some((e, SpaceEnd(s, e + 1)))
  {
    match style {
      case Bare =>
        BareChars(s, i, v);
        BareItem(s, i, e);
      case Single => QuotedItem(s, i, '\'', v);
      case Double => QuotedItem(s, i, '"', v);
    }
  }

  // ---------------------------------------------------------------- the last member

  lemma {:induction false} NoCommaNoItem(s: string, i: nat)
    requires i <= |s| && (i < |s| ==> !IsSpace(s[|s| - 1])) && forall k :: i <= k < |s| ==> s[k] != ','
    ensures CommaAfter(s, RunEnds(s, i, ",#")) == NoStop
    decreases |s| - i
  {
    if i < |s| {
      NoCommaAhead(s, i, |s| - 1);
      if s[i] !in ",#" { NoCommaNoItem(s, i + 1); }
    }
  }

  lemma QuotedLast(s: string, i: nat, q: char, v: string)
    requires q == '\'' || q == '"'
    requires q !in v && '\n' !in v && At(s, i, [q] + v + [q]) && i + |v| + 2 == |s|
    ensures ItemEnds(s, i) == NoStop && MatchTail(s, i) == LastUpTo(|s|)
  {
    QuotedFirst(s, i, q, v);
    assert CommaEnds(s, |s|) == NoStop;
    assert Append(Stop(|s|, NoStop), NoStop) == Stop(|s|, NoStop);
    assert Alternatives(s, i, NoStop) == Stop(|s|, NoStop);
    assert CommaAfter(s, Stop(|s|, NoStop)) == Append(NoStop, CommaAfter(s, NoStop)) == NoStop;
    assert LastEnds(s, i).Stop? && LastEnds(s, i).at == |s|;
  }

  lemma {:induction false} RunReachesEnd(s: string, i: nat, more: Stops)
    requires i <= |s| && (i < |s| ==> !IsSpace(s[|s| - 1]))
    requires forall k :: i <= k < |s| ==> s[k] != ',' && s[k] != '#'
    ensures FirstThatEnds(s, Append(RunEnds(s, i, ","), more)) == Some(|s|)
    decreases |s| - i
  {
    if i < |s| {
      SpaceEndStops(s, i, |s| - 1);
      RunReachesEnd(s, i + 1, more);
    }
  }

  lemma BareLast(s: string, i: nat)
    requires BareRun(s, i, |s|)
    ensures ItemEnds(s, i) == NoStop && MatchTail(s, i) == LastUpTo(|s|)
  {
    hide IsSpace;
    NoCommaNoItem(s, i + 1);
    RunReachesEnd(s, i + 1, if i == 0 || s[i - 1] != ',' then Stop(i, NoStop) else NoStop);
  }

  /** A quoted member at the end of the line is no list item, and is matched whole as the last item. */
  lemma LastMember(s: string, i: nat, style: Style, v: string)
    requires Fits(style, v) && At(s, i, Apply(style, v)) && i + |Apply(style, v)| == |s|
    ensures ItemEnds(s, i) == NoStop && MatchTail(s, i) == LastUpTo(|s|)
  {
    match style {
      case Bare =>
        BareChars(s, i, v);
        BareLast(s, i);
      case Single => QuotedLast(s, i, '\'', v);
      case Double => QuotedLast(s, i, '"', v);
    }
  }

  lemma UnquoteMember(style: Style, v: string)
    requires Fits(style, v)
    ensures Apply(style, v) != "" && Unquote(Apply(style, v)) == Ok(v)
  {
    var s := Apply(style, v);
    if style != Bare { assert s[1..|s| - 1] == v; }
  }

  /** A single value is matched whole, and is no list. */
  lemma SingleMember(style: Style, v: string)
    requires Fits(style, v)
    ensures HandleValue(Apply(style, v)) == Ok(Text(v))
  {
    var s := Apply(style, v);
    UnquoteMember(style, v);
    assert s[0..|s|] == s;
    LastMember(s, 0, style, v);
    assert MatchItems(s, 0) == Some(0);
  }

  // ---------------------------------------------------------------- lists

  /** The members of a list that precede its last one, with the quoting chosen for each. */
  datatype Members = Done | Member(style: Style, text: string, rest: Members)

  ghost predicate AllFit(ms: Members) {
    match ms
    case Done => true
    case Member(style, v, rest) => Fits(style, v) && AllFit(rest)
  }

  /** The members in order, each followed by a comma and a blank, and then `tail`. */
  function Listing(ms: Members, tail: string): string {
    match ms
    case Done => tail
    case Member(style, v, rest) => Apply(style, v) + ", " + Listing(rest, tail)
  }

  function Texts(ms: Members): seq<string> {
    match ms
    case Done => []
    case Member(_, v, rest) => [v] + Texts(rest)
  }

  function Quoted(ms: Members): seq<string> {
    match ms
    case Done => []
    case Member(style, v, rest) => [Apply(style, v)] + Quoted(rest)
  }

  ghost predicate Suffix(s: string, i: nat, t: string) {
    i <= |s| && s[i..] == t
  }

  lemma FirstChar(style: Style, v: string)
    requires Fits(style, v)
    ensures Apply(style, v) != "" && !IsSpace(Apply(style, v)[0]) && Apply(style, v)[0] != ','
  {
    if style == Bare { assert v[0] in v; }
  }

  /** Member `style`, `v` stands at `i`, a comma and a blank follow it, and then `rest` does. */
  lemma MemberThenNext(s: string, i: nat, style: Style, v: string, rest: string) returns (e: nat)
    requires Fits(style, v) && Suffix(s, i, Apply(style, v) + ", " + rest)
    requires rest != "" ==> !IsSpace(rest[0])
    ensures e == i + |Apply(style, v)| && e + 2 <= |s| && Suffix(s, e + 2, rest)
    ensures ItemEnds(s, i).Stop? && ItemEnds(s, i).at == e + 2
    ensures FindItem(s, ItemStarts(s, i)) == Some((e, e + 2)) && Slice(s, i, e) == Apply(style, v)
  {
    var t := Apply(style, v) + ", " + rest;
    e := i + |Apply(style, v)|;
    assert |s| == i + |t|;
    assert t[..|Apply(style, v)|] == Apply(style, v);
    assert s[i..e] == s[i..][..e - i];
    assert s[e + 2..] == t[e + 2 - i..] == rest;
    assert s[e] == t[e - i] && s[e + 1] == t[e + 1 - i];
    if rest != "" { assert s[e + 2] == rest[0]; }
    assert SpaceEnd(s, e + 1) == e + 2;
    ItemFirst(s, i, style, v, e);
  }

  lemma ListingFirst(ms: Members, tail: string)
    requires AllFit(ms) && (tail != "" ==> !IsSpace(tail[0]))
    ensures Listing(ms, tail) != "" ==> !IsSpace(Listing(ms, tail)[0])
  {
    if ms.Member? { FirstChar(ms.style, ms.text); }
  }

  /** The first stop of the item expression at `i` is `next`. */
  ghost predicate Takes(s: string, i: nat, next: nat) {
    i < next <= |s| && ItemEnds(s, i).Stop? && ItemEnds(s, i).at == next
  }

  lemma TakesItem(s: string, i: nat, next: nat, end: nat)
    requires Takes(s, i, next) && MatchItems(s, next) == Some(end)
    ensures MatchItems(s, i) == Some(end)
  {
  }

  /** Each position of `chain` is the first stop of the item expression at the one before. */
  ghost predicate Chain(s: string, chain: seq<nat>) {
    chain != [] && forall k :: 0 < k < |chain| ==> Takes(s, chain[k - 1], chain[k])
  }

  lemma {:induction false} ChainMatched(s: string, chain: seq<nat>)
    requires Chain(s, chain) && chain[|chain| - 1] <= |s|
    requires MatchItems(s, chain[|chain| - 1]) == Some(chain[|chain| - 1])
    ensures chain[0] <= |s| && MatchItems(s, chain[0]) == Some(chain[|chain| - 1])
    decreases |chain|
  {
    if |chain| > 1 {
      var rest := chain[1..];
      assert forall k :: 0 < k < |rest| ==> rest[k - 1] == chain[k] && rest[k] == chain[k + 1];
      ChainMatched(s, rest);
      assert Takes(s, chain[0], chain[1]);
      TakesItem(s, chain[0], chain[1], chain[|chain| - 1]);
    }
  }

  lemma FindsItem(s: string, i: nat, e: nat, next: nat)
    requires i < next <= |s| && FindItem(s, ItemStarts(s, i)) == Some((e, next))
    ensures FindAll(s, i) == [Slice(s, i, e)] + FindAll(s, next)
  {
  }

  /** The item expression stops at the start of each member in turn. */
  lemma {:induction false} ItemsChain(s: string, i: nat, ms: Members, tail: string) returns (chain: seq<nat>)
    requires AllFit(ms) && Suffix(s, i, Listing(ms, tail)) && (tail != "" ==> !IsSpace(tail[0]))
    ensures Chain(s, chain) && chain[0] == i && |tail| <= |s| && chain[|chain| - 1] == |s| - |tail|
    decreases ms
  {
    hide Fits, Apply, IsSpace, ItemEnds, FindItem, ItemStarts, Chain, Slice;
    match ms {
      case Done =>
        chain := [i];
        assert Chain(s, chain) by { OneLink(s, i); }
      case Member(style, v, rest) =>
        ListingFirst(rest, tail);
        var e := MemberThenNext(s, i, style, v, Listing(rest, tail));
        var more := ItemsChain(s, e + 2, rest, tail);
        chain := Extend(s, i, more);
    }
  }

  lemma OneLink(s: string, i: nat)
    ensures Chain(s, [i])
  {
  }

  lemma Extend(s: string, i: nat, more: seq<nat>) returns (chain: seq<nat>)
    requires Chain(s, more) && Takes(s, i, more[0])
    ensures Chain(s, chain) && chain[0] == i && chain[|chain| - 1] == more[|more| - 1]
  {
    chain := [i] + more;
    forall k | 0 < k < |chain|
      ensures Takes(s, chain[k - 1], chain[k])
    {
      if k > 1 { assert Takes(s, more[k - 2], more[k - 1]); }
    }
  }

  /** `findall` returns exactly the members before the last. */
  lemma {:induction false} ItemsFound(s: string, i: nat, ms: Members)
    requires AllFit(ms) && Suffix(s, i, Listing(ms, ""))
    ensures FindAll(s, i) == Quoted(ms)
    decreases ms
  {
    hide Fits, Apply, IsSpace, ItemEnds, FindItem, ItemStarts;
    match ms {
      case Done => NothingFoundAtEnd(s);
      case Member(style, v, rest) =>
        ListingFirst(rest, "");
        var e := MemberThenNext(s, i, style, v, Listing(rest, ""));
        ItemsFound(s, e + 2, rest);
        FindsItem(s, i, e, e + 2);
    }
  }

  lemma {:induction false} ListingTail(ms: Members, tail: string)
    ensures Listing(ms, tail) == Listing(ms, "") + tail
  {
    if ms.Member? { ListingTail(ms.rest, tail); }
  }

  lemma NothingFoundAtEnd(s: string)
    ensures FindAll(s, |s|) == []
  {
    assert RunEnds(s, |s|, "\n") == Stop(|s|, NoStop);
    assert CommaEnds(s, |s|) == NoStop;
    assert ItemStarts(s, |s|) == Stop(|s|, NoStop);
    assert FindItem(s, Stop(|s|, NoStop)) == FindItem(s, NoStop) == None;
  }

  lemma {:induction false} UnquoteMembers(ms: Members)
    requires AllFit(ms)
    ensures UnquoteAll(Quoted(ms)) == Ok(Texts(ms))
  {
    if ms.Member? {
      UnquoteMember(ms.style, ms.text);
      UnquoteMembers(ms.rest);
      assert Quoted(ms)[1..] == Quoted(ms.rest);
    }
  }

  lemma LastIsNoItem(s: string, i: nat, style: Style, last: string)
    requires Fits(style, last) && Suffix(s, i, Apply(style, last))
    ensures MatchItems(s, i) == Some(i) && MatchTail(s, i) == LastUpTo(|s|)
    ensures Unquote(Slice(s, i, |s|)) == Ok(last)
  {
    assert s[i..i + |Apply(style, last)|] == s[i..];
    LastMember(s, i, style, last);
    UnquoteMember(style, last);
  }

  lemma ListMatched(s: string, i: nat, items: seq<string>, last: string)
    requires 0 < i <= |s| && MatchItems(s, 0) == Some(i) && MatchTail(s, i) == LastUpTo(|s|)
    requires UnquoteAll(FindAll(s[..i], 0)) == Ok(items) && Unquote(Slice(s, i, |s|)) == Ok(last)
    ensures HandleValue(s) == Ok(List(items + [last]))
  {
  }

  /** Two or more members. */
  lemma ManyMembers(ms: Members, style: Style, last: string)
    requires AllFit(ms) && ms.Member? && Fits(style, last)
    ensures HandleValue(Listing(ms, Apply(style, last))) == Ok(List(Texts(ms) + [last]))
  {
    hide Fits, Apply, IsSpace, AllFit, MatchItems, MatchTail, UnquoteAll, FindAll, Unquote, Chain;
    var tail := Apply(style, last);
    var front, s := Listing(ms, ""), Listing(ms, tail);
    FirstChar(style, last);
    ListingTail(ms, tail);
    assert s[0..] == s && s[..|front|] == front && front[0..] == front && s[|front|..] == tail;
    LastIsNoItem(s, |front|, style, last);
    var chain := ItemsChain(s, 0, ms, tail);
    ChainMatched(s, chain);
    ItemsFound(front, 0, ms);
    UnquoteMembers(ms);
    ListMatched(s, |front|, Texts(ms), last);
  }

  /** A list of one member, which is followed by a comma. */
  lemma OneMember(style: Style, v: string)
    requires Fits(style, v)
    ensures HandleValue(Apply(style, v) + ",") == Ok(List([v]))
  {
    var q := Apply(style, v);
    var s := q + ",";
    assert s[0..|q|] == q && s[..|s|] == s;
    ItemFirst(s, 0, style, v, |q|);
    CommaEndsLine(s);
    TakesItem(s, 0, |s|, |s|);
    NothingFoundAtEnd(s);
    FindsItem(s, 0, |q|, |s|);
    UnquoteOne(style, v);
  }

  lemma UnquoteOne(style: Style, v: string)
    requires Fits(style, v)
    ensures UnquoteAll([Apply(style, v)]) == Ok([v])
  {
    UnquoteMember(style, v);
    assert [v] + [] == [v];
    assert [Apply(style, v)][1..] == [];
  }

  lemma CommaEndsLine(s: string)
    requires s != "" && s[|s| - 1] == ','
    ensures MatchTail(s, |s|) == WithoutLast && MatchItems(s, |s|) == Some(|s|)
  {
    assert LastEnds(s, |s|) == NoStop;
    assert ItemEnds(s, |s|) == NoStop;
  }
}
