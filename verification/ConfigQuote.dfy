/**
 Writing a value of a configuration file and reading it back (pylib/configobj/configobj.py), with
 `list_values` and `stringify` on and values that are strings or lists of strings.

 The regular expressions of the reader are backtracking matchers. Each is modelled by the positions it can
 stop at, in the order in which a backtracking engine tries them.
 */
module ConfigQuote {
  import opened Prelude

  datatype Value = Text(text: string) | List(items: seq<string>)

  datatype Failure = CannotQuote | Malformed

  // ---------------------------------------------------------------- characters

  /** What `\s` matches. */
  predicate IsSpace(c: char) {
    || '\U{0009}' <= c <= '\U{000D}' || '\U{001C}' <= c <= '\U{0020}' || c == '\U{0085}' || c == '\U{00A0}'
    || c == '\U{1680}' || '\U{2000}' <= c <= '\U{200A}' || c == '\U{2028}' || c == '\U{2029}'
    || c == '\U{202F}' || c == '\U{205F}' || c == '\U{3000}'
  }

  /** The ends that make the writer quote a value: fewer blanks than `\s`, and the quotes. */
  const WSPACE_PLUS := " \r\n\U{000B}\t'\""

  const TRIPLE_SINGLE := "'''"
  const TRIPLE_DOUBLE := "\"\"\""

  predicate HasTriple(s: string, q: char) {
    exists i :: 0 <= i <= |s| - 3 && s[i] == q && s[i + 1] == q && s[i + 2] == q
  }

  // ---------------------------------------------------------------- writing

  datatype Style = Bare | Single | Double | TripleSingle | TripleDouble

  function Apply(style: Style, s: string): string {
    match style
    case Bare => s
    case Single => "'" + s + "'"
    case Double => "\"" + s + "\""
    case TripleSingle => TRIPLE_SINGLE + s + TRIPLE_SINGLE
    case TripleDouble => TRIPLE_DOUBLE + s + TRIPLE_DOUBLE
  }

  function SingleQuote(s: string): Result<Style, Failure> {
    if '\'' in s && '"' in s then Err(CannotQuote)
    else if '"' in s then Ok(Single)
    else Ok(Double)
  }

  function TripleQuote(s: string): Result<Style, Failure> {
    if HasTriple(s, '"') && HasTriple(s, '\'') then Err(CannotQuote)
    else if HasTriple(s, '\'') then Ok(TripleDouble)
    else Ok(TripleSingle)
  }

  /** The quoting `_quote` chooses for a non-empty string. */
  function ChooseStyle(s: string, multiline: bool): Result<Style, Failure>
    requires s != ""
  {
    var needTriple := multiline && (('\'' in s && '"' in s) || '\n' in s);
    if needTriple then TripleQuote(s)
    else if '\n' in s then Err(CannotQuote)
    else if s[0] !in WSPACE_PLUS && s[|s| - 1] !in WSPACE_PLUS && ',' !in s then
      if '#' in s then SingleQuote(s) else Ok(Bare)
    else SingleQuote(s)
  }

  function QuoteText(s: string, multiline: bool): Result<string, Failure> {
    if s == "" then Ok("\"\"")
    else
      match ChooseStyle(s, multiline)
      case Ok(style) => Ok(Apply(style, s))
      case Err(e) => Err(e)
  }

  /** The members of a list, each quoted on one line. */
  function QuoteMembers(items: seq<string>): Result<seq<string>, Failure> {
    if items == [] then Ok([])
    else
      match QuoteText(items[0], false)
      case Err(e) => Err(e)
      case Ok(q) =>
        match QuoteMembers(items[1..])
        case Err(e) => Err(e)
        case Ok(qs) => Ok([q] + qs)
  }

  function Join(parts: seq<string>): string {
    if parts == [] then ""
    else if |parts| == 1 then parts[0]
    else parts[0] + ", " + Join(parts[1..])
  }

  /** `_quote`, for a whole value. */
  function Quote(v: Value, writeEmptyValues: bool): Result<string, Failure> {
    match v
    case Text(s) => if writeEmptyValues && s == "" then Ok("") else QuoteText(s, true)
    case List(items) =>
      if items == [] then Ok(",")
      else
        match QuoteMembers(items)
        case Err(e) => Err(e)
        case Ok(qs) => if |qs| == 1 then Ok(qs[0] + ",") else Ok(Join(qs))
  }

  /** A value that needs no quotes: it does not start or end in one of six blanks and quotes, and holds no comma, no
      comment sign, no line end and, where triple quotes could be used, not both quotes. */
  predicate NeedsNone(s: string, multiline: bool)
    requires s != ""
  {
    && s[0] !in [' ', '\r', '\n', '\U{000B}', '\t', '\'', '"']
    && s[|s| - 1] !in [' ', '\r', '\n', '\U{000B}', '\t', '\'', '"']
    && ',' !in s && '#' !in s && '\n' !in s && !(multiline && '\'' in s && '"' in s)
  }

  /** Quotes are used only where they are needed, triple ones only for a line end or both quotes, and double ones unless
      the value holds them already. */
  lemma QuotedAs(s: string, multiline: bool)
    requires s != ""
    ensures QuoteText(s, multiline) == Ok(s) <==> NeedsNone(s, multiline)
    ensures QuoteText(s, multiline) == Ok("\"" + s + "\"") <==>
              !NeedsNone(s, multiline) && '\n' !in s && '"' !in s
    ensures QuoteText(s, multiline) == Ok("'" + s + "'") <==>
              !NeedsNone(s, multiline) && '\n' !in s && '"' in s && '\'' !in s
    ensures QuoteText(s, multiline) == Ok("'''" + s + "'''") <==>
              multiline && ('\n' in s || ('\'' in s && '"' in s)) && !HasTriple(s, '\'')
    ensures QuoteText(s, multiline) == Ok("\"\"\"" + s + "\"\"\"") <==>
              multiline && ('\n' in s || ('\'' in s && '"' in s)) && HasTriple(s, '\'') && !HasTriple(s, '"')
  {
    hide HasTriple;
    EndsInWspace(s);
    assert |"\"" + s + "\""| == |"'" + s + "'"| == |s| + 2 && ("\"" + s + "\"")[0] == '"' && ("'" + s + "'")[0] == '\'';
    assert |"'''" + s + "'''"| == |"\"\"\"" + s + "\"\"\""| == |s| + 6;
    assert ("'''" + s + "'''")[0] == '\'' && ("\"\"\"" + s + "\"\"\"")[0] == '"';
  }

  lemma EndsInWspace(s: string)
    requires s != ""
    ensures forall c: char :: c in WSPACE_PLUS <==> c in [' ', '\r', '\n', '\U{000B}', '\t', '\'', '"']
  {
    assert WSPACE_PLUS == [' ', '\r', '\n', '\U{000B}', '\t', '\'', '"'];
  }

  /** The members of a list are set apart by a comma and a blank; a list of one ends in a comma, and an empty one is a
      comma. */
  lemma ListsWritten(a: string, b: string, c: string)
    requires a != "" && NeedsNone(a, false) && b != "" && NeedsNone(b, false) && c != "" && NeedsNone(c, false)
    ensures Quote(List([]), false) == Ok(",") && Quote(List([a]), false) == Ok(a + ",")
    ensures Quote(List([a, b, c]), false) == Ok(a + ", " + (b + ", " + c))
  {
    hide QuoteText, NeedsNone;
    QuotedAs(a, false);
    QuotedAs(b, false);
    QuotedAs(c, false);
    assert [a][1..] == [] && [c][1..] == [] && [b, c][1..] == [c] && [a, b, c][1..] == [b, c];
    assert QuoteMembers([]) == Ok([]) && QuoteMembers([c]) == Ok([c] + []) && [c] + [] == [c];
    assert QuoteMembers([b, c]) == Ok([b] + [c]) && [b] + [c] == [b, c];
    assert QuoteMembers([a, b, c]) == Ok([a] + [b, c]) && [a] + [b, c] == [a, b, c];
    assert Join([b, c]) == b + ", " + Join([c]);
  }

  // ---------------------------------------------------------------- pieces of the reader's expressions

  /** The positions an expression can stop at, in the order they are tried. */
  datatype Stops = NoStop | Stop(at: nat, more: Stops)

  function Append(a: Stops, b: Stops): Stops {
    match a
    case NoStop => b
    case Stop(e, more) => Stop(e, Append(more, b))
  }

  /** A slice that is empty when its bounds are out of order. */
  function Slice(s: string, i: nat, e: nat): string {
    if i <= e <= |s| then s[i..e] else ""
  }

  function SpaceEnd(s: string, i: nat): (e: nat)
    requires i <= |s|
    ensures i <= e <= |s| && (forall k :: i <= k < e ==> IsSpace(s[k])) && (e < |s| ==> !IsSpace(s[e]))
    decreases |s| - i
  {
    if i < |s| && IsSpace(s[i]) then SpaceEnd(s, i + 1) else i
  }

  /** `.*?` followed by `q`: the stops after each closing quote, nearest first. */
  function CloseEnds(s: string, i: nat, q: char): Stops
    decreases |s| - i
  {
    if i >= |s| then NoStop
    else
      var farther := if s[i] == '\n' then NoStop else CloseEnds(s, i + 1, q);
      if s[i] == q then Stop(i + 1, farther) else farther
  }

  /** `q.*?q`. */
  function QuotedEnds(s: string, i: nat, q: char): Stops {
    if i < |s| && s[i] == q then CloseEnds(s, i + 1, q) else NoStop
  }

  /** `[^...]*?`: shortest first. */
  function RunEnds(s: string, i: nat, excluded: string): Stops
    decreases |s| - i
  {
    Stop(i, if i < |s| && s[i] !in excluded then RunEnds(s, i + 1, excluded) else NoStop)
  }

  function Down(lo: nat, hi: nat): Stops
    decreases hi
  {
    Stop(hi, if lo < hi then Down(lo, hi - 1) else NoStop)
  }

  /** `\s*,\s*`: longest first. */
  function CommaEnds(s: string, i: nat): Stops {
    if i > |s| then NoStop
    else
      var k := SpaceEnd(s, i);
      if k < |s| && s[k] == ',' then Down(k + 1, SpaceEnd(s, k + 1)) else NoStop
  }

  function CommaAfter(s: string, starts: Stops): Stops {
    match starts
    case NoStop => NoStop
    case Stop(e, more) => Append(CommaEnds(s, e), CommaAfter(s, more))
  }

  /** A double-quoted string, a single-quoted string, or else the given unquoted alternative. */
  function Alternatives(s: string, i: nat, unquoted: Stops): Stops {
    Append(QuotedEnds(s, i, '"'), Append(QuotedEnds(s, i, '\''), unquoted))
  }

  /** A list item and its comma in `_valueexp`. */
  function ItemEnds(s: string, i: nat): Stops {
    var unquoted := if i < |s| && s[i] !in "'\",#" then RunEnds(s, i + 1, ",#") else NoStop;
    CommaAfter(s, Alternatives(s, i, unquoted))
  }

  /** The last item, or a single value, in `_valueexp`. */
  function LastEnds(s: string, i: nat): Stops
    requires i <= |s|
  {
    var unquoted := if i < |s| && s[i] !in "'\",#" && !IsSpace(s[i]) then RunEnds(s, i + 1, ",") else NoStop;
    var empty := if i == 0 || s[i - 1] != ',' then Stop(i, NoStop) else NoStop;
    Alternatives(s, i, Append(unquoted, empty))
  }

  /** Blanks and an optional comment reach from `i` to the end of the line. */
  predicate OnlyComment(s: string, i: nat) {
    i <= |s| &&
    var k := SpaceEnd(s, i);
    k == |s| || (s[k] == '#' && '\n' !in s[k..])
  }

  function FirstThatEnds(s: string, ends: Stops): (r: Option<nat>)
    ensures r.Some? ==> OnlyComment(s, r.value)
  {
    match ends
    case NoStop => None
    case Stop(e, more) => if OnlyComment(s, e) then Some(e) else FirstThatEnds(s, more)
  }

  /** The optional last item: where it stops, or that it takes no part in the match. */
  datatype Tail = NoMatch | WithoutLast | LastUpTo(end: nat)

  function MatchTail(s: string, i: nat): (t: Tail)
    requires i <= |s|
    ensures t.LastUpTo? ==> OnlyComment(s, t.end)
  {
    match FirstThatEnds(s, LastEnds(s, i))
    case Some(e) => LastUpTo(e)
    case None => if OnlyComment(s, i) then WithoutLast else NoMatch
  }

  /** Where the repeated list items stop: items greedily, giving back one at a time when the rest fails. */
  function MatchItems(s: string, i: nat): (r: Option<nat>)
    requires i <= |s|
    ensures r.Some? ==> i <= r.value <= |s| && !MatchTail(s, r.value).NoMatch?
    decreases |s| - i, 1, NoStop
  {
    match TryItems(s, i, ItemEnds(s, i))
    case Some(e) => Some(e)
    case None => if MatchTail(s, i).NoMatch? then None else Some(i)
  }

  function TryItems(s: string, i: nat, ends: Stops): (r: Option<nat>)
    requires i <= |s|
    ensures r.Some? ==> i <= r.value <= |s| && !MatchTail(s, r.value).NoMatch?
    decreases |s| - i, 0, ends
  {
    match ends
    case NoStop => None
    case Stop(e, more) =>
      var found := if i < e <= |s| then MatchItems(s, e) else None;
      if found.Some? then found else TryItems(s, i, more)
  }

  /** An item of `findall`: where it stops, and where its comma and the blanks after it do. */
  function FindItem(s: string, starts: Stops): Option<(nat, nat)> {
    match starts
    case NoStop => None
    case Stop(e, more) =>
      match CommaEnds(s, e)
      case Stop(next, _) => Some((e, next))
      case NoStop => FindItem(s, more)
  }

  /** A list item in `_listvalueexp`. */
  function ItemStarts(s: string, i: nat): Stops {
    var taking := if i < |s| && s[i] !in "'\",#" then RunEnds(s, i + 1, "\n") else NoStop;
    Alternatives(s, i, Append(taking, RunEnds(s, i, "\n")))
  }

  /** `findall` of `_listvalueexp` from position `i`. */
  function FindAll(s: string, i: nat): seq<string>
    decreases |s| - i
  {
    match FindItem(s, ItemStarts(s, i))
    case Some((e, next)) => [Slice(s, i, e)] + if i < next <= |s| then FindAll(s, next) else []
    case None => if i < |s| then FindAll(s, i + 1) else []
  }

  // ---------------------------------------------------------------- reading

  function Unquote(s: string): Result<string, Failure> {
    if s == "" then Err(Malformed)
    else if s[0] == s[|s| - 1] && (s[0] == '"' || s[0] == '\'') then
      Ok(if |s| >= 2 then s[1..|s| - 1] else "")
    else Ok(s)
  }

  function UnquoteAll(parts: seq<string>): Result<seq<string>, Failure> {
    if parts == [] then Ok([])
    else
      match Unquote(parts[0])
      case Err(e) => Err(e)
      case Ok(v) =>
        match UnquoteAll(parts[1..])
        case Err(e) => Err(e)
        case Ok(vs) => Ok([v] + vs)
  }

  /** `_handle_value`, without the comment it also returns. */
  function HandleValue(s: string): Result<Value, Failure> {
    match MatchItems(s, 0)
    case None =>
      if s != "" && s[0] == ',' && OnlyComment(s, 1) then Ok(List([])) else Err(Malformed)
    case Some(i) =>
      var tail := MatchTail(s, i);
      if i == 0 then
        match tail {
          case LastUpTo(e) =>
            (match Unquote(if e == 0 then "\"\"" else Slice(s, 0, e))
             case Ok(single) => Ok(Text(single))
             case Err(e) => Err(e))
          case _ => Err(Malformed)
        }
      else
        match UnquoteAll(FindAll(s[..i], 0)) {
          case Err(e) => Err(e)
          case Ok(items) =>
            if tail.LastUpTo? && tail.end > i then
              (match Unquote(Slice(s, i, tail.end))
               case Ok(last) => Ok(List(items + [last]))
               case Err(e) => Err(e))
            else Ok(List(items))
        }
  }

  /** The nearest triple quote that only blanks and a comment follow. */
  function TripleEnd(s: string, i: nat, q: char): (r: Option<nat>)
    requires i <= |s|
    ensures r.Some? ==> i <= r.value <= |s|
    decreases |s| - i
  {
    if i + 3 <= |s| && s[i] == q && s[i + 1] == q && s[i + 2] == q && OnlyComment(s, i + 3) then Some(i)
    else if i < |s| && s[i] != '\n' then TripleEnd(s, i + 1, q)
    else None
  }

  /** The lines up to the one that closes a triple-quoted value, joined to `so far`. */
  function CloseTriple(sofar: string, lines: seq<string>, q: char): Result<string, Failure>
    decreases |lines|
  {
    if lines == [] then Err(Malformed)
    else if !HasTriple(lines[0], q) then CloseTriple(sofar + "\n" + lines[0], lines[1..], q)
    else
      match TripleEnd(lines[0], 0, q)
      case Some(e) => Ok(sofar + "\n" + lines[0][..e])
      case None => Err(Malformed)
  }

  predicate OpensTriple(s: string) {
    |s| >= 3 && (s[..3] == TRIPLE_SINGLE || s[..3] == TRIPLE_DOUBLE)
  }

  /** `_multiline` as a function of the opening line and the lines below it. */
  function MultilineValue(value: string, lines: seq<string>): Result<string, Failure>
    requires OpensTriple(value)
  {
    match TripleEnd(value, 3, value[0])
    case Some(e) => Ok(value[3..e])
    case None =>
      if HasTriple(value[3..], value[0]) then Err(Malformed) else CloseTriple(value[3..], lines, value[0])
  }

  /** Line `index` is the nearest below `from` that holds the closing quotes. */
  ghost predicate ClosedAt(infile: seq<string>, from: nat, index: nat, q: char) {
    && from < index < |infile| && HasTriple(infile[index], q)
    && forall k :: from < k < index ==> !HasTriple(infile[k], q)
  }

  /** `_multiline`; `index` is the line it stops at: the one that closes the value, behind which parsing goes on. */
  method Multiline(value: string, infile: seq<string>, curIndex: nat) returns (r: Result<string, Failure>, index: nat)
    requires OpensTriple(value) && curIndex < |infile|
    ensures r == MultilineValue(value, infile[curIndex + 1..])
    ensures TripleEnd(value, 3, value[0]).Some? ==> index == curIndex
    ensures r.Ok? && TripleEnd(value, 3, value[0]).None? ==> ClosedAt(infile, curIndex, index, value[0])
  {
    var quot := value[0];
    var newvalue := value[3..];
    index := curIndex;
    var single := TripleEnd(value, 3, quot);
    if single.Some? {
      return Ok(value[3..single.value]), index;
    } else if HasTriple(newvalue, quot) {
      return Err(Malformed), index;
    }
    var maxline := |infile| - 1;
    var line := "";
    var found := false;
    while index < maxline && !found
      invariant curIndex <= index <= maxline
      invariant forall k :: curIndex < k < index ==> !HasTriple(infile[k], quot)
      invariant if found then index > curIndex && line == infile[index] && HasTriple(line, quot)
                else index > curIndex ==> !HasTriple(infile[index], quot)
      invariant CloseTriple(value[3..], infile[curIndex + 1..], quot) ==
                if found then
                  (match TripleEnd(line, 0, quot) case Some(e) => Ok(newvalue + line[..e]) case None => Err(Malformed))
                else CloseTriple(newvalue, infile[index + 1..], quot)
      decreases maxline - index, !found
    {
      index := index + 1;
      newvalue := newvalue + "\n";
      line := infile[index];
      assert infile[index..][1..] == infile[index + 1..];
      if HasTriple(line, quot) {
        found := true;
      } else {
        newvalue := newvalue + line;
      }
    }
    if !found {
      return Err(Malformed), index;
    }
    var close := TripleEnd(line, 0, quot);
    match close
    case None => return Err(Malformed), index;
    case Some(e) => return Ok(newvalue + line[..e]), index;
  }

  /** The text right of the `=` of a key line; the key expression drops the blanks that lead it. */
  function ReadValue(first: string, lines: seq<string>): Result<Value, Failure> {
    var value := first[SpaceEnd(first, 0)..];
    if OpensTriple(value) then
      match MultilineValue(value, lines)
      case Ok(s) => Ok(Text(s))
      case Err(e) => Err(e)
    else HandleValue(value)
  }

  /** Splitting at line ends. */
  function Lines(s: string): (lines: seq<string>)
    ensures lines != [] && forall k :: 0 <= k < |lines| ==> '\n' !in lines[k]
  {
    if s == "" then [""]
    else
      var rest := Lines(s[1..]);
      if s[0] == '\n' then [""] + rest else [[s[0]] + rest[0]] + rest[1..]
  }

  /** A line as it is loaded: without the carriage returns and line ends it ends in. */
  function StripEnd(line: string): string {
    if line != "" && line[|line| - 1] in "\r\n" then StripEnd(line[..|line| - 1]) else line
  }

  function StripAll(lines: seq<string>): (r: seq<string>)
    ensures |r| == |lines| && forall k :: 0 <= k < |r| ==> r[k] == StripEnd(lines[k])
  {
    if lines == [] then [] else [StripEnd(lines[0])] + StripAll(lines[1..])
  }

  /** What is read back when `text` was written to a file after `key = `. */
  function Reread(text: string): Result<Value, Failure> {
    var lines := StripAll(Lines(" " + text));
    ReadValue(lines[0], lines[1..])
  }
}
