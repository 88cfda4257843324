/**
 The wire format of `pushlog-stream` (hgext/pushlog/__init__.py): how the server renders its pushes and how the client
 reads them back line by line, whatever becomes of the connection.
 */
module PushStream {
  import opened Prelude

  /** Nodes are 40 hexadecimal digits. */
  datatype Push = Push(id: nat, user: string, when: nat, nodes: seq<string>)

  predicate IsHex(c: char) {
    '0' <= c <= '9' || 'a' <= c <= 'f' || 'A' <= c <= 'F'
  }

  predicate IsNode(s: string) {
    |s| == 40 && forall i :: 0 <= i < |s| ==> IsHex(s[i])
  }

  // ---------------------------------------------------------------- the server's side

  function Joined(nodes: seq<string>): string {
    if nodes == [] then "" else if |nodes| == 1 then nodes[0] else nodes[0] + " " + Joined(nodes[1..])
  }

  function Line(p: Push): string {
    Decimal(p.id) + " " + (p.user + " " + (Decimal(p.when) + " " + Joined(p.nodes)))
  }

  function Body(pushes: seq<Push>): string {
    if pushes == [] then "" else Line(pushes[0]) + "\n" + Body(pushes[1..])
  }

  /** The response ends in `ok`, or in the message of the error that stopped it. */
  function Trailer(error: Option<string>): string {
    match error
    case None => "ok"
    case Some(message) => "error " + message
  }

  function Response(pushes: seq<Push>, error: Option<string>): string {
    Body(pushes) + (Trailer(error) + "\n")
  }

  /** Id, user, time and nodes are set apart by blanks; each push has a line, and the trailer one. */
  lemma ResponseLetters(p: Push, user: string, m: string, n: string)
    requires p == Push(7, user, 42, [m, n])
    ensures Line(p) == "7 " + (user + (" 42 " + (m + " " + n)))
    ensures Response([p], None) == Line(p) + "\nok\n"
    ensures Response([], Some(user)) == "error " + user + "\n"
  {
    assert Decimal(7) == "7" && Decimal(4) == "4" && Decimal(42) == Decimal(4) + "2";
    assert [m, n][1..] == [n] && Joined([m, n]) == m + " " + n;
    LettersOfLine(user, m + " " + n);
    assert [p][1..] == [] && Body([p]) == Line(p) + "\n" + "";
    assert Line(p) + "\n" + ("ok" + "\n") == Line(p) + "\nok\n";
  }

  lemma LettersOfLine(user: string, nodes: string)
    ensures "7" + " " + (user + " " + ("42" + " " + nodes)) == "7 " + (user + (" 42 " + nodes))
  {
    assert user + " " + ("42" + " " + nodes) == user + (" 42 " + nodes);
  }

  // ---------------------------------------------------------------- the client's side

  /** `readline`: a line without its newline, and what is left unread. */
  function ReadLine(s: string): (r: (string, string))
    ensures s != "" ==> |r.1| < |s|
  {
    var n := Find(s, '\n', 0);
    if n == |s| then (s, "") else (s[..n], s[n + 1..])
  }

  /** `split(b" ", 1)`. */
  function Cut(s: string): Option<(string, string)> {
    var n := Find(s, ' ', 0);
    if n == |s| then None else Some((s[..n], s[n + 1..]))
  }

  predicate IsSpace(c: char) {
    c == ' ' || ('\t' <= c <= '\r')
  }

  function WordEnd(s: string, i: nat): (r: nat)
    requires i <= |s|
    ensures i <= r <= |s| && (forall k :: i <= k < r ==> !IsSpace(s[k])) && (r < |s| ==> IsSpace(s[r]))
    decreases |s| - i
  {
    if i == |s| || IsSpace(s[i]) then i else WordEnd(s, i + 1)
  }

  /** `split()`. */
  function Words(s: string): seq<string>
    decreases |s|
  {
    if s == "" then []
    else if IsSpace(s[0]) then Words(s[1..])
    else var n := WordEnd(s, 1); [s[..n]] + Words(s[n..])
  }

  predicate IsDigit(c: char) { '0' <= c <= '9' }

  function Number(s: string, value: nat): Option<nat>
    decreases |s|
  {
    if s == "" then Some(value)
    else if IsDigit(s[0]) then Number(s[1..], 10 * value + (s[0] as int - '0' as int))
    else None
  }

  function ToInt(s: string): Option<nat> {
    if s == "" then None else Number(s, 0)
  }

  datatype Fields = Fields(id: string, user: string, when: string, nodes: seq<string>)

  /** The four fields of a line, its last one split into nodes; None where the split or `bin` raises. */
  function Parse(line: string): Option<Fields> {
    match Cut(line)
    case None => None
    case Some((id, rest)) =>
      match Cut(rest)
      case None => None
      case Some((user, rest)) =>
        match Cut(rest)
        case None => None
        case Some((when, rest)) =>
          var nodes := Words(rest);
          if forall i :: 0 <= i < |nodes| ==> IsNode(nodes[i]) then Some(Fields(id, user, when, nodes)) else None
  }

  predicate AllKnown(nodes: seq<string>, known: set<string>) {
    forall i :: 0 <= i < |nodes| ==> nodes[i] in known
  }

  predicate IsTrailer(line: string) {
    line == "ok" || "error " <= line
  }

  /** Reading on to the trailer, or to the end of the stream. */
  function Drain(s: string): string
    decreases |s|
  {
    if s == "" then ""
    else var (line, rest) := ReadLine(s); if IsTrailer(line) then rest else Drain(rest)
  }

  /** How a reception ends: by a return, by the retryable error, or by any other exception. */
  datatype Ending = Complete | Failed(message: string) | Malformed

  datatype Reception = Reception(pushes: seq<Push>, end: Ending, rest: string)

  const NO_TRAILER := "stream ended without trailer"

  /** The pushes the client inserts, one by one, from the unread bytes `s`. */
  function Receive(s: string, known: set<string>): Reception
    decreases |s|
  {
    if s == "" then Reception([], Failed(NO_TRAILER), "")
    else
      var (line, rest) := ReadLine(s);
      if line == "" then Receive(rest, known)
      else if line == "ok" then Reception([], Complete, rest)
      else if "error " <= line then Reception([], Failed(line[6..]), rest)
      else
        match Parse(line)
        case None => Reception([], Malformed, rest)
        case Some(f) =>
          if !AllKnown(f.nodes, known) then Reception([], Complete, Drain(rest))
          else
            match (ToInt(f.id), ToInt(f.when))
            case (Some(id), Some(when)) =>
              var more := Receive(rest, known);
              more.(pushes := [Push(id, f.user, when, f.nodes)] + more.pushes)
            case _ => Reception([], Malformed, rest)
  }

  // ---------------------------------------------------------------- a line reads back

  /** What the server's users and changesets look like. */
  ghost predicate Clean(p: Push) {
    && Lacks(p.user, ' ') && Lacks(p.user, '\n')
    && (forall i :: 0 <= i < |p.nodes| ==> IsNode(p.nodes[i]))
  }

  ghost predicate Lacks(s: string, c: char) {
    forall k :: 0 <= k < |s| ==> s[k] != c
  }

  lemma {:induction false} FindFirst(a: string, c: char, b: string, i: nat)
    requires i <= |a| && Lacks(a, c)
    ensures Find(a + [c] + b, c, i) == |a| && Find(a, c, i) == |a|
    decreases |a| - i
  {
    if i < |a| {
      assert (a + [c] + b)[i] == a[i];
      FindFirst(a, c, b, i + 1);
    }
  }

  lemma ReadLineAt(a: string, b: string)
    requires Lacks(a, '\n')
    ensures ReadLine(a + "\n" + b) == (a, b) && ReadLine(a) == (a, "")
  {
    FindFirst(a, '\n', b, 0);
    assert "\n" == ['\n'];
    var s := a + "\n" + b;
    assert s[..|a|] == a && s[|a| + 1..] == b;
  }

  lemma CutAt(a: string, b: string)
    requires Lacks(a, ' ')
    ensures Cut(a + " " + b) == Some((a, b)) && Cut(a) == None
  {
    FindFirst(a, ' ', b, 0);
    assert " " == [' '];
    var s := a + " " + b;
    assert s[..|a|] == a && s[|a| + 1..] == b;
  }

  lemma {:induction false} DecimalDigits(n: nat, i: nat)
    requires i < |Decimal(n)|
    ensures IsDigit(Decimal(n)[i])
  {
    if n >= 10 && i < |Decimal(n / 10)| { DecimalDigits(n / 10, i); }
  }

  lemma {:induction false} NumberAppend(s: string, d: char, value: nat)
    requires IsDigit(d) && Number(s, value).Some?
    ensures Number(s + [d], value) == Some(10 * Number(s, value).value + (d as int - '0' as int))
    decreases |s|
  {
    if s == "" {
      assert s + [d] == [d] && [d][1..] == "";
    } else {
      assert (s + [d])[0] == s[0] && (s + [d])[1..] == s[1..] + [d];
      NumberAppend(s[1..], d, 10 * value + (s[0] as int - '0' as int));
    }
  }

  lemma {:induction false} DecimalReads(n: nat)
    ensures ToInt(Decimal(n)) == Some(n)
  {
    if n < 10 {
      var s := Decimal(n);
      assert s[1..] == "" && s[0] as int - '0' as int == n;
      assert Number(s, 0) == Number(s[1..], n);
    } else {
      DecimalReads(n / 10);
      DigitValue(n % 10);
      NumberAppend(Decimal(n / 10), "0123456789"[n % 10], 0);
    }
  }

  lemma DigitValue(d: nat)
    requires d < 10
    ensures IsDigit("0123456789"[d]) && "0123456789"[d] as int - '0' as int == d
  {
  }

  lemma DecimalLacks(n: nat)
    ensures Lacks(Decimal(n), ' ') && Lacks(Decimal(n), '\n') && IsDigit(Decimal(n)[0])
  {
    forall k | 0 <= k < |Decimal(n)|
      ensures Decimal(n)[k] != ' ' && Decimal(n)[k] != '\n'
    {
      DecimalDigits(n, k);
    }
    DecimalDigits(n, 0);
  }

  /** A word before a space, or alone. */
  lemma WordsFirst(w: string, rest: string)
    requires w != "" && forall k :: 0 <= k < |w| ==> !IsSpace(w[k])
    ensures Words(w + " " + rest) == [w] + Words(rest) && Words(w) == [w]
  {
    var s := w + " " + rest;
    WordEndAt(w, rest, 1);
    assert s[0] == w[0] && s[..|w|] == w && s[|w|..] == " " + rest && (" " + rest)[1..] == rest;
    assert Words(" " + rest) == Words(rest);
    assert w[..|w|] == w && w[|w|..] == "";
    assert [w] + [] == [w];
  }

  lemma {:induction false} WordEndAt(w: string, rest: string, i: nat)
    requires i <= |w| && forall k :: 0 <= k < |w| ==> !IsSpace(w[k])
    ensures WordEnd(w + " " + rest, i) == |w| && WordEnd(w, i) == |w|
    decreases |w| - i
  {
    if i < |w| {
      assert (w + " " + rest)[i] == w[i];
      WordEndAt(w, rest, i + 1);
    } else {
      assert (w + " " + rest)[i] == ' ';
    }
  }

  lemma NodeIsWord(node: string)
    requires IsNode(node)
    ensures node != "" && Lacks(node, '\n') && forall k :: 0 <= k < |node| ==> !IsSpace(node[k])
  {
    assert node[0] == node[0];
  }

  lemma WordsEmpty()
    ensures Words("") == []
  {
  }

  lemma {:induction false} WordsOfJoined(nodes: seq<string>)
    requires forall i :: 0 <= i < |nodes| ==> IsNode(nodes[i])
    ensures Words(Joined(nodes)) == nodes && Lacks(Joined(nodes), '\n')
    decreases |nodes|
  {
    hide IsSpace, IsNode, Words;
    WordsEmpty();
    if nodes != [] {
      NodeIsWord(nodes[0]);
      if |nodes| == 1 {
        WordsFirst(nodes[0], "");
      } else {
        WordsFirst(nodes[0], Joined(nodes[1..]));
        WordsOfJoined(nodes[1..]);
        assert [nodes[0]] + nodes[1..] == nodes;
      }
    }
  }

  lemma JoinLacks(a: string, b: string, c: char)
    requires Lacks(a, c) && Lacks(b, c) && c != ' '
    ensures Lacks(a + " " + b, c)
  {
    forall k | 0 <= k < |a + " " + b|
      ensures (a + " " + b)[k] != c
    {
      if k > |a| { assert (a + " " + b)[k] == b[k - |a| - 1]; }
    }
  }

  lemma LineIsOneLine(p: Push)
    requires Clean(p)
    ensures Lacks(Line(p), '\n') && Line(p) != "" && IsDigit(Line(p)[0])
  {
    hide Lacks, Decimal, Joined;
    DecimalLacks(p.id);
    DecimalLacks(p.when);
    WordsOfJoined(p.nodes);
    JoinLacks(Decimal(p.when), Joined(p.nodes), '\n');
    JoinLacks(p.user, Decimal(p.when) + " " + Joined(p.nodes), '\n');
    JoinLacks(Decimal(p.id), p.user + " " + (Decimal(p.when) + " " + Joined(p.nodes)), '\n');
    assert Line(p)[0] == Decimal(p.id)[0];
  }

  /** A line reads back as its push, also when the push has no nodes. */
  lemma LineParses(p: Push)
    requires Clean(p)
    ensures Parse(Line(p)) == Some(Fields(Decimal(p.id), p.user, Decimal(p.when), p.nodes))
    ensures ToInt(Decimal(p.id)) == Some(p.id) && ToInt(Decimal(p.when)) == Some(p.when)
  {
    hide Decimal, Joined, Cut, Words, IsNode;
    DecimalLacks(p.id);
    DecimalLacks(p.when);
    CutAt(Decimal(p.id), p.user + " " + (Decimal(p.when) + " " + Joined(p.nodes)));
    CutAt(p.user, Decimal(p.when) + " " + Joined(p.nodes));
    CutAt(Decimal(p.when), Joined(p.nodes));
    WordsOfJoined(p.nodes);
    DecimalReads(p.id);
    DecimalReads(p.when);
  }

  // ---------------------------------------------------------------- complete responses

  /** The longest prefix of pushes whose nodes are all known. */
  function LongestKnown(pushes: seq<Push>, known: set<string>): (r: seq<Push>)
    ensures r <= pushes
    ensures |r| < |pushes| ==> !AllKnown(pushes[|r|].nodes, known)
    ensures forall i :: 0 <= i < |r| ==> AllKnown(r[i].nodes, known)
  {
    if pushes == [] || !AllKnown(pushes[0].nodes, known) then []
    else [pushes[0]] + LongestKnown(pushes[1..], known)
  }

  ghost predicate CleanAll(pushes: seq<Push>, error: Option<string>) {
    && (forall i :: 0 <= i < |pushes| ==> Clean(pushes[i]))
    && (error.Some? ==> Lacks(error.value, '\n'))
  }

  lemma TrailerIsOneLine(error: Option<string>)
    requires error.Some? ==> Lacks(error.value, '\n')
    ensures Lacks(Trailer(error), '\n') && IsTrailer(Trailer(error)) && Trailer(error) != ""
  {
    if error.Some? {
      assert Lacks("error ", '\n');
      assert ("error " + error.value)[..6] == "error ";
    }
  }

  lemma ResponseStep(pushes: seq<Push>, error: Option<string>, rest: string)
    requires pushes != []
    ensures Response(pushes, error) + rest == Line(pushes[0]) + "\n" + (Response(pushes[1..], error) + rest)
  {
    hide Line, Trailer;
  }

  lemma ReadPush(p: Push, rest: string)
    requires Clean(p)
    ensures Line(p) + "\n" + rest != ""
    ensures ReadLine(Line(p) + "\n" + rest) == (Line(p), rest) && Line(p) != "" && !IsTrailer(Line(p))
  {
    hide Line, ReadLine;
    LineIsOneLine(p);
    ReadLineAt(Line(p), rest);
    assert (Line(p) + "\n" + rest)[0] == Line(p)[0];
  }

  lemma ReadTrailer(error: Option<string>, rest: string)
    requires error.Some? ==> Lacks(error.value, '\n')
    ensures Trailer(error) + "\n" + rest != "" && Trailer(error) != "" && IsTrailer(Trailer(error))
    ensures ReadLine(Trailer(error) + "\n" + rest) == (Trailer(error), rest)
  {
    hide Trailer, ReadLine;
    TrailerIsOneLine(error);
    ReadLineAt(Trailer(error), rest);
    assert (Trailer(error) + "\n" + rest)[0] == Trailer(error)[0];
  }

  /** Draining consumes the response exactly through its trailer. */
  lemma {:induction false} DrainsResponse(pushes: seq<Push>, error: Option<string>, rest: string)
    requires CleanAll(pushes, error)
    ensures Drain(Response(pushes, error) + rest) == rest
    decreases |pushes|
  {
    hide Line, ReadLine, IsTrailer, Trailer, Clean;
    if pushes == [] {
      assert Response(pushes, error) + rest == Trailer(error) + "\n" + rest;
      ReadTrailer(error, rest);
    } else {
      hide Response;
      ResponseStep(pushes, error, rest);
      ReadPush(pushes[0], Response(pushes[1..], error) + rest);
      DrainsResponse(pushes[1..], error, rest);
    }
  }

  function Ended(error: Option<string>): Ending {
    match error case None => Complete case Some(message) => Failed(message)
  }

  /** A complete response yields the longest run of known pushes and leaves exactly the bytes behind its trailer. */
  lemma {:induction false} ReceivesResponse(pushes: seq<Push>, error: Option<string>, rest: string, known: set<string>)
    requires CleanAll(pushes, error)
    ensures Receive(Response(pushes, error) + rest, known)
         == Reception(LongestKnown(pushes, known),
                      if LongestKnown(pushes, known) == pushes then Ended(error) else Complete, rest)
    decreases |pushes|
  {
    hide Line, ReadLine, IsTrailer, Trailer, Clean, Parse, ToInt, Drain, AllKnown;
    if pushes == [] {
      assert Response(pushes, error) + rest == Trailer(error) + "\n" + rest;
      ReceivesTrailer(error, rest, known);
    } else {
      ResponseStep(pushes, error, rest);
      ReceivesPush(pushes[0], Response(pushes[1..], error) + rest, known);
      if AllKnown(pushes[0].nodes, known) {
        ReceivesResponse(pushes[1..], error, rest, known);
        var all := LongestKnown(pushes[1..], known);
        assert [pushes[0]] + all == pushes <==> all == pushes[1..];
      } else {
        DrainsResponse(pushes[1..], error, rest);
      }
    }
  }

  lemma ReceivesTrailer(error: Option<string>, rest: string, known: set<string>)
    requires error.Some? ==> Lacks(error.value, '\n')
    ensures Receive(Trailer(error) + "\n" + rest, known) == Reception([], Ended(error), rest)
  {
    hide ReadLine, Parse, ToInt, Drain, AllKnown;
    ReadTrailer(error, rest);
    if error.Some? { assert ("error " + error.value)[6..] == error.value; }
  }

  lemma ReceivesPush(p: Push, rest: string, known: set<string>)
    requires Clean(p)
    ensures Receive(Line(p) + "\n" + rest, known)
         == if AllKnown(p.nodes, known)
            then Receive(rest, known).(pushes := [p] + Receive(rest, known).pushes)
            else Reception([], Complete, Drain(rest))
  {
    hide Line, ReadLine, Parse, ToInt, Drain, AllKnown;
    ReadPush(p, rest);
    LineParses(p);
  }

  /** A blank line is skipped; a line that cannot be split into four fields, and is no trailer, ends the reception. */
  lemma OddLines(line: string, rest: string, known: set<string>)
    requires Lacks(line, '\n') && Lacks(line, ' ')
    ensures Receive("\n" + rest, known) == Receive(rest, known)
    ensures line != "" && line != "ok" ==> Receive(line + "\n" + rest, known) == Reception([], Malformed, rest)
  {
    ReadLineAt("", rest);
    assert "" + "\n" + rest == "\n" + rest;
    ReadLineAt(line, rest);
    CutAt(line, "");
    assert "error "[5] == ' ';
  }

  /** Whole lines of known pushes are all received, whatever follows them. */
  lemma {:induction false} ReceivesBody(pushes: seq<Push>, rest: string, known: set<string>)
    requires CleanAll(pushes, None) && forall i :: 0 <= i < |pushes| ==> AllKnown(pushes[i].nodes, known)
    ensures Receive(Body(pushes) + rest, known)
         == Receive(rest, known).(pushes := pushes + Receive(rest, known).pushes)
    decreases |pushes|
  {
    hide Line, Clean, Receive, AllKnown;
    var more := Receive(rest, known).pushes;
    if pushes == [] {
      assert "" + rest == rest && [] + more == more;
    } else {
      var behind := Body(pushes[1..]) + rest;
      assert Body(pushes) + rest == Line(pushes[0]) + "\n" + behind;
      ReceivesPush(pushes[0], behind, known);
      ReceivesBody(pushes[1..], rest, known);
      assert [pushes[0]] + (pushes[1..] + more) == pushes + more;
    }
  }

  // ---------------------------------------------------------------- cut responses

  /** A cut text that ends inside the first word, or behind the space after it. */
  lemma CutPrefix(a: string, b: string, c: string) returns (tail: string)
    requires Lacks(a, ' ') && c <= a + " " + b
    ensures Cut(c) == None || (Cut(c) == Some((a, tail)) && tail <= b)
  {
    hide Cut;
    if |c| <= |a| {
      assert c == a[..|c|];
      CutAt(c, "");
      tail := "";
    } else {
      tail := c[|a| + 1..];
      assert c == a + " " + tail;
      CutAt(a, tail);
    }
  }

  /** The complete nodes of a cut list are nodes of the list. */
  lemma {:induction false} WordsOfCut(nodes: seq<string>, c: string, i: nat)
    requires forall i :: 0 <= i < |nodes| ==> IsNode(nodes[i])
    requires c <= Joined(nodes) && i < |Words(c)| && IsNode(Words(c)[i])
    ensures Words(c)[i] in nodes
    decreases |nodes|
  {
    if nodes != [] {
      NodeIsWord(nodes[0]);
      if |c| <= 40 {
        assert c == nodes[0][..|c|];
        CutWord(nodes[0], c);
        assert |c| == 40 ==> c == nodes[0];
      } else {
        var tail := c[41..];
        assert c == nodes[0] + " " + tail;
        WordsFirst(nodes[0], tail);
        if i > 0 { WordsOfCut(nodes[1..], tail, i - 1); }
      }
    }
  }

  lemma CutWord(w: string, c: string)
    requires c <= w && w != "" && forall k :: 0 <= k < |w| ==> !IsSpace(w[k])
    ensures Words(c) == if c == "" then [] else [c]
  {
    if c != "" { WordsFirst(c, ""); }
  }

  /** A cut line is refused, or its nodes are among the nodes of the push. */
  lemma CutLineParses(p: Push, c: string)
    requires Clean(p) && c <= Line(p)
    ensures Parse(c).Some? ==> forall i :: 0 <= i < |Parse(c).value.nodes| ==> Parse(c).value.nodes[i] in p.nodes
  {
    hide Decimal, Joined, Words, Cut, IsNode;
    DecimalLacks(p.id);
    DecimalLacks(p.when);
    var t := CutPrefix(Decimal(p.id), p.user + " " + (Decimal(p.when) + " " + Joined(p.nodes)), c);
    if Cut(c).Some? {
      var u := CutPrefix(p.user, Decimal(p.when) + " " + Joined(p.nodes), t);
      if Cut(t).Some? {
        var v := CutPrefix(Decimal(p.when), Joined(p.nodes), u);
        if Parse(c).Some? {
          forall i | 0 <= i < |Words(v)|
            ensures Words(v)[i] in p.nodes
          {
            WordsOfCut(p.nodes, v, i);
          }
        }
      }
    }
  }

  /** A connection lost inside a line completes nothing, unless the line shows a push the client does not know. */
  lemma ReceivesCutLine(p: Push, c: string, known: set<string>)
    requires Clean(p) && c <= Line(p)
    ensures Receive(c, known).end.Complete? ==> Receive(c, known).pushes == [] && !AllKnown(p.nodes, known)
  {
    hide Line, Parse, ToInt, Drain;
    if c != "" {
      LineIsOneLine(p);
      assert c[0] == Line(p)[0];
      forall k | 0 <= k < |c|
        ensures c[k] != '\n'
      {
        assert c[k] == Line(p)[k];
      }
      ReadLineAt(c, "");
      CutLineParses(p, c);
      assert Receive("", known) == Reception([], Failed(NO_TRAILER), "");
    }
  }

  lemma ReceivesCutTrailer(error: Option<string>, c: string, known: set<string>)
    requires error.Some? ==> Lacks(error.value, '\n')
    requires c <= Trailer(error) + "\n"
    ensures Receive(c, known).end.Complete? ==> Receive(c, known).pushes == [] && error.None?
  {
    hide Parse, ToInt, Drain;
    var line := Trailer(error);
    if c == line + "\n" {
      assert c == line + "\n" + "";
      hide Receive;
      ReceivesTrailer(error, "", known);
    } else if c != "" {
      assert c == line[..|c|];
      TrailerIsOneLine(error);
      forall k | 0 <= k < |c|
        ensures c[k] != '\n'
      {
        assert c[k] == line[k];
      }
      ReadLineAt(c, "");
      if error.Some? || |c| < 2 {
        if !("error " <= c) { CutTrailerParses(error, c); }
      }
    }
  }

  lemma CutTrailerParses(error: Option<string>, c: string)
    requires c <= Trailer(error) && !("error " <= c)
    ensures Parse(c).None?
  {
    hide Words;
    if error.Some? {
      assert c == "error "[..|c|];
      assert Lacks("error", ' ');
      assert c == "error"[..|c|];
    }
    CutAt(c, "");
  }

  /** Wherever the connection is lost, a response that is taken for complete has yielded exactly the pushes the whole
      response would have yielded; all other losses end in an error. */
  lemma {:induction false} CutIsNoticedOrHarmless(pushes: seq<Push>, error: Option<string>, c: string,
                                                  known: set<string>)
    requires CleanAll(pushes, error) && c <= Response(pushes, error)
    ensures Receive(c, known).end.Complete? ==>
              && Receive(c, known).pushes == LongestKnown(pushes, known)
              && (error.None? || LongestKnown(pushes, known) != pushes)
    decreases |pushes|
  {
    hide Line, ReadLine, Trailer, Clean, Receive, AllKnown;
    if pushes == [] {
      assert Response(pushes, error) == Trailer(error) + "\n";
      ReceivesCutTrailer(error, c, known);
    } else {
      var whole := Response(pushes[1..], error);
      ResponseStep(pushes, error, "");
      assert whole + "" == whole && Response(pushes, error) + "" == Response(pushes, error);
      var line := Line(pushes[0]);
      if |c| <= |line| {
        assert c == line[..|c|];
        ReceivesCutLine(pushes[0], c, known);
      } else {
        var more := c[|line| + 1..];
        assert c == line + "\n" + more && more <= whole;
        ReceivesPush(pushes[0], more, known);
        CutIsNoticedOrHarmless(pushes[1..], error, more, known);
        assert LongestKnown(pushes, known) == pushes ==> LongestKnown(pushes[1..], known) == pushes[1..];
      }
    }
  }
}
