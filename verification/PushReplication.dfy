/**
 Replicating a server's pushlog during a pull (hgext/pushlog/__init__.py): the client inserts what the stream brings,
 retries after remote errors and leaves the database alone when a pull fails.
 */
module PushReplication {
  import opened Prelude
  import opened PushTables
  import PushStream

  /** What an attempt or a pull ends with besides a count: the retryable remote error, an abort, or another exception.
      */
  datatype PullError = Remote(message: string) | Abort | Raised

  // ---------------------------------------------------------------- one attempt

  lemma {:induction false} ReceivedKnown(s: string, revs: Revs)
    ensures AllKnown(PushStream.Receive(s, revs.Keys).pushes, revs)
    decreases |s|
  {
    hide PushStream.Parse, PushStream.ToInt, PushStream.ReadLine, PushStream.Drain, PushStream.AllKnown;
    if s != "" {
      var (line, rest) := PushStream.ReadLine(s);
      ReceivedKnown(rest, revs);
    }
  }

  /** What one attempt makes of the bytes `s`: the tables it leaves and the number of pushes it added. */
  ghost function Attempt(t: Tables, s: string, revs: Revs): Result<(Tables, nat), PullError> {
    ReceivedKnown(s, revs);
    var r := PushStream.Receive(s, revs.Keys);
    match InsertAll(t, r.pushes, revs)
    case None => Err(Raised)
    case Some(t') =>
      match r.end
      case Complete => Ok((t', |r.pushes|))
      case Failed(message) => Err(Remote(message))
      case Malformed => Err(Raised)
  }

  class Stream {
    var unread: string

    constructor (response: string)
      ensures unread == response
    {
      unread := response;
    }

    method ReadLine() returns (line: string)
      requires unread != ""
      modifies this
      ensures (line, unread) == PushStream.ReadLine(old(unread))
    {
      var n := Find(unread, '\n', 0);
      if n == |unread| {
        line, unread := unread, "";
      } else {
        line, unread := unread[..n], unread[n + 1..];
      }
    }
  }

  lemma {:induction false} InsertAllConcat(t: Tables, a: seq<Push>, b: seq<Push>, revs: Revs)
    requires AllKnown(a, revs) && AllKnown(b, revs)
    ensures AllKnown(a + b, revs)
    ensures InsertAll(t, a + b, revs)
         == match InsertAll(t, a, revs) case None => None case Some(t') => InsertAll(t', b, revs)
    decreases |a|
  {
    if a == [] {
      assert a + b == b;
    } else {
      assert (a + b)[0] == a[0] && (a + b)[1..] == a[1..] + b;
      match InsertWhole(t, a[0], revs)
      case None =>
      case Some(t') => InsertAllConcat(t', a[1..], b, revs);
    }
  }

  /** After the inserts `done` the rest of the stream decides what the whole attempt comes to. */
  ghost predicate Resumes(start: Tables, s: string, revs: Revs, done: seq<Push>, now: Tables, unread: string) {
    && AllKnown(done, revs) && InsertAll(start, done, revs) == Some(now)
    && var more := PushStream.Receive(unread, revs.Keys);
       PushStream.Receive(s, revs.Keys) == more.(pushes := done + more.pushes)
  }

  lemma ResumesEnd(start: Tables, s: string, revs: Revs, done: seq<Push>, now: Tables, unread: string)
    requires Resumes(start, s, revs, done, now, unread)
    ensures Attempt(start, s, revs)
         == match Attempt(now, unread, revs) case Ok((t, n)) => Ok((t, |done| + n)) case Err(e) => Err(e)
    ensures PushStream.Receive(s, revs.Keys).rest == PushStream.Receive(unread, revs.Keys).rest
  {
    hide InsertAll, PushStream.Receive;
    ReceivedKnown(s, revs);
    ReceivedKnown(unread, revs);
    InsertAllConcat(start, done, PushStream.Receive(unread, revs.Keys).pushes, revs);
  }

  lemma ResumesMore(start: Tables, s: string, revs: Revs, done: seq<Push>, now: Tables, unread: string, p: Push,
                    next: Tables, rest: string)
    requires Resumes(start, s, revs, done, now, unread)
    requires Known(p.nodes, revs) && InsertWhole(now, p, revs) == Some(next)
    requires PushStream.Receive(unread, revs.Keys)
          == PushStream.Receive(rest, revs.Keys).(pushes := [p] + PushStream.Receive(rest, revs.Keys).pushes)
    ensures Resumes(start, s, revs, done + [p], next, rest)
  {
    hide InsertWhole, PushStream.Receive;
    var more := PushStream.Receive(rest, revs.Keys).pushes;
    assert done + ([p] + more) == done + [p] + more;
    assert AllKnown([p], revs);
    InsertAllConcat(start, done, [p], revs);
    assert InsertAll(now, [p], revs) == Some(next) by { assert [p][1..] == []; }
  }

  // ---------------------------------------------------------------- a pull

  const MAX_ATTEMPTS: nat := 3

  /** Attempts from a clean slate until one does not end in the remote error. */
  ghost function Exchange(t: Tables, responses: seq<string>, revs: Revs): Result<(Tables, nat), PullError>
    decreases |responses|
  {
    if responses == [] then Err(Abort)
    else
      var attempt := Attempt(t, responses[0], revs);
      if attempt.Err? && attempt.error.Remote? then Exchange(t, responses[1..], revs) else attempt
  }

  /** The attempt ends in the error that is worth a retry. */
  ghost predicate EndsRemote(t: Tables, s: string, revs: Revs) {
    Attempt(t, s, revs).Err? && Attempt(t, s, revs).error.Remote?
  }

  /** The first attempt that does not end in the remote error decides; if they all do, the pull is aborted. */
  lemma {:induction false} FirstFinalAttempt(t: Tables, responses: seq<string>, revs: Revs, i: nat)
    requires i <= |responses| && forall j :: 0 <= j < i ==> EndsRemote(t, responses[j], revs)
    ensures i == |responses| ==> Exchange(t, responses, revs) == Err(Abort)
    ensures i < |responses| && !EndsRemote(t, responses[i], revs) ==>
              Exchange(t, responses, revs) == Attempt(t, responses[i], revs)
    decreases i
  {
    hide Attempt;
    if i > 0 {
      assert EndsRemote(t, responses[0], revs);
      forall j | 0 <= j < i - 1
        ensures EndsRemote(t, responses[1..][j], revs)
      {
        assert responses[1..][j] == responses[j + 1];
      }
      FirstFinalAttempt(t, responses[1..], revs, i - 1);
    }
  }

  /** How many attempts end in the remote error before the first that does not. */
  lemma {:induction false} RemoteErrors(t: Tables, responses: seq<string>, revs: Revs) returns (i: nat)
    ensures i <= |responses| && forall j :: 0 <= j < i ==> EndsRemote(t, responses[j], revs)
    ensures i < |responses| ==> !EndsRemote(t, responses[i], revs)
  {
    hide EndsRemote;
    if responses == [] || !EndsRemote(t, responses[0], revs) {
      i := 0;
    } else {
      i := RemoteErrors(t, responses[1..], revs);
      i := i + 1;
    }
  }

  /** An exchange succeeds exactly if an attempt does and all before it end in the remote error. */
  lemma ExchangeSucceedsIff(t: Tables, responses: seq<string>, revs: Revs)
    ensures Exchange(t, responses, revs).Ok? <==>
              exists i :: 0 <= i < |responses| && Attempt(t, responses[i], revs).Ok? &&
                forall j :: 0 <= j < i ==> EndsRemote(t, responses[j], revs)
  {
    hide Attempt, Exchange;
    var n := RemoteErrors(t, responses, revs);
    FirstFinalAttempt(t, responses, revs, n);
  }

  // ---------------------------------------------------------------- the database

  class PushlogDb {
    /** What other connections see, and the open transaction of this one. */
    var committed: Tables
    var working: Tables

    constructor ()
      ensures committed == working == EMPTY
    {
      committed, working := EMPTY, EMPTY;
    }

    /** The INSERT statements of one push; false when an index refuses one of them. */
    method InsertPushAndNodes(p: Push, revs: Revs) returns (ok: bool)
      requires Known(p.nodes, revs)
      modifies this`working
      ensures ok == InsertWhole(old(working), p, revs).Some?
      ensures ok ==> working == InsertWhole(old(working), p, revs).value
    {
      var inserted := InsertPush(working, PushRow(p.id, p.user, p.when));
      if inserted.None? {
        return false;
      }
      working := inserted.value;
      var i := 0;
      while i < |p.nodes|
        invariant i <= |p.nodes|
        invariant Known(p.nodes[i..], revs)
        invariant InsertNodes(working, p.id, p.nodes[i..], revs) == InsertWhole(old(working), p, revs)
      {
        assert p.nodes[i..][0] == p.nodes[i] && p.nodes[i..][1..] == p.nodes[i + 1..];
        inserted := InsertChangeset(working, ChangesetRow(p.id, revs[p.nodes[i]], p.nodes[i]));
        if inserted.None? {
          return false;
        }
        working := inserted.value;
        i := i + 1;
      }
      ok := true;
    }

    /** `apply_pushlog_stream`. */
    method ApplyPushlogStream(stream: Stream, revs: Revs) returns (r: Result<nat, PullError>)
      modifies this`working, stream
      ensures match Attempt(old(working), old(stream.unread), revs)
              case Ok((t, n)) => r == Ok(n) && working == t
              case Err(e) => r == Err(e)
      ensures r != Err(Raised) ==> stream.unread == PushStream.Receive(old(stream.unread), revs.Keys).rest
    {
      hide PushStream.ReadLine, PushStream.Parse, PushStream.ToInt, InsertWhole, Resumes, InsertAll;
      hide PushStream.AllKnown, Find;
      ghost var start, s := working, stream.unread;
      ghost var done: seq<Push> := [];
      var applied: nat := 0;
      ResumesStart(start, s, revs);
      while stream.unread != ""
        invariant Resumes(start, s, revs, done, working, stream.unread) && applied == |done|
        decreases |stream.unread|
      {
        ResumesEnd(start, s, revs, done, working, stream.unread);
        ghost var now, unread := working, stream.unread;
        var line := stream.ReadLine();
        if line == "" {
          SkipsEmpty(start, s, revs, done, now, unread, stream.unread);
          continue;
        }
        if line == "ok" {
          EndsAttempt(now, unread, revs);
          return Ok(applied);
        }
        if "error " <= line {
          EndsAttempt(now, unread, revs);
          return Err(Remote(line[6..]));
        }
        var parsed := PushStream.Parse(line);
        if parsed.None? {
          EndsAttempt(now, unread, revs);
          return Err(Raised);
        }
        var f := parsed.value;
        if !PushStream.AllKnown(f.nodes, revs.Keys) {
          EndsAttempt(now, unread, revs);
          DrainToTrailer(stream);
          return Ok(applied);
        }
        var id, when := PushStream.ToInt(f.id), PushStream.ToInt(f.when);
        if id.None? || when.None? {
          EndsAttempt(now, unread, revs);
          return Err(Raised);
        }
        var p := PushStream.Push(id.value, f.user, when.value, f.nodes);
        var ok := InsertPushAndNodes(p, revs);
        if !ok {
          RefusedAttempt(now, unread, revs, p);
          return Err(Raised);
        }
        ResumesMore(start, s, revs, done, now, unread, p, working, stream.unread);
        done := done + [p];
        applied := applied + 1;
      }
      ResumesEnd(start, s, revs, done, working, "");
      EmptyAttempt(working, revs);
      return Err(Remote(PushStream.NO_TRAILER));
    }

    method LastPushId() returns (last: nat)
      ensures last == LastId(committed.pushlog)
    {
      last := 0;
      var i := 0;
      while i < |committed.pushlog|
        invariant i <= |committed.pushlog|
        invariant last == LastId(committed.pushlog[..i])
      {
        assert committed.pushlog[..i + 1][..i] == committed.pushlog[..i];
        last := if committed.pushlog[i].id > last then committed.pushlog[i].id else last;
        i := i + 1;
      }
      assert committed.pushlog[..i] == committed.pushlog;
    }

    /** The retry loop of `exchangepullpushlog`; attempt `i` reads `responses[i]`. */
    method ExchangePullPushlog(responses: seq<string>, revs: Revs) returns (r: Result<nat, PullError>)
      requires |responses| == 3 && working == committed
      modifies this`working
      ensures match Exchange(committed, responses, revs)
              case Ok((t, n)) => r == Ok(n) && working == t
              case Err(e) => r == Err(e)
      ensures forall i ::
                && 0 <= i < 3 && !EndsRemote(committed, responses[i], revs)
                && (forall j :: 0 <= j < i ==> EndsRemote(committed, responses[j], revs)) ==>
                match Attempt(committed, responses[i], revs)
                case Ok((t, n)) => r == Ok(n) && working == t
                case Err(e) => r == Err(e)
      ensures (forall j :: 0 <= j < 3 ==> EndsRemote(committed, responses[j], revs)) ==> r == Err(Abort)
    {
      hide Attempt;
      var attempt := 0;
      while attempt < MAX_ATTEMPTS
        invariant attempt <= MAX_ATTEMPTS && working == committed
        invariant Exchange(committed, responses[attempt..], revs) == Exchange(committed, responses, revs)
        invariant forall j :: 0 <= j < attempt ==> EndsRemote(committed, responses[j], revs)
      {
        assert responses[attempt..][0] == responses[attempt] && responses[attempt..][1..] == responses[attempt + 1..];
        var stream := new Stream(responses[attempt]);
        r := ApplyPushlogStream(stream, revs);
        if r.Err? && r.error.Remote? {
          working := committed;
        } else {
          return;
        }
        attempt := attempt + 1;
      }
      return Err(Abort);
    }

    /** A pull: the exchange, then the commit that closes the transaction, tried three times, or the rollback.
        `commits[i]` says whether the i-th commit gets through. */
    method Pull(responses: seq<string>, revs: Revs, commits: seq<bool>) returns (ok: bool)
      requires |responses| == 3 && |commits| == 3
      modifies this
      ensures working == committed
      ensures ok == (Exchange(old(committed), responses, revs).Ok? && (commits[0] || commits[1] || commits[2]))
      ensures ok <==>
                && (commits[0] || commits[1] || commits[2])
                && exists i :: 0 <= i < 3 && Attempt(old(committed), responses[i], revs).Ok? &&
                     forall j :: 0 <= j < i ==> EndsRemote(old(committed), responses[j], revs)
      ensures committed == if ok then Exchange(old(committed), responses, revs).value.0 else old(committed)
    {
      hide Attempt, Exchange;
      ExchangeSucceedsIff(committed, responses, revs);
      working := committed;
      var r := ExchangePullPushlog(responses, revs);
      if r.Ok? {
        var attempt := 0;
        while attempt < MAX_ATTEMPTS
          invariant attempt <= MAX_ATTEMPTS && forall i :: 0 <= i < attempt ==> !commits[i]
        {
          if commits[attempt] {
            committed := working;
            return true;
          }
          attempt := attempt + 1;
        }
      }
      working := committed;
      return false;
    }

    method DrainToTrailer(stream: Stream)
      modifies stream
      ensures stream.unread == PushStream.Drain(old(stream.unread))
    {
      while stream.unread != ""
        invariant PushStream.Drain(stream.unread) == PushStream.Drain(old(stream.unread))
        decreases |stream.unread|
      {
        var trailing := stream.ReadLine();
        if PushStream.IsTrailer(trailing) {
          break;
        }
      }
    }
  }

  lemma ResumesStart(t: Tables, s: string, revs: Revs)
    ensures Resumes(t, s, revs, [], t, s)
  {
    assert [] + PushStream.Receive(s, revs.Keys).pushes == PushStream.Receive(s, revs.Keys).pushes;
  }

  lemma SkipsEmpty(start: Tables, s: string, revs: Revs, done: seq<Push>, now: Tables, unread: string, rest: string)
    requires Resumes(start, s, revs, done, now, unread) && unread != "" && PushStream.ReadLine(unread) == ("", rest)
    ensures Resumes(start, s, revs, done, now, rest)
  {
  }

  lemma EmptyAttempt(t: Tables, revs: Revs)
    ensures Attempt(t, "", revs) == Err(Remote(PushStream.NO_TRAILER))
  {
  }

  /** An attempt whose next line adds no push. */
  lemma EndsAttempt(t: Tables, s: string, revs: Revs)
    requires s != "" && PushStream.Receive(s, revs.Keys).pushes == []
    ensures Attempt(t, s, revs)
         == match PushStream.Receive(s, revs.Keys).end
            case Complete => Ok((t, 0))
            case Failed(message) => Err(Remote(message))
            case Malformed => Err(Raised)
  {
    hide PushStream.Receive;
  }

  lemma RefusedAttempt(t: Tables, s: string, revs: Revs, p: Push)
    requires Known(p.nodes, revs) && InsertWhole(t, p, revs).None?
    requires PushStream.Receive(s, revs.Keys).pushes != [] && PushStream.Receive(s, revs.Keys).pushes[0] == p
    ensures Attempt(t, s, revs) == Err(Raised)
  {
    hide PushStream.Receive, InsertWhole;
    ReceivedKnown(s, revs);
  }

  // ---------------------------------------------------------------- the client's log is the server's

  /** A server's log: ids only grow and no changeset is in it twice. */
  ghost predicate ServerLog(log: seq<Push>) {
    IdsGrow(log) && NodesOnce(log) && PushStream.CleanAll(log, None)
  }

  /** The tables hold exactly the first `k` pushes of the log, all of known changesets. */
  ghost predicate ReplicaAt(t: Tables, log: seq<Push>, revs: Revs, k: nat) {
    k <= |log| && AllKnown(log[..k], revs) && t == Added(EMPTY, log[..k], revs)
  }

  /** The server's pushes from an id on. */
  function Since(log: seq<Push>, from: nat): seq<Push> {
    if log == [] then [] else (if log[0].id >= from then [log[0]] else []) + Since(log[1..], from)
  }

  lemma {:induction false} SinceAll(log: seq<Push>, from: nat)
    requires forall i :: 0 <= i < |log| ==> log[i].id >= from
    ensures Since(log, from) == log
  {
    if log != [] {
      SinceAll(log[1..], from);
      assert [log[0]] + log[1..] == log;
    }
  }

  lemma {:induction false} SinceSkips(log: seq<Push>, k: nat, from: nat)
    requires k <= |log| && forall i :: 0 <= i < |log| ==> (log[i].id < from <==> i < k)
    ensures Since(log, from) == log[k..]
    decreases k
  {
    if k == 0 {
      SinceAll(log, from);
      assert log[0..] == log;
    } else {
      SinceSkips(log[1..], k - 1, from);
      assert log[1..][k - 1..] == log[k..];
    }
  }

  lemma {:induction false} LastOfReplica(log: seq<Push>, k: nat)
    requires IdsGrow(log) && k <= |log|
    ensures LastId(PushRows(log)[..k]) == if k == 0 then 0 else log[k - 1].id
  {
    var rows := PushRows(log);
    if k > 0 {
      LastOfReplica(log, k - 1);
      assert rows[..k][..k - 1] == rows[..k - 1] && rows[..k][k - 1] == rows[k - 1];
      assert k > 1 ==> log[k - 2].id < log[k - 1].id;
    }
  }

  lemma {:induction false} PushRowsPrefix(log: seq<Push>, n: nat)
    requires n <= |log|
    ensures PushRows(log)[..n] == PushRows(log[..n])
  {
  }

  lemma Split(log: seq<Push>, k: nat, from: nat)
    requires IdsGrow(log) && k <= |log| && from == 1 + if k == 0 then 0 else log[k - 1].id
    ensures forall i :: 0 <= i < |log| ==> (log[i].id < from <==> i < k)
  {
  }

  /** The client asks for exactly the pushes it does not have. */
  lemma FetchesTheRest(t: Tables, log: seq<Push>, revs: Revs, k: nat)
    requires IdsGrow(log) && ReplicaAt(t, log, revs, k)
    ensures Since(log, LastId(t.pushlog) + 1) == log[k..]
  {
    hide Since, ChangesetRows, PushRows, LastId, IdsGrow, AllKnown;
    assert [] + PushRows(log[..k]) == PushRows(log[..k]);
    PushRowsPrefix(log, k);
    LastOfReplica(log, k);
    Split(log, k, LastId(t.pushlog) + 1);
    SinceSkips(log, k, LastId(t.pushlog) + 1);
  }

  // ---------------------------------------------------------------- pulls keep the replica

  /** What can reach the client when the server's log is `log`: the response, whole or cut anywhere, to a request for
      the pushes from `from` on. A server-side error may stop the response after any push. */
  ghost predicate Answers(response: string, log: seq<Push>, from: nat) {
    exists sent: seq<Push>, error: Option<string> ::
      && sent <= Since(log, from) && (error.None? ==> sent == Since(log, from))
      && PushStream.CleanAll(sent, error) && response <= PushStream.Response(sent, error)
  }

  lemma {:induction false} LongestOfSent(sent: seq<Push>, all: seq<Push>, known: set<string>)
    requires sent <= all && PushStream.LongestKnown(sent, known) != sent
    ensures PushStream.LongestKnown(sent, known) == PushStream.LongestKnown(all, known)
    decreases |sent|
  {
    if sent != [] {
      assert sent[0] == all[0] && sent[1..] <= all[1..];
      assert [sent[0]] + sent[1..] == sent;
      if PushStream.AllKnown(sent[0].nodes, known) { LongestOfSent(sent[1..], all[1..], known); }
    }
  }

  /** An attempt that succeeds has read the longest run of new pushes that are all known. */
  lemma SuccessReadsLongestKnown(t: Tables, response: string, log: seq<Push>, from: nat, revs: Revs)
    requires Answers(response, log, from) && Attempt(t, response, revs).Ok?
    ensures PushStream.Receive(response, revs.Keys).pushes == PushStream.LongestKnown(Since(log, from), revs.Keys)
  {
    hide InsertAll, PushStream.Receive, Since, PushStream.Response, PushStream.CleanAll, PushStream.LongestKnown;
    var sent: seq<Push>, error: Option<string> :|
      && sent <= Since(log, from) && (error.None? ==> sent == Since(log, from))
      && PushStream.CleanAll(sent, error) && response <= PushStream.Response(sent, error);
    PushStream.CutIsNoticedOrHarmless(sent, error, response, revs.Keys);
    if PushStream.LongestKnown(sent, revs.Keys) != sent {
      LongestOfSent(sent, Since(log, from), revs.Keys);
    }
  }

  lemma LongestIsKnown(pushes: seq<Push>, revs: Revs)
    ensures AllKnown(PushStream.LongestKnown(pushes, revs.Keys), revs)
  {
  }

  /** A successful attempt moves the replica on by exactly the pushes it counts, as far as known changesets reach. */
  lemma AttemptReplicates(t: Tables, response: string, log: seq<Push>, revs: Revs, k: nat)
    requires IdsGrow(log) && ReplicaAt(t, log, revs, k)
    requires Answers(response, log, LastId(t.pushlog) + 1) && Attempt(t, response, revs).Ok?
    ensures k <= |log|
    ensures var n := |PushStream.LongestKnown(log[k..], revs.Keys)|;
            && Attempt(t, response, revs).value.1 == n
            && ReplicaAt(Attempt(t, response, revs).value.0, log, revs, k + n)
  {
    hide InsertAll, PushStream.Receive, Since, Answers, AllKnown, Added, IdsGrow, PushStream.LongestKnown;
    var more := PushStream.LongestKnown(log[k..], revs.Keys);
    FetchesTheRest(t, log, revs, k);
    SuccessReadsLongestKnown(t, response, log, LastId(t.pushlog) + 1, revs);
    LongestIsKnown(log[k..], revs);
    LongestPrefix(log[k..], revs.Keys);
    InsertedIsAdded(t, more, revs);
    AddedTwice(EMPTY, log[..k], more, revs);
    assert log[..k + |more|] == log[..k] + more;
  }

  lemma LongestPrefix(pushes: seq<Push>, known: set<string>)
    ensures PushStream.LongestKnown(pushes, known) <= pushes
  {
  }

  lemma {:induction false} InsertedIsAdded(t: Tables, pushes: seq<Push>, revs: Revs)
    requires AllKnown(pushes, revs) && InsertAll(t, pushes, revs).Some?
    ensures InsertAll(t, pushes, revs).value == Added(t, pushes, revs)
    decreases |pushes|
  {
    if pushes == [] {
      assert Added(t, pushes, revs) == t;
    } else {
      AddedStep(t, pushes, revs);
      var next := InsertWhole(t, pushes[0], revs).value;
      var p := pushes[0];
      NodesInserted(t.(pushlog := t.pushlog + [PushRow(p.id, p.user, p.when)]), p.id, p.nodes, revs);
      InsertedIsAdded(next, pushes[1..], revs);
    }
  }

  lemma ChangesetInserted(t: Tables, row: ChangesetRow)
    requires InsertChangeset(t, row).Some?
    ensures InsertChangeset(t, row).value == t.(changesets := t.changesets + [row])
  {
  }

  lemma {:induction false} NodesInserted(t: Tables, pushid: nat, nodes: seq<string>, revs: Revs)
    requires Known(nodes, revs) && InsertNodes(t, pushid, nodes, revs).Some?
    ensures InsertNodes(t, pushid, nodes, revs).value == t.(changesets := t.changesets + NodeRows(pushid, nodes, revs))
    decreases |nodes|
  {
    hide InsertChangeset;
    if nodes == [] {
      assert t.changesets + [] == t.changesets;
    } else {
      var row, rest := ChangesetRow(pushid, revs[nodes[0]], nodes[0]), NodeRows(pushid, nodes[1..], revs);
      ChangesetInserted(t, row);
      NodesInserted(t.(changesets := t.changesets + [row]), pushid, nodes[1..], revs);
      assert t.changesets + ([row] + rest) == t.changesets + [row] + rest;
    }
  }

  /** The exchange: the log may grow between attempts; the one that succeeds decides. */
  lemma {:induction false} ExchangeReplicates(t: Tables, responses: seq<string>, logs: seq<seq<Push>>, revs: Revs,
                                              k: nat)
    returns (i: nat)
    requires |responses| == |logs| && Exchange(t, responses, revs).Ok?
    requires forall j :: 0 <= j < |logs| ==>
               && IdsGrow(logs[j]) && ReplicaAt(t, logs[j], revs, k)
               && Answers(responses[j], logs[j], LastId(t.pushlog) + 1)
    ensures i < |logs| && k <= |logs[i]|
    ensures var n := |PushStream.LongestKnown(logs[i][k..], revs.Keys)|;
            && Exchange(t, responses, revs).value.1 == n
            && ReplicaAt(Exchange(t, responses, revs).value.0, logs[i], revs, k + n)
    decreases |responses|
  {
    hide Attempt, IdsGrow, ReplicaAt, Answers, PushStream.LongestKnown;
    var attempt := Attempt(t, responses[0], revs);
    if attempt.Ok? {
      AttemptReplicates(t, responses[0], logs[0], revs, k);
      i := 0;
    } else {
      i := ExchangeReplicates(t, responses[1..], logs[1..], revs, k);
      i := i + 1;
    }
  }

  lemma ServerPrefix(log: seq<Push>, n: nat)
    requires ServerLog(log) && n <= |log|
    ensures IdsGrow(log[..n]) && NodesOnce(log[..n])
  {
  }

  /** No index refuses the next pushes of the server. */
  lemma InsertsNext(t: Tables, log: seq<Push>, revs: Revs, k: nat, n: nat)
    requires ServerLog(log) && ReplicaAt(t, log, revs, k) && Injective(revs)
    requires k <= n <= |log| && AllKnown(log[k..n], revs)
    ensures InsertAll(t, log[k..n], revs) == Some(Added(t, log[k..n], revs))
  {
    hide InsertAll, AllKnown, Added, IdsGrow, NodesOnce, Indexed, PushStream.Clean, Injective;
    var more := log[k..n];
    ServerPrefix(log, n);
    ServerPrefix(log, k);
    assert log[..n] == log[..k] + more;
    AllKnownConcat(log[..k], more, revs);
    LogFitsIndexes(log[..k], revs);
    LogFitsIndexes(log[..n], revs);
    AddedTwice(EMPTY, log[..k], more, revs);
    InsertAllIff(t, more, revs);
  }

  /** A response that arrives whole, and is no error, makes the pull succeed: no index refuses a push of the server. */
  lemma WholeResponseSucceeds(t: Tables, log: seq<Push>, revs: Revs, k: nat)
    requires ServerLog(log) && ReplicaAt(t, log, revs, k) && Injective(revs)
    ensures Attempt(t, PushStream.Response(log[k..], None), revs).Ok?
  {
    hide InsertAll, PushStream.Receive, AllKnown, Added, PushStream.LongestKnown, PushStream.Clean, Injective;
    var more := PushStream.LongestKnown(log[k..], revs.Keys);
    var response := PushStream.Response(log[k..], None);
    assert response + "" == response;
    PushStream.ReceivesResponse(log[k..], None, "", revs.Keys);
    LongestIsKnown(log[k..], revs);
    LongestPrefix(log[k..], revs.Keys);
    assert more == log[k..k + |more|];
    InsertsNext(t, log, revs, k, k + |more|);
  }

  /** The connection breaks behind pushes the client knows, or the server stops there with an error. */
  ghost predicate Interrupted(response: string, log: seq<Push>, revs: Revs, k: nat)
    requires k <= |log|
  {
    exists n: nat, error: Option<string> ::
      && k <= n <= |log| && AllKnown(log[k..n], revs) && (error.Some? ==> PushStream.Lacks(error.value, '\n'))
      && response == if error.None? then PushStream.Body(log[k..n]) else PushStream.Response(log[k..n], error)
  }

  /** Such an attempt ends in the remote error, however many pushes it has inserted. */
  lemma InterruptedEndsRemote(t: Tables, response: string, log: seq<Push>, revs: Revs, k: nat)
    requires ServerLog(log) && ReplicaAt(t, log, revs, k) && k <= |log| && Injective(revs)
    requires Interrupted(response, log, revs, k)
    ensures EndsRemote(t, response, revs)
  {
    hide InsertAll, PushStream.Receive, AllKnown, Added, IdsGrow, NodesOnce, Indexed, PushStream.Clean, Injective;
    hide PushStream.Lacks;
    var n: nat, error: Option<string> :|
      && k <= n <= |log| && AllKnown(log[k..n], revs) && (error.Some? ==> PushStream.Lacks(error.value, '\n'))
      && response == if error.None? then PushStream.Body(log[k..n]) else PushStream.Response(log[k..n], error);
    var sent := log[k..n];
    ReceivesInterrupted(sent, error, revs);
    assert log[..n] == log[..k] + sent;
    InsertsNext(t, log, revs, k, n);
  }

  lemma ReceivesInterrupted(sent: seq<Push>, error: Option<string>, revs: Revs)
    requires PushStream.CleanAll(sent, error) && AllKnown(sent, revs)
    ensures var response := if error.None? then PushStream.Body(sent) else PushStream.Response(sent, error);
            && PushStream.Receive(response, revs.Keys).pushes == sent
            && PushStream.Receive(response, revs.Keys).end.Failed?
  {
    hide PushStream.Clean, PushStream.AllKnown, PushStream.Lacks, PushStream.Body;
    var rest := if error.None? then "" else PushStream.Trailer(error) + "\n";
    PushStream.ReceivesBody(sent, rest, revs.Keys);
    if error.Some? {
      hide PushStream.Receive;
      assert rest + "" == rest;
      PushStream.ReceivesTrailer(error, "", revs.Keys);
    } else {
      assert PushStream.Body(sent) + "" == PushStream.Body(sent);
    }
    assert sent + [] == sent;
  }

  /** Interrupted attempts cost nothing but their number: the first whole response behind them makes the exchange
      succeed and extend the replica. If all are interrupted the pull is aborted. */
  lemma InterruptionsAreRetried(t: Tables, responses: seq<string>, log: seq<Push>, revs: Revs, k: nat, i: nat)
    requires ServerLog(log) && ReplicaAt(t, log, revs, k) && k <= |log| && Injective(revs) && i <= |responses|
    requires forall j :: 0 <= j < i ==> Interrupted(responses[j], log, revs, k)
    ensures i == |responses| ==> Exchange(t, responses, revs) == Err(Abort)
    ensures i < |responses| && responses[i] == PushStream.Response(log[k..], None) ==>
              var n := |PushStream.LongestKnown(log[k..], revs.Keys)|;
              && Exchange(t, responses, revs).Ok? && Exchange(t, responses, revs).value.1 == n
              && ReplicaAt(Exchange(t, responses, revs).value.0, log, revs, k + n)
  {
    hide Attempt, Exchange, IdsGrow, NodesOnce, PushStream.CleanAll, Interrupted, PushStream.LongestKnown;
    hide PushStream.Response, Added;
    forall j | 0 <= j < i
      ensures EndsRemote(t, responses[j], revs)
    {
      InterruptedEndsRemote(t, responses[j], log, revs, k);
    }
    FirstFinalAttempt(t, responses, revs, i);
    if i < |responses| && responses[i] == PushStream.Response(log[k..], None) {
      WholeResponseSucceeds(t, log, revs, k);
      WholeIsAnswer(t, log, revs, k);
      AttemptReplicates(t, responses[i], log, revs, k);
    }
  }

  lemma WholeIsAnswer(t: Tables, log: seq<Push>, revs: Revs, k: nat)
    requires ServerLog(log) && ReplicaAt(t, log, revs, k)
    ensures Answers(PushStream.Response(log[k..], None), log, LastId(t.pushlog) + 1)
  {
    FetchesTheRest(t, log, revs, k);
  }

  // ---------------------------------------------------------------- over any history

  /** A server log, the client's repository and the client's committed tables. */
  datatype World = World(log: seq<Push>, revs: Revs, t: Tables)

  ghost predicate RevsGrow(before: Revs, after: Revs) {
    forall n :: n in before ==> n in after && before[n] == after[n]
  }

  /** While the log and the repository grow, the tables stay as they are or a pull succeeds. */
  ghost predicate Pulled(w: World, v: World, responses: seq<string>, logs: seq<seq<Push>>) {
    && |responses| == |logs|
    && (forall j :: 0 <= j < |logs| ==>
         w.log <= logs[j] && logs[j] <= v.log && Answers(responses[j], logs[j], LastId(w.t.pushlog) + 1))
    && Exchange(w.t, responses, v.revs).Ok? && v.t == Exchange(w.t, responses, v.revs).value.0
  }

  ghost predicate Next(w: World, v: World) {
    && w.log <= v.log && IdsGrow(v.log) && RevsGrow(w.revs, v.revs)
    && (v.t == w.t || exists responses, logs :: Pulled(w, v, responses, logs))
  }

  ghost predicate IsHistory(worlds: seq<World>) {
    forall i :: 0 < i < |worlds| ==> Next(worlds[i - 1], worlds[i])
  }

  lemma {:induction false} RowsGrow(pushes: seq<Push>, before: Revs, after: Revs)
    requires AllKnown(pushes, before) && RevsGrow(before, after)
    ensures AllKnown(pushes, after) && ChangesetRows(pushes, before) == ChangesetRows(pushes, after)
  {
    if pushes != [] {
      RowsGrow(pushes[1..], before, after);
      assert NodeRows(pushes[0].id, pushes[0].nodes, before) == NodeRows(pushes[0].id, pushes[0].nodes, after);
      assert forall i :: 0 < i < |pushes| ==> pushes[i] == pushes[1..][i - 1];
    }
  }

  lemma ReplicaStays(t: Tables, log: seq<Push>, revs: Revs, k: nat, log': seq<Push>, revs': Revs)
    requires ReplicaAt(t, log, revs, k) && log <= log' && RevsGrow(revs, revs')
    ensures ReplicaAt(t, log', revs', k)
  {
    assert log'[..k] == log[..k];
    RowsGrow(log[..k], revs, revs');
  }

  lemma IdsGrowPrefix(log: seq<Push>, whole: seq<Push>)
    requires log <= whole && IdsGrow(whole)
    ensures IdsGrow(log)
  {
  }

  lemma NextReplicates(w: World, v: World, k: nat) returns (n: nat)
    requires ReplicaAt(w.t, w.log, w.revs, k) && Next(w, v)
    ensures k <= n && ReplicaAt(v.t, v.log, v.revs, n)
  {
    hide IdsGrow, ReplicaAt, Answers, RevsGrow, PushStream.LongestKnown, Exchange;
    if v.t == w.t {
      ReplicaStays(w.t, w.log, w.revs, k, v.log, v.revs);
      n := k;
    } else {
      var responses, logs :| Pulled(w, v, responses, logs);
      forall j | 0 <= j < |logs|
        ensures IdsGrow(logs[j]) && ReplicaAt(w.t, logs[j], v.revs, k)
      {
        IdsGrowPrefix(logs[j], v.log);
        ReplicaStays(w.t, w.log, w.revs, k, logs[j], v.revs);
      }
      var i := ExchangeReplicates(w.t, responses, logs, v.revs, k);
      n := k + |PushStream.LongestKnown(logs[i][k..], v.revs.Keys)|;
      RevsGrowRefl(v.revs);
      ReplicaStays(v.t, logs[i], v.revs, n, v.log, v.revs);
    }
  }

  lemma RevsGrowRefl(revs: Revs)
    ensures RevsGrow(revs, revs)
  {
  }

  /** Over any history of pulls, failed, cut or whole, the client's tables are the first pushes of the server's log,
      each of known changesets under their local revisions, and they never fall behind. */
  lemma {:induction false} AlwaysReplica(worlds: seq<World>, k: nat) returns (n: nat)
    requires IsHistory(worlds) && worlds != [] && ReplicaAt(worlds[0].t, worlds[0].log, worlds[0].revs, k)
    ensures var last := worlds[|worlds| - 1]; k <= n && ReplicaAt(last.t, last.log, last.revs, n)
    decreases |worlds|
  {
    hide ReplicaAt, Next;
    if |worlds| == 1 {
      n := k;
    } else {
      var before := worlds[..|worlds| - 1];
      n := AlwaysReplica(before, k);
      n := NextReplicates(before[|before| - 1], worlds[|worlds| - 1], n);
    }
  }

  /** An empty client is a replica of any log. */
  lemma EmptyIsReplica(log: seq<Push>, revs: Revs)
    ensures ReplicaAt(EMPTY, log, revs, 0)
  {
    assert log[..0] == [];
  }

  /** A client that starts with empty tables holds, after any history, the first pushes of the server's log. */
  lemma FreshClientReplicates(worlds: seq<World>) returns (n: nat)
    requires IsHistory(worlds) && worlds != [] && worlds[0].t == EMPTY
    ensures var last := worlds[|worlds| - 1]; ReplicaAt(last.t, last.log, last.revs, n)
  {
    EmptyIsReplica(worlds[0].log, worlds[0].revs);
    n := AlwaysReplica(worlds, 0);
  }
}
