/**
 The repair-and-retry machine of `hg robustcheckout` (hgext/robustcheckout/__init__.py): what it deletes before it
 touches the network, how it reacts to each failure and why it may start over.
 */
module Checkout {
  import opened Prelude

  // ---------------------------------------------------------------- the filesystem

  /** `Pooled` is a directory named after a root changeset, in a share base. */
  datatype Path = Pooled(base: nat, root: nat) | Elsewhere(name: nat)

  /** A shared store: its lock, its `requires` file and the requirements of `store/requires`. */
  datatype Store = Store(locked: bool, requirements: Option<set<string>>, moved: set<string>)

  /** The destination: a directory without `.hg`, or a working directory. */
  datatype Dest = Plain | Wdir(sparse: bool, shared: Option<Path>, wlock: bool)

  datatype Files = Files(dest: Option<Dest>, stores: map<Path, Store>)

  /** `rmtree` fails on what is not there. */
  function RemoveDest(f: Files): Option<Files> {
    if f.dest.None? then None else Some(f.(dest := None))
  }

  function RemoveStore(f: Files, p: Path): Option<Files> {
    if p in f.stores then Some(f.(stores := f.stores - {p})) else None
  }

  /** `deletesharedstore` without a path: the store the destination points to. */
  function DeleteSharedStore(f: Files): Option<Files> {
    match f.dest
    case Some(Wdir(_, Some(p), _)) => RemoveStore(f, p)
    case _ => None
  }

  /** What the command was asked for: a sparse checkout, the limit of network attempts and the share base. */
  datatype Options = Options(sparse: bool, limit: int, base: nat)

  // ---------------------------------------------------------------- before the network

  predicate Usable(f: Files, d: Dest) {
    d.Wdir? && d.shared.Some? && d.shared.value in f.stores && d.shared.value.Pooled? && !d.wlock
  }

  /** The checks of the destination; None where the command refuses to go on. */
  function CheckDest(f: Files, sparse: bool): Option<Files> {
    match f.dest
    case None => Some(f)
    case Some(d) =>
      if d.Plain? || d.sparse != sparse then None
      else if Usable(f, d) then Some(f)
      else Some(f.(dest := None))
  }

  const REQUIRED: set<string> := {"dotencode", "fncache"}

  function Requirements(s: Store): set<string> {
    match s.requirements
    case None => {}
    case Some(r) => if "share-safe" in r then r + s.moved else r
  }

  predicate Sound(s: Store) {
    !s.locked && s.requirements.Some? && REQUIRED <= Requirements(s)
  }

  /** The checks of the store computed from the source's root: a bad one goes, and the destination with it. */
  function CheckStore(f: Files, p: Path): Files {
    if p in f.stores && !Sound(f.stores[p]) then Files(None, f.stores - {p}) else f
  }

  /** The state in which the machine clones or pulls. */
  ghost predicate Ready(f: Files, p: Path) {
    && (f.dest.Some? ==> Usable(f, f.dest.value))
    && (p in f.stores ==> Sound(f.stores[p]))
  }

  /** The checks make any state ready, and delete nothing from one that is. */
  lemma ChecksMakeReady(f: Files, sparse: bool, p: Path)
    requires CheckDest(f, sparse).Some?
    ensures var after := CheckStore(CheckDest(f, sparse).value, p); Ready(after, p) && (Ready(f, p) <==> after == f)
  {
  }

  /** A destination is refused exactly if it is no working directory or sparse where it should not be, or the other way
      round; it is kept exactly if it is unlocked and shares an existing store of a pool. No store is touched. */
  lemma DestChecked(f: Files, sparse: bool)
    ensures CheckDest(f, sparse).None? <==>
              f.dest.Some? && (f.dest.value.Plain? || (f.dest.value.sparse <==> !sparse))
    ensures CheckDest(f, sparse).Some? ==>
              var after := CheckDest(f, sparse).value;
              && after.stores == f.stores
              && (after.dest.Some? ==> after.dest == f.dest)
              && (after.dest.Some? <==> exists base: nat, root: nat ::
                    f.dest == Some(Wdir(sparse, Some(Pooled(base, root)), false)) && Pooled(base, root) in f.stores)
  {
    if f.dest.Some? && f.dest.value.Wdir? && f.dest.value.shared.Some? && f.dest.value.shared.value.Pooled? {
      var p := f.dest.value.shared.value;
      assert p == Pooled(p.base, p.root);
    }
  }

  /** The computed store is kept exactly if it is unlocked and lists both requirements, in either file when it is
      share-safe; else it goes together with the destination. */
  lemma StoreChecked(f: Files, p: Path)
    requires p in f.stores
    ensures var s := f.stores[p];
            CheckStore(f, p) ==
            if && !s.locked && s.requirements.Some?
               && ("dotencode" in s.requirements.value ||
                    ("share-safe" in s.requirements.value && "dotencode" in s.moved))
               && ("fncache" in s.requirements.value ||
                    ("share-safe" in s.requirements.value && "fncache" in s.moved))
            then f
            else Files(None, f.stores - {p})
  {
    var s := f.stores[p];
    assert REQUIRED == {"dotencode", "fncache"};
    assert REQUIRED <= Requirements(s) <==> "dotencode" in Requirements(s) && "fncache" in Requirements(s);
  }

  // ---------------------------------------------------------------- failures

  datatype Error =
    | Unrelated | StreamEnded | OtherAbort | Ssl | HttpServerError | OtherHttpError | SocketError | OtherUrlError
    | Timeout

  /** The files and the count of network attempts, which the self-calls share. */
  datatype Machine = Machine(files: Files, attempts: nat)

  datatype Cause = Counted | DestRemoved | StoreRemoved | Recovered

  datatype Next = Finished | Raised | Again(cause: Cause)

  /** How a round ends: the state the failure was caught in, and the state handed on. */
  datatype Exit = Exit(next: Next, caught: Machine, after: Machine)

  function Raise(m: Machine): Exit {
    Exit(Raised, m, m)
  }

  predicate IsNetworkFailure(e: Error) {
    e.StreamEnded? || e.Ssl? || e.HttpServerError? || e.SocketError? || e.Timeout?
  }

  /** `handlepullerror`, with `handlenetworkfailure` inside. */
  function PullError(m: Machine, limit: int, e: Error): Exit {
    if e.Unrelated? then
      match RemoveDest(m.files)
      case None => Raise(m)
      case Some(f) => Exit(Again(DestRemoved), m, m.(files := f))
    else if IsNetworkFailure(e) && m.attempts < limit then Exit(Again(Counted), m, m.(attempts := m.attempts + 1))
    else Raise(m)
  }

  function Corruption(m: Machine): Exit {
    match DeleteSharedStore(m.files)
    case None => Raise(m)
    case Some(f) => Exit(Again(StoreRemoved), m, m.(files := f))
  }

  /** There is a repository at the destination that can be opened. */
  predicate Opens(f: Files) {
    f.dest.Some? && f.dest.value.Wdir? && (f.dest.value.shared.Some? ==> f.dest.value.shared.value in f.stores)
  }

  /** `handlerepoerror`: an abandoned transaction is recovered, or its store deleted; the repository is opened first. */
  function RepoError(m: Machine, abandoned: bool, recovers: bool): Exit {
    if !abandoned || !Opens(m.files) then Raise(m)
    else if recovers then Exit(Again(Recovered), m, m)
    else Corruption(m)
  }

  // ---------------------------------------------------------------- one round

  /** What the outside world answers; `left` is what a transfer leaves on disk. */
  datatype Lookup = Root(root: nat) | Empty | Unresolved | LookupFailed(error: Error)

  datatype Transfer =
    | Done(left: Files)
    | Nothing(left: Files)
    | Failed(error: Error, left: Files)
    | RepoFailed(abandoned: bool, left: Files)
    | Corrupt(left: Files)

  datatype Local = Present | Ambiguous | Missing

  datatype Round = Round(lookup: Lookup, clone: Transfer, local: Local, pull: Transfer, recovers: bool)

  function TransferFailed(t: Transfer, attempts: nat, limit: int, recovers: bool): Exit
    requires !t.Done?
  {
    var m := Machine(t.left, attempts);
    match t
    case Nothing(_) => Raise(m)
    case Failed(e, _) => PullError(m, limit, e)
    case RepoFailed(abandoned, _) => RepoError(m, abandoned, recovers)
    case Corrupt(_) => Corruption(m)
  }

  predicate IsShared(f: Files) {
    f.dest.Some? && f.dest.value.Wdir? && f.dest.value.shared.Some?
  }

  function PullPhase(m: Machine, limit: int, r: Round): Exit {
    if r.local.Present? then Exit(Finished, m, m)
    else if r.local.Ambiguous? then Raise(m)
    else if r.pull.Done? then Exit(Finished, m, m.(files := r.pull.left))
    else TransferFailed(r.pull, m.attempts, limit, r.recovers)
  }

  function ClonePhase(m: Machine, limit: int, r: Round): Exit {
    if m.files.dest.Some? then PullPhase(m, limit, r)
    else if !r.clone.Done? then TransferFailed(r.clone, m.attempts, limit, r.recovers)
    else if IsShared(r.clone.left) then PullPhase(m.(files := r.clone.left), limit, r)
    else Raise(m.(files := r.clone.left))
  }

  /** One call of `_docheckout`, up to its return, exception or self-call. */
  function Attempt(m: Machine, o: Options, r: Round): Exit {
    match CheckDest(m.files, o.sparse)
    case None => Raise(m)
    case Some(f) =>
      match r.lookup
      case Root(root) => ClonePhase(Machine(CheckStore(f, Pooled(o.base, root)), m.attempts), o.limit, r)
      case LookupFailed(e) => PullError(m.(files := f), o.limit, e)
      case _ => Raise(m.(files := f))
  }

  // ---------------------------------------------------------------- what clones and pulls start from

  /** A clone or a pull that begins, with the files it finds and the store computed for the source; a pull also says
      whether this call has just cloned. */
  datatype Start = Cloning(files: Files, store: Path) | Pulling(files: Files, store: Path, cloned: bool)

  /** The clone and the pull that one call of `_docheckout` begins. */
  function Starts(m: Machine, o: Options, r: Round): seq<Start> {
    match CheckDest(m.files, o.sparse)
    case None => []
    case Some(f) =>
      if !r.lookup.Root? then []
      else
        var store := Pooled(o.base, r.lookup.root);
        var checked := CheckStore(f, store);
        if checked.dest.Some? then
          if r.local.Missing? then [Pulling(checked, store, false)] else []
        else if r.clone.Done? && IsShared(r.clone.left) && r.local.Missing? then
          [Cloning(checked, store), Pulling(r.clone.left, store, true)]
        else [Cloning(checked, store)]
  }

  /** What the code makes sure of before each transfer: it checks what was there before the call, and of what its own
      clone left only that it is shared. */
  ghost predicate StartsChecked(s: Start) {
    match s
    case Cloning(f, store) => Ready(f, store) && f.dest.None?
    case Pulling(f, store, cloned) => if cloned then IsShared(f) else Ready(f, store) && f.dest.Some?
  }

  ghost predicate AllReady(starts: seq<Start>) {
    forall i :: 0 <= i < |starts| ==> Ready(starts[i].files, starts[i].store)
  }

  /** The call clones into an absent destination, finds it shared and goes on to pull into it. */
  predicate PullsAfterClone(m: Machine, o: Options, r: Round) {
    && r.lookup.Root? && CheckDest(m.files, o.sparse).Some?
    && CheckStore(CheckDest(m.files, o.sparse).value, Pooled(o.base, r.lookup.root)).dest.None?
    && r.clone.Done? && IsShared(r.clone.left) && r.local.Missing?
  }

  /** If the call pulls after a clone, the clone has left a ready state. */
  ghost predicate CloneLeftReady(m: Machine, o: Options, r: Round) {
    PullsAfterClone(m, o, r) ==> Ready(r.clone.left, Pooled(o.base, r.lookup.root))
  }

  /** Every clone, and every pull into a destination that was there before, begins in a ready state. All transfers of
      the call do exactly if it does not pull into what its own clone has left unready. */
  lemma StartsAreChecked(m: Machine, o: Options, r: Round)
    ensures forall i :: 0 <= i < |Starts(m, o, r)| ==> StartsChecked(Starts(m, o, r)[i])
    ensures AllReady(Starts(m, o, r)) <==> CloneLeftReady(m, o, r)
  {
    if CheckDest(m.files, o.sparse).Some? && r.lookup.Root? {
      var starts, store := Starts(m, o, r), Pooled(o.base, r.lookup.root);
      ChecksMakeReady(m.files, o.sparse, store);
      if PullsAfterClone(m, o, r) {
        assert starts[1] == Pulling(r.clone.left, store, true);
      }
    }
  }

  /** A client with `format.dotencode` off leaves a new store without that requirement. */
  function Undotted(o: Options, root: nat): Files {
    Files(Some(Wdir(false, Some(Pooled(o.base, root)), false)),
          map[Pooled(o.base, root) := Store(false, Some({"fncache"}), {})])
  }

  /** What a clone leaves is not checked in the same call: a store that lacks a requirement is pulled into, and deleted
      together with the destination by the next call. */
  lemma UndottedCloneIsPulledInto(o: Options, root: nat, m: Machine, r: Round)
    requires m == Machine(Files(None, map[]), 1)
    requires r == Round(Root(root), Done(Undotted(o, root)), Missing, Done(Undotted(o, root)), false)
    ensures var store, left := Pooled(o.base, root), Undotted(o, root);
            && Starts(m, o, r) == [Cloning(m.files, store), Pulling(left, store, true)]
            && !Ready(left, store) && !CloneLeftReady(m, o, r) && Attempt(m, o, r).next == Finished
            && CheckStore(left, store) == Files(None, map[])
  {
    var s := Store(false, Some({"fncache"}), {});
    assert "dotencode" in REQUIRED && "dotencode" !in Requirements(s);
    assert !Sound(s);
    assert Undotted(o, root).stores - {Pooled(o.base, root)} == map[];
  }

  /** A call refuses, fails in its lookup, or goes on with a destination that is there or with a clone; it pulls exactly
      if the revision is missing. */
  lemma TransfersBegun(m: Machine, o: Options, r: Round)
    ensures CheckDest(m.files, o.sparse).None? || !r.lookup.Root? ==> Starts(m, o, r) == []
    ensures CheckDest(m.files, o.sparse).Some? && r.lookup.Root? ==>
              var store := Pooled(o.base, r.lookup.root);
              var files := CheckStore(CheckDest(m.files, o.sparse).value, store);
              var clones := files.dest.None?;
              && (forall f, p :: Cloning(f, p) in Starts(m, o, r) <==> clones && p == store && f == files)
              && (clones ==> Starts(m, o, r)[..1] == [Cloning(files, store)])
              && (forall f, p, c :: Pulling(f, p, c) in Starts(m, o, r) <==>
                   && r.local.Missing? && p == store && c == clones
                   && if clones then r.clone.Done? && IsShared(r.clone.left) && f == r.clone.left else f == files)
              && |Starts(m, o, r)| <= if clones then 2 else 1
  {
  }

  // ---------------------------------------------------------------- what it does about each failure

  /** The transfer that the call ends in. */
  function LastTransfer(m: Machine, o: Options, r: Round): Transfer
    requires Starts(m, o, r) != []
  {
    var starts := Starts(m, o, r);
    if starts[|starts| - 1].Cloning? then r.clone else r.pull
  }

  /** A lookup, a clone or a pull that meets one of the five network errors is counted and tried again while the limit
      is not reached, and raised from then on. */
  lemma NetworkFailureRetried(m: Machine, o: Options, r: Round, e: Error)
    requires e.StreamEnded? || e.Ssl? || e.HttpServerError? || e.SocketError? || e.Timeout?
    ensures r.lookup == LookupFailed(e) && CheckDest(m.files, o.sparse).Some? ==>
              Attempt(m, o, r) == Counts(m.(files := CheckDest(m.files, o.sparse).value), o.limit)
    ensures Starts(m, o, r) != [] && LastTransfer(m, o, r).Failed? && LastTransfer(m, o, r).error == e ==>
              Attempt(m, o, r) == Counts(m.(files := LastTransfer(m, o, r).left), o.limit)
  {
    hide CheckDest, CheckStore;
    if Starts(m, o, r) != [] && !LastTransfer(m, o, r).Done? { TransferEnds(m, o, r); }
  }

  function Counts(m: Machine, limit: int): Exit {
    if m.attempts < limit then Exit(Again(Counted), m, m.(attempts := m.attempts + 1)) else Exit(Raised, m, m)
  }

  /** Any other error is raised, but an unrelated repository at the destination is deleted first and not raised. */
  lemma OtherErrorRaised(m: Machine, o: Options, r: Round, e: Error)
    requires e.Unrelated? || e.OtherAbort? || e.OtherHttpError? || e.OtherUrlError?
    ensures r.lookup == LookupFailed(e) && CheckDest(m.files, o.sparse).Some? ==>
              Attempt(m, o, r) == Discards(m.(files := CheckDest(m.files, o.sparse).value), e)
    ensures Starts(m, o, r) != [] && LastTransfer(m, o, r).Failed? && LastTransfer(m, o, r).error == e ==>
              Attempt(m, o, r) == Discards(m.(files := LastTransfer(m, o, r).left), e)
  {
    hide CheckDest, CheckStore;
    if Starts(m, o, r) != [] && !LastTransfer(m, o, r).Done? { TransferEnds(m, o, r); }
  }

  function Discards(m: Machine, e: Error): Exit {
    if e.Unrelated? && m.files.dest.Some? then
      Exit(Again(DestRemoved), m, Machine(Files(None, m.files.stores), m.attempts))
    else Exit(Raised, m, m)
  }

  /** A corrupt store is deleted and the call tried again, if the destination says which store that is; so is a store
      whose abandoned transaction cannot be recovered. A recovery changes nothing else. */
  lemma BrokenStoreRepaired(m: Machine, o: Options, r: Round)
    requires Starts(m, o, r) != []
    ensures var t := LastTransfer(m, o, r);
            var n := m.(files := t.left);
            var opens := match t.left.dest
                         case Some(Wdir(_, shared, _)) => shared.None? || shared.value in t.left.stores
                         case _ => false;
            && (t.Corrupt? ==> Attempt(m, o, r) == Drops(n))
            && (t.RepoFailed? && t.abandoned && opens ==>
                 Attempt(m, o, r) == if r.recovers then Exit(Again(Recovered), n, n) else Drops(n))
            && (t.RepoFailed? && !(t.abandoned && opens) ==> Attempt(m, o, r) == Exit(Raised, n, n))
            && (t.Nothing? ==> Attempt(m, o, r) == Exit(Raised, n, n))
  {
    hide CheckDest, CheckStore;
    if Starts(m, o, r) != [] && !LastTransfer(m, o, r).Done? { TransferEnds(m, o, r); }
  }

  function Drops(m: Machine): Exit {
    match m.files.dest
    case Some(Wdir(_, Some(p), _)) =>
      if p in m.files.stores then
        Exit(Again(StoreRemoved), m, Machine(Files(m.files.dest, m.files.stores - {p}), m.attempts))
      else Exit(Raised, m, m)
    case _ => Exit(Raised, m, m)
  }

  /** A call finishes exactly if its revision is there, before or after a pull; nothing else ends without an error or
      a retry. */
  lemma FinishesIff(m: Machine, o: Options, r: Round)
    ensures Attempt(m, o, r).next == Finished <==>
              && CheckDest(m.files, o.sparse).Some? && r.lookup.Root?
              && (CheckStore(CheckDest(m.files, o.sparse).value, Pooled(o.base, r.lookup.root)).dest.None? ==>
                   && r.clone.Done? && r.clone.left.dest.Some? && r.clone.left.dest.value.Wdir?
                   && r.clone.left.dest.value.shared.Some?)
              && (r.local.Present? || (r.local.Missing? && r.pull.Done?))
    ensures Attempt(m, o, r).next == Finished ==>
              var found := CheckStore(CheckDest(m.files, o.sparse).value, Pooled(o.base, r.lookup.root));
              var files := if r.local.Missing? then r.pull.left else if found.dest.None? then r.clone.left else found;
              Attempt(m, o, r).after == Machine(files, m.attempts)
  {
    hide CheckDest, CheckStore;
  }

  lemma TransferEnds(m: Machine, o: Options, r: Round)
    requires Starts(m, o, r) != [] && !LastTransfer(m, o, r).Done?
    ensures Attempt(m, o, r) == TransferFailed(LastTransfer(m, o, r), m.attempts, o.limit, r.recovers)
  {
    hide CheckDest, CheckStore, TransferFailed;
  }

  // ---------------------------------------------------------------- why it starts over

  /** The cause of a retry is a fact about the states before and after it. */
  ghost predicate Justified(x: Exit, limit: int, r: Round) {
    match x.next
    case Again(Counted) => x.caught.attempts < limit && x.after == x.caught.(attempts := x.caught.attempts + 1)
    case Again(DestRemoved) => x.caught.files.dest.Some? && x.after == x.caught.(files := x.caught.files.(dest := None))
    case Again(StoreRemoved) =>
      && IsShared(x.caught.files)
      && var p := x.caught.files.dest.value.shared.value;
         && p in x.caught.files.stores
         && x.after == x.caught.(files := x.caught.files.(stores := x.caught.files.stores - {p}))
    case Again(Recovered) => r.recovers && Opens(x.caught.files) && x.after == x.caught
    case _ => x.after.attempts == x.caught.attempts
  }

  lemma PullErrorJustified(m: Machine, limit: int, e: Error, r: Round)
    ensures Justified(PullError(m, limit, e), limit, r) && PullError(m, limit, e).caught == m
  {
  }

  lemma CorruptionJustified(m: Machine, limit: int, r: Round)
    ensures Justified(Corruption(m), limit, r) && Corruption(m).caught == m
  {
  }

  lemma TransferFailedJustified(t: Transfer, attempts: nat, limit: int, r: Round)
    requires !t.Done?
    ensures var x := TransferFailed(t, attempts, limit, r.recovers);
            Justified(x, limit, r) && x.caught == Machine(t.left, attempts)
  {
    hide PullError, Corruption;
    var m := Machine(t.left, attempts);
    CorruptionJustified(m, limit, r);
    if t.Failed? { PullErrorJustified(m, limit, t.error, r); }
  }

  lemma PullPhaseJustified(m: Machine, limit: int, r: Round)
    ensures Justified(PullPhase(m, limit, r), limit, r) && PullPhase(m, limit, r).caught.attempts == m.attempts
  {
    hide TransferFailed;
    if !r.pull.Done? { TransferFailedJustified(r.pull, m.attempts, limit, r); }
  }

  lemma ClonePhaseJustified(m: Machine, limit: int, r: Round)
    ensures Justified(ClonePhase(m, limit, r), limit, r) && ClonePhase(m, limit, r).caught.attempts == m.attempts
  {
    hide TransferFailed, PullPhase;
    PullPhaseJustified(m, limit, r);
    if r.clone.Done? {
      PullPhaseJustified(m.(files := r.clone.left), limit, r);
    } else {
      TransferFailedJustified(r.clone, m.attempts, limit, r);
    }
  }

  /** Every retry follows a counted network failure below the limit, the removal of a destination or store that was
      there, or a successful recovery. */
  lemma AttemptJustified(m: Machine, o: Options, r: Round)
    ensures Justified(Attempt(m, o, r), o.limit, r) && Attempt(m, o, r).caught.attempts == m.attempts
  {
    hide ClonePhase, PullError, CheckDest, CheckStore;
    match CheckDest(m.files, o.sparse)
    case None =>
    case Some(f) =>
      match r.lookup
      case Root(root) => ClonePhaseJustified(Machine(CheckStore(f, Pooled(o.base, root)), m.attempts), o.limit, r);
      case LookupFailed(e) => PullErrorJustified(m.(files := f), o.limit, e, r);
      case _ =>
  }

  // ---------------------------------------------------------------- whole runs

  /** A run: the causes of its retries and its last exit; None when it is still going after all the rounds given. */
  function Outcome(m: Machine, o: Options, rounds: seq<Round>): (seq<Cause>, Option<Exit>)
    decreases |rounds|
  {
    if rounds == [] then ([], None)
    else
      var x := Attempt(m, o, rounds[0]);
      if x.next.Again? then
        var (causes, last) := Outcome(x.after, o, rounds[1..]);
        ([x.next.cause] + causes, last)
      else ([], Some(x))
  }

  function Count(causes: seq<Cause>, c: Cause): nat {
    if causes == [] then 0 else (if causes[0] == c then 1 else 0) + Count(causes[1..], c)
  }

  function Max(a: int, b: int): int { if a < b then b else a }

  /** The count of attempts grows by the network retries and never passes the limit. */
  lemma {:induction false} AttemptsBounded(m: Machine, o: Options, rounds: seq<Round>)
    ensures var (causes, last) := Outcome(m, o, rounds);
            && m.attempts + Count(causes, Counted) <= Max(m.attempts, o.limit)
            && (last.Some? ==> last.value.after.attempts == m.attempts + Count(causes, Counted))
    decreases |rounds|
  {
    hide Attempt;
    if rounds != [] {
      var x := Attempt(m, o, rounds[0]);
      AttemptJustified(m, o, rounds[0]);
      if x.next.Again? {
        AttemptsBounded(x.after, o, rounds[1..]);
        var causes := Outcome(x.after, o, rounds[1..]).0;
        assert ([x.next.cause] + causes)[1..] == causes;
      }
    }
  }

  lemma SameDest(m: Machine, o: Options, r: Round)
    requires CheckDest(m.files, o.sparse).Some?
    ensures var f := CheckDest(m.files, o.sparse).value;
            CheckDest(f, o.sparse) == Some(f) && Attempt(m, o, r) == Attempt(m.(files := f), o, r)
  {
  }

  lemma SameOutcome(m: Machine, o: Options, rounds: seq<Round>)
    requires CheckDest(m.files, o.sparse).Some?
    ensures Outcome(m, o, rounds) == Outcome(m.(files := CheckDest(m.files, o.sparse).value), o, rounds)
  {
    hide Attempt, CheckDest;
    if rounds != [] { SameDest(m, o, rounds[0]); }
  }

  /** The network is down: the lookup fails with one of the five network errors. */
  ghost predicate Down(r: Round) {
    && r.lookup.LookupFailed?
    && var e := r.lookup.error; e.StreamEnded? || e.Ssl? || e.HttpServerError? || e.SocketError? || e.Timeout?
  }

  /** A run whose first `k` lookups fail with a network error, within the limit, starts over `k` times and goes on as if
      it had begun there. If the next one fails so at the limit, the error is raised. */
  lemma {:induction false} LookupsRetried(m: Machine, o: Options, rounds: seq<Round>, k: nat)
    requires CheckDest(m.files, o.sparse).Some? && k <= |rounds| && (k > 0 ==> m.attempts + k <= o.limit)
    requires forall i :: 0 <= i < k ==> Down(rounds[i])
    ensures var n := Machine(CheckDest(m.files, o.sparse).value, m.attempts + k);
            var (causes, last) := Outcome(m, o, rounds);
            && |causes| >= k && (forall i :: 0 <= i < k ==> causes[i] == Counted)
            && Outcome(n, o, rounds[k..]) == (causes[k..], last)
    decreases k
  {
    hide Attempt, CheckDest;
    var f := CheckDest(m.files, o.sparse).value;
    if k == 0 {
      SameOutcome(m, o, rounds);
      assert rounds[0..] == rounds;
    } else {
      NetworkFailureRetried(m, o, rounds[0], rounds[0].lookup.error);
      var next := Machine(f, m.attempts + 1);
      CheckedTwice(m, o);
      LookupsRetried(next, o, rounds[1..], k - 1);
      assert rounds[1..][k - 1..] == rounds[k..];
      var causes := Outcome(next, o, rounds[1..]).0;
      assert ([Counted] + causes)[k..] == causes[k - 1..];
    }
  }

  lemma CheckedTwice(m: Machine, o: Options)
    requires CheckDest(m.files, o.sparse).Some?
    ensures CheckDest(CheckDest(m.files, o.sparse).value, o.sparse) == CheckDest(m.files, o.sparse)
  {
  }

  /** A network that stays down: the command makes as many attempts as the limit allows, and raises the last error. */
  lemma NetworkDown(m: Machine, o: Options, rounds: seq<Round>)
    requires CheckDest(m.files, o.sparse).Some? && m.attempts <= o.limit && |rounds| > o.limit - m.attempts
    requires forall i :: 0 <= i <= o.limit - m.attempts ==> Down(rounds[i])
    ensures var k, n := o.limit - m.attempts, Machine(CheckDest(m.files, o.sparse).value, o.limit);
            var (causes, last) := Outcome(m, o, rounds);
            && |causes| == k && (forall i :: 0 <= i < k ==> causes[i] == Counted)
            && last == Some(Exit(Raised, n, n))
  {
    hide Attempt, CheckDest;
    var k, n := o.limit - m.attempts, Machine(CheckDest(m.files, o.sparse).value, o.limit);
    LookupsRetried(m, o, rounds, k);
    CheckedTwice(m, o);
    NetworkFailureRetried(n, o, rounds[k], rounds[k].lookup.error);
    assert rounds[k..][0] == rounds[k];
    assert Outcome(n, o, rounds[k..]) == ([], Some(Exit(Raised, n, n)));
  }

  /** The clones and pulls that a run begins. */
  function AllStarts(m: Machine, o: Options, rounds: seq<Round>): seq<Start>
    decreases |rounds|
  {
    if rounds == [] then []
    else
      var x := Attempt(m, o, rounds[0]);
      Starts(m, o, rounds[0]) + if x.next.Again? then AllStarts(x.after, o, rounds[1..]) else []
  }

  /** No call of the run pulls into what its own clone has left unready. */
  ghost predicate ClonesLeaveReady(m: Machine, o: Options, rounds: seq<Round>)
    decreases |rounds|
  {
    rounds == [] ||
    var x := Attempt(m, o, rounds[0]);
    CloneLeftReady(m, o, rounds[0]) && (x.next.Again? ==> ClonesLeaveReady(x.after, o, rounds[1..]))
  }

  lemma AllReadyConcat(a: seq<Start>, b: seq<Start>)
    ensures AllReady(a + b) <==> AllReady(a) && AllReady(b)
  {
    assert forall i :: 0 <= i < |a| ==> (a + b)[i] == a[i];
    assert forall i :: 0 <= i < |b| ==> (a + b)[|a| + i] == b[i];
  }

  /** Over a whole run every clone, and every pull into a destination that was there, begins in a ready state, and a
      pull after a clone with a shared destination. All transfers begin in a ready state exactly if no call of the run
      pulls into what its own clone has left unready. */
  lemma {:induction false} AlwaysChecked(m: Machine, o: Options, rounds: seq<Round>)
    ensures forall i :: 0 <= i < |AllStarts(m, o, rounds)| ==> StartsChecked(AllStarts(m, o, rounds)[i])
    ensures AllReady(AllStarts(m, o, rounds)) <==> ClonesLeaveReady(m, o, rounds)
    decreases |rounds|
  {
    hide Attempt, Starts, StartsChecked, CloneLeftReady, Ready;
    if rounds != [] {
      var x := Attempt(m, o, rounds[0]);
      StartsAreChecked(m, o, rounds[0]);
      AlwaysChecked(x.after, o, rounds[1..]);
      AllReadyConcat(Starts(m, o, rounds[0]), if x.next.Again? then AllStarts(x.after, o, rounds[1..]) else []);
    }
  }

  /** How much there is to remove. */
  function Size(f: Files): nat {
    |f.stores| + if f.dest.Some? then 1 else 0
  }

  /** What the transfers of a run have left on disk beyond what they found. */
  function Growth(m: Machine, o: Options, rounds: seq<Round>): nat
    decreases |rounds|
  {
    if rounds == [] then 0
    else
      var x := Attempt(m, o, rounds[0]);
      Max(0, Size(x.caught.files) - Size(m.files)) + if x.next.Again? then Growth(x.after, o, rounds[1..]) else 0
  }

  lemma RemovalShrinks(x: Exit, limit: int, r: Round)
    requires Justified(x, limit, r) && x.next.Again?
    ensures Size(x.after.files)
         == Size(x.caught.files) - if x.next.cause.DestRemoved? || x.next.cause.StoreRemoved? then 1 else 0
  {
    if x.next.cause.StoreRemoved? {
      var p := x.caught.files.dest.value.shared.value;
      assert x.after.files.stores.Keys == x.caught.files.stores.Keys - {p};
      assert |x.after.files.stores| == |x.after.files.stores.Keys|;
      assert |x.caught.files.stores| == |x.caught.files.stores.Keys|;
    }
  }

  /** A run cannot start over for free: its retries number at most the network attempts left, the recoveries, and the
      destination and stores found on disk or left there by its own transfers. */
  lemma {:induction false} RetriesArePaidFor(m: Machine, o: Options, rounds: seq<Round>)
    ensures var causes := Outcome(m, o, rounds).0;
            |causes| <= Count(causes, Counted) + Count(causes, Recovered) + Size(m.files) + Growth(m, o, rounds)
    decreases |rounds|
  {
    hide Attempt, Size, Justified;
    if rounds != [] {
      var x := Attempt(m, o, rounds[0]);
      AttemptJustified(m, o, rounds[0]);
      if x.next.Again? {
        RemovalShrinks(x, o.limit, rounds[0]);
        RetriesArePaidFor(x.after, o, rounds[1..]);
        var causes := Outcome(x.after, o, rounds[1..]).0;
        assert ([x.next.cause] + causes)[1..] == causes;
      }
    }
  }

  lemma NextRound(m: Machine, o: Options, rounds: seq<Round>, i: nat)
    requires i < |rounds|
    ensures var x := Attempt(m, o, rounds[i]);
            var (causes, last) := Outcome(x.after, o, rounds[i + 1..]);
            Outcome(m, o, rounds[i..]) == if x.next.Again? then ([x.next.cause] + causes, last) else ([], Some(x))
    ensures var x := Attempt(m, o, rounds[i]);
            AllStarts(m, o, rounds[i..]) ==
            Starts(m, o, rounds[i]) + if x.next.Again? then AllStarts(x.after, o, rounds[i + 1..]) else []
  {
    hide Attempt, Starts;
    assert rounds[i..][0] == rounds[i] && rounds[i..][1..] == rounds[i + 1..];
  }

  lemma NoRound(m: Machine, o: Options, rounds: seq<Round>)
    requires rounds == []
    ensures Outcome(m, o, rounds) == ([], None) && AllStarts(m, o, rounds) == []
  {
  }

  // ---------------------------------------------------------------- the command

  class Robustcheckout {
    const o: Options
    var files: Files
    var attempts: nat
    /** Why the command has started over so far, and the clones and pulls it has begun. */
    ghost var causes: seq<Cause>
    ghost var starts: seq<Start>

    constructor (files: Files, o: Options)
      ensures this.files == files && attempts == 1 && this.o == o && causes == [] && starts == []
    {
      this.files, this.o := files, o;
      attempts, causes, starts := 1, [], [];
    }

    function Now(): Machine
      reads this
    {
      Machine(files, attempts)
    }

    method RmtreeDest() returns (ok: bool)
      modifies this`files
      ensures match RemoveDest(old(files)) case Some(f) => ok && files == f case None => !ok && files == old(files)
    {
      ok := files.dest.Some?;
      if ok { files := files.(dest := None); }
    }

    method DeleteStoreOfDest() returns (ok: bool)
      modifies this`files
      ensures match DeleteSharedStore(old(files))
              case Some(f) => ok && files == f
              case None => !ok && files == old(files)
    {
      ok := IsShared(files) && files.dest.value.shared.value in files.stores;
      if ok { files := files.(stores := files.stores - {files.dest.value.shared.value}); }
    }

    method HandleNetworkFailure() returns (ok: bool)
      modifies this`attempts
      ensures ok == (old(attempts) < o.limit) && attempts == if ok then old(attempts) + 1 else old(attempts)
    {
      if attempts >= o.limit {
        return false;
      }
      attempts := attempts + 1;
      return true;
    }

    method HandlePullError(e: Error) returns (next: Next)
      modifies this`files, this`attempts
      ensures var x := PullError(old(Now()), o.limit, e); next == x.next && Now() == x.after
    {
      match e
      case Unrelated =>
        var ok := RmtreeDest();
        return if ok then Again(DestRemoved) else Raised;
      case StreamEnded | Ssl | HttpServerError | SocketError | Timeout =>
        var ok := HandleNetworkFailure();
        return if ok then Again(Counted) else Raised;
      case OtherAbort | OtherHttpError | OtherUrlError =>
        return Raised;
    }

    method HandleTransferError(t: Transfer, recovers: bool) returns (next: Next)
      requires !t.Done? && files == t.left
      modifies this`files, this`attempts
      ensures var x := TransferFailed(t, old(attempts), o.limit, recovers); next == x.next && Now() == x.after
    {
      match t
      case Nothing(_) => return Raised;
      case Failed(e, _) => next := HandlePullError(e);
      case RepoFailed(abandoned, _) =>
        if !abandoned || !Opens(files) {
          return Raised;
        }
        if recovers {
          return Again(Recovered);
        }
        var ok := DeleteStoreOfDest();
        return if ok then Again(StoreRemoved) else Raised;
      case Corrupt(_) =>
        var ok := DeleteStoreOfDest();
        return if ok then Again(StoreRemoved) else Raised;
    }

    /** The checks before the network; false where the command refuses. */
    method PrepareDest() returns (ok: bool)
      modifies this`files
      ensures match CheckDest(old(files), o.sparse)
              case Some(f) => ok && files == f
              case None => !ok && files == old(files)
    {
      if files.dest == Some(Plain) {
        return false;
      }
      if files.dest.Some? && o.sparse && !files.dest.value.sparse {
        return false;
      }
      if files.dest.Some? && !o.sparse && files.dest.value.sparse {
        return false;
      }
      if files.dest.Some? && files.dest.value.shared.None? {
        files := files.(dest := None);
      }
      if files.dest.Some? {
        var storepath := files.dest.value.shared.value;
        if storepath !in files.stores {
          files := files.(dest := None);
        } else if !storepath.Pooled? {
          files := files.(dest := None);
        }
      }
      if files.dest.Some? && files.dest.value.wlock {
        files := files.(dest := None);
      }
      return true;
    }

    method PrepareStore(p: Path)
      modifies this`files
      ensures files == CheckStore(old(files), p)
    {
      if p in files.stores && files.stores[p].locked {
        files := Files(None, files.stores - {p});
      }
      if p in files.stores && files.stores[p].requirements.None? {
        files := Files(None, files.stores - {p});
      }
      if p in files.stores {
        var listed := files.stores[p].requirements.value;
        if "share-safe" in listed {
          listed := listed + files.stores[p].moved;
        }
        if !(REQUIRED <= listed) {
          files := Files(None, files.stores - {p});
        }
      }
    }

    /** One call of `_docheckout` up to where it would call itself. */
    method DoCheckout(r: Round) returns (next: Next)
      modifies this
      ensures var x := Attempt(old(Now()), o, r); next == x.next && Now() == x.after
      ensures causes == old(causes) && starts == old(starts) + Starts(old(Now()), o, r)
      ensures CheckDest(old(files), o.sparse).Some? && Down(r) ==>
                if old(attempts) < o.limit then next == Again(Counted) && attempts == old(attempts) + 1
                else next == Raised && attempts == old(attempts)
    {
      hide CheckDest, CheckStore, TransferFailed, PullError;
      if Down(r) { NetworkFailureRetried(Now(), o, r, r.lookup.error); }
      var ok := PrepareDest();
      if !ok {
        return Raised;
      }
      if r.lookup.LookupFailed? {
        next := HandlePullError(r.lookup.error);
        return;
      }
      if !r.lookup.Root? {
        return Raised;
      }
      var storepath := Pooled(o.base, r.lookup.root);
      PrepareStore(storepath);
      var created := false;
      if files.dest.None? {
        starts := starts + [Cloning(files, storepath)];
        files := r.clone.left;
        if !r.clone.Done? {
          next := HandleTransferError(r.clone, r.recovers);
          return;
        }
        if !IsShared(files) {
          return Raised;
        }
        created := true;
      }
      if r.local.Ambiguous? {
        return Raised;
      }
      if r.local.Missing? {
        starts := starts + [Pulling(files, storepath, created)];
        files := r.pull.left;
        if !r.pull.Done? {
          next := HandleTransferError(r.pull, r.recovers);
          return;
        }
      }
      return Finished;
    }

    /** The self-calls: the command against the answers of the world, one round after the other. */
    method Run(rounds: seq<Round>) returns (last: Option<Next>)
      modifies this
      ensures var (cs, x) := Outcome(old(Now()), o, rounds);
              && causes == old(causes) + cs
              && (x.Some? ==> last == Some(x.value.next) && Now() == x.value.after)
              && (x.None? ==> last.None?)
      ensures starts == old(starts) + AllStarts(old(Now()), o, rounds)
    {
      hide Attempt, Starts, Outcome, AllStarts;
      var i := 0;
      assert rounds[0..] == rounds;
      while i < |rounds|
        invariant i <= |rounds|
        invariant var (cs, x) := Outcome(old(Now()), o, rounds);
                  var (rest, y) := Outcome(Now(), o, rounds[i..]);
                  old(causes) + cs == causes + rest && x == y
        invariant starts + AllStarts(Now(), o, rounds[i..]) == old(starts) + AllStarts(old(Now()), o, rounds)
      {
        NextRound(Now(), o, rounds, i);
        var next := DoCheckout(rounds[i]);
        if !next.Again? {
          return Some(next);
        }
        causes := causes + [next.cause];
        i := i + 1;
      }
      NoRound(Now(), o, rounds[i..]);
      return None;
    }
  }
}
