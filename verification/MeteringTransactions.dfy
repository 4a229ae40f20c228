/**
 The PostgreSQL form of the metering checkpoint: many transactions, each a chain
 of separate statements under a per-stream advisory lock, interleaved in any way.
 Reads see committed rows only; an insert waits for a rival uncommitted insert of
 the same key and aborts on a committed one.
 */
module MeteringTransactions {
  import opened Prelude
  import opened Metering

  datatype Phase =
    | Waiting                 // before the advisory lock
    | Locked                  // lock held, nothing read
    | Absent                  // event id read and not found
    | Ready                   // maximum read, sequence is the next one
    | Inserted                // row written, not committed
    | Decided(d: Decision)    // nothing to write
    | Committed(d: Decision)
    | RolledBack

  /** One linearised call. The log is a history: no step depends on it. */
  datatype LogEntry = LogEntry(txn: nat, decision: Decision)

  datatype System = System(rows: Ledger, requests: seq<Request>, phases: seq<Phase>, log: seq<LogEntry>)

  datatype Action = Advance(txn: nat) | Abort(txn: nat)

  /** `hashtext(streamId)`: distinct streams may share a lock. */
  type LockKey = string -> int

  predicate HoldsLock(p: Phase) {
    p.Locked? || p.Absent? || p.Ready? || p.Inserted? || p.Decided?
  }

  predicate Finished(p: Phase) {
    p.Committed? || p.RolledBack?
  }

  ghost predicate SameLock(s: System, i: nat, j: nat, key: LockKey)
    requires i < |s.requests| && j < |s.requests|
  {
    key(s.requests[i].streamId) == key(s.requests[j].streamId)
  }

  ghost predicate LockFree(s: System, i: nat, key: LockKey)
    requires i < |s.requests| == |s.phases|
  {
    forall j: nat | j < |s.phases| && HoldsLock(s.phases[j]) :: !SameLock(s, i, j, key)
  }

  /** A committed row already carries the event id, or the stream and sequence. */
  ghost predicate KeyTaken(rows: Ledger, r: Request) {
    r.eventId in rows || exists id :: At(rows, r.streamId, r.sequence, id)
  }

  predicate SameKey(r: Request, q: Request) {
    r.eventId == q.eventId || (r.streamId == q.streamId && r.sequence == q.sequence)
  }

  ghost predicate RivalInsert(s: System, i: nat)
    requires i < |s.requests| == |s.phases|
  {
    exists j: nat :: j < |s.phases| && j != i && s.phases[j].Inserted? && SameKey(s.requests[i], s.requests[j])
  }

  function Goto(s: System, i: nat, p: Phase): System
    requires i < |s.phases|
  {
    s.(phases := s.phases[i := p])
  }

  function Log(s: System, i: nat, d: Decision): System {
    s.(log := s.log + [LogEntry(i, d)])
  }

  /** One statement of one transaction; a blocked statement changes nothing. */
  ghost function Step(s: System, i: nat, key: LockKey): System
    requires i < |s.requests| == |s.phases|
  {
    var r := s.requests[i];
    match s.phases[i]
    case Waiting => if LockFree(s, i, key) then Goto(s, i, Locked) else s
    case Locked =>
      if r.eventId in s.rows then
        var d := Duplicate(s.rows[r.eventId].sequence);
        Log(Goto(s, i, Decided(d)), i, d)
      else
        // The stream's maximum cannot move while the lock is held, so a refusal is settled here.
        var d := DecideAt(Checkpoint(s.rows, r.streamId), r.sequence);
        var next := Goto(s, i, Absent);
        if d.Accepted? then next else Log(next, i, d)
    case Absent =>
      var d := DecideAt(Checkpoint(s.rows, r.streamId), r.sequence);
      Goto(s, i, if d.Accepted? then Ready else Decided(d))
    case Ready =>
      if KeyTaken(s.rows, r) then Goto(s, i, RolledBack)
      else if RivalInsert(s, i) then s
      else Goto(s, i, Inserted)
    case Inserted =>
      var d := Accepted(r.sequence);
      Log(Goto(s, i, Committed(d)), i, d).(rows := s.rows[r.eventId := Entry(r.streamId, r.sequence)])
    case Decided(d) => Goto(s, i, Committed(d))
    case _ => s
  }

  ghost function Next(s: System, a: Action, key: LockKey): System
    requires |s.requests| == |s.phases|
    ensures |Next(s, a, key).phases| == |s.phases| && Next(s, a, key).requests == s.requests
  {
    if a.txn >= |s.phases| then s
    else if a.Advance? then Step(s, a.txn, key)
    else if Finished(s.phases[a.txn]) then s
    else Goto(s, a.txn, RolledBack)
  }

  ghost function Start(requests: seq<Request>): System {
    System(map[], requests, seq(|requests|, _ => Waiting), [])
  }

  ghost function Execute(s: System, actions: seq<Action>, key: LockKey): (t: System)
    requires |s.requests| == |s.phases|
    ensures |t.phases| == |s.phases| && t.requests == s.requests
    decreases |actions|
  {
    if actions == [] then s else Execute(Next(s, actions[0], key), actions[1..], key)
  }

  // ---------------------------------------------------------------------------
  // Replaying the log through the atomic store
  // ---------------------------------------------------------------------------

  ghost function Replay(requests: seq<Request>, log: seq<LogEntry>): Ledger {
    if log == [] then map[]
    else
      var last := log[|log| - 1];
      var before := Replay(requests, log[..|log| - 1]);
      if last.txn < |requests| then Applied(before, requests[last.txn]) else before
  }

  /** Every logged decision is the one the atomic store gives at that point of the log. */
  ghost predicate Faithful(requests: seq<Request>, log: seq<LogEntry>) {
    log == [] ||
    (var last := log[|log| - 1];
     && Faithful(requests, log[..|log| - 1])
     && last.txn < |requests|
     && last.decision == Decide(Replay(requests, log[..|log| - 1]), requests[last.txn]))
  }

  lemma FaithfulAppend(requests: seq<Request>, log: seq<LogEntry>, e: LogEntry)
    requires Faithful(requests, log) && e.txn < |requests|
    requires e.decision == Decide(Replay(requests, log), requests[e.txn])
    ensures Faithful(requests, log + [e])
    ensures Replay(requests, log + [e]) == Applied(Replay(requests, log), requests[e.txn])
  {
    assert (log + [e])[..|log|] == log;
  }

  lemma {:induction false} ReplayContiguous(requests: seq<Request>, log: seq<LogEntry>)
    ensures Contiguous(Replay(requests, log))
  {
    if log == [] {
      EmptyContiguous();
    } else {
      ReplayContiguous(requests, log[..|log| - 1]);
      var last := log[|log| - 1];
      if last.txn < |requests| {
        ApplyContiguous(Replay(requests, log[..|log| - 1]), requests[last.txn]);
      }
    }
  }

  // ---------------------------------------------------------------------------
  // The invariant
  // ---------------------------------------------------------------------------

  ghost predicate NotLogged(log: seq<LogEntry>, i: nat) {
    forall k | 0 <= k < |log| :: log[k].txn != i
  }

  ghost predicate LoggedOnce(log: seq<LogEntry>) {
    forall j, k | 0 <= j < k < |log| :: log[j].txn != log[k].txn
  }

  ghost function Pending(s: System, i: nat): Decision
    requires i < |s.requests|
  {
    DecideAt(Checkpoint(s.rows, s.requests[i].streamId), s.requests[i].sequence)
  }

  ghost predicate Consistent(s: System, i: nat)
    requires i < |s.requests| == |s.phases|
  {
    match s.phases[i]
    case Waiting => NotLogged(s.log, i)
    case Locked => NotLogged(s.log, i)
    case Absent => if Pending(s, i).Accepted? then NotLogged(s.log, i) else LogEntry(i, Pending(s, i)) in s.log
    case Ready => NotLogged(s.log, i) && Pending(s, i).Accepted?
    case Inserted => NotLogged(s.log, i) && Pending(s, i).Accepted? && s.requests[i].eventId !in s.rows
    case Decided(d) => !d.Accepted? && LogEntry(i, d) in s.log
    case Committed(d) => LogEntry(i, d) in s.log
    case RolledBack => forall e | e in s.log && e.txn == i :: !e.decision.Accepted?
  }

  ghost predicate Exclusive(s: System, key: LockKey)
    requires |s.requests| == |s.phases|
  {
    forall i: nat, j: nat | i < j < |s.phases| && HoldsLock(s.phases[i]) && HoldsLock(s.phases[j]) ::
      !SameLock(s, i, j, key)
  }

  ghost predicate InsertsDiffer(s: System)
    requires |s.requests| == |s.phases|
  {
    forall i: nat, j: nat | i < j < |s.phases| && s.phases[i].Inserted? && s.phases[j].Inserted? ::
      s.requests[i].eventId != s.requests[j].eventId
  }

  ghost predicate AllConsistent(s: System)
    requires |s.requests| == |s.phases|
  {
    forall i: nat | i < |s.phases| :: Consistent(s, i)
  }

  ghost predicate Linear(s: System) {
    Faithful(s.requests, s.log) && s.rows == Replay(s.requests, s.log) && LoggedOnce(s.log)
  }

  ghost predicate Inv(s: System, key: LockKey) {
    && |s.requests| == |s.phases|
    && Linear(s) && Exclusive(s, key) && InsertsDiffer(s) && AllConsistent(s)
  }

  lemma StartInv(requests: seq<Request>, key: LockKey)
    ensures Inv(Start(requests), key)
  {
  }

  /** A decision logged for a call not yet in the log keeps the log a faithful replay. */
  lemma DecisionAppends(requests: seq<Request>, rows: Ledger, log: seq<LogEntry>, i: nat, d: Decision)
    requires Faithful(requests, log) && LoggedOnce(log) && rows == Replay(requests, log)
    requires i < |requests| && NotLogged(log, i) && d == Decide(rows, requests[i])
    ensures var longer := log + [LogEntry(i, d)];
            && Faithful(requests, longer) && LoggedOnce(longer)
            && Replay(requests, longer) == Applied(rows, requests[i])
  {
    FaithfulAppend(requests, log, LogEntry(i, d));
  }

  lemma LogCall(s: System, t: System, i: nat, d: Decision)
    requires Linear(s) && i < |s.requests| && NotLogged(s.log, i)
    requires d == Decide(s.rows, s.requests[i])
    requires t.requests == s.requests && t.log == s.log + [LogEntry(i, d)]
    requires t.rows == Applied(s.rows, s.requests[i])
    ensures Linear(t)
  {
    DecisionAppends(s.requests, s.rows, s.log, i, d);
  }

  /** Other transactions stay consistent when rows only change outside their stream. */
  lemma OthersConsistent(s: System, t: System, i: nat, j: nat)
    requires |s.requests| == |s.phases| && i < |s.phases| && j < |s.phases| && i != j
    requires t.requests == s.requests && |t.phases| == |s.phases| && t.phases[j] == s.phases[j]
    requires t.log == s.log || exists d :: t.log == s.log + [LogEntry(i, d)]
    requires HoldsLock(s.phases[j]) ==> Pending(t, j) == Pending(s, j)
    requires s.phases[j].Inserted? && s.requests[j].eventId !in s.rows ==> s.requests[j].eventId !in t.rows
    requires Consistent(s, j)
    ensures Consistent(t, j)
  {
  }

  lemma PhaseStep(s: System, t: System, i: nat, key: LockKey)
    requires Inv(s, key) && i < |s.phases|
    requires t.requests == s.requests && t.rows == s.rows && |t.phases| == |s.phases|
    requires forall j: nat | j < |s.phases| && j != i :: t.phases[j] == s.phases[j]
    requires t.log == s.log || exists d :: t.log == s.log + [LogEntry(i, d)]
    requires Linear(t) && Consistent(t, i)
    requires HoldsLock(t.phases[i]) ==> HoldsLock(s.phases[i]) || LockFree(s, i, key)
    requires t.phases[i].Inserted? ==> s.phases[i].Inserted? || !RivalInsert(s, i)
    ensures Inv(t, key)
  {
    PhaseExclusive(s, t, i, key);
    forall j: nat | j < |t.phases| ensures Consistent(t, j) {
      if j != i {
        OthersConsistent(s, t, i, j);
      }
    }
  }

  lemma PhaseExclusive(s: System, t: System, i: nat, key: LockKey)
    requires |s.requests| == |s.phases| && Exclusive(s, key) && InsertsDiffer(s) && i < |s.phases|
    requires t.requests == s.requests && |t.phases| == |s.phases|
    requires forall j: nat | j < |s.phases| && j != i :: t.phases[j] == s.phases[j]
    requires HoldsLock(t.phases[i]) ==> HoldsLock(s.phases[i]) || LockFree(s, i, key)
    requires t.phases[i].Inserted? ==> s.phases[i].Inserted? || !RivalInsert(s, i)
    ensures Exclusive(t, key) && InsertsDiffer(t)
  {
  }

  lemma CommitInsert(s: System, i: nat, key: LockKey)
    requires Inv(s, key) && i < |s.phases| && s.phases[i].Inserted?
    ensures Inv(Step(s, i, key), key)
  {
    CommitLinear(s, i, key);
    PhaseExclusive(s, Step(s, i, key), i, key);
    CommitConsistent(s, i, key);
  }

  lemma CommitConsistent(s: System, i: nat, key: LockKey)
    requires Inv(s, key) && i < |s.phases| && s.phases[i].Inserted?
    ensures AllConsistent(Step(s, i, key))
  {
    CommitLinear(s, i, key);
    forall j: nat | j < |s.phases| ensures Consistent(Step(s, i, key), j) {
      if j != i {
        OthersAfterCommit(s, i, j, key);
      }
    }
  }

  lemma CommitLinear(s: System, i: nat, key: LockKey)
    requires Inv(s, key) && i < |s.phases| && s.phases[i].Inserted?
    ensures Linear(Step(s, i, key)) && Consistent(Step(s, i, key), i)
  {
    var d, t := Accepted(s.requests[i].sequence), Step(s, i, key);
    CommitApplies(s, i, key);
    DecisionAppends(s.requests, s.rows, s.log, i, d);
    assert t.log[|s.log|] == LogEntry(i, d);
  }

  /** Committing an insert is the atomic store's acceptance of the call. */
  lemma CommitApplies(s: System, i: nat, key: LockKey)
    requires |s.requests| == |s.phases| && i < |s.phases| && s.phases[i].Inserted? && Consistent(s, i)
    ensures var d := Accepted(s.requests[i].sequence);
            && d == Decide(s.rows, s.requests[i]) && NotLogged(s.log, i)
            && Step(s, i, key) == System(Applied(s.rows, s.requests[i]), s.requests, s.phases[i := Committed(d)],
                                         s.log + [LogEntry(i, d)])
  {
  }

  lemma HoldersApart(s: System, i: nat, j: nat, key: LockKey)
    requires |s.requests| == |s.phases| && Exclusive(s, key) && i < |s.phases| && j < |s.phases| && i != j
    requires HoldsLock(s.phases[i]) && HoldsLock(s.phases[j])
    ensures s.requests[i].streamId != s.requests[j].streamId
  {
    assert !SameLock(s, i, j, key) && !SameLock(s, j, i, key);
  }

  lemma OthersAfterCommit(s: System, i: nat, j: nat, key: LockKey)
    requires Inv(s, key) && i < |s.phases| && s.phases[i].Inserted? && j < |s.phases| && j != i
    ensures Consistent(Step(s, i, key), j)
  {
    var t := Step(s, i, key);
    assert Consistent(s, i) && Consistent(s, j);
    CheckpointAfter(s.rows, s.requests[i], s.requests[j].streamId);
    if HoldsLock(s.phases[j]) {
      HoldersApart(s, i, j, key);
    }
    OthersConsistent(s, t, i, j);
  }

  lemma StepInv(s: System, i: nat, key: LockKey)
    requires Inv(s, key) && i < |s.phases|
    ensures Inv(Step(s, i, key), key)
  {
    assert Consistent(s, i);
    match s.phases[i]
    case Waiting => PhaseStep(s, Step(s, i, key), i, key);
    case Locked => ReadEventId(s, i, key);
    case Absent => PhaseStep(s, Step(s, i, key), i, key);
    case Ready => PhaseStep(s, Step(s, i, key), i, key);
    case Inserted => CommitInsert(s, i, key);
    case Decided(_) => PhaseStep(s, Step(s, i, key), i, key);
    case _ =>
  }

  lemma ReadEventId(s: System, i: nat, key: LockKey)
    requires Inv(s, key) && i < |s.phases| && s.phases[i].Locked?
    ensures Inv(Step(s, i, key), key)
  {
    var t := Step(s, i, key);
    assert Consistent(s, i);
    if t.log == s.log {
      PhaseStep(s, t, i, key);
    } else {
      SettleRefusal(s, t, i, Decide(s.rows, s.requests[i]), key);
    }
  }

  /** A call that will write nothing is logged while it holds the lock. */
  lemma SettleRefusal(s: System, t: System, i: nat, d: Decision, key: LockKey)
    requires Inv(s, key) && i < |s.phases| && s.phases[i].Locked?
    requires d == Decide(s.rows, s.requests[i]) && !d.Accepted?
    requires t == Log(Goto(s, i, Decided(d)), i, d) || (t == Log(Goto(s, i, Absent), i, d) && d == Pending(s, i))
    ensures Inv(t, key)
  {
    assert Consistent(s, i);
    LogCall(s, t, i, d);
    PhaseStep(s, t, i, key);
  }

  lemma StepGrows(s: System, i: nat, key: LockKey)
    requires i < |s.requests| == |s.phases|
    ensures |s.log| <= |Step(s, i, key).log| && Step(s, i, key).log[..|s.log|] == s.log
  {
  }

  /** Rolling back any unfinished transaction, at any point, leaves rows and log alone. */
  lemma AbortInv(s: System, i: nat, key: LockKey)
    requires Inv(s, key) && i < |s.phases| && !Finished(s.phases[i])
    ensures Inv(Goto(s, i, RolledBack), key)
  {
    assert Consistent(s, i);
    PhaseStep(s, Goto(s, i, RolledBack), i, key);
  }

  lemma NextInv(s: System, a: Action, key: LockKey)
    requires Inv(s, key)
    ensures Inv(Next(s, a, key), key)
    ensures |s.log| <= |Next(s, a, key).log| && Next(s, a, key).log[..|s.log|] == s.log
  {
    if a.txn < |s.phases| {
      if a.Advance? {
        StepInv(s, a.txn, key);
        StepGrows(s, a.txn, key);
      } else if !Finished(s.phases[a.txn]) {
        AbortInv(s, a.txn, key);
      }
    }
  }

  lemma {:induction false} ExecuteInv(s: System, actions: seq<Action>, key: LockKey)
    requires Inv(s, key)
    ensures Inv(Execute(s, actions, key), key)
    ensures |s.log| <= |Execute(s, actions, key).log| && Execute(s, actions, key).log[..|s.log|] == s.log
    decreases |actions|
  {
    if actions == [] {
    } else {
      var t := Next(s, actions[0], key);
      NextInv(s, actions[0], key);
      ExecuteInv(t, actions[1..], key);
      assert Execute(s, actions, key).log[..|t.log|][..|s.log|] == s.log;
    }
  }

  // ---------------------------------------------------------------------------
  // Main results
  // ---------------------------------------------------------------------------

  /**
   Under every interleaving the committed rows are those of the atomic store run
   over the log, each committed call returned what the atomic store returns at its
   place in the log, and a rolled-back call contributed no row.
   */
  lemma Linearizable(requests: seq<Request>, actions: seq<Action>, key: LockKey)
    ensures var s := Execute(Start(requests), actions, key);
            && Faithful(requests, s.log) && LoggedOnce(s.log)
            && s.rows == Replay(requests, s.log) && Contiguous(s.rows)
            && (forall i: nat | i < |requests| && s.phases[i].Committed? :: LogEntry(i, s.phases[i].d) in s.log)
            && (forall e | e in s.log && e.txn < |requests| && s.phases[e.txn].RolledBack? :: !e.decision.Accepted?)
  {
    StartInv(requests, key);
    ExecuteInv(Start(requests), actions, key);
    var s := Execute(Start(requests), actions, key);
    ReplayContiguous(requests, s.log);
    forall i: nat | i < |requests| && s.phases[i].Committed? ensures LogEntry(i, s.phases[i].d) in s.log {
      assert Consistent(s, i);
    }
    forall e | e in s.log && e.txn < |requests| && s.phases[e.txn].RolledBack? ensures !e.decision.Accepted? {
      assert Consistent(s, e.txn);
    }
  }

  /** The log respects real time: a call that finished before another one began is logged before it. */
  lemma RealTimeOrder(requests: seq<Request>, past: seq<Action>, future: seq<Action>, key: LockKey,
                      a: nat, b: nat, p: nat, q: nat)
    requires a < |requests| && b < |requests|
    requires var s := Execute(Start(requests), past, key); s.phases[a].Committed? && s.phases[b].Waiting?
    requires var t := Execute(Execute(Start(requests), past, key), future, key);
             p < |t.log| && q < |t.log| && t.log[p].txn == a && t.log[q].txn == b
    ensures p < q
  {
    StartInv(requests, key);
    ExecuteInv(Start(requests), past, key);
    var s := Execute(Start(requests), past, key);
    ExecuteInv(s, future, key);
    var t := Execute(s, future, key);
    assert Consistent(s, a) && Consistent(s, b);
    var k :| 0 <= k < |s.log| && s.log[k] == LogEntry(a, s.phases[a].d);
    assert forall n | 0 <= n < |s.log| :: t.log[n] == s.log[n];
  }

  /** An insert aborts exactly when its event id was committed elsewhere; the stream lock rules out any other clash. */
  lemma AbortsOnlyOnEventId(s: System, i: nat, key: LockKey)
    requires Inv(s, key) && i < |s.phases| && s.phases[i].Ready?
    ensures Step(s, i, key).phases[i].RolledBack? <==> s.requests[i].eventId in s.rows
    ensures Step(s, i, key).rows == s.rows
  {
    assert Consistent(s, i);
    CheckpointBounds(s.rows, s.requests[i].streamId);
  }

  /** The call has committed an acceptance, or has written a row it has yet to commit. */
  predicate Accepting(p: Phase) {
    p.Inserted? || (p.Committed? && p.d.Accepted?)
  }

  /**
   An event id raced on several streams is bound by one call. Any other call, wherever it stands when
   that one commits, never writes a row and never commits an acceptance, and the binding stays.
   */
  lemma {:induction false} LoserNeverInserts(s: System, i: nat, actions: seq<Action>, key: LockKey)
    requires Inv(s, key) && i < |s.phases| && s.requests[i].eventId in s.rows
    requires !(s.phases[i].Committed? && s.phases[i].d.Accepted?)
    ensures var t := Execute(s, actions, key);
            && !Accepting(t.phases[i])
            && s.requests[i].eventId in t.rows
            && t.rows[s.requests[i].eventId] == s.rows[s.requests[i].eventId]
    decreases |actions|
  {
    assert Consistent(s, i);
    if actions == [] {
    } else {
      NextInv(s, actions[0], key);
      LoserStays(s, i, actions[0], key);
      BindingKept(s, actions[0], s.requests[i].eventId, key);
      LoserNeverInserts(Next(s, actions[0], key), i, actions[1..], key);
    }
  }

  lemma LoserStays(s: System, i: nat, a: Action, key: LockKey)
    requires Inv(s, key) && i < |s.phases| && s.requests[i].eventId in s.rows && !Accepting(s.phases[i])
    ensures !Accepting(Next(s, a, key).phases[i])
  {
    assert Consistent(s, i);
  }

  lemma BindingKept(s: System, a: Action, id: string, key: LockKey)
    requires Inv(s, key) && id in s.rows
    ensures id in Next(s, a, key).rows && Next(s, a, key).rows[id] == s.rows[id]
  {
    if a.txn < |s.phases| {
      assert Consistent(s, a.txn);
    }
  }

  /** No deadlock: while a call is unfinished, some unfinished transaction can make progress. */
  lemma SomeoneCanProceed(s: System, i: nat, key: LockKey) returns (j: nat)
    requires Inv(s, key) && i < |s.phases| && !Finished(s.phases[i])
    ensures j < |s.phases| && Step(s, j, key).phases[j] != s.phases[j]
  {
    j := i;
    if s.phases[i].Waiting? && !LockFree(s, i, key) {
      j :| j < |s.phases| && HoldsLock(s.phases[j]) && SameLock(s, i, j, key);
    }
    if s.phases[j].Ready? && !KeyTaken(s.rows, s.requests[j]) && RivalInsert(s, j) {
      j :| j < |s.phases| && s.phases[j].Inserted?;
    }
  }

  // ---------------------------------------------------------------------------
  // Termination
  // ---------------------------------------------------------------------------

  const MOVES_PER_CALL := 5

  /** The moves a transaction in this phase can still make. */
  function Rank(p: Phase): (r: nat)
    ensures r <= MOVES_PER_CALL
    ensures r == 0 <==> Finished(p)
  {
    match p
    case Waiting => MOVES_PER_CALL
    case Locked => 4
    case Absent => 3
    case Ready => 2
    case Inserted => 1
    case Decided(_) => 1
    case Committed(_) => 0
    case RolledBack => 0
  }

  function TotalRank(phases: seq<Phase>): (r: nat)
    ensures r <= MOVES_PER_CALL * |phases|
    ensures r == 0 ==> forall i | 0 <= i < |phases| :: Finished(phases[i])
  {
    if phases == [] then 0 else Rank(phases[0]) + TotalRank(phases[1..])
  }

  lemma {:induction false} RankUpdated(phases: seq<Phase>, i: nat, p: Phase)
    requires i < |phases|
    ensures TotalRank(phases[i := p]) == TotalRank(phases) - Rank(phases[i]) + Rank(p)
    decreases i
  {
    if i == 0 {
      assert phases[0 := p][1..] == phases[1..];
    } else {
      assert phases[i := p][1..] == phases[1..][i - 1 := p];
      RankUpdated(phases[1..], i - 1, p);
    }
  }

  /** The action changes the phase of its transaction. */
  ghost predicate Moves(s: System, a: Action, key: LockKey)
    requires |s.requests| == |s.phases|
  {
    Next(s, a, key).phases != s.phases
  }

  /** A statement that is not blocked takes its transaction one rank down at least. */
  lemma StepFalls(s: System, i: nat, key: LockKey)
    requires i < |s.requests| == |s.phases|
    ensures var p := Step(s, i, key).phases[i];
            Step(s, i, key).phases == s.phases[i := p] && (p == s.phases[i] || Rank(p) < Rank(s.phases[i]))
  {
  }

  lemma MoveFalls(s: System, a: Action, key: LockKey)
    requires |s.requests| == |s.phases|
    ensures TotalRank(Next(s, a, key).phases) + (if Moves(s, a, key) then 1 else 0) <= TotalRank(s.phases)
  {
    if a.txn < |s.phases| {
      StepFalls(s, a.txn, key);
      RankUpdated(s.phases, a.txn, Next(s, a, key).phases[a.txn]);
    }
  }

  /** How many actions of a schedule move some transaction. */
  ghost function MoveCount(s: System, actions: seq<Action>, key: LockKey): nat
    requires |s.requests| == |s.phases|
    decreases |actions|
  {
    if actions == [] then 0
    else (if Moves(s, actions[0], key) then 1 else 0) + MoveCount(Next(s, actions[0], key), actions[1..], key)
  }

  ghost predicate AllFinished(s: System) {
    forall i: nat | i < |s.phases| :: Finished(s.phases[i])
  }

  /** As long as some call is unfinished, the schedule moves a transaction that can move. */
  ghost predicate Busy(s: System, actions: seq<Action>, key: LockKey)
    requires |s.requests| == |s.phases|
    decreases |actions|
  {
    actions == [] ||
    ((AllFinished(s) || Moves(s, actions[0], key)) && Busy(Next(s, actions[0], key), actions[1..], key))
  }

  lemma {:induction false} MovesSpendRank(s: System, actions: seq<Action>, key: LockKey)
    requires |s.requests| == |s.phases|
    ensures TotalRank(Execute(s, actions, key).phases) + MoveCount(s, actions, key) <= TotalRank(s.phases)
    ensures Busy(s, actions, key) ==>
              AllFinished(Execute(s, actions, key)) || MoveCount(s, actions, key) == |actions|
    decreases |actions|
  {
    if actions == [] {
    } else {
      var t := Next(s, actions[0], key);
      MoveFalls(s, actions[0], key);
      MovesSpendRank(t, actions[1..], key);
      if AllFinished(s) {
        FinishedStays(s, actions, key);
      }
    }
  }

  lemma {:induction false} FinishedStays(s: System, actions: seq<Action>, key: LockKey)
    requires |s.requests| == |s.phases| && AllFinished(s)
    ensures AllFinished(Execute(s, actions, key))
    decreases |actions|
  {
    if actions == [] {
    } else {
      FinishedStays(Next(s, actions[0], key), actions[1..], key);
    }
  }

  /**
   No schedule, with whatever aborts, moves its transactions more than five times each, and one that
   keeps moving some transaction finishes every call within that many actions.
   */
  lemma CallsTerminate(requests: seq<Request>, actions: seq<Action>, key: LockKey)
    ensures MoveCount(Start(requests), actions, key) <= MOVES_PER_CALL * |requests|
    ensures Busy(Start(requests), actions, key) && |actions| >= MOVES_PER_CALL * |requests| ==>
              AllFinished(Execute(Start(requests), actions, key))
  {
    MovesSpendRank(Start(requests), actions, key);
  }

  /** Such a schedule exists: from any point of any run every call can be brought to its end without an abort. */
  lemma {:induction false} CanFinish(s: System, key: LockKey) returns (actions: seq<Action>)
    requires Inv(s, key)
    ensures Busy(s, actions, key) && AllFinished(Execute(s, actions, key))
    ensures |actions| <= TotalRank(s.phases) && forall a | a in actions :: a.Advance?
    decreases TotalRank(s.phases)
  {
    if AllFinished(s) {
      actions := [];
    } else {
      var i: nat :| i < |s.phases| && !Finished(s.phases[i]);
      var j := SomeoneCanProceed(s, i, key);
      var a := Advance(j);
      NextInv(s, a, key);
      MoveFalls(s, a, key);
      var rest := CanFinish(Next(s, a, key), key);
      actions := [a] + rest;
      assert actions[1..] == rest;
    }
  }
}
