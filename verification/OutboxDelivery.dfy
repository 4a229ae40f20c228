/** Delivery from the outbox: how workers settle their claims, and why the outbox drains. */
module OutboxDelivery {
  import opened Prelude
  import opened SettlementOutbox
  import opened OutboxLeases
  import opened OutboxStore

  const OUTBOX_LEASE_MS := 60_000
  const OUTBOX_BASE_RETRY_MS := 5_000
  const OUTBOX_MAX_RETRY_MS := 900_000

  function PowerOfTwo(n: nat): nat {
    if n == 0 then 1 else 2 * PowerOfTwo(n - 1)
  }

  function RetryDelay(attempt: int): int {
    var safeAttempt := Max(1, Min(attempt, 20));
    Min(OUTBOX_BASE_RETRY_MS * PowerOfTwo(safeAttempt - 1), OUTBOX_MAX_RETRY_MS)
  }

  lemma {:induction false} PowerGrows(n: nat)
    ensures PowerOfTwo(n) >= 1 && (n >= 8 ==> PowerOfTwo(n) >= 256)
  {
    if n > 8 {
      PowerGrows(n - 1);
    } else if n > 0 {
      PowerGrows(n - 1);
      if n == 8 {
        assert PowerOfTwo(8) == 2 * 2 * 2 * 2 * PowerOfTwo(4);
        assert PowerOfTwo(4) == 16 * PowerOfTwo(0);
      }
    }
  }

  /** Backoff starts at five seconds and doubles with every further attempt, capped at a quarter of an hour. */
  lemma BackoffDoubles(attempt: int)
    ensures 5_000 <= RetryDelay(attempt) <= 900_000
    ensures attempt <= 1 ==> RetryDelay(attempt) == 5_000
    ensures attempt >= 1 ==> RetryDelay(attempt + 1) == Min(2 * RetryDelay(attempt), 900_000)
  {
    PowerGrows(Max(1, Min(attempt, 20)) - 1);
    PowerGrows(Max(1, Min(attempt + 1, 20)) - 1);
  }

  // ---------------------------------------------------------------------------
  // Enqueue
  // ---------------------------------------------------------------------------

  datatype SideEffect = SideEffect(
    eventKey: string, eventType: string, aggregateId: string, payload: string, maxAttempts: Option<int>)

  const DEFAULT_MAX_ATTEMPTS := 8

  predicate Rejected(e: SideEffect) {
    IsBlank(e.eventKey) || IsBlank(e.eventType) || IsBlank(e.aggregateId)
  }

  function InputOf(e: SideEffect, clock: int): Input {
    Input(e.eventKey, e.eventType, e.aggregateId, e.payload,
          if e.maxAttempts.Some? then e.maxAttempts.value else DEFAULT_MAX_ATTEMPTS, clock)
  }

  // ---------------------------------------------------------------------------
  // Settling one claim
  // ---------------------------------------------------------------------------

  datatype HandlerResult = Handled | Threw(message: string)

  /** What surrounds the settlement of one claim: the handler map, the handler's behaviour and two clock readings. */
  datatype Attempt = Attempt(registered: bool, result: HandlerResult, clock: int, wall: int)

  /** The acknowledgement a worker sends for the claim it was handed. */
  function Acknowledgement(claim: Row, a: Attempt): Ack
    requires claim.leaseToken.Some?
  {
    var token := claim.leaseToken.value;
    if !a.registered then
      Fail(claim.id, token, "No handler registered for " + claim.eventType, a.clock, true, a.wall)
    else
      match a.result
      case Handled => Succeed(claim.id, token, a.clock)
      case Threw(message) =>
        Fail(claim.id, token, message, a.clock + RetryDelay(claim.attempts),
             claim.attempts >= claim.maxAttempts, a.wall)
  }

  /** What an accepted acknowledgement makes of the claimed row. */
  function Settled(claim: Row, a: Attempt): Row {
    if !a.registered then
      FailedRow(claim, "No handler registered for " + claim.eventType, a.clock, true, a.wall)
    else
      match a.result
      case Handled => SucceededRow(claim, a.clock)
      case Threw(message) =>
        FailedRow(claim, message, a.clock + RetryDelay(claim.attempts), claim.attempts >= claim.maxAttempts, a.wall)
  }

  /** A worker whose claim is still current settles its row; any other worker changes nothing. */
  lemma AcknowledgementEffect(st: Store, claim: Row, a: Attempt)
    requires claim.leaseToken.Some?
    requires claim.id in st.rows && st.rows[claim.id].leaseToken == claim.leaseToken ==>
               st.rows[claim.id] == claim && claim.status.Processing?
    ensures var ack := Acknowledgement(claim, a);
            var current := claim.id in st.rows && st.rows[claim.id] == claim;
            && Accepts(st, ack) == current
            && Acknowledged(st, ack) == if current then st.(rows := st.rows[claim.id := Settled(claim, a)]) else st
  {
  }

  // ---------------------------------------------------------------------------
  // Many workers: pending rows always have attempts left
  // ---------------------------------------------------------------------------

  /** Any worker may settle any claim ever issued, any number of times, at any later moment. */
  datatype ServiceOp =
    | Submit(effect: SideEffect, clock: int, now: int)
    | Poll(limit: int, now: int)
    | Settle(claim: nat, attempt: Attempt)

  ghost function ServiceNext(w: World, op: ServiceOp): (t: World)
    requires Inv(w)
    ensures Inv(t)
  {
    match op
    case Submit(effect, clock, now) =>
      if Rejected(effect) then w
      else
        NextInv(w, Enqueue(InputOf(effect, clock), now));
        Next(w, Enqueue(InputOf(effect, clock), now))
    case Poll(limit, now) =>
      NextInv(w, Claim(limit, OUTBOX_LEASE_MS, now));
      Next(w, Claim(limit, OUTBOX_LEASE_MS, now))
    case Settle(i, attempt) =>
      if i >= |w.issued| then w
      else
        assert IssueFits(w.store, w.issued[i]);
        NextInv(w, Acknowledge(Acknowledgement(w.issued[i].row, attempt)));
        Next(w, Acknowledge(Acknowledgement(w.issued[i].row, attempt)))
  }

  ghost function ServiceRun(w: World, ops: seq<ServiceOp>): (t: World)
    requires Inv(w)
    ensures Inv(t)
    decreases |ops|
  {
    if ops == [] then w else ServiceRun(ServiceNext(w, ops[0]), ops[1..])
  }

  function AttemptsAllowed(row: Row): int {
    Max(1, row.maxAttempts)
  }

  predicate HasAttemptsLeft(row: Row) {
    row.status.Pending? ==> row.attempts < AttemptsAllowed(row)
  }

  ghost predicate PendingBounded(st: Store) {
    forall id | id in st.rows :: HasAttemptsLeft(st.rows[id])
  }

  lemma SettleStore(w: World, i: nat, attempt: Attempt)
    requires Inv(w) && i < |w.issued|
    ensures var claim := w.issued[i].row;
            claim.leaseToken.Some?
            && var ack := Acknowledgement(claim, attempt);
            ServiceNext(w, Settle(i, attempt)) ==
            World(Acknowledged(w.store, ack), w.issued,
                  if Accepts(w.store, ack) then w.acked + [ack.token] else w.acked)
  {
    assert IssueFits(w.store, w.issued[i]);
    AcknowledgeNext(w, Acknowledgement(w.issued[i].row, attempt));
  }

  /** An answer to an issued claim settles the row if the claim is still current, and changes nothing otherwise. */
  lemma SettleEffect(w: World, i: nat, attempt: Attempt)
    requires Inv(w) && i < |w.issued|
    ensures var claim := w.issued[i].row;
            var current := claim.id in w.store.rows && w.store.rows[claim.id] == claim;
            && claim.status.Processing?
            && ServiceNext(w, Settle(i, attempt)).store ==
               if current then w.store.(rows := w.store.rows[claim.id := Settled(claim, attempt)]) else w.store
  {
    var claim := w.issued[i].row;
    assert IssueFits(w.store, w.issued[i]);
    SettleStore(w, i, attempt);
    if w.store.rows[claim.id].leaseToken == claim.leaseToken {
      HeldByIssue(w, claim.id, i);
    }
    AcknowledgementEffect(w.store, claim, attempt);
  }

  lemma SettleBounded(w: World, i: nat, attempt: Attempt)
    requires Inv(w) && PendingBounded(w.store) && i < |w.issued|
    ensures PendingBounded(ServiceNext(w, Settle(i, attempt)).store)
  {
    SettleEffect(w, i, attempt);
    var t, claim := ServiceNext(w, Settle(i, attempt)).store, w.issued[i].row;
    assert HasAttemptsLeft(Settled(claim, attempt));
    forall id | id in t.rows ensures HasAttemptsLeft(t.rows[id]) {
      assert t.rows[id] == Settled(claim, attempt) || (id in w.store.rows && t.rows[id] == w.store.rows[id]);
    }
  }

  lemma PollBounded(w: World, limit: int, now: int)
    requires Inv(w) && PendingBounded(w.store)
    ensures PendingBounded(ServiceNext(w, Poll(limit, now)).store)
  {
    var c := ClaimDue(w.store, limit, OUTBOX_LEASE_MS, now);
    ClaimGrows(w.store, limit, OUTBOX_LEASE_MS, now);
    forall id | id in c.store.rows ensures HasAttemptsLeft(c.store.rows[id]) {
      if i: nat :| i < |c.rows| && c.rows[i].id == id {
        ClaimedRow(w.store, limit, OUTBOX_LEASE_MS, now, i);
      } else {
        UnclaimedRow(w.store, limit, OUTBOX_LEASE_MS, now, id);
        assert HasAttemptsLeft(w.store.rows[id]);
      }
    }
  }

  lemma SubmitBounded(w: World, effect: SideEffect, clock: int, now: int)
    requires Inv(w) && PendingBounded(w.store)
    ensures PendingBounded(ServiceNext(w, Submit(effect, clock, now)).store)
  {
    var st := ServiceNext(w, Submit(effect, clock, now)).store;
    assert st == w.store || st == Enqueued(w.store, InputOf(effect, clock), now);
    forall id | id in st.rows ensures HasAttemptsLeft(st.rows[id]) {
      if id in w.store.rows && st.rows[id] == w.store.rows[id] {
        assert HasAttemptsLeft(w.store.rows[id]);
      }
    }
  }

  lemma ServiceBounded(w: World, op: ServiceOp)
    requires Inv(w) && PendingBounded(w.store)
    ensures PendingBounded(ServiceNext(w, op).store)
  {
    match op
    case Submit(effect, clock, now) => SubmitBounded(w, effect, clock, now);
    case Poll(limit, now) => PollBounded(w, limit, now);
    case Settle(i, attempt) => if i < |w.issued| { SettleBounded(w, i, attempt); }
  }

  /** Under any interleaving of workers, crashed or slow, a pending row has attempts below its allowance. */
  lemma {:induction false} PendingRowsHaveAttemptsLeft(w: World, ops: seq<ServiceOp>)
    requires Inv(w) && PendingBounded(w.store)
    ensures PendingBounded(ServiceRun(w, ops).store)
    decreases |ops|
  {
    if ops == [] {
    } else {
      ServiceBounded(w, ops[0]);
      PendingRowsHaveAttemptsLeft(ServiceNext(w, ops[0]), ops[1..]);
    }
  }

  // ---------------------------------------------------------------------------
  // One pass of one worker
  // ---------------------------------------------------------------------------

  datatype Summary = Summary(succeeded: nat, retried: nat, dead: nat, skipped: nat)

  function Tally(s: Summary, ok: bool, ack: Ack): Summary {
    if !ok then s.(skipped := s.skipped + 1)
    else if ack.Fail? then
      if ack.dead then s.(dead := s.dead + 1) else s.(retried := s.retried + 1)
    else s.(succeeded := s.succeeded + 1)
  }

  /** The attempts a pass makes, by claim position: handlers may do anything. */
  type Behaviour = nat -> Attempt

  ghost predicate AllLeased(claims: seq<Row>) {
    forall i | 0 <= i < |claims| :: claims[i].leaseToken.Some?
  }

  datatype Pass = Pass(store: Store, summary: Summary)

  /** The settling loop of a pass from claim i on. */
  ghost function SettleFrom(claims: seq<Row>, i: nat, b: Behaviour, p: Pass): Pass
    requires AllLeased(claims)
    decreases |claims| - i
  {
    if i >= |claims| then p
    else
      var ack := Acknowledgement(claims[i], b(i));
      SettleFrom(claims, i + 1, b,
                 Pass(Acknowledged(p.store, ack), Tally(p.summary, Accepts(p.store, ack), ack)))
  }

  lemma ClaimsLeased(st: Store, limit: int, leaseMs: int, now: int)
    requires RowsListed(st)
    ensures AllLeased(ClaimDue(st, limit, leaseMs, now).rows)
  {
    forall i: nat | i < |ClaimDue(st, limit, leaseMs, now).rows|
      ensures ClaimDue(st, limit, leaseMs, now).rows[i].leaseToken.Some?
    {
      ClaimedRow(st, limit, leaseMs, now, i);
    }
  }

  ghost function ProcessPass(st: Store, limit: int, now: int, b: Behaviour): Pass
    requires RowsListed(st)
  {
    ClaimsLeased(st, limit, OUTBOX_LEASE_MS, now);
    var c := ClaimDue(st, limit, OUTBOX_LEASE_MS, now);
    SettleFrom(c.rows, 0, b, Pass(c.store, Summary(0, 0, 0, 0)))
  }

  class SettlementOutboxService {
    const store: InMemorySettlementOutboxStore
    const handlers: set<string>

    constructor (store: InMemorySettlementOutboxStore, handlers: set<string>)
      ensures this.store == store && this.handlers == handlers
    {
      this.store := store;
      this.handlers := handlers;
    }

    method Enqueue(effect: SideEffect, clock: int, now: int) returns (r: Result<Row, string>)
      requires Valid(store.Snapshot())
      modifies store
      ensures Valid(store.Snapshot())
      ensures r.Err? <==> Rejected(effect)
      ensures r.Err? ==> store.Snapshot() == old(store.Snapshot())
      ensures r.Ok? ==> && store.Snapshot() == Enqueued(old(store.Snapshot()), InputOf(effect, clock), now)
                        && r.value.eventKey == effect.eventKey
                        && r.value.id in store.rows && store.rows[r.value.id] == r.value
    {
      if IsBlank(effect.eventKey) {
        return Err("Settlement outbox eventKey is required");
      }
      if IsBlank(effect.eventType) {
        return Err("Settlement outbox eventType is required");
      }
      if IsBlank(effect.aggregateId) {
        return Err("Settlement outbox aggregateId is required");
      }
      var row := store.Enqueue(InputOf(effect, clock), now);
      return Ok(row);
    }

    /** One claim: call the handler, acknowledge, count the outcome. */
    method SettleClaim(claim: Row, a: Attempt, s: Summary) returns (summary: Summary)
      requires claim.leaseToken.Some? && a.registered == (claim.eventType in handlers)
      modifies store
      ensures var ack := Acknowledgement(claim, a);
              && store.Snapshot() == Acknowledged(old(store.Snapshot()), ack)
              && summary == Tally(s, Accepts(old(store.Snapshot()), ack), ack)
    {
      var token := claim.leaseToken.value;
      if claim.eventType !in handlers {
        var dead := store.MarkFailed(claim.id, token, "No handler registered for " + claim.eventType,
                                     a.clock, true, a.wall);
        return if dead then s.(dead := s.dead + 1) else s.(skipped := s.skipped + 1);
      }
      match a.result
      case Handled =>
        var ok := store.MarkSucceeded(claim.id, token, a.clock);
        return if ok then s.(succeeded := s.succeeded + 1) else s.(skipped := s.skipped + 1);
      case Threw(message) =>
        var isDead := claim.attempts >= claim.maxAttempts;
        var retryAt := a.clock + RetryDelay(claim.attempts);
        var ok := store.MarkFailed(claim.id, token, message, retryAt, isDead, a.wall);
        if !ok {
          return s.(skipped := s.skipped + 1);
        }
        return if isDead then s.(dead := s.dead + 1) else s.(retried := s.retried + 1);
    }

    /** `result(i)` is what the i-th handler call does, `clock(i)` and `wall(i)` the times read while settling it. */
    method ProcessDue(limit: int, now: int, result: nat -> HandlerResult, clock: nat -> int, wall: nat -> int)
      returns (summary: Summary, ghost claims: seq<Row>)
      requires Valid(store.Snapshot())
      modifies store
      ensures claims == ClaimDue(old(store.Snapshot()), limit, OUTBOX_LEASE_MS, now).rows
      ensures var b := (i: nat) =>
                Attempt(i < |claims| && claims[i].eventType in handlers, result(i), clock(i), wall(i));
              ProcessPass(old(store.Snapshot()), limit, now, b) == Pass(store.Snapshot(), summary)
    {
      ClaimsLeased(store.Snapshot(), limit, OUTBOX_LEASE_MS, now);
      ghost var before := store.Snapshot();
      var claimed := store.ClaimDue(limit, OUTBOX_LEASE_MS, now);
      claims := claimed;
      ghost var b := (i: nat) =>
        Attempt(i < |claimed| && claimed[i].eventType in handlers, result(i), clock(i), wall(i));
      summary := Summary(0, 0, 0, 0);
      var i := 0;
      while i < |claimed|
        invariant 0 <= i <= |claimed|
        invariant SettleFrom(claimed, i, b, Pass(store.Snapshot(), summary)) == ProcessPass(before, limit, now, b)
      {
        var a := Attempt(claimed[i].eventType in handlers, result(i), clock(i), wall(i));
        summary := SettleClaim(claimed[i], a, summary);
        i := i + 1;
      }
    }
  }
}
