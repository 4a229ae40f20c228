/**
 The outbox drains. Workers may poll, crash, answer late and submit new work in any way;
 in between, passes that do not crash use up attempts until every row is terminal.
 */
module OutboxDrain {
  import opened Prelude
  import opened SettlementOutbox
  import opened OutboxLeases
  import opened OutboxDelivery
  import opened OutboxPass

  // ---------------------------------------------------------------------------
  // Histories: crash-free passes among anything else
  // ---------------------------------------------------------------------------

  /** A whole pass of one worker, or any single operation of any other. */
  datatype Event =
    | Turn(limit: int, now: int, behaviour: Behaviour)
    | Other(op: ServiceOp)

  /** The worker acknowledges the claims it was handed, from the i-th on. */
  ghost function Acknowledging(w: World, claims: seq<Row>, i: nat, b: Behaviour): (t: World)
    requires Valid(w.store) && AllLeased(claims)
    ensures Valid(t.store)
    decreases |claims| - i
  {
    if i >= |claims| then w
    else Acknowledging(Next(w, Acknowledge(Acknowledgement(claims[i], b(i)))), claims, i + 1, b)
  }

  ghost function TurnWorld(w: World, limit: int, now: int, b: Behaviour): (t: World)
    requires Inv(w)
    ensures Inv(t)
  {
    var claims := ClaimDue(w.store, limit, OUTBOX_LEASE_MS, now).rows;
    ClaimsLeased(w.store, limit, OUTBOX_LEASE_MS, now);
    AcknowledgingInv(ServiceNext(w, Poll(limit, now)), claims, 0, b);
    Acknowledging(ServiceNext(w, Poll(limit, now)), claims, 0, b)
  }

  lemma {:induction false} AcknowledgingInv(w: World, claims: seq<Row>, i: nat, b: Behaviour)
    requires Inv(w) && AllLeased(claims)
    ensures Inv(Acknowledging(w, claims, i, b))
    decreases |claims| - i
  {
    if i >= |claims| {
    } else {
      var op := Acknowledge(Acknowledgement(claims[i], b(i)));
      NextInv(w, op);
      AcknowledgingInv(Next(w, op), claims, i + 1, b);
    }
  }

  lemma {:induction false} AcknowledgingStore(w: World, claims: seq<Row>, i: nat, b: Behaviour, p: Pass)
    requires Valid(w.store) && AllLeased(claims) && p.store == w.store
    ensures Acknowledging(w, claims, i, b).store == SettleFrom(claims, i, b, p).store
    decreases |claims| - i
  {
    if i >= |claims| {
    } else {
      var op := Acknowledge(Acknowledgement(claims[i], b(i)));
      AcknowledgingStore(Next(w, op), claims, i + 1, b, NextPass(claims, i, b, p));
    }
  }

  ghost function EventNext(w: World, e: Event): (t: World)
    requires Inv(w)
    ensures Inv(t)
  {
    match e
    case Turn(limit, now, b) => TurnWorld(w, limit, now, b)
    case Other(op) => ServiceNext(w, op)
  }

  ghost function EventsRun(w: World, events: seq<Event>): (t: World)
    requires Inv(w)
    ensures Inv(t)
    decreases |events|
  {
    if events == [] then w else EventsRun(EventNext(w, events[0]), events[1..])
  }

  lemma PollStore(w: World, limit: int, now: int)
    requires Inv(w)
    ensures ServiceNext(w, Poll(limit, now)).store == ClaimDue(w.store, limit, OUTBOX_LEASE_MS, now).store
  {
  }

  /** A turn in a history is a pass over the store. */
  lemma TurnStore(w: World, limit: int, now: int, b: Behaviour)
    requires Inv(w)
    ensures TurnWorld(w, limit, now, b).store == ProcessPass(w.store, limit, now, b).store
  {
    var c := ClaimDue(w.store, limit, OUTBOX_LEASE_MS, now);
    ClaimsLeased(w.store, limit, OUTBOX_LEASE_MS, now);
    PollStore(w, limit, now);
    AcknowledgingStore(ServiceNext(w, Poll(limit, now)), c.rows, 0, b, Pass(c.store, Summary(0, 0, 0, 0)));
  }

  /** Whatever workers have done, crashed ones included, the store is deliverable. */
  lemma ReachableDeliverable(w: World)
    requires Inv(w) && PendingBounded(w.store)
    ensures Deliverable(w.store)
  {
    forall id | id in w.store.rows ensures LeaseFits(w.store.rows[id]) {
      assert RowLive(w.issued, w.store.rows[id]);
    }
  }

  // ---------------------------------------------------------------------------
  // What an event costs and what it grants
  // ---------------------------------------------------------------------------

  ghost function Left(w: World): int {
    Remaining(w.store.rows, w.store.order)
  }

  ghost predicate SomeDue(st: Store, now: int) {
    exists id :: id in st.rows && IsDue(st.rows[id], now)
  }

  /** One for a pass at a time when some row is due. */
  ghost function Cost(w: World, e: Event): nat {
    if e.Turn? && SomeDue(w.store, e.now) then 1 else 0
  }

  /** The attempts of a newly submitted row. */
  ghost function Grant(w: World, op: ServiceOp): nat {
    if op.Submit? && !Rejected(op.effect) && op.effect.eventKey !in w.store.keys then
      Max(1, InputOf(op.effect, op.clock).maxAttempts)
    else 0
  }

  ghost function EventGrant(w: World, e: Event): nat {
    if e.Other? then Grant(w, e.op) else 0
  }

  /** The productive passes of a history. */
  ghost function Spent(w: World, events: seq<Event>): nat
    requires Inv(w)
    decreases |events|
  {
    if events == [] then 0 else Cost(w, events[0]) + Spent(EventNext(w, events[0]), events[1..])
  }

  /** The attempts submitted in the course of a history. */
  ghost function Granted(w: World, events: seq<Event>): nat
    requires Inv(w)
    decreases |events|
  {
    if events == [] then 0 else EventGrant(w, events[0]) + Granted(EventNext(w, events[0]), events[1..])
  }

  /** A pass at a time when some row is due claims one at least. */
  lemma DueIsClaimed(st: Store, limit: int, now: int)
    requires RowsListed(st) && SomeDue(st, now)
    ensures |ClaimDue(st, limit, OUTBOX_LEASE_MS, now).rows| >= 1
  {
    var id :| id in st.rows && IsDue(st.rows[id], now);
    QueueDistinct(st);
    ClaimExact(st, limit, OUTBOX_LEASE_MS, now);
    FilterMembers(Due(now), Queue(st));
    assert st.rows[id] in Filter(Due(now), Queue(st));
  }

  lemma TurnCosts(w: World, limit: int, now: int, b: Behaviour)
    requires Inv(w) && PendingBounded(w.store)
    ensures var t := TurnWorld(w, limit, now, b);
            PendingBounded(t.store) && Left(t) + Cost(w, Turn(limit, now, b)) <= Left(w)
  {
    ReachableDeliverable(w);
    TurnStore(w, limit, now, b);
    PassUsesAttempts(w.store, limit, now, b);
    if SomeDue(w.store, now) {
      DueIsClaimed(w.store, limit, now);
    }
  }

  /** A poll whose worker then crashes gives no row more attempts. */
  lemma PollGains(w: World, limit: int, now: int)
    requires Inv(w) && PendingBounded(w.store)
    ensures Left(ServiceNext(w, Poll(limit, now))) <= Left(w)
  {
    var c := ClaimDue(w.store, limit, OUTBOX_LEASE_MS, now);
    ClaimExact(w.store, limit, OUTBOX_LEASE_MS, now);
    forall id | id in w.store.order ensures RowRemaining(c.store.rows[id]) <= RowRemaining(w.store.rows[id]) {
      ClaimGainsRow(w.store, limit, now, c, id);
    }
    RemainingFalls(w.store.rows, c.store.rows, w.store.order, {});
    PollStore(w, limit, now);
  }

  lemma ClaimGainsRow(st: Store, limit: int, now: int, c: Claims, id: string)
    requires RowsListed(st) && PendingBounded(st) && c == ClaimDue(st, limit, OUTBOX_LEASE_MS, now) && id in st.rows
    ensures id in c.store.rows && RowRemaining(c.store.rows[id]) <= RowRemaining(st.rows[id])
  {
    assert HasAttemptsLeft(st.rows[id]);
    if i: nat :| i < |c.rows| && c.rows[i].id == id {
      ClaimedRow(st, limit, OUTBOX_LEASE_MS, now, i);
    } else {
      UnclaimedRow(st, limit, OUTBOX_LEASE_MS, now, id);
    }
  }

  lemma SettledGains(claim: Row, a: Attempt)
    requires claim.status.Processing?
    ensures RowRemaining(Settled(claim, a)) <= RowRemaining(claim)
  {
  }

  /** Nor does an answer to any claim ever issued, however late. */
  lemma SettleGains(w: World, i: nat, a: Attempt)
    requires Inv(w) && i < |w.issued|
    ensures Left(ServiceNext(w, Settle(i, a))) <= Left(w)
  {
    var claim := w.issued[i].row;
    SettleEffect(w, i, a);
    SettledGains(claim, a);
    RemainingFalls(w.store.rows, ServiceNext(w, Settle(i, a)).store.rows, w.store.order, {});
  }

  /** A submission adds exactly the new row's attempts, or nothing if its key is known. */
  lemma SubmitGains(w: World, effect: SideEffect, clock: int, now: int)
    requires Inv(w)
    ensures Left(ServiceNext(w, Submit(effect, clock, now))) == Left(w) + Grant(w, Submit(effect, clock, now))
  {
    var input := InputOf(effect, clock);
    if !Rejected(effect) && input.eventKey !in w.store.keys {
      NextIdFresh(w.store);
      RemainingAppend(w.store.rows, Enqueued(w.store, input, now).rows, w.store.order, RowId(w.store.sequence + 1));
    }
  }

  lemma {:induction false} RemainingAppend(
    before: map<string, Row>, after: map<string, Row>, order: seq<string>, id: string)
    requires id in after
    requires forall other | other in order :: other in before && other in after && after[other] == before[other]
    ensures Remaining(after, order + [id]) == Remaining(before, order) + RowRemaining(after[id])
  {
    if order == [] {
      assert order + [id] == [id] && [id][1..] == [];
    } else {
      assert order[0] in order;
      assert (order + [id])[0] == order[0] && (order + [id])[1..] == order[1..] + [id];
      RemainingAppend(before, after, order[1..], id);
    }
  }

  lemma EventBalance(w: World, e: Event)
    requires Inv(w) && PendingBounded(w.store)
    ensures PendingBounded(EventNext(w, e).store)
    ensures Left(EventNext(w, e)) + Cost(w, e) <= Left(w) + EventGrant(w, e)
  {
    match e
    case Turn(limit, now, b) => TurnCosts(w, limit, now, b);
    case Other(op) =>
      ServiceBounded(w, op);
      match op {
        case Submit(effect, clock, now) => SubmitGains(w, effect, clock, now);
        case Poll(limit, now) => PollGains(w, limit, now);
        case Settle(i, a) => if i < |w.issued| { SettleGains(w, i, a); }
      }
  }

  lemma {:induction false} EventsBalance(w: World, events: seq<Event>)
    requires Inv(w) && PendingBounded(w.store)
    ensures PendingBounded(EventsRun(w, events).store)
    ensures Left(EventsRun(w, events)) + Spent(w, events) <= Left(w) + Granted(w, events)
    decreases |events|
  {
    if events == [] {
    } else {
      EventBalance(w, events[0]);
      EventsBalance(EventNext(w, events[0]), events[1..]);
    }
  }

  // ---------------------------------------------------------------------------
  // Operation by operation: what an acknowledgement costs
  // ---------------------------------------------------------------------------

  /** A row whose attempt in flight is not yet counted: an attempt is used when its answer is accepted. */
  function Unanswered(row: Row): Row {
    if row.status.Processing? then row.(attempts := row.attempts - 1) else row
  }

  ghost function UnansweredRows(rows: map<string, Row>): map<string, Row> {
    map id | id in rows :: Unanswered(rows[id])
  }

  /** The acknowledgements that can still be accepted. */
  ghost function AnswersLeft(st: Store): int {
    Remaining(UnansweredRows(st.rows), st.order)
  }

  /** The attempts submitted in the course of a run. */
  ghost function Submitted(w: World, ops: seq<ServiceOp>): nat
    requires Inv(w)
    decreases |ops|
  {
    if ops == [] then 0 else Grant(w, ops[0]) + Submitted(ServiceNext(w, ops[0]), ops[1..])
  }

  /** Claiming a row, fresh or reclaimed, starts an attempt without using one. */
  lemma ClaimAnswers(st: Store, limit: int, now: int, c: Claims, id: string)
    requires RowsListed(st) && PendingBounded(st) && c == ClaimDue(st, limit, OUTBOX_LEASE_MS, now) && id in st.rows
    ensures id in c.store.rows
    ensures RowRemaining(Unanswered(c.store.rows[id])) <= RowRemaining(Unanswered(st.rows[id]))
  {
    assert HasAttemptsLeft(st.rows[id]);
    if i: nat :| i < |c.rows| && c.rows[i].id == id {
      ClaimedRow(st, limit, OUTBOX_LEASE_MS, now, i);
    } else {
      UnclaimedRow(st, limit, OUTBOX_LEASE_MS, now, id);
    }
  }

  lemma PollAnswers(w: World, limit: int, now: int)
    requires Inv(w) && PendingBounded(w.store)
    ensures AnswersLeft(ServiceNext(w, Poll(limit, now)).store) <= AnswersLeft(w.store)
  {
    var c := ClaimDue(w.store, limit, OUTBOX_LEASE_MS, now);
    ClaimExact(w.store, limit, OUTBOX_LEASE_MS, now);
    forall id | id in w.store.order
      ensures RowRemaining(Unanswered(c.store.rows[id])) <= RowRemaining(Unanswered(w.store.rows[id]))
    {
      ClaimAnswers(w.store, limit, now, c, id);
    }
    RemainingFalls(UnansweredRows(w.store.rows), UnansweredRows(c.store.rows), w.store.order, {});
    PollStore(w, limit, now);
  }

  /** An accepted answer uses up an attempt. */
  lemma SettledAnswers(claim: Row, a: Attempt)
    requires claim.status.Processing?
    ensures RowRemaining(Unanswered(Settled(claim, a))) + 1 <= RowRemaining(Unanswered(claim))
  {
  }

  lemma OneAnswer(st: Store, claim: Row, row: Row)
    requires RowsListed(st) && claim.id in st.rows && st.rows[claim.id] == claim
    requires RowRemaining(Unanswered(row)) + 1 <= RowRemaining(Unanswered(claim))
    ensures AnswersLeft(st.(rows := st.rows[claim.id := row])) + 1 <= AnswersLeft(st)
  {
    var later, answered := st.rows[claim.id := row], {claim.id};
    RemainingFalls(UnansweredRows(st.rows), UnansweredRows(later), st.order, answered);
    assert (set id | id in st.order && id in answered) == answered;
  }

  /** An answer is accepted exactly while its claim is current, and then uses up an attempt. */
  lemma SettleAnswers(w: World, i: nat, a: Attempt)
    requires Inv(w) && i < |w.issued|
    ensures var t := ServiceNext(w, Settle(i, a));
            AnswersLeft(t.store) + |t.acked| <= AnswersLeft(w.store) + |w.acked|
  {
    var claim := w.issued[i].row;
    SettleStore(w, i, a);
    SettleEffect(w, i, a);
    if Accepts(w.store, Acknowledgement(claim, a)) {
      HeldByIssue(w, claim.id, i);
      SettledAnswers(claim, a);
      OneAnswer(w.store, claim, Settled(claim, a));
    }
  }

  lemma SubmitAnswers(w: World, effect: SideEffect, clock: int, now: int)
    requires Inv(w)
    ensures var op := Submit(effect, clock, now);
            AnswersLeft(ServiceNext(w, op).store) == AnswersLeft(w.store) + Grant(w, op)
  {
    var input := InputOf(effect, clock);
    if !Rejected(effect) && input.eventKey !in w.store.keys {
      NextIdFresh(w.store);
      var later := Enqueued(w.store, input, now);
      RemainingAppend(UnansweredRows(w.store.rows), UnansweredRows(later.rows), w.store.order,
                      RowId(w.store.sequence + 1));
    }
  }

  /** No operation, of any worker at any time, adds attempts but a submission, and every accepted answer uses one. */
  lemma OpBalance(w: World, op: ServiceOp)
    requires Inv(w) && PendingBounded(w.store)
    ensures var t := ServiceNext(w, op);
            AnswersLeft(t.store) + |t.acked| <= AnswersLeft(w.store) + |w.acked| + Grant(w, op)
  {
    match op
    case Submit(effect, clock, now) => SubmitAnswers(w, effect, clock, now);
    case Poll(limit, now) => PollAnswers(w, limit, now);
    case Settle(i, a) => if i < |w.issued| { SettleAnswers(w, i, a); }
  }

  lemma {:induction false} OpsBalance(w: World, ops: seq<ServiceOp>)
    requires Inv(w) && PendingBounded(w.store)
    ensures var t := ServiceRun(w, ops);
            AnswersLeft(t.store) + |t.acked| <= AnswersLeft(w.store) + |w.acked| + Submitted(w, ops)
    decreases |ops|
  {
    if ops == [] {
    } else {
      OpBalance(w, ops[0]);
      ServiceBounded(w, ops[0]);
      OpsBalance(ServiceNext(w, ops[0]), ops[1..]);
    }
  }

  lemma NoAnswersLeft(w: World)
    requires Inv(w) && PendingBounded(w.store)
    ensures AnswersLeft(w.store) >= 0 && (AnswersLeft(w.store) == 0 ==> AllTerminal(w.store))
  {
    var st := w.store.(rows := UnansweredRows(w.store.rows));
    forall id | id in st.order ensures id in st.rows && HasAttemptsLeft(st.rows[id]) {
      assert HasAttemptsLeft(w.store.rows[id]);
    }
    RemainingBounds(st, st.order);
    if AnswersLeft(w.store) == 0 {
      forall id | id in w.store.rows ensures Terminal(w.store.rows[id]) {
        assert id in st.order && Terminal(st.rows[id]);
      }
    }
  }

  // ---------------------------------------------------------------------------
  // Main results
  // ---------------------------------------------------------------------------

  ghost predicate AllTerminal(st: Store) {
    forall id | id in st.rows :: Terminal(st.rows[id])
  }

  lemma NothingLeft(w: World)
    requires Inv(w) && PendingBounded(w.store)
    ensures Left(w) >= 0 && (Left(w) == 0 ==> AllTerminal(w.store))
  {
    forall id | id in w.store.order ensures id in w.store.rows && HasAttemptsLeft(w.store.rows[id]) {}
    RemainingBounds(w.store, w.store.order);
    if Left(w) == 0 {
      forall id | id in w.store.rows ensures Terminal(w.store.rows[id]) {
        assert id in w.store.order;
      }
    }
  }

  /**
   After any history of workers, whatever it left in processing, and among any further polls, crashes,
   late answers and submissions: there are never more productive crash-free passes than the attempts
   left and submitted, and once there have been that many every row is terminal.
   */
  lemma OutboxDrains(past: seq<ServiceOp>, events: seq<Event>)
    ensures Inv(Empty()) && PendingBounded(ServiceRun(Empty(), past).store)
    ensures var w := ServiceRun(Empty(), past);
            && Spent(w, events) <= Left(w) + Granted(w, events)
            && (Spent(w, events) == Left(w) + Granted(w, events) ==> AllTerminal(EventsRun(w, events).store))
  {
    EmptyInv();
    PendingRowsHaveAttemptsLeft(Empty(), past);
    var w := ServiceRun(Empty(), past);
    EventsBalance(w, events);
    NothingLeft(EventsRun(w, events));
  }

  /**
   However the operations of any number of workers interleave, no more acknowledgements are ever accepted
   than attempts were submitted, and once that many have been, every row is terminal.
   */
  lemma AnswersDrain(ops: seq<ServiceOp>)
    ensures Inv(Empty())
    ensures var t := ServiceRun(Empty(), ops);
            && |t.acked| <= Submitted(Empty(), ops)
            && (|t.acked| == Submitted(Empty(), ops) ==> AllTerminal(t.store))
  {
    EmptyInv();
    PendingRowsHaveAttemptsLeft(Empty(), ops);
    OpsBalance(Empty(), ops);
    NoAnswersLeft(ServiceRun(Empty(), ops));
  }

  /** At any moment, no time can make a row due exactly when every row is terminal: a stuck outbox is a drained one. */
  lemma StuckIsDrained(past: seq<ServiceOp>)
    ensures Inv(Empty())
    ensures var st := ServiceRun(Empty(), past).store; (forall now :: !SomeDue(st, now)) <==> AllTerminal(st)
  {
    EmptyInv();
    PendingRowsHaveAttemptsLeft(Empty(), past);
    ReachableDeliverable(ServiceRun(Empty(), past));
    var st := ServiceRun(Empty(), past).store;
    if !AllTerminal(st) {
      var id :| id in st.rows && !Terminal(st.rows[id]);
      assert LeaseFits(st.rows[id]);
      var now := if st.rows[id].status.Pending? then st.rows[id].availableAt else st.rows[id].leaseUntil.value + 1;
      assert IsDue(st.rows[id], now);
      assert SomeDue(st, now);
    }
  }
}
