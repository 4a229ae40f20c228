/** What settling leaves in a row and in a summary, field by field. */
module OutboxOutcomes {
  import opened Prelude
  import opened SettlementOutbox
  import opened OutboxLeases
  import opened OutboxDelivery
  import opened OutboxPass

  function First(n: nat, s: string): string {
    s[..Min(n, |s|)]
  }

  /** The lease is gone and what the row was enqueued with, and its attempts, are as they were. */
  predicate Released(was: Row, row: Row) {
    && row.leaseUntil.None? && row.leaseToken.None?
    && row.id == was.id && row.eventKey == was.eventKey && row.eventType == was.eventType
    && row.aggregateId == was.aggregateId && row.payload == was.payload
    && row.attempts == was.attempts && row.maxAttempts == was.maxAttempts && row.createdAt == was.createdAt
  }

  predicate Holds(st: Store, id: string, token: string) {
    id in st.rows && st.rows[id].status == Processing && st.rows[id].leaseToken == Some(token)
  }

  ghost predicate OnlyRow(st: Store, t: Store, id: string) {
    && id in t.rows && t.rows.Keys == st.rows.Keys && (forall other | other in st.rows && other != id ::
                                                         t.rows[other] == st.rows[other])
    && t.order == st.order && t.keys == st.keys && t.sequence == st.sequence
  }

  /** Reporting success stores the row as succeeded at that time if it is processed under the token; else nothing. */
  lemma SuccessExact(st: Store, id: string, token: string, at: int)
    ensures var t := Acknowledged(st, Succeed(id, token, at));
            if Holds(st, id, token) then
              && OnlyRow(st, t, id) && Released(st.rows[id], t.rows[id])
              && t.rows[id].status == Succeeded && t.rows[id].processedAt == Some(at) && t.rows[id].updatedAt == at
              && t.rows[id].availableAt == st.rows[id].availableAt && t.rows[id].lastError == st.rows[id].lastError
            else t == st
  {
  }

  lemma TruncatedIsFirst(error: string)
    ensures Truncate(error) == First(4_000, error)
  {
    assert error[..|error|] == error;
  }

  /** Reporting failure stores it as dead or pending as told, with the retry time and the start of the message. */
  lemma FailureExact(st: Store, id: string, token: string, error: string, retryAt: int, dead: bool, now: int)
    ensures var t := Acknowledged(st, Fail(id, token, error, retryAt, dead, now));
            if Holds(st, id, token) then
              && OnlyRow(st, t, id) && Released(st.rows[id], t.rows[id])
              && t.rows[id].status == (if dead then Dead else Pending) && t.rows[id].availableAt == retryAt
              && t.rows[id].lastError == Some(First(4_000, error)) && t.rows[id].updatedAt == now
              && t.rows[id].processedAt == st.rows[id].processedAt
            else t == st
  {
    TruncatedIsFirst(error);
  }

  // ---------------------------------------------------------------------------
  // What one attempt leaves
  // ---------------------------------------------------------------------------

  /** The handler returned. */
  predicate Delivered(a: Attempt) {
    a.registered && a.result.Handled?
  }

  /** There is no handler, or it threw on the row's last attempt. */
  predicate Hopeless(claim: Row, a: Attempt) {
    !a.registered || (a.result.Threw? && claim.attempts >= claim.maxAttempts)
  }

  /** The row a delivery leaves of a claim. */
  predicate Outcome(claim: Row, a: Attempt, row: Row) {
    && Released(claim, row)
    && if Delivered(a) then row.status == Succeeded && row.processedAt == Some(a.clock)
       else
         && row.status == (if Hopeless(claim, a) then Dead else Pending)
         && row.availableAt == (if a.registered then a.clock + RetryDelay(claim.attempts) else a.clock)
         && row.lastError == Some(First(4_000, if a.registered then a.result.message
                                               else "No handler registered for " + claim.eventType))
  }

  lemma SettledOutcome(claim: Row, a: Attempt)
    ensures Outcome(claim, a, Settled(claim, a))
  {
    TruncatedIsFirst(if a.registered && a.result.Threw? then a.result.message
                     else "No handler registered for " + claim.eventType);
  }

  /**
   An answer to a claim that is still the row's current one leaves the row succeeded if the handler returned, dead if
   there is none or no attempt is left, and otherwise pending until the backoff is over; other answers change nothing.
   */
  lemma AnswerOutcome(w: World, i: nat, a: Attempt)
    requires OutboxLeases.Inv(w) && i < |w.issued|
    ensures var claim := w.issued[i].row;
            var t := ServiceNext(w, Settle(i, a));
            && claim.id in w.store.rows
            && if w.store.rows[claim.id] == claim then
                 OnlyRow(w.store, t.store, claim.id) && Outcome(claim, a, t.store.rows[claim.id])
               else t.store == w.store
  {
    assert IssueFits(w.store, w.issued[i]);
    SettleEffect(w, i, a);
    SettledOutcome(w.issued[i].row, a);
  }

  /** In a pass without crashes every claimed row ends as its handler decided. */
  lemma PassOutcome(st: Store, limit: int, now: int, b: Behaviour, i: nat)
    requires Deliverable(st) && i < |ClaimDue(st, limit, 60_000, now).rows|
    ensures var claim := ClaimDue(st, limit, 60_000, now).rows[i];
            var after := ProcessPass(st, limit, now, b).store.rows;
            claim.id in after && Outcome(claim, b(i), after[claim.id])
  {
    SettledInPass(st, limit, now, b, ClaimDue(st, limit, OUTBOX_LEASE_MS, now), i);
    SettledOutcome(ClaimDue(st, limit, OUTBOX_LEASE_MS, now).rows[i], b(i));
  }

  // ---------------------------------------------------------------------------
  // What the summary counts
  // ---------------------------------------------------------------------------

  /** A refused answer counts as skipped, an accepted one under what became of the row. */
  lemma AnswerCounted(st: Store, claim: Row, a: Attempt, s: Summary)
    requires claim.leaseToken.Some?
    ensures var ack := Acknowledgement(claim, a);
            Tally(s, Accepts(st, ack), ack) ==
            if !Accepts(st, ack) then s.(skipped := s.skipped + 1)
            else if Delivered(a) then s.(succeeded := s.succeeded + 1)
            else if Hopeless(claim, a) then s.(dead := s.dead + 1)
            else s.(retried := s.retried + 1)
  {
  }

  function Ending(claim: Row, a: Attempt): Status {
    if Delivered(a) then Succeeded else if Hopeless(claim, a) then Dead else Pending
  }

  /** The claims from the i-th on that end in this status. */
  ghost function EndingIn(claims: seq<Row>, i: nat, b: Behaviour, status: Status): set<nat> {
    set k: nat | i <= k < |claims| && Ending(claims[k], b(k)) == status
  }

  lemma EndingInStep(claims: seq<Row>, i: nat, b: Behaviour, status: Status)
    requires i < |claims|
    ensures |EndingIn(claims, i, b, status)| ==
            |EndingIn(claims, i + 1, b, status)| + if Ending(claims[i], b(i)) == status then 1 else 0
  {
    var here, rest := EndingIn(claims, i, b, status), EndingIn(claims, i + 1, b, status);
    assert i !in rest;
    forall k: nat ensures k in here <==> k in rest || (k == i && Ending(claims[i], b(i)) == status) {}
    assert here == rest + if Ending(claims[i], b(i)) == status then {i} else {};
  }

  /** The summary of a pass that is at its i-th claim, once it is over. */
  ghost function Finally(claims: seq<Row>, i: nat, b: Behaviour, s: Summary): Summary {
    Summary(s.succeeded + |EndingIn(claims, i, b, Succeeded)|, s.retried + |EndingIn(claims, i, b, Pending)|,
            s.dead + |EndingIn(claims, i, b, Dead)|, s.skipped)
  }

  lemma FinallyStep(claims: seq<Row>, i: nat, b: Behaviour, p: Pass)
    requires AllLeased(claims) && i < |claims| && Accepts(p.store, Acknowledgement(claims[i], b(i)))
    ensures Finally(claims, i, b, p.summary) == Finally(claims, i + 1, b, NextPass(claims, i, b, p).summary)
  {
    AnswerCounted(p.store, claims[i], b(i), p.summary);
    EndingInStep(claims, i, b, Succeeded);
    EndingInStep(claims, i, b, Pending);
    EndingInStep(claims, i, b, Dead);
  }

  lemma {:induction false} SettleCounts(claims: seq<Row>, i: nat, b: Behaviour, p: Pass)
    requires AllLeased(claims) && DistinctRows(claims) && i <= |claims| && Current(claims, i, p.store)
    ensures SettleFrom(claims, i, b, p).summary == Finally(claims, i, b, p.summary)
    decreases |claims| - i
  {
    if i == |claims| {
      assert forall status :: EndingIn(claims, i, b, status) == {};
    } else {
      SettleOne(claims, i, b, p);
      AcknowledgementEffect(p.store, claims[i], b(i));
      FinallyStep(claims, i, b, p);
      SettleCounts(claims, i + 1, b, NextPass(claims, i, b, p));
    }
  }

  /** The claims whose rows are stored with this status. */
  ghost function StoredAs(claims: seq<Row>, rows: map<string, Row>, status: Status): set<nat> {
    set k: nat | k < |claims| && claims[k].id in rows && rows[claims[k].id].status == status
  }

  /** The summary of a pass without crashes counts its claims by the status their rows are left with. */
  lemma SummaryCounts(st: Store, limit: int, now: int, b: Behaviour)
    requires Deliverable(st)
    ensures var claims := ClaimDue(st, limit, 60_000, now).rows;
            var p := ProcessPass(st, limit, now, b);
            && p.summary.succeeded == |StoredAs(claims, p.store.rows, Succeeded)|
            && p.summary.retried == |StoredAs(claims, p.store.rows, Pending)|
            && p.summary.dead == |StoredAs(claims, p.store.rows, Dead)|
            && p.summary.skipped == 0
  {
    var c, after := ClaimDue(st, limit, OUTBOX_LEASE_MS, now), ProcessPass(st, limit, now, b).store.rows;
    ClaimsCurrent(st, limit, OUTBOX_LEASE_MS, now);
    SettleCounts(c.rows, 0, b, Pass(c.store, Summary(0, 0, 0, 0)));
    forall status ensures StoredAs(c.rows, after, status) == EndingIn(c.rows, 0, b, status) {
      StoredAsEnding(st, limit, now, b, status);
    }
  }

  lemma StoredAsEnding(st: Store, limit: int, now: int, b: Behaviour, status: Status)
    requires Deliverable(st)
    ensures var claims := ClaimDue(st, limit, 60_000, now).rows;
            StoredAs(claims, ProcessPass(st, limit, now, b).store.rows, status) == EndingIn(claims, 0, b, status)
  {
    forall k: nat | k < |ClaimDue(st, limit, 60_000, now).rows|
      ensures var claim := ClaimDue(st, limit, 60_000, now).rows[k];
              var after := ProcessPass(st, limit, now, b).store.rows;
              claim.id in after && after[claim.id].status == Ending(claim, b(k))
    {
      PassOutcome(st, limit, now, b, k);
    }
  }
}
