/** What a stored row says is what was submitted first under its key, whatever became of the row since. */
module OutboxHistory {
  import opened Prelude
  import opened SettlementOutbox
  import opened OutboxLeases
  import opened OutboxDelivery
  import opened OutboxClaims
  import opened OutboxOutcomes

  /** The submission has no blank field and this event key. */
  predicate Submits(op: ServiceOp, key: string) {
    && op.Submit? && op.effect.eventKey == key
    && !IsBlank(op.effect.eventKey) && !IsBlank(op.effect.eventType) && !IsBlank(op.effect.aggregateId)
  }

  /** The row carries what was submitted, eight attempts if none were asked for. */
  predicate Carries(row: Row, op: ServiceOp)
    requires op.Submit?
  {
    && row.eventKey == op.effect.eventKey && row.eventType == op.effect.eventType
    && row.aggregateId == op.effect.aggregateId && row.payload == op.effect.payload
    && row.maxAttempts == (if op.effect.maxAttempts.Some? then op.effect.maxAttempts.value else 8)
    && row.createdAt == op.now
  }

  /** A submission under a new key adds one pending row, due at once; any other changes nothing. */
  lemma SubmitStores(w: World, effect: SideEffect, clock: int, now: int)
    requires OutboxLeases.Inv(w)
    ensures var op := Submit(effect, clock, now);
            var t, id := ServiceNext(w, op).store, RowId(w.store.sequence + 1);
            if Submits(op, effect.eventKey) && effect.eventKey !in w.store.keys then
              && id !in w.store.rows && t.rows.Keys == w.store.rows.Keys + {id} && t.order == w.store.order + [id]
              && (forall other | other in w.store.rows :: t.rows[other] == w.store.rows[other])
              && t.keys == w.store.keys[effect.eventKey := id]
              && Carries(t.rows[id], op) && t.rows[id].id == id
              && t.rows[id].status == Pending && t.rows[id].attempts == 0 && t.rows[id].availableAt == clock
              && t.rows[id].leaseUntil.None? && t.rows[id].leaseToken.None?
              && t.rows[id].lastError.None? && t.rows[id].processedAt.None? && t.rows[id].updatedAt == now
            else t == w.store
  {
    NextIdFresh(w.store);
  }

  // ---------------------------------------------------------------------------
  // Over whole runs
  // ---------------------------------------------------------------------------

  /** The first submission under the key, if there was any. */
  function FirstUnder(ops: seq<ServiceOp>, key: string): Option<ServiceOp> {
    if ops == [] then None
    else
      var earlier := FirstUnder(ops[..|ops| - 1], key);
      if earlier.Some? then earlier
      else if Submits(ops[|ops| - 1], key) then Some(ops[|ops| - 1])
      else None
  }

  lemma FirstUnderNext(ops: seq<ServiceOp>, op: ServiceOp, key: string)
    ensures FirstUnder(ops + [op], key) ==
            if FirstUnder(ops, key).Some? then FirstUnder(ops, key) else if Submits(op, key) then Some(op) else None
  {
    assert (ops + [op])[..|ops|] == ops;
  }

  /** The row carries the first submission under its key. */
  predicate FromFirst(row: Row, ops: seq<ServiceOp>) {
    var first := FirstUnder(ops, row.eventKey);
    first.Some? && first.value.Submit? && Carries(row, first.value)
  }

  /** The store has exactly the keys submitted, each with the row of its first submission. */
  ghost predicate Remembers(st: Store, ops: seq<ServiceOp>) {
    && (forall id | id in st.rows :: FromFirst(st.rows[id], ops))
    && (forall key :: key in st.keys <==> FirstUnder(ops, key).Some?)
  }

  predicate SameOrigin(was: Row, row: Row) {
    && row.eventKey == was.eventKey && row.eventType == was.eventType && row.aggregateId == was.aggregateId
    && row.payload == was.payload && row.maxAttempts == was.maxAttempts && row.createdAt == was.createdAt
  }

  lemma FromFirstLater(was: Row, row: Row, ops: seq<ServiceOp>, op: ServiceOp)
    requires FromFirst(was, ops) && SameOrigin(was, row)
    ensures FromFirst(row, ops + [op])
  {
    FirstUnderNext(ops, op, row.eventKey);
  }

  lemma ClaimKeepsOrigin(st: Store, limit: int, now: int, id: string)
    requires RowsListed(st) && id in ClaimDue(st, limit, OUTBOX_LEASE_MS, now).store.rows
    ensures id in st.rows && SameOrigin(st.rows[id], ClaimDue(st, limit, OUTBOX_LEASE_MS, now).store.rows[id])
  {
    var c := ClaimDue(st, limit, OUTBOX_LEASE_MS, now);
    ClaimGrows(st, limit, OUTBOX_LEASE_MS, now);
    if i: nat :| i < |c.rows| && c.rows[i].id == id {
      ClaimedRow(st, limit, OUTBOX_LEASE_MS, now, i);
      ClaimHandsOut(st, limit, OUTBOX_LEASE_MS, now, i);
    } else {
      UnclaimedRow(st, limit, OUTBOX_LEASE_MS, now, id);
    }
  }

  /** No operation but a new submission brings in a row, and none changes what a row carries. */
  lemma OriginsKept(w: World, op: ServiceOp, id: string)
    requires OutboxLeases.Inv(w) && id in ServiceNext(w, op).store.rows
    requires op.Submit? ==> !Submits(op, op.effect.eventKey) || op.effect.eventKey in w.store.keys
    ensures id in w.store.rows && SameOrigin(w.store.rows[id], ServiceNext(w, op).store.rows[id])
  {
    match op
    case Submit(effect, clock, now) => SubmitStores(w, effect, clock, now);
    case Poll(limit, now) => ClaimKeepsOrigin(w.store, limit, now, id);
    case Settle(i, a) =>
      if i < |w.issued| {
        AnswerOutcome(w, i, a);
      }
  }

  /** The keys grow by the one submitted. */
  lemma KeysAfter(w: World, op: ServiceOp, key: string)
    requires OutboxLeases.Inv(w)
    ensures key in ServiceNext(w, op).store.keys <==> key in w.store.keys || Submits(op, key)
  {
    match op
    case Submit(effect, clock, now) => SubmitStores(w, effect, clock, now);
    case Poll(limit, now) => ClaimGrows(w.store, limit, OUTBOX_LEASE_MS, now);
    case Settle(i, a) =>
      if i < |w.issued| {
        AnswerOutcome(w, i, a);
      }
  }

  lemma RowNext(w: World, done: seq<ServiceOp>, op: ServiceOp, id: string)
    requires OutboxLeases.Inv(w) && Remembers(w.store, done) && id in ServiceNext(w, op).store.rows
    ensures FromFirst(ServiceNext(w, op).store.rows[id], done + [op])
  {
    var row := ServiceNext(w, op).store.rows[id];
    if op.Submit? && Submits(op, op.effect.eventKey) && op.effect.eventKey !in w.store.keys {
      SubmitStores(w, op.effect, op.clock, op.now);
      if id in w.store.rows {
        FromFirstLater(w.store.rows[id], row, done, op);
      } else {
        FirstUnderNext(done, op, row.eventKey);
      }
    } else {
      OriginsKept(w, op, id);
      FromFirstLater(w.store.rows[id], row, done, op);
    }
  }

  lemma RemembersNext(w: World, done: seq<ServiceOp>, op: ServiceOp)
    requires OutboxLeases.Inv(w) && Remembers(w.store, done)
    ensures Remembers(ServiceNext(w, op).store, done + [op])
  {
    var t := ServiceNext(w, op).store;
    forall id | id in t.rows ensures FromFirst(t.rows[id], done + [op]) {
      RowNext(w, done, op, id);
    }
    forall key ensures key in t.keys <==> FirstUnder(done + [op], key).Some? {
      KeysAfter(w, op, key);
      FirstUnderNext(done, op, key);
    }
  }

  lemma {:induction false} RemembersRun(w: World, done: seq<ServiceOp>, ops: seq<ServiceOp>)
    requires OutboxLeases.Inv(w) && Remembers(w.store, done)
    ensures Remembers(ServiceRun(w, ops).store, done + ops)
    decreases |ops|
  {
    if ops == [] {
      assert done + ops == done;
    } else {
      RemembersNext(w, done, ops[0]);
      RemembersRun(ServiceNext(w, ops[0]), done + [ops[0]], ops[1..]);
      assert done + [ops[0]] + ops[1..] == done + ops;
    }
  }

  /**
   However the workers' operations interleave, the keys are those submitted without a blank field, and every row carries
   the type, aggregate, payload, allowance and creation time of the first submission under its key.
   */
  lemma FirstSubmissionKept(ops: seq<ServiceOp>)
    ensures OutboxLeases.Inv(Empty()) && Remembers(ServiceRun(Empty(), ops).store, ops)
  {
    EmptyInv();
    RemembersRun(Empty(), [], ops);
    assert [] + ops == ops;
  }
}
