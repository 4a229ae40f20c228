/**
 One pass of a worker that does not crash: what it makes of every row, and the
 attempts it uses up, whatever the handlers do and whatever crashed workers left behind.
 */
module OutboxPass {
  import opened Prelude
  import opened SettlementOutbox
  import opened OutboxLeases
  import opened OutboxDelivery

  /** A row is leased exactly while it is being processed. */
  predicate LeaseFits(row: Row) {
    if row.status.Processing? then row.leaseToken.Some? && row.leaseUntil.Some? else row.leaseToken.None?
  }

  /** Between passes. Rows may be in processing: those of workers that are slow or have crashed. */
  ghost predicate Deliverable(st: Store) {
    Valid(st) && PendingBounded(st) && forall id | id in st.rows :: LeaseFits(st.rows[id])
  }

  ghost predicate Current(claims: seq<Row>, i: nat, st: Store) {
    forall j | i <= j < |claims| ::
      && claims[j].id in st.rows && st.rows[claims[j].id] == claims[j]
      && claims[j].status.Processing? && claims[j].leaseToken.Some?
  }

  function Total(s: Summary): nat {
    s.succeeded + s.retried + s.dead + s.skipped
  }

  ghost predicate NotFrom(claims: seq<Row>, i: nat, id: string) {
    forall j | i <= j < |claims| :: claims[j].id != id
  }

  /** Claims i and later have been settled in `after`; nothing else moved. */
  ghost predicate SettledFrom(
    claims: seq<Row>, i: nat, b: Behaviour, before: map<string, Row>, after: map<string, Row>) {
    && after.Keys == before.Keys
    && (forall j: nat | i <= j < |claims| :: claims[j].id in after && after[claims[j].id] == Settled(claims[j], b(j)))
    && (forall id | id in before && NotFrom(claims, i, id) :: after[id] == before[id])
  }

  ghost function NextPass(claims: seq<Row>, i: nat, b: Behaviour, p: Pass): Pass
    requires AllLeased(claims) && i < |claims|
  {
    var ack := Acknowledgement(claims[i], b(i));
    Pass(Acknowledged(p.store, ack), Tally(p.summary, Accepts(p.store, ack), ack))
  }

  lemma SettleOne(claims: seq<Row>, i: nat, b: Behaviour, p: Pass)
    requires AllLeased(claims) && DistinctRows(claims) && i < |claims| && Current(claims, i, p.store)
    ensures var next := NextPass(claims, i, b, p);
            && next.store == p.store.(rows := p.store.rows[claims[i].id := Settled(claims[i], b(i))])
            && Current(claims, i + 1, next.store)
            && next.summary.skipped == p.summary.skipped && Total(next.summary) == Total(p.summary) + 1
  {
    AcknowledgementEffect(p.store, claims[i], b(i));
  }

  lemma SettledStep(claims: seq<Row>, i: nat, b: Behaviour,
                    before: map<string, Row>, mid: map<string, Row>, after: map<string, Row>)
    requires DistinctRows(claims) && i < |claims| && claims[i].id in before
    requires mid == before[claims[i].id := Settled(claims[i], b(i))]
    requires SettledFrom(claims, i + 1, b, mid, after)
    ensures SettledFrom(claims, i, b, before, after)
  {
    assert NotFrom(claims, i + 1, claims[i].id);
    forall id | id in before && NotFrom(claims, i, id) ensures after[id] == before[id] {
      assert claims[i].id != id;
      assert NotFrom(claims, i + 1, id);
    }
  }

  lemma {:induction false} SettleRows(claims: seq<Row>, i: nat, b: Behaviour, p: Pass)
    requires AllLeased(claims) && DistinctRows(claims) && i <= |claims| && Current(claims, i, p.store)
    ensures SettledFrom(claims, i, b, p.store.rows, SettleFrom(claims, i, b, p).store.rows)
    decreases |claims| - i
  {
    var before, after := p.store.rows, SettleFrom(claims, i, b, p).store.rows;
    if i == |claims| {
      assert forall id | id in before :: after[id] == before[id];
    } else {
      SettleOne(claims, i, b, p);
      SettleNext(claims, i, b, p);
    }
  }

  lemma {:induction false} SettleNext(claims: seq<Row>, i: nat, b: Behaviour, p: Pass)
    requires AllLeased(claims) && DistinctRows(claims) && i < |claims| && Current(claims, i, p.store)
    requires Current(claims, i + 1, NextPass(claims, i, b, p).store)
    requires NextPass(claims, i, b, p).store.rows == p.store.rows[claims[i].id := Settled(claims[i], b(i))]
    ensures SettledFrom(claims, i, b, p.store.rows, SettleFrom(claims, i, b, p).store.rows)
    decreases |claims| - i, 0
  {
    var next := NextPass(claims, i, b, p);
    SettleRows(claims, i + 1, b, next);
    SettledStep(claims, i, b, p.store.rows, next.store.rows, SettleFrom(claims, i + 1, b, next).store.rows);
  }

  /** No acknowledgement of a crash-free pass is refused. */
  lemma {:induction false} SettleTotals(claims: seq<Row>, i: nat, b: Behaviour, p: Pass)
    requires AllLeased(claims) && DistinctRows(claims) && i <= |claims| && Current(claims, i, p.store)
    ensures var q := SettleFrom(claims, i, b, p);
            && q.store == p.store.(rows := q.store.rows)
            && q.summary.skipped == p.summary.skipped
            && Total(q.summary) == Total(p.summary) + |claims| - i
    decreases |claims| - i
  {
    if i == |claims| {
    } else {
      var next := NextPass(claims, i, b, p);
      SettleOne(claims, i, b, p);
      SettleTotals(claims, i + 1, b, next);
      assert SettleFrom(claims, i, b, p) == SettleFrom(claims, i + 1, b, next);
    }
  }

  lemma ClaimsDistinct(st: Store, limit: int, leaseMs: int, now: int)
    requires RowsListed(st)
    ensures DistinctRows(ClaimDue(st, limit, leaseMs, now).rows)
  {
    var c := ClaimDue(st, limit, leaseMs, now);
    ClaimExact(st, limit, leaseMs, now);
    QueueDistinct(st);
    DueDistinct(Queue(st), now);
  }

  lemma {:induction false} DueDistinct(queue: seq<Row>, now: int)
    requires DistinctRows(queue)
    ensures DistinctRows(Filter(Due(now), queue))
  {
    if queue == [] {
    } else {
      DueDistinct(queue[1..], now);
      if IsDue(queue[0], now) {
        DueHead(queue, now);
        FilterMembers(Due(now), queue[1..]);
        assert forall row | row in Filter(Due(now), queue[1..]) :: row.id != queue[0].id;
      }
    }
  }

  /** What a worker has just claimed is what the store holds. */
  lemma ClaimsCurrent(st: Store, limit: int, leaseMs: int, now: int)
    requires RowsListed(st)
    ensures var c := ClaimDue(st, limit, leaseMs, now);
            AllLeased(c.rows) && DistinctRows(c.rows) && Current(c.rows, 0, c.store)
  {
    var c := ClaimDue(st, limit, leaseMs, now);
    ClaimsLeased(st, limit, leaseMs, now);
    ClaimsDistinct(st, limit, leaseMs, now);
    forall j: nat | j < |c.rows|
      ensures c.rows[j].id in c.store.rows && c.store.rows[c.rows[j].id] == c.rows[j]
      ensures c.rows[j].status.Processing? && c.rows[j].leaseToken.Some?
    {
      ClaimedRow(st, limit, leaseMs, now, j);
    }
  }

  /** What a whole pass does: each claimed row is leased and then settled, all others stay. */
  lemma PassEffect(st: Store, limit: int, now: int, b: Behaviour)
    requires Deliverable(st)
    ensures var c := ClaimDue(st, limit, OUTBOX_LEASE_MS, now);
            var p := ProcessPass(st, limit, now, b);
            && SettledFrom(c.rows, 0, b, c.store.rows, p.store.rows)
            && p.store == c.store.(rows := p.store.rows)
            && p.summary.skipped == 0 && Total(p.summary) == |c.rows|
  {
    var c := ClaimDue(st, limit, OUTBOX_LEASE_MS, now);
    ClaimsCurrent(st, limit, OUTBOX_LEASE_MS, now);
    SettleRows(c.rows, 0, b, Pass(c.store, Summary(0, 0, 0, 0)));
    SettleTotals(c.rows, 0, b, Pass(c.store, Summary(0, 0, 0, 0)));
  }

  // ---------------------------------------------------------------------------
  // The measure
  // ---------------------------------------------------------------------------

  /** How many more passes can claim the row; one at least while it is not terminal. */
  function RowRemaining(row: Row): int {
    if row.status.Pending? then AttemptsAllowed(row) - row.attempts
    else if row.status.Processing? then Max(1, AttemptsAllowed(row) - row.attempts)
    else 0
  }

  ghost function Remaining(rows: map<string, Row>, order: seq<string>): int {
    if order == [] then 0
    else (if order[0] in rows then RowRemaining(rows[order[0]]) else 0) + Remaining(rows, order[1..])
  }

  /** Rows in `used` lost at least one attempt and no row gained any. */
  lemma {:induction false} RemainingFalls(
    before: map<string, Row>, after: map<string, Row>, order: seq<string>, used: set<string>)
    requires Distinct(order) && (forall id | id in order :: id in before && id in after)
    requires forall id | id in order ::
               RowRemaining(after[id]) + (if id in used then 1 else 0) <= RowRemaining(before[id])
    ensures Remaining(after, order) + |set id | id in order && id in used| <= Remaining(before, order)
  {
    var here := set id | id in order && id in used;
    if order == [] {
      assert here == {};
    } else {
      assert order[0] in order;
      RemainingFalls(before, after, order[1..], used);
      var rest := set id | id in order[1..] && id in used;
      assert order[0] !in order[1..];
      if order[0] in used {
        assert here == rest + {order[0]};
      } else {
        assert here == rest;
      }
    }
  }

  lemma {:induction false} RemainingBounds(st: Store, order: seq<string>)
    requires forall id | id in order :: id in st.rows && HasAttemptsLeft(st.rows[id])
    ensures Remaining(st.rows, order) >= 0
    ensures Remaining(st.rows, order) == 0 ==> forall id | id in order :: Terminal(st.rows[id])
  {
    if order == [] {
    } else {
      assert order[0] in order;
      RemainingBounds(st, order[1..]);
    }
  }


  /** `after` is what a pass may leave of `row`, having used `spent` of its attempts. */
  predicate LeftOver(row: Row, after: Row, spent: nat) {
    && after.id == row.id && after.eventKey == row.eventKey
    && RowRemaining(after) + spent <= RowRemaining(row)
    && HasAttemptsLeft(after) && LeaseFits(after)
  }

  /** One attempt of a row, fresh or reclaimed: settled for good, or pending again with one attempt fewer. */
  lemma AttemptUsed(row: Row, n: nat, now: int, a: Attempt)
    requires !Terminal(row) && HasAttemptsLeft(row)
    ensures LeftOver(row, Settled(Leased(row, n, OUTBOX_LEASE_MS, now), a), 1)
  {
  }

  lemma ClaimedLeftOver(st: Store, limit: int, now: int, b: Behaviour, c: Claims, i: nat, id: string)
    requires Deliverable(st) && c == ClaimDue(st, limit, OUTBOX_LEASE_MS, now)
    requires i < |c.rows| && c.rows[i].id == id
    ensures id in st.rows && !Terminal(st.rows[id])
    ensures id in ProcessPass(st, limit, now, b).store.rows
    ensures LeftOver(st.rows[id], ProcessPass(st, limit, now, b).store.rows[id], 1)
  {
    ClaimedRow(st, limit, OUTBOX_LEASE_MS, now, i);
    assert HasAttemptsLeft(st.rows[id]);
    AttemptUsed(st.rows[id], st.sequence + 1 + i, now, b(i));
    SettledInPass(st, limit, now, b, c, i);
  }

  lemma SettledInPass(st: Store, limit: int, now: int, b: Behaviour, c: Claims, i: nat)
    requires Deliverable(st) && c == ClaimDue(st, limit, OUTBOX_LEASE_MS, now) && i < |c.rows|
    ensures c.rows[i].id in ProcessPass(st, limit, now, b).store.rows
    ensures ProcessPass(st, limit, now, b).store.rows[c.rows[i].id] == Settled(c.rows[i], b(i))
  {
    PassEffect(st, limit, now, b);
  }

  lemma UnclaimedLeftOver(st: Store, limit: int, now: int, b: Behaviour, id: string)
    requires Deliverable(st) && id in st.rows && !IsClaimed(ClaimDue(st, limit, OUTBOX_LEASE_MS, now), id)
    ensures var after := ProcessPass(st, limit, now, b).store.rows;
            id in after && LeftOver(st.rows[id], after[id], 0)
  {
    PassEffect(st, limit, now, b);
    UnclaimedRow(st, limit, OUTBOX_LEASE_MS, now, id);
    assert NotFrom(ClaimDue(st, limit, OUTBOX_LEASE_MS, now).rows, 0, id);
    assert HasAttemptsLeft(st.rows[id]);
  }

  /** What a pass leaves of one row. */
  lemma PassRow(st: Store, limit: int, now: int, b: Behaviour, id: string)
    requires Deliverable(st) && id in st.rows
    ensures var after := ProcessPass(st, limit, now, b).store.rows;
            var claimed := IsClaimed(ClaimDue(st, limit, OUTBOX_LEASE_MS, now), id);
            id in after && LeftOver(st.rows[id], after[id], if claimed then 1 else 0)
  {
    if IsClaimed(ClaimDue(st, limit, OUTBOX_LEASE_MS, now), id) {
      var i: nat :| i < |ClaimDue(st, limit, OUTBOX_LEASE_MS, now).rows|
                    && ClaimDue(st, limit, OUTBOX_LEASE_MS, now).rows[i].id == id;
      ClaimedLeftOver(st, limit, now, b, ClaimDue(st, limit, OUTBOX_LEASE_MS, now), i, id);
    } else {
      UnclaimedLeftOver(st, limit, now, b, id);
    }
  }

  lemma PassStore(st: Store, limit: int, now: int, b: Behaviour)
    requires Deliverable(st)
    ensures var t := ProcessPass(st, limit, now, b).store;
            t.order == st.order && t.keys == st.keys && t.rows.Keys == st.rows.Keys && st.sequence <= t.sequence
  {
    PassEffect(st, limit, now, b);
    ClaimExact(st, limit, OUTBOX_LEASE_MS, now);
  }

  /** Validity survives changes that keep every row's id and event key. */
  lemma SameShapeValid(st: Store, t: Store)
    requires Valid(st) && st.sequence <= t.sequence
    requires t.order == st.order && t.keys == st.keys && t.rows.Keys == st.rows.Keys
    requires forall id | id in t.rows :: t.rows[id].id == id && t.rows[id].eventKey == st.rows[id].eventKey
    ensures Valid(t)
  {
    forall id | id in t.rows ensures NumberedBy(id, t.sequence) {
      NumberedLater(id, st.sequence, t.sequence);
    }
  }

  lemma PassDeliverable(st: Store, limit: int, now: int, b: Behaviour)
    requires Deliverable(st)
    ensures Deliverable(ProcessPass(st, limit, now, b).store)
  {
    var t := ProcessPass(st, limit, now, b).store;
    PassStore(st, limit, now, b);
    forall id | id in t.rows
      ensures t.rows[id].id == id && t.rows[id].eventKey == st.rows[id].eventKey && HasAttemptsLeft(t.rows[id])
      ensures LeaseFits(t.rows[id])
    {
      PassRow(st, limit, now, b, id);
    }
    SameShapeValid(st, t);
  }

  ghost function ClaimedIds(rows: seq<Row>): set<string> {
    set i | 0 <= i < |rows| :: rows[i].id
  }

  lemma ClaimedIdsOneMore(front: seq<Row>, last: Row)
    ensures ClaimedIds(front + [last]) == ClaimedIds(front) + {last.id}
  {
    var rows := front + [last];
    forall id | id in ClaimedIds(rows) ensures id in ClaimedIds(front) + {last.id} {
      var i :| 0 <= i < |rows| && rows[i].id == id;
      assert i < |front| ==> front[i].id == id;
    }
    forall id | id in ClaimedIds(front) ensures id in ClaimedIds(rows) {
      var i :| 0 <= i < |front| && front[i].id == id;
      assert rows[i].id == id;
    }
    assert rows[|front|].id == last.id;
  }

  lemma {:induction false} ClaimedIdsCount(rows: seq<Row>)
    requires DistinctRows(rows)
    ensures |ClaimedIds(rows)| == |rows|
  {
    if rows == [] {
      assert ClaimedIds(rows) == {};
    } else {
      var front, last := rows[..|rows| - 1], rows[|rows| - 1];
      assert rows == front + [last];
      assert forall i | 0 <= i < |front| :: front[i] == rows[i];
      ClaimedIdsCount(front);
      ClaimedIdsOneMore(front, last);
    }
  }

  lemma ClaimedIdsListed(st: Store, limit: int, now: int)
    requires Deliverable(st)
    ensures var rows := ClaimDue(st, limit, OUTBOX_LEASE_MS, now).rows;
            (set id | id in st.order && id in ClaimedIds(rows)) == ClaimedIds(rows)
  {
    var rows := ClaimDue(st, limit, OUTBOX_LEASE_MS, now).rows;
    forall id | id in ClaimedIds(rows) ensures id in st.order {
      var i: nat :| i < |rows| && rows[i].id == id;
      ClaimedRow(st, limit, OUTBOX_LEASE_MS, now, i);
    }
  }

  lemma PassRemaining(st: Store, limit: int, now: int, b: Behaviour)
    requires Deliverable(st)
    ensures var claims := ClaimDue(st, limit, OUTBOX_LEASE_MS, now).rows;
            var t := ProcessPass(st, limit, now, b).store;
            Remaining(t.rows, st.order) + |ClaimedIds(claims)| <= Remaining(st.rows, st.order)
  {
    var c := ClaimDue(st, limit, OUTBOX_LEASE_MS, now);
    var after := ProcessPass(st, limit, now, b).store.rows;
    var used := ClaimedIds(c.rows);
    forall id | id in st.order
      ensures id in st.rows && id in after
      ensures RowRemaining(after[id]) + (if id in used then 1 else 0) <= RowRemaining(st.rows[id])
    {
      PassRow(st, limit, now, b, id);
      if id in used {
        var i: nat :| i < |c.rows| && c.rows[i].id == id;
        assert IsClaimed(c, id);
      }
    }
    ClaimedIdsListed(st, limit, now);
    RemainingFalls(st.rows, after, st.order, used);
  }

  /** A pass keeps a store deliverable, refuses no acknowledgement, and uses one attempt per claim. */
  lemma PassUsesAttempts(st: Store, limit: int, now: int, b: Behaviour)
    requires Deliverable(st)
    ensures var claims := ClaimDue(st, limit, OUTBOX_LEASE_MS, now).rows;
            var p := ProcessPass(st, limit, now, b);
            && Deliverable(p.store)
            && p.summary.skipped == 0 && Total(p.summary) == |claims|
            && Remaining(p.store.rows, p.store.order) + |claims| <= Remaining(st.rows, st.order)
  {
    PassEffect(st, limit, now, b);
    PassDeliverable(st, limit, now, b);
    PassStore(st, limit, now, b);
    ClaimsDistinct(st, limit, OUTBOX_LEASE_MS, now);
    ClaimedIdsCount(ClaimDue(st, limit, OUTBOX_LEASE_MS, now).rows);
    PassRemaining(st, limit, now, b);
  }
}
