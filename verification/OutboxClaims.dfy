/**
 Which rows a claim hands out, in terms of their status and times, and how long a worker then has its row to itself.
 */
module OutboxClaims {
  import opened Prelude
  import opened Sorting
  import opened SettlementOutbox
  import opened OutboxLeases
  import opened OutboxDelivery
  import opened OutboxPass

  // ---------------------------------------------------------------------------
  // One claim
  // ---------------------------------------------------------------------------

  /** A row not yet available, under a lease that has not run out, or finished comes out of any claim unchanged. */
  lemma NotYetClaimed(st: Store, limit: int, leaseMs: int, now: int, id: string)
    requires RowsListed(st) && id in st.rows
    requires match st.rows[id].status
             case Pending => st.rows[id].availableAt > now
             case Processing => st.rows[id].leaseUntil.Some? ==> st.rows[id].leaseUntil.value >= now
             case _ => true
    ensures var c := ClaimDue(st, limit, leaseMs, now);
            && (forall i | 0 <= i < |c.rows| :: c.rows[i].id != id)
            && id in c.store.rows && c.store.rows[id] == st.rows[id]
  {
    var c := ClaimDue(st, limit, leaseMs, now);
    forall i | 0 <= i < |c.rows| ensures c.rows[i].id != id {
      ClaimedRow(st, limit, leaseMs, now, i);
    }
    UnclaimedRow(st, limit, leaseMs, now, id);
  }

  /** What a worker is handed: a row one attempt on, leased for at least a second, and otherwise as it was stored. */
  lemma ClaimHandsOut(st: Store, limit: int, leaseMs: int, now: int, i: nat)
    requires RowsListed(st) && i < |ClaimDue(st, limit, leaseMs, now).rows|
    ensures var row := ClaimDue(st, limit, leaseMs, now).rows[i];
            && row.id in st.rows
            && var was := st.rows[row.id];
            && row.status == Processing && row.leaseToken.Some?
            && row.leaseUntil == Some(now + Max(1_000, leaseMs))
            && row.attempts == was.attempts + 1 && row.updatedAt == now
            && row.eventKey == was.eventKey && row.eventType == was.eventType && row.aggregateId == was.aggregateId
            && row.payload == was.payload && row.maxAttempts == was.maxAttempts && row.availableAt == was.availableAt
            && row.lastError == was.lastError && row.processedAt == was.processedAt && row.createdAt == was.createdAt
  {
    ClaimedRow(st, limit, leaseMs, now, i);
    var row := ClaimDue(st, limit, leaseMs, now).rows[i];
    assert row.id == st.rows[row.id].id;
  }

  /** The rows a claim at this time may take: pending and available, or under a lease that has run out. */
  ghost function Ready(st: Store, now: int): set<string> {
    set id | id in st.rows &&
             match st.rows[id].status
             case Pending => st.rows[id].availableAt <= now
             case Processing => st.rows[id].leaseUntil.Some? && st.rows[id].leaseUntil.value < now
             case _ => false
  }

  ghost function ReadyBefore(st: Store, now: int, id: string): set<string>
    requires id in st.rows
  {
    set other | other in Ready(st, now) && Before(st, st.rows[other], st.rows[id])
  }

  lemma {:induction false} FilterOrdered<T(!new)>(keep: T -> bool, s: seq<T>, before: (T, T) -> bool)
    requires forall i, j | 0 <= i < j < |s| :: before(s[i], s[j])
    ensures forall i, j | 0 <= i < j < |Filter(keep, s)| :: before(Filter(keep, s)[i], Filter(keep, s)[j])
  {
    if s == [] {
    } else {
      FilterOrdered(keep, s[1..], before);
      FilterMembers(keep, s[1..]);
      var rest := Filter(keep, s[1..]);
      forall j | 0 <= j < |rest| ensures before(s[0], rest[j]) {
        assert rest[j] in s[1..];
      }
    }
  }

  /** The due rows in queue order. */
  ghost function DueQueue(st: Store, now: int): seq<Row>
    requires RowsListed(st)
  {
    Filter(Due(now), Queue(st))
  }

  lemma DueQueueOrder(st: Store, now: int, i: nat, j: nat)
    requires RowsListed(st) && i < j < |DueQueue(st, now)|
    ensures Before(st, DueQueue(st, now)[i], DueQueue(st, now)[j])
  {
    var before := (a: Row, b: Row) => Before(st, a, b);
    forall m: nat, n: nat | m < n < |Queue(st)| ensures before(Queue(st)[m], Queue(st)[n]) {
      QueueOrder(st, m, n);
    }
    FilterOrdered(Due(now), Queue(st), before);
    assert before(DueQueue(st, now)[i], DueQueue(st, now)[j]);
  }

  lemma BeforeOneWay(st: Store, a: Row, b: Row)
    requires Distinct(st.order) && Before(st, a, b)
    ensures !Before(st, b, a)
  {
  }

  lemma DueQueueHolds(st: Store, now: int)
    requires RowsListed(st)
    ensures DistinctRows(DueQueue(st, now))
    ensures forall row :: row in DueQueue(st, now) <==> row.id in Ready(st, now) && st.rows[row.id] == row
  {
    QueueDistinct(st);
    DueDistinct(Queue(st), now);
    FilterMembers(Due(now), Queue(st));
  }

  /** The rows ahead of the k-th due one are those in the queue before it. */
  lemma AheadInQueue(st: Store, now: int, k: nat)
    requires RowsListed(st) && k < |DueQueue(st, now)|
    ensures var due := DueQueue(st, now);
            due[k].id in st.rows && ReadyBefore(st, now, due[k].id) == ClaimedIds(due[..k])
  {
    var due := DueQueue(st, now);
    DueQueueHolds(st, now);
    assert due[k] in due;
    forall id | id in ReadyBefore(st, now, due[k].id) ensures id in ClaimedIds(due[..k]) {
      assert st.rows[id] in due;
      var i :| 0 <= i < |due| && due[i] == st.rows[id];
      if i > k {
        DueQueueOrder(st, now, k, i);
        BeforeOneWay(st, due[k], due[i]);
      }
      BeforeOneWay(st, due[i], due[k]);
      assert due[..k][i].id == id;
    }
    forall id | id in ClaimedIds(due[..k]) ensures id in ReadyBefore(st, now, due[k].id) {
      var i :| 0 <= i < k && due[..k][i].id == id;
      assert due[i] in due;
      DueQueueOrder(st, now, i, k);
    }
  }

  lemma AheadCount(st: Store, now: int, k: nat)
    requires RowsListed(st) && k < |DueQueue(st, now)|
    ensures DueQueue(st, now)[k].id in st.rows && |ReadyBefore(st, now, DueQueue(st, now)[k].id)| == k
  {
    AheadInQueue(st, now, k);
    DueQueueHolds(st, now);
    ClaimedIdsCount(DueQueue(st, now)[..k]);
  }

  /**
   A claim takes a row exactly when it is ready and fewer ready rows are ahead of it than the claim has room for,
   and leaves any other row unchanged.
   */
  lemma ClaimedExactly(st: Store, limit: int, leaseMs: int, now: int, id: string)
    requires RowsListed(st) && id in st.rows
    ensures IsClaimed(ClaimDue(st, limit, leaseMs, now), id)
            <==> id in Ready(st, now) && |ReadyBefore(st, now, id)| < Max(1, Min(limit, 500))
    ensures var c := ClaimDue(st, limit, leaseMs, now);
            !IsClaimed(c, id) ==> id in c.store.rows && c.store.rows[id] == st.rows[id]
  {
    ReadyTaken(st, limit, leaseMs, now, id);
    if !IsClaimed(ClaimDue(st, limit, leaseMs, now), id) {
      UnclaimedRow(st, limit, leaseMs, now, id);
    }
  }

  lemma ReadyTaken(st: Store, limit: int, leaseMs: int, now: int, id: string)
    requires RowsListed(st) && id in st.rows
    ensures IsClaimed(ClaimDue(st, limit, leaseMs, now), id)
            <==> id in Ready(st, now) && |ReadyBefore(st, now, id)| < Max(1, Min(limit, 500))
  {
    var c, due := ClaimDue(st, limit, leaseMs, now), DueQueue(st, now);
    ClaimExact(st, limit, leaseMs, now);
    DueQueueHolds(st, now);
    if id in Ready(st, now) {
      assert st.rows[id] in due;
      var k :| 0 <= k < |due| && due[k] == st.rows[id];
      AheadCount(st, now, k);
      if k < |c.rows| {
        assert c.rows[k].id == id;
      }
      if i: nat :| i < |c.rows| && c.rows[i].id == id {
        assert c.rows[i].id == due[i].id && i == k;
      }
    } else if i: nat :| i < |c.rows| && c.rows[i].id == id {
      ClaimedRow(st, limit, leaseMs, now, i);
      assert false;
    }
  }

  /** With room for every row, a claim takes every available pending row and every row whose lease has run out. */
  lemma ReadyIsClaimed(st: Store, limit: int, leaseMs: int, now: int, id: string)
    requires RowsListed(st) && id in st.rows && |st.rows| <= Max(1, Min(limit, 500))
    requires || (st.rows[id].status.Pending? && st.rows[id].availableAt <= now)
             || (st.rows[id].status.Processing? && st.rows[id].leaseUntil.Some? && st.rows[id].leaseUntil.value < now)
    ensures IsClaimed(ClaimDue(st, limit, leaseMs, now), id)
  {
    ClaimedExactly(st, limit, leaseMs, now, id);
    var ahead := ReadyBefore(st, now, id);
    assert !Before(st, st.rows[id], st.rows[id]) by {
      if Before(st, st.rows[id], st.rows[id]) {
        BeforeOneWay(st, st.rows[id], st.rows[id]);
      }
    }
    assert ahead < st.rows.Keys;
    SmallerSet(ahead, st.rows.Keys);
  }

  lemma SmallerSet<T>(a: set<T>, b: set<T>)
    requires a < b
    ensures |a| < |b|
  {
    var x :| x in b && x !in a;
    assert a <= b - {x};
    NoLarger(a, b - {x});
  }

  lemma {:induction false} NoLarger<T>(a: set<T>, b: set<T>)
    requires a <= b
    ensures |a| <= |b|
  {
    if a == {} {
    } else {
      var x :| x in a;
      NoLarger(a - {x}, b - {x});
    }
  }

  // ---------------------------------------------------------------------------
  // A lease holds for its time
  // ---------------------------------------------------------------------------

  /** The claim is the row's current one, or an answer to it has been accepted. */
  ghost predicate Undisturbed(w: World, claim: Row) {
    || (claim.id in w.store.rows && w.store.rows[claim.id] == claim)
    || (claim.leaseToken.Some? && claim.leaseToken.value in w.acked)
  }

  lemma AckUndisturbed(w: World, ack: Ack, claim: Row)
    requires Valid(w.store) && Undisturbed(w, claim) && claim.leaseToken.Some?
    ensures Undisturbed(Next(w, Acknowledge(ack)), claim)
  {
    AcknowledgeNext(w, ack);
    if claim.leaseToken.value in w.acked {
    } else if Accepts(w.store, ack) && ack.id == claim.id {
      assert Next(w, Acknowledge(ack)).acked[|w.acked|] == claim.leaseToken.value;
    }
  }

  lemma ClaimUndisturbed(w: World, limit: int, leaseMs: int, now: int, claim: Row)
    requires Valid(w.store) && Undisturbed(w, claim) && claim.status.Processing?
    requires claim.leaseUntil.Some? && now <= claim.leaseUntil.value
    ensures Undisturbed(Next(w, Claim(limit, leaseMs, now)), claim)
  {
    if claim.id in w.store.rows && w.store.rows[claim.id] == claim {
      NotYetClaimed(w.store, limit, leaseMs, now, claim.id);
    }
  }

  lemma EnqueueUndisturbed(w: World, input: Input, now: int, claim: Row)
    requires Valid(w.store) && Undisturbed(w, claim)
    ensures Undisturbed(Next(w, Enqueue(input, now)), claim)
  {
    if claim.id in w.store.rows && w.store.rows[claim.id] == claim {
      EnqueueSparesRow(w.store, input, now, claim.id);
    }
  }

  lemma {:induction false} UndisturbedRun(w: World, ops: seq<Op>, claim: Row)
    requires Inv(w) && Undisturbed(w, claim) && claim.status.Processing?
    requires claim.leaseToken.Some? && claim.leaseUntil.Some?
    requires forall op | op in ops && op.Claim? :: op.now <= claim.leaseUntil.value
    ensures Undisturbed(Run(w, ops), claim)
    decreases |ops|
  {
    if ops == [] {
    } else {
      assert ops[0] in ops;
      match ops[0] {
        case Enqueue(input, now) => EnqueueUndisturbed(w, input, now, claim);
        case Claim(limit, leaseMs, now) => ClaimUndisturbed(w, limit, leaseMs, now, claim);
        case Acknowledge(ack) => AckUndisturbed(w, ack, claim);
      }
      NextInv(w, ops[0]);
      UndisturbedRun(Next(w, ops[0]), ops[1..], claim);
    }
  }

  /**
   A worker has the row it claimed to itself: whatever other workers do, until an answer to the claim is accepted
   no claim at any time up to the end of the lease changes the row.
   */
  lemma LeaseHolds(past: seq<Op>, limit: int, leaseMs: int, now: int, i: nat, ops: seq<Op>)
    requires i < |ClaimDue(Run(Empty(), past).store, limit, leaseMs, now).rows|
    requires forall op | op in ops && op.Claim? :: op.now <= now + Max(1_000, leaseMs)
    ensures Inv(Run(Empty(), past))
    ensures var claim := ClaimDue(Run(Empty(), past).store, limit, leaseMs, now).rows[i];
            var t := Run(Next(Run(Empty(), past), Claim(limit, leaseMs, now)), ops);
            && claim.leaseToken.Some?
            && (claim.leaseToken.value !in t.acked ==> claim.id in t.store.rows && t.store.rows[claim.id] == claim)
  {
    EmptyInv();
    RunInv(Empty(), past);
    var w := Run(Empty(), past);
    var claim := ClaimDue(w.store, limit, leaseMs, now).rows[i];
    ClaimedRow(w.store, limit, leaseMs, now, i);
    ClaimHandsOut(w.store, limit, leaseMs, now, i);
    NextInv(w, Claim(limit, leaseMs, now));
    UndisturbedRun(Next(w, Claim(limit, leaseMs, now)), ops, claim);
  }

  lemma PollIssues(w: World, limit: int, now: int)
    requires OutboxLeases.Inv(w)
    ensures ServiceNext(w, Poll(limit, now)).issued ==
            w.issued + Issues(ClaimDue(w.store, limit, OUTBOX_LEASE_MS, now).rows, w.store.sequence)
  {
  }

  /** Workers of the delivery service claim for a minute. */
  lemma PollLeases(w: World, limit: int, now: int, i: nat)
    requires OutboxLeases.Inv(w) && |w.issued| <= i < |ServiceNext(w, Poll(limit, now)).issued|
    ensures ServiceNext(w, Poll(limit, now)).issued[i].row.leaseUntil == Some(now + 60_000)
  {
    PollIssues(w, limit, now);
    ClaimHandsOut(w.store, limit, OUTBOX_LEASE_MS, now, i - |w.issued|);
  }
}
