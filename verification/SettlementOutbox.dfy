/** The settlement outbox store: what each operation does to the rows. */
module SettlementOutbox {
  import opened Prelude
  import opened Sorting
  import opened Digits

  datatype Status = Pending | Processing | Succeeded | Dead

  /** Times are milliseconds since the epoch. */
  datatype Row = Row(
    id: string,
    eventKey: string,
    eventType: string,
    aggregateId: string,
    payload: string,
    status: Status,
    attempts: int,
    maxAttempts: int,
    availableAt: int,
    leaseUntil: Option<int>,
    leaseToken: Option<string>,
    lastError: Option<string>,
    processedAt: Option<int>,
    createdAt: int,
    updatedAt: int)

  datatype Input = Input(
    eventKey: string, eventType: string, aggregateId: string, payload: string, maxAttempts: int, availableAt: int)

  /** `order` is the insertion order of `rows`, which JavaScript maps remember. */
  datatype Store = Store(rows: map<string, Row>, order: seq<string>, keys: map<string, string>, sequence: nat)

  const MAX_CLAIMS := 500
  const MIN_LEASE_MS := 1_000
  const MAX_ERROR_LENGTH := 4_000

  function RowId(n: nat): string {
    "memory-outbox" + "-" + NatToString(n)
  }

  function LeaseToken(id: string, n: nat): string {
    "lease-" + id + "-" + NatToString(n)
  }

  function Truncate(error: string): string {
    if |error| <= MAX_ERROR_LENGTH then error else error[..MAX_ERROR_LENGTH]
  }

  // ---------------------------------------------------------------------------
  // Enqueue
  // ---------------------------------------------------------------------------

  function NewRow(id: string, input: Input, now: int): Row {
    Row(id, input.eventKey, input.eventType, input.aggregateId, input.payload, Pending, 0, input.maxAttempts,
        input.availableAt, None, None, None, None, now, now)
  }

  function Enqueued(st: Store, input: Input, now: int): Store {
    if input.eventKey in st.keys then st
    else
      var id := RowId(st.sequence + 1);
      Store(st.rows[id := NewRow(id, input, now)], st.order + [id], st.keys[input.eventKey := id], st.sequence + 1)
  }

  // ---------------------------------------------------------------------------
  // Claim
  // ---------------------------------------------------------------------------

  predicate IsDue(row: Row, now: int) {
    || (row.status.Pending? && row.availableAt <= now)
    || (row.status.Processing? && row.leaseUntil.Some? && row.leaseUntil.value < now)
  }

  function Due(now: int): Row -> bool {
    (row: Row) => IsDue(row, now)
  }

  function OlderFirst(): (Row, Row) -> bool {
    (a: Row, b: Row) => a.createdAt <= b.createdAt
  }

  function ClaimBound(limit: int): (b: int)
    ensures 1 <= b <= MAX_CLAIMS
  {
    Max(1, Min(limit, MAX_CLAIMS))
  }

  function Leased(row: Row, n: nat, leaseMs: int, now: int): Row {
    row.(status := Processing,
         leaseUntil := Some(now + Max(MIN_LEASE_MS, leaseMs)),
         leaseToken := Some(LeaseToken(row.id, n)),
         updatedAt := now,
         attempts := row.attempts + 1)
  }

  /** The rows in insertion order. */
  function Values(st: Store): (r: seq<Row>)
    requires RowsListed(st)
    ensures |r| == |st.order| && forall i | 0 <= i < |r| :: r[i] == st.rows[st.order[i]]
  {
    seq(|st.order|, i requires 0 <= i < |st.order| => assert st.order[i] in st.order; st.rows[st.order[i]])
  }

  /** The rows oldest first, ties in insertion order. */
  function Queue(st: Store): seq<Row>
    requires RowsListed(st)
  {
    StableSort(Values(st), OlderFirst())
  }

  datatype Claims = Claims(rows: seq<Row>, store: Store)

  /** The store once a claimed row has been written back. */
  function Storing(st: Store, row: Row): Store {
    Store(st.rows[row.id := row], st.order, st.keys, st.sequence + 1)
  }

  /** The claiming loop over a queue with room for some more claims. */
  function ClaimFrom(queue: seq<Row>, room: int, st: Store, leaseMs: int, now: int): Claims
    decreases |queue|
  {
    if queue == [] || room <= 0 then Claims([], st)
    else if !IsDue(queue[0], now) then ClaimFrom(queue[1..], room, st, leaseMs, now)
    else
      var row := Leased(queue[0], st.sequence + 1, leaseMs, now);
      var rest := ClaimFrom(queue[1..], room - 1, Storing(st, row), leaseMs, now);
      Claims([row] + rest.rows, rest.store)
  }

  function ClaimDue(st: Store, limit: int, leaseMs: int, now: int): Claims
    requires RowsListed(st)
  {
    ClaimFrom(Queue(st), ClaimBound(limit), st, leaseMs, now)
  }

  // ---------------------------------------------------------------------------
  // Acknowledge
  // ---------------------------------------------------------------------------

  /** The in-memory guard: the row exists, is being processed and carries this token. */
  predicate Acknowledges(st: Store, id: string, token: string) {
    id in st.rows && st.rows[id].status.Processing? && st.rows[id].leaseToken == Some(token)
  }

  function SucceededRow(row: Row, at: int): Row {
    row.(status := Succeeded, leaseUntil := None, leaseToken := None, processedAt := Some(at), updatedAt := at)
  }

  function FailedRow(row: Row, error: string, retryAt: int, dead: bool, now: int): Row {
    row.(status := if dead then Dead else Pending, availableAt := retryAt, leaseUntil := None, leaseToken := None,
         lastError := Some(Truncate(error)), updatedAt := now)
  }

  /** `markSucceeded` and `markFailed` with their arguments. */
  datatype Ack =
    | Succeed(id: string, token: string, at: int)
    | Fail(id: string, token: string, error: string, retryAt: int, dead: bool, now: int)

  predicate Accepts(st: Store, ack: Ack) {
    Acknowledges(st, ack.id, ack.token)
  }

  function AckRow(row: Row, ack: Ack): Row {
    match ack
    case Succeed(_, _, at) => SucceededRow(row, at)
    case Fail(_, _, error, retryAt, dead, now) => FailedRow(row, error, retryAt, dead, now)
  }

  function Acknowledged(st: Store, ack: Ack): Store {
    if Accepts(st, ack) then st.(rows := st.rows[ack.id := AckRow(st.rows[ack.id], ack)]) else st
  }

  /** The SQL guard compares id and token only. */
  predicate SqlAcknowledges(st: Store, id: string, token: string) {
    id in st.rows && st.rows[id].leaseToken == Some(token)
  }

  // ---------------------------------------------------------------------------
  // Validity
  // ---------------------------------------------------------------------------

  ghost predicate RowsListed(st: Store) {
    && Distinct(st.order)
    && (forall id :: id in st.order <==> id in st.rows)
    && (forall id | id in st.rows :: st.rows[id].id == id)
  }

  /** `keys` and `rows` are mutually inverse: one row per event key. */
  ghost predicate IndexAgrees(st: Store) {
    && (forall key | key in st.keys :: st.keys[key] in st.rows && st.rows[st.keys[key]].eventKey == key)
    && (forall id | id in st.rows :: st.rows[id].eventKey in st.keys && st.keys[st.rows[id].eventKey] == id)
  }

  ghost predicate NumberedBy(id: string, sequence: nat) {
    exists n: nat :: n <= sequence && id == RowId(n)
  }

  ghost predicate Valid(st: Store) {
    && RowsListed(st) && IndexAgrees(st)
    && (forall id | id in st.rows :: NumberedBy(id, st.sequence))
  }

  lemma RowIdInjective(m: nat, n: nat)
    requires RowId(m) == RowId(n)
    ensures m == n
  {
    DashedNameInjective("memory-outbox", m, "memory-outbox", n);
  }

  lemma LeaseTokenInjective(id: string, m: nat, other: string, n: nat)
    requires LeaseToken(id, m) == LeaseToken(other, n)
    ensures id == other && m == n
  {
    DashedNameInjective("lease-" + id, m, "lease-" + other, n);
    assert ("lease-" + id)[6..] == id && ("lease-" + other)[6..] == other;
  }

  // ---------------------------------------------------------------------------
  // What a claim does, exactly
  // ---------------------------------------------------------------------------

  /** The rows are the first ones of `due`, leased under consecutive numbers. */
  ghost predicate LeasesOf(rows: seq<Row>, due: seq<Row>, sequence: nat, leaseMs: int, now: int) {
    && |rows| <= |due|
    && forall i | 0 <= i < |rows| :: rows[i] == Leased(due[i], sequence + 1 + i, leaseMs, now)
  }

  ghost predicate DistinctRows(queue: seq<Row>) {
    forall i, j | 0 <= i < j < |queue| :: queue[i].id != queue[j].id
  }

  ghost predicate NoneNamed(id: string, rows: seq<Row>) {
    forall i | 0 <= i < |rows| :: rows[i].id != id
  }

  /** `after` holds each claimed row, and otherwise what `before` holds. */
  ghost predicate Overwritten(before: map<string, Row>, claimed: seq<Row>, after: map<string, Row>) {
    && after.Keys == before.Keys
    && (forall i | 0 <= i < |claimed| :: claimed[i].id in after && after[claimed[i].id] == claimed[i])
    && (forall id | id in before && NoneNamed(id, claimed) :: after[id] == before[id])
  }

  lemma OverwrittenStep(before: map<string, Row>, row: Row, rest: seq<Row>, after: map<string, Row>)
    requires row.id in before && Overwritten(before[row.id := row], rest, after) && NoneNamed(row.id, rest)
    ensures Overwritten(before, [row] + rest, after)
  {
    var all := [row] + rest;
    assert all[0] == row && all[1..] == rest;
    forall i | 0 <= i < |all| ensures all[i].id in after && after[all[i].id] == all[i] {
      if i > 0 {
        assert all[i] == rest[i - 1];
      }
    }
    forall id | id in before && NoneNamed(id, all) ensures after[id] == before[id] {
      assert all[0].id != id && NoneNamed(id, all[1..]);
    }
  }

  /** The claims c lease the first rows of `due`, as many as there is room for. */
  ghost predicate LeasesFirst(st: Store, due: seq<Row>, room: nat, leaseMs: int, now: int, c: Claims) {
    && |c.rows| == Min(room, |due|)
    && LeasesOf(c.rows, due, st.sequence, leaseMs, now)
    && c.store.order == st.order && c.store.keys == st.keys && c.store.sequence == st.sequence + |c.rows|
  }

  /** The claims c lease the first rows of `due` and write them over their former versions. */
  ghost predicate Took(st: Store, due: seq<Row>, room: nat, leaseMs: int, now: int, c: Claims) {
    LeasesFirst(st, due, room, leaseMs, now, c) && Overwritten(st.rows, c.rows, c.store.rows)
  }

  lemma LeasesOneMore(row: Row, rest: seq<Row>, due: seq<Row>, sequence: nat, leaseMs: int, now: int)
    requires due != [] && row == Leased(due[0], sequence + 1, leaseMs, now)
    requires LeasesOf(rest, due[1..], sequence + 1, leaseMs, now)
    ensures LeasesOf([row] + rest, due, sequence, leaseMs, now)
  {
    var all := [row] + rest;
    forall i | 0 <= i < |all| ensures all[i] == Leased(due[i], sequence + 1 + i, leaseMs, now) {
      if i > 0 {
        assert all[i] == rest[i - 1] && due[i] == due[1..][i - 1];
      }
    }
  }

  lemma DueHead(queue: seq<Row>, now: int)
    requires queue != []
    ensures var due, more := Filter(Due(now), queue), Filter(Due(now), queue[1..]);
            if IsDue(queue[0], now) then due != [] && due[0] == queue[0] && due[1..] == more else due == more
  {
  }

  /** Distinct rows of a store with these ids, taken one at a time. */
  ghost predicate Claimable(queue: seq<Row>, ids: set<string>) {
    queue == [] || (queue[0].id in ids && NoneNamed(queue[0].id, queue[1..]) && Claimable(queue[1..], ids))
  }

  lemma {:induction false} DistinctClaimable(queue: seq<Row>, ids: set<string>)
    requires DistinctRows(queue) && forall row | row in queue :: row.id in ids
    ensures Claimable(queue, ids)
  {
    if queue == [] {
    } else {
      assert forall row | row in queue[1..] :: row in queue;
      DistinctClaimable(queue[1..], ids);
    }
  }

  lemma LeasesHead(st: Store, due: seq<Row>, room: nat, leaseMs: int, now: int, rest: Claims)
    requires due != [] && room > 0
    requires LeasesFirst(Storing(st, Leased(due[0], st.sequence + 1, leaseMs, now)), due[1..], room - 1, leaseMs, now,
                         rest)
    ensures LeasesFirst(st, due, room, leaseMs, now,
                        Claims([Leased(due[0], st.sequence + 1, leaseMs, now)] + rest.rows, rest.store))
  {
    LeasesOneMore(Leased(due[0], st.sequence + 1, leaseMs, now), rest.rows, due, st.sequence, leaseMs, now);
  }

  /** Of the loop: which rows it leases, under which numbers. */
  lemma {:induction false} ClaimsLease(queue: seq<Row>, room: nat, st: Store, leaseMs: int, now: int)
    ensures LeasesFirst(st, Filter(Due(now), queue), room, leaseMs, now, ClaimFrom(queue, room, st, leaseMs, now))
    decreases |queue|
  {
    if queue == [] || room == 0 {
    } else {
      DueHead(queue, now);
      if IsDue(queue[0], now) {
        var next := Storing(st, Leased(queue[0], st.sequence + 1, leaseMs, now));
        ClaimsLease(queue[1..], room - 1, next, leaseMs, now);
        LeasesHead(st, Filter(Due(now), queue), room, leaseMs, now,
                   ClaimFrom(queue[1..], room - 1, next, leaseMs, now));
      } else {
        ClaimsLease(queue[1..], room, st, leaseMs, now);
      }
    }
  }

  /** A row that is not in the queue is not claimed. */
  lemma ClaimsFromQueue(queue: seq<Row>, room: nat, st: Store, leaseMs: int, now: int, id: string)
    requires NoneNamed(id, queue)
    ensures NoneNamed(id, ClaimFrom(queue, room, st, leaseMs, now).rows)
  {
    var due, rows := Filter(Due(now), queue), ClaimFrom(queue, room, st, leaseMs, now).rows;
    ClaimsLease(queue, room, st, leaseMs, now);
    FilterMembers(Due(now), queue);
    forall i | 0 <= i < |rows| ensures rows[i].id != id {
      assert due[i] in queue;
    }
  }

  lemma StoringKeepsIds(st: Store, row: Row)
    requires row.id in st.rows
    ensures Storing(st, row).rows.Keys == st.rows.Keys
  {
  }

  /** Of the loop: what it writes to the rows. */
  lemma {:induction false} ClaimsOverwrite(queue: seq<Row>, room: nat, st: Store, leaseMs: int, now: int)
    requires Claimable(queue, st.rows.Keys)
    ensures var c := ClaimFrom(queue, room, st, leaseMs, now); Overwritten(st.rows, c.rows, c.store.rows)
    decreases |queue|
  {
    if queue == [] || room == 0 {
    } else if !IsDue(queue[0], now) {
      ClaimsOverwrite(queue[1..], room, st, leaseMs, now);
    } else {
      var row := Leased(queue[0], st.sequence + 1, leaseMs, now);
      var next := Storing(st, row);
      var rest := ClaimFrom(queue[1..], room - 1, next, leaseMs, now);
      StoringKeepsIds(st, row);
      ClaimsOverwrite(queue[1..], room - 1, next, leaseMs, now);
      ClaimsFromQueue(queue[1..], room - 1, next, leaseMs, now, row.id);
      OverwrittenStep(st.rows, row, rest.rows, rest.store.rows);
    }
  }

  lemma QueueDistinct(st: Store)
    requires RowsListed(st)
    ensures DistinctRows(Queue(st))
    ensures forall row :: row in Queue(st) <==> row.id in st.rows && st.rows[row.id] == row
  {
    var vs := Values(st);
    forall i, j | 0 <= i < j < |vs| ensures vs[i].id != vs[j].id {
      assert st.order[i] in st.order && st.order[j] in st.order;
    }
    SortDistinct(vs, OlderFirst());
    forall row | row in Queue(st) ensures row.id in st.rows && st.rows[row.id] == row {
      var i :| 0 <= i < |vs| && vs[i] == row;
      assert st.order[i] in st.order;
    }
    forall id | id in st.rows ensures st.rows[id] in Queue(st) {
      var i :| 0 <= i < |st.order| && st.order[i] == id;
      assert vs[i] == st.rows[id];
    }
    var q := Queue(st);
    forall i, j | 0 <= i < j < |q| ensures q[i].id != q[j].id {
      assert q[i] in q && q[j] in q;
    }
  }

  /** a is older than b, or as old and enqueued earlier. */
  ghost predicate Before(st: Store, a: Row, b: Row) {
    a.createdAt < b.createdAt || (a.createdAt == b.createdAt && Precedes(st.order, a.id, b.id))
  }

  /** The queue lists rows by creation time and, within it, by insertion. */
  lemma QueueOrder(st: Store, i: nat, j: nat)
    requires RowsListed(st) && i < j < |Queue(st)|
    ensures Before(st, Queue(st)[i], Queue(st)[j])
  {
    var q := Queue(st);
    assert TotalPreorder(OlderFirst());
    SortSorts(Values(st), OlderFirst());
    assert OlderFirst()(q[i], q[j]);
    if q[i].createdAt == q[j].createdAt {
      SortStable(Values(st), OlderFirst(), i, j);
      var vs := Values(st);
      var a, b :| 0 <= a < b < |vs| && vs[a] == q[i] && vs[b] == q[j];
      assert st.order[a] in st.order && st.order[b] in st.order;
    }
  }

  /**
   `claimDue` takes exactly the first min(bound, number due) due rows of the queue,
   leases each under a fresh number with one more attempt, and changes nothing else.
   */
  lemma ClaimExact(st: Store, limit: int, leaseMs: int, now: int)
    requires RowsListed(st)
    ensures Took(st, Filter(Due(now), Queue(st)), ClaimBound(limit), leaseMs, now, ClaimDue(st, limit, leaseMs, now))
  {
    QueueDistinct(st);
    DistinctClaimable(Queue(st), st.rows.Keys);
    ClaimsLease(Queue(st), ClaimBound(limit), st, leaseMs, now);
    ClaimsOverwrite(Queue(st), ClaimBound(limit), st, leaseMs, now);
  }

  lemma DueRow(st: Store, now: int, i: nat)
    requires RowsListed(st) && i < |Filter(Due(now), Queue(st))|
    ensures var row := Filter(Due(now), Queue(st))[i];
            row.id in st.rows && st.rows[row.id] == row && IsDue(row, now)
  {
    QueueDistinct(st);
    FilterMembers(Due(now), Queue(st));
    assert Filter(Due(now), Queue(st))[i] in Queue(st);
  }

  /** The i-th claim is some due row of the store under a new lease. */
  lemma ClaimedRow(st: Store, limit: int, leaseMs: int, now: int, i: nat)
    requires RowsListed(st) && i < |ClaimDue(st, limit, leaseMs, now).rows|
    ensures var c := ClaimDue(st, limit, leaseMs, now);
            var id := c.rows[i].id;
            && id in st.rows && IsDue(st.rows[id], now)
            && c.rows[i] == Leased(st.rows[id], st.sequence + 1 + i, leaseMs, now)
            && id in c.store.rows && c.store.rows[id] == c.rows[i]
  {
    ClaimExact(st, limit, leaseMs, now);
    var due := Filter(Due(now), Queue(st));
    var c := ClaimDue(st, limit, leaseMs, now);
    assert c.rows[i] == Leased(due[i], st.sequence + 1 + i, leaseMs, now);
    DueRow(st, now, i);
  }

  ghost predicate IsClaimed(c: Claims, id: string) {
    exists i: nat :: i < |c.rows| && c.rows[i].id == id
  }

  lemma UnclaimedRow(st: Store, limit: int, leaseMs: int, now: int, id: string)
    requires RowsListed(st) && id in st.rows
    requires !IsClaimed(ClaimDue(st, limit, leaseMs, now), id)
    ensures id in ClaimDue(st, limit, leaseMs, now).store.rows
    ensures ClaimDue(st, limit, leaseMs, now).store.rows[id] == st.rows[id]
  {
    ClaimExact(st, limit, leaseMs, now);
  }

  // ---------------------------------------------------------------------------
  // Every operation keeps the store valid
  // ---------------------------------------------------------------------------

  lemma NextIdFresh(st: Store)
    requires forall id | id in st.rows :: NumberedBy(id, st.sequence)
    ensures RowId(st.sequence + 1) !in st.rows
  {
    var id := RowId(st.sequence + 1);
    if id in st.rows {
      var n: nat :| n <= st.sequence && id == RowId(n);
      RowIdInjective(n, st.sequence + 1);
    }
  }

  lemma NumberedLater(id: string, m: nat, n: nat)
    requires NumberedBy(id, m) && m <= n
    ensures NumberedBy(id, n)
  {
  }

  lemma EnqueueListed(st: Store, input: Input, now: int)
    requires RowsListed(st) && RowId(st.sequence + 1) !in st.rows
    ensures RowsListed(Enqueued(st, input, now))
  {
    if input.eventKey !in st.keys {
      assert RowId(st.sequence + 1) !in st.order;
    }
  }

  lemma EnqueueIndex(st: Store, input: Input, now: int)
    requires IndexAgrees(st) && RowId(st.sequence + 1) !in st.rows
    ensures IndexAgrees(Enqueued(st, input, now))
  {
  }

  lemma EnqueueNumbered(st: Store, input: Input, now: int)
    requires forall id | id in st.rows :: NumberedBy(id, st.sequence)
    ensures var t := Enqueued(st, input, now); forall id | id in t.rows :: NumberedBy(id, t.sequence)
  {
    var t := Enqueued(st, input, now);
    forall id | id in t.rows ensures NumberedBy(id, t.sequence) {
      if id in st.rows {
        NumberedLater(id, st.sequence, t.sequence);
      } else {
        assert id == RowId(t.sequence);
      }
    }
  }

  lemma EnqueueValid(st: Store, input: Input, now: int)
    requires Valid(st)
    ensures Valid(Enqueued(st, input, now))
  {
    NextIdFresh(st);
    EnqueueListed(st, input, now);
    EnqueueIndex(st, input, now);
    EnqueueNumbered(st, input, now);
  }

  lemma ClaimValid(st: Store, limit: int, leaseMs: int, now: int)
    requires Valid(st)
    ensures Valid(ClaimDue(st, limit, leaseMs, now).store)
  {
    ClaimExact(st, limit, leaseMs, now);
    var c := ClaimDue(st, limit, leaseMs, now);
    forall id | id in st.rows
      ensures c.store.rows[id].id == id && c.store.rows[id].eventKey == st.rows[id].eventKey
      ensures NumberedBy(id, c.store.sequence)
    {
      if i: nat :| i < |c.rows| && c.rows[i].id == id {
        ClaimedRow(st, limit, leaseMs, now, i);
      } else {
        UnclaimedRow(st, limit, leaseMs, now, id);
      }
      NumberedLater(id, st.sequence, c.store.sequence);
    }
  }

  lemma AcknowledgeValid(st: Store, ack: Ack)
    requires Valid(st)
    ensures Valid(Acknowledged(st, ack))
  {
    if Accepts(st, ack) {
      RewriteValid(st, ack.id, AckRow(st.rows[ack.id], ack));
    }
  }

  /** A new version of a row under its id and event key. */
  lemma RewriteValid(st: Store, id: string, row: Row)
    requires Valid(st) && id in st.rows && row.id == id && row.eventKey == st.rows[id].eventKey
    ensures Valid(st.(rows := st.rows[id := row]))
  {
    var t := st.(rows := st.rows[id := row]);
    forall other | other in t.rows ensures NumberedBy(other, t.sequence) {
      assert NumberedBy(other, st.sequence);
    }
  }
}
