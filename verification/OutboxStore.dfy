/** The in-memory outbox store: fields updated in place, proved against the operations of SettlementOutbox. */
module OutboxStore {
  import opened Prelude
  import opened SettlementOutbox

  /** The claims still to come from queue[i..] complete the whole. */
  ghost predicate Remaining(whole: Claims, queue: seq<Row>, i: nat, room: int, claimed: seq<Row>, st: Store,
                            leaseMs: int, now: int)
    requires i <= |queue|
  {
    var rest := ClaimFrom(queue[i..], room, st, leaseMs, now);
    whole == Claims(claimed + rest.rows, rest.store)
  }

  lemma NoneClaimed(queue: seq<Row>, room: int, st: Store, leaseMs: int, now: int)
    ensures Remaining(ClaimFrom(queue, room, st, leaseMs, now), queue, 0, room, [], st, leaseMs, now)
  {
    assert queue[0..] == queue;
  }

  lemma OneMoreClaimed(whole: Claims, queue: seq<Row>, i: nat, room: int, claimed: seq<Row>, st: Store, leaseMs: int,
                       now: int)
    requires i < |queue| && room > 0 && IsDue(queue[i], now)
    requires Remaining(whole, queue, i, room, claimed, st, leaseMs, now)
    ensures var row := Leased(queue[i], st.sequence + 1, leaseMs, now);
            Remaining(whole, queue, i + 1, room - 1, claimed + [row], Storing(st, row), leaseMs, now)
  {
    var row := Leased(queue[i], st.sequence + 1, leaseMs, now);
    assert queue[i..][1..] == queue[i + 1..];
    Associative(claimed, [row], ClaimFrom(queue[i + 1..], room - 1, Storing(st, row), leaseMs, now).rows);
  }

  lemma NotClaimed(whole: Claims, queue: seq<Row>, i: nat, room: int, claimed: seq<Row>, st: Store, leaseMs: int,
                   now: int)
    requires i < |queue| && !IsDue(queue[i], now)
    requires Remaining(whole, queue, i, room, claimed, st, leaseMs, now)
    ensures Remaining(whole, queue, i + 1, room, claimed, st, leaseMs, now)
  {
    assert queue[i..][1..] == queue[i + 1..];
  }

  lemma AllClaimed(whole: Claims, queue: seq<Row>, i: nat, room: int, claimed: seq<Row>, st: Store, leaseMs: int,
                   now: int)
    requires i == |queue| || (i < |queue| && room <= 0)
    requires Remaining(whole, queue, i, room, claimed, st, leaseMs, now)
    ensures whole == Claims(claimed, st)
  {
  }

  class InMemorySettlementOutboxStore {
    var rows: map<string, Row>
    var order: seq<string>
    var keys: map<string, string>
    var sequence: nat

    constructor ()
      ensures Snapshot() == Store(map[], [], map[], 0) && Valid(Snapshot())
    {
      rows := map[];
      order := [];
      keys := map[];
      sequence := 0;
    }

    function Snapshot(): Store
      reads this
    {
      Store(rows, order, keys, sequence)
    }

    method Enqueue(input: Input, now: int) returns (row: Row)
      requires Valid(Snapshot())
      modifies this
      ensures Snapshot() == Enqueued(old(Snapshot()), input, now) && Valid(Snapshot())
      ensures row.id in rows && rows[row.id] == row && row.eventKey == input.eventKey
    {
      EnqueueValid(Snapshot(), input, now);
      if input.eventKey in keys {
        return rows[keys[input.eventKey]];
      }
      sequence := sequence + 1;
      row := NewRow(RowId(sequence), input, now);
      rows := rows[row.id := row];
      order := order + [row.id];
      keys := keys[row.eventKey := row.id];
    }

    /** The body of the claiming loop: one row leased in place. */
    method Lease(row: Row, leaseMs: int, now: int) returns (leased: Row)
      modifies this
      ensures leased == Leased(row, old(sequence) + 1, leaseMs, now)
      ensures Snapshot() == Storing(old(Snapshot()), leased)
    {
      var token := LeaseToken(row.id, sequence + 1);
      sequence := sequence + 1;
      leased := row.(status := Processing,
                     leaseUntil := Some(now + Max(MIN_LEASE_MS, leaseMs)),
                     leaseToken := Some(token),
                     updatedAt := now,
                     attempts := row.attempts + 1);
      rows := rows[row.id := leased];
    }

    /** The claiming loop over the sorted rows. */
    method ClaimFromQueue(queue: seq<Row>, limit: int, leaseMs: int, now: int) returns (claimed: seq<Row>)
      modifies this
      ensures Claims(claimed, Snapshot()) == ClaimFrom(queue, ClaimBound(limit), old(Snapshot()), leaseMs, now)
    {
      ghost var whole, room := ClaimFrom(queue, ClaimBound(limit), Snapshot(), leaseMs, now), ClaimBound(limit);
      NoneClaimed(queue, room, Snapshot(), leaseMs, now);
      claimed := [];
      var i := 0;
      while i < |queue|
        invariant 0 <= i <= |queue|
        invariant 0 <= room == ClaimBound(limit) - |claimed|
        invariant Remaining(whole, queue, i, room, claimed, Snapshot(), leaseMs, now)
      {
        if |claimed| >= Max(1, Min(limit, MAX_CLAIMS)) {
          break;
        }
        ghost var before := Snapshot();
        if IsDue(queue[i], now) {
          var row := Lease(queue[i], leaseMs, now);
          OneMoreClaimed(whole, queue, i, room, claimed, before, leaseMs, now);
          claimed, room := claimed + [row], room - 1;
        } else {
          NotClaimed(whole, queue, i, room, claimed, before, leaseMs, now);
        }
        i := i + 1;
      }
      AllClaimed(whole, queue, i, room, claimed, Snapshot(), leaseMs, now);
    }

    method ClaimDue(limit: int, leaseMs: int, now: int) returns (claimed: seq<Row>)
      requires Valid(Snapshot())
      modifies this
      ensures var c := SettlementOutbox.ClaimDue(old(Snapshot()), limit, leaseMs, now);
              claimed == c.rows && Snapshot() == c.store
      ensures Valid(Snapshot())
    {
      ClaimValid(Snapshot(), limit, leaseMs, now);
      claimed := ClaimFromQueue(Queue(Snapshot()), limit, leaseMs, now);
    }

    method MarkSucceeded(id: string, leaseToken: string, processedAt: int) returns (ok: bool)
      modifies this
      ensures ok == Acknowledges(old(Snapshot()), id, leaseToken)
      ensures Snapshot() == Acknowledged(old(Snapshot()), Succeed(id, leaseToken, processedAt))
      ensures ok ==> && id in rows && rows[id].status == Succeeded && rows[id].processedAt == Some(processedAt)
                     && rows[id].leaseUntil.None? && rows[id].leaseToken.None?
    {
      if id !in rows || rows[id].status != Processing || rows[id].leaseToken != Some(leaseToken) {
        return false;
      }
      rows := rows[id := rows[id].(status := Succeeded, leaseUntil := None, leaseToken := None,
                                   processedAt := Some(processedAt), updatedAt := processedAt)];
      return true;
    }

    method MarkFailed(id: string, leaseToken: string, error: string, retryAt: int, dead: bool, now: int)
      returns (ok: bool)
      modifies this
      ensures ok == Acknowledges(old(Snapshot()), id, leaseToken)
      ensures Snapshot() == Acknowledged(old(Snapshot()), Fail(id, leaseToken, error, retryAt, dead, now))
      ensures ok ==> && id in rows && rows[id].status == (if dead then Dead else Pending)
                     && rows[id].availableAt == retryAt && rows[id].leaseUntil.None? && rows[id].leaseToken.None?
    {
      if id !in rows || rows[id].status != Processing || rows[id].leaseToken != Some(leaseToken) {
        return false;
      }
      rows := rows[id := rows[id].(status := if dead then Dead else Pending, availableAt := retryAt,
                                   leaseUntil := None, leaseToken := None,
                                   lastError := Some(Truncate(error)), updatedAt := now)];
      return true;
    }
  }
}
