/**
 A poison message: a row whose handler throws every time. The in-memory claim counts
 attempts and buries it; the SQL claim does not count, and the row is retried for ever.
 */
module OutboxPoison {
  import opened Prelude
  import opened SettlementOutbox
  import opened OutboxDelivery

  /** One claim of the row and the exception its handler throws. `now` is late enough for the row to be due. */
  datatype Round = Round(number: nat, token: string, now: int, error: string, clock: int, wall: int)

  /** What the SQL statement writes into a claimed row. */
  function SqlLeased(row: Row, token: string, now: int): Row {
    row.(status := Processing, leaseUntil := Some(now + Max(MIN_LEASE_MS, OUTBOX_LEASE_MS)),
         leaseToken := Some(token), updatedAt := now)
  }

  function Failing(r: Round): Attempt {
    Attempt(true, Threw(r.error), r.clock, r.wall)
  }

  function MemoryRound(row: Row, r: Round): Row {
    if row.status.Pending? then Settled(Leased(row, r.number, OUTBOX_LEASE_MS, r.now), Failing(r)) else row
  }

  function SqlRound(row: Row, r: Round): Row {
    if row.status.Pending? then Settled(SqlLeased(row, r.token, r.now), Failing(r)) else row
  }

  function MemoryRounds(row: Row, rounds: seq<Round>): Row
    decreases |rounds|
  {
    if rounds == [] then row else MemoryRounds(MemoryRound(row, rounds[0]), rounds[1..])
  }

  function SqlRounds(row: Row, rounds: seq<Round>): Row
    decreases |rounds|
  {
    if rounds == [] then row else SqlRounds(SqlRound(row, rounds[0]), rounds[1..])
  }

  lemma {:induction false} DeadStaysDead(row: Row, rounds: seq<Round>)
    requires row.status.Dead?
    ensures MemoryRounds(row, rounds) == row && SqlRounds(row, rounds) == row
    decreases |rounds|
  {
    if rounds == [] {
    } else {
      DeadStaysDead(row, rounds[1..]);
    }
  }

  /** In memory the row dies exactly when its attempts reach the allowance, and not before. */
  lemma {:induction false} InMemoryPoisonDies(row: Row, rounds: seq<Round>)
    requires row.status.Pending? && rounds != []
    ensures var after := MemoryRounds(row, rounds);
            after.status == if row.attempts + |rounds| >= row.maxAttempts then Dead else Pending
    decreases |rounds|
  {
    var next := MemoryRound(row, rounds[0]);
    assert next.attempts == row.attempts + 1 && next.maxAttempts == row.maxAttempts;
    if next.status.Dead? {
      DeadStaysDead(next, rounds[1..]);
    } else if |rounds| > 1 {
      InMemoryPoisonDies(next, rounds[1..]);
    } else {
      assert MemoryRounds(next, rounds[1..]) == next;
    }
  }

  /** Under the SQL claim it dies only if it had no attempts left at the start; else no number of failures kills it. */
  lemma {:induction false} SqlPoisonNeverDies(row: Row, rounds: seq<Round>)
    requires row.status.Pending? && rounds != []
    ensures var after := SqlRounds(row, rounds);
            && after.attempts == row.attempts
            && after.status == if row.attempts >= row.maxAttempts then Dead else Pending
    decreases |rounds|
  {
    var next := SqlRound(row, rounds[0]);
    assert next.attempts == row.attempts && next.maxAttempts == row.maxAttempts;
    if next.status.Dead? {
      DeadStaysDead(next, rounds[1..]);
    } else if |rounds| > 1 {
      SqlPoisonNeverDies(next, rounds[1..]);
    } else {
      assert SqlRounds(next, rounds[1..]) == next;
    }
  }
}
