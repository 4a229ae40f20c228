/**
 Lease fencing. Any number of workers, in any order and with any arguments, call the
 store; the history of issued claims and accepted acknowledgements is recorded beside it.
 */
module OutboxLeases {
  import opened Prelude
  import opened SettlementOutbox

  datatype Op =
    | Enqueue(input: Input, now: int)
    | Claim(limit: int, leaseMs: int, now: int)
    | Acknowledge(ack: Ack)

  /** An issued claim: the row as handed to the worker and the number its token was built from. */
  datatype Issue = Issue(row: Row, number: nat)

  datatype World = World(store: Store, issued: seq<Issue>, acked: seq<string>)

  function Issues(rows: seq<Row>, sequence: nat): (r: seq<Issue>)
    ensures |r| == |rows|
    ensures forall i | 0 <= i < |r| :: r[i] == Issue(rows[i], sequence + 1 + i)
  {
    seq(|rows|, i requires 0 <= i < |rows| => Issue(rows[i], sequence + 1 + i))
  }

  ghost function Next(w: World, op: Op): (t: World)
    requires Valid(w.store)
    ensures Valid(t.store)
  {
    var st := w.store;
    match op
    case Enqueue(input, now) =>
      EnqueueValid(st, input, now);
      w.(store := Enqueued(st, input, now))
    case Claim(limit, leaseMs, now) =>
      ClaimValid(st, limit, leaseMs, now);
      var c := ClaimDue(st, limit, leaseMs, now);
      w.(store := c.store, issued := w.issued + Issues(c.rows, st.sequence))
    case Acknowledge(ack) =>
      AcknowledgeValid(st, ack);
      if Accepts(st, ack) then w.(store := Acknowledged(st, ack), acked := w.acked + [ack.token]) else w
  }

  lemma AcknowledgeNext(w: World, ack: Ack)
    requires Valid(w.store)
    ensures Next(w, Acknowledge(ack)) ==
            World(Acknowledged(w.store, ack), w.issued,
                  if Accepts(w.store, ack) then w.acked + [ack.token] else w.acked)
  {
  }

  ghost function Run(w: World, ops: seq<Op>): (t: World)
    requires Valid(w.store)
    ensures Valid(t.store)
    decreases |ops|
  {
    if ops == [] then w else Run(Next(w, ops[0]), ops[1..])
  }

  ghost function Empty(): World {
    World(Store(map[], [], map[], 0), [], [])
  }

  // ---------------------------------------------------------------------------
  // The invariant
  // ---------------------------------------------------------------------------

  ghost predicate Held(st: Store, token: string) {
    exists id :: id in st.rows && st.rows[id].leaseToken == Some(token)
  }

  ghost predicate IssuedToken(issued: seq<Issue>, token: string) {
    exists i: nat :: i < |issued| && issued[i].row.leaseToken == Some(token)
  }

  ghost predicate IssueFits(st: Store, c: Issue) {
    && c.row.id in st.rows
    && c.number <= st.sequence
    && c.row.status.Processing?
    && c.row.leaseToken == Some(LeaseToken(c.row.id, c.number))
  }

  ghost predicate IssuesNumbered(w: World) {
    && (forall i | 0 <= i < |w.issued| :: IssueFits(w.store, w.issued[i]))
    && (forall i, j | 0 <= i < j < |w.issued| :: w.issued[i].number < w.issued[j].number)
  }

  /** The row is exactly what some worker was handed. */
  ghost predicate FromIssue(issued: seq<Issue>, row: Row) {
    exists i: nat :: i < |issued| && issued[i].row == row
  }

  ghost predicate RowLive(issued: seq<Issue>, row: Row) {
    if row.status.Processing? then row.leaseToken.Some? && row.leaseUntil.Some? && FromIssue(issued, row)
    else row.leaseToken.None?
  }

  /** Exactly the processing rows carry a token, and they are as they were when claimed. */
  ghost predicate RowsLive(w: World) {
    forall id | id in w.store.rows :: RowLive(w.issued, w.store.rows[id])
  }

  ghost predicate AcksSpent(w: World) {
    && Distinct(w.acked)
    && (forall t | t in w.acked :: IssuedToken(w.issued, t) && !Held(w.store, t))
  }

  ghost predicate Inv(w: World) {
    Valid(w.store) && IssuesNumbered(w) && RowsLive(w) && AcksSpent(w)
  }

  /** A token was issued once, so the row holding it is the row it was issued for. */
  lemma TokenNamesIssue(w: World, i: nat, j: nat)
    requires IssuesNumbered(w) && i < |w.issued| && j < |w.issued|
    requires w.issued[i].row.leaseToken == w.issued[j].row.leaseToken
    ensures i == j
  {
    var c, d := w.issued[i], w.issued[j];
    LeaseTokenInjective(c.row.id, c.number, d.row.id, d.number);
  }

  lemma HeldByIssue(w: World, id: string, i: nat)
    requires Inv(w) && id in w.store.rows && i < |w.issued|
    requires w.store.rows[id].leaseToken == w.issued[i].row.leaseToken
    ensures w.store.rows[id] == w.issued[i].row
  {
    assert w.issued[i].row.leaseToken.Some? by { assert IssueFits(w.store, w.issued[i]); }
    assert RowLive(w.issued, w.store.rows[id]);
    var j: nat :| j < |w.issued| && w.issued[j].row == w.store.rows[id];
    TokenNamesIssue(w, i, j);
  }

  lemma EnqueueHoldsNothing(st: Store, input: Input, now: int, token: string)
    requires Held(Enqueued(st, input, now), token)
    ensures Held(st, token)
  {
    var t := Enqueued(st, input, now);
    var id :| id in t.rows && t.rows[id].leaseToken == Some(token);
    assert id in st.rows;
  }

  lemma EnqueueInv(w: World, input: Input, now: int)
    requires Inv(w)
    ensures Inv(Next(w, Enqueue(input, now)))
  {
    var t := Next(w, Enqueue(input, now));
    NextIdFresh(w.store);
    forall token | Held(t.store, token) ensures Held(w.store, token) {
      EnqueueHoldsNothing(w.store, input, now, token);
    }
    forall i | 0 <= i < |t.issued| ensures IssueFits(t.store, t.issued[i]) {
      assert IssueFits(w.store, w.issued[i]);
    }
    forall id | id in t.store.rows ensures RowLive(t.issued, t.store.rows[id]) {
      if id in w.store.rows {
        assert RowLive(w.issued, w.store.rows[id]);
      }
    }
  }

  lemma FreshIssueFits(w: World, limit: int, leaseMs: int, now: int, i: nat)
    requires RowsListed(w.store) && i < |ClaimDue(w.store, limit, leaseMs, now).rows|
    ensures var c := ClaimDue(w.store, limit, leaseMs, now);
            IssueFits(c.store, Issue(c.rows[i], w.store.sequence + 1 + i))
  {
    ClaimedRow(w.store, limit, leaseMs, now, i);
    ClaimExact(w.store, limit, leaseMs, now);
  }

  lemma IssueFitsLater(st: Store, later: Store, c: Issue)
    requires IssueFits(st, c) && st.sequence <= later.sequence && st.rows.Keys <= later.rows.Keys
    ensures IssueFits(later, c)
  {
  }

  lemma ClaimGrows(st: Store, limit: int, leaseMs: int, now: int)
    requires RowsListed(st)
    ensures var t := ClaimDue(st, limit, leaseMs, now).store;
            t.rows.Keys == st.rows.Keys && t.keys == st.keys && st.sequence <= t.sequence
  {
    ClaimExact(st, limit, leaseMs, now);
  }

  lemma NumbersGrow(issued: seq<Issue>, rows: seq<Row>, sequence: nat)
    requires forall i | 0 <= i < |issued| :: issued[i].number <= sequence
    requires forall i, j | 0 <= i < j < |issued| :: issued[i].number < issued[j].number
    ensures var all := issued + Issues(rows, sequence);
            forall i, j | 0 <= i < j < |all| :: all[i].number < all[j].number
  {
  }

  lemma AllIssuesFit(w: World, limit: int, leaseMs: int, now: int, i: nat)
    requires Valid(w.store) && IssuesNumbered(w)
    requires i < |w.issued| + |ClaimDue(w.store, limit, leaseMs, now).rows|
    ensures var c := ClaimDue(w.store, limit, leaseMs, now);
            IssueFits(c.store, (w.issued + Issues(c.rows, w.store.sequence))[i])
  {
    if i < |w.issued| {
      ClaimGrows(w.store, limit, leaseMs, now);
      IssueFitsLater(w.store, ClaimDue(w.store, limit, leaseMs, now).store, w.issued[i]);
    } else {
      FreshIssueFits(w, limit, leaseMs, now, i - |w.issued|);
    }
  }

  lemma IssuesNumberedLater(w: World, limit: int, leaseMs: int, now: int)
    requires Valid(w.store) && IssuesNumbered(w)
    ensures IssuesNumbered(Next(w, Claim(limit, leaseMs, now)))
  {
    var c := ClaimDue(w.store, limit, leaseMs, now);
    var all := w.issued + Issues(c.rows, w.store.sequence);
    forall i | 0 <= i < |all| ensures IssueFits(c.store, all[i]) {
      AllIssuesFit(w, limit, leaseMs, now, i);
    }
    forall i | 0 <= i < |w.issued| ensures w.issued[i].number <= w.store.sequence {
      assert IssueFits(w.store, w.issued[i]);
    }
    NumbersGrow(w.issued, c.rows, w.store.sequence);
  }

  /** A token handed out now was never handed out before. */
  lemma FreshToken(w: World, limit: int, leaseMs: int, now: int, i: nat, token: string)
    requires Valid(w.store) && IssuesNumbered(w) && IssuedToken(w.issued, token)
    requires i < |ClaimDue(w.store, limit, leaseMs, now).rows|
    ensures ClaimDue(w.store, limit, leaseMs, now).rows[i].leaseToken != Some(token)
  {
    var row := ClaimDue(w.store, limit, leaseMs, now).rows[i];
    FreshIssueFits(w, limit, leaseMs, now, i);
    var k: nat :| k < |w.issued| && w.issued[k].row.leaseToken == Some(token);
    assert IssueFits(w.store, w.issued[k]);
    if row.leaseToken == Some(token) {
      LeaseTokenInjective(w.issued[k].row.id, w.issued[k].number, row.id, w.store.sequence + 1 + i);
    }
  }

  /** After a claim, an earlier token can only be held by a row the claim did not touch. */
  lemma EarlierTokenHolder(w: World, limit: int, leaseMs: int, now: int, id: string, token: string)
    requires Valid(w.store) && IssuesNumbered(w) && IssuedToken(w.issued, token)
    requires var t := ClaimDue(w.store, limit, leaseMs, now).store;
             id in t.rows && t.rows[id].leaseToken == Some(token)
    ensures !IsClaimed(ClaimDue(w.store, limit, leaseMs, now), id)
    ensures id in w.store.rows && w.store.rows[id].leaseToken == Some(token)
  {
    var c := ClaimDue(w.store, limit, leaseMs, now);
    ClaimGrows(w.store, limit, leaseMs, now);
    if i: nat :| i < |c.rows| && c.rows[i].id == id {
      ClaimedRow(w.store, limit, leaseMs, now, i);
      FreshToken(w, limit, leaseMs, now, i, token);
      assert false;
    } else {
      UnclaimedRow(w.store, limit, leaseMs, now, id);
    }
  }

  /** Claiming hands out new tokens only: a token nobody holds stays unheld. */
  lemma ClaimKeepsSpent(w: World, limit: int, leaseMs: int, now: int, token: string)
    requires Valid(w.store) && IssuesNumbered(w)
    requires IssuedToken(w.issued, token) && !Held(w.store, token)
    ensures !Held(ClaimDue(w.store, limit, leaseMs, now).store, token)
  {
    var t := ClaimDue(w.store, limit, leaseMs, now).store;
    if id :| id in t.rows && t.rows[id].leaseToken == Some(token) {
      EarlierTokenHolder(w, limit, leaseMs, now, id, token);
    }
  }

  lemma ClaimRowsLive(w: World, limit: int, leaseMs: int, now: int)
    requires Inv(w)
    ensures RowsLive(Next(w, Claim(limit, leaseMs, now)))
  {
    var t := Next(w, Claim(limit, leaseMs, now));
    var c := ClaimDue(w.store, limit, leaseMs, now);
    var newer := Issues(c.rows, w.store.sequence);
    ClaimGrows(w.store, limit, leaseMs, now);
    forall id | id in t.store.rows ensures RowLive(t.issued, t.store.rows[id]) {
      if i: nat :| i < |c.rows| && c.rows[i].id == id {
        ClaimedRow(w.store, limit, leaseMs, now, i);
        assert newer[i].row == c.store.rows[id];
        NewlyLive(w.issued, newer, c.store.rows[id]);
      } else {
        UnclaimedRow(w.store, limit, leaseMs, now, id);
        StillLive(w.issued, newer, w.store.rows[id]);
      }
    }
  }

  lemma NewlyLive(issued: seq<Issue>, newer: seq<Issue>, row: Row)
    requires row.status.Processing? && row.leaseToken.Some? && row.leaseUntil.Some? && FromIssue(newer, row)
    ensures RowLive(issued + newer, row)
  {
    var i: nat :| i < |newer| && newer[i].row == row;
    assert (issued + newer)[|issued| + i].row == row;
  }

  lemma StillLive(issued: seq<Issue>, newer: seq<Issue>, row: Row)
    requires RowLive(issued, row)
    ensures RowLive(issued + newer, row)
  {
    if row.status.Processing? {
      var i: nat :| i < |issued| && issued[i].row == row;
      assert (issued + newer)[i].row == row;
    }
  }

  lemma IssuedTokenKept(issued: seq<Issue>, more: seq<Issue>, token: string)
    requires IssuedToken(issued, token)
    ensures IssuedToken(issued + more, token)
  {
    var i: nat :| i < |issued| && issued[i].row.leaseToken == Some(token);
    assert (issued + more)[i].row.leaseToken == Some(token);
  }

  lemma ClaimInv(w: World, limit: int, leaseMs: int, now: int)
    requires Inv(w)
    ensures Inv(Next(w, Claim(limit, leaseMs, now)))
  {
    var t := Next(w, Claim(limit, leaseMs, now));
    var c := ClaimDue(w.store, limit, leaseMs, now);
    IssuesNumberedLater(w, limit, leaseMs, now);
    ClaimRowsLive(w, limit, leaseMs, now);
    forall token | token in t.acked ensures IssuedToken(t.issued, token) && !Held(t.store, token) {
      ClaimKeepsSpent(w, limit, leaseMs, now, token);
      IssuedTokenKept(w.issued, Issues(c.rows, w.store.sequence), token);
    }
  }

  /** An accepted acknowledgement takes the token off its row, and no other row holds it. */
  lemma AckInv(w: World, ack: Ack)
    requires Inv(w) && Accepts(w.store, ack)
    ensures Inv(World(Acknowledged(w.store, ack), w.issued, w.acked + [ack.token]))
  {
    var t := World(Acknowledged(w.store, ack), w.issued, w.acked + [ack.token]);
    AcknowledgeValid(w.store, ack);
    forall other | other in t.store.rows ensures RowLive(t.issued, t.store.rows[other]) {
      if other != ack.id {
        assert RowLive(w.issued, w.store.rows[other]);
      }
    }
    forall k | 0 <= k < |t.issued| ensures IssueFits(t.store, t.issued[k]) {
      IssueFitsLater(w.store, t.store, w.issued[k]);
    }
    AckSpends(w, ack);
  }

  lemma AckSpends(w: World, ack: Ack)
    requires Inv(w) && Accepts(w.store, ack)
    ensures AcksSpent(World(Acknowledged(w.store, ack), w.issued, w.acked + [ack.token]))
  {
    HeldAndIssued(w, ack.id, ack.token);
    forall spent | spent in w.acked + [ack.token]
      ensures IssuedToken(w.issued, spent) && !Held(Acknowledged(w.store, ack), spent)
    {
      if spent != ack.token {
        assert spent in w.acked;
      }
      NoLongerHeld(w, ack.id, ack.token, AckRow(w.store.rows[ack.id], ack), spent);
    }
  }

  lemma HeldAndIssued(w: World, id: string, token: string)
    requires Inv(w) && Acknowledges(w.store, id, token)
    ensures Held(w.store, token) && IssuedToken(w.issued, token) && token !in w.acked
  {
    assert RowLive(w.issued, w.store.rows[id]);
    var i: nat :| i < |w.issued| && w.issued[i].row == w.store.rows[id];
  }

  lemma NoLongerHeld(w: World, id: string, token: string, row: Row, spent: string)
    requires Inv(w) && Acknowledges(w.store, id, token) && row.leaseToken.None?
    requires spent == token || !Held(w.store, spent)
    ensures !Held(w.store.(rows := w.store.rows[id := row]), spent)
  {
    var rows := w.store.rows[id := row];
    forall other | other in rows ensures rows[other].leaseToken != Some(spent) {
      if other != id {
        assert rows[other] == w.store.rows[other];
        if w.store.rows[other].leaseToken == Some(token) {
          OneHolder(w, id, other, token);
        }
      }
    }
  }

  /** No two rows hold the same token. */
  lemma OneHolder(w: World, id: string, other: string, token: string)
    requires Inv(w) && id in w.store.rows && other in w.store.rows
    requires w.store.rows[id].leaseToken == w.store.rows[other].leaseToken == Some(token)
    ensures id == other
  {
    assert RowLive(w.issued, w.store.rows[id]);
    var i: nat :| i < |w.issued| && w.issued[i].row == w.store.rows[id];
    HeldByIssue(w, other, i);
  }

  lemma NextInv(w: World, op: Op)
    requires Inv(w)
    ensures Inv(Next(w, op))
  {
    match op
    case Enqueue(input, now) => EnqueueInv(w, input, now);
    case Claim(limit, leaseMs, now) => ClaimInv(w, limit, leaseMs, now);
    case Acknowledge(ack) =>
      if Accepts(w.store, ack) {
        AckInv(w, ack);
      }
  }

  lemma {:induction false} RunInv(w: World, ops: seq<Op>)
    requires Inv(w)
    ensures Inv(Run(w, ops))
    decreases |ops|
  {
    if ops == [] {
    } else {
      NextInv(w, ops[0]);
      RunInv(Next(w, ops[0]), ops[1..]);
    }
  }

  lemma EmptyInv()
    ensures Inv(Empty())
  {
  }

  // ---------------------------------------------------------------------------
  // Main results
  // ---------------------------------------------------------------------------

  /** Over all runs, every issued token is distinct and each is accepted at most once. */
  lemma TokensFenced(ops: seq<Op>)
    ensures var w := Run(Empty(), ops);
            && (forall i, j | 0 <= i < j < |w.issued| :: w.issued[i].row.leaseToken != w.issued[j].row.leaseToken)
            && Distinct(w.acked)
            && (forall t | t in w.acked :: IssuedToken(w.issued, t))
  {
    EmptyInv();
    RunInv(Empty(), ops);
    var w := Run(Empty(), ops);
    forall i, j | 0 <= i < j < |w.issued| ensures w.issued[i].row.leaseToken != w.issued[j].row.leaseToken {
      if w.issued[i].row.leaseToken == w.issued[j].row.leaseToken {
        TokenNamesIssue(w, i, j);
      }
    }
  }

  /** An issued token no row carries any more: acknowledged, or replaced by a later claim. */
  ghost predicate Retired(w: World, token: string) {
    IssuedToken(w.issued, token) && !Held(w.store, token)
  }

  /** Writing a row without a token retires no less. */
  lemma RetiredByWrite(w: World, t: World, id: string, row: Row, token: string)
    requires Retired(w, token) && t.issued == w.issued
    requires t.store.rows == w.store.rows[id := row] && row.leaseToken.None?
    ensures Retired(t, token)
  {
    assert forall other | other in t.store.rows && other != id ::
        other in w.store.rows && w.store.rows[other] == t.store.rows[other];
  }

  lemma RetiredByClaim(w: World, limit: int, leaseMs: int, now: int, token: string)
    requires Valid(w.store) && IssuesNumbered(w) && Retired(w, token)
    ensures Retired(Next(w, Claim(limit, leaseMs, now)), token)
  {
    ClaimKeepsSpent(w, limit, leaseMs, now, token);
    IssuedTokenKept(w.issued, Issues(ClaimDue(w.store, limit, leaseMs, now).rows, w.store.sequence), token);
  }

  lemma RetiredNext(w: World, op: Op, token: string)
    requires Inv(w) && Retired(w, token)
    ensures Retired(Next(w, op), token)
  {
    match op
    case Claim(limit, leaseMs, now) => RetiredByClaim(w, limit, leaseMs, now, token);
    case Enqueue(input, now) =>
      if input.eventKey !in w.store.keys {
        var id := RowId(w.store.sequence + 1);
        RetiredByWrite(w, Next(w, op), id, NewRow(id, input, now), token);
      }
    case Acknowledge(ack) =>
      if Accepts(w.store, ack) {
        RetiredByWrite(w, Next(w, op), ack.id, AckRow(w.store.rows[ack.id], ack), token);
      }
  }

  /** A retired token is refused for ever. */
  lemma {:induction false} RetiredForEver(w: World, ops: seq<Op>, token: string, id: string)
    requires Inv(w) && Retired(w, token)
    ensures Retired(Run(w, ops), token)
    ensures !Acknowledges(Run(w, ops).store, id, token)
    decreases |ops|
  {
    if ops == [] {
    } else {
      RetiredNext(w, ops[0], token);
      NextInv(w, ops[0]);
      RetiredForEver(Next(w, ops[0]), ops[1..], token, id);
    }
  }

  /** Reclaiming a row retires the token it carried. */
  lemma ReclaimRetires(w: World, limit: int, leaseMs: int, now: int, i: nat, token: string)
    requires Inv(w) && i < |ClaimDue(w.store, limit, leaseMs, now).rows|
    requires var id := ClaimDue(w.store, limit, leaseMs, now).rows[i].id;
             id in w.store.rows && w.store.rows[id].leaseToken == Some(token)
    ensures Retired(Next(w, Claim(limit, leaseMs, now)), token)
  {
    var c := ClaimDue(w.store, limit, leaseMs, now);
    ReclaimReleases(w, limit, leaseMs, now, c.rows[i].id, token);
    IssuedTokenKept(w.issued, Issues(c.rows, w.store.sequence), token);
  }

  lemma ReclaimReleases(w: World, limit: int, leaseMs: int, now: int, id: string, token: string)
    requires Inv(w) && id in w.store.rows && w.store.rows[id].leaseToken == Some(token)
    requires IsClaimed(ClaimDue(w.store, limit, leaseMs, now), id)
    ensures IssuedToken(w.issued, token) && !Held(ClaimDue(w.store, limit, leaseMs, now).store, token)
  {
    var t := ClaimDue(w.store, limit, leaseMs, now).store;
    assert RowLive(w.issued, w.store.rows[id]);
    var k: nat :| k < |w.issued| && w.issued[k].row == w.store.rows[id];
    if other :| other in t.rows && t.rows[other].leaseToken == Some(token) {
      EarlierTokenHolder(w, limit, leaseMs, now, other, token);
      HeldByIssue(w, other, k);
    }
  }

  ghost predicate Terminal(row: Row) {
    row.status.Succeeded? || row.status.Dead?
  }

  /** Succeeded and dead rows are never claimed or changed again. */
  lemma {:induction false} TerminalForEver(w: World, ops: seq<Op>, id: string)
    requires Inv(w) && id in w.store.rows && Terminal(w.store.rows[id])
    ensures id in Run(w, ops).store.rows && Run(w, ops).store.rows[id] == w.store.rows[id]
    decreases |ops|
  {
    if ops == [] {
    } else {
      TerminalNext(w, ops[0], id);
      NextInv(w, ops[0]);
      TerminalForEver(Next(w, ops[0]), ops[1..], id);
    }
  }

  lemma TerminalNext(w: World, op: Op, id: string)
    requires Inv(w) && id in w.store.rows && Terminal(w.store.rows[id])
    ensures id in Next(w, op).store.rows && Next(w, op).store.rows[id] == w.store.rows[id]
  {
    match op
    case Enqueue(input, now) => EnqueueSparesRow(w.store, input, now, id);
    case Claim(limit, leaseMs, now) => ClaimSparesTerminal(w.store, limit, leaseMs, now, id);
    case Acknowledge(ack) => AckSparesTerminal(w.store, ack, id);
  }

  lemma EnqueueSparesRow(st: Store, input: Input, now: int, id: string)
    requires Valid(st) && id in st.rows
    ensures var t := Enqueued(st, input, now);
            id in t.rows && t.rows[id] == st.rows[id]
  {
    NextIdFresh(st);
  }

  lemma AckSparesTerminal(st: Store, ack: Ack, id: string)
    requires id in st.rows && Terminal(st.rows[id])
    ensures var t := Acknowledged(st, ack);
            id in t.rows && t.rows[id] == st.rows[id]
  {
  }

  lemma ClaimSparesTerminal(st: Store, limit: int, leaseMs: int, now: int, id: string)
    requires RowsListed(st) && id in st.rows && Terminal(st.rows[id])
    ensures var t := ClaimDue(st, limit, leaseMs, now).store;
            id in t.rows && t.rows[id] == st.rows[id]
  {
    var c := ClaimDue(st, limit, leaseMs, now);
    if i: nat :| i < |c.rows| && c.rows[i].id == id {
      ClaimedRow(st, limit, leaseMs, now, i);
    } else {
      UnclaimedRow(st, limit, leaseMs, now, id);
    }
  }

  /** On every reachable store the SQL guard and the in-memory guard accept the same calls. */
  lemma GuardsAgree(ops: seq<Op>, id: string, token: string)
    ensures var st := Run(Empty(), ops).store;
            && (SqlAcknowledges(st, id, token) <==> Acknowledges(st, id, token))
            && (id in st.rows ==> (st.rows[id].status.Processing? <==> st.rows[id].leaseToken.Some?))
  {
    EmptyInv();
    RunInv(Empty(), ops);
    var w := Run(Empty(), ops);
    if id in w.store.rows {
      assert RowLive(w.issued, w.store.rows[id]);
    }
  }

  /**
   An acknowledgement by the holder of an issued claim is accepted exactly while that claim is
   the row's latest and unspent one. The lease deadline plays no part.
   */
  lemma AcceptedWhileCurrent(ops: seq<Op>, i: nat)
    requires i < |Run(Empty(), ops).issued|
    ensures var w := Run(Empty(), ops);
            var claim := w.issued[i].row;
            && claim.id in w.store.rows && claim.leaseToken.Some?
            && (Acknowledges(w.store, claim.id, claim.leaseToken.value) <==> w.store.rows[claim.id] == claim)
  {
    EmptyInv();
    RunInv(Empty(), ops);
    var w := Run(Empty(), ops);
    var claim := w.issued[i].row;
    assert IssueFits(w.store, w.issued[i]);
    assert RowLive(w.issued, w.store.rows[claim.id]);
    if w.store.rows[claim.id].leaseToken == claim.leaseToken {
      HeldByIssue(w, claim.id, i);
    }
  }

  lemma OneClaim(st: Store, now: int, id: string)
    requires RowsListed(st) && st.rows.Keys == {id} && IsDue(st.rows[id], now)
    ensures var c := ClaimDue(st, 1, MIN_LEASE_MS, now);
            |c.rows| == 1 && c.rows[0] == Leased(st.rows[id], st.sequence + 1, MIN_LEASE_MS, now)
  {
    var c := ClaimDue(st, 1, MIN_LEASE_MS, now);
    QueueDistinct(st);
    ClaimExact(st, 1, MIN_LEASE_MS, now);
    assert st.rows[id] in Filter(Due(now), Queue(st));
    ClaimedRow(st, 1, MIN_LEASE_MS, now, 0);
  }

  lemma OneEnqueued(input: Input)
    ensures var w := Run(Empty(), [Enqueue(input, 0)]);
            w.issued == [] && w.store.sequence == 1 && w.store.rows == map[RowId(1) := NewRow(RowId(1), input, 0)]
  {
    EmptyInv();
    assert Run(Empty(), [Enqueue(input, 0)]) == Next(Empty(), Enqueue(input, 0));
  }

  lemma HolderAccepted(w: World, claim: Row, at: int)
    requires Valid(w.store) && claim.id in w.store.rows && w.store.rows[claim.id] == claim
    requires claim.status.Processing? && claim.leaseToken.Some?
    ensures var t := Next(w, Acknowledge(Succeed(claim.id, claim.leaseToken.value, at)));
            claim.id in t.store.rows && t.store.rows[claim.id] == SucceededRow(claim, at)
  {
  }

  /** A worker that reports success after its lease has run out, before anyone reclaims the row, is believed. */
  lemma ExpiredLeaseAccepted(input: Input, at: int)
    requires at > input.availableAt + MIN_LEASE_MS
    ensures var w := Run(Run(Empty(), [Enqueue(input, 0)]), [Claim(1, MIN_LEASE_MS, input.availableAt)]);
            && |w.issued| == 1
            && var claim := w.issued[0].row;
            && claim.leaseToken.Some? && claim.leaseUntil.Some? && claim.leaseUntil.value < at
            && var t := Next(w, Acknowledge(Succeed(claim.id, claim.leaseToken.value, at)));
            && claim.id in t.store.rows && t.store.rows[claim.id] == SucceededRow(claim, at)
  {
    var w0 := Run(Empty(), [Enqueue(input, 0)]);
    var op := Claim(1, MIN_LEASE_MS, input.availableAt);
    var w := Next(w0, op);
    OneEnqueued(input);
    OneClaim(w0.store, input.availableAt, RowId(1));
    assert Run(w0, [op]) == w;
    ClaimedRow(w0.store, 1, MIN_LEASE_MS, input.availableAt, 0);
    assert w.issued == Issues(ClaimDue(w0.store, 1, MIN_LEASE_MS, input.availableAt).rows, w0.store.sequence);
    HolderAccepted(w, w.issued[0].row, at);
  }

  // ---------------------------------------------------------------------------
  // One row per event key
  // ---------------------------------------------------------------------------

  ghost function EnqueuedKeys(ops: seq<Op>): set<string> {
    set op | op in ops && op.Enqueue? :: op.input.eventKey
  }

  /** The keys grow by the enqueued one, and existing bindings stay. */
  ghost predicate KeysGrow(keys: map<string, string>, op: Op, later: map<string, string>) {
    && later.Keys == keys.Keys + (if op.Enqueue? then {op.input.eventKey} else {})
    && forall key | key in keys :: later[key] == keys[key]
  }

  lemma EnqueueKeys(st: Store, input: Input, now: int)
    ensures KeysGrow(st.keys, Enqueue(input, now), Enqueued(st, input, now).keys)
  {
  }

  lemma KeysNext(w: World, op: Op)
    requires Valid(w.store)
    ensures KeysGrow(w.store.keys, op, Next(w, op).store.keys)
  {
    match op
    case Claim(limit, leaseMs, now) => ClaimGrows(w.store, limit, leaseMs, now);
    case Enqueue(input, now) => EnqueueKeys(w.store, input, now);
    case _ =>
  }

  lemma EnqueuedKeysStep(ops: seq<Op>)
    requires ops != []
    ensures EnqueuedKeys(ops) == (if ops[0].Enqueue? then {ops[0].input.eventKey} else {}) + EnqueuedKeys(ops[1..])
  {
    assert forall op :: op in ops <==> op == ops[0] || op in ops[1..];
  }

  lemma KeysCompose(keys: map<string, string>, op: Op, mid: map<string, string>, more: set<string>,
                    later: map<string, string>)
    requires KeysGrow(keys, op, mid)
    requires later.Keys == mid.Keys + more && forall key | key in mid :: later[key] == mid[key]
    ensures later.Keys == keys.Keys + ((if op.Enqueue? then {op.input.eventKey} else {}) + more)
    ensures forall key | key in keys :: later[key] == keys[key]
  {
  }

  lemma {:induction false} KeysFollowRun(w: World, ops: seq<Op>)
    requires Valid(w.store)
    ensures Run(w, ops).store.keys.Keys == w.store.keys.Keys + EnqueuedKeys(ops)
    ensures forall key | key in w.store.keys :: Run(w, ops).store.keys[key] == w.store.keys[key]
    decreases |ops|
  {
    if ops == [] {
    } else {
      var t := Next(w, ops[0]);
      KeysNext(w, ops[0]);
      KeysFollowRun(t, ops[1..]);
      EnqueuedKeysStep(ops);
      KeysCompose(w.store.keys, ops[0], t.store.keys, EnqueuedKeys(ops[1..]), Run(w, ops).store.keys);
    }
  }

  /** After any run there is exactly one row per event key ever enqueued. */
  lemma OneRowPerKey(ops: seq<Op>)
    ensures var st := Run(Empty(), ops).store;
            && IndexAgrees(st)
            && st.keys.Keys == EnqueuedKeys(ops)
            && (forall id, other | id in st.rows && other in st.rows ::
                  st.rows[id].eventKey == st.rows[other].eventKey ==> id == other)
  {
    EmptyInv();
    RunInv(Empty(), ops);
    KeysFollowRun(Empty(), ops);
  }

  /** Enqueuing a known key again, at any later time, finds the same row and changes nothing. */
  lemma RepeatedEnqueue(w: World, input: Input, now: int, ops: seq<Op>, again: Input, later: int)
    requires Inv(w) && again.eventKey == input.eventKey
    ensures var first := Next(w, Enqueue(input, now));
            var t := Run(first, ops);
            && Next(t, Enqueue(again, later)) == t
            && t.store.keys[again.eventKey] == first.store.keys[input.eventKey]
  {
    var first := Next(w, Enqueue(input, now));
    NextInv(w, Enqueue(input, now));
    KeysFollowRun(first, ops);
  }
}
