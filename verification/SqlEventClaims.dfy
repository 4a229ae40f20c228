/**
 The SQL form of the event claim: insert unless the id exists, then read the row back,
 as two statements that any number of deliveries interleave. The row read is the call's
 own fresh insert, which looks like somebody else's claim, and a failed row is claimed
 without being marked as taken.
 */
module SqlEventClaims {
  import opened ProcessedEvents
  import opened Ingestion

  datatype SqlPhase =
    | Arriving            // before the insert
    | Inserted            // inserted or found, not read back
    | Claimant            // claimed, about to complete
    | Abandoning          // complete threw, about to fail
    | Replied(reply: Reply)
    | Gone

  datatype Database = Database(ledger: Ledger, calls: seq<Call>, phases: seq<SqlPhase>)

  function InsertedIfAbsent(ledger: Ledger, c: Call): Ledger {
    if c.eventId in ledger then ledger else ledger[c.eventId := Record(c.fingerprint, Processing)]
  }

  function ReadBack(ledger: Ledger, c: Call): Claim {
    if c.eventId !in ledger || ledger[c.eventId].fingerprint != c.fingerprint then Claim.Conflict
    else match ledger[c.eventId].status
      case Completed => Claim.Duplicate
      case Processing => Claim.InProgress
      case Failed => Claim.Claimed
  }

  function Moved(d: Database, i: nat, ledger: Ledger, p: SqlPhase): Database
    requires i < |d.phases|
  {
    Database(ledger, d.calls, d.phases[i := p])
  }

  /** One statement of one delivery; it may throw before or after taking effect. */
  function Statement(d: Database, i: nat, fault: Fault): Database
    requires i < |d.calls| == |d.phases|
  {
    var c := d.calls[i];
    match d.phases[i]
    case Arriving =>
      Moved(d, i, if fault.ThrowsBefore? then d.ledger else InsertedIfAbsent(d.ledger, c),
            if fault.NoFault? then Inserted else Replied(IdempotencyUnavailable))
    case Inserted =>
      var claim := ReadBack(d.ledger, c);
      Moved(d, i, d.ledger,
            if !fault.NoFault? then Replied(IdempotencyUnavailable)
            else if claim.Claimed? then Claimant
            else Replied(ReplyTo(claim)))
    case Claimant =>
      Moved(d, i, if fault.ThrowsBefore? then d.ledger else Marking(d.ledger, c.eventId, Completed),
            if fault.NoFault? then Replied(Accepted(false)) else Abandoning)
    case Abandoning =>
      Moved(d, i, if fault.ThrowsBefore? then d.ledger else Marking(d.ledger, c.eventId, Failed),
            Replied(IdempotencyUnavailable))
    case _ => d
  }

  function SqlNext(d: Database, a: Action): (t: Database)
    requires |d.calls| == |d.phases|
    ensures t.calls == d.calls && |t.phases| == |d.phases|
  {
    if a.call >= |d.phases| then d
    else if a.Advance? then Statement(d, a.call, a.fault)
    else if d.phases[a.call].Replied? then d
    else Moved(d, a.call, d.ledger, Gone)
  }

  function Opened(ledger: Ledger, calls: seq<Call>): Database {
    Database(ledger, calls, seq(|calls|, _ => Arriving))
  }

  function SqlExecute(d: Database, actions: seq<Action>): (t: Database)
    requires |d.calls| == |d.phases|
    ensures t.calls == d.calls && |t.phases| == |d.phases|
    decreases |actions|
  {
    if actions == [] then d else SqlExecute(SqlNext(d, actions[0]), actions[1..])
  }

  predicate AcceptedNew(d: Database, i: nat)
    requires i < |d.phases|
  {
    d.phases[i] == Replied(Accepted(false))
  }

  /** The event's row is there, failed, under the delivered payload. */
  predicate FailedUnder(ledger: Ledger, c: Call) {
    c.eventId in ledger && ledger[c.eventId] == Record(c.fingerprint, Failed)
  }

  // ---------------------------------------------------------------------------
  // Without a failed row nobody is accepted
  // ---------------------------------------------------------------------------

  predicate Taking(d: Database, i: nat)
    requires i < |d.phases|
  {
    d.phases[i].Claimant? || d.phases[i].Abandoning? || AcceptedNew(d, i)
  }

  /** The event is not failed under c's payload, and only other payloads have ever been claimed for it. */
  ghost predicate Barred(d: Database, c: Call) {
    && |d.calls| == |d.phases|
    && !FailedUnder(d.ledger, c)
    && forall i: nat | i < |d.phases| && d.calls[i].eventId == c.eventId && Taking(d, i) ::
         c.eventId in d.ledger && d.ledger[c.eventId].fingerprint == d.calls[i].fingerprint != c.fingerprint
  }

  lemma BarredNext(d: Database, a: Action, c: Call)
    requires Barred(d, c)
    ensures Barred(SqlNext(d, a), c)
  {
  }

  lemma {:induction false} BarredExecute(d: Database, actions: seq<Action>, c: Call)
    requires Barred(d, c)
    ensures Barred(SqlExecute(d, actions), c)
    decreases |actions|
  {
    if actions == [] {
    } else {
      BarredNext(d, actions[0], c);
      BarredExecute(SqlNext(d, actions[0]), actions[1..], c);
    }
  }

  /** Under every interleaving, fault and death, a delivery whose row does not start out failed is never accepted. */
  lemma NeverAccepted(ledger: Ledger, calls: seq<Call>, actions: seq<Action>, i: nat)
    requires i < |calls| && !FailedUnder(ledger, calls[i])
    ensures !AcceptedNew(SqlExecute(Opened(ledger, calls), actions), i)
  {
    BarredExecute(Opened(ledger, calls), actions, calls[i]);
  }

  // ---------------------------------------------------------------------------
  // With a failed row two calls are accepted
  // ---------------------------------------------------------------------------

  /** Both deliveries read the failed row before either completes it. */
  function Race(): seq<Action> {
    [Advance(0, NoFault), Advance(1, NoFault), Advance(0, NoFault), Advance(1, NoFault),
     Advance(0, NoFault), Advance(1, NoFault)]
  }

  /** A failed row lets two concurrent deliveries of its event be accepted as new. */
  lemma DoubleAcceptance(ledger: Ledger, c: Call)
    requires FailedUnder(ledger, c)
    ensures var d := SqlExecute(Opened(ledger, [c, c]), Race()); AcceptedNew(d, 0) && AcceptedNew(d, 1)
  {
  }

  // ---------------------------------------------------------------------------
  // Exactly when
  // ---------------------------------------------------------------------------

  /** In some run some delivery of the event under this payload is accepted as new. */
  ghost predicate SometimesAccepted(ledger: Ledger, c: Call) {
    exists calls, actions, i: nat ::
      i < |calls| && calls[i] == c && AcceptedNew(SqlExecute(Opened(ledger, calls), actions), i)
  }

  /** In no run are two deliveries of the event under this payload accepted as new. */
  ghost predicate AcceptedOnce(ledger: Ledger, c: Call) {
    forall calls, actions, i: nat, j: nat | i < |calls| && j < |calls| && i != j && calls[i] == calls[j] == c ::
      !(AcceptedNew(SqlExecute(Opened(ledger, calls), actions), i)
        && AcceptedNew(SqlExecute(Opened(ledger, calls), actions), j))
  }

  /**
   Over the SQL store a delivery can be accepted exactly when its row is already failed under its payload,
   and exactly then it can be accepted twice: at most one acceptance holds only where there is none.
   */
  lemma AcceptedOnceIffNever(ledger: Ledger, c: Call)
    ensures SometimesAccepted(ledger, c) <==> FailedUnder(ledger, c)
    ensures AcceptedOnce(ledger, c) <==> !FailedUnder(ledger, c)
  {
    if FailedUnder(ledger, c) {
      DoubleAcceptance(ledger, c);
      var calls := [c, c];
      assert calls[0] == calls[1] == c;
      assert AcceptedNew(SqlExecute(Opened(ledger, calls), Race()), 0);
      assert AcceptedNew(SqlExecute(Opened(ledger, calls), Race()), 1);
    } else {
      forall calls, actions, i: nat | i < |calls| && calls[i] == c
        ensures !AcceptedNew(SqlExecute(Opened(ledger, calls), actions), i)
      {
        NeverAccepted(ledger, calls, actions, i);
      }
    }
  }
}
