/**
 Event ingestion: any number of concurrent calls drive the ledger step by step,
 every storage call may throw before or after taking effect, and a process may die
 between any two steps.
 */
module Ingestion {
  import opened Prelude
  import opened ProcessedEvents
  import Metering

  datatype Reply =
    | Accepted(duplicate: bool)
    | InvalidPayload
    | IdempotencyConflict
    | SettlementInProgress
    | IdempotencyUnavailable
    | MeteringGap(expected: int, received: int)
    | LateMeteringEvent(checkpoint: int)

  datatype Call = Call(eventId: string, fingerprint: string)

  datatype Phase =
    | Fresh             // before the claim
    | Holding           // claimed, about to complete
    | Failing           // complete threw, about to fail
    | Returned(reply: Reply)
    | Dead

  datatype Fault = NoFault | ThrowsBefore | ThrowsAfter

  datatype Action = Advance(call: nat, fault: Fault) | Die(call: nat)

  datatype System = System(ledger: Ledger, calls: seq<Call>, phases: seq<Phase>)

  function ReplyTo(c: Claim): Reply
    requires !c.Claimed?
  {
    match c
    case Conflict => IdempotencyConflict
    case InProgress => SettlementInProgress
    case Duplicate => Accepted(true)
  }

  function Goto(s: System, i: nat, ledger: Ledger, p: Phase): System
    requires i < |s.phases|
  {
    System(ledger, s.calls, s.phases[i := p])
  }

  function Step(s: System, i: nat, fault: Fault): System
    requires i < |s.calls| == |s.phases|
  {
    var c := s.calls[i];
    match s.phases[i]
    case Fresh =>
      var claim := ClaimOf(s.ledger, c.eventId, c.fingerprint);
      var ledger := if fault.ThrowsBefore? then s.ledger else Claiming(s.ledger, c.eventId, c.fingerprint);
      Goto(s, i, ledger,
           if !fault.NoFault? then Returned(IdempotencyUnavailable)
           else if claim.Claimed? then Holding
           else Returned(ReplyTo(claim)))
    case Holding =>
      var ledger := if fault.ThrowsBefore? then s.ledger else Marking(s.ledger, c.eventId, Completed);
      Goto(s, i, ledger, if fault.NoFault? then Returned(Accepted(false)) else Failing)
    case Failing =>
      var ledger := if fault.ThrowsBefore? then s.ledger else Marking(s.ledger, c.eventId, Failed);
      Goto(s, i, ledger, Returned(IdempotencyUnavailable))
    case _ => s
  }

  function Next(s: System, a: Action): (t: System)
    requires |s.calls| == |s.phases|
    ensures t.calls == s.calls && |t.phases| == |s.phases|
  {
    if a.call >= |s.phases| then s
    else if a.Advance? then Step(s, a.call, a.fault)
    else if s.phases[a.call].Returned? then s
    else Goto(s, a.call, s.ledger, Dead)
  }

  function Start(ledger: Ledger, calls: seq<Call>): System {
    System(ledger, calls, seq(|calls|, _ => Fresh))
  }

  function Execute(s: System, actions: seq<Action>): (t: System)
    requires |s.calls| == |s.phases|
    ensures t.calls == s.calls && |t.phases| == |s.phases|
    decreases |actions|
  {
    if actions == [] then s else Execute(Next(s, actions[0]), actions[1..])
  }

  predicate Won(s: System, i: nat)
    requires i < |s.phases|
  {
    s.phases[i] == Returned(Accepted(false))
  }

  /** The call holds the claim on its event. */
  predicate Holder(s: System, i: nat)
    requires i < |s.phases|
  {
    s.phases[i].Holding? || s.phases[i].Failing?
  }

  ghost predicate HolderFits(s: System, i: nat)
    requires i < |s.calls| == |s.phases|
  {
    var c := s.calls[i];
    && (Holder(s, i) ==> c.eventId in s.ledger && s.ledger[c.eventId].fingerprint == c.fingerprint)
    && (s.phases[i].Holding? ==> s.ledger[c.eventId].status == Processing)
    && (s.phases[i].Failing? ==> s.ledger[c.eventId].status != Failed)
    && (Won(s, i) ==> c.eventId in s.ledger && s.ledger[c.eventId] == Record(c.fingerprint, Completed))
  }

  /** At most one call per event either holds the claim or has won. */
  ghost predicate OneHolder(s: System)
    requires |s.calls| == |s.phases|
  {
    forall i: nat, j: nat
      | i < |s.phases| && j < |s.phases| && i != j && s.calls[i].eventId == s.calls[j].eventId ::
      !((Holder(s, i) || Won(s, i)) && (Holder(s, j) || Won(s, j)))
  }

  ghost predicate Inv(s: System) {
    && |s.calls| == |s.phases|
    && (forall i: nat | i < |s.phases| :: HolderFits(s, i))
    && OneHolder(s)
  }

  lemma StepInv(s: System, i: nat, fault: Fault)
    requires Inv(s) && i < |s.phases|
    ensures Inv(Step(s, i, fault))
  {
    var t := Step(s, i, fault);
    assert HolderFits(s, i);
    forall j: nat | j < |t.phases| ensures HolderFits(t, j) {
      assert HolderFits(s, j);
    }
    StepOneHolder(s, i, fault);
  }

  lemma StepOneHolder(s: System, i: nat, fault: Fault)
    requires Inv(s) && i < |s.phases|
    ensures OneHolder(Step(s, i, fault))
  {
    var t := Step(s, i, fault);
    forall j: nat, k: nat | j < |t.phases| && k < |t.phases| && j != k && t.calls[j].eventId == t.calls[k].eventId
      ensures !((Holder(t, j) || Won(t, j)) && (Holder(t, k) || Won(t, k)))
    {
      assert HolderFits(s, j) && HolderFits(s, k) && HolderFits(s, i);
    }
  }

  lemma NextInv(s: System, a: Action)
    requires Inv(s)
    ensures Inv(Next(s, a))
  {
    if a.call < |s.phases| {
      if a.Advance? {
        StepInv(s, a.call, a.fault);
      } else if !s.phases[a.call].Returned? {
        var t := Goto(s, a.call, s.ledger, Dead);
        forall j: nat | j < |t.phases| ensures HolderFits(t, j) {
          assert HolderFits(s, j);
        }
      }
    }
  }

  lemma {:induction false} ExecuteInv(s: System, actions: seq<Action>)
    requires Inv(s)
    ensures Inv(Execute(s, actions))
    decreases |actions|
  {
    if actions == [] {
    } else {
      NextInv(s, actions[0]);
      ExecuteInv(Next(s, actions[0]), actions[1..]);
    }
  }

  // ---------------------------------------------------------------------------
  // What each storage call does
  // ---------------------------------------------------------------------------

  /**
   A claim that goes through takes an event nobody has stored, or one that failed under the same payload; it is told of
   a conflict under another payload, and otherwise that the event is done or in hand. One that throws is told nothing.
   */
  lemma ClaimStep(s: System, i: nat, fault: Fault)
    requires |s.calls| == |s.phases| && i < |s.phases| && s.phases[i].Fresh?
    ensures var t, id, p := Step(s, i, fault), s.calls[i].eventId, s.calls[i].fingerprint;
            var free := id !in s.ledger || s.ledger[id] == Record(p, Failed);
            && t.ledger == (if free && !fault.ThrowsBefore? then s.ledger[id := Record(p, Processing)] else s.ledger)
            && t.phases[i] == (if !fault.NoFault? then Returned(IdempotencyUnavailable)
                               else if free then Holding
                               else if s.ledger[id].fingerprint != p then Returned(IdempotencyConflict)
                               else if s.ledger[id].status == Completed then Returned(Accepted(true))
                               else Returned(SettlementInProgress))
  {
  }

  /** The holder completes its event and is accepted, or, if that throws, fails it; the payload on record stays. */
  lemma HolderStep(s: System, i: nat, fault: Fault)
    requires Inv(s) && i < |s.phases| && Holder(s, i)
    ensures var t, id := Step(s, i, fault), s.calls[i].eventId;
            && id in s.ledger
            && (var status := if fault.ThrowsBefore? then s.ledger[id].status
                              else if s.phases[i].Holding? then Completed else Failed;
                t.ledger == s.ledger[id := Record(s.calls[i].fingerprint, status)])
            && t.phases[i] == (if s.phases[i].Failing? then Returned(IdempotencyUnavailable)
                               else if fault.NoFault? then Returned(Accepted(false))
                               else Failing)
  {
    assert HolderFits(s, i);
  }

  /** The first payload an event id is stored with is the one it keeps, whatever calls follow. */
  lemma {:induction false} FirstPayloadBinds(s: System, actions: seq<Action>, id: string)
    requires Inv(s) && id in s.ledger
    ensures id in Execute(s, actions).ledger
    ensures Execute(s, actions).ledger[id].fingerprint == s.ledger[id].fingerprint
    decreases |actions|
  {
    if actions == [] {
    } else {
      NextInv(s, actions[0]);
      FirstPayloadBinds(Next(s, actions[0]), actions[1..], id);
    }
  }

  // ---------------------------------------------------------------------------
  // Main results
  // ---------------------------------------------------------------------------

  /** Whatever the interleaving and the faults, at most one call per event id is accepted as new. */
  lemma AtMostOneAcceptance(ledger: Ledger, calls: seq<Call>, actions: seq<Action>, i: nat, j: nat)
    requires i < |calls| && j < |calls| && i != j && calls[i].eventId == calls[j].eventId
    ensures var s := Execute(Start(ledger, calls), actions); !(Won(s, i) && Won(s, j))
  {
    ExecuteInv(Start(ledger, calls), actions);
  }

  /** An acceptance is final: the winner and its ledger entry never change again. */
  lemma {:induction false} AcceptanceIsFinal(s: System, i: nat, actions: seq<Action>)
    requires Inv(s) && i < |s.phases| && Won(s, i)
    ensures Won(Execute(s, actions), i)
    ensures s.calls[i].eventId in Execute(s, actions).ledger
    ensures Execute(s, actions).ledger[s.calls[i].eventId] == Record(s.calls[i].fingerprint, Completed)
    decreases |actions|
  {
    assert HolderFits(s, i);
    if actions == [] {
    } else {
      NextInv(s, actions[0]);
      AcceptanceIsFinal(Next(s, actions[0]), i, actions[1..]);
    }
  }

  /** After an acceptance every claim of the event is a duplicate for the same payload and a conflict otherwise. */
  lemma AfterAcceptance(ledger: Ledger, calls: seq<Call>, past: seq<Action>, future: seq<Action>, i: nat, late: Call)
    requires i < |calls| && Won(Execute(Start(ledger, calls), past), i)
    requires late.eventId == calls[i].eventId
    ensures var t := Execute(Execute(Start(ledger, calls), past), future);
            ClaimOf(t.ledger, late.eventId, late.fingerprint) ==
            if late.fingerprint == calls[i].fingerprint then Duplicate else Conflict
  {
    ExecuteInv(Start(ledger, calls), past);
    AcceptanceIsFinal(Execute(Start(ledger, calls), past), i, future);
  }

  /** An entry left in processing with nobody working on it blocks its event for ever. */
  ghost predicate Orphaned(s: System, id: string)
    requires |s.calls| == |s.phases|
  {
    && id in s.ledger && s.ledger[id].status == Processing
    && forall i: nat | i < |s.phases| && s.calls[i].eventId == id :: !Holder(s, i) && !Won(s, i)
  }

  lemma {:induction false} OrphanStaysBlocked(s: System, id: string, actions: seq<Action>)
    requires Inv(s) && Orphaned(s, id)
    ensures Orphaned(Execute(s, actions), id)
    decreases |actions|
  {
    if actions == [] {
    } else {
      NextInv(s, actions[0]);
      OrphanStaysBlocked(Next(s, actions[0]), id, actions[1..]);
    }
  }

  /**
   The three ways to abandon an event: the holder of its processing row dies, a claim throws after having
   taken effect, or a `fail` throws before it while the row is still in processing.
   */
  predicate Abandons(s: System, a: Action, id: string)
    requires |s.calls| == |s.phases|
  {
    && a.call < |s.phases| && s.calls[a.call].eventId == id
    && if a.Advance? && s.phases[a.call].Fresh? then
         a.fault.ThrowsAfter? && ClaimOf(s.ledger, id, s.calls[a.call].fingerprint).Claimed?
       else
         && Holder(s, a.call) && id in s.ledger && s.ledger[id].status == Processing
         && (a.Die? || (s.phases[a.call].Failing? && a.fault.ThrowsBefore?))
  }

  /** An event becomes orphaned exactly when it is abandoned in one of these ways. */
  lemma OrphanedWhenAbandoned(s: System, a: Action, id: string)
    requires Inv(s) && !Orphaned(s, id)
    ensures Orphaned(Next(s, a), id) <==> Abandons(s, a, id)
  {
    if Abandons(s, a, id) {
      AbandonedOrphans(s, a, id);
    } else {
      OthersAttend(s, a, id);
    }
  }

  lemma AbandonedOrphans(s: System, a: Action, id: string)
    requires Inv(s) && Abandons(s, a, id)
    ensures Orphaned(Next(s, a), id)
  {
    assert HolderFits(s, a.call);
    forall i: nat | i < |s.phases| && s.calls[i].eventId == id && i != a.call ensures !Holder(s, i) && !Won(s, i) {
      assert HolderFits(s, i);
    }
  }

  lemma OthersAttend(s: System, a: Action, id: string)
    requires Inv(s) && !Orphaned(s, id) && !Abandons(s, a, id)
    ensures !Orphaned(Next(s, a), id)
  {
    var t := Next(s, a);
    if a.call < |s.phases| {
      assert HolderFits(s, a.call);
    }
    if id in s.ledger && s.ledger[id].status == Processing {
      var i: nat :| i < |s.phases| && s.calls[i].eventId == id && (Holder(s, i) || Won(s, i));
      assert HolderFits(s, i);
      assert Holder(t, i) || t.ledger[id].status != Processing;
    } else if id in t.ledger && t.ledger[id].status == Processing {
      assert Holder(t, a.call);
    }
  }

  /** A worker that dies between its claim and its completion orphans the event. */
  lemma DeathOrphans(s: System, i: nat)
    requires Inv(s) && i < |s.phases| && s.phases[i].Holding?
    ensures Orphaned(Next(s, Die(i)), s.calls[i].eventId)
  {
    assert HolderFits(s, i);
    OrphanedWhenAbandoned(s, Die(i), s.calls[i].eventId);
  }

  // ---------------------------------------------------------------------------
  // What a duplicate reply is worth
  // ---------------------------------------------------------------------------

  ghost predicate SomeWinner(s: System, id: string)
    requires |s.calls| == |s.phases|
  {
    exists i: nat :: i < |s.phases| && s.calls[i].eventId == id && Won(s, i)
  }

  /** No `complete` throws after having taken effect. */
  ghost predicate HonestCompletes(s: System, actions: seq<Action>)
    requires |s.calls| == |s.phases|
    decreases |actions|
  {
    actions == [] ||
    (&& (actions[0].Advance? && actions[0].call < |s.phases| && s.phases[actions[0].call].Holding? ==>
           !actions[0].fault.ThrowsAfter?)
     && HonestCompletes(Next(s, actions[0]), actions[1..]))
  }

  ghost predicate CompletedWereWon(s: System)
    requires |s.calls| == |s.phases|
  {
    forall id | id in s.ledger && s.ledger[id].status == Completed :: SomeWinner(s, id)
  }

  lemma HonestStep(s: System, a: Action)
    requires Inv(s) && CompletedWereWon(s)
    requires a.Advance? && a.call < |s.phases| && s.phases[a.call].Holding? ==> !a.fault.ThrowsAfter?
    ensures CompletedWereWon(Next(s, a))
  {
    var t := Next(s, a);
    forall id | id in t.ledger && t.ledger[id].status == Completed ensures SomeWinner(t, id) {
      if id in s.ledger && s.ledger[id].status == Completed {
        var i: nat :| i < |s.phases| && s.calls[i].eventId == id && Won(s, i);
        assert Won(t, i);
      } else {
        assert Won(t, a.call);
      }
    }
  }

  /** If completes never throw after taking effect, a duplicate reply means the event has been accepted. */
  lemma {:induction false} DuplicateMeansAccepted(s: System, actions: seq<Action>, id: string, fingerprint: string)
    requires Inv(s) && CompletedWereWon(s) && HonestCompletes(s, actions)
    requires ClaimOf(Execute(s, actions).ledger, id, fingerprint).Duplicate?
    ensures SomeWinner(Execute(s, actions), id)
    decreases |actions|
  {
    if actions == [] {
    } else {
      NextInv(s, actions[0]);
      HonestStep(s, actions[0]);
      DuplicateMeansAccepted(Next(s, actions[0]), actions[1..], id, fingerprint);
    }
  }

  /** At every point of the run, every completed event has been accepted by some call. */
  ghost predicate AlwaysWon(s: System, actions: seq<Action>)
    requires |s.calls| == |s.phases|
    decreases |actions|
  {
    CompletedWereWon(s) && (actions == [] || AlwaysWon(Next(s, actions[0]), actions[1..]))
  }

  /** A complete that throws after having taken effect leaves a completed event that nobody won. */
  lemma DishonestStep(s: System, i: nat)
    requires Inv(s) && i < |s.phases| && s.phases[i].Holding?
    ensures !CompletedWereWon(Next(s, Advance(i, ThrowsAfter)))
  {
    var t := Next(s, Advance(i, ThrowsAfter));
    assert HolderFits(s, i);
    var id := s.calls[i].eventId;
    assert id in t.ledger && t.ledger[id].status == Completed;
    forall j: nat | j < |t.phases| && t.calls[j].eventId == id ensures !Won(t, j) {
      assert j != i ==> t.phases[j] == s.phases[j];
    }
  }

  /** Duplicate replies can be trusted throughout a run exactly when no complete throws after taking effect. */
  lemma {:induction false} TrustedIffHonest(s: System, actions: seq<Action>)
    requires Inv(s) && CompletedWereWon(s)
    ensures AlwaysWon(s, actions) <==> HonestCompletes(s, actions)
    decreases |actions|
  {
    if actions == [] {
    } else {
      var a := actions[0];
      NextInv(s, a);
      if a.Advance? && a.call < |s.phases| && s.phases[a.call].Holding? && a.fault.ThrowsAfter? {
        DishonestStep(s, a.call);
      } else {
        HonestStep(s, a);
        TrustedIffHonest(Next(s, a), actions[1..]);
      }
    }
  }

  /** Otherwise a caller can be told "duplicate" for an event that then fails and was never accepted. */
  lemma PhantomDuplicate(id: string, fingerprint: string)
    ensures var calls := [Call(id, fingerprint), Call(id, fingerprint)];
            var actions := [Advance(0, NoFault), Advance(0, ThrowsAfter), Advance(1, NoFault), Advance(0, NoFault)];
            var s := Execute(Start(map[], calls), actions);
            && s.phases == [Returned(IdempotencyUnavailable), Returned(Accepted(true))]
            && s.ledger == map[id := Record(fingerprint, Failed)]
  {
  }

  // ---------------------------------------------------------------------------
  // One call from start to finish on the in-memory stores
  // ---------------------------------------------------------------------------

  datatype Event = Event(
    eventId: string, eventType: string, streamId: string, sequence: Option<int>, fingerprint: string)

  predicate IsMeteringEvent(eventType: string) {
    eventType == "metering" || eventType == "metered" || eventType == "usage_recorded"
  }

  function MeteringReply(d: Metering.Decision): Reply {
    match d
    case Gap(e, r) => MeteringGap(e, r)
    case GapTooLarge(e, r) => MeteringGap(e, r)
    case Late(c) => LateMeteringEvent(c)
    case Duplicate(_) => Accepted(true)
    case Accepted(_) => Accepted(false)
  }

  /** What a metering event is told, where its stream has n events. */
  lemma MeteringReplyExact(rows: Metering.Ledger, q: Metering.Request)
    requires Metering.Contiguous(rows)
    ensures var n := |Metering.EventsOf(rows, q.streamId)|;
            MeteringReply(Metering.Decide(rows, q)) ==
            if q.eventId in rows then Accepted(true)
            else if q.sequence <= n then LateMeteringEvent(n)
            else if q.sequence == n + 1 then Accepted(false)
            else MeteringGap(n + 1, q.sequence)
  {
    Metering.AnswerExact(rows, q);
  }

  class EventIngestionService {
    const processedEvents: InMemoryProcessedIndexerEventStore
    const meteringCheckpoints: Metering.InMemoryMeteringCheckpointStore

    constructor (events: InMemoryProcessedIndexerEventStore, checkpoints: Metering.InMemoryMeteringCheckpointStore)
      ensures processedEvents == events && meteringCheckpoints == checkpoints
    {
      processedEvents := events;
      meteringCheckpoints := checkpoints;
    }

    /** An event whose signature and body have been checked. */
    method Ingest(event: Event) returns (r: Reply)
      modifies processedEvents, meteringCheckpoints
      ensures event.eventType in ["metering", "metered", "usage_recorded"] ==>
                && processedEvents.events == old(processedEvents.events)
                && (event.sequence.None? ==>
                      r == InvalidPayload && meteringCheckpoints.events == old(meteringCheckpoints.events))
                && (event.sequence.Some? ==>
                      var q := Metering.Request(event.streamId, event.eventId, event.sequence.value);
                      && r == MeteringReply(Metering.Decide(old(meteringCheckpoints.events), q))
                      && meteringCheckpoints.events == Metering.Applied(old(meteringCheckpoints.events), q))
      ensures event.eventType !in ["metering", "metered", "usage_recorded"] ==>
                && meteringCheckpoints.events == old(meteringCheckpoints.events)
                && var s := Execute(Start(old(processedEvents.events), [Call(event.eventId, event.fingerprint)]),
                                    [Advance(0, NoFault), Advance(0, NoFault)]);
                   s.ledger == processedEvents.events && s.phases == [Returned(r)]
    {
      if IsMeteringEvent(event.eventType) {
        if event.sequence.None? {
          return InvalidPayload;
        }
        var checkpoint := meteringCheckpoints.Apply(event.streamId, event.eventId, event.sequence.value);
        return MeteringReply(checkpoint);
      }
      ghost var s0 := Start(processedEvents.events, [Call(event.eventId, event.fingerprint)]);
      ghost var steps := [Advance(0, NoFault), Advance(0, NoFault)];
      ghost var s1 := Next(s0, steps[0]);
      ghost var s2 := Next(s1, steps[1]);
      assert Execute(s0, steps) == Execute(s1, steps[1..]) == Execute(s2, steps[1..][1..]) == s2;
      var claim := processedEvents.Claim(event.eventId, event.fingerprint);
      if claim.Conflict? {
        return IdempotencyConflict;
      }
      if claim.InProgress? {
        return SettlementInProgress;
      }
      if claim.Claimed? {
        processedEvents.Complete(event.eventId);
      }
      return Accepted(claim.Duplicate?);
    }
  }
}
