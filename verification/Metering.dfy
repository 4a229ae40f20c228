/** Contiguous per-stream acceptance of metering events: the atomic, in-memory form. */
module Metering {
  import opened Prelude

  const MAX_METERING_GAP := 100

  datatype Entry = Entry(streamId: string, sequence: int)

  /** Accepted events by event id. */
  type Ledger = map<string, Entry>

  datatype Request = Request(streamId: string, eventId: string, sequence: int)

  datatype Decision =
    | Accepted(nextSequence: int)
    | Duplicate(nextSequence: int)
    | Late(checkpoint: int)
    | Gap(expectedSequence: int, receivedSequence: int)
    | GapTooLarge(expectedSequence: int, receivedSequence: int)

  ghost function MaxOf(s: set<int>): (m: int)
    ensures m >= 0 && (m == 0 || m in s)
    ensures forall x | x in s :: x <= m
  {
    if !(exists x :: x in s) then 0
    else
      var x :| x in s;
      var m := MaxOf(s - {x});
      assert s == s - {x} + {x};
      if x >= m then x else m
  }

  ghost function Sequences(rows: Ledger, stream: string): set<int> {
    set id | id in rows && rows[id].streamId == stream :: rows[id].sequence
  }

  /** The highest sequence accepted on a stream, zero before the first. */
  ghost function Checkpoint(rows: Ledger, stream: string): (c: int)
    ensures c >= 0
  {
    MaxOf(Sequences(rows, stream))
  }

  function DecideAt(checkpoint: int, sequence: int): Decision {
    var expected := checkpoint + 1;
    if sequence < expected then Late(checkpoint)
    else if sequence > expected + MAX_METERING_GAP then GapTooLarge(expected, sequence)
    else if sequence > expected then Gap(expected, sequence)
    else Accepted(sequence)
  }

  ghost function Decide(rows: Ledger, r: Request): Decision {
    if r.eventId in rows then Duplicate(rows[r.eventId].sequence)
    else DecideAt(Checkpoint(rows, r.streamId), r.sequence)
  }

  ghost function Applied(rows: Ledger, r: Request): Ledger {
    if Decide(rows, r).Accepted? then rows[r.eventId := Entry(r.streamId, r.sequence)] else rows
  }

  class InMemoryMeteringCheckpointStore {
    var events: map<string, Entry>

    constructor ()
      ensures events == map[]
    {
      events := map[];
    }

    method Apply(streamId: string, eventId: string, sequence: int) returns (d: Decision)
      modifies this
      ensures d == Decide(old(events), Request(streamId, eventId, sequence))
      ensures events == Applied(old(events), Request(streamId, eventId, sequence))
    {
      if eventId in events {
        return Duplicate(events[eventId].sequence);
      }
      var checkpoint := 0;
      var pending := events.Keys;
      while pending != {}
        invariant pending <= events.Keys && checkpoint >= 0
        invariant forall id | id in events.Keys - pending && events[id].streamId == streamId ::
                    events[id].sequence <= checkpoint
        invariant checkpoint == 0 || checkpoint in Sequences(events, streamId)
        invariant events == old(events)
        decreases pending
      {
        var id :| id in pending;
        if events[id].streamId == streamId && events[id].sequence > checkpoint {
          checkpoint := events[id].sequence;
        }
        pending := pending - {id};
      }
      CheckpointIs(events, streamId, checkpoint);
      var expectedSequence := checkpoint + 1;
      if sequence < expectedSequence {
        return Late(checkpoint);
      }
      if sequence > expectedSequence + MAX_METERING_GAP {
        return GapTooLarge(expectedSequence, sequence);
      }
      if sequence > expectedSequence {
        return Gap(expectedSequence, sequence);
      }
      events := events[eventId := Entry(streamId, sequence)];
      return Accepted(sequence);
    }

    method Reset()
      modifies this
      ensures events == map[]
    {
      events := map[];
    }
  }

  lemma CheckpointIs(rows: Ledger, stream: string, c: int)
    requires c >= 0 && (c == 0 || c in Sequences(rows, stream))
    requires forall id | id in rows && rows[id].streamId == stream :: rows[id].sequence <= c
    ensures Checkpoint(rows, stream) == c
  {
    var m := Checkpoint(rows, stream);
    assert forall x | x in Sequences(rows, stream) :: x <= c;
  }

  lemma CheckpointBounds(rows: Ledger, stream: string)
    ensures forall id | id in rows && rows[id].streamId == stream ::
              rows[id].sequence <= Checkpoint(rows, stream)
  {
    forall id | id in rows && rows[id].streamId == stream
      ensures rows[id].sequence <= Checkpoint(rows, stream)
    {
      assert rows[id].sequence in Sequences(rows, stream);
    }
  }

  /** What one accepted event does to every stream's checkpoint. */
  lemma CheckpointAfter(rows: Ledger, r: Request, stream: string)
    ensures Checkpoint(Applied(rows, r), stream) ==
            if Decide(rows, r).Accepted? && stream == r.streamId then Checkpoint(rows, stream) + 1
            else Checkpoint(rows, stream)
  {
    if Decide(rows, r).Accepted? {
      var next := Applied(rows, r);
      CheckpointBounds(rows, stream);
      if stream == r.streamId {
        assert next[r.eventId].sequence in Sequences(next, stream);
        CheckpointIs(next, stream, r.sequence);
      } else {
        var c := Checkpoint(rows, stream);
        if c != 0 {
          var id :| id in rows && rows[id].streamId == stream && rows[id].sequence == c;
          assert next[id].sequence in Sequences(next, stream);
        }
        CheckpointIs(next, stream, c);
      }
    }
  }

  // ---------------------------------------------------------------------------
  // Contiguity in every reachable state
  // ---------------------------------------------------------------------------

  ghost predicate At(rows: Ledger, stream: string, sequence: int, id: string) {
    id in rows && rows[id] == Entry(stream, sequence)
  }

  ghost predicate Filled(rows: Ledger, stream: string, sequence: int) {
    exists id :: At(rows, stream, sequence, id)
  }

  ghost predicate Bounded(rows: Ledger) {
    forall id | id in rows :: 1 <= rows[id].sequence <= Checkpoint(rows, rows[id].streamId)
  }

  ghost predicate OneEventEach(rows: Ledger) {
    forall id, other | id in rows && other in rows && rows[id] == rows[other] :: id == other
  }

  ghost predicate Dense(rows: Ledger) {
    forall stream, q | 1 <= q <= Checkpoint(rows, stream) :: Filled(rows, stream, q)
  }

  /** Each stream's accepted sequences are exactly 1..checkpoint, one event each. */
  ghost predicate Contiguous(rows: Ledger) {
    Bounded(rows) && OneEventEach(rows) && Dense(rows)
  }

  /** The store after a list of requests. */
  ghost function Run(rows: Ledger, requests: seq<Request>): Ledger {
    if requests == [] then rows
    else Applied(Run(rows, requests[..|requests| - 1]), requests[|requests| - 1])
  }

  lemma EmptyContiguous()
    ensures Contiguous(map[])
  {
    forall stream ensures Checkpoint(map[], stream) == 0 {
      CheckpointIs(map[], stream, 0);
    }
  }

  lemma AcceptBounded(rows: Ledger, r: Request)
    requires Bounded(rows) && Decide(rows, r).Accepted?
    ensures Bounded(Applied(rows, r))
  {
    var next := Applied(rows, r);
    forall id | id in next ensures 1 <= next[id].sequence <= Checkpoint(next, next[id].streamId) {
      CheckpointAfter(rows, r, next[id].streamId);
    }
  }

  lemma AcceptDense(rows: Ledger, r: Request)
    requires Dense(rows) && Decide(rows, r).Accepted?
    ensures Dense(Applied(rows, r))
  {
    var next := Applied(rows, r);
    forall stream, q | 1 <= q <= Checkpoint(next, stream) ensures Filled(next, stream, q) {
      CheckpointAfter(rows, r, stream);
      if q <= Checkpoint(rows, stream) {
        assert Filled(rows, stream, q);
        var id :| At(rows, stream, q, id);
        assert At(next, stream, q, id);
      } else {
        assert At(next, stream, q, r.eventId);
      }
    }
  }

  lemma ApplyContiguous(rows: Ledger, r: Request)
    requires Contiguous(rows)
    ensures Contiguous(Applied(rows, r))
  {
    if Decide(rows, r).Accepted? {
      AcceptBounded(rows, r);
      AcceptDense(rows, r);
      CheckpointBounds(rows, r.streamId);
    }
  }

  /** In every reachable state acceptance is contiguous. */
  lemma {:induction false} RunContiguous(rows: Ledger, requests: seq<Request>)
    requires Contiguous(rows)
    ensures Contiguous(Run(rows, requests))
  {
    if requests == [] {
    } else {
      RunContiguous(rows, requests[..|requests| - 1]);
      ApplyContiguous(Run(rows, requests[..|requests| - 1]), requests[|requests| - 1]);
    }
  }

  /** The binding of an accepted event id never changes. */
  lemma {:induction false} BindingsKept(rows: Ledger, requests: seq<Request>, id: string)
    requires id in rows
    ensures id in Run(rows, requests) && Run(rows, requests)[id] == rows[id]
  {
    if requests == [] {
    } else {
      BindingsKept(rows, requests[..|requests| - 1], id);
    }
  }

  ghost function EventsUpTo(rows: Ledger, stream: string, c: int): set<string> {
    set id | id in rows && rows[id].streamId == stream && rows[id].sequence <= c
  }

  /** The scanned maximum is also the number of events the stream has. */
  lemma {:induction false} CheckpointCountsEvents(rows: Ledger, stream: string, c: nat)
    requires Contiguous(rows) && c <= Checkpoint(rows, stream)
    ensures |EventsUpTo(rows, stream, c)| == c
    ensures c == Checkpoint(rows, stream) ==>
              EventsUpTo(rows, stream, c) == set id | id in rows && rows[id].streamId == stream
  {
    if c == 0 {
      assert EventsUpTo(rows, stream, c) == {};
    } else {
      CheckpointCountsEvents(rows, stream, c - 1);
      assert Filled(rows, stream, c);
      var id :| At(rows, stream, c, id);
      OneMoreEvent(rows, stream, c, id);
    }
    CheckpointBounds(rows, stream);
  }

  lemma OneMoreEvent(rows: Ledger, stream: string, c: int, id: string)
    requires OneEventEach(rows) && At(rows, stream, c, id)
    ensures id !in EventsUpTo(rows, stream, c - 1)
    ensures EventsUpTo(rows, stream, c) == EventsUpTo(rows, stream, c - 1) + {id}
  {
    forall other | other in EventsUpTo(rows, stream, c) && other != id
      ensures other in EventsUpTo(rows, stream, c - 1)
    {
      assert rows[other] != rows[id];
    }
  }

  ghost function EventsOf(rows: Ledger, stream: string): set<string> {
    set id | id in rows && rows[id].streamId == stream
  }

  /**
   Where a stream has n events, a new event is accepted, and stored, exactly at n + 1; below that it is late, and above
   it the gap is too large when a hundred more are missing. A known event id is a duplicate of what was stored.
   */
  lemma AnswerExact(rows: Ledger, r: Request)
    requires Contiguous(rows)
    ensures var n := |EventsOf(rows, r.streamId)|;
            && Decide(rows, r) == (if r.eventId in rows then Duplicate(rows[r.eventId].sequence)
                                   else if r.sequence <= n then Late(n)
                                   else if r.sequence == n + 1 then Accepted(n + 1)
                                   else if r.sequence <= n + 101 then Gap(n + 1, r.sequence)
                                   else GapTooLarge(n + 1, r.sequence))
            && Applied(rows, r) == if r.eventId !in rows && r.sequence == n + 1
                                   then rows[r.eventId := Entry(r.streamId, n + 1)] else rows
  {
    CheckpointCountsEvents(rows, r.streamId, Checkpoint(rows, r.streamId));
  }

  /** At most one delivery of an event id is ever accepted. */
  lemma AcceptedOnce(rows: Ledger, r: Request, later: seq<Request>, again: Request)
    requires Decide(rows, r).Accepted? && again.eventId == r.eventId
    ensures Decide(Run(Applied(rows, r), later), again) == Duplicate(r.sequence)
  {
    BindingsKept(Applied(rows, r), later, r.eventId);
  }

  // ---------------------------------------------------------------------------
  // What a delivery schedule achieves
  // ---------------------------------------------------------------------------

  /** Positions, in delivery order, of a stream's events `from`+1, `from`+2, ... */
  ghost predicate Picks(deliveries: seq<Request>, stream: string, from: int, picks: seq<int>) {
    && (forall j | 0 <= j < |picks| ::
          && 0 <= picks[j] < |deliveries|
          && deliveries[picks[j]].streamId == stream
          && deliveries[picks[j]].sequence == from + 1 + j)
    && (forall i, j | 0 <= i < j < |picks| :: picks[i] < picks[j])
  }

  /** The sequences `from`+1 .. `from`+k occur in the list as an ordered subsequence. */
  ghost predicate OccursInOrder(deliveries: seq<Request>, stream: string, from: int, k: int) {
    exists picks :: |picks| == k && Picks(deliveries, stream, from, picks)
  }

  /** The stream's events carry one id per sequence, shared with no other stream and not used up before. */
  ghost predicate Schedule(rows: Ledger, deliveries: seq<Request>, stream: string) {
    && (forall i, j | 0 <= i < |deliveries| && 0 <= j < |deliveries|
                      && deliveries[i].streamId == stream && deliveries[j].streamId == stream ::
          deliveries[i].eventId == deliveries[j].eventId <==> deliveries[i].sequence == deliveries[j].sequence)
    && (forall i, j | 0 <= i < |deliveries| && 0 <= j < |deliveries|
                      && deliveries[i].streamId == stream && deliveries[j].streamId != stream ::
          deliveries[i].eventId != deliveries[j].eventId)
    && Unused(rows, deliveries, stream, Checkpoint(rows, stream))
  }

  ghost predicate Unused(rows: Ledger, deliveries: seq<Request>, stream: string, above: int) {
    forall i | 0 <= i < |deliveries| && deliveries[i].streamId == stream && deliveries[i].sequence > above ::
      deliveries[i].eventId !in rows
  }

  lemma PicksShorter(deliveries: seq<Request>, stream: string, from: int, picks: seq<int>, n: nat)
    requires n < |deliveries| && Picks(deliveries[..n + 1], stream, from, picks)
    requires picks != []
    ensures Picks(deliveries[..n], stream, from, picks[..|picks| - 1])
    ensures picks[|picks| - 1] != n ==> Picks(deliveries[..n], stream, from, picks)
  {
  }

  /** The checkpoint is reached by an ordered subsequence of the deliveries and by no longer one. */
  ghost predicate Explained(
    rows: Ledger, deliveries: seq<Request>, n: nat, stream: string, from: int, picks: seq<int>)
    requires n <= |deliveries|
  {
    var now := Checkpoint(rows, stream);
    && |picks| == now - from
    && Picks(deliveries[..n], stream, from, picks)
    && (forall others | Picks(deliveries[..n], stream, from, others) :: |others| <= now - from)
    && Unused(rows, deliveries, stream, now)
  }

  lemma ExplainNext(rows: Ledger, deliveries: seq<Request>, n: nat, stream: string, from: int, picks: seq<int>)
    returns (next: seq<int>)
    requires n < |deliveries| && Explained(rows, deliveries, n, stream, from, picks)
    requires Schedule(rows, deliveries, stream)
    ensures Explained(Applied(rows, deliveries[n]), deliveries, n + 1, stream, from, next)
  {
    next := NextPicks(rows, deliveries, n, stream, from, picks);
    forall others | Picks(deliveries[..n + 1], stream, from, others)
      ensures |others| <= Checkpoint(Applied(rows, deliveries[n]), stream) - from
    {
      NoLongerPicks(rows, deliveries, n, stream, from, others);
    }
    NextUnused(rows, deliveries, n, stream);
  }

  lemma NextPicks(rows: Ledger, deliveries: seq<Request>, n: nat, stream: string, from: int, picks: seq<int>)
    returns (next: seq<int>)
    requires n < |deliveries| && Picks(deliveries[..n], stream, from, picks)
    requires |picks| == Checkpoint(rows, stream) - from
    ensures Picks(deliveries[..n + 1], stream, from, next)
    ensures |next| == Checkpoint(Applied(rows, deliveries[n]), stream) - from
  {
    var r := deliveries[n];
    next := if Decide(rows, r).Accepted? && r.streamId == stream then picks + [n] else picks;
    CheckpointAfter(rows, r, stream);
    PicksExtend(deliveries, n, stream, from, picks);
  }

  lemma PicksExtend(deliveries: seq<Request>, n: nat, stream: string, from: int, picks: seq<int>)
    requires n < |deliveries| && Picks(deliveries[..n], stream, from, picks)
    ensures Picks(deliveries[..n + 1], stream, from, picks)
    ensures deliveries[n].streamId == stream && deliveries[n].sequence == from + 1 + |picks| ==>
              Picks(deliveries[..n + 1], stream, from, picks + [n])
  {
    var longer := deliveries[..n + 1];
    assert forall i | 0 <= i < n :: longer[i] == deliveries[..n][i];
    assert longer[n] == deliveries[n];
  }

  lemma PickInRange(deliveries: seq<Request>, stream: string, from: int, picks: seq<int>)
    requires picks != [] && Picks(deliveries, stream, from, picks)
    ensures deliveries != []
  {
    assert 0 <= picks[0] < |deliveries|;
  }

  lemma NoLongerPicks(rows: Ledger, deliveries: seq<Request>, n: nat, stream: string, from: int, others: seq<int>)
    requires n < |deliveries| && Unused(rows, deliveries, stream, Checkpoint(rows, stream))
    requires from <= Checkpoint(rows, stream)
    requires forall shorter | Picks(deliveries[..n], stream, from, shorter) ::
               |shorter| <= Checkpoint(rows, stream) - from
    requires Picks(deliveries[..n + 1], stream, from, others)
    ensures |others| <= Checkpoint(Applied(rows, deliveries[n]), stream) - from
  {
    CheckpointAfter(rows, deliveries[n], stream);
    if others != [] {
      var last := |others| - 1;
      PicksShorter(deliveries, stream, from, others, n);
      assert |others[..last]| == last;
      if others[last] == n {
        assert deliveries[n].sequence == from + 1 + last;
      }
    }
  }

  lemma NextUnused(rows: Ledger, deliveries: seq<Request>, n: nat, stream: string)
    requires n < |deliveries| && Schedule(rows, deliveries, stream)
    ensures Unused(Applied(rows, deliveries[n]), deliveries, stream, Checkpoint(Applied(rows, deliveries[n]), stream))
  {
    CheckpointAfter(rows, deliveries[n], stream);
  }

  lemma ExplainNothing(rows: Ledger, deliveries: seq<Request>, stream: string)
    requires Schedule(rows, deliveries, stream)
    ensures Explained(rows, deliveries, 0, stream, Checkpoint(rows, stream), [])
  {
    var from := Checkpoint(rows, stream);
    forall others | Picks(deliveries[..0], stream, from, others) ensures |others| <= 0 {
      if others != [] {
        PickInRange(deliveries[..0], stream, from, others);
      }
    }
  }

  lemma RunLast(rows: Ledger, deliveries: seq<Request>, n: nat)
    requires 0 < n <= |deliveries|
    ensures Run(rows, deliveries[..n]) == Applied(Run(rows, deliveries[..n - 1]), deliveries[n - 1])
  {
    assert deliveries[..n][..n - 1] == deliveries[..n - 1];
  }

  lemma {:induction false} ExplainRun(rows: Ledger, deliveries: seq<Request>, stream: string, n: nat)
    returns (picks: seq<int>)
    requires Schedule(rows, deliveries, stream) && n <= |deliveries|
    ensures Explained(Run(rows, deliveries[..n]), deliveries, n, stream, Checkpoint(rows, stream), picks)
  {
    var from := Checkpoint(rows, stream);
    if n == 0 {
      picks := [];
      ExplainNothing(rows, deliveries, stream);
    } else {
      var before := ExplainRun(rows, deliveries, stream, n - 1);
      picks := ExplainNext(Run(rows, deliveries[..n - 1]), deliveries, n - 1, stream, from, before);
      RunLast(rows, deliveries, n);
    }
  }

  /** After any delivery list the checkpoint is the largest k such that 1..k arrived in order. */
  lemma ScheduleCharacterisation(rows: Ledger, deliveries: seq<Request>, stream: string, k: nat)
    requires Schedule(rows, deliveries, stream)
    ensures var from := Checkpoint(rows, stream);
            OccursInOrder(deliveries, stream, from, k)
            <==> from + k <= Checkpoint(Run(rows, deliveries), stream)
  {
    var from := Checkpoint(rows, stream);
    assert deliveries[..|deliveries|] == deliveries;
    var picks := ExplainRun(rows, deliveries, stream, |deliveries|);
    if k <= |picks| {
      assert Picks(deliveries, stream, from, picks[..k]);
    }
  }
}
