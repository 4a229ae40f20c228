/** The claim / complete / fail ledger of indexer events: the in-memory store. */
module ProcessedEvents {

  datatype Status = Processing | Completed | Failed

  datatype Record = Record(fingerprint: string, status: Status)

  type Ledger = map<string, Record>

  datatype Claim = Claimed | Duplicate | InProgress | Conflict

  function ClaimOf(ledger: Ledger, id: string, fingerprint: string): Claim {
    if id !in ledger then Claimed
    else if ledger[id].fingerprint != fingerprint then Conflict
    else match ledger[id].status
      case Completed => Duplicate
      case Processing => InProgress
      case Failed => Claimed
  }

  /** A claim takes the event only when it answers `Claimed`. */
  function Claiming(ledger: Ledger, id: string, fingerprint: string): Ledger {
    if ClaimOf(ledger, id, fingerprint).Claimed? then ledger[id := Record(fingerprint, Processing)] else ledger
  }

  function Marking(ledger: Ledger, id: string, status: Status): Ledger {
    if id in ledger then ledger[id := ledger[id].(status := status)] else ledger
  }

  class InMemoryProcessedIndexerEventStore {
    var events: map<string, Record>

    constructor ()
      ensures events == map[]
    {
      events := map[];
    }

    method Claim(eventId: string, fingerprint: string) returns (c: Claim)
      modifies this
      ensures c == ClaimOf(old(events), eventId, fingerprint)
      ensures events == Claiming(old(events), eventId, fingerprint)
    {
      if eventId !in events {
        events := events[eventId := Record(fingerprint, Processing)];
        return Claimed;
      }
      var existing := events[eventId];
      if existing.fingerprint != fingerprint {
        return Conflict;
      }
      if existing.status == Completed {
        return Duplicate;
      }
      if existing.status == Processing {
        return InProgress;
      }
      events := events[eventId := existing.(status := Processing)];
      return Claimed;
    }

    method Complete(eventId: string)
      modifies this
      ensures events == Marking(old(events), eventId, Completed)
    {
      if eventId in events {
        events := events[eventId := events[eventId].(status := Completed)];
      }
    }

    method Fail(eventId: string)
      modifies this
      ensures events == Marking(old(events), eventId, Failed)
    {
      if eventId in events {
        events := events[eventId := events[eventId].(status := Failed)];
      }
    }

    method Reset()
      modifies this
      ensures events == map[]
    {
      events := map[];
    }
  }
}
