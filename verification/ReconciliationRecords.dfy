/**
 What a reconciliation run does in terms of the records themselves: which records it corrects,
 by how much, and what it reports about them.
 */
module ReconciliationRecords {
  import opened Prelude
  import opened Decimal
  import opened Reconciliation
  import opened ReconciliationSafety
  import opened ReconciliationWindows
  import opened ReconciliationModes

  /** The record has an id and two readable amounts. */
  ghost predicate Readable(r: Record) {
    !IsBlank(r.id) && MatchesAmount(r.expectedAmount) && MatchesAmount(r.actualAmount)
  }

  /** Its two amounts differ. */
  predicate Wrong(r: Record) {
    && !IsBlank(r.id)
    && ParseDecimal(r.expectedAmount).Some? && ParseDecimal(r.actualAmount).Some?
    && ParseDecimal(r.expectedAmount).value != ParseDecimal(r.actualAmount).value
  }

  /** The difference takes the expected amount to the actual one. */
  predicate Explains(r: Record, difference: string) {
    && ParseDecimal(r.expectedAmount).Some? && ParseDecimal(r.actualAmount).Some? && ParseSigned(difference).Some?
    && ParseDecimal(r.expectedAmount).value + ParseSigned(difference).value == ParseDecimal(r.actualAmount).value
  }

  /** A correction of one of the job's wrong records, by the right amount and under the record's key. */
  ghost predicate Corrects(m: Mismatch, jobId: string, records: seq<Record>) {
    && m.record in records && Wrong(m.record) && Explains(m.record, m.difference)
    && m.operationKey == "reconciliation:" + jobId + ":" + m.record.id
  }

  ghost function Complaint(r: Record): string {
    if IsBlank(r.id) then "reconciliation record id is required"
    else if !MatchesAmount(r.expectedAmount) then "expectedAmount must be a non-negative decimal with up to 9 places"
    else "actualAmount must be a non-negative decimal with up to 9 places"
  }

  // ---------------------------------------------------------------------------
  // One record
  // ---------------------------------------------------------------------------

  lemma ExamineExact(r: Record)
    ensures Examine(r).Malformed? <==> !Readable(r)
    ensures Examine(r).Malformed? ==> Examine(r).message == Complaint(r)
    ensures Examine(r).Differs? <==> Wrong(r)
    ensures Examine(r).Differs? ==> Explains(r, Examine(r).difference)
  {
    ParsesIffMatches(r.expectedAmount);
    ParsesIffMatches(r.actualAmount);
    if MatchesAmount(r.expectedAmount) && MatchesAmount(r.actualAmount) {
      CompareExact(r.expectedAmount, r.actualAmount,
                   ParseDecimal(r.expectedAmount).value, ParseDecimal(r.actualAmount).value);
    } else {
      CompareRejects(r.expectedAmount, r.actualAmount);
    }
  }

  // ---------------------------------------------------------------------------
  // Every correction is right
  // ---------------------------------------------------------------------------

  /** The corrections written are the job's mismatches among these items. */
  ghost predicate WritesFrom(effects: seq<Effect>, c: Config, items: seq<Item>) {
    forall e | e in effects && e.Write? :: c.apply && FromItem(e.mismatch, c.jobId, items)
  }

  ghost predicate FromItem(m: Mismatch, jobId: string, items: seq<Item>) {
    exists item :: item in items && item.verdict.Differs? && m == MismatchOf(jobId, item)
  }

  lemma {:induction false} BatchesWrite(c: Config, items: seq<Item>, cursor: Option<nat>, t: Tally, left: Option<nat>)
    requires c.batchSize >= 1
    ensures WritesFrom(PlanBatches(c, items, cursor, t, left).effects, c, items)
    decreases |items| - StartOf(items, cursor), |items| + 1
  {
    if left == Some(0) {
    } else {
      RecordsWrite(c, items, cursor, StartOf(items, cursor), EndOf(c, items, cursor), t, LessOne(left));
    }
  }

  lemma {:induction false} RecordsWrite(
    c: Config, items: seq<Item>, cursor: Option<nat>, i: nat, end: nat, t: Tally, left: Option<nat>)
    requires c.batchSize >= 1
    requires StartOf(items, cursor) <= i <= end <= |items|
    requires end == EndOf(c, items, cursor)
    ensures WritesFrom(PlanRecords(c, items, cursor, i, end, t, left).effects, c, items)
    decreases |items| - StartOf(items, cursor), |items| - i
  {
    if i == end {
      if end < |items| {
        BatchesWrite(c, items, Some(end), t, left);
      }
    } else if !items[i].verdict.Malformed? {
      RecordsWrite(c, items, cursor, i + 1, end, Counted(c, items[i], t), left);
    }
  }

  lemma FromRecord(m: Mismatch, jobId: string, records: seq<Record>)
    requires FromItem(m, jobId, Examined(records))
    ensures Corrects(m, jobId, records)
  {
    var item :| item in Examined(records) && item.verdict.Differs? && m == MismatchOf(jobId, item);
    ExamineExact(item.record);
  }

  /** What was applied stays in place, and all that follows it are right corrections. */
  ghost predicate OnlyRightAdded(before: Source, after: Source, jobId: string, records: seq<Record>) {
    && before.applied <= after.applied
    && forall i | |before.applied| <= i < |after.applied| :: Corrects(after.applied[i], jobId, records)
  }

  lemma OneAddsRight(s: Source, m: Mismatch, jobId: string, records: seq<Record>)
    requires Corrects(m, jobId, records)
    ensures OnlyRightAdded(s, Applying(s, m), jobId, records)
  {
  }

  lemma {:induction false} EffectsAddRight(w: World, effects: seq<Effect>, c: Config, records: seq<Record>)
    requires WritesFrom(effects, c, Examined(records))
    ensures OnlyRightAdded(w.source, PerformAll(w, effects).source, c.jobId, records)
    decreases |effects|
  {
    if effects == [] {
    } else {
      var v := Perform(w, effects[0]);
      assert effects[0] in effects;
      if effects[0].Write? {
        FromRecord(effects[0].mismatch, c.jobId, records);
        OneAddsRight(w.source, effects[0].mismatch, c.jobId, records);
      }
      EffectsAddRight(v, effects[1..], c, records);
      RightThenRight(w.source, v.source, PerformAll(v, effects[1..]).source, c.jobId, records);
    }
  }

  /**
   However a job is run, in whatever modes and wherever each run is stopped, every correction it adds is of a record
   whose amounts differ, states the signed amount from expected to actual, and carries that record's key.
   */
  lemma {:induction false} CorrectionsAreRight(w: World, jobId: string, records: seq<Record>, attempts: seq<Attempt>)
    requires forall a | a in attempts :: a.config.batchSize >= 1 && a.config.jobId == jobId
    ensures OnlyRightAdded(w.source, AfterAttempts(w, Examined(records), attempts).source, jobId, records)
    decreases |attempts|
  {
    if attempts == [] {
    } else {
      var a, items := attempts[0], Examined(records);
      var v := AfterAttempt(w, items, a);
      var cp := Loaded(a.config, w);
      BatchesWrite(a.config, items, cp.nextCursor, Opening(cp), a.config.maxBatches);
      var p := PlanRun(a.config, items, w);
      EffectsAddRight(w, p.effects[..Performed(a, p)], a.config, records);
      CorrectionsAreRight(v, jobId, records, attempts[1..]);
      RightThenRight(w.source, v.source, AfterAttempts(v, items, attempts[1..]).source, jobId, records);
    }
  }

  lemma RightThenRight(a: Source, b: Source, c: Source, jobId: string, records: seq<Record>)
    requires OnlyRightAdded(a, b, jobId, records) && OnlyRightAdded(b, c, jobId, records)
    ensures OnlyRightAdded(a, c, jobId, records)
  {
  }

  // ---------------------------------------------------------------------------
  // Every wrong record is corrected
  // ---------------------------------------------------------------------------

  /** The operation keys of the records from position `from` on whose amounts differ and whose ids are not processed. */
  ghost function WrongKeys(jobId: string, records: seq<Record>, from: nat, processed: set<string>): set<string> {
    set k | from <= k < |records| && Wrong(records[k]) && records[k].id !in processed
      :: "reconciliation:" + jobId + ":" + records[k].id
  }

  lemma AllMismatches(jobId: string, items: seq<Item>)
    ensures MismatchKeys(jobId, items) == NewKeys(jobId, items, 0, {})
  {
    forall key | key in MismatchKeys(jobId, items) ensures key in NewKeys(jobId, items, 0, {}) {
      var item :| item in items && item.verdict.Differs? && key == MakeOperationKey(jobId, item.record.id);
      var k :| 0 <= k < |items| && items[k] == item;
    }
  }

  lemma ExaminedWrong(records: seq<Record>)
    ensures forall k | 0 <= k < |records| :: Examined(records)[k].verdict.Differs? <==> Wrong(records[k])
    ensures forall k | 0 <= k < |records| :: Examined(records)[k].verdict.Malformed? <==> !Readable(records[k])
  {
    forall k | 0 <= k < |records|
      ensures Examined(records)[k].verdict.Differs? <==> Wrong(records[k])
      ensures Examined(records)[k].verdict.Malformed? <==> !Readable(records[k])
    {
      ExamineExact(records[k]);
    }
  }

  lemma NewKeysAreWrong(jobId: string, records: seq<Record>, from: nat, done: set<string>)
    ensures NewKeys(jobId, Examined(records), from, done) == WrongKeys(jobId, records, from, done)
  {
    var items := Examined(records);
    ExaminedWrong(records);
    forall key | key in NewKeys(jobId, items, from, done) ensures key in WrongKeys(jobId, records, from, done) {
      var k :| from <= k < |items| && items[k].verdict.Differs? && items[k].record.id !in done
               && key == MakeOperationKey(jobId, items[k].record.id);
      assert Wrong(records[k]);
    }
    forall key | key in WrongKeys(jobId, records, from, done) ensures key in NewKeys(jobId, items, from, done) {
      var k :| from <= k < |records| && Wrong(records[k]) && records[k].id !in done
               && key == "reconciliation:" + jobId + ":" + records[k].id;
      assert items[k].verdict.Differs?;
    }
  }

  /**
   Once an apply run reports completion, whatever crashes came before it, the keys applied are those that were there
   before the job and those of the records whose amounts differ, no other record's, each once.
   */
  lemma CompletionCorrectsRecords(
    w: World, jobId: string, records: seq<Record>, attempts: seq<Attempt>, last: Config)
    requires Unstarted(w, jobId) && ApplyJob(jobId, attempts)
    requires last.jobId == jobId && last.apply && last.batchSize >= 1
    requires PlanRun(last, Examined(records), AfterAttempts(w, Examined(records), attempts)).ending.Complete?
    ensures var before := AfterAttempts(w, Examined(records), attempts);
            var t := AfterAttempt(before, Examined(records), Attempt(last, None));
            && t.source.appliedKeys == w.source.appliedKeys + WrongKeys(jobId, records, 0, {})
            && AppliedOnce(t.source) && OnlyRightAdded(w.source, t.source, jobId, records)
  {
    var items := Examined(records);
    var before := AfterAttempts(w, items, attempts);
    var t := AfterAttempt(before, items, Attempt(last, None));
    CompletionIsExact(w, jobId, items, attempts, last);
    AllMismatches(jobId, items);
    NewKeysAreWrong(jobId, records, 0, {});
    CorrectionsAreRight(w, jobId, records, attempts);
    CorrectionsAreRight(before, jobId, records, [Attempt(last, None)]);
    assert AfterAttempts(before, items, [Attempt(last, None)]) == t;
    RightThenRight(w.source, before.source, t.source, jobId, records);
  }

  /** The checkpoint a run starts from: the one stored for the job, or none of its records if there is none to use. */
  function StartingFrom(w: World, c: Config): Checkpoint {
    if c.startOver || c.jobId !in w.checkpoints then Checkpoint(c.jobId, None, {}, 0, 0) else w.checkpoints[c.jobId]
  }

  /** Where a run that starts from this checkpoint starts reading. */
  function FirstRecord(cp: Checkpoint, records: seq<Record>): nat {
    if cp.nextCursor.Some? then Min(cp.nextCursor.value, |records|) else 0
  }

  /** From any checkpoint, a completed apply run adds the keys of the unprocessed wrong records from its cursor on. */
  lemma CompletionAddsRecords(w: World, c: Config, records: seq<Record>)
    requires c.batchSize >= 1 && c.apply && PlanRun(c, Examined(records), w).ending.Complete?
    ensures var cp := StartingFrom(w, c);
            PerformAll(w, PlanRun(c, Examined(records), w).effects).source.appliedKeys ==
            w.source.appliedKeys + WrongKeys(c.jobId, records, FirstRecord(cp, records), cp.processedIds)
  {
    CompletionAdds(w, c, Examined(records));
    NewKeysAreWrong(c.jobId, records, FirstRecord(StartingFrom(w, c), records), StartingFrom(w, c).processedIds);
  }

  // ---------------------------------------------------------------------------
  // What a run reports
  // ---------------------------------------------------------------------------

  function IsWrong(): Record -> bool {
    (r: Record) => Wrong(r)
  }

  /** The mismatch is the record with its difference and its key. */
  ghost predicate Names(m: Mismatch, r: Record, jobId: string) {
    m.record == r && Explains(r, m.difference) && m.operationKey == "reconciliation:" + jobId + ":" + r.id
  }

  /** The mismatches are the wrong records in their order. */
  ghost predicate Lists(found: seq<Mismatch>, wrong: seq<Record>, jobId: string) {
    |found| == |wrong| && forall j | 0 <= j < |found| :: Names(found[j], wrong[j], jobId)
  }

  ghost function Ids(records: seq<Record>): set<string> {
    set r | r in records :: r.id
  }

  /** From tally t the run has read n records, wrong ones among them, and made tally u of them. */
  ghost predicate Tallied(c: Config, n: nat, wrong: seq<Record>, t: Tally, u: Tally) {
    && u.scanned == t.scanned + n
    && u.mismatches == t.mismatches + |wrong|
    && t.found <= u.found && Lists(u.found[|t.found|..], wrong, c.jobId)
    && u.processed == t.processed + (if c.apply then Ids(wrong) else {})
    && u.applied == t.applied + |u.processed| - |t.processed|
    && u.applied + u.skipped == t.applied + t.skipped + (if c.apply then |wrong| else 0)
  }

  lemma TalliedNothing(c: Config, t: Tally)
    ensures Tallied(c, 0, [], t, t)
  {
  }

  lemma TalliedMatching(c: Config, item: Item, t: Tally)
    requires !item.verdict.Differs?
    ensures Tallied(c, 1, [], t, Counted(c, item, t))
  {
  }

  lemma TalliedDiffering(c: Config, item: Item, t: Tally)
    requires item.verdict.Differs? && Explains(item.record, item.verdict.difference)
    ensures Tallied(c, 1, [item.record], t, Counted(c, item, t))
  {
    var u := Counted(c, item, t);
    assert u.found[|t.found|..] == [MismatchOf(c.jobId, item)];
    assert Names(MismatchOf(c.jobId, item), item.record, c.jobId);
    assert Ids([item.record]) == {item.record.id};
    if item.record.id in t.processed {
      assert t.processed + {item.record.id} == t.processed;
    }
  }

  lemma ListsAppend(f: seq<Mismatch>, g: seq<Mismatch>, a: seq<Record>, b: seq<Record>, jobId: string)
    requires Lists(f, a, jobId) && Lists(g, b, jobId)
    ensures Lists(f + g, a + b, jobId)
  {
    forall j | 0 <= j < |f + g| ensures Names((f + g)[j], (a + b)[j], jobId) {
      if j < |f| {
        assert Names(f[j], a[j], jobId);
      } else {
        assert Names(g[j - |f|], b[j - |f|], jobId);
      }
    }
  }

  lemma FoundThen(f: seq<Mismatch>, g: seq<Mismatch>, h: seq<Mismatch>)
    requires f <= g <= h
    ensures f <= h && h[|f|..] == g[|f|..] + h[|g|..]
  {
  }

  lemma IdsAppend(a: seq<Record>, b: seq<Record>)
    ensures Ids(a + b) == Ids(a) + Ids(b)
  {
  }

  lemma TalliedThen(
    c: Config, m: nat, wrong: seq<Record>, n: nat, more: seq<Record>, t: Tally, u: Tally, v: Tally)
    requires Tallied(c, m, wrong, t, u) && Tallied(c, n, more, u, v)
    ensures Tallied(c, m + n, wrong + more, t, v)
  {
    IdsAppend(wrong, more);
    FoundThen(t.found, u.found, v.found);
    ListsAppend(u.found[|t.found|..], v.found[|u.found|..], wrong, more, c.jobId);
  }

  /** The records of the differing items from i up to end. */
  ghost function Differing(items: seq<Item>, i: nat, end: nat): seq<Record>
    requires end <= |items|
    decreases end - i
  {
    if i >= end then []
    else (if items[i].verdict.Differs? then [items[i].record] else []) + Differing(items, i + 1, end)
  }

  lemma {:induction false} ScanTallies(c: Config, items: seq<Item>, i: nat, end: nat, t: Tally)
    requires i <= end <= |items|
    requires forall item | item in items && item.verdict.Differs? :: Explains(item.record, item.verdict.difference)
    ensures Tallied(c, end - i, Differing(items, i, end), t, ScanTally(c, items, i, end, t))
    decreases end - i
  {
    if i == end {
      TalliedNothing(c, t);
    } else {
      var u := Counted(c, items[i], t);
      if items[i].verdict.Differs? {
        TalliedDiffering(c, items[i], t);
      } else {
        TalliedMatching(c, items[i], t);
      }
      ScanTallies(c, items, i + 1, end, u);
      TalliedThen(c, 1, if items[i].verdict.Differs? then [items[i].record] else [],
                  end - i - 1, Differing(items, i + 1, end), t, u, ScanTally(c, items, i + 1, end, u));
    }
  }

  lemma {:induction false} DifferingAreWrong(records: seq<Record>, i: nat, end: nat)
    requires i <= end <= |records|
    ensures Differing(Examined(records), i, end) == Filter(IsWrong(), records[i..end])
    decreases end - i
  {
    if i == end {
    } else {
      ExamineExact(records[i]);
      DifferingAreWrong(records, i + 1, end);
      assert records[i..end][1..] == records[i + 1..end];
    }
  }

  lemma RecordsTallied(c: Config, records: seq<Record>, i: nat, end: nat, t: Tally)
    requires i <= end <= |records|
    ensures Tallied(c, end - i, Filter(IsWrong(), records[i..end]), t, ScanTally(c, Examined(records), i, end, t))
  {
    forall item | item in Examined(records) && item.verdict.Differs?
      ensures Explains(item.record, item.verdict.difference)
    {
      ExamineExact(item.record);
    }
    ScanTallies(c, Examined(records), i, end, t);
    DifferingAreWrong(records, i, end);
  }

  /** A plan that is not refused: where it starts and stops, what it counts and what it saves. */
  lemma RunScans(w: World, c: Config, items: seq<Item>)
    requires c.batchSize >= 1 && c.maxBatches != Some(0) && !PlanRun(c, items, w).ending.Invalid?
    ensures var p := PlanRun(c, items, w);
            var cp := StartingFrom(w, c);
            var start := StartOf(items, cp.nextCursor);
            var stop := if p.cursor.Some? then p.cursor.value else |items|;
            && (p.ending.Complete? <==> p.cursor.None?) && start <= stop <= |items|
            && (forall k | start <= k < stop :: !items[k].verdict.Malformed?)
            && p.tally ==
               ScanTally(c, items, start, stop, Tally(cp.processedIds, cp.scanned, cp.mismatches, [], 0, 0))
            && PerformAll(w, p.effects).checkpoints ==
               w.checkpoints[c.jobId :=
                 Checkpoint(c.jobId, p.cursor, p.tally.processed, p.tally.scanned, p.tally.mismatches)]
  {
    var cp := Loaded(c, w);
    BatchesScan(w, c, items, cp.nextCursor, Opening(cp), c.maxBatches);
    BatchesAdvance(c, items, cp.nextCursor, Opening(cp), c.maxBatches);
  }

  /**
   What an uninterrupted run that meets no unreadable record reports: every record from its cursor to where it stops
   read once, those whose amounts differ counted and listed in order, one application for each id not yet processed,
   and a checkpoint of exactly these figures.
   */
  lemma RunReport(w: World, c: Config, records: seq<Record>)
    requires c.batchSize >= 1 && c.maxBatches != Some(0) && !PlanRun(c, Examined(records), w).ending.Invalid?
    ensures var p := PlanRun(c, Examined(records), w);
            var cp := StartingFrom(w, c);
            var start := FirstRecord(cp, records);
            var stop := if p.cursor.Some? then p.cursor.value else |records|;
            && (p.ending.Complete? <==> p.cursor.None?) && start <= stop <= |records|
            && (forall k | start <= k < stop :: Readable(records[k]))
            && Tallied(c, stop - start, Filter(IsWrong(), records[start..stop]),
                       Tally(cp.processedIds, cp.scanned, cp.mismatches, [], 0, 0), p.tally)
            && PerformAll(w, p.effects).checkpoints ==
               w.checkpoints[c.jobId :=
                 Checkpoint(c.jobId, p.cursor, p.tally.processed, p.tally.scanned, p.tally.mismatches)]
  {
    var p := PlanRun(c, Examined(records), w);
    var cp := StartingFrom(w, c);
    RunScans(w, c, Examined(records));
    ExaminedWrong(records);
    RecordsTallied(c, records, FirstRecord(cp, records), if p.cursor.Some? then p.cursor.value else |records|,
                   Tally(cp.processedIds, cp.scanned, cp.mismatches, [], 0, 0));
  }

  /** An unbounded run completes exactly when every record it has yet to read is readable. */
  lemma CompletesOnReadable(w: World, c: Config, records: seq<Record>)
    requires c.batchSize >= 1 && c.maxBatches.None?
    ensures PlanRun(c, Examined(records), w).ending.Complete? <==>
            forall k | FirstRecord(StartingFrom(w, c), records) <= k < |records| :: Readable(records[k])
  {
    UnboundedCompletes(w, c, Examined(records));
    forall r: Record ensures Examine(r).Malformed? <==> !Readable(r) {
      ExamineExact(r);
    }
  }

  /** The plan fails, if it does, on the first malformed item from i on. */
  ghost predicate FailsFirst(items: seq<Item>, i: nat, p: Plan) {
    p.ending.Invalid? ==>
      exists k :: i <= k < |items| && items[k].verdict == Malformed(p.ending.message)
                  && forall j | i <= j < k :: !items[j].verdict.Malformed?
  }

  lemma {:induction false} BatchesFailFirst(
    c: Config, items: seq<Item>, cursor: Option<nat>, t: Tally, left: Option<nat>)
    requires c.batchSize >= 1
    ensures FailsFirst(items, StartOf(items, cursor), PlanBatches(c, items, cursor, t, left))
    decreases |items| - StartOf(items, cursor), |items| + 1
  {
    if left == Some(0) {
    } else {
      RecordsFailFirst(c, items, cursor, StartOf(items, cursor), EndOf(c, items, cursor), t, LessOne(left));
    }
  }

  lemma {:induction false} RecordsFailFirst(
    c: Config, items: seq<Item>, cursor: Option<nat>, i: nat, end: nat, t: Tally, left: Option<nat>)
    requires c.batchSize >= 1
    requires StartOf(items, cursor) <= i <= end <= |items|
    requires end == EndOf(c, items, cursor)
    ensures FailsFirst(items, i, PlanRecords(c, items, cursor, i, end, t, left))
    decreases |items| - StartOf(items, cursor), |items| - i
  {
    if i == end {
      if end < |items| {
        BatchesFailFirst(c, items, Some(end), t, left);
      }
    } else if !items[i].verdict.Malformed? {
      RecordsFailFirst(c, items, cursor, i + 1, end, Counted(c, items[i], t), left);
    }
  }

  /** Record k is the first unreadable one from `start` on, and the message says what is wrong with it. */
  ghost predicate Blames(records: seq<Record>, start: nat, k: int, message: string) {
    && start <= k < |records| && !Readable(records[k]) && message == Complaint(records[k])
    && forall j | start <= j < k :: Readable(records[j])
  }

  lemma MalformedBlames(records: seq<Record>, start: nat, k: nat, message: string)
    requires start <= k < |records| && Examined(records)[k].verdict == Malformed(message)
    requires forall j | start <= j < k :: !Examined(records)[j].verdict.Malformed?
    ensures Blames(records, start, k, message)
  {
    ExamineExact(records[k]);
    forall j | start <= j < k ensures Readable(records[j]) {
      ExamineExact(records[j]);
    }
  }

  /** A run that fails fails on the first unreadable record it comes to, and says what is wrong with it. */
  lemma FailsOnUnreadable(w: World, c: Config, records: seq<Record>)
    requires c.batchSize >= 1 && PlanRun(c, Examined(records), w).ending.Invalid?
    ensures exists k :: Blames(records, FirstRecord(StartingFrom(w, c), records), k,
                               PlanRun(c, Examined(records), w).ending.message)
  {
    var items, cp, p := Examined(records), StartingFrom(w, c), PlanRun(c, Examined(records), w);
    var start := FirstRecord(cp, records);
    BatchesFailFirst(c, items, cp.nextCursor, Opening(cp), c.maxBatches);
    var k :| start <= k < |items| && items[k].verdict == Malformed(p.ending.message)
             && forall j | start <= j < k :: !items[j].verdict.Malformed?;
    MalformedBlames(records, start, k, p.ending.message);
  }
}
