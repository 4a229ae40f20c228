/** Crash safety and completeness of the reconciliation runner in apply mode. */
module ReconciliationSafety {
  import opened Prelude
  import opened Reconciliation

  /** The operation keys of a job's mismatching records. */
  ghost function MismatchKeys(jobId: string, items: seq<Item>): set<string> {
    set item | item in items && item.verdict.Differs? :: MakeOperationKey(jobId, item.record.id)
  }

  /** Every mismatch among the first n records has been applied. */
  ghost predicate Covered(s: Source, jobId: string, items: seq<Item>, n: nat) {
    forall i | 0 <= i < n && i < |items| && items[i].verdict.Differs? ::
      MakeOperationKey(jobId, items[i].record.id) in s.appliedKeys
  }

  ghost predicate AllApplied(s: Source, jobId: string, ids: set<string>) {
    forall id | id in ids :: MakeOperationKey(jobId, id) in s.appliedKeys
  }

  /** The list of corrections holds each applied key once. */
  ghost predicate AppliedOnce(s: Source) {
    && (forall i, j | 0 <= i < j < |s.applied| :: s.applied[i].operationKey != s.applied[j].operationKey)
    && (forall m | m in s.applied :: m.operationKey in s.appliedKeys)
    && (forall k | k in s.appliedKeys :: exists m :: m in s.applied && m.operationKey == k)
  }

  /** A saved checkpoint claims nothing that has not been applied. */
  ghost predicate Truthful(cp: Checkpoint, s: Source, jobId: string, items: seq<Item>) {
    AllApplied(s, jobId, cp.processedIds) && Covered(s, jobId, items, StartOf(items, cp.nextCursor))
  }

  /** `base` are the keys applied before the job first ran. */
  ghost predicate Safe(w: World, jobId: string, items: seq<Item>, base: set<string>) {
    && base <= w.source.appliedKeys <= base + MismatchKeys(jobId, items)
    && AppliedOnce(w.source)
    && (jobId in w.checkpoints ==> Truthful(w.checkpoints[jobId], w.source, jobId, items))
  }

  /** Safe at every crash point: before, between and after the effects. */
  ghost predicate SafeThroughout(
    w: World, effects: seq<Effect>, jobId: string, items: seq<Item>, base: set<string>) {
    forall k | 0 <= k <= |effects| :: Safe(PerformAll(w, effects[..k]), jobId, items, base)
  }

  lemma SafeAppend(w: World, a: seq<Effect>, b: seq<Effect>, jobId: string, items: seq<Item>, base: set<string>)
    requires SafeThroughout(w, a, jobId, items, base)
    requires SafeThroughout(PerformAll(w, a), b, jobId, items, base)
    ensures SafeThroughout(w, a + b, jobId, items, base)
  {
    forall k | 0 <= k <= |a + b| ensures Safe(PerformAll(w, (a + b)[..k]), jobId, items, base) {
      if k <= |a| {
        assert (a + b)[..k] == a[..k];
      } else {
        assert (a + b)[..k] == a + b[..k - |a|];
        PerformAppend(w, a, b[..k - |a|]);
      }
    }
  }

  lemma SafeOne(w: World, e: Effect, jobId: string, items: seq<Item>, base: set<string>)
    requires Safe(w, jobId, items, base) && Safe(Perform(w, e), jobId, items, base)
    ensures SafeThroughout(w, [e], jobId, items, base) && PerformAll(w, [e]) == Perform(w, e)
  {
    assert [e][..0] == [] && [e][..1] == [e] && [e][1..] == [];
    assert PerformAll(w, [e]) == PerformAll(Perform(w, e), []);
  }

  lemma SafeNone(w: World, jobId: string, items: seq<Item>, base: set<string>)
    requires Safe(w, jobId, items, base)
    ensures SafeThroughout(w, [], jobId, items, base)
  {
  }

  lemma ApplyingOnce(s: Source, m: Mismatch)
    requires AppliedOnce(s)
    ensures AppliedOnce(Applying(s, m))
    ensures s.appliedKeys <= Applying(s, m).appliedKeys
  {
    if m.operationKey !in s.appliedKeys {
      var t := Applying(s, m);
      assert t.applied[|s.applied|] == m;
      forall k | k in t.appliedKeys ensures exists n :: n in t.applied && n.operationKey == k {
        if k == m.operationKey {
          assert m in t.applied;
        } else {
          var n :| n in s.applied && n.operationKey == k;
          assert n in t.applied;
        }
      }
    }
  }

  lemma WriteSafe(w: World, item: Item, jobId: string, items: seq<Item>, base: set<string>)
    requires Safe(w, jobId, items, base) && item in items && item.verdict.Differs?
    ensures Safe(Perform(w, Write(MismatchOf(jobId, item))), jobId, items, base)
  {
    ApplyingOnce(w.source, MismatchOf(jobId, item));
    assert MakeOperationKey(jobId, item.record.id) in MismatchKeys(jobId, items);
  }

  lemma SaveSafe(w: World, cp: Checkpoint, jobId: string, items: seq<Item>, base: set<string>)
    requires Safe(w, jobId, items, base) && cp.jobId == jobId && Truthful(cp, w.source, jobId, items)
    ensures Safe(Perform(w, Save(cp)), jobId, items, base)
  {
  }

  /** The position of a running apply-mode job: everything before record i is applied. */
  ghost predicate Running(
    w: World, c: Config, items: seq<Item>, cursor: Option<nat>, i: nat, t: Tally, base: set<string>)
  {
    && c.apply && Safe(w, c.jobId, items, base)
    && StartOf(items, cursor) <= i
    && Covered(w.source, c.jobId, items, i)
    && AllApplied(w.source, c.jobId, t.processed)
  }

  lemma RecordSafe(w: World, c: Config, items: seq<Item>, cursor: Option<nat>, i: nat, t: Tally, base: set<string>)
    requires Running(w, c, items, cursor, i, t, base) && i < |items| && !items[i].verdict.Malformed?
    ensures var effects := RecordEffects(c, cursor, items[i], t);
            && SafeThroughout(w, effects, c.jobId, items, base)
            && Running(PerformAll(w, effects), c, items, cursor, i + 1, Counted(c, items[i], t), base)
  {
    var item := items[i];
    if ShouldApply(c, item, t) {
      var m, cp := MismatchOf(c.jobId, item), Saved(c, cursor, Counted(c, item, t));
      var w1 := Perform(w, Write(m));
      WriteSafe(w, item, c.jobId, items, base);
      SafeOne(w, Write(m), c.jobId, items, base);
      SaveSafe(w1, cp, c.jobId, items, base);
      SafeOne(w1, Save(cp), c.jobId, items, base);
      SafeAppend(w, [Write(m)], [Save(cp)], c.jobId, items, base);
      PerformAppend(w, [Write(m)], [Save(cp)]);
      assert RecordEffects(c, cursor, item, t) == [Write(m)] + [Save(cp)];
    } else {
      SafeNone(w, c.jobId, items, base);
    }
  }

  /** A plan that is safe at every crash point and complete only with every mismatch applied. */
  ghost predicate PlanSafe(w: World, p: Plan, jobId: string, items: seq<Item>, base: set<string>) {
    && SafeThroughout(w, p.effects, jobId, items, base)
    && (p.ending.Complete? ==> Covered(PerformAll(w, p.effects).source, jobId, items, |items|))
  }

  lemma PlanAfter(w: World, effects: seq<Effect>, p: Plan, jobId: string, items: seq<Item>, base: set<string>)
    requires SafeThroughout(w, effects, jobId, items, base)
    requires PlanSafe(PerformAll(w, effects), p, jobId, items, base)
    ensures PlanSafe(w, After(effects, p), jobId, items, base)
  {
    SafeAppend(w, effects, p.effects, jobId, items, base);
    PerformAppend(w, effects, p.effects);
  }

  lemma BatchSaveSafe(w: World, c: Config, items: seq<Item>, cursor: Option<nat>, end: nat, t: Tally, base: set<string>)
    requires end <= |items| && Running(w, c, items, cursor, end, t, base)
    ensures var next := if end < |items| then Some(end) else None;
            var save := Save(Saved(c, next, t));
            && SafeThroughout(w, [save], c.jobId, items, base)
            && PerformAll(w, [save]).source == w.source
            && (next.Some? ==> Running(PerformAll(w, [save]), c, items, next, end, t, base))
  {
    var next := if end < |items| then Some(end) else None;
    var cp := Saved(c, next, t);
    SaveSafe(w, cp, c.jobId, items, base);
    SafeOne(w, Save(cp), c.jobId, items, base);
  }

  lemma EndOfBatch(
    w: World, c: Config, items: seq<Item>, cursor: Option<nat>, end: nat, t: Tally, left: Option<nat>,
    base: set<string>)
    requires c.batchSize >= 1 && Running(w, c, items, cursor, end, t, base)
    requires end == EndOf(c, items, cursor)
    requires end < |items| ==>
               PlanSafe(PerformAll(w, [Save(Saved(c, Some(end), t))]),
                        PlanBatches(c, items, Some(end), t, left), c.jobId, items, base)
    ensures PlanSafe(w, PlanRecords(c, items, cursor, end, end, t, left), c.jobId, items, base)
  {
    BatchSaveSafe(w, c, items, cursor, end, t, base);
    if end < |items| {
      PlanAfter(w, [Save(Saved(c, Some(end), t))], PlanBatches(c, items, Some(end), t, left), c.jobId, items, base);
    }
  }

  lemma {:induction false} BatchesSafe(
    w: World, c: Config, items: seq<Item>, cursor: Option<nat>, t: Tally, left: Option<nat>, base: set<string>)
    requires c.batchSize >= 1 && Running(w, c, items, cursor, StartOf(items, cursor), t, base)
    ensures PlanSafe(w, PlanBatches(c, items, cursor, t, left), c.jobId, items, base)
    decreases |items| - StartOf(items, cursor), |items| + 1
  {
    if left == Some(0) {
      SafeNone(w, c.jobId, items, base);
    } else {
      var start := StartOf(items, cursor);
      var end := EndOf(c, items, cursor);
      RecordsSafe(w, c, items, cursor, start, end, t, LessOne(left), base);
      assert PlanBatches(c, items, cursor, t, left) == PlanRecords(c, items, cursor, start, end, t, LessOne(left));
    }
  }

  lemma {:induction false} RecordsSafe(
    w: World, c: Config, items: seq<Item>, cursor: Option<nat>, i: nat, end: nat, t: Tally, left: Option<nat>,
    base: set<string>)
    requires c.batchSize >= 1 && Running(w, c, items, cursor, i, t, base)
    requires StartOf(items, cursor) <= i <= end <= |items|
    requires end == EndOf(c, items, cursor)
    ensures PlanSafe(w, PlanRecords(c, items, cursor, i, end, t, left), c.jobId, items, base)
    decreases |items| - StartOf(items, cursor), |items| - i
  {
    if i == end {
      if end < |items| {
        BatchSaveSafe(w, c, items, cursor, end, t, base);
        BatchesSafe(PerformAll(w, [Save(Saved(c, Some(end), t))]), c, items, Some(end), t, left, base);
      }
      EndOfBatch(w, c, items, cursor, end, t, left, base);
    } else if items[i].verdict.Malformed? {
      SafeNone(w, c.jobId, items, base);
    } else {
      NextRecordSafe(w, c, items, cursor, i, end, t, left, base);
    }
  }

  lemma {:induction false} NextRecordSafe(
    w: World, c: Config, items: seq<Item>, cursor: Option<nat>, i: nat, end: nat, t: Tally, left: Option<nat>,
    base: set<string>)
    requires c.batchSize >= 1 && Running(w, c, items, cursor, i, t, base)
    requires StartOf(items, cursor) <= i < end <= |items|
    requires end == EndOf(c, items, cursor)
    requires !items[i].verdict.Malformed?
    ensures PlanSafe(w, PlanRecords(c, items, cursor, i, end, t, left), c.jobId, items, base)
    decreases |items| - StartOf(items, cursor), |items| - i, 0
  {
    var effects := RecordEffects(c, cursor, items[i], t);
    var t1 := Counted(c, items[i], t);
    RecordSafe(w, c, items, cursor, i, t, base);
    RecordsSafe(PerformAll(w, effects), c, items, cursor, i + 1, end, t1, left, base);
    PlanAfter(w, effects, PlanRecords(c, items, cursor, i + 1, end, t1, left), c.jobId, items, base);
  }

  /** Starting or resuming an apply-mode run from a safe world. */
  lemma RunSafe(w: World, c: Config, items: seq<Item>, base: set<string>)
    requires c.batchSize >= 1 && c.apply && Safe(w, c.jobId, items, base)
    ensures PlanSafe(w, PlanRun(c, items, w), c.jobId, items, base)
  {
    var cp := Loaded(c, w);
    BatchesSafe(w, c, items, cp.nextCursor, Opening(cp), c.maxBatches, base);
  }

  // ---------------------------------------------------------------------------
  // Any number of runs, each stopped anywhere
  // ---------------------------------------------------------------------------

  /** One invocation; with `survives == Some(n)` the process dies after n durable effects. */
  datatype Attempt = Attempt(config: Config, survives: Option<nat>)

  function Performed(a: Attempt, p: Plan): (k: nat)
    ensures k <= |p.effects|
  {
    if a.survives.Some? then Min(a.survives.value, |p.effects|) else |p.effects|
  }

  function AfterAttempt(w: World, items: seq<Item>, a: Attempt): World
    requires a.config.batchSize >= 1
  {
    var p := PlanRun(a.config, items, w);
    PerformAll(w, p.effects[..Performed(a, p)])
  }

  ghost predicate ApplyJob(jobId: string, attempts: seq<Attempt>) {
    forall a | a in attempts :: a.config.jobId == jobId && a.config.apply && a.config.batchSize >= 1
  }

  function AfterAttempts(w: World, items: seq<Item>, attempts: seq<Attempt>): World
    requires forall a | a in attempts :: a.config.batchSize >= 1
    decreases |attempts|
  {
    if attempts == [] then w else AfterAttempts(AfterAttempt(w, items, attempts[0]), items, attempts[1..])
  }

  /** However often an apply-mode job is run and wherever it is stopped, no checkpoint ever claims too much. */
  lemma {:induction false} CrashSafe(
    w: World, jobId: string, items: seq<Item>, attempts: seq<Attempt>, base: set<string>)
    requires Safe(w, jobId, items, base) && ApplyJob(jobId, attempts)
    ensures Safe(AfterAttempts(w, items, attempts), jobId, items, base)
    decreases |attempts|
  {
    if attempts == [] {
    } else {
      RunSafe(w, attempts[0].config, items, base);
      CrashSafe(AfterAttempt(w, items, attempts[0]), jobId, items, attempts[1..], base);
    }
  }

  /** A world in which the job has not run yet. */
  ghost predicate Unstarted(w: World, jobId: string) {
    jobId !in w.checkpoints && AppliedOnce(w.source)
  }

  /**
   Once a run reports completion, whatever crashes came before it, the corrections are exactly
   those that were there before the job plus the job's mismatches, each once.
   */
  lemma CompletionIsExact(
    w: World, jobId: string, items: seq<Item>, attempts: seq<Attempt>, last: Config)
    requires Unstarted(w, jobId) && ApplyJob(jobId, attempts)
    requires last.jobId == jobId && last.apply && last.batchSize >= 1
    requires PlanRun(last, items, AfterAttempts(w, items, attempts)).ending.Complete?
    ensures var t := AfterAttempt(AfterAttempts(w, items, attempts), items, Attempt(last, None));
            && t.source.appliedKeys == w.source.appliedKeys + MismatchKeys(jobId, items)
            && AppliedOnce(t.source)
  {
    var base := w.source.appliedKeys;
    CrashSafe(w, jobId, items, attempts, base);
    var before := AfterAttempts(w, items, attempts);
    RunSafe(before, last, items, base);
    var p := PlanRun(last, items, before);
    assert p.effects[..|p.effects|] == p.effects;
    var t := PerformAll(before, p.effects);
    forall k | k in MismatchKeys(jobId, items) ensures k in t.source.appliedKeys {
      var item :| item in items && item.verdict.Differs? && k == MakeOperationKey(jobId, item.record.id);
      var i :| 0 <= i < |items| && items[i] == item;
    }
  }
}
