/** The runner itself: nested loops over batches and records, proved to perform the plan of Reconciliation. */
module ReconciliationService {
  import opened Prelude
  import opened Reconciliation
  import opened ReconciliationSafety

  class InMemoryReconciliationSource {
    const records: seq<Record>
    var applied: seq<Mismatch>
    var appliedKeys: set<string>

    constructor (records: seq<Record>)
      ensures this.records == records && Snapshot() == Source([], {})
    {
      this.records := records;
      applied := [];
      appliedKeys := {};
    }

    function Snapshot(): Source
      reads this
    {
      Source(applied, appliedKeys)
    }

    /** The records come with their verdicts, which the runner computes one at a time. */
    method ReadBatch(cursor: Option<nat>, batchSize: nat) returns (batch: Batch)
      ensures batch == Reconciliation.ReadBatch(Examined(records), cursor, batchSize)
    {
      var start := if cursor.Some? then cursor.value else 0;
      var items := Examined(records);
      var from, to := Min(start, |items|), Min(start + batchSize, |items|);
      var next := start + (to - from);
      return Batch(items[from..to], if next < |items| then Some(next) else None);
    }

    method ApplyMismatch(m: Mismatch)
      modifies this
      ensures Snapshot() == Applying(old(Snapshot()), m)
    {
      if m.operationKey in appliedKeys {
        return;
      }
      appliedKeys := appliedKeys + {m.operationKey};
      applied := applied + [m];
    }
  }

  class InMemoryCheckpointStore {
    var checkpoints: map<string, Checkpoint>

    constructor ()
      ensures checkpoints == map[]
    {
      checkpoints := map[];
    }

    method Load(jobId: string) returns (cp: Option<Checkpoint>)
      ensures cp == CheckpointOf(checkpoints, jobId)
    {
      return if jobId in checkpoints then Some(checkpoints[jobId]) else None;
    }

    method Store(cp: Checkpoint)
      modifies this
      ensures checkpoints == old(checkpoints)[cp.jobId := cp]
    {
      checkpoints := checkpoints[cp.jobId := cp];
    }
  }

  datatype Outcome = Refused(message: string) | Crashed | Stopped(tally: Tally, cursor: Option<nat>, ending: Ending)

  /** What one invocation reports: the plan's ending, unless the process died before the last effect. */
  function Reported(a: Attempt, p: Plan): Outcome {
    if Performed(a, p) < |p.effects| then Crashed else Stopped(p.tally, p.cursor, p.ending)
  }

  /**
   An attempt under way from the world `start`: `done` has been performed, `rest` is still to come,
   together they are the whole plan.
   */
  datatype Progress = Progress(attempt: Attempt, start: World, whole: Plan, done: seq<Effect>, rest: Plan)

  /** The same attempt, further on. */
  function Onto(g: Progress, done: seq<Effect>, rest: Plan): Progress {
    g.(done := done, rest := rest)
  }

  ghost predicate OnPlan(now: World, g: Progress) {
    && now == PerformAll(g.start, g.done)
    && g.whole == After(g.done, g.rest)
    && (g.attempt.survives.Some? ==> |g.done| <= g.attempt.survives.value)
  }

  /** The attempt left this world and reported r, as its plan has it. */
  ghost predicate Over(now: World, g: Progress, r: Outcome) {
    && now == PerformAll(g.start, g.whole.effects[..Performed(g.attempt, g.whole)])
    && r == Reported(g.attempt, g.whole)
  }

  /** Performing the next effect of the plan. */
  lemma Advance(now: World, g: Progress, e: Effect, rest: Plan)
    requires OnPlan(now, g) && g.rest == After([e], rest) && g.attempt.survives != Some(|g.done|)
    ensures OnPlan(Perform(now, e), Onto(g, g.done + [e], rest))
  {
    PerformAppend(g.start, g.done, [e]);
    assert [e][1..] == [];
    assert PerformAll(now, [e]) == PerformAll(Perform(now, e), []);
    assert g.done + ([e] + rest.effects) == (g.done + [e]) + rest.effects;
  }

  /** Dying before the next effect leaves the world after the effects already performed. */
  lemma DyingReports(now: World, g: Progress)
    requires OnPlan(now, g) && g.rest.effects != [] && g.attempt.survives == Some(|g.done|)
    ensures Over(now, g, Crashed)
  {
    assert g.whole.effects[..|g.done|] == g.done;
  }

  lemma EndingReports(now: World, g: Progress)
    requires OnPlan(now, g) && g.rest.effects == []
    ensures Over(now, g, Stopped(g.rest.tally, g.rest.cursor, g.rest.ending))
  {
    assert g.done + [] == g.done;
    assert g.whole.effects[..|g.whole.effects|] == g.whole.effects;
  }

  /** What follows the save at the end of a batch. */
  function Onwards(c: Config, items: seq<Item>, next: Option<nat>, t: Tally, left: Option<nat>): Plan
    requires c.batchSize >= 1
  {
    if next.Some? then PlanBatches(c, items, next, t, left) else Plan([], t, None, Complete)
  }

  lemma BatchShape(items: seq<Item>, cursor: Option<nat>, batchSize: nat)
    requires batchSize >= 1
    ensures var batch := ReadBatch(items, cursor, batchSize);
            var start := StartOf(items, cursor);
            && batch.items == items[start..Min(start + batchSize, |items|)]
            && (batch.items == [] ==> batch.nextCursor.None?)
            && (batch.nextCursor.Some? ==> start < batch.nextCursor.value < |items|)
  {
  }

  lemma BatchBegins(c: Config, items: seq<Item>, cursor: Option<nat>, t: Tally, left: Option<nat>)
    requires c.batchSize >= 1 && left != Some(0)
    ensures var start := StartOf(items, cursor);
            PlanBatches(c, items, cursor, t, left) ==
            PlanRecords(c, items, cursor, start, EndOf(c, items, cursor), t, LessOne(left))
  {
  }

  lemma BatchEnds(c: Config, items: seq<Item>, cursor: Option<nat>, t: Tally, left: Option<nat>)
    requires c.batchSize >= 1
    ensures var end := EndOf(c, items, cursor);
            var next := ReadBatch(items, cursor, c.batchSize).nextCursor;
            PlanRecords(c, items, cursor, end, end, t, left) ==
            After([Save(Saved(c, next, t))], Onwards(c, items, next, t, left))
  {
  }

  lemma AfterNothing(p: Plan)
    ensures After([], p) == p
  {
    assert [] + p.effects == p.effects;
  }

  lemma AfterTwo(a: Effect, b: Effect, p: Plan)
    ensures After([a, b], p) == After([a], After([b], p))
  {
    assert [a, b] + p.effects == [a] + ([b] + p.effects);
  }

  class ReconciliationService {
    const source: InMemoryReconciliationSource
    const checkpoints: InMemoryCheckpointStore

    constructor (source: InMemoryReconciliationSource, checkpoints: InMemoryCheckpointStore)
      ensures this.source == source && this.checkpoints == checkpoints
    {
      this.source := source;
      this.checkpoints := checkpoints;
    }

    function Durable(): World
      reads source, checkpoints
    {
      World(checkpoints.checkpoints, source.Snapshot())
    }

    /** One awaited write or save, unless the process dies first. */
    method Await(e: Effect, spent: nat, survives: Option<nat>) returns (alive: bool)
      modifies source, checkpoints
      ensures alive == (survives != Some(spent))
      ensures Durable() == if alive then Perform(old(Durable()), e) else old(Durable())
    {
      if survives == Some(spent) {
        return false;
      }
      match e {
        case Write(m) => source.ApplyMismatch(m);
        case Save(cp) => checkpoints.Store(cp);
      }
      return true;
    }

    /** The next effect of the plan, unless the process dies first. */
    method Proceed(a: Attempt, e: Effect, spent: nat, ghost g: Progress, ghost rest: Plan)
      returns (alive: bool, ghost g': Progress)
      requires OnPlan(Durable(), g) && g.attempt == a && spent == |g.done| && g.rest == After([e], rest)
      modifies source, checkpoints
      ensures alive ==> OnPlan(Durable(), g') && g' == Onto(g, g.done + [e], rest)
      ensures !alive ==> Over(Durable(), g, Crashed)
    {
      ghost var before := Durable();
      alive := Await(e, spent, a.survives);
      g' := Onto(g, g.done + [e], rest);
      if alive {
        Advance(before, g, e, rest);
      } else {
        DyingReports(before, g);
      }
    }

    /** One well-formed record: count it and, if it is a correction to make, write it and save a checkpoint. */
    method ProcessRecord(
      a: Attempt, item: Item, cursor: Option<nat>, t: Tally, spent: nat, ghost g: Progress, ghost rest: Plan)
      returns (alive: bool, spent': nat, ghost g': Progress)
      requires OnPlan(Durable(), g) && g.attempt == a && spent == |g.done|
      requires !item.verdict.Malformed? && g.rest == After(RecordEffects(a.config, cursor, item, t), rest)
      modifies source, checkpoints
      ensures alive ==> OnPlan(Durable(), g') && g' == Onto(g, g'.done, rest) && spent' == |g'.done|
      ensures !alive ==> Over(Durable(), g, Crashed)
    {
      var c := a.config;
      spent', g' := spent, Onto(g, g.done, rest);
      if !ShouldApply(c, item, t) {
        AfterNothing(rest);
        return true, spent', g';
      }
      var write, save := Write(MismatchOf(c.jobId, item)), Save(Saved(c, cursor, Counted(c, item, t)));
      AfterTwo(write, save, rest);
      alive, g' := Proceed(a, write, spent, g, After([save], rest));
      if !alive {
        return;
      }
      alive, g' := Proceed(a, save, spent + 1, g', rest);
      spent' := spent + 2;
    }

    /** The records of one batch. */
    method ProcessBatch(a: Attempt, ghost items: seq<Item>, cursor: Option<nat>, batch: Batch, t: Tally,
                        ghost left: Option<nat>, spent: nat, ghost g: Progress)
      returns (early: Option<Outcome>, t': Tally, spent': nat, ghost g': Progress)
      requires a.config.batchSize >= 1 && OnPlan(Durable(), g) && g.attempt == a && spent == |g.done|
      requires batch.items == items[StartOf(items, cursor)..EndOf(a.config, items, cursor)]
      requires g.rest == PlanRecords(a.config, items, cursor, StartOf(items, cursor),
                                     EndOf(a.config, items, cursor), t, left)
      modifies source, checkpoints
      ensures early.None? ==>
                var end := EndOf(a.config, items, cursor);
                && OnPlan(Durable(), g') && spent' == |g'.done|
                && g' == Onto(g, g'.done, PlanRecords(a.config, items, cursor, end, end, t', left))
      ensures early.Some? ==> Over(Durable(), g, early.value)
    {
      var c := a.config;
      t', spent', g' := t, spent, g;
      ghost var i, end := StartOf(items, cursor), EndOf(c, items, cursor);
      for k := 0 to |batch.items|
        invariant i == StartOf(items, cursor) + k
        invariant OnPlan(Durable(), g') && spent' == |g'.done|
        invariant g' == Onto(g, g'.done, PlanRecords(c, items, cursor, i, end, t', left))
      {
        var item := batch.items[k];
        assert item == items[i];
        if item.verdict.Malformed? {
          EndingReports(Durable(), g');
          early := Some(Stopped(t', cursor, Invalid(item.verdict.message)));
          return;
        }
        var alive;
        ghost var rest := PlanRecords(c, items, cursor, i + 1, end, Counted(c, item, t'), left);
        alive, spent', g' := ProcessRecord(a, item, cursor, t', spent', g', rest);
        if !alive {
          early := Some(Crashed);
          return;
        }
        t' := Counted(c, item, t');
        i := i + 1;
      }
      early := None;
    }

    /** The save of the cursor that follows a batch. */
    method SaveCursor(a: Attempt, ghost items: seq<Item>, ghost cursor: Option<nat>, batch: Batch, t: Tally,
                      ghost left: Option<nat>, spent: nat, ghost g: Progress)
      returns (early: Option<Outcome>, spent': nat, ghost g': Progress)
      requires a.config.batchSize >= 1 && OnPlan(Durable(), g) && g.attempt == a && spent == |g.done|
      requires batch == ReadBatch(items, cursor, a.config.batchSize)
      requires var end := EndOf(a.config, items, cursor);
               g.rest == PlanRecords(a.config, items, cursor, end, end, t, left)
      modifies source, checkpoints
      ensures early.None? ==>
                var next := batch.nextCursor;
                && OnPlan(Durable(), g') && spent' == |g'.done| && StartOf(items, cursor) < StartOf(items, next)
                && g' == Onto(g, g'.done, PlanBatches(a.config, items, next, t, left))
      ensures early.Some? ==> Over(Durable(), g, early.value)
    {
      var c, next := a.config, batch.nextCursor;
      BatchShape(items, cursor, c.batchSize);
      BatchEnds(c, items, cursor, t, left);
      var alive;
      alive, g' := Proceed(a, Save(Saved(c, next, t)), spent, g, Onwards(c, items, next, t, left));
      spent' := spent + 1;
      if !alive {
        early := Some(Crashed);
      } else if next.None? || batch.items == [] {
        EndingReports(Durable(), g');
        early := Some(Stopped(t, None, Complete));
      } else {
        early := None;
      }
    }

    /** With `survives == Some(n)` the process dies when it is about to perform its effect number n + 1. */
    method Run(o: Options, survives: Option<nat>) returns (r: Outcome)
      modifies source, checkpoints
      ensures NormalizeOptions(o).Err? ==> r == Refused(NormalizeOptions(o).error) && Durable() == old(Durable())
      ensures NormalizeOptions(o).Ok? ==>
                var a := Attempt(NormalizeOptions(o).value, survives);
                var items := Examined(source.records);
                && Durable() == AfterAttempt(old(Durable()), items, a)
                && r == Reported(a, PlanRun(a.config, items, old(Durable())))
    {
      if NormalizeOptions(o).Err? {
        return Refused(NormalizeOptions(o).error);
      }
      var c := NormalizeOptions(o).value;
      var a := Attempt(c, survives);
      var previous: Option<Checkpoint> := None;
      if !c.startOver {
        previous := checkpoints.Load(c.jobId);
      }
      var cp := if previous.Some? then previous.value else Fresh(c.jobId);
      r := RunFrom(a, cp);
    }

    /** The batch loop. */
    method RunFrom(a: Attempt, cp: Checkpoint) returns (r: Outcome)
      requires a.config.batchSize >= 1
      modifies source, checkpoints
      ensures var p :=
                PlanBatches(a.config, Examined(source.records), cp.nextCursor, Opening(cp), a.config.maxBatches);
              && Durable() == PerformAll(old(Durable()), p.effects[..Performed(a, p)])
              && r == Reported(a, p)
    {
      var c := a.config;
      var cursor, t, left, spent := cp.nextCursor, Opening(cp), c.maxBatches, 0;
      ghost var items := Examined(source.records);
      ghost var whole := PlanBatches(c, items, cursor, t, left);
      ghost var g := Progress(a, Durable(), whole, [], whole);
      AfterNothing(whole);
      while left != Some(0)
        invariant OnPlan(Durable(), g) && spent == |g.done|
        invariant g == Progress(a, old(Durable()), whole, g.done, PlanBatches(c, items, cursor, t, left))
        decreases |items| - StartOf(items, cursor)
      {
        var batch := source.ReadBatch(cursor, c.batchSize);
        BatchShape(items, cursor, c.batchSize);
        BatchBegins(c, items, cursor, t, left);
        left := LessOne(left);
        var early;
        early, t, spent, g := ProcessBatch(a, items, cursor, batch, t, left, spent, g);
        if early.Some? {
          return early.value;
        }
        early, spent, g := SaveCursor(a, items, cursor, batch, t, left, spent, g);
        if early.Some? {
          return early.value;
        }
        cursor := batch.nextCursor;
      }
      EndingReports(Durable(), g);
      return Stopped(t, cursor, Partial);
    }
  }
}
