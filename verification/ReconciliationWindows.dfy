/** Cutting a reconciliation job into windows changes nothing about what it does or counts. */
module ReconciliationWindows {
  import opened Prelude
  import opened Reconciliation

  ghost predicate WellFormedFrom(items: seq<Item>, start: nat) {
    forall i | start <= i < |items| :: !items[i].verdict.Malformed?
  }

  // ---------------------------------------------------------------------------
  // The batch-free reference: one scan over a stretch of records
  // ---------------------------------------------------------------------------

  function ScanTally(c: Config, items: seq<Item>, i: nat, end: nat, t: Tally): Tally
    requires end <= |items|
    decreases end - i
  {
    if i >= end then t else ScanTally(c, items, i + 1, end, Counted(c, items[i], t))
  }

  function Touched(c: Config, item: Item, t: Tally, s: Source): Source {
    if ShouldApply(c, item, t) then Applying(s, MismatchOf(c.jobId, item)) else s
  }

  function ScanSource(c: Config, items: seq<Item>, i: nat, end: nat, t: Tally, s: Source): Source
    requires end <= |items|
    decreases end - i
  {
    if i >= end then s
    else ScanSource(c, items, i + 1, end, Counted(c, items[i], t), Touched(c, items[i], t, s))
  }

  lemma {:induction false} ScanSplit(c: Config, items: seq<Item>, i: nat, mid: nat, end: nat, t: Tally, s: Source)
    requires i <= mid <= end <= |items|
    ensures ScanTally(c, items, i, end, t) == ScanTally(c, items, mid, end, ScanTally(c, items, i, mid, t))
    ensures ScanSource(c, items, i, end, t, s) ==
            ScanSource(c, items, mid, end, ScanTally(c, items, i, mid, t), ScanSource(c, items, i, mid, t, s))
    decreases mid - i
  {
    if i == mid {
    } else {
      ScanSplit(c, items, i + 1, mid, end, Counted(c, items[i], t), Touched(c, items[i], t, s));
    }
  }

  /** Batch size and batch bound play no part in a scan. */
  lemma {:induction false} ScanSameJob(c: Config, d: Config, items: seq<Item>, i: nat, end: nat, t: Tally, s: Source)
    requires end <= |items| && c.jobId == d.jobId && c.apply == d.apply
    ensures ScanTally(c, items, i, end, t) == ScanTally(d, items, i, end, t)
    ensures ScanSource(c, items, i, end, t, s) == ScanSource(d, items, i, end, t, s)
    decreases end - i
  {
    if i >= end {
    } else {
      assert Counted(c, items[i], t) == Counted(d, items[i], t);
      ScanSameJob(c, d, items, i + 1, end, Counted(c, items[i], t), Touched(c, items[i], t, s));
    }
  }

  /** What a run reports, added to what earlier runs reported. */
  function Carry(a: Tally, b: Tally): Tally {
    b.(found := a.found + b.found, applied := a.applied + b.applied, skipped := a.skipped + b.skipped)
  }

  function Reopened(t: Tally): Tally {
    t.(found := [], applied := 0, skipped := 0)
  }

  lemma CountedCarries(c: Config, item: Item, a: Tally, t: Tally)
    ensures Counted(c, item, Carry(a, t)) == Carry(a, Counted(c, item, t))
    ensures ShouldApply(c, item, Carry(a, t)) == ShouldApply(c, item, t)
  {
    if item.verdict.Differs? {
      var m := MismatchOf(c.jobId, item);
      assert a.found + t.found + [m] == a.found + (t.found + [m]);
    }
  }

  lemma {:induction false} ScanCarries(c: Config, items: seq<Item>, i: nat, end: nat, a: Tally, t: Tally, s: Source)
    requires end <= |items|
    ensures ScanTally(c, items, i, end, Carry(a, t)) == Carry(a, ScanTally(c, items, i, end, t))
    ensures ScanSource(c, items, i, end, Carry(a, t), s) == ScanSource(c, items, i, end, t, s)
    decreases end - i
  {
    if i >= end {
    } else {
      CountedCarries(c, items[i], a, t);
      ScanCarries(c, items, i + 1, end, a, Counted(c, items[i], t), Touched(c, items[i], t, s));
    }
  }

  // ---------------------------------------------------------------------------
  // A run is a scan up to where it stops
  // ---------------------------------------------------------------------------

  /** Where a plan stops. */
  function StopOf(items: seq<Item>, p: Plan): (n: nat)
    ensures n <= |items|
  {
    if p.ending.Complete? then |items| else StartOf(items, p.cursor)
  }

  /** The plan scans records i up to its stop and leaves one checkpoint saying so. */
  ghost predicate Scans(w: World, c: Config, items: seq<Item>, i: nat, t: Tally, p: Plan) {
    var stop := StopOf(items, p);
    && i <= stop && (p.ending.Complete? ==> p.cursor.None?)
    && (forall k | i <= k < stop :: !items[k].verdict.Malformed?)
    && p.tally == ScanTally(c, items, i, stop, t)
    && PerformAll(w, p.effects) ==
       World(w.checkpoints[c.jobId := Saved(c, p.cursor, p.tally)], ScanSource(c, items, i, stop, t, w.source))
  }

  lemma SameButOne(a: map<string, Checkpoint>, b: map<string, Checkpoint>, jobId: string, cp: Checkpoint)
    requires a - {jobId} == b - {jobId}
    ensures a[jobId := cp] == b[jobId := cp]
  {
    forall k | k in a && k != jobId ensures k in b && b[k] == a[k] {
      assert k in a - {jobId};
    }
    forall k | k in b && k != jobId ensures k in a {
      assert k in b - {jobId};
    }
  }

  lemma RecordScans(w: World, c: Config, items: seq<Item>, cursor: Option<nat>, i: nat, t: Tally)
    requires i < |items|
    ensures var v := PerformAll(w, RecordEffects(c, cursor, items[i], t));
            && v.source == Touched(c, items[i], t, w.source)
            && v.checkpoints - {c.jobId} == w.checkpoints - {c.jobId}
  {
    if ShouldApply(c, items[i], t) {
      var m, cp := MismatchOf(c.jobId, items[i]), Saved(c, cursor, Counted(c, items[i], t));
      var effects := RecordEffects(c, cursor, items[i], t);
      assert effects[1..] == [Save(cp)] && effects[1..][1..] == [];
      assert PerformAll(w, effects) == PerformAll(Perform(Perform(w, Write(m)), Save(cp)), []);
    }
  }

  lemma RecordThenScans(
    w: World, v: World, c: Config, items: seq<Item>, i: nat, t: Tally, effects: seq<Effect>, p: Plan)
    requires i < |items| && v == PerformAll(w, effects)
    requires v.source == Touched(c, items[i], t, w.source)
    requires v.checkpoints - {c.jobId} == w.checkpoints - {c.jobId}
    requires Scans(v, c, items, i + 1, Counted(c, items[i], t), p) && !items[i].verdict.Malformed?
    ensures Scans(w, c, items, i, t, After(effects, p))
  {
    PerformAppend(w, effects, p.effects);
    SameButOne(v.checkpoints, w.checkpoints, c.jobId, Saved(c, p.cursor, p.tally));
  }

  lemma BatchEndScans(w: World, c: Config, items: seq<Item>, end: nat, t: Tally, p: Plan)
    requires end < |items|
    requires || p == Plan([], t, Some(end), Partial)
             || Scans(Perform(w, Save(Saved(c, Some(end), t))), c, items, end, t, p)
    ensures Scans(w, c, items, end, t, After([Save(Saved(c, Some(end), t))], p))
  {
    var save := Save(Saved(c, Some(end), t));
    PerformAppend(w, [save], p.effects);
    assert [save][1..] == [];
    assert PerformAll(w, [save]) == PerformAll(Perform(w, save), []);
  }

  /** The plan scans from record i unless it meets a malformed record, and goes on to the end if unbounded. */
  ghost predicate ScansOrStops(w: World, c: Config, items: seq<Item>, i: nat, t: Tally, left: Option<nat>, p: Plan) {
    && (!p.ending.Invalid? ==> Scans(w, c, items, i, t, p))
    && (WellFormedFrom(items, i) ==> !p.ending.Invalid?)
    && (left.None? ==> !p.ending.Partial?)
  }

  /** A run allowed at least one batch scans from where it starts. */
  lemma {:induction false} BatchesScan(
    w: World, c: Config, items: seq<Item>, cursor: Option<nat>, t: Tally, left: Option<nat>)
    requires c.batchSize >= 1 && left != Some(0)
    ensures ScansOrStops(w, c, items, StartOf(items, cursor), t, left, PlanBatches(c, items, cursor, t, left))
    decreases |items| - StartOf(items, cursor), |items| + 1
  {
    var start := StartOf(items, cursor);
    RecordsScan(w, c, items, cursor, start, EndOf(c, items, cursor), t, LessOne(left));
  }

  lemma {:induction false} RecordsScan(
    w: World, c: Config, items: seq<Item>, cursor: Option<nat>, i: nat, end: nat, t: Tally, left: Option<nat>)
    requires c.batchSize >= 1
    requires StartOf(items, cursor) <= i <= end <= |items|
    requires end == EndOf(c, items, cursor)
    ensures ScansOrStops(w, c, items, i, t, left, PlanRecords(c, items, cursor, i, end, t, left))
    decreases |items| - StartOf(items, cursor), |items| - i
  {
    if i == end {
      if end < |items| {
        var next := Perform(w, Save(Saved(c, Some(end), t)));
        if left != Some(0) {
          BatchesScan(next, c, items, Some(end), t, left);
        }
        var rest := PlanBatches(c, items, Some(end), t, left);
        if !rest.ending.Invalid? {
          BatchEndScans(w, c, items, end, t, rest);
        }
      } else {
        var save := Save(Saved(c, None, t));
        assert [save][1..] == [];
        assert PerformAll(w, [save]) == PerformAll(Perform(w, save), []);
      }
    } else if !items[i].verdict.Malformed? {
      var effects := RecordEffects(c, cursor, items[i], t);
      var v := PerformAll(w, effects);
      RecordScans(w, c, items, cursor, i, t);
      RecordsScan(v, c, items, cursor, i + 1, end, Counted(c, items[i], t), left);
      var rest := PlanRecords(c, items, cursor, i + 1, end, Counted(c, items[i], t), left);
      if !rest.ending.Invalid? {
        RecordThenScans(w, v, c, items, i, t, effects, rest);
      }
    }
  }

  /** An unbounded run completes exactly when every record it has yet to scan is well formed. */
  lemma UnboundedCompletes(w: World, c: Config, items: seq<Item>)
    requires c.batchSize >= 1 && c.maxBatches.None?
    ensures PlanRun(c, items, w).ending.Complete? <==> WellFormedFrom(items, StartOf(items, Loaded(c, w).nextCursor))
  {
    BatchesScan(w, c, items, Loaded(c, w).nextCursor, Opening(Loaded(c, w)), None);
  }

  // ---------------------------------------------------------------------------
  // Windows
  // ---------------------------------------------------------------------------

  datatype Window = Window(batchSize: nat, maxBatches: Option<nat>)

  /** What a caller has after some windows: the durable state and the reports added up. */
  datatype Report = Report(
    world: World, scanned: nat, mismatches: nat, applied: nat, skipped: nat, found: seq<Mismatch>, complete: bool)

  function ConfigOf(jobId: string, apply: bool, window: Window): Config {
    Config(jobId, apply, window.batchSize, false, window.maxBatches)
  }

  function ReportOf(w: World, t: Tally, complete: bool): Report {
    Report(w, t.scanned, t.mismatches, t.applied, t.skipped, t.found, complete)
  }

  /** Uninterrupted windows, one after the other, until one reports completion. */
  function RunWindows(jobId: string, apply: bool, items: seq<Item>, w: World, windows: seq<Window>): Report
    requires forall window | window in windows :: window.batchSize >= 1
    decreases |windows|
  {
    if windows == [] then ReportOf(w, Opening(Fresh(jobId)), false)
    else
      var p := PlanRun(ConfigOf(jobId, apply, windows[0]), items, w);
      var after := PerformAll(w, p.effects);
      if !p.ending.Partial? then ReportOf(after, p.tally, p.ending.Complete?)
      else
        var rest := RunWindows(jobId, apply, items, after, windows[1..]);
        rest.(applied := p.tally.applied + rest.applied,
              skipped := p.tally.skipped + rest.skipped,
              found := p.tally.found + rest.found)
  }

  function Standing(jobId: string, w: World): Checkpoint {
    if jobId in w.checkpoints then w.checkpoints[jobId] else Fresh(jobId)
  }

  /** The report of a completed job, by the batch-free reference. */
  function Whole(c: Config, items: seq<Item>, w: World): Report {
    var cp := Standing(c.jobId, w);
    var start := StartOf(items, cp.nextCursor);
    var t := ScanTally(c, items, start, |items|, Opening(cp));
    var source := ScanSource(c, items, start, |items|, Opening(cp), w.source);
    ReportOf(World(w.checkpoints[c.jobId := Saved(c, None, t)], source), t, true)
  }

  lemma WholeSameJob(c: Config, d: Config, items: seq<Item>, w: World)
    requires c.jobId == d.jobId && c.apply == d.apply
    ensures Whole(c, items, w) == Whole(d, items, w)
  {
    var cp := Standing(c.jobId, w);
    ScanSameJob(c, d, items, StartOf(items, cp.nextCursor), |items|, Opening(cp), w.source);
  }

  /** Finishing a job after a partial window is finishing it from the start, minus what the window reported. */
  lemma WholeAfterWindow(w: World, v: World, c: Config, items: seq<Item>, p: Plan)
    requires var cp := Standing(c.jobId, w);
             Scans(w, c, items, StartOf(items, cp.nextCursor), Opening(cp), p) && p.ending.Partial?
    requires v == PerformAll(w, p.effects)
    ensures var rest := Whole(c, items, v);
            Whole(c, items, w) ==
            rest.(applied := p.tally.applied + rest.applied,
                  skipped := p.tally.skipped + rest.skipped,
                  found := p.tally.found + rest.found)
  {
    var cp := Standing(c.jobId, w);
    var start, stop := StartOf(items, cp.nextCursor), StopOf(items, p);
    ScanSplit(c, items, start, stop, |items|, Opening(cp), w.source);
    assert Standing(c.jobId, v) == Saved(c, p.cursor, p.tally);
    assert Opening(Saved(c, p.cursor, p.tally)) == Reopened(p.tally);
    assert p.tally.found + [] == p.tally.found;
    assert Carry(p.tally, Reopened(p.tally)) == p.tally;
    ScanCarries(c, items, stop, |items|, p.tally, Reopened(p.tally), v.source);
  }

  lemma {:induction false} WindowsAreWhole(jobId: string, apply: bool, items: seq<Item>, w: World, windows: seq<Window>)
    requires forall window | window in windows :: window.batchSize >= 1
    requires RunWindows(jobId, apply, items, w, windows).complete
    ensures RunWindows(jobId, apply, items, w, windows) == Whole(ConfigOf(jobId, apply, Window(1, None)), items, w)
    ensures WellFormedFrom(items, StartOf(items, Standing(jobId, w).nextCursor))
    decreases |windows|
  {
    var c := ConfigOf(jobId, apply, windows[0]);
    var one := ConfigOf(jobId, apply, Window(1, None));
    var cp := Standing(jobId, w);
    assert windows[0] in windows;
    var p := PlanRun(c, items, w);
    var v := PerformAll(w, p.effects);
    WholeSameJob(c, one, items, w);
    if windows[0].maxBatches == Some(0) {
      assert v == w;
      WindowsAreWhole(jobId, apply, items, w, windows[1..]);
      var rest := RunWindows(jobId, apply, items, w, windows[1..]);
      assert [] + rest.found == rest.found;
    } else {
      BatchesScan(w, c, items, cp.nextCursor, Opening(cp), c.maxBatches);
      if p.ending.Partial? {
        WindowsAreWhole(jobId, apply, items, v, windows[1..]);
        assert Standing(jobId, v) == Saved(c, p.cursor, p.tally);
        WholeAfterWindow(w, v, c, items, p);
        WholeSameJob(c, one, items, v);
      }
    }
  }

  /**
   Any cutting of an uninterrupted job into windows that reaches completion ends in the same durable
   state, with the same totals and the same list of mismatches, as one unbounded run; and that run completes.
   */
  lemma WindowsEqualOneRun(
    jobId: string, apply: bool, items: seq<Item>, w: World, windows: seq<Window>, batchSize: nat)
    requires batchSize >= 1 && forall window | window in windows :: window.batchSize >= 1
    requires RunWindows(jobId, apply, items, w, windows).complete
    ensures RunWindows(jobId, apply, items, w, windows) ==
            RunWindows(jobId, apply, items, w, [Window(batchSize, None)])
  {
    var single := [Window(batchSize, None)];
    var c := ConfigOf(jobId, apply, single[0]);
    WindowsAreWhole(jobId, apply, items, w, windows);
    UnboundedCompletes(w, c, items);
    WindowsAreWhole(jobId, apply, items, w, single);
  }

  // ---------------------------------------------------------------------------
  // Windows make progress
  // ---------------------------------------------------------------------------

  /** A plan that stops part of the way has moved past `from`, short of the end. */
  predicate Advances(p: Plan, from: int, items: seq<Item>) {
    p.ending.Partial? ==> p.cursor.Some? && from <= p.cursor.value < |items|
  }

  lemma {:induction false} BatchesAdvance(c: Config, items: seq<Item>, cursor: Option<nat>, t: Tally, left: Option<nat>)
    requires c.batchSize >= 1 && left != Some(0)
    ensures Advances(PlanBatches(c, items, cursor, t, left), StartOf(items, cursor) + 1, items)
    decreases |items| - StartOf(items, cursor), |items| + 1
  {
    var start := StartOf(items, cursor);
    RecordsAdvance(c, items, cursor, start, EndOf(c, items, cursor), t, LessOne(left));
  }

  lemma {:induction false} RecordsAdvance(
    c: Config, items: seq<Item>, cursor: Option<nat>, i: nat, end: nat, t: Tally, left: Option<nat>)
    requires c.batchSize >= 1
    requires StartOf(items, cursor) <= i <= end <= |items|
    requires end == EndOf(c, items, cursor)
    ensures Advances(PlanRecords(c, items, cursor, i, end, t, left), Max(end, StartOf(items, cursor) + 1), items)
    decreases |items| - StartOf(items, cursor), |items| - i
  {
    if i == end {
      if end < |items| && left != Some(0) {
        BatchesAdvance(c, items, Some(end), t, left);
      }
    } else if !items[i].verdict.Malformed? {
      RecordsAdvance(c, items, cursor, i + 1, end, Counted(c, items[i], t), left);
    }
  }

  /** Over well-formed records, as many windows as there are records left, each allowed a batch, complete the job. */
  lemma {:induction false} WindowsComplete(jobId: string, apply: bool, items: seq<Item>, w: World, windows: seq<Window>)
    requires forall window | window in windows :: window.batchSize >= 1 && window.maxBatches != Some(0)
    requires WellFormedFrom(items, StartOf(items, Standing(jobId, w).nextCursor))
    requires |windows| >= Max(1, |items| - StartOf(items, Standing(jobId, w).nextCursor))
    ensures RunWindows(jobId, apply, items, w, windows).complete
    decreases |windows|
  {
    var c := ConfigOf(jobId, apply, windows[0]);
    var cp := Standing(jobId, w);
    assert windows[0] in windows;
    var p := PlanRun(c, items, w);
    BatchesScan(w, c, items, cp.nextCursor, Opening(cp), c.maxBatches);
    BatchesAdvance(c, items, cp.nextCursor, Opening(cp), c.maxBatches);
    if p.ending.Partial? {
      var v := PerformAll(w, p.effects);
      assert Standing(jobId, v) == Saved(c, p.cursor, p.tally);
      WindowsComplete(jobId, apply, items, v, windows[1..]);
    }
  }
}
