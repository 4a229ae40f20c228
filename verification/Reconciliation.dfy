/**
 The reconciliation runner. Its only durable effects are corrections written to the
 source and checkpoints saved to the store, so a run is the list of effects it
 performs, and a crash anywhere is a prefix of that list.
 */
module Reconciliation {
  import opened Prelude
  import Decimal

  const MAX_BATCH_SIZE := 1_000
  const DEFAULT_BATCH_SIZE := 100
  const CONFIRMATION_PHRASE := "APPLY-RECONCILIATION"

  datatype Record = Record(id: string, expectedAmount: string, actualAmount: string)

  datatype Mismatch = Mismatch(record: Record, difference: string, operationKey: string)

  /** `processedIds` is stored sorted; only its members matter. */
  datatype Checkpoint = Checkpoint(
    jobId: string, nextCursor: Option<nat>, processedIds: set<string>, scanned: nat, mismatches: nat)

  datatype Batch = Batch(items: seq<Item>, nextCursor: Option<nat>)

  function MakeOperationKey(jobId: string, recordId: string): string {
    "reconciliation:" + jobId + ":" + recordId
  }

  // ---------------------------------------------------------------------------
  // Durable state
  // ---------------------------------------------------------------------------

  datatype Source = Source(applied: seq<Mismatch>, appliedKeys: set<string>)

  datatype World = World(checkpoints: map<string, Checkpoint>, source: Source)

  datatype Effect = Write(mismatch: Mismatch) | Save(checkpoint: Checkpoint)

  /** Applying a mismatch is idempotent in its operation key. */
  function Applying(s: Source, m: Mismatch): Source {
    if m.operationKey in s.appliedKeys then s
    else Source(s.applied + [m], s.appliedKeys + {m.operationKey})
  }

  function Perform(w: World, e: Effect): World {
    match e
    case Write(m) => w.(source := Applying(w.source, m))
    case Save(c) => w.(checkpoints := w.checkpoints[c.jobId := c])
  }

  function PerformAll(w: World, effects: seq<Effect>): World
    decreases |effects|
  {
    if effects == [] then w else PerformAll(Perform(w, effects[0]), effects[1..])
  }

  lemma {:induction false} PerformAppend(w: World, a: seq<Effect>, b: seq<Effect>)
    ensures PerformAll(w, a + b) == PerformAll(PerformAll(w, a), b)
    decreases |a|
  {
    if a == [] {
      assert a + b == b;
    } else {
      assert (a + b)[0] == a[0] && (a + b)[1..] == a[1..] + b;
      PerformAppend(Perform(w, a[0]), a[1..], b);
    }
  }

  /** What loading a job's checkpoint returns. */
  function CheckpointOf(checkpoints: map<string, Checkpoint>, jobId: string): Option<Checkpoint> {
    if jobId in checkpoints then Some(checkpoints[jobId]) else None
  }

  /** The last checkpoint of the job that the effects save, if any does. */
  function LastSaved(effects: seq<Effect>, jobId: string): Option<Checkpoint> {
    if effects == [] then None
    else
      var last := effects[|effects| - 1];
      if last.Save? && last.checkpoint.jobId == jobId then Some(last.checkpoint)
      else LastSaved(effects[..|effects| - 1], jobId)
  }

  /** Loading returns the job's last saved checkpoint, whatever other jobs saved and whatever was written. */
  lemma {:induction false} LoadsLastSaved(w: World, effects: seq<Effect>, jobId: string)
    ensures CheckpointOf(PerformAll(w, effects).checkpoints, jobId) ==
            if LastSaved(effects, jobId).Some? then LastSaved(effects, jobId) else CheckpointOf(w.checkpoints, jobId)
    decreases |effects|
  {
    if effects == [] {
    } else {
      var front, last := effects[..|effects| - 1], effects[|effects| - 1];
      LoadsLastSaved(w, front, jobId);
      PerformAppend(w, front, [last]);
      assert effects == front + [last] && [last][1..] == [];
      assert PerformAll(PerformAll(w, front), [last]) == PerformAll(Perform(PerformAll(w, front), last), []);
    }
  }

  // ---------------------------------------------------------------------------
  // Options
  // ---------------------------------------------------------------------------

  datatype Options = Options(
    jobId: string,
    apply: bool,
    confirmation: Option<string>,
    expectedConfirmation: Option<string>,
    batchSize: Option<int>,
    startOver: bool,
    maxBatches: Option<int>)

  datatype Config = Config(jobId: string, apply: bool, batchSize: nat, startOver: bool, maxBatches: Option<nat>)

  function OrElse<T>(v: Option<T>, otherwise: T): T {
    if v.Some? then v.value else otherwise
  }

  /** Options pass exactly when the job is named, the batch size is in range and an apply run is confirmed. */
  function NormalizeOptions(o: Options): (r: Result<Config, string>)
    ensures r.Ok? <==>
              && !IsBlank(o.jobId)
              && 1 <= OrElse(o.batchSize, 100) <= 1_000
              && (o.apply ==> o.confirmation == Some(OrElse(o.expectedConfirmation, "APPLY-RECONCILIATION")))
    ensures r.Ok? ==>
              && r.value.jobId == o.jobId && r.value.apply == o.apply && r.value.startOver == o.startOver
              && r.value.batchSize == OrElse(o.batchSize, 100)
              && (r.value.maxBatches.None? <==> o.maxBatches.None?)
              && (o.maxBatches.Some? ==> r.value.maxBatches.value == Max(0, o.maxBatches.value))
  {
    var batchSize := OrElse(o.batchSize, DEFAULT_BATCH_SIZE);
    var expected := OrElse(o.expectedConfirmation, CONFIRMATION_PHRASE);
    if IsBlank(o.jobId) then Err("jobId is required")
    else if batchSize < 1 || batchSize > MAX_BATCH_SIZE then Err("batchSize must be an integer between 1 and 1000")
    else if o.apply && o.confirmation != Some(expected) then Err("apply mode requires confirmation phrase " + expected)
    else
      // A bound of zero or less allows no batch at all.
      var maxBatches := if o.maxBatches.Some? then Some(Max(0, o.maxBatches.value) as nat) else None;
      Ok(Config(o.jobId, o.apply, batchSize, o.startOver, maxBatches))
  }

  // ---------------------------------------------------------------------------
  // One record
  // ---------------------------------------------------------------------------

  /** The counters and sets of a run. */
  datatype Tally = Tally(
    processed: set<string>, scanned: nat, mismatches: nat, found: seq<Mismatch>, applied: nat, skipped: nat)

  /** What examining a record finds; a malformed record makes the run throw before any write for it. */
  datatype Verdict = Malformed(message: string) | Matches | Differs(difference: string)

  datatype Item = Item(record: Record, verdict: Verdict)

  function Examine(r: Record): Verdict {
    if IsBlank(r.id) then Malformed("reconciliation record id is required")
    else
      match Decimal.CompareAmounts(r.expectedAmount, r.actualAmount)
      case Err(message) => Malformed(message)
      case Ok(None) => Matches
      case Ok(Some(difference)) => Differs(difference)
  }

  /** The source's records, each with its verdict. */
  function Examined(records: seq<Record>): (items: seq<Item>)
    ensures |items| == |records|
    ensures forall i | 0 <= i < |records| :: items[i] == Item(records[i], Examine(records[i]))
  {
    seq(|records|, i requires 0 <= i < |records| => Item(records[i], Examine(records[i])))
  }

  function MismatchOf(jobId: string, item: Item): Mismatch
    requires item.verdict.Differs?
  {
    Mismatch(item.record, item.verdict.difference, MakeOperationKey(jobId, item.record.id))
  }

  predicate ShouldApply(c: Config, item: Item, t: Tally) {
    item.verdict.Differs? && c.apply && item.record.id !in t.processed
  }

  /** The tally after a well-formed record. */
  function Counted(c: Config, item: Item, t: Tally): Tally {
    var t1 := t.(scanned := t.scanned + 1);
    if !item.verdict.Differs? then t1
    else
      var t2 := t1.(mismatches := t.mismatches + 1, found := t.found + [MismatchOf(c.jobId, item)]);
      if !c.apply then t2
      else if item.record.id in t.processed then t2.(skipped := t.skipped + 1)
      else t2.(processed := t.processed + {item.record.id}, applied := t.applied + 1)
  }

  function Saved(c: Config, cursor: Option<nat>, t: Tally): Checkpoint {
    Checkpoint(c.jobId, cursor, t.processed, t.scanned, t.mismatches)
  }

  /** A correction, followed at once by a checkpoint that still points at the start of the batch. */
  function RecordEffects(c: Config, cursor: Option<nat>, item: Item, t: Tally): seq<Effect> {
    if ShouldApply(c, item, t) then [Write(MismatchOf(c.jobId, item)), Save(Saved(c, cursor, Counted(c, item, t)))]
    else []
  }

  // ---------------------------------------------------------------------------
  // A whole run
  // ---------------------------------------------------------------------------

  /** Reading past the end is reading at the end. */
  function StartOf(items: seq<Item>, cursor: Option<nat>): (n: nat)
    ensures n <= |items|
  {
    if cursor.Some? then Min(cursor.value, |items|) else 0
  }

  /** Where the batch at the cursor ends. */
  function EndOf(c: Config, items: seq<Item>, cursor: Option<nat>): (n: nat)
    ensures StartOf(items, cursor) <= n <= |items|
  {
    Min(StartOf(items, cursor) + c.batchSize, |items|)
  }

  function ReadBatch(items: seq<Item>, cursor: Option<nat>, batchSize: nat): Batch {
    var start := StartOf(items, cursor);
    var end := Min(start + batchSize, |items|);
    Batch(items[start..end], if end < |items| then Some(end) else None)
  }

  datatype Ending = Complete | Partial | Invalid(message: string)

  datatype Plan = Plan(effects: seq<Effect>, tally: Tally, cursor: Option<nat>, ending: Ending)

  function After(effects: seq<Effect>, p: Plan): Plan {
    p.(effects := effects + p.effects)
  }

  function LessOne(left: Option<nat>): Option<nat>
    requires left != Some(0)
  {
    if left.Some? then Some(left.value - 1) else None
  }

  /** The rest of a run that is about to read a batch, with `left` batches allowed. */
  function PlanBatches(c: Config, items: seq<Item>, cursor: Option<nat>, t: Tally, left: Option<nat>): Plan
    requires c.batchSize >= 1
    decreases |items| - StartOf(items, cursor), |items| + 1
  {
    if left == Some(0) then Plan([], t, cursor, Partial)
    else
      var start := StartOf(items, cursor);
      PlanRecords(c, items, cursor, start, EndOf(c, items, cursor), t, LessOne(left))
  }

  /** The rest of a run that is at record i of a batch ending before `end`. */
  function PlanRecords(
    c: Config, items: seq<Item>, cursor: Option<nat>, i: nat, end: nat, t: Tally, left: Option<nat>): Plan
    requires c.batchSize >= 1
    requires StartOf(items, cursor) <= i <= end <= |items|
    requires end == EndOf(c, items, cursor)
    decreases |items| - StartOf(items, cursor), |items| - i
  {
    if i == end then
      var next := if end < |items| then Some(end) else None;
      var save := Save(Saved(c, next, t));
      if next.None? then Plan([save], t, None, Complete)
      else After([save], PlanBatches(c, items, next, t, left))
    else
      match items[i].verdict
      case Malformed(message) => Plan([], t, cursor, Invalid(message))
      case _ =>
        After(RecordEffects(c, cursor, items[i], t),
              PlanRecords(c, items, cursor, i + 1, end, Counted(c, items[i], t), left))
  }

  function Fresh(jobId: string): Checkpoint {
    Checkpoint(jobId, None, {}, 0, 0)
  }

  function Loaded(c: Config, w: World): Checkpoint {
    if !c.startOver && c.jobId in w.checkpoints then w.checkpoints[c.jobId] else Fresh(c.jobId)
  }

  function Opening(cp: Checkpoint): Tally {
    Tally(cp.processedIds, cp.scanned, cp.mismatches, [], 0, 0)
  }

  /** Everything a run of this configuration does and reports, if nothing stops it. */
  function PlanRun(c: Config, items: seq<Item>, w: World): Plan
    requires c.batchSize >= 1
  {
    var cp := Loaded(c, w);
    PlanBatches(c, items, cp.nextCursor, Opening(cp), c.maxBatches)
  }

  // ---------------------------------------------------------------------------
  // Operation keys
  // ---------------------------------------------------------------------------

  lemma KeyInjective(jobId: string, a: string, b: string)
    requires MakeOperationKey(jobId, a) == MakeOperationKey(jobId, b)
    ensures a == b
  {
    var prefix := "reconciliation:" + jobId + ":";
    assert (prefix + a)[|prefix|..] == a && (prefix + b)[|prefix|..] == b;
  }

  /** Two jobs could share an operation key. */
  ghost predicate KeysCollide(j: string, k: string) {
    exists a, b :: !IsBlank(a) && !IsBlank(b) && MakeOperationKey(j, a) == MakeOperationKey(k, b)
  }

  lemma CollisionWitness(j: string, rest: string)
    ensures KeysCollide(j, j + ":" + rest) && KeysCollide(j + ":" + rest, j)
  {
    var b := "x";
    var a := rest + ":" + b;
    assert a[|a| - 1] == 'x' && b[0] == 'x';
    assert !IsBlank(a) && !IsBlank(b);
    assert MakeOperationKey(j, a) == MakeOperationKey(j + ":" + rest, b);
  }

  /** Two texts cut at a colon that are equal: the shorter head, with its colon, begins the longer one. */
  lemma ColonPrefix(j: string, a: string, k: string, b: string)
    requires j + ":" + a == k + ":" + b
    ensures j == k || j + ":" <= k || k + ":" <= j
  {
    var x := j + ":" + a;
    assert x[..|j|] == j && x[..|k|] == k && x[|j|] == ':' && x[|k|] == ':';
    if |j| < |k| {
      assert k[|j|] == ':' && k[..|j|] == j;
    } else if |k| < |j| {
      assert j[|k|] == ':' && j[..|k|] == k;
    }
  }

  /** Distinct jobs share an operation key exactly when one job id is the other followed by a colon and anything. */
  lemma CrossJobCollision(j: string, k: string)
    requires j != k
    ensures KeysCollide(j, k) <==> j + ":" <= k || k + ":" <= j
  {
    if KeysCollide(j, k) {
      var a, b :| !IsBlank(a) && !IsBlank(b) && MakeOperationKey(j, a) == MakeOperationKey(k, b);
      var head := "reconciliation:";
      assert MakeOperationKey(j, a)[|head|..] == j + ":" + a && MakeOperationKey(k, b)[|head|..] == k + ":" + b;
      ColonPrefix(j, a, k, b);
    }
    if j + ":" <= k {
      assert k == j + ":" + k[|j| + 1..];
      CollisionWitness(j, k[|j| + 1..]);
    }
    if k + ":" <= j {
      assert j == k + ":" + j[|k| + 1..];
      CollisionWitness(k, j[|k| + 1..]);
    }
  }
}
