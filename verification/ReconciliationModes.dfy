/** Dry runs write nothing, and what an apply run makes of a checkpoint a dry run left behind. */
module ReconciliationModes {
  import opened Prelude
  import opened Reconciliation
  import opened ReconciliationSafety
  import opened ReconciliationWindows

  ghost predicate OnlySaves(effects: seq<Effect>) {
    forall e | e in effects :: e.Save?
  }

  lemma {:induction false} BatchesOnlySave(
    c: Config, items: seq<Item>, cursor: Option<nat>, t: Tally, left: Option<nat>)
    requires c.batchSize >= 1 && !c.apply
    ensures OnlySaves(PlanBatches(c, items, cursor, t, left).effects)
    decreases |items| - StartOf(items, cursor), |items| + 1
  {
    if left != Some(0) {
      var start := StartOf(items, cursor);
      RecordsOnlySave(c, items, cursor, start, EndOf(c, items, cursor), t, LessOne(left));
    }
  }

  lemma {:induction false} RecordsOnlySave(
    c: Config, items: seq<Item>, cursor: Option<nat>, i: nat, end: nat, t: Tally, left: Option<nat>)
    requires c.batchSize >= 1 && !c.apply
    requires StartOf(items, cursor) <= i <= end <= |items|
    requires end == EndOf(c, items, cursor)
    ensures OnlySaves(PlanRecords(c, items, cursor, i, end, t, left).effects)
    decreases |items| - StartOf(items, cursor), |items| - i
  {
    if i == end {
      if end < |items| {
        BatchesOnlySave(c, items, Some(end), t, left);
      }
    } else if !items[i].verdict.Malformed? {
      RecordsOnlySave(c, items, cursor, i + 1, end, Counted(c, items[i], t), left);
    }
  }

  lemma {:induction false} SavesKeepSource(w: World, effects: seq<Effect>)
    requires OnlySaves(effects)
    ensures PerformAll(w, effects).source == w.source
    decreases |effects|
  {
    if effects == [] {
    } else {
      assert effects[0] in effects;
      SavesKeepSource(Perform(w, effects[0]), effects[1..]);
    }
  }

  /** A dry run, stopped anywhere or not at all, never touches the source. */
  lemma DryRunNeverWrites(w: World, items: seq<Item>, a: Attempt)
    requires a.config.batchSize >= 1 && !a.config.apply
    ensures AfterAttempt(w, items, a).source == w.source
  {
    var cp := Loaded(a.config, w);
    BatchesOnlySave(a.config, items, cp.nextCursor, Opening(cp), a.config.maxBatches);
    var p := PlanRun(a.config, items, w);
    SavesKeepSource(w, p.effects[..Performed(a, p)]);
  }

  /** The keys of the mismatches from record i on that are not marked as processed. */
  ghost function NewKeys(jobId: string, items: seq<Item>, i: nat, processed: set<string>): set<string> {
    set k | i <= k < |items| && items[k].verdict.Differs? && items[k].record.id !in processed
      :: MakeOperationKey(jobId, items[k].record.id)
  }

  lemma NewKeysStep(c: Config, items: seq<Item>, i: nat, t: Tally, s: Source)
    requires i < |items| && c.apply
    ensures s.appliedKeys + NewKeys(c.jobId, items, i, t.processed) ==
            Touched(c, items[i], t, s).appliedKeys
            + NewKeys(c.jobId, items, i + 1, Counted(c, items[i], t).processed)
  {
    var u := Touched(c, items[i], t, s);
    var t1 := Counted(c, items[i], t);
    var before, after := NewKeys(c.jobId, items, i, t.processed), NewKeys(c.jobId, items, i + 1, t1.processed);
    forall key | key in before ensures key in u.appliedKeys + after {
      var k :| i <= k < |items| && items[k].verdict.Differs? && items[k].record.id !in t.processed
               && key == MakeOperationKey(c.jobId, items[k].record.id);
      if k > i && items[k].record.id !in t1.processed {
        assert key in after;
      }
    }
    forall key | key in after ensures key in before {
      var k :| i + 1 <= k < |items| && items[k].verdict.Differs? && items[k].record.id !in t1.processed
               && key == MakeOperationKey(c.jobId, items[k].record.id);
    }
    assert u.appliedKeys <= s.appliedKeys + before;
  }

  lemma {:induction false} ScanApplies(c: Config, items: seq<Item>, i: nat, t: Tally, s: Source)
    requires c.apply && i <= |items|
    ensures ScanSource(c, items, i, |items|, t, s).appliedKeys ==
            s.appliedKeys + NewKeys(c.jobId, items, i, t.processed)
    decreases |items| - i
  {
    if i < |items| {
      NewKeysStep(c, items, i, t, s);
      ScanApplies(c, items, i + 1, Counted(c, items[i], t), Touched(c, items[i], t, s));
    } else {
      assert NewKeys(c.jobId, items, i, t.processed) == {};
    }
  }

  /** From any checkpoint whatever, a completed apply run adds exactly the unprocessed mismatches from the cursor on. */
  lemma CompletionAdds(w: World, c: Config, items: seq<Item>)
    requires c.batchSize >= 1 && c.apply && PlanRun(c, items, w).ending.Complete?
    ensures var cp := Loaded(c, w);
            PerformAll(w, PlanRun(c, items, w).effects).source.appliedKeys ==
            w.source.appliedKeys + NewKeys(c.jobId, items, StartOf(items, cp.nextCursor), cp.processedIds)
  {
    var cp := Loaded(c, w);
    BatchesScan(w, c, items, cp.nextCursor, Opening(cp), c.maxBatches);
    ScanApplies(c, items, StartOf(items, cp.nextCursor), Opening(cp), w.source);
  }

  ghost predicate DistinctIds(items: seq<Item>) {
    forall i, j | 0 <= i < j < |items| :: items[i].record.id != items[j].record.id
  }

  /**
   Resuming in apply mode from a checkpoint a dry run left, with nothing applied yet, corrects every
   mismatch exactly when the dry run had passed none: records before its cursor are never applied.
   */
  lemma DryRunPrefixIsLost(w: World, c: Config, items: seq<Item>)
    requires c.batchSize >= 1 && c.apply && PlanRun(c, items, w).ending.Complete?
    requires DistinctIds(items) && w.source.appliedKeys == {} && Loaded(c, w).processedIds == {}
    ensures MismatchKeys(c.jobId, items) <= PerformAll(w, PlanRun(c, items, w).effects).source.appliedKeys
            <==> forall k | 0 <= k < StartOf(items, Loaded(c, w).nextCursor) :: !items[k].verdict.Differs?
  {
    var start := StartOf(items, Loaded(c, w).nextCursor);
    var keys := NewKeys(c.jobId, items, start, {});
    CompletionAdds(w, c, items);
    if forall k | 0 <= k < start :: !items[k].verdict.Differs? {
      forall key | key in MismatchKeys(c.jobId, items) ensures key in keys {
        var item :| item in items && item.verdict.Differs? && key == MakeOperationKey(c.jobId, item.record.id);
        var k :| 0 <= k < |items| && items[k] == item;
      }
    } else {
      var k :| 0 <= k < start && items[k].verdict.Differs?;
      var key := MakeOperationKey(c.jobId, items[k].record.id);
      assert items[k] in items && key in MismatchKeys(c.jobId, items);
      if key in keys {
        var n :| start <= n < |items| && key == MakeOperationKey(c.jobId, items[n].record.id);
        KeyInjective(c.jobId, items[k].record.id, items[n].record.id);
        assert false;
      }
    }
  }

  /** It does arise: one dry window over two mismatches, then an apply run that corrects only the second. */
  lemma DryThenApplyWitness(jobId: string, a: Item, b: Item)
    requires a.verdict.Differs? && b.verdict.Differs? && a.record.id != b.record.id
    ensures var items := [a, b];
            var empty := World(map[], Source([], {}));
            var dry := Config(jobId, false, 1, false, Some(1));
            var apply := Config(jobId, true, 1, false, None);
            var w := PerformAll(empty, PlanRun(dry, items, empty).effects);
            && w.checkpoints == map[jobId := Checkpoint(jobId, Some(1), {}, 1, 1)]
            && PlanRun(apply, items, w).ending.Complete?
            && PerformAll(w, PlanRun(apply, items, w).effects).source.appliedKeys ==
               {MakeOperationKey(jobId, b.record.id)}
  {
    var items := [a, b];
    var empty := World(map[], Source([], {}));
    var dry := Config(jobId, false, 1, false, Some(1));
    var apply := Config(jobId, true, 1, false, None);
    var t := Counted(dry, a, Opening(Fresh(jobId)));
    var save := Save(Saved(dry, Some(1), t));
    assert StartOf(items, None) == 0 && StartOf(items, Some(1)) == 1;
    assert PlanBatches(dry, items, Some(1), t, Some(0)) == Plan([], t, Some(1), Partial);
    assert PlanRecords(dry, items, None, 1, 1, t, Some(0)).effects == [save];
    assert PlanRecords(dry, items, None, 0, 1, Opening(Fresh(jobId)), Some(0)).effects == [save];
    assert PlanRun(dry, items, empty).effects == [save];
    assert [save][1..] == [];
    var w := Perform(empty, save);
    assert PerformAll(empty, [save]) == w;
    UnboundedCompletes(w, apply, items);
    CompletionAdds(w, apply, items);
    assert NewKeys(jobId, items, 1, {}) == {MakeOperationKey(jobId, b.record.id)} by {
      assert items[1] == b;
    }
  }
}
