/** The streams table and the writes that reach it between two pages of an export. */
module Streams {
  import opened Prelude

  datatype Status = Active | Paused | Cancelled | Completed

  /** Times are milliseconds since the epoch. */
  datatype Stream = Stream(
    id: string,
    payer: string,
    recipient: string,
    status: Status,
    ratePerSecond: string,
    startTime: int,
    endTime: Option<int>,
    totalAmount: string,
    lastSettledAt: int,
    labels: seq<string>,
    offChainMemo: Option<string>,
    createdAt: int,
    updatedAt: int,
    deletedAt: Option<int>)

  /** Ids are non-empty and unique: they are the table's UUID primary key. */
  ghost predicate IsTable(rows: seq<Stream>) {
    && (forall i | 0 <= i < |rows| :: rows[i].id != "")
    && (forall i, j | 0 <= i < j < |rows| :: rows[i].id != rows[j].id)
  }

  function Find(rows: seq<Stream>, id: string): (r: Option<Stream>)
    ensures r.Some? ==> r.value in rows && r.value.id == id
    ensures r.None? ==> forall i | 0 <= i < |rows| :: rows[i].id != id
  {
    if rows == [] then None
    else if rows[0].id == id then Some(rows[0])
    else Find(rows[1..], id)
  }

  /** The table with a new version of the row that has this id. */
  function Replace(rows: seq<Stream>, row: Stream): (r: seq<Stream>)
    ensures |r| == |rows|
    ensures forall i | 0 <= i < |r| :: r[i] == if rows[i].id == row.id then row else rows[i]
  {
    if rows == [] then []
    else [if rows[0].id == row.id then row else rows[0]] + Replace(rows[1..], row)
  }

  /** Only the fields present are written. A memo can be set to null. */
  datatype Updates = Updates(labels: Option<seq<string>>, offChainMemo: Option<Option<string>>, status: Option<Status>)

  datatype Op =
    | Create(row: Stream)
    | UpdateById(id: string, updates: Updates, currentUpdatedAt: Option<int>, now: int)
    | SoftDeleteById(id: string, now: int)
    | RestoreById(id: string, now: int)

  function Updated(row: Stream, u: Updates, now: int): Stream {
    row.(labels := if u.labels.Some? then u.labels.value else row.labels,
         offChainMemo := if u.offChainMemo.Some? then u.offChainMemo.value else row.offChainMemo,
         status := if u.status.Some? then u.status.value else row.status,
         updatedAt := now)
  }

  /** What an operation makes of the row it names; None when its WHERE clause excludes the row. */
  function Written(row: Stream, op: Op): (r: Option<Stream>)
    requires !op.Create?
    ensures r.Some? ==> r.value.id == row.id && r.value.createdAt == row.createdAt
  {
    match op
    case UpdateById(_, updates, expected, now) =>
      if row.deletedAt.None? && (expected.None? || expected.value == row.updatedAt) then
        Some(Updated(row, updates, now))
      else None
    case SoftDeleteById(_, now) => if row.deletedAt.None? then Some(row.(deletedAt := Some(now))) else None
    case RestoreById(_, now) =>
      if row.deletedAt.Some? then Some(row.(deletedAt := None, updatedAt := now)) else None
  }

  /** The row an operation writes, if it writes one. */
  function Write(rows: seq<Stream>, op: Op): Option<Stream> {
    if op.Create? then
      if op.row.id != "" && Find(rows, op.row.id).None? then Some(op.row) else None
    else
      match Find(rows, op.id)
      case None => None
      case Some(row) => Written(row, op)
  }

  function Apply(rows: seq<Stream>, op: Op): seq<Stream> {
    match Write(rows, op)
    case None => rows
    case Some(row) => if op.Create? then rows + [row] else Replace(rows, row)
  }

  function ApplyAll(rows: seq<Stream>, ops: seq<Op>): seq<Stream>
    decreases |ops|
  {
    if ops == [] then rows else ApplyAll(Apply(rows, ops[0]), ops[1..])
  }

  class StreamRepository {
    var rows: seq<Stream>

    constructor ()
      ensures rows == []
    {
      rows := [];
    }

    /** A duplicate key makes the insert fail. */
    method Create(row: Stream) returns (created: Result<Stream, string>)
      modifies this
      ensures rows == Apply(old(rows), Op.Create(row))
      ensures created.Ok? <==> row.id != "" && forall i | 0 <= i < |old(rows)| :: old(rows)[i].id != row.id
      ensures created.Ok? ==> created.value == row && rows == old(rows) + [row]
      ensures created.Err? ==> rows == old(rows)
    {
      if row.id == "" || Find(rows, row.id).Some? {
        return Err("Stream insert did not return a row");
      }
      rows := rows + [row];
      return Ok(row);
    }

    method UpdateById(id: string, updates: Updates, currentUpdatedAt: Option<int>, now: int)
      returns (updated: Option<Stream>)
      modifies this
      ensures rows == Apply(old(rows), Op.UpdateById(id, updates, currentUpdatedAt, now))
      ensures updated == Write(old(rows), Op.UpdateById(id, updates, currentUpdatedAt, now))
    {
      var row := Find(rows, id);
      if row.None? || row.value.deletedAt.Some? {
        return None;
      }
      if currentUpdatedAt.Some? && currentUpdatedAt.value != row.value.updatedAt {
        return None;
      }
      updated := Some(Updated(row.value, updates, now));
      rows := Replace(rows, updated.value);
    }

    method SoftDeleteById(id: string, now: int) returns (affected: bool)
      modifies this
      ensures rows == Apply(old(rows), Op.SoftDeleteById(id, now))
      ensures affected <==> Find(old(rows), id).Some? && Find(old(rows), id).value.deletedAt.None?
    {
      var row := Find(rows, id);
      if row.None? || row.value.deletedAt.Some? {
        return false;
      }
      rows := Replace(rows, row.value.(deletedAt := Some(now)));
      return true;
    }

    method RestoreById(id: string, now: int) returns (affected: bool)
      modifies this
      ensures rows == Apply(old(rows), Op.RestoreById(id, now))
      ensures affected <==> Find(old(rows), id).Some? && Find(old(rows), id).value.deletedAt.Some?
    {
      var row := Find(rows, id);
      if row.None? || row.value.deletedAt.None? {
        return false;
      }
      rows := Replace(rows, row.value.(deletedAt := None, updatedAt := now));
      return true;
    }
  }

  // ---------------------------------------------------------------------------
  // What no operation changes
  // ---------------------------------------------------------------------------

  /** Every row of the earlier table is still there, with the id and creation time it had. */
  ghost predicate Carried(earlier: seq<Stream>, later: seq<Stream>) {
    && |earlier| <= |later|
    && forall i | 0 <= i < |earlier| :: earlier[i].id == later[i].id && earlier[i].createdAt == later[i].createdAt
  }

  lemma FindAt(rows: seq<Stream>, i: nat)
    requires IsTable(rows) && i < |rows|
    ensures Find(rows, rows[i].id) == Some(rows[i])
  {
    var r := Find(rows, rows[i].id);
    if r.Some? {
      var j :| 0 <= j < |rows| && rows[j] == r.value;
      assert j == i;
    }
  }

  lemma InsertCarries(rows: seq<Stream>, row: Stream)
    requires IsTable(rows) && row.id != "" && Find(rows, row.id).None?
    ensures IsTable(rows + [row]) && Carried(rows, rows + [row])
  {
  }

  lemma ReplaceKeepsIds(rows: seq<Stream>, row: Stream)
    requires IsTable(rows)
    ensures IsTable(Replace(rows, row))
  {
    var later := Replace(rows, row);
    assert forall i | 0 <= i < |later| :: later[i].id == rows[i].id;
  }

  lemma ReplaceCarries(rows: seq<Stream>, former: Stream, row: Stream)
    requires IsTable(rows) && Find(rows, row.id) == Some(former) && row.createdAt == former.createdAt
    ensures Carried(rows, Replace(rows, row))
  {
    forall i | 0 <= i < |rows| && rows[i].id == row.id ensures rows[i].createdAt == row.createdAt {
      FindAt(rows, i);
    }
  }

  lemma ApplyCarries(rows: seq<Stream>, op: Op)
    requires IsTable(rows)
    ensures IsTable(Apply(rows, op)) && Carried(rows, Apply(rows, op))
  {
    var w := Write(rows, op);
    if w.Some? {
      if op.Create? {
        InsertCarries(rows, w.value);
      } else {
        ReplaceKeepsIds(rows, w.value);
        ReplaceCarries(rows, Find(rows, op.id).value, w.value);
      }
    }
  }

  /** Writes never remove a row, change an id or move a creation time. */
  lemma {:induction false} ApplyAllCarries(rows: seq<Stream>, ops: seq<Op>)
    requires IsTable(rows)
    ensures IsTable(ApplyAll(rows, ops)) && Carried(rows, ApplyAll(rows, ops))
    decreases |ops|
  {
    if ops == [] {
    } else {
      ApplyCarries(rows, ops[0]);
      ApplyAllCarries(Apply(rows, ops[0]), ops[1..]);
    }
  }

  /** The tables that successive queries see, with a batch of writes between each two. */
  function Snapshots(rows: seq<Stream>, writes: seq<seq<Op>>): (tables: seq<seq<Stream>>)
    ensures |tables| == |writes| + 1 && tables[0] == rows
    decreases |writes|
  {
    if writes == [] then [rows] else [rows] + Snapshots(ApplyAll(rows, writes[0]), writes[1..])
  }

  lemma {:induction false} SnapshotsCarry(rows: seq<Stream>, writes: seq<seq<Op>>, j: nat)
    requires IsTable(rows) && j <= |writes|
    ensures IsTable(Snapshots(rows, writes)[j]) && Carried(rows, Snapshots(rows, writes)[j])
    decreases |writes|
  {
    if j == 0 {
    } else {
      var next := ApplyAll(rows, writes[0]);
      ApplyAllCarries(rows, writes[0]);
      SnapshotsCarry(next, writes[1..], j - 1);
      assert Snapshots(rows, writes)[j] == Snapshots(next, writes[1..])[j - 1];
    }
  }

  /** One id, one creation time. */
  ghost predicate SameBirths(a: seq<Stream>, b: seq<Stream>) {
    forall i, j | 0 <= i < |a| && 0 <= j < |b| && a[i].id == b[j].id :: a[i].createdAt == b[j].createdAt
  }

  lemma {:induction false} SnapshotsAgree(rows: seq<Stream>, writes: seq<seq<Op>>, i: nat, j: nat)
    requires IsTable(rows) && i <= j <= |writes|
    ensures SameBirths(Snapshots(rows, writes)[i], Snapshots(rows, writes)[j])
    decreases |writes|
  {
    if i == 0 {
      SnapshotsCarry(rows, writes, j);
    } else {
      var next := ApplyAll(rows, writes[0]);
      ApplyAllCarries(rows, writes[0]);
      SnapshotsAgree(next, writes[1..], i - 1, j - 1);
      assert Snapshots(rows, writes)[i] == Snapshots(next, writes[1..])[i - 1];
      assert Snapshots(rows, writes)[j] == Snapshots(next, writes[1..])[j - 1];
    }
  }

  /** Of two successive updates against one version the second is refused, unless the clock still reads that version. */
  lemma StaleUpdateRefused(rows: seq<Stream>, id: string, first: Updates, second: Updates, version: int, now: int,
                           later: int)
    requires IsTable(rows)
    requires Write(rows, UpdateById(id, first, Some(version), now)).Some?
    ensures var t := Apply(rows, UpdateById(id, first, Some(version), now));
            Write(t, UpdateById(id, second, Some(version), later)).None? <==> now != version
  {
    var row := Find(rows, id).value;
    var i :| 0 <= i < |rows| && rows[i] == row;
    var t := Apply(rows, UpdateById(id, first, Some(version), now));
    assert t[i] == Updated(row, first, now);
    ApplyCarries(rows, UpdateById(id, first, Some(version), now));
    FindAt(t, i);
  }

  // ---------------------------------------------------------------------------
  // What each write leaves, row by row
  // ---------------------------------------------------------------------------

  lemma ReplaceAt(rows: seq<Stream>, i: nat, row: Stream)
    requires IsTable(rows) && i < |rows| && row.id == rows[i].id
    ensures Replace(rows, row) == rows[i := row]
  {
  }

  /** A live row at the expected version gets the supplied fields and a new version; nothing else changes. */
  lemma UpdateWrites(rows: seq<Stream>, i: nat, u: Updates, expected: Option<int>, now: int)
    requires IsTable(rows) && i < |rows|
    ensures var row := rows[i];
            Apply(rows, UpdateById(row.id, u, expected, now)) ==
            if row.deletedAt.Some? || (expected.Some? && expected.value != row.updatedAt) then rows
            else rows[i := Stream(row.id, row.payer, row.recipient,
                                  if u.status.Some? then u.status.value else row.status,
                                  row.ratePerSecond, row.startTime, row.endTime, row.totalAmount, row.lastSettledAt,
                                  if u.labels.Some? then u.labels.value else row.labels,
                                  if u.offChainMemo.Some? then u.offChainMemo.value else row.offChainMemo,
                                  row.createdAt, now, None)]
  {
    FindAt(rows, i);
    ReplaceAt(rows, i, Updated(rows[i], u, now));
  }

  /** Deleting marks a live row with the time; restoring clears the mark and gives a new version. */
  lemma DeletionWrites(rows: seq<Stream>, i: nat, now: int)
    requires IsTable(rows) && i < |rows|
    ensures var row := rows[i];
            && Apply(rows, SoftDeleteById(row.id, now)) ==
               (if row.deletedAt.None? then rows[i := row.(deletedAt := Some(now))] else rows)
            && Apply(rows, RestoreById(row.id, now)) ==
               (if row.deletedAt.Some? then rows[i := row.(deletedAt := None, updatedAt := now)] else rows)
  {
    FindAt(rows, i);
    ReplaceAt(rows, i, rows[i].(deletedAt := Some(now)));
    ReplaceAt(rows, i, rows[i].(deletedAt := None, updatedAt := now));
  }

  /** A new id is inserted at the end, and a write to an id no row has changes nothing. */
  lemma OtherWrites(rows: seq<Stream>, op: Op)
    requires forall i | 0 <= i < |rows| :: rows[i].id != (if op.Create? then op.row.id else op.id)
    ensures Apply(rows, op) == if op.Create? && op.row.id != "" then rows + [op.row] else rows
  {
  }
}
