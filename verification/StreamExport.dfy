/** The keyset-paged export of streams, over a table that may change between two pages. */
module StreamExport {
  import opened Prelude
  import opened Sorting
  import opened Streams

  const DEFAULT_BATCH_SIZE := 500

  /** The database's order of ids. */
  type IdOrder = (string, string) -> bool

  ghost predicate TotalOrder(leq: IdOrder) {
    TotalPreorder(leq) && forall a, b :: leq(a, b) && leq(b, a) ==> a == b
  }

  datatype Cursor = Cursor(createdAt: int, id: string)

  datatype ExportParams = ExportParams(
    payer: Option<string>,
    recipient: Option<string>,
    status: Option<Status>,
    cursorCreatedAt: Option<int>,
    cursorId: Option<string>,
    batchSize: Option<nat>)

  datatype ExportBatch = ExportBatch(rows: seq<Stream>, nextCursor: Option<Cursor>)

  predicate Truthy(s: Option<string>) {
    s.Some? && s.value != ""
  }

  /** Filters that are absent or empty select everything; deleted rows are never selected. */
  function Selected(p: ExportParams): Stream -> bool {
    (row: Stream) =>
      && (Truthy(p.payer) ==> row.payer == p.payer.value)
      && (Truthy(p.recipient) ==> row.recipient == p.recipient.value)
      && (p.status.Some? ==> row.status == p.status.value)
      && row.deletedAt.None?
  }

  predicate Follows(createdAt: int, id: string, c: Cursor, leq: IdOrder) {
    createdAt > c.createdAt || (createdAt == c.createdAt && leq(c.id, id) && id != c.id)
  }

  /** The keyset condition, applied only when both halves of the cursor are set. */
  function Beyond(p: ExportParams, leq: IdOrder): Stream -> bool {
    (row: Stream) =>
      p.cursorCreatedAt.Some? && Truthy(p.cursorId) ==>
        Follows(row.createdAt, row.id, Cursor(p.cursorCreatedAt.value, p.cursorId.value), leq)
  }

  function Where(p: ExportParams, leq: IdOrder): Stream -> bool {
    (row: Stream) => Beyond(p, leq)(row) && Selected(p)(row)
  }

  /** `ORDER BY created_at, id` */
  function OrderBy(leq: IdOrder): (Stream, Stream) -> bool {
    (a: Stream, b: Stream) => a.createdAt < b.createdAt || (a.createdAt == b.createdAt && leq(a.id, b.id))
  }

  function Query(table: seq<Stream>, p: ExportParams, leq: IdOrder): seq<Stream> {
    StableSort(Filter(Where(p, leq), table), OrderBy(leq))
  }

  function Limit(rows: seq<Stream>, n: nat): seq<Stream> {
    if |rows| <= n then rows else rows[..n]
  }

  function BatchSize(p: ExportParams): nat {
    if p.batchSize.Some? then p.batchSize.value else DEFAULT_BATCH_SIZE
  }

  /** The page made of a query's rows, of which one more than the batch size is fetched. */
  function PageOfRows(all: seq<Stream>, batchSize: nat): ExportBatch {
    var data := Limit(all, batchSize + 1);
    var hasMore := |data| > batchSize;
    var rows := if hasMore then data[..batchSize] else data;
    var nextCursor :=
      if hasMore && |rows| > 0 then Some(Cursor(rows[|rows| - 1].createdAt, rows[|rows| - 1].id)) else None;
    ExportBatch(rows, nextCursor)
  }

  function FindForExport(table: seq<Stream>, p: ExportParams, leq: IdOrder): ExportBatch {
    PageOfRows(Query(table, p, leq), BatchSize(p))
  }

  function Resume(p: ExportParams, c: Option<Cursor>): ExportParams {
    if c.None? then p.(cursorCreatedAt := None, cursorId := None)
    else p.(cursorCreatedAt := Some(c.value.createdAt), cursorId := Some(c.value.id))
  }

  /** What an export wrote, whether its loop ended, and how many queries it made. */
  datatype Export = Export(rows: seq<Stream>, finished: bool, queries: nat)

  /** The page the k-th query answers for a cursor. */
  type PageQuery = (nat, Option<Cursor>) -> ExportBatch

  /** The paging loop from its k-th query on, given up after n queries. */
  function ExportFrom(pages: PageQuery, k: nat, n: nat, c: Option<Cursor>): (e: Export)
    requires k <= n
    ensures e.queries <= n - k
    decreases n - k
  {
    if k == n then Export([], false, 0)
    else
      var batch := pages(k, c);
      if batch.nextCursor.None? then Export(batch.rows, true, 1)
      else
        var rest := ExportFrom(pages, k + 1, n, batch.nextCursor);
        Export(batch.rows + rest.rows, rest.finished, 1 + rest.queries)
  }

  /** Successive queries see successive tables. */
  function PagesOver(tables: seq<seq<Stream>>, p: ExportParams, leq: IdOrder): PageQuery {
    (k: nat, c: Option<Cursor>) =>
      if k < |tables| then FindForExport(tables[k], Resume(p, c), leq) else ExportBatch([], None)
  }

  function ExportOver(tables: seq<seq<Stream>>, p: ExportParams, leq: IdOrder): Export {
    ExportFrom(PagesOver(tables, p, leq), 0, |tables|, None)
  }

  // ---------------------------------------------------------------------------
  // One page
  // ---------------------------------------------------------------------------

  function KeyOf(row: Stream): Cursor {
    Cursor(row.createdAt, row.id)
  }

  /** The stream is live and has the payer, recipient and status asked for; an empty name asks for nothing. */
  predicate Wanted(p: ExportParams, row: Stream) {
    && row.deletedAt == None
    && (p.payer.Some? && p.payer.value != "" ==> row.payer == p.payer.value)
    && (p.recipient.Some? && p.recipient.value != "" ==> row.recipient == p.recipient.value)
    && (p.status.Some? ==> row.status == p.status.value)
  }

  predicate After(c: Option<Cursor>, row: Stream, leq: IdOrder) {
    c.Some? ==> Follows(row.createdAt, row.id, c.value, leq)
  }

  /** By creation time and then by id, each key once. */
  ghost predicate Increasing(rows: seq<Stream>, leq: IdOrder) {
    forall i, j | 0 <= i < j < |rows| ::
      || rows[i].createdAt < rows[j].createdAt
      || (rows[i].createdAt == rows[j].createdAt && leq(rows[i].id, rows[j].id) && rows[i].id != rows[j].id)
  }

  ghost predicate AllAfter(rows: seq<Stream>, c: Option<Cursor>, leq: IdOrder) {
    forall i | 0 <= i < |rows| :: After(c, rows[i], leq)
  }

  /** Cursors are keys of rows. */
  predicate IsKey(c: Option<Cursor>) {
    c.Some? ==> c.value.id != ""
  }

  lemma OrderByIsOrder(leq: IdOrder)
    requires TotalOrder(leq)
    ensures TotalPreorder(OrderBy(leq))
  {
    forall a, b ensures OrderBy(leq)(a, b) || OrderBy(leq)(b, a) {
      assert leq(a.id, b.id) || leq(b.id, a.id);
    }
    forall a, b, c | OrderBy(leq)(a, b) && OrderBy(leq)(b, c) ensures OrderBy(leq)(a, c) {
      assert leq(a.id, b.id) && leq(b.id, c.id) ==> leq(a.id, c.id);
    }
  }

  lemma FollowsTransitive(a: Cursor, b: Cursor, c: Cursor, leq: IdOrder)
    requires TotalOrder(leq)
    requires Follows(b.createdAt, b.id, a, leq) && Follows(c.createdAt, c.id, b, leq)
    ensures Follows(c.createdAt, c.id, a, leq)
  {
  }

  lemma DistinctIds(table: seq<Stream>, keep: Stream -> bool, order: (Stream, Stream) -> bool)
    requires IsTable(table)
    ensures var rows := StableSort(Filter(keep, table), order);
            && Distinct(rows)
            && (forall i | 0 <= i < |rows| :: rows[i] in table && keep(rows[i]) && rows[i].id != "")
            && (forall i, j | 0 <= i < j < |rows| :: rows[i].id != rows[j].id)
  {
    FilterMembers(keep, table);
    FilterDistinct(keep, table);
    SortDistinct(Filter(keep, table), order);
    var rows := StableSort(Filter(keep, table), order);
    forall i | 0 <= i < |rows| ensures rows[i] in table && keep(rows[i]) {
      assert rows[i] in rows && rows[i] in Filter(keep, table);
    }
    forall i, j | 0 <= i < j < |rows| ensures rows[i].id != rows[j].id {
      assert rows[i] in table && rows[j] in table;
    }
  }

  /** Sorted rows with distinct ids increase strictly. */
  lemma SortedIncreases(rows: seq<Stream>, leq: IdOrder)
    requires Sorted(rows, OrderBy(leq))
    requires forall i, j | 0 <= i < j < |rows| :: rows[i].id != rows[j].id
    ensures Increasing(rows, leq)
  {
    forall i, j | 0 <= i < j < |rows| ensures Follows(rows[j].createdAt, rows[j].id, KeyOf(rows[i]), leq) {
      assert OrderBy(leq)(rows[i], rows[j]);
    }
  }

  /** A query's result: the wanted rows beyond the cursor, each once, in strictly increasing order. */
  lemma QueryResult(table: seq<Stream>, p: ExportParams, c: Option<Cursor>, leq: IdOrder)
    requires TotalOrder(leq) && IsTable(table) && IsKey(c)
    ensures var rows := Query(table, Resume(p, c), leq);
            && Increasing(rows, leq) && AllAfter(rows, c, leq)
            && (forall i | 0 <= i < |rows| :: rows[i].id != "")
            && (forall row :: row in rows <==> row in table && Wanted(p, row) && After(c, row, leq))
  {
    var q := Resume(p, c);
    var rows := Query(table, q, leq);
    OrderByIsOrder(leq);
    FilterMembers(Where(q, leq), table);
    SortSorts(Filter(Where(q, leq), table), OrderBy(leq));
    DistinctIds(table, Where(q, leq), OrderBy(leq));
    SortedIncreases(rows, leq);
    forall row ensures row in rows <==> row in table && Wanted(p, row) && After(c, row, leq) {
      assert Selected(q)(row) == Wanted(p, row);
      assert Beyond(q, leq)(row) == After(c, row, leq);
    }
    forall i | 0 <= i < |rows| ensures After(c, rows[i], leq) {
      assert rows[i] in rows;
    }
  }

  /** A row is in a strictly increasing list once. */
  lemma HeadOnce(rows: seq<Stream>, leq: IdOrder)
    requires rows != [] && Increasing(rows, leq)
    ensures forall row | row in rows[1..] :: Follows(row.createdAt, row.id, KeyOf(rows[0]), leq)
  {
    forall row | row in rows[1..] ensures Follows(row.createdAt, row.id, KeyOf(rows[0]), leq) {
      var i :| 0 <= i < |rows[1..]| && rows[1..][i] == row;
      assert rows[i + 1] == row;
    }
  }

  lemma EmptyTogether(a: seq<Stream>, b: seq<Stream>)
    requires forall row :: row in a <==> row in b
    ensures a == [] <==> b == []
  {
    if a != [] { assert a[0] in b; }
    if b != [] { assert b[0] in a; }
  }

  lemma {:induction false} IncreasingUnique(a: seq<Stream>, b: seq<Stream>, leq: IdOrder)
    requires TotalOrder(leq) && Increasing(a, leq) && Increasing(b, leq)
    requires forall row :: row in a <==> row in b
    ensures a == b
  {
    EmptyTogether(a, b);
    if a == [] {
    } else {
      assert a[0] in b && b[0] in a;
      HeadOnce(a, leq);
      HeadOnce(b, leq);
      assert a[0] == b[0];
      forall row ensures row in a[1..] <==> row in b[1..] {
        assert row in a <==> row == a[0] || row in a[1..];
        assert row in b <==> row == b[0] || row in b[1..];
      }
      IncreasingUnique(a[1..], b[1..], leq);
    }
  }

  /** A page depends on which rows the table has, not on where the database keeps them. */
  lemma RowOrderIrrelevant(table: seq<Stream>, other: seq<Stream>, p: ExportParams, c: Option<Cursor>, leq: IdOrder)
    requires TotalOrder(leq) && IsTable(table) && IsTable(other) && IsKey(c)
    requires forall row :: row in table <==> row in other
    ensures FindForExport(table, Resume(p, c), leq) == FindForExport(other, Resume(p, c), leq)
  {
    QueryResult(table, p, c, leq);
    QueryResult(other, p, c, leq);
    IncreasingUnique(Query(table, Resume(p, c), leq), Query(other, Resume(p, c), leq), leq);
  }

  /** A page is a prefix of the query, and there is a cursor exactly when rows are left and some were returned. */
  lemma PageIsPrefix(table: seq<Stream>, p: ExportParams, c: Option<Cursor>, leq: IdOrder)
    ensures var all := Query(table, Resume(p, c), leq);
            var n := BatchSize(p);
            var batch := FindForExport(table, Resume(p, c), leq);
            && batch.rows == Limit(all, n)
            && (batch.nextCursor.Some? <==> 0 < n < |all|)
            && (batch.nextCursor.Some? ==> batch.nextCursor.value == KeyOf(all[n - 1]))
  {
    RowsPage(Query(table, Resume(p, c), leq), BatchSize(p));
  }

  lemma RowsPage(all: seq<Stream>, n: nat)
    ensures var batch := PageOfRows(all, n);
            && batch.rows == Limit(all, n)
            && (batch.nextCursor.Some? <==> 0 < n < |all|)
            && (batch.nextCursor.Some? ==> batch.nextCursor.value == KeyOf(all[n - 1]))
  {
    if |all| > n {
      assert Limit(all, n + 1)[..n] == all[..n];
    }
  }

  // ---------------------------------------------------------------------------
  // Exports over a table that changes between pages
  // ---------------------------------------------------------------------------

  ghost predicate AllTables(tables: seq<seq<Stream>>) {
    forall k | 0 <= k < |tables| :: IsTable(tables[k])
  }

  lemma JoinIncreasing(a: seq<Stream>, b: seq<Stream>, c: Option<Cursor>, leq: IdOrder)
    requires TotalOrder(leq) && a != [] && Increasing(a, leq) && AllAfter(a, c, leq)
    requires Increasing(b, leq) && AllAfter(b, Some(KeyOf(a[|a| - 1])), leq)
    ensures Increasing(a + b, leq) && AllAfter(a + b, c, leq)
  {
    var last := a[|a| - 1];
    forall i, j | 0 <= i < |a| && 0 <= j < |b| ensures Follows(b[j].createdAt, b[j].id, KeyOf(a[i]), leq) {
      assert After(Some(KeyOf(last)), b[j], leq);
      if i < |a| - 1 {
        FollowsTransitive(KeyOf(a[i]), KeyOf(last), KeyOf(b[j]), leq);
      }
    }
    if c.Some? {
      forall j | 0 <= j < |b| ensures After(c, b[j], leq) {
        assert After(c, last, leq) && After(Some(KeyOf(last)), b[j], leq);
        FollowsTransitive(c.value, KeyOf(last), KeyOf(b[j]), leq);
      }
    }
  }

  /** What a page hands to the next one. */
  ghost predicate PageOk(batch: ExportBatch, c: Option<Cursor>, leq: IdOrder) {
    && Increasing(batch.rows, leq) && AllAfter(batch.rows, c, leq) && IsKey(batch.nextCursor)
    && (batch.nextCursor.Some? ==>
          batch.rows != [] && batch.nextCursor.value == KeyOf(batch.rows[|batch.rows| - 1]))
  }

  ghost predicate PagesOk(pages: PageQuery, n: nat, leq: IdOrder) {
    forall k: nat, c | k < n && IsKey(c) :: PageOk(pages(k, c), c, leq)
  }

  ghost predicate FromTable(table: seq<Stream>, p: ExportParams, row: Stream) {
    row in table && Wanted(p, row)
  }

  ghost predicate AllFromTable(rows: seq<Stream>, table: seq<Stream>, p: ExportParams) {
    forall i | 0 <= i < |rows| :: FromTable(table, p, rows[i])
  }

  lemma PageFacts(table: seq<Stream>, p: ExportParams, c: Option<Cursor>, leq: IdOrder)
    requires TotalOrder(leq) && IsTable(table) && IsKey(c)
    ensures PageOk(FindForExport(table, Resume(p, c), leq), c, leq)
    ensures AllFromTable(FindForExport(table, Resume(p, c), leq).rows, table, p)
  {
    QueryResult(table, p, c, leq);
    PageIsPrefix(table, p, c, leq);
    var all := Query(table, Resume(p, c), leq);
    var batch := FindForExport(table, Resume(p, c), leq);
    forall i | 0 <= i < |batch.rows| ensures FromTable(table, p, batch.rows[i]) {
      assert batch.rows[i] == all[i] && all[i] in all;
    }
  }

  lemma PagesOverOk(tables: seq<seq<Stream>>, p: ExportParams, leq: IdOrder)
    requires TotalOrder(leq) && AllTables(tables)
    ensures PagesOk(PagesOver(tables, p, leq), |tables|, leq)
    ensures forall k: nat, c | k < |tables| && IsKey(c) ::
              AllFromTable(PagesOver(tables, p, leq)(k, c).rows, tables[k], p)
  {
    forall k: nat, c | k < |tables| && IsKey(c)
      ensures PageOk(PagesOver(tables, p, leq)(k, c), c, leq)
      ensures AllFromTable(PagesOver(tables, p, leq)(k, c).rows, tables[k], p)
    {
      PageFacts(tables[k], p, c, leq);
    }
  }

  lemma {:induction false} PagesIncrease(pages: PageQuery, k: nat, n: nat, c: Option<Cursor>, leq: IdOrder)
    requires TotalOrder(leq) && PagesOk(pages, n, leq) && IsKey(c) && k <= n
    ensures Increasing(ExportFrom(pages, k, n, c).rows, leq)
    ensures AllAfter(ExportFrom(pages, k, n, c).rows, c, leq)
    decreases n - k
  {
    if k == n {
    } else {
      var batch := pages(k, c);
      assert PageOk(batch, c, leq);
      if batch.nextCursor.Some? {
        PagesIncrease(pages, k + 1, n, batch.nextCursor, leq);
        JoinIncreasing(batch.rows, ExportFrom(pages, k + 1, n, batch.nextCursor).rows, c, leq);
      }
    }
  }

  /** Whatever tables the queries see, the output strictly increases in (createdAt, id). */
  lemma OutputIncreases(tables: seq<seq<Stream>>, p: ExportParams, leq: IdOrder)
    requires TotalOrder(leq) && AllTables(tables)
    ensures Increasing(ExportOver(tables, p, leq).rows, leq)
  {
    PagesOverOk(tables, p, leq);
    PagesIncrease(PagesOver(tables, p, leq), 0, |tables|, None, leq);
  }

  /** The query that produced the i-th exported row. */
  lemma {:induction false} RowOfPage(pages: PageQuery, k: nat, n: nat, c: Option<Cursor>, leq: IdOrder, i: nat)
    returns (m: nat, at: Option<Cursor>)
    requires PagesOk(pages, n, leq) && IsKey(c) && k <= n && i < |ExportFrom(pages, k, n, c).rows|
    ensures k <= m < k + ExportFrom(pages, k, n, c).queries && IsKey(at)
    ensures ExportFrom(pages, k, n, c).rows[i] in pages(m, at).rows
    decreases n - k
  {
    var batch := pages(k, c);
    assert PageOk(batch, c, leq);
    if i < |batch.rows| {
      m, at := k, c;
    } else {
      m, at := RowOfPage(pages, k + 1, n, batch.nextCursor, leq, i - |batch.rows|);
    }
  }

  /** Every exported row was a matching row of the table one of the queries saw. */
  lemma OutputMatches(tables: seq<seq<Stream>>, p: ExportParams, leq: IdOrder, i: nat) returns (k: nat)
    requires TotalOrder(leq) && AllTables(tables) && i < |ExportOver(tables, p, leq).rows|
    ensures k < ExportOver(tables, p, leq).queries
    ensures FromTable(tables[k], p, ExportOver(tables, p, leq).rows[i])
  {
    PagesOverOk(tables, p, leq);
    var pages := PagesOver(tables, p, leq);
    var at;
    k, at := RowOfPage(pages, 0, |tables|, None, leq, i);
    assert AllFromTable(pages(k, at).rows, tables[k], p);
  }

  lemma SnapshotsAreTables(rows: seq<Stream>, writes: seq<seq<Op>>)
    requires IsTable(rows)
    ensures AllTables(Snapshots(rows, writes))
  {
    forall k | 0 <= k < |Snapshots(rows, writes)| ensures IsTable(Snapshots(rows, writes)[k]) {
      SnapshotsCarry(rows, writes, k);
    }
  }

  lemma SnapshotBirths(rows: seq<Stream>, writes: seq<seq<Op>>, i: nat, j: nat, a: Stream, b: Stream)
    requires IsTable(rows) && i <= |writes| && j <= |writes|
    requires a in Snapshots(rows, writes)[i] && b in Snapshots(rows, writes)[j] && a.id == b.id
    ensures a.createdAt == b.createdAt
  {
    if i <= j {
      SnapshotsAgree(rows, writes, i, j);
    } else {
      SnapshotsAgree(rows, writes, j, i);
    }
  }

  /** With rows created, updated, deleted and restored between pages, no stream is exported twice. */
  lemma NoStreamTwice(rows: seq<Stream>, writes: seq<seq<Op>>, p: ExportParams, leq: IdOrder, i: nat, j: nat)
    requires TotalOrder(leq) && IsTable(rows)
    requires i < j < |ExportOver(Snapshots(rows, writes), p, leq).rows|
    ensures var e := ExportOver(Snapshots(rows, writes), p, leq); e.rows[i].id != e.rows[j].id
  {
    var tables := Snapshots(rows, writes);
    var e := ExportOver(tables, p, leq);
    SnapshotsAreTables(rows, writes);
    OutputIncreases(tables, p, leq);
    var m := OutputMatches(tables, p, leq, i);
    var n := OutputMatches(tables, p, leq, j);
    if e.rows[i].id == e.rows[j].id {
      SnapshotBirths(rows, writes, m, n, e.rows[i], e.rows[j]);
    }
  }

  /** The table has a matching row with this key. */
  ghost predicate Holds(table: seq<Stream>, p: ExportParams, key: Cursor) {
    exists row :: row in table && Wanted(p, row) && KeyOf(row) == key
  }

  predicate KeyAfter(key: Cursor, c: Option<Cursor>, leq: IdOrder) {
    c.Some? ==> Follows(key.createdAt, key.id, c.value, leq)
  }

  /** The key is on the page, or the page leaves it to a later one. */
  ghost predicate Reaches(batch: ExportBatch, key: Cursor, leq: IdOrder) {
    || (exists i :: 0 <= i < |batch.rows| && KeyOf(batch.rows[i]) == key)
    || (batch.nextCursor.Some? && KeyAfter(key, batch.nextCursor, leq))
  }

  lemma OnPageOrLater(table: seq<Stream>, p: ExportParams, c: Option<Cursor>, leq: IdOrder, key: Cursor)
    requires TotalOrder(leq) && IsTable(table) && IsKey(c) && BatchSize(p) >= 1
    requires Holds(table, p, key) && KeyAfter(key, c, leq)
    ensures Reaches(FindForExport(table, Resume(p, c), leq), key, leq)
  {
    QueryResult(table, p, c, leq);
    PageIsPrefix(table, p, c, leq);
    var all, n := Query(table, Resume(p, c), leq), BatchSize(p);
    var row :| row in table && Wanted(p, row) && KeyOf(row) == key;
    assert row in all;
    var i :| 0 <= i < |all| && all[i] == row;
    if i < n {
      assert KeyOf(Limit(all, n)[i]) == key;
    }
  }

  /** A key that every query could still select is exported by the time the loop ends. */
  lemma {:induction false} KeyExported(pages: PageQuery, k: nat, n: nat, c: Option<Cursor>, leq: IdOrder, key: Cursor)
    returns (i: nat)
    requires PagesOk(pages, n, leq) && IsKey(c) && k <= n && KeyAfter(key, c, leq)
    requires ExportFrom(pages, k, n, c).finished
    requires forall m: nat, at
               | k <= m < k + ExportFrom(pages, k, n, c).queries && IsKey(at) && KeyAfter(key, at, leq) ::
               Reaches(pages(m, at), key, leq)
    ensures i < |ExportFrom(pages, k, n, c).rows| && KeyOf(ExportFrom(pages, k, n, c).rows[i]) == key
    decreases n - k
  {
    var batch := pages(k, c);
    assert PageOk(batch, c, leq) && Reaches(batch, key, leq);
    if j :| 0 <= j < |batch.rows| && KeyOf(batch.rows[j]) == key {
      i := j;
    } else {
      var j := KeyExported(pages, k + 1, n, batch.nextCursor, leq, key);
      i := |batch.rows| + j;
    }
  }

  lemma HeldKeyExported(tables: seq<seq<Stream>>, p: ExportParams, leq: IdOrder, key: Cursor) returns (i: nat)
    requires TotalOrder(leq) && AllTables(tables) && BatchSize(p) >= 1 && ExportOver(tables, p, leq).finished
    requires forall k | 0 <= k < ExportOver(tables, p, leq).queries :: Holds(tables[k], p, key)
    ensures i < |ExportOver(tables, p, leq).rows| && KeyOf(ExportOver(tables, p, leq).rows[i]) == key
  {
    PagesOverOk(tables, p, leq);
    var pages := PagesOver(tables, p, leq);
    forall k: nat, c | k < ExportOver(tables, p, leq).queries && IsKey(c) && KeyAfter(key, c, leq)
      ensures Reaches(pages(k, c), key, leq)
    {
      OnPageOrLater(tables[k], p, c, leq, key);
    }
    i := KeyExported(pages, 0, |tables|, None, leq, key);
  }

  ghost predicate MatchesIn(table: seq<Stream>, p: ExportParams, id: string) {
    exists row :: row in table && Wanted(p, row) && row.id == id
  }

  /**
   A stream that matches the filters at every page query is exported exactly once by the end,
   whatever else is created, updated, deleted or restored in the meantime.
   */
  lemma EveryMatchOnce(rows: seq<Stream>, writes: seq<seq<Op>>, p: ExportParams, leq: IdOrder, id: string)
    returns (i: nat)
    requires TotalOrder(leq) && IsTable(rows) && p.batchSize != Some(0)
    requires ExportOver(Snapshots(rows, writes), p, leq).finished
    requires forall k | 0 <= k < ExportOver(Snapshots(rows, writes), p, leq).queries ::
               MatchesIn(Snapshots(rows, writes)[k], p, id)
    ensures var e := ExportOver(Snapshots(rows, writes), p, leq);
            && i < |e.rows| && e.rows[i].id == id
            && (forall j | 0 <= j < |e.rows| && j != i :: e.rows[j].id != id)
  {
    var tables := Snapshots(rows, writes);
    var e := ExportOver(tables, p, leq);
    SnapshotsAreTables(rows, writes);
    assert MatchesIn(tables[0], p, id);
    var first :| first in tables[0] && Wanted(p, first) && first.id == id;
    forall k | 0 <= k < e.queries ensures Holds(tables[k], p, KeyOf(first)) {
      assert MatchesIn(tables[k], p, id);
      var row :| row in tables[k] && Wanted(p, row) && row.id == id;
      SnapshotBirths(rows, writes, 0, k, first, row);
    }
    i := HeldKeyExported(tables, p, leq, KeyOf(first));
    forall j | 0 <= j < |e.rows| && j != i ensures e.rows[j].id != id {
      if j < i {
        NoStreamTwice(rows, writes, p, leq, j, i);
      } else {
        NoStreamTwice(rows, writes, p, leq, i, j);
      }
    }
  }

  // ---------------------------------------------------------------------------
  // Exports over a table that does not change
  // ---------------------------------------------------------------------------

  function Repeat(table: seq<Stream>, n: nat): (r: seq<seq<Stream>>)
    ensures |r| == n && forall k | 0 <= k < n :: r[k] == table
  {
    if n == 0 then [] else [table] + Repeat(table, n - 1)
  }

  /** The number of queries for m rows. */
  function Pages(m: nat, size: nat): (n: nat)
    ensures n >= 1
    decreases m
  {
    if size == 0 || m <= size then 1 else 1 + Pages(m - size, size)
  }

  lemma {:induction false} FilterAll(keep: Stream -> bool, rows: seq<Stream>)
    requires forall i | 0 <= i < |rows| :: keep(rows[i])
    ensures Filter(keep, rows) == rows
  {
    if rows == [] {
    } else {
      FilterAll(keep, rows[1..]);
    }
  }

  lemma {:induction false} FilterSuffix(keep: Stream -> bool, rows: seq<Stream>, k: nat)
    requires k <= |rows|
    requires forall i | 0 <= i < |rows| :: keep(rows[i]) <==> i >= k
    ensures Filter(keep, rows) == rows[k..]
    decreases k
  {
    if k == 0 {
      FilterAll(keep, rows);
      assert rows[0..] == rows;
    } else {
      FilterSuffix(keep, rows[1..], k - 1);
      assert rows[1..][k - 1..] == rows[k..];
    }
  }

  /** The matching rows in order. */
  function Matching(table: seq<Stream>, p: ExportParams, leq: IdOrder): seq<Stream> {
    Query(table, Resume(p, None), leq)
  }

  /** Where an export that began at `c` stands after k of its rows. */
  function CursorAt(rows: seq<Stream>, c: Option<Cursor>, k: nat): Option<Cursor>
    requires k <= |rows|
  {
    if k == 0 then c else Some(KeyOf(rows[k - 1]))
  }

  /** Querying beyond the k-th row gives the rows from there on. */
  lemma QuerySuffix(table: seq<Stream>, p: ExportParams, leq: IdOrder, c: Option<Cursor>, k: nat)
    requires TotalOrder(leq) && IsTable(table) && IsKey(c) && k <= |Query(table, Resume(p, c), leq)|
    ensures var all := Query(table, Resume(p, c), leq); Query(table, Resume(p, CursorAt(all, c, k)), leq) == all[k..]
  {
    var all := Query(table, Resume(p, c), leq);
    if k == 0 {
      assert all[0..] == all;
    } else {
      var start, q := Resume(p, c), Resume(p, CursorAt(all, c, k));
      QueryResult(table, p, c, leq);
      OrderByIsOrder(leq);
      forall row ensures Where(q, leq)(row) <==> Beyond(q, leq)(row) && Where(start, leq)(row) {
        FurtherOn(p, c, all[k - 1], row, leq);
      }
      FilterTwice(Beyond(q, leq), Where(start, leq), Where(q, leq), table);
      FilterSort(Beyond(q, leq), Filter(Where(start, leq), table), OrderBy(leq));
      forall i | 0 <= i < |all| ensures Beyond(q, leq)(all[i]) <==> i >= k {
        BeyondAt(all, q, leq, k, i);
      }
      FilterSuffix(Beyond(q, leq), all, k);
    }
  }

  /** What follows a row that follows the cursor follows the cursor. */
  lemma FurtherOn(p: ExportParams, c: Option<Cursor>, last: Stream, row: Stream, leq: IdOrder)
    requires TotalOrder(leq) && IsKey(c) && After(c, last, leq) && last.id != ""
    ensures var start, q := Resume(p, c), Resume(p, Some(KeyOf(last)));
            Where(q, leq)(row) <==> Beyond(q, leq)(row) && Where(start, leq)(row)
  {
    var start, q := Resume(p, c), Resume(p, Some(KeyOf(last)));
    assert Selected(q)(row) == Selected(start)(row);
    if Beyond(q, leq)(row) && c.Some? {
      FollowsTransitive(c.value, KeyOf(last), KeyOf(row), leq);
    }
  }

  lemma BeyondAt(all: seq<Stream>, q: ExportParams, leq: IdOrder, k: nat, i: nat)
    requires TotalOrder(leq) && Increasing(all, leq) && 0 < k <= |all| && i < |all| && all[k - 1].id != ""
    requires q.cursorCreatedAt == Some(all[k - 1].createdAt) && q.cursorId == Some(all[k - 1].id)
    ensures Beyond(q, leq)(all[i]) <==> i >= k
  {
    if i < k - 1 {
      assert Follows(all[k - 1].createdAt, all[k - 1].id, KeyOf(all[i]), leq);
    }
  }

  /** The page of a fixed list of matching rows that starts at row j. */
  function PageAt(all: seq<Stream>, c: Option<Cursor>, size: nat, j: nat): ExportBatch
    requires j <= |all|
  {
    ExportBatch(Limit(all[j..], size), if 0 < size < |all| - j then CursorAt(all, c, j + size) else None)
  }

  lemma FixedPage(table: seq<Stream>, p: ExportParams, leq: IdOrder, c: Option<Cursor>, j: nat)
    requires TotalOrder(leq) && IsTable(table) && IsKey(c) && j <= |Query(table, Resume(p, c), leq)|
    ensures var all := Query(table, Resume(p, c), leq);
            FindForExport(table, Resume(p, CursorAt(all, c, j)), leq) == PageAt(all, c, BatchSize(p), j)
  {
    var all, size := Query(table, Resume(p, c), leq), BatchSize(p);
    QuerySuffix(table, p, leq, c, j);
    PageIsPrefix(table, p, CursorAt(all, c, j), leq);
    if 0 < size < |all| - j {
      assert all[j..][size - 1] == all[j + size - 1];
    }
  }

  /** The m-th query answers with a page of this list, wherever in it the export stands. */
  ghost predicate Answers(pages: PageQuery, all: seq<Stream>, c: Option<Cursor>, size: nat, m: nat) {
    forall i: nat {:trigger pages(m, CursorAt(all, c, i))} | i <= |all| ::
      pages(m, CursorAt(all, c, i)) == PageAt(all, c, size, i)
  }

  /** From its k-th query on the export sees pages of one fixed list. */
  ghost predicate PagesOf(pages: PageQuery, all: seq<Stream>, c: Option<Cursor>, size: nat, k: nat, n: nat) {
    forall m: nat | k <= m < n :: Answers(pages, all, c, size, m)
  }

  lemma {:induction false} FixedFrom(
    pages: PageQuery, all: seq<Stream>, c: Option<Cursor>, size: nat, k: nat, n: nat, j: nat, left: nat)
    requires j + left == |all| && size >= 1 && k + Pages(left, size) <= n
    requires PagesOf(pages, all, c, size, k, n)
    ensures ExportFrom(pages, k, n, CursorAt(all, c, j)) == Export(all[j..], true, Pages(left, size))
    decreases left
  {
    assert Answers(pages, all, c, size, k);
    assert pages(k, CursorAt(all, c, j)) == PageAt(all, c, size, j);
    if left > size {
      assert Pages(left, size) == 1 + Pages(left - size, size);
      FixedFrom(pages, all, c, size, k + 1, n, j + size, left - size);
      FixedMore(pages, all, c, size, k, n, j, Pages(left - size, size));
    } else {
      FixedLast(pages, all, c, size, k, n, j);
    }
  }

  lemma FixedMore(
    pages: PageQuery, all: seq<Stream>, c: Option<Cursor>, size: nat, k: nat, n: nat, j: nat, queries: nat)
    requires k < n && size >= 1 && j + size < |all| && pages(k, CursorAt(all, c, j)) == PageAt(all, c, size, j)
    requires ExportFrom(pages, k + 1, n, CursorAt(all, c, j + size)) == Export(all[j + size..], true, queries)
    ensures ExportFrom(pages, k, n, CursorAt(all, c, j)) == Export(all[j..], true, 1 + queries)
  {
    assert all[j..][..size] + all[j + size..] == all[j..];
  }

  lemma FixedLast(pages: PageQuery, all: seq<Stream>, c: Option<Cursor>, size: nat, k: nat, n: nat, j: nat)
    requires k < n && j <= |all| <= j + size && pages(k, CursorAt(all, c, j)) == PageAt(all, c, size, j)
    ensures ExportFrom(pages, k, n, CursorAt(all, c, j)) == Export(all[j..], true, 1)
  {
  }

  /** From its k-th query on the export sees this table. */
  ghost predicate SettledFrom(pages: PageQuery, table: seq<Stream>, p: ExportParams, leq: IdOrder, k: nat, n: nat) {
    forall m: nat, at | k <= m < n && IsKey(at) :: pages(m, at) == FindForExport(table, Resume(p, at), leq)
  }

  /** What is left of an export at cursor c, over a table that no longer changes. */
  lemma FixedRest(
    pages: PageQuery, table: seq<Stream>, p: ExportParams, leq: IdOrder, c: Option<Cursor>, k: nat, n: nat)
    requires TotalOrder(leq) && IsTable(table) && IsKey(c)
    requires SettledFrom(pages, table, p, leq, k, n)
    requires n - k >= Pages(|Query(table, Resume(p, c), leq)|, BatchSize(p))
    ensures var all := Query(table, Resume(p, c), leq);
            ExportFrom(pages, k, n, c) ==
            Export(if BatchSize(p) == 0 then [] else all, true, Pages(|all|, BatchSize(p)))
  {
    var all := Query(table, Resume(p, c), leq);
    FixedPages(pages, table, p, leq, c, k, n);
    if BatchSize(p) == 0 {
      assert Answers(pages, all, c, 0, k);
      assert pages(k, CursorAt(all, c, 0)) == PageAt(all, c, 0, 0);
    } else {
      FixedFrom(pages, all, c, BatchSize(p), k, n, 0, |all|);
      assert all[0..] == all;
    }
  }

  lemma FixedPages(
    pages: PageQuery, table: seq<Stream>, p: ExportParams, leq: IdOrder, c: Option<Cursor>, k: nat, n: nat)
    requires TotalOrder(leq) && IsTable(table) && IsKey(c) && SettledFrom(pages, table, p, leq, k, n)
    ensures PagesOf(pages, Query(table, Resume(p, c), leq), c, BatchSize(p), k, n)
  {
    var all := Query(table, Resume(p, c), leq);
    QueryResult(table, p, c, leq);
    forall m: nat | k <= m < n ensures Answers(pages, all, c, BatchSize(p), m) {
      forall i: nat | i <= |all| ensures pages(m, CursorAt(all, c, i)) == PageAt(all, c, BatchSize(p), i) {
        FixedPage(table, p, leq, c, i);
      }
    }
  }

  /**
   Over a fixed table the loop ends after max(1, ceil(matching rows / batch size)) queries, and it
   exports the matching rows, each once and sorted by (createdAt, id), exactly when the batch size
   is at least one or nothing matches.
   */
  lemma FixedTableExport(table: seq<Stream>, p: ExportParams, leq: IdOrder, n: nat)
    requires TotalOrder(leq) && IsTable(table)
    requires n >= Pages(|Matching(table, p, leq)|, BatchSize(p))
    ensures var all := Matching(table, p, leq);
            var e := ExportOver(Repeat(table, n), p, leq);
            && e.finished && e.queries == Pages(|all|, if p.batchSize.Some? then p.batchSize.value else 500)
            && (e.rows == all <==> p.batchSize != Some(0) || all == [])
            && Increasing(all, leq) && (forall row :: row in all <==> row in table && Wanted(p, row))
  {
    QueryResult(table, p, None, leq);
    FixedRest(PagesOver(Repeat(table, n), p, leq), table, p, leq, None, 0, n);
  }

  lemma {:induction false} FewerPages(m: nat, more: nat, size: nat)
    requires m <= more
    ensures Pages(m, size) <= Pages(more, size)
    decreases m
  {
    if size == 0 || m <= size {
    } else {
      FewerPages(m - size, more - size, size);
    }
  }

  /** A query beyond a cursor has no more rows than the query from the start. */
  lemma NoMoreBeyond(table: seq<Stream>, p: ExportParams, c: Option<Cursor>, leq: IdOrder)
    ensures |Query(table, Resume(p, c), leq)| <= |Matching(table, p, leq)|
  {
    var q, start := Resume(p, c), Resume(p, None);
    forall row | Where(q, leq)(row) ensures Where(start, leq)(row) {
      assert Selected(q)(row) == Selected(start)(row);
      assert Beyond(start, leq)(row);
    }
    FewerPass(Where(q, leq), Where(start, leq), table);
  }

  lemma {:induction false} FewerPass(narrow: Stream -> bool, wide: Stream -> bool, rows: seq<Stream>)
    requires forall row :: narrow(row) ==> wide(row)
    ensures |Filter(narrow, rows)| <= |Filter(wide, rows)|
  {
    if rows == [] {
    } else {
      FewerPass(narrow, wide, rows[1..]);
    }
  }

  /**
   However the table changes at first, once it stops changing the loop ends within the queries a
   fixed table needs, counted from the start of the list.
   */
  lemma SettledTableEnds(
    tables: seq<seq<Stream>>, table: seq<Stream>, p: ExportParams, leq: IdOrder, n: nat)
    requires TotalOrder(leq) && AllTables(tables) && IsTable(table)
    requires n >= Pages(|Matching(table, p, leq)|, BatchSize(p))
    ensures ExportOver(tables + Repeat(table, n), p, leq).finished
  {
    var whole := tables + Repeat(table, n);
    PagesOverOk(whole, p, leq);
    assert forall m | |tables| <= m < |whole| :: whole[m] == table;
    EndsFrom(PagesOver(whole, p, leq), table, p, leq, |tables|, |whole|, 0, None);
  }

  lemma {:induction false} EndsFrom(
    pages: PageQuery, table: seq<Stream>, p: ExportParams, leq: IdOrder, still: nat, n: nat, k: nat, c: Option<Cursor>)
    requires TotalOrder(leq) && IsTable(table) && IsKey(c) && k <= still <= n
    requires PagesOk(pages, n, leq) && SettledFrom(pages, table, p, leq, still, n)
    requires n - still >= Pages(|Matching(table, p, leq)|, BatchSize(p))
    ensures ExportFrom(pages, k, n, c).finished
    decreases still - k
  {
    if k == still {
      RestEnds(pages, table, p, leq, still, n, c);
    } else {
      assert PageOk(pages(k, c), c, leq);
      if pages(k, c).nextCursor.Some? {
        EndsFrom(pages, table, p, leq, still, n, k + 1, pages(k, c).nextCursor);
      }
    }
  }

  lemma RestEnds(
    pages: PageQuery, table: seq<Stream>, p: ExportParams, leq: IdOrder, still: nat, n: nat, c: Option<Cursor>)
    requires TotalOrder(leq) && IsTable(table) && IsKey(c) && still <= n
    requires SettledFrom(pages, table, p, leq, still, n)
    requires n - still >= Pages(|Matching(table, p, leq)|, BatchSize(p))
    ensures ExportFrom(pages, still, n, c).finished
  {
    NoMoreBeyond(table, p, c, leq);
    FewerPages(|Query(table, Resume(p, c), leq)|, |Matching(table, p, leq)|, BatchSize(p));
    FixedRest(pages, table, p, leq, c, still, n);
  }

  lemma {:induction false} PagesIsCeiling(m: nat, size: nat)
    requires size >= 1
    ensures var n := Pages(m, size); m <= n * size && (n - 1) * size <= Max(0, m - 1)
    decreases m
  {
    if m <= size {
    } else {
      PagesIsCeiling(m - size, size);
      var n := Pages(m - size, size);
      assert (n + 1) * size == n * size + size && (n - 1) * size + size == n * size;
    }
  }
}
