/** The CSV export of streams: the document the paging loop writes, and what reading it back gives. */
module StreamCsv {
  import opened Prelude
  import opened Csv
  import opened Streams
  import opened StreamExport

  /** The header line, spelled column by column. */
  const CSV_HEADER :=
    "id" + "," + ("payer" + "," + ("recipient" + "," + ("status" + "," + ("ratePerSecond" + "," + LATER_COLUMNS))))
    + LINE_BREAK

  const LATER_COLUMNS :=
    "startTime" + "," + ("endTime" + "," + ("totalAmount" + "," + ("lastSettledAt" + "," + ("createdAt" + ","
    + "updatedAt"))))

  const COLUMNS: seq<string> :=
    ["id", "payer", "recipient", "status", "ratePerSecond", "startTime", "endTime", "totalAmount", "lastSettledAt",
     "createdAt", "updatedAt"]

  /** `toISOString` of a time in milliseconds; nothing is assumed about its text. */
  type IsoDate = int -> string

  function StatusText(s: Status): string {
    match s
    case Active => "active"
    case Paused => "paused"
    case Cancelled => "cancelled"
    case Completed => "completed"
  }

  function Fields(row: Stream, iso: IsoDate): (r: seq<string>)
    ensures |r| == 11
  {
    [row.id,
     row.payer,
     row.recipient,
     StatusText(row.status),
     row.ratePerSecond,
     iso(row.startTime),
     if row.endTime.Some? then iso(row.endTime.value) else "",
     row.totalAmount,
     iso(row.lastSettledAt),
     iso(row.createdAt),
     iso(row.updatedAt)]
  }

  function RowToCsvLine(row: Stream, iso: IsoDate): string {
    CsvLine(Fields(row, iso))
  }

  function Records(rows: seq<Stream>, iso: IsoDate): (r: seq<seq<string>>)
    ensures |r| == |rows| && forall i | 0 <= i < |r| :: r[i] == Fields(rows[i], iso)
  {
    if rows == [] then [] else [Fields(rows[0], iso)] + Records(rows[1..], iso)
  }

  function Document(rows: seq<Stream>, iso: IsoDate): string {
    CSV_HEADER + CsvLines(Records(rows, iso))
  }

  lemma {:induction false} OneMoreLine(rows: seq<Stream>, row: Stream, iso: IsoDate)
    ensures CsvLines(Records(rows + [row], iso)) == CsvLines(Records(rows, iso)) + RowToCsvLine(row, iso)
  {
    if rows == [] {
      assert [] + [row] == [row];
      assert Records([row], iso) == [Fields(row, iso)];
    } else {
      assert (rows + [row])[1..] == rows[1..] + [row];
      OneMoreLine(rows[1..], row, iso);
      assert Records(rows, iso)[1..] == Records(rows[1..], iso);
      assert Records(rows + [row], iso)[1..] == Records(rows[1..] + [row], iso);
      Associative(RowToCsvLine(rows[0], iso), CsvLines(Records(rows[1..], iso)), RowToCsvLine(row, iso));
    }
  }

  // ---------------------------------------------------------------------------
  // The handler
  // ---------------------------------------------------------------------------

  /** The inner loop: one line per row of a page. */
  method WriteRows(body: string, rows: seq<Stream>, iso: IsoDate, ghost written: seq<Stream>) returns (r: string)
    requires body == Document(written, iso)
    ensures r == Document(written + rows, iso)
  {
    r := body;
    var i := 0;
    assert written + rows[..0] == written;
    while i < |rows|
      invariant 0 <= i <= |rows|
      invariant r == Document(written + rows[..i], iso)
    {
      assert written + rows[..i] + [rows[i]] == written + rows[..i + 1];
      OneMoreLine(written + rows[..i], rows[i], iso);
      Associative(CSV_HEADER, CsvLines(Records(written + rows[..i], iso)), RowToCsvLine(rows[i], iso));
      r := r + RowToCsvLine(rows[i], iso);
      i := i + 1;
    }
    assert rows[..i] == rows;
  }

  /** What has been written and what is still to be exported make up the whole export. */
  ghost predicate OnTrack(whole: Export, written: seq<Stream>, queries: nat, rest: Export) {
    whole == Export(written + rest.rows, rest.finished, queries + rest.queries)
  }

  /** The export loop; its k-th query sees tables[k]. It ends on the first page without a cursor. */
  method ExportCsv(tables: seq<seq<Stream>>, filters: ExportParams, leq: IdOrder, iso: IsoDate)
    returns (body: string, ended: bool)
    ensures body == Document(ExportOver(tables, filters, leq).rows, iso)
    ensures ended == ExportOver(tables, filters, leq).finished
  {
    ghost var pages := PagesOver(tables, filters, leq);
    ghost var whole := ExportOver(tables, filters, leq);
    ghost var written := [];
    body := CSV_HEADER;
    var cursor: Option<Cursor> := None;
    var k := 0;
    NothingWritten(whole);
    while k < |tables|
      invariant 0 <= k <= |tables|
      invariant OnTrack(whole, written, k, ExportFrom(pages, k, |tables|, cursor))
      invariant body == Document(written, iso)
    {
      var batch := FindForExport(tables[k], Resume(filters, cursor), leq);
      assert batch == pages(k, cursor);
      body := WriteRows(body, batch.rows, iso, written);
      if batch.nextCursor.None? {
        LastPage(pages, k, |tables|, cursor, whole, written);
        return body, true;
      }
      NextPage(pages, k, |tables|, cursor, whole, written);
      written, cursor := written + batch.rows, batch.nextCursor;
      k := k + 1;
    }
    GivenUp(pages, |tables|, cursor, whole, written);
    return body, false;
  }

  lemma NothingWritten(whole: Export)
    ensures OnTrack(whole, [], 0, whole)
  {
    assert [] + whole.rows == whole.rows;
  }

  lemma LastPage(pages: PageQuery, k: nat, n: nat, c: Option<Cursor>, whole: Export, before: seq<Stream>)
    requires k < n && pages(k, c).nextCursor.None?
    requires OnTrack(whole, before, k, ExportFrom(pages, k, n, c))
    ensures whole.finished && whole.rows == before + pages(k, c).rows
  {
  }

  lemma GivenUp(pages: PageQuery, n: nat, c: Option<Cursor>, whole: Export, before: seq<Stream>)
    requires OnTrack(whole, before, n, ExportFrom(pages, n, n, c))
    ensures !whole.finished && whole.rows == before
  {
    assert before + [] == before;
  }

  lemma NextPage(pages: PageQuery, k: nat, n: nat, c: Option<Cursor>, whole: Export, before: seq<Stream>)
    requires k < n && pages(k, c).nextCursor.Some?
    requires OnTrack(whole, before, k, ExportFrom(pages, k, n, c))
    ensures OnTrack(whole, before + pages(k, c).rows, k + 1, ExportFrom(pages, k + 1, n, pages(k, c).nextCursor))
  {
    Associative(before, pages(k, c).rows, ExportFrom(pages, k + 1, n, pages(k, c).nextCursor).rows);
  }

  // ---------------------------------------------------------------------------
  // Reading the document back
  // ---------------------------------------------------------------------------

  lemma PlainColumns()
    ensures forall i | 0 <= i < |COLUMNS| :: !NeedsQuotes(COLUMNS[i])
  {
  }

  lemma JoinPlain(fields: seq<string>)
    requires |fields| > 1 && !NeedsQuotes(fields[0])
    ensures JoinFields(fields) == fields[0] + "," + JoinFields(fields[1..])
  {
  }

  lemma JoinColumn(i: nat)
    requires i < 10
    ensures JoinFields(COLUMNS[i..]) == COLUMNS[i] + "," + JoinFields(COLUMNS[i + 1..])
  {
    PlainColumns();
    assert COLUMNS[i..][1..] == COLUMNS[i + 1..];
    JoinPlain(COLUMNS[i..]);
  }

  lemma LaterColumns()
    ensures JoinFields(COLUMNS[5..]) == LATER_COLUMNS
  {
    PlainColumns();
    assert COLUMNS[10..] == [COLUMNS[10]];
    JoinColumn(9);
    JoinColumn(8);
    JoinColumn(7);
    JoinColumn(6);
    JoinColumn(5);
  }

  lemma HeaderIsCsv()
    ensures CSV_HEADER == CsvLine(COLUMNS)
  {
    LaterColumns();
    JoinColumn(4);
    JoinColumn(3);
    JoinColumn(2);
    JoinColumn(1);
    PlainColumns();
    JoinPlain(COLUMNS);
  }

  predicate ColumnNames(names: seq<string>) {
    && |names| == 11
    && names[0] == "id" && names[1] == "payer" && names[2] == "recipient" && names[3] == "status"
    && names[4] == "ratePerSecond" && names[5] == "startTime" && names[6] == "endTime" && names[7] == "totalAmount"
    && names[8] == "lastSettledAt" && names[9] == "createdAt" && names[10] == "updatedAt"
  }

  /** The cells of a stream, in the order of the column names. */
  predicate CellsOf(cells: seq<string>, row: Stream, iso: IsoDate) {
    && |cells| == 11
    && cells[0] == row.id && cells[1] == row.payer && cells[2] == row.recipient
    && (match row.status
        case Active => cells[3] == "active"
        case Paused => cells[3] == "paused"
        case Cancelled => cells[3] == "cancelled"
        case Completed => cells[3] == "completed")
    && cells[4] == row.ratePerSecond && cells[5] == iso(row.startTime)
    && cells[6] == (if row.endTime.Some? then iso(row.endTime.value) else "")
    && cells[7] == row.totalAmount && cells[8] == iso(row.lastSettledAt)
    && cells[9] == iso(row.createdAt) && cells[10] == iso(row.updatedAt)
  }

  lemma NamedColumns()
    ensures ColumnNames(COLUMNS)
  {
  }

  lemma FieldCells(row: Stream, iso: IsoDate)
    ensures CellsOf(Fields(row, iso), row, iso)
  {
  }

  /** Read back, the document has the column names first and then, for each exported row, its value in each column. */
  lemma DocumentCells(rows: seq<Stream>, iso: IsoDate)
    ensures var d := ParseFile(Document(rows, iso));
            && d.Some? && |d.value| == |rows| + 1 && ColumnNames(d.value[0])
            && forall i | 0 <= i < |rows| :: CellsOf(d.value[i + 1], rows[i], iso)
  {
    DocumentReadsBack(rows, iso);
    NamedColumns();
    forall i | 0 <= i < |rows| ensures CellsOf(([COLUMNS] + Records(rows, iso))[i + 1], rows[i], iso) {
      FieldCells(rows[i], iso);
    }
  }

  lemma NoEmptyRecord(rows: seq<Stream>, iso: IsoDate)
    ensures forall i | 0 <= i < |Records(rows, iso)| :: Records(rows, iso)[i] != []
  {
    forall i | 0 <= i < |Records(rows, iso)| ensures Records(rows, iso)[i] != [] {
      assert |Fields(rows[i], iso)| == 11;
    }
  }

  lemma HeadedReadsBack(header: seq<string>, records: seq<seq<string>>)
    requires header != [] && forall i | 0 <= i < |records| :: records[i] != []
    ensures ParseFile(CsvLine(header) + CsvLines(records)) == Some([header] + records)
  {
    assert ([header] + records)[1..] == records;
    DocumentRoundTrip([header] + records);
  }

  /** Reading the document as CSV gives the header and one record of eleven original fields per row. */
  lemma DocumentReadsBack(rows: seq<Stream>, iso: IsoDate)
    ensures ParseFile(Document(rows, iso)) == Some([COLUMNS] + Records(rows, iso))
  {
    HeaderIsCsv();
    NoEmptyRecord(rows, iso);
    HeadedReadsBack(COLUMNS, Records(rows, iso));
  }
}
