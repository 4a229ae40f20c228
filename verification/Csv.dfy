/** Comma-separated values: the escaping writer and an independent reader of section 2 of RFC 4180. */
module Csv {
  import opened Prelude

  const LINE_BREAK := "\r\n"

  predicate IsSpecial(c: char) {
    c == ',' || c == '"' || c == '\r' || c == '\n'
  }

  /** `/[,"\r\n]/.test(value)` */
  predicate NeedsQuotes(value: string) {
    exists i | 0 <= i < |value| :: IsSpecial(value[i])
  }

  function DoubleQuotes(value: string): string {
    if value == "" then ""
    else if value[0] == '"' then "\"\"" + DoubleQuotes(value[1..])
    else [value[0]] + DoubleQuotes(value[1..])
  }

  function EscapeCsvField(value: string): string {
    if NeedsQuotes(value) then "\"" + DoubleQuotes(value) + "\"" else value
  }

  function JoinFields(fields: seq<string>): string {
    if fields == [] then ""
    else if |fields| == 1 then EscapeCsvField(fields[0])
    else EscapeCsvField(fields[0]) + "," + JoinFields(fields[1..])
  }

  function CsvLine(fields: seq<string>): string {
    JoinFields(fields) + LINE_BREAK
  }

  function CsvLines(records: seq<seq<string>>): string {
    if records == [] then "" else CsvLine(records[0]) + CsvLines(records[1..])
  }

  // ---------------------------------------------------------------------------
  // The reader
  // ---------------------------------------------------------------------------

  /** Outside quotes these characters are not text. */
  predicate Delimits(c: char) {
    c in {',', '"', '\r', '\n'}
  }

  function PlainSpan(s: string): (n: nat)
    ensures n <= |s|
  {
    if s == "" || Delimits(s[0]) then 0 else 1 + PlainSpan(s[1..])
  }

  /** The inside of a quoted field, up to and including its closing quote. */
  function ParseQuoted(s: string): (r: Parsed<string, char>)
    ensures r.Parsed? ==> |r.value| + |r.rest| < |s|
  {
    if s == "" then NoParse
    else if s[0] != '"' then
      match ParseQuoted(s[1..])
      case Parsed(tail, rest) => Parsed([s[0]] + tail, rest)
      case NoParse => NoParse
    else if |s| > 1 && s[1] == '"' then
      match ParseQuoted(s[2..])
      case Parsed(tail, rest) => Parsed("\"" + tail, rest)
      case NoParse => NoParse
    else Parsed("", s[1..])
  }

  function ParseField(s: string): (r: Parsed<string, char>)
    ensures r.Parsed? ==> |r.value| + |r.rest| <= |s|
  {
    if s != "" && s[0] == '"' then ParseQuoted(s[1..])
    else
      var n := PlainSpan(s);
      Parsed(s[..n], s[n..])
  }

  function ParseRecord(s: string): (r: Parsed<seq<string>, char>)
    ensures r.Parsed? ==> |r.rest| <= |s|
    decreases |s|
  {
    match ParseField(s)
    case NoParse => NoParse
    case Parsed(field, rest) =>
      if rest == "" || rest[0] != ',' then Parsed([field], rest)
      else
        match ParseRecord(rest[1..])
        case Parsed(fields, after) => Parsed([field] + fields, after)
        case NoParse => NoParse
  }

  /** Records separated by line breaks; the last line break is optional. */
  function ParseFile(s: string): (r: Option<seq<seq<string>>>)
    ensures r.Some? ==> r.value != []
    decreases |s|
  {
    match ParseRecord(s)
    case NoParse => None
    case Parsed(record, rest) =>
      if rest == "" || rest == "\r\n" then Some([record])
      else if |rest| > 2 && rest[..2] == "\r\n" then
        match ParseFile(rest[2..])
        case Some(records) => Some([record] + records)
        case None => None
      else None
  }

  // ---------------------------------------------------------------------------
  // The reader undoes the writer
  // ---------------------------------------------------------------------------

  /** What may follow a field. */
  predicate FieldEnds(t: string) {
    t == "" || t[0] == ',' || t[0] == '\r' || t[0] == '\n'
  }

  lemma {:induction false} PlainSpanStops(value: string, t: string)
    requires !NeedsQuotes(value) && FieldEnds(t)
    ensures PlainSpan(value + t) == |value|
  {
    if value == "" {
      assert value + t == t;
    } else {
      assert !IsSpecial(value[0]);
      assert forall i | 0 <= i < |value[1..]| :: value[1..][i] == value[i + 1];
      assert (value + t)[0] == value[0] && (value + t)[1..] == value[1..] + t;
      PlainSpanStops(value[1..], t);
    }
  }

  lemma {:induction false} QuotedRoundTrip(value: string, t: string)
    requires FieldEnds(t)
    ensures ParseQuoted(DoubleQuotes(value) + ("\"" + t)) == Parsed(value, t)
  {
    var end := "\"" + t;
    if value == "" {
      assert DoubleQuotes(value) + end == end;
      assert end[1..] == t;
    } else {
      QuotedRoundTrip(value[1..], t);
      var inner := DoubleQuotes(value[1..]) + end;
      assert value == [value[0]] + value[1..];
      if value[0] == '"' {
        ReadDoubledQuote(inner, value[1..], t);
        Associative("\"\"", DoubleQuotes(value[1..]), end);
      } else {
        ReadPlainChar(value[0], inner, value[1..], t);
        Associative([value[0]], DoubleQuotes(value[1..]), end);
      }
    }
  }

  lemma ReadDoubledQuote(s: string, tail: string, t: string)
    requires ParseQuoted(s) == Parsed(tail, t)
    ensures ParseQuoted("\"\"" + s) == Parsed("\"" + tail, t)
  {
    assert ("\"\"" + s)[2..] == s;
  }

  lemma ReadPlainChar(c: char, s: string, tail: string, t: string)
    requires c != '"' && ParseQuoted(s) == Parsed(tail, t)
    ensures ParseQuoted([c] + s) == Parsed([c] + tail, t)
  {
    assert ([c] + s)[1..] == s;
  }

  /** Any contents survive: commas, quotes and line breaks included. */
  lemma FieldRoundTrip(value: string, t: string)
    requires FieldEnds(t)
    ensures ParseField(EscapeCsvField(value) + t) == Parsed(value, t)
  {
    if NeedsQuotes(value) {
      QuotedRoundTrip(value, t);
      AssociativeFour("\"", DoubleQuotes(value), "\"", t);
      assert ("\"" + (DoubleQuotes(value) + ("\"" + t)))[1..] == DoubleQuotes(value) + ("\"" + t);
    } else {
      PlainRoundTrip(value, t);
    }
  }

  lemma PlainRoundTrip(value: string, t: string)
    requires !NeedsQuotes(value) && FieldEnds(t)
    ensures ParseField(value + t) == Parsed(value, t)
  {
    PlainSpanStops(value, t);
    var s := value + t;
    assert s[..|value|] == value && s[|value|..] == t;
    if value != "" {
      assert !IsSpecial(value[0]);
      assert s[0] == value[0];
    }
  }

  lemma {:induction false} RecordRoundTrip(fields: seq<string>, t: string)
    requires fields != [] && FieldEnds(t) && (t != "" ==> t[0] != ',')
    ensures ParseRecord(JoinFields(fields) + t) == Parsed(fields, t)
    decreases |fields|
  {
    if |fields| == 1 {
      FieldRoundTrip(fields[0], t);
      assert fields == [fields[0]];
    } else {
      var more := JoinFields(fields[1..]) + t;
      RecordRoundTrip(fields[1..], t);
      FieldRoundTrip(fields[0], "," + more);
      ReadFieldThen(EscapeCsvField(fields[0]), fields[0], more, fields[1..], t);
      AssociativeFour(EscapeCsvField(fields[0]), ",", JoinFields(fields[1..]), t);
      assert fields == [fields[0]] + fields[1..];
    }
  }

  lemma ReadFieldThen(field: string, value: string, more: string, fields: seq<string>, t: string)
    requires ParseField(field + ("," + more)) == Parsed(value, "," + more)
    requires ParseRecord(more) == Parsed(fields, t)
    ensures ParseRecord(field + ("," + more)) == Parsed([value] + fields, t)
  {
    assert ("," + more)[1..] == more;
  }

  lemma LinesNonEmpty(records: seq<seq<string>>)
    ensures CsvLines(records) == "" <==> records == []
  {
  }

  lemma ReadLine(line: string, record: seq<string>, more: string)
    requires ParseRecord(line + (LINE_BREAK + more)) == Parsed(record, LINE_BREAK + more)
    ensures more == "" ==> ParseFile(line + (LINE_BREAK + more)) == Some([record])
    ensures more != "" && ParseFile(more).Some? ==>
              ParseFile(line + (LINE_BREAK + more)) == Some([record] + ParseFile(more).value)
  {
    var rest := LINE_BREAK + more;
    assert rest[..2] == LINE_BREAK && rest[2..] == more;
    if more == "" {
      assert rest == LINE_BREAK;
    }
  }

  /** A document of records reads back as exactly those records. */
  lemma {:induction false} DocumentRoundTrip(records: seq<seq<string>>)
    requires records != [] && forall i | 0 <= i < |records| :: records[i] != []
    ensures ParseFile(CsvLines(records)) == Some(records)
    decreases |records|
  {
    assert records == [records[0]] + records[1..];
    FirstRecord(records[0], records[1..]);
    if |records| == 1 {
      assert records == [records[0]];
    } else {
      DocumentRoundTrip(records[1..]);
    }
  }

  lemma FirstRecord(record: seq<string>, rest: seq<seq<string>>)
    requires record != []
    ensures rest == [] ==> ParseFile(CsvLines([record] + rest)) == Some([record])
    ensures rest != [] && ParseFile(CsvLines(rest)).Some? ==>
              ParseFile(CsvLines([record] + rest)) == Some([record] + ParseFile(CsvLines(rest)).value)
  {
    var more := CsvLines(rest);
    RecordRoundTrip(record, LINE_BREAK + more);
    ReadLine(JoinFields(record), record, more);
    Associative(JoinFields(record), LINE_BREAK, more);
    LinesNonEmpty(rest);
    assert ([record] + rest)[1..] == rest;
  }

  lemma {:induction false} PlainSpanWhole(value: string)
    ensures PlainSpan(value) == |value| <==> !NeedsQuotes(value)
    ensures PlainSpan(value) < |value| ==> IsSpecial(value[PlainSpan(value)])
  {
    if value == "" {
    } else {
      PlainSpanWhole(value[1..]);
      if IsSpecial(value[0]) {
        assert NeedsQuotes(value);
      } else {
        assert forall i | 0 <= i < |value[1..]| :: value[1..][i] == value[i + 1];
        if NeedsQuotes(value[1..]) {
          var i :| 0 <= i < |value[1..]| && IsSpecial(value[1..][i]);
          assert IsSpecial(value[i + 1]);
        }
      }
    }
  }

  /** The writer quotes exactly the values that would not read back as themselves without quotes. */
  lemma QuotedExactlyWhenNeeded(value: string)
    ensures EscapeCsvField(value) == value <==> ParseFile(value) == Some([[value]])
  {
    PlainSpanWhole(value);
    if NeedsQuotes(value) {
      DoubleQuotesLonger(value);
      FirstField(value);
    } else {
      assert value[..|value|] == value && value[|value|..] == "";
      if value != "" {
        assert !IsSpecial(value[0]);
      }
      assert ParseField(value) == Parsed(value, "");
    }
  }

  lemma FirstField(s: string)
    ensures ParseFile(s).Some? ==>
              && ParseField(s).Parsed? && ParseFile(s).value[0] != []
              && ParseFile(s).value[0][0] == ParseField(s).value
  {
    assert ParseRecord(s).Parsed? ==>
        && ParseField(s).Parsed? && ParseRecord(s).value != []
        && ParseRecord(s).value[0] == ParseField(s).value;
  }

  lemma {:induction false} DoubleQuotesLonger(value: string)
    ensures |DoubleQuotes(value)| >= |value|
  {
    if value == "" {
    } else {
      DoubleQuotesLonger(value[1..]);
    }
  }
}
