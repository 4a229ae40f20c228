/**
 String literals of JSON text (sections 7 and 8 of RFC 8259). A JavaScript string
 is a sequence of UTF-16 code units, lone surrogates included.
 */
module JsonText {
  import opened Prelude

  type CodeUnit = n: int | 0 <= n < 0x10000

  type Text = seq<CodeUnit>

  const QUOTE: CodeUnit := 0x22
  const BACKSLASH: CodeUnit := 0x5c
  const LOWER_U: CodeUnit := 0x75

  predicate IsHighSurrogate(c: CodeUnit) { 0xd800 <= c < 0xdc00 }

  predicate IsLowSurrogate(c: CodeUnit) { 0xdc00 <= c < 0xe000 }

  function HexDigit(d: int): CodeUnit
    requires 0 <= d < 16
  {
    if d < 10 then 0x30 + d else 0x61 + d - 10
  }

  function HexValue(c: CodeUnit): Option<Digit> {
    if 0x30 <= c <= 0x39 then Some(c - 0x30)
    else if 0x61 <= c <= 0x66 then Some(c - 0x61 + 10)
    else if 0x41 <= c <= 0x46 then Some(c - 0x41 + 10)
    else None
  }

  type Digit = d: int | 0 <= d < 16

  function FourHex(a: Option<Digit>, b: Option<Digit>, c: Option<Digit>, d: Option<Digit>): Option<CodeUnit> {
    if a.Some? && b.Some? && c.Some? && d.Some? then
      Some(4096 * a.value + 256 * b.value + 16 * c.value + d.value)
    else None
  }

  function UnicodeEscape(c: CodeUnit): Text {
    [BACKSLASH, LOWER_U, HexDigit(c / 4096), HexDigit(c / 256 % 16), HexDigit(c / 16 % 16), HexDigit(c % 16)]
  }

  function EscapeUnit(c: CodeUnit): (r: Text)
    ensures r != []
  {
    if c == QUOTE || c == BACKSLASH then [BACKSLASH, c]
    else if c == 0x08 then [BACKSLASH, 0x62]
    else if c == 0x0c then [BACKSLASH, 0x66]
    else if c == 0x0a then [BACKSLASH, 0x6e]
    else if c == 0x0d then [BACKSLASH, 0x72]
    else if c == 0x09 then [BACKSLASH, 0x74]
    else if c < 0x20 || IsHighSurrogate(c) || IsLowSurrogate(c) then UnicodeEscape(c)
    else [c]
  }

  /** Well-formed surrogate pairs are copied; lone surrogates are escaped. */
  function Escape(s: Text): Text {
    if s == [] then []
    else if |s| > 1 && IsHighSurrogate(s[0]) && IsLowSurrogate(s[1]) then s[..2] + Escape(s[2..])
    else EscapeUnit(s[0]) + Escape(s[1..])
  }

  /** `JSON.stringify` of a string. */
  function Quote(s: Text): Text {
    [QUOTE] + Escape(s) + [QUOTE]
  }

  function ShortEscape(c: CodeUnit): Option<CodeUnit> {
    if c == QUOTE || c == BACKSLASH || c == 0x2f then Some(c)
    else if c == 0x62 then Some(0x08)
    else if c == 0x66 then Some(0x0c)
    else if c == 0x6e then Some(0x0a)
    else if c == 0x72 then Some(0x0d)
    else if c == 0x74 then Some(0x09)
    else None
  }

  /** Reads one character, escaped or not, of a string body. */
  function ReadUnit(s: Text): (r: Parsed<CodeUnit, CodeUnit>)
    ensures r.Parsed? ==> |r.rest| < |s|
  {
    if s == [] || s[0] == QUOTE || s[0] < 0x20 then NoParse
    else if s[0] != BACKSLASH then Parsed(s[0], s[1..])
    else if |s| < 2 then NoParse
    else if s[1] == LOWER_U then
      if |s| < 6 then NoParse
      else
        match FourHex(HexValue(s[2]), HexValue(s[3]), HexValue(s[4]), HexValue(s[5]))
        case Some(c) => Parsed(c, s[6..])
        case None => NoParse
    else
      match ShortEscape(s[1])
      case Some(c) => Parsed(c, s[2..])
      case None => NoParse
  }

  /** Reads a string body up to and including its closing quote. */
  function ReadString(s: Text): (r: Parsed<Text, CodeUnit>)
    ensures r.Parsed? ==> |r.rest| < |s|
    decreases |s|
  {
    if s != [] && s[0] == QUOTE then Parsed([], s[1..])
    else
      match ReadUnit(s)
      case NoParse => NoParse
      case Parsed(c, rest) =>
        match ReadString(rest)
        case NoParse => NoParse
        case Parsed(tail, after) => Parsed([c] + tail, after)
  }

  lemma HexDigits(c: CodeUnit)
    ensures 0 <= c / 4096 < 16
    ensures c == 4096 * (c / 4096) + 256 * (c / 256 % 16) + 16 * (c / 16 % 16) + c % 16
  {
    assert c / 256 == 16 * (c / 4096) + c / 256 % 16;
    assert c / 16 == 16 * (c / 256) + c / 16 % 16;
  }

  lemma HexRoundTrip(c: CodeUnit, t: Text)
    ensures ReadUnit(UnicodeEscape(c) + t) == Parsed(c, t)
  {
    HexDigits(c);
    var s := UnicodeEscape(c) + t;
    assert s[2] == HexDigit(c / 4096) && s[3] == HexDigit(c / 256 % 16);
    assert s[4] == HexDigit(c / 16 % 16) && s[5] == HexDigit(c % 16);
    assert s[6..] == t;
    ReadHex(s, c / 4096, c / 256 % 16, c / 16 % 16, c % 16);
  }

  lemma ReadHex(s: Text, a: int, b: int, x: int, d: int)
    requires 0 <= a < 16 && 0 <= b < 16 && 0 <= x < 16 && 0 <= d < 16
    requires |s| >= 6 && s[0] == BACKSLASH && s[1] == LOWER_U
    requires s[2] == HexDigit(a) && s[3] == HexDigit(b) && s[4] == HexDigit(x) && s[5] == HexDigit(d)
    ensures ReadUnit(s) == Parsed(4096 * a + 256 * b + 16 * x + d, s[6..])
  {
    assert HexValue(s[2]) == Some(a) && HexValue(s[3]) == Some(b);
    assert HexValue(s[4]) == Some(x) && HexValue(s[5]) == Some(d);
  }

  lemma UnitRoundTrip(c: CodeUnit, t: Text)
    ensures (EscapeUnit(c) + t)[0] != QUOTE
    ensures ReadUnit(EscapeUnit(c) + t) == Parsed(c, t)
  {
    var e := EscapeUnit(c);
    if |e| == 1 {
      assert (e + t)[1..] == t;
    } else if |e| == 2 {
      assert (e + t)[2..] == t;
    } else {
      HexRoundTrip(c, t);
    }
  }

  /** Reading one printed character and then the rest of a body. */
  lemma ReadEscaped(c: CodeUnit, tail: Text, s: Text, t: Text)
    requires ReadString(tail) == Parsed(s, t)
    ensures ReadString(EscapeUnit(c) + tail) == Parsed([c] + s, t)
  {
    UnitRoundTrip(c, tail);
  }

  lemma ReadPair(high: CodeUnit, low: CodeUnit, tail: Text, s: Text, t: Text)
    requires IsHighSurrogate(high) && IsLowSurrogate(low)
    requires ReadString(tail) == Parsed(s, t)
    ensures ReadString([high, low] + tail) == Parsed([high, low] + s, t)
  {
    var inner := [low] + tail;
    assert inner[1..] == tail;
    assert ReadString(inner) == Parsed([low] + s, t);
    var whole := [high, low] + tail;
    assert whole[1..] == inner;
    assert [high] + ([low] + s) == [high, low] + s;
  }

  lemma EscapePair(s: Text, close: Text)
    requires |s| > 1 && IsHighSurrogate(s[0]) && IsLowSurrogate(s[1])
    ensures Escape(s) + close == [s[0], s[1]] + (Escape(s[2..]) + close)
  {
    assert s[..2] == [s[0], s[1]];
    Associative([s[0], s[1]], Escape(s[2..]), close);
  }

  lemma EscapeOne(s: Text, close: Text)
    requires s != [] && !(|s| > 1 && IsHighSurrogate(s[0]) && IsLowSurrogate(s[1]))
    ensures Escape(s) + close == EscapeUnit(s[0]) + (Escape(s[1..]) + close)
  {
    Associative(EscapeUnit(s[0]), Escape(s[1..]), close);
  }

  lemma EmptyStringRoundTrip(t: Text)
    ensures ReadString(Escape([]) + ([QUOTE] + t)) == Parsed([], t)
  {
    assert Escape([]) + ([QUOTE] + t) == [QUOTE] + t;
    assert ([QUOTE] + t)[1..] == t;
  }

  /** The reader undoes the printer and stops exactly at the closing quote. */
  lemma {:induction false} StringRoundTrip(s: Text, t: Text)
    ensures ReadString(Escape(s) + ([QUOTE] + t)) == Parsed(s, t)
    decreases |s|
  {
    var close := [QUOTE] + t;
    if s == [] {
      EmptyStringRoundTrip(t);
    } else if |s| > 1 && IsHighSurrogate(s[0]) && IsLowSurrogate(s[1]) {
      StringRoundTrip(s[2..], t);
      ReadPair(s[0], s[1], Escape(s[2..]) + close, s[2..], t);
      EscapePair(s, close);
      assert s == [s[0], s[1]] + s[2..];
    } else {
      StringRoundTrip(s[1..], t);
      ReadEscaped(s[0], Escape(s[1..]) + close, s[1..], t);
      EscapeOne(s, close);
      assert s == [s[0]] + s[1..];
    }
  }
}
