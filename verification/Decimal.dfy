/** Nine-decimal fixed-point amounts: exact parsing, printing and comparison. */
module Decimal {
  import opened Prelude
  import opened Digits

  const UNITS := 1_000_000_000
  const PLACES := 9

  /** `value.split(".")`: what stands before the first dot and, if there is a dot, what follows it. */
  datatype Parts = Parts(whole: string, fraction: Option<string>)

  function Split(s: string): Parts {
    if s == "" then Parts("", None)
    else if s[0] == '.' then Parts("", Some(s[1..]))
    else
      var rest := Split(s[1..]);
      Parts([s[0]] + rest.whole, rest.fraction)
  }

  function Join(p: Parts): string {
    p.whole + (if p.fraction.Some? then "." + p.fraction.value else "")
  }

  function Zeros(n: nat): (s: string)
    ensures |s| == n && AllDigits(s) && forall i | 0 <= i < n :: s[i] == '0'
  {
    if n == 0 then "" else "0" + Zeros(n - 1)
  }

  function PadStart(s: string, n: nat): string {
    if |s| >= n then s else Zeros(n - |s|) + s
  }

  function PadEnd(s: string, n: nat): string {
    if |s| >= n then s else s + Zeros(n - |s|)
  }

  /** `replace(/0+$/, "")` */
  function StripTrailingZeros(s: string): (r: string)
    ensures |r| <= |s| && r == s[..|r|]
    ensures r != "" ==> r[|r| - 1] != '0'
    ensures forall i | |r| <= i < |s| :: s[i] == '0'
  {
    if s != "" && s[|s| - 1] == '0' then StripTrailingZeros(s[..|s| - 1]) else s
  }

  predicate IsFraction(s: string) {
    1 <= |s| <= PLACES && AllDigits(s)
  }

  function FractionUnits(s: string): nat
    requires |s| <= PLACES && AllDigits(s)
  {
    StringToNat(PadEnd(s, PLACES))
  }

  /** Digits, optionally followed by one to nine digits of fraction. */
  function PartsValue(p: Parts): Option<nat> {
    if p.whole == "" || !AllDigits(p.whole) then None
    else if p.fraction.None? then Some(StringToNat(p.whole) * UNITS)
    else if !IsFraction(p.fraction.value) then None
    else Some(StringToNat(p.whole) * UNITS + FractionUnits(p.fraction.value))
  }

  function ParseDecimal(s: string): Option<nat> {
    PartsValue(Split(s))
  }

  function PrintedFraction(f: nat): string {
    StripTrailingZeros(PadStart(NatToString(f), PLACES))
  }

  /** A whole part and a number of units below one, printed. */
  function Printed(w: nat, f: nat): Parts {
    Parts(NatToString(w), if PrintedFraction(f) == "" then None else Some(PrintedFraction(f)))
  }

  function FormatUnsigned(units: nat): string {
    Join(Printed(units / UNITS, units % UNITS))
  }

  function WithSign(negative: bool, s: string): string {
    if negative then "-" + s else s
  }

  function Magnitude(units: int): nat {
    if units < 0 then -units else units
  }

  function FormatDecimal(units: int): string {
    WithSign(units < 0, FormatUnsigned(Magnitude(units)))
  }

  function Correction(difference: int): Option<string> {
    if difference == 0 then None else Some(FormatDecimal(difference))
  }

  function CompareUnits(expected: Option<nat>, actual: Option<nat>): Result<Option<string>, string> {
    match (expected, actual)
    case (None, _) => Err("expectedAmount must be a non-negative decimal with up to 9 places")
    case (_, None) => Err("actualAmount must be a non-negative decimal with up to 9 places")
    case (Some(e), Some(a)) => Ok(Correction(a as int - e as int))
  }

  /** `Err` where the source throws, `Ok(None)` where it returns null. */
  function CompareAmounts(expected: string, actual: string): Result<Option<string>, string> {
    CompareUnits(ParseDecimal(expected), ParseDecimal(actual))
  }

  // ---------------------------------------------------------------------------
  // Digit strings of fixed width
  // ---------------------------------------------------------------------------

  function PowerOfTen(n: nat): nat {
    if n == 0 then 1 else 10 * PowerOfTen(n - 1)
  }

  lemma {:induction false} NatWidth(n: nat, width: nat)
    requires 1 <= width && n < PowerOfTen(width)
    ensures |NatToString(n)| <= width
  {
    if n < 10 {
    } else {
      assert width == 1 ==> PowerOfTen(width) == 10;
      NatWidth(n / 10, width - 1);
    }
  }

  lemma NinePlaces()
    ensures PowerOfTen(PLACES) == UNITS
  {
    assert PowerOfTen(3) == 1000;
    assert PowerOfTen(6) == 1000 * PowerOfTen(3);
    assert PowerOfTen(9) == 1000 * PowerOfTen(6);
  }

  lemma {:induction false} LeadingZeros(k: nat, s: string)
    requires AllDigits(s)
    ensures AllDigits(Zeros(k) + s) && StringToNat(Zeros(k) + s) == StringToNat(s)
  {
    var whole := Zeros(k) + s;
    if s != "" {
      assert whole[..|whole| - 1] == Zeros(k) + s[..|s| - 1];
      LeadingZeros(k, s[..|s| - 1]);
    } else if k > 0 {
      assert whole[..|whole| - 1] == Zeros(k - 1) + "";
      LeadingZeros(k - 1, "");
    }
  }

  lemma PadStartValue(n: nat)
    requires n < UNITS
    ensures |PadStart(NatToString(n), PLACES)| == PLACES && AllDigits(PadStart(NatToString(n), PLACES))
    ensures StringToNat(PadStart(NatToString(n), PLACES)) == n
  {
    NinePlaces();
    NatWidth(n, PLACES);
    NatRoundTrip(n);
    LeadingZeros(PLACES - |NatToString(n)|, NatToString(n));
  }

  /** Padding back what was stripped. */
  lemma StripThenPad(s: string)
    requires |s| == PLACES && AllDigits(s)
    ensures PadEnd(StripTrailingZeros(s), PLACES) == s
  {
    var r := StripTrailingZeros(s);
    assert s == r + s[|r|..];
    assert s[|r|..] == Zeros(PLACES - |r|);
  }

  lemma {:induction false} ValueBound(s: string)
    requires AllDigits(s)
    ensures StringToNat(s) < PowerOfTen(|s|)
  {
    if s == "" {
    } else {
      ValueBound(s[..|s| - 1]);
    }
  }

  predicate NoLeadingZero(s: string) {
    s != "" && (s[0] == '0' ==> |s| == 1)
  }

  lemma {:induction false} PositiveValue(s: string)
    requires AllDigits(s) && s != "" && s[0] != '0'
    ensures StringToNat(s) >= 1
  {
    if |s| > 1 {
      PositiveValue(s[..|s| - 1]);
    } else {
      assert s[..0] == "";
    }
  }

  /** Digits without a superfluous leading zero are what their value prints as. */
  lemma {:induction false} DigitsRoundTrip(s: string)
    requires AllDigits(s) && NoLeadingZero(s)
    ensures NatToString(StringToNat(s)) == s
  {
    var front, last := s[..|s| - 1], s[|s| - 1];
    if |s| == 1 {
      assert front == "";
      assert StringToNat(s) == DigitValue(last);
      assert s == [DigitChar(DigitValue(last))];
    } else {
      DigitsRoundTrip(front);
      PositiveValue(front);
      var n := StringToNat(s);
      assert n / 10 == StringToNat(front) && n % 10 == DigitValue(last);
      assert s == front + [last];
    }
  }

  lemma {:induction false} NatNoLeadingZero(n: nat)
    ensures NoLeadingZero(NatToString(n))
    ensures n > 0 ==> NatToString(n)[0] != '0'
  {
    if n < 10 {
    } else {
      NatNoLeadingZero(n / 10);
    }
  }

  /** Nine digits are what their value prints as, padded. */
  lemma {:induction false} FixedWidthRoundTrip(s: string)
    requires AllDigits(s) && s != ""
    ensures PadStart(NatToString(StringToNat(s)), |s|) == s
  {
    if NoLeadingZero(s) {
      DigitsRoundTrip(s);
    } else {
      var t := s[1..];
      assert s == Zeros(1) + t;
      LeadingZeros(1, t);
      FixedWidthRoundTrip(t);
      ValueBound(t);
      NatWidth(StringToNat(t), |t|);
      var n := NatToString(StringToNat(t));
      assert Zeros(|s| - |n|) == "0" + Zeros(|t| - |n|);
    }
  }

  // ---------------------------------------------------------------------------
  // Main results
  // ---------------------------------------------------------------------------

  lemma {:induction false} SplitJoin(p: Parts)
    requires AllDigits(p.whole)
    ensures Split(Join(p)) == p
    decreases |p.whole|
  {
    var s := Join(p);
    if p.whole == "" {
      if p.fraction.Some? {
        assert s == "." + p.fraction.value && s[1..] == p.fraction.value;
      }
    } else {
      var q := p.(whole := p.whole[1..]);
      assert s[0] == p.whole[0] && s[1..] == Join(q);
      SplitJoin(q);
    }
  }

  lemma {:induction false} JoinSplit(s: string)
    ensures Join(Split(s)) == s
  {
    if s == "" || s[0] == '.' {
    } else {
      JoinSplit(s[1..]);
      assert Join(Split(s)) == [s[0]] + Join(Split(s[1..]));
    }
  }

  lemma ZeroFraction()
    ensures StringToNat(PadEnd("", PLACES)) == 0
  {
    LeadingZeros(PLACES, "");
    assert Zeros(PLACES) + "" == Zeros(PLACES);
    assert PadEnd("", PLACES) == Zeros(PLACES);
  }

  lemma PrintedFractionUnits(f: nat)
    requires f < UNITS
    ensures PrintedFraction(f) == "" ==> f == 0
    ensures PrintedFraction(f) != "" ==> IsFraction(PrintedFraction(f)) && FractionUnits(PrintedFraction(f)) == f
  {
    PadStartValue(f);
    StripThenPad(PadStart(NatToString(f), PLACES));
    ZeroFraction();
  }

  lemma UnitsSplit(units: nat)
    ensures units / UNITS * UNITS + units % UNITS == units && units % UNITS < UNITS
  {
  }

  lemma PrintedParses(w: nat, f: nat)
    requires f < UNITS
    ensures ParseDecimal(Join(Printed(w, f))) == Some(w * UNITS + f)
  {
    NatRoundTrip(w);
    PrintedFractionUnits(f);
    SplitJoin(Printed(w, f));
  }

  /** Parsing undoes printing on every non-negative amount. */
  lemma FormatThenParse(units: nat)
    ensures ParseDecimal(FormatDecimal(units)) == Some(units)
  {
    UnitsSplit(units);
    PrintedParses(units / UNITS, units % UNITS);
  }

  predicate CanonicalParts(p: Parts) {
    && NoLeadingZero(p.whole)
    && (p.fraction.Some? && p.fraction.value != "" ==> p.fraction.value[|p.fraction.value| - 1] != '0')
  }

  /** Canonical amounts: no superfluous zero in front, no trailing zero behind the dot. */
  predicate IsCanonical(s: string) {
    CanonicalParts(Split(s))
  }

  lemma FormatCanonical(units: nat)
    ensures IsCanonical(FormatDecimal(units))
  {
    UnitsSplit(units);
    NatNoLeadingZero(units / UNITS);
    SplitJoin(Printed(units / UNITS, units % UNITS));
  }

  lemma FractionRoundTrip(fraction: string)
    requires IsFraction(fraction) && fraction[|fraction| - 1] != '0'
    ensures FractionUnits(fraction) < UNITS
    ensures PrintedFraction(FractionUnits(fraction)) == fraction
  {
    var padded := PadEnd(fraction, PLACES);
    NinePlaces();
    ValueBound(padded);
    FixedWidthRoundTrip(padded);
    StripPadded(fraction, PLACES - |fraction|);
  }

  lemma {:induction false} StripPadded(s: string, k: nat)
    requires s != "" && s[|s| - 1] != '0'
    ensures StripTrailingZeros(s + Zeros(k)) == s
  {
    var t := s + Zeros(k);
    if k == 0 {
      assert t == s;
    } else {
      assert t[|t| - 1] == Zeros(k)[k - 1];
      assert Zeros(k)[..k - 1] == Zeros(k - 1);
      assert t[..|t| - 1] == s + Zeros(k - 1);
      StripPadded(s, k - 1);
    }
  }

  lemma ZeroPrintsNothing()
    ensures PrintedFraction(0) == ""
  {
    PadStartValue(0);
    var digits := PadStart(NatToString(0), PLACES);
    assert NatToString(0) == "0";
    assert forall i | 0 <= i < PLACES :: digits[i] == '0';
  }

  lemma FormatParts(units: nat, w: nat, f: nat)
    requires units == w * UNITS + f && f < UNITS
    ensures FormatDecimal(units) == Join(Printed(w, f))
  {
    assert units / UNITS == w && units % UNITS == f;
  }

  /** Canonical parts of value w and f are what w and f print as. */
  lemma CanonicalPrinted(p: Parts, w: nat, f: nat)
    requires PartsValue(p).Some? && CanonicalParts(p)
    requires w == StringToNat(p.whole)
    requires f == if p.fraction.Some? then FractionUnits(p.fraction.value) else 0
    ensures f < UNITS && Printed(w, f) == p
  {
    DigitsRoundTrip(p.whole);
    if p.fraction.None? {
      ZeroPrintsNothing();
    } else {
      FractionRoundTrip(p.fraction.value);
    }
  }

  /** Printing a parsed amount gives the text back exactly when the text was canonical. */
  lemma ParseThenFormat(s: string)
    requires ParseDecimal(s).Some?
    ensures FormatDecimal(ParseDecimal(s).value) == s <==> IsCanonical(s)
  {
    FormatCanonical(ParseDecimal(s).value);
    if IsCanonical(s) {
      var p := Split(s);
      var w := StringToNat(p.whole);
      var f := if p.fraction.Some? then FractionUnits(p.fraction.value) else 0;
      CanonicalPrinted(Split(s), w, f);
      FormatParts(ParseDecimal(s).value, w, f);
      JoinSplit(s);
    }
  }

  /** Re-printing is idempotent: the printed form is the one canonical text of its value. */
  lemma FormatIdempotent(s: string, t: string)
    requires ParseDecimal(s).Some? && ParseDecimal(t) == ParseDecimal(s)
    ensures ParseDecimal(FormatDecimal(ParseDecimal(s).value)) == ParseDecimal(s)
    ensures IsCanonical(s) && IsCanonical(t) ==> s == t
  {
    FormatThenParse(ParseDecimal(s).value);
    ParseThenFormat(s);
    ParseThenFormat(t);
  }

  /** Reads an amount with an optional minus sign. */
  function ParseSigned(s: string): Option<int> {
    if s != "" && s[0] == '-' then
      match ParseDecimal(s[1..])
      case Some(n) => Some(-(n as int))
      case None => None
    else
      match ParseDecimal(s)
      case Some(n) => Some(n)
      case None => None
  }

  lemma SignedText(negative: bool, s: string, n: nat)
    requires ParseDecimal(s) == Some(n) && s != "" && IsDigit(s[0])
    ensures ParseSigned(WithSign(negative, s)) == Some(if negative then -(n as int) else n)
  {
    if negative {
      assert ("-" + s)[1..] == s;
    }
  }

  lemma UnsignedRoundTrip(n: nat)
    ensures ParseDecimal(FormatUnsigned(n)) == Some(n)
    ensures FormatUnsigned(n) != "" && IsDigit(FormatUnsigned(n)[0])
  {
    UnitsSplit(n);
    PrintedParses(n / UNITS, n % UNITS);
    assert FormatUnsigned(n)[0] == NatToString(n / UNITS)[0];
  }

  /** Every signed amount, printed, reads back as itself. */
  lemma SignedRoundTrip(units: int)
    ensures ParseSigned(FormatDecimal(units)) == Some(units)
  {
    UnsignedRoundTrip(Magnitude(units));
    SignedText(units < 0, FormatUnsigned(Magnitude(units)), Magnitude(units));
  }

  /** `/^\d+(?:\.\d{1,9})?$/` */
  ghost predicate MatchesAmount(s: string) {
    || (s != "" && AllDigits(s))
    || exists k: nat :: DotAt(s, k) && k > 0 && AllDigits(s[..k]) && IsFraction(s[k + 1..])
  }

  predicate DotAt(s: string, k: nat) {
    k < |s| && s[k] == '.'
  }

  lemma {:induction false} SplitAtDot(s: string, k: nat)
    requires DotAt(s, k) && AllDigits(s[..k])
    ensures Split(s) == Parts(s[..k], Some(s[k + 1..]))
    decreases k
  {
    if k == 0 {
    } else {
      assert s[..k][0] == s[0] && s[1..][..k - 1] == s[..k][1..] && s[1..][k..] == s[k + 1..];
      SplitAtDot(s[1..], k - 1);
      assert s[..k] == [s[0]] + s[1..][..k - 1];
    }
  }

  lemma {:induction false} SplitDigits(s: string)
    requires AllDigits(s)
    ensures Split(s) == Parts(s, None)
  {
    if s == "" {
    } else {
      SplitDigits(s[1..]);
    }
  }

  /** An amount parses exactly when it matches the pattern. */
  lemma ParsesIffMatches(s: string)
    ensures ParseDecimal(s).Some? <==> MatchesAmount(s)
  {
    if s != "" && AllDigits(s) {
      SplitDigits(s);
    }
    if k: nat :| DotAt(s, k) && k > 0 && AllDigits(s[..k]) && IsFraction(s[k + 1..]) {
      SplitAtDot(s, k);
    }
    if ParseDecimal(s).Some? {
      var p := Split(s);
      JoinSplit(s);
      if p.fraction.None? {
        assert s == p.whole + "" == p.whole;
      } else {
        var k := |p.whole|;
        assert s == p.whole + ("." + p.fraction.value);
        assert DotAt(s, k) && s[..k] == p.whole && s[k + 1..] == p.fraction.value;
      }
    }
  }

  /** The comparison fails exactly when an amount does not match the pattern, and blames the first that does not. */
  lemma CompareRejects(expected: string, actual: string)
    ensures CompareAmounts(expected, actual).Err? <==> !MatchesAmount(expected) || !MatchesAmount(actual)
    ensures CompareAmounts(expected, actual).Err? ==>
              (CompareAmounts(expected, actual).error ==
               if MatchesAmount(expected) then "actualAmount must be a non-negative decimal with up to 9 places"
               else "expectedAmount must be a non-negative decimal with up to 9 places")
  {
    ParsesIffMatches(expected);
    ParsesIffMatches(actual);
  }

  lemma CorrectionReads(r: Option<string>, difference: int)
    requires r == Correction(difference)
    ensures r.None? <==> difference == 0
    ensures r.Some? ==> ParseSigned(r.value) == Some(difference)
  {
    SignedRoundTrip(difference);
  }

  lemma CompareUnitsExact(e: nat, a: nat)
    ensures var r := CompareUnits(Some(e), Some(a));
            && r.Ok? && (r.value.None? <==> e == a)
            && (r.value.Some? ==> ParseSigned(r.value.value) == Some(a as int - e as int))
  {
    CorrectionReads(CompareUnits(Some(e), Some(a)).value, a as int - e as int);
  }

  /** It is null exactly on equal values and otherwise prints the signed amount that takes expected to actual. */
  lemma CompareExact(expected: string, actual: string, e: nat, a: nat)
    requires ParseDecimal(expected) == Some(e) && ParseDecimal(actual) == Some(a)
    ensures CompareAmounts(expected, actual).Ok?
    ensures CompareAmounts(expected, actual).value.None? <==> e == a
    ensures CompareAmounts(expected, actual).value.Some? ==>
              var correction := ParseSigned(CompareAmounts(expected, actual).value.value);
              correction.Some? && e + correction.value == a
  {
    CompareUnitsExact(e, a);
  }

  // ---------------------------------------------------------------------------
  // What number a text is
  // ---------------------------------------------------------------------------

  /** Reading a digit more, with all that stands before it shifted by p. */
  lemma OneMoreDigit(n: int, p: int, m: int, d: int)
    ensures 10 * (n * p + m) + d == n * (10 * p) + (10 * m + d)
  {
  }

  lemma Regroup(n: int, p: int, q: int)
    ensures n * p * q == n * (p * q)
  {
  }

  lemma Scaled(units: int, n: int, u: int, m: int, q: int, whole: int)
    requires units == n * 1_000_000_000 + u && u * q == m * 1_000_000_000 && whole == n * q + m
    ensures units * q == whole * 1_000_000_000
  {
  }

  lemma {:induction false} Concatenated(a: string, b: string)
    requires AllDigits(a) && AllDigits(b)
    ensures StringToNat(a + b) == StringToNat(a) * PowerOfTen(|b|) + StringToNat(b)
    decreases |b|
  {
    if b == "" {
      assert a + b == a;
    } else {
      var front, last := b[..|b| - 1], DigitValue(b[|b| - 1]);
      Concatenated(a, front);
      LastDigit(a, b);
      OneMoreDigit(StringToNat(a), PowerOfTen(|front|), StringToNat(front), last);
    }
  }

  lemma LastDigit(a: string, b: string)
    requires AllDigits(a) && AllDigits(b) && b != ""
    ensures StringToNat(a + b) == 10 * StringToNat(a + b[..|b| - 1]) + DigitValue(b[|b| - 1])
  {
    assert (a + b)[..|a + b| - 1] == a + b[..|b| - 1];
  }

  lemma {:induction false} PowersMultiply(m: nat, n: nat)
    ensures PowerOfTen(m + n) == PowerOfTen(m) * PowerOfTen(n)
  {
    if m == 0 {
    } else {
      PowersMultiply(m - 1, n);
      Regroup(10, PowerOfTen(m - 1), PowerOfTen(n));
    }
  }

  lemma {:induction false} PaddedZeros(s: string, k: nat)
    requires AllDigits(s)
    ensures StringToNat(s + Zeros(k)) == StringToNat(s) * PowerOfTen(k)
  {
    LeadingZeros(k, "");
    assert Zeros(k) + "" == Zeros(k);
    Concatenated(s, Zeros(k));
  }

  lemma PaddedFraction(f: string)
    requires IsFraction(f)
    ensures FractionUnits(f) * PowerOfTen(|f|) == StringToNat(f) * 1_000_000_000
  {
    var k := PLACES - |f|;
    PaddedZeros(f, k);
    assert FractionUnits(f) == StringToNat(f) * PowerOfTen(k) by {
      if k == 0 {
        assert f + Zeros(0) == f;
      }
    }
    Regroup(StringToNat(f), PowerOfTen(k), PowerOfTen(|f|));
    PowersMultiply(k, |f|);
    NinePlaces();
  }

  /** Digits alone are that many whole units of a billion billionths. */
  lemma ParsedWhole(w: string)
    requires w != "" && AllDigits(w)
    ensures ParseDecimal(w) == Some(StringToNat(w) * 1_000_000_000)
  {
    SplitText(w, None);
  }

  lemma SplitText(w: string, f: Option<string>)
    requires AllDigits(w)
    ensures Split(if f.Some? then w + "." + f.value else w) == Parts(w, f)
  {
    SplitJoin(Parts(w, f));
    if f.Some? {
      Associative(w, ".", f.value);
    } else {
      assert w + "" == w;
    }
  }

  lemma PartsNumber(p: Parts)
    requires p.whole != "" && AllDigits(p.whole) && p.fraction.Some? && IsFraction(p.fraction.value)
    ensures PartsValue(p) == Some(StringToNat(p.whole) * 1_000_000_000 + FractionUnits(p.fraction.value))
  {
  }

  lemma ParsedParts(w: string, f: string)
    requires w != "" && AllDigits(w) && IsFraction(f)
    ensures ParseDecimal(w + "." + f) == Some(StringToNat(w) * 1_000_000_000 + FractionUnits(f))
  {
    SplitText(w, Some(f));
    PartsNumber(Parts(w, Some(f)));
  }

  /** The parsed value is the number the digits denote, in billionths: a power of ten for each decimal place. */
  lemma ParsedFraction(w: string, f: string)
    requires w != "" && AllDigits(w) && AllDigits(f) && 1 <= |f| <= 9
    ensures ParseDecimal(w + "." + f).Some?
    ensures ParseDecimal(w + "." + f).value * PowerOfTen(|f|) == StringToNat(w + f) * 1_000_000_000
  {
    ParsedParts(w, f);
    Concatenated(w, f);
    PaddedFraction(f);
    Scaled(ParseDecimal(w + "." + f).value, StringToNat(w), FractionUnits(f), StringToNat(f), PowerOfTen(|f|),
           StringToNat(w + f));
  }
}
