/**
  The alternative upload pipeline of `fix_upload_process.ts`: the same row
  mapping as the endpoint, but dates are corrected across the year boundary
  using the week number, native spreadsheet dates are accepted, every record
  is stamped with the selected area, and numbers are read by a variant of
  `parseNumericValue` that disagrees with the endpoint's on some inputs.
*/
module FixUpload {
  import opened Wrappers
  import opened JsText
  import Calendar
  import opened Cells
  import opened DateText
  import opened Filtering
  import opened UploadRoute

  type CalendarDate = Calendar.CalendarDate

  // ===========================================================================
  // getCorrectYearForWeek
  // ===========================================================================

  /**
    The year a date of the given sales week belongs to: week 52 dated in
    January belongs to the year before, week 1 dated in December to the
    year after, and any other date keeps its year.
  */
  function CorrectYearForWeek(week: int, d: CalendarDate): (y: int)
    ensures y == d.year - 1 <==> week == 52 && d.month == 0
    ensures y == d.year + 1 <==> week == 1 && d.month == 11
    ensures d.year - 1 <= y <= d.year + 1
  {
    if week == 52 && d.month == 0 then d.year - 1
    else if week == 1 && d.month == 11 then d.year + 1
    else d.year
  }

  /** The date after `setFullYear(getCorrectYearForWeek(week, d))`. */
  function Correct(week: int, d: CalendarDate): CalendarDate {
    Calendar.SetFullYear(d, CorrectYearForWeek(week, d))
  }

  /**
    The correction changes the year only: month and day are always kept,
    since only January and December dates move and 29 February keeps its
    year. The date changes exactly in the two cross-year cases.
  */
  lemma CorrectionKeepsMonthAndDay(week: int, d: CalendarDate)
    ensures Correct(week, d) == Calendar.Date(CorrectYearForWeek(week, d), d.month, d.day)
    ensures Correct(week, d) != d <==> (week == 52 && d.month == 0) || (week == 1 && d.month == 11)
  {
    if d.month == 1 && d.day == 29 {
      assert CorrectYearForWeek(week, d) == d.year;
    } else {
      Calendar.SetFullYearKeepsMonthAndDay(d, CorrectYearForWeek(week, d));
    }
  }

  /**
    The correction is not idempotent: a second application to a week-52
    January date moves it a further year back, which is why each parse path
    applies it exactly once.
  */
  lemma CorrectingTwiceMovesTwice(d: CalendarDate)
    requires d.month == 0
    ensures Correct(52, Correct(52, d)) == Calendar.Date(d.year - 2, 0, d.day)
  {
    CorrectionKeepsMonthAndDay(52, d);
    CorrectionKeepsMonthAndDay(52, Correct(52, d));
  }

  // ===========================================================================
  // parseSalesDateWithCorrection
  // ===========================================================================

  /** A JavaScript `Date` object: a mutable cell holding a valid date. */
  class JsDate {
    var time: CalendarDate

    /** `new Date(d)`: a fresh object holding the same date. */
    constructor (d: CalendarDate)
      ensures time == d
    {
      time := d;
    }

    /** `setFullYear(year)`: the month and day are kept, and carried over when 29 February meets a common year. */
    method SetFullYear(year: int)
      modifies this
      ensures time == Calendar.SetFullYear(old(time), year)
    {
      time := Calendar.SetFullYear(time, year);
    }
  }

  /**
    The date `parseSalesDateWithCorrection` returns for text: the endpoint's
    three attempts after the same pre-processing (the host parser, then
    D/M/Y, then Y/M/D), each success corrected for the week. A D/M/Y match
    always denotes a valid date, so its fall-through to Y/M/D on an invalid
    date is never taken.
  */
  function CorrectedText(s: string, week: int, host: string -> Option<CalendarDate>): Option<CalendarDate> {
    match Normalize(s)
    case None => None
    case Some(n) => CorrectedNormalized(n, week, host)
  }

  /** The three attempts on the pre-processed text `n`. */
  function CorrectedNormalized(n: string, week: int, host: string -> Option<CalendarDate>): Option<CalendarDate> {
    if host(n).Some? then Some(Correct(week, host(n).value))
    else match MatchDmy(n)
      case Some((dd, mm, yy)) => Some(Correct(week, DmyDate(dd, mm, yy)))
      case None =>
        match MatchYmd(n)
        case Some((yy, mm, dd)) => Some(Correct(week, YmdDate(yy, mm, dd)))
        case None => None
  }

  /**
    The value `parseSalesDateWithCorrection(rawValue, week)` returns: none for
    a falsy cell or a cell that is neither a date nor text, the corrected
    date of a native date, and the corrected parse of text.
  */
  function CorrectedDate(raw: Cell, week: int, host: string -> Option<CalendarDate>): (r: Option<CalendarDate>)
    ensures !Truthy(raw) ==> r.None?
    ensures raw.DateCell? ==> r == Some(Correct(week, raw.d))
    ensures !raw.Str? && !raw.DateCell? ==> r.None?
  {
    if !Truthy(raw) then None
    else match raw
      case DateCell(d) => Some(Correct(week, d))
      case Str(s) => CorrectedText(s, week, host)
      case _ => None
  }

  /**
    On text the corrected parser succeeds exactly when the endpoint's
    `parseSalesDate` does, and returns the endpoint's date with the
    correction applied once.
  */
  lemma CorrectedTextIsCorrectedRouteDate(s: string, week: int, host: string -> Option<CalendarDate>)
    ensures CorrectedText(s, week, host).None? <==> ParseSalesDate(s, host).None?
    ensures ParseSalesDate(s, host).Some? ==> CorrectedText(s, week, host) == Some(Correct(week, ParseSalesDate(s, host).value))
  {
    if Normalize(s).Some? {
      var n := Normalize(s).value;
      NormalizedAttempts(n, week, host);
    }
  }

  /** On pre-processed text the corrected attempts are the endpoint's attempts, corrected. */
  lemma NormalizedAttempts(n: string, week: int, host: string -> Option<CalendarDate>)
    ensures CorrectedNormalized(n, week, host).None? <==> ParseNormalized(n, host).None?
    ensures ParseNormalized(n, host).Some? ==> CorrectedNormalized(n, week, host) == Some(Correct(week, ParseNormalized(n, host).value))
  {
  }

  /** `parsed.setFullYear(getCorrectYearForWeek(week, parsed))`, done on every successful path. */
  method ApplyCorrection(parsed: JsDate, week: int)
    modifies parsed
    ensures parsed.time == Correct(week, old(parsed.time))
  {
    var correctedYear := CorrectYearForWeek(week, parsed.time);
    parsed.SetFullYear(correctedYear);
  }

  /**
    `parseSalesDateWithCorrection`: a fresh `Date` holding the corrected
    date, or `null`. A native date is copied before the correction, so the
    caller's value is left as it was (the method may change nothing that
    existed before the call).
  */
  method ParseSalesDateWithCorrection(rawValue: Cell, week: int, host: string -> Option<CalendarDate>) returns (r: JsDate?)
    ensures r == null <==> CorrectedDate(rawValue, week, host).None?
    ensures r != null ==> fresh(r) && r.time == CorrectedDate(rawValue, week, host).value
  {
    if !Truthy(rawValue) {
      return null;
    }
    if rawValue.DateCell? {
      var correctedDate := new JsDate(rawValue.d);
      ApplyCorrection(correctedDate, week);
      return correctedDate;
    }
    if !rawValue.Str? {
      return null;
    }
    var normalized := Normalize(rawValue.s);
    if normalized.None? {
      return null;
    }
    var n := normalized.value;
    var hostParsed := host(n);
    if hostParsed.Some? {
      var parsed := new JsDate(hostParsed.value);
      ApplyCorrection(parsed, week);
      return parsed;
    }
    var dmyMatch := MatchDmy(n);
    if dmyMatch.Some? {
      var (dayStr, monthStr, yearStr) := dmyMatch.value;
      var parsed := new JsDate(DmyDate(dayStr, monthStr, yearStr));
      ApplyCorrection(parsed, week);
      return parsed;
    }
    var ymdMatch := MatchYmd(n);
    if ymdMatch.Some? {
      var (yearStr, monthStr, dayStr) := ymdMatch.value;
      var parsed := new JsDate(YmdDate(yearStr, monthStr, dayStr));
      ApplyCorrection(parsed, week);
      return parsed;
    }
    return null;
  }

  // ===========================================================================
  // The variant parseNumericValue
  // ===========================================================================

  /** `^[\d.]+$` on non-empty text: digits and dots only. */
  predicate IsPlainDecimal(t: string) {
    forall i :: 0 <= i < |t| ==> IsDigit(t[i]) || t[i] == '.'
  }

  /** `x || '0'` on text. */
  function OrZeroText(x: string): (r: string)
    ensures r != []
  {
    if x == [] then "0" else x
  }

  /**
    The text this version hands to `parseFloat`, from the digits and
    separators. With both separators the later one splits the text: the
    other separator is removed from the first piece and the remaining
    pieces are joined as the fraction. With commas only, a comma is a
    decimal point only when there is exactly one and at most two characters
    follow it; otherwise the commas are removed. Text with dots only is
    passed on as it is.
  */
  function FixedNormalized(u: string): string {
    var hasComma := ',' in u;
    var hasDot := '.' in u;
    if hasComma && hasDot then
      var c := if LastIndexOf(u, ',') > LastIndexOf(u, '.') then ',' else '.';
      var parts := Split(u, c);
      Normalized(OrZeroText(RemoveChar(parts[0], OtherSeparator(c))), Join(parts[1..]))
    else if hasComma then
      var parts := Split(u, ',');
      if |parts| == 2 && |parts[1]| <= 2 then parts[0] + "." + parts[1] else Join(parts)
    else u
  }

  /** The non-negative value of the sanitised text: 0 when `parseFloat` gives NaN. */
  function FixedUnsignedValue(u: string): real {
    ParseFloat(FixedNormalized(u)).GetOr(0.0)
  }

  /** The pieces a split of minus-free text is made of hold no minus sign. */
  lemma NoMinusInPieces(u: string, c: char)
    requires '-' !in u && IsSeparator(c) && c in u
    ensures '-' !in Split(u, c)[0] && '-' !in Join(Split(u, c)[1..])
  {
    SplitTail(u, c);
    JoinSplit(AfterFirst(u, c), c);
  }

  lemma JoinOfOne(parts: seq<string>)
    requires |parts| == 2
    ensures Join(parts[1..]) == parts[1]
  {
    assert parts[1..][1..] == [];
  }

  /** Normalising adds no minus sign: the pieces come from the text, and only `0` and `.` are added. */
  lemma NoMinusInFixedNormalized(u: string)
    requires '-' !in u
    ensures '-' !in FixedNormalized(u)
  {
    if ',' in u && '.' in u {
      var c := if LastIndexOf(u, ',') > LastIndexOf(u, '.') then ',' else '.';
      NoMinusInPieces(u, c);
    } else if ',' in u {
      var parts := Split(u, ',');
      NoMinusInPieces(u, ',');
      if |parts| == 2 {
        JoinOfOne(parts);
      }
      JoinSplit(u, ',');
    }
  }

  /** Text without a minus sign has a non-negative value. */
  lemma FixedUnsignedNonNegative(u: string)
    requires '-' !in u
    ensures FixedUnsignedValue(u) >= 0.0
  {
    var n := FixedNormalized(u);
    NoMinusInFixedNormalized(u);
    ParseFloatNonNegative(n);
    match ParseFloat(n)
    case Some(v) =>
    case None =>
  }

  /**
    The variant `parseNumericValue` on text: 0 for blank text; the
    `parseFloat` reading of digits-and-dots text when it is finite; otherwise
    the value of the normalised digits and separators, negated when a minus
    sign occurs.
  */
  function ParseNumericFixedText(s: string): (r: real)
    ensures IsBlank(s) ==> r == 0.0
    ensures '-' !in s ==> r >= 0.0
  {
    TrimEmptyIffBlank(s);
    var trimmed := Trim(s);
    if trimmed == [] then 0.0
    else if IsPlainDecimal(trimmed) && ParseFloat(trimmed).Some? then
      assert '-' !in trimmed;
      ParseFloatNonNegative(trimmed);
      ParseFloat(trimmed).value
    else
      var sanitized := FilterChars(trimmed, IsNumericChar);
      var negative := '-' in sanitized;
      MinusSurvivesTrim(s);
      FixedUnsignedNonNegative(RemoveChar(sanitized, '-'));
      var magnitude := FixedUnsignedValue(RemoveChar(sanitized, '-'));
      if negative then -magnitude else magnitude
  }

  /**
    The three outcomes of the variant parser, as for the endpoint's: the
    fast path gives what the separator logic gives for digits-and-dots
    text, so every non-blank text reads as the value of its digits and
    separators, negated exactly when it has a minus sign.
  */
  lemma FixedNumericTextCases(s: string)
    ensures IsBlank(s) ==> ParseNumericFixedText(s) == 0.0
    ensures !IsBlank(s) && '-' in s ==> ParseNumericFixedText(s) == -FixedUnsignedValue(UnsignedText(s))
    ensures !IsBlank(s) && '-' !in s ==> ParseNumericFixedText(s) == FixedUnsignedValue(UnsignedText(s))
  {
    TrimEmptyIffBlank(s);
    MinusSurvivesTrim(s);
    var trimmed := Trim(s);
    if trimmed != [] && IsPlainDecimal(trimmed) && ParseFloat(trimmed).Some? {
      PlainDecimalAsIs(s);
      assert ParseNumericFixedText(s) == ParseFloat(trimmed).value;
      assert FixedUnsignedValue(trimmed) == ParseFloat(trimmed).value;
    }
  }

  /** Digits-and-dots text is its own sanitised text, and normalising leaves it as it is. */
  lemma PlainDecimalAsIs(s: string)
    requires IsPlainDecimal(Trim(s))
    ensures '-' !in Trim(s) && UnsignedText(s) == Trim(s) && FixedNormalized(Trim(s)) == Trim(s)
  {
    var trimmed := Trim(s);
    assert forall i :: 0 <= i < |trimmed| ==> IsNumericChar(trimmed[i]);
    FilterCharsKeepsAll(trimmed, IsNumericChar);
    assert '-' !in trimmed && ',' !in trimmed;
    RemoveAbsentChar(trimmed, '-');
  }

  /** A minus sign anywhere negates the value the text has without its minus signs, as in the endpoint. */
  lemma FixedMinusNegates(s: string)
    requires '-' in s
    ensures ParseNumericFixedText(s) == -ParseNumericFixedText(RemoveChar(s, '-'))
  {
    var t := RemoveChar(s, '-');
    assert !IsBlank(s) by { assert exists i :: 0 <= i < |s| && s[i] == '-'; }
    FixedNumericTextCases(s);
    FixedNumericTextCases(t);
    MinusIgnoredByUnsignedText(s);
    if IsBlank(t) {
      BlankWithoutMinus(s);
      assert FixedNormalized([]) == [];
      ParseFloatOfEmpty();
    }
  }

  /** The variant `parseNumericValue`: numbers as they are, text parsed, anything else 0. */
  function ParseNumericFixed(raw: Cell): (r: real)
    ensures raw.Num? ==> r == raw.n
    ensures !raw.Num? && !raw.Str? ==> r == 0.0
    ensures raw.Str? && IsBlank(raw.s) ==> r == 0.0
  {
    match raw
    case Num(n) => n
    case Str(s) => ParseNumericFixedText(s)
    case _ => 0.0
  }

  /** The fast path: digits-and-dots text that `parseFloat` reads is its `parseFloat` value, sign and separators aside. */
  lemma FastPath(s: string)
    requires s != [] && !IsSpace(s[0]) && !IsSpace(s[|s| - 1])
    requires IsPlainDecimal(s) && ParseFloat(s).Some?
    ensures ParseNumericFixedText(s) == ParseFloat(s).value
  {
    TrimOfNonSpaceEnds(s);
  }

  /** `parseFloat` stops at the second dot, so `a.b.t` reads as `a.b`. */
  lemma FastPathReadsFirstDot(a: string, b: string, t: string)
    requires a != [] && AllDigits(a) && AllDigits(b) && AllDigits(t)
    ensures ParseNumericFixedText(a + ['.'] + b + ['.'] + t) == DecimalValue(a) as real + FractionValue(b)
  {
    var s := a + ['.'] + b + ['.'] + t;
    TwoDotsArePlain(a, b, t);
    assert s == a + ['.'] + b + (['.'] + t);
    ParseFloatDecimalPrefix(a, b, ['.'] + t);
    FastPath(s);
  }

  lemma TwoDotsArePlain(a: string, b: string, t: string)
    requires a != [] && AllDigits(a) && AllDigits(b) && AllDigits(t)
    ensures var s := a + ['.'] + b + ['.'] + t;
            IsPlainDecimal(s) && !IsSpace(s[0]) && !IsSpace(s[|s| - 1])
  {
    var s := a + ['.'] + b + ['.'] + t;
    assert s[0] == a[0];
    assert s[|s| - 1] == '.' || s[|s| - 1] == t[|t| - 1];
    forall i | 0 <= i < |s| ensures IsDigit(s[i]) || s[i] == '.' {
      if i < |a| { assert s[i] == a[i]; }
      else if i == |a| { }
      else if i < |a| + 1 + |b| { assert s[i] == b[i - |a| - 1]; }
      else if i == |a| + 1 + |b| { }
      else { assert s[i] == t[i - |a| - |b| - 2]; }
    }
  }

  /** Text of digits, dots and commas with a comma in it skips the fast path and reaches the separator logic unchanged. */
  lemma FixedTextAsIs(u: string)
    requires IsUnsignedText(u) && ',' in u
    ensures ParseNumericFixedText(u) == FixedUnsignedValue(u)
  {
    assert !IsSpace(u[0]) && !IsSpace(u[|u| - 1]);
    TrimOfNonSpaceEnds(u);
    assert !IsPlainDecimal(u) by { var i :| 0 <= i < |u| && u[i] == ','; assert !IsDigit(u[i]); }
    FilterCharsKeepsAll(u, IsNumericChar);
    assert forall i :: 0 <= i < |u| ==> u[i] != '-';
    RemoveAbsentChar(u, '-');
  }

  /** For text without `c` the other separator is the only non-digit, so removing it leaves the digits. */
  lemma {:induction false} RemoveOtherSeparator(x: string, c: char)
    requires IsSeparator(c) && IsUnsignedText(x) && c !in x
    ensures RemoveChar(x, OtherSeparator(c)) == DigitsOf(x)
  {
    if x != [] {
      assert x[0] != c;
      assert IsUnsignedText(x[1..]) by { assert forall i :: 0 <= i < |x| - 1 ==> x[1..][i] == x[i + 1]; }
      RemoveOtherSeparator(x[1..], c);
    }
  }

  /**
    With both separators and only digits after the later one, the two
    versions agree: the later separator is the decimal point and the other
    one is dropped, e.g. `1.234.567,89` and `1,234.56`.
  */
  lemma LaterSeparatorAgrees(x: string, c: char, f: string)
    requires IsSeparator(c) && IsUnsignedText(x) && OtherSeparator(c) in x && c !in x
    requires AllDigits(f)
    ensures ParseNumericFixedText(x + [c] + f) == DecimalValue(DigitsOf(x)) as real + FractionValue(f)
    ensures ParseNumericFixedText(x + [c] + f) == ParseNumericText(x + [c] + f)
  {
    var u := x + [c] + f;
    LaterSeparatorShape(x, c, f);
    FixedTextAsIs(u);
    FixedLaterSeparator(x, c, f);
    UnsignedTextAsIs(u);
    LaterSeparatorIsDecimal(x, c, f);
  }

  lemma LaterSeparatorShape(x: string, c: char, f: string)
    requires IsSeparator(c) && IsUnsignedText(x) && OtherSeparator(c) in x && c !in x
    requires AllDigits(f)
    ensures var u := x + [c] + f;
            u != [] && IsUnsignedText(u) && ',' in u && '.' in u
            && LastIndexOf(u, c) > LastIndexOf(u, OtherSeparator(c))
  {
    var u := x + [c] + f;
    var d := OtherSeparator(c);
    assert u[|x|] == c;
    assert d in u by { var i :| 0 <= i < |x| && x[i] == d; assert u[i] == d; }
    forall i | 0 <= i < |u| ensures IsDigit(u[i]) || IsSeparator(u[i]) {
      if i < |x| { assert u[i] == x[i]; } else if i > |x| { assert u[i] == f[i - |x| - 1]; }
    }
    assert LastIndexOf(u, c) == |x|;
    assert LastIndexOf(u, d) < |x|;
  }

  lemma FixedLaterSeparator(x: string, c: char, f: string)
    requires IsSeparator(c) && IsUnsignedText(x) && c !in x && AllDigits(f)
    requires var u := x + [c] + f; ',' in u && '.' in u && LastIndexOf(u, c) > LastIndexOf(u, OtherSeparator(c))
    ensures FixedUnsignedValue(x + [c] + f) == DecimalValue(DigitsOf(x)) as real + FractionValue(f)
  {
    var u := x + [c] + f;
    FixedNormalizedAtLater(u, c);
    SplitAtOnlySeparator(x, c, f);
    RemoveOtherSeparator(x, c);
    var ip := OrZeroText(DigitsOf(x));
    assert ip == OrZero(DigitsOf(x));
    ParseFloatOfParts(ip, f);
  }

  /** With both separators and `c` the later one, the text is split at `c`. */
  lemma FixedNormalizedAtLater(u: string, c: char)
    requires IsSeparator(c) && ',' in u && '.' in u && LastIndexOf(u, c) > LastIndexOf(u, OtherSeparator(c))
    ensures FixedNormalized(u)
         == Normalized(OrZeroText(RemoveChar(Split(u, c)[0], OtherSeparator(c))), Join(Split(u, c)[1..]))
  {
  }

  /** `x c f` with neither `x` nor `f` holding `c` splits into `x` and `f`. */
  lemma SplitAtOnlySeparator(x: string, c: char, f: string)
    requires c !in x && c !in f
    ensures Split(x + [c] + f, c)[0] == x
    ensures Join(Split(x + [c] + f, c)[1..]) == f
  {
    var u := x + [c] + f;
    SplitAtFirst(x, c, f);
    SplitTail(u, c);
    assert Split(f, c) == [f];
    assert Join([f]) == f by { assert [f][1..] == []; }
  }

  /** `1.234.567,89`: the dots group thousands and the comma is the decimal point. */
  lemma IndonesianMillions(a: string, b: string, t: string, f: string)
    requires a == "1" && b == "234" && t == "567" && f == "89"
    ensures ParseNumericFixedText(a + ['.'] + b + ['.'] + t + [','] + f) == 1234567.89
  {
    var x := a + ['.'] + b + ['.'] + t;
    assert x + [','] + f == a + ['.'] + b + ['.'] + t + [','] + f;
    assert x[|a|] == '.';
    ThreeGroupsDigits(a, '.', b, t);
    assert IsUnsignedText(x) by {
      forall i | 0 <= i < |x| ensures IsDigit(x[i]) || IsSeparator(x[i]) {
        if i < |a| { assert x[i] == a[i]; }
        else if i == |a| { }
        else if i < |a| + 1 + |b| { assert x[i] == b[i - |a| - 1]; }
        else if i == |a| + 1 + |b| { }
        else { assert x[i] == t[i - |a| - |b| - 2]; }
      }
    }
    assert a + b + t == "1234567";
    Value1234567();
    assert FractionValue("89") == 0.89 by { assert "89"[1..] == "9"; assert "9"[1..] == []; }
    LaterSeparatorAgrees(x, ',', f);
  }

  // ---------------------------------------------------------------------------
  // Where the two parsers disagree
  // ---------------------------------------------------------------------------

  /**
    Dot-grouped thousands: the endpoint drops the dots, while this version's
    fast path lets `parseFloat` stop at the second dot.
  */
  lemma DotGroupingDisagrees(a: string, b: string, t: string)
    requires a != [] && AllDigits(a) && AllDigits(b) && AllDigits(t) && |t| == 3
    ensures ParseNumericText(a + ['.'] + b + ['.'] + t) == DecimalValue(a + b + t) as real
    ensures ParseNumericFixedText(a + ['.'] + b + ['.'] + t) == DecimalValue(a) as real + FractionValue(b)
  {
    var s := a + ['.'] + b + ['.'] + t;
    TwoDotsArePlain(a, b, t);
    assert IsUnsignedText(s);
    UnsignedTextAsIs(s);
    ThreeGroups(a, '.', b, t);
    FastPathReadsFirstDot(a, b, t);
  }

  /** `1.500.000` is 1500000 for the endpoint and 1.5 for this version. */
  lemma OnePointFiveMillion(a: string, b: string, t: string)
    requires a == "1" && b == "500" && t == "000"
    ensures ParseNumericText(a + ['.'] + b + ['.'] + t) == 1500000.0
    ensures ParseNumericFixedText(a + ['.'] + b + ['.'] + t) == 1.5
  {
    assert a + b + t == "1500000";
    Value1500000();
    ValueOneAndHalf();
    DotGroupingDisagrees(a, b, t);
  }

  lemma ValueOneAndHalf()
    ensures DecimalValue("1") == 1 && FractionValue("500") == 0.5
  {
    assert "1"[..0] == [];
    assert "500"[1..] == "00"; assert "00"[1..] == "0"; assert "0"[1..] == [];
  }

  /** Splitting `a c b c t` at `c`, none of the groups holding a `c`. */
  lemma SplitThree(a: string, c: char, b: string, t: string)
    requires c !in a && c !in b && c !in t
    ensures Split(a + [c] + b + [c] + t, c) == [a, b, t]
  {
    var rest := b + [c] + t;
    assert a + [c] + b + [c] + t == a + [c] + rest;
    SplitAtFirst(a, c, rest);
    SplitAtFirst(b, c, t);
    assert Split(t, c) == [t];
  }

  /**
    Two commas with a short last group: the endpoint takes the first comma
    as the decimal point, while this version requires exactly one comma and
    otherwise drops them all.
  */
  lemma CommaGroupsDisagree(a: string, b: string, f: string)
    requires a != [] && AllDigits(a) && AllDigits(b) && AllDigits(f) && 1 <= |f| <= 2
    ensures ParseNumericText(a + [','] + b + [','] + f) == DecimalValue(a) as real + FractionValue(b + f)
    ensures ParseNumericFixedText(a + [','] + b + [','] + f) == DecimalValue(a + b + f) as real
  {
    var u := a + [','] + b + [','] + f;
    CommaGroupsShape(a, b, f);
    UnsignedTextAsIs(u);
    RouteCommaGroups(a, b, f);
    FixedTextAsIs(u);
    FixedCommaGroups(a, b, f);
  }

  lemma CommaGroupsShape(a: string, b: string, f: string)
    requires AllDigits(a) && AllDigits(b) && AllDigits(f)
    ensures var u := a + [','] + b + [','] + f;
            u != [] && ',' in u && '.' !in u && IsUnsignedText(u)
            && forall i :: 0 <= i < |u| ==> IsDigit(u[i]) || u[i] == ','
  {
    var u := a + [','] + b + [','] + f;
    assert u[|a|] == ',';
    forall i | 0 <= i < |u| ensures IsDigit(u[i]) || u[i] == ',' {
      if i < |a| { assert u[i] == a[i]; }
      else if i == |a| { }
      else if i < |a| + 1 + |b| { assert u[i] == b[i - |a| - 1]; }
      else if i == |a| + 1 + |b| { }
      else { assert u[i] == f[i - |a| - |b| - 2]; }
    }
  }

  lemma RouteCommaGroups(a: string, b: string, f: string)
    requires a != [] && AllDigits(a) && AllDigits(b) && AllDigits(f) && 1 <= |f| <= 2
    requires '.' !in a + [','] + b + [','] + f
    ensures UnsignedValue(a + [','] + b + [','] + f) == DecimalValue(a) as real + FractionValue(b + f)
  {
    var rest := b + [','] + f;
    var u := a + [','] + b + [','] + f;
    CommaGroupsAt(a, b, f);
    CommaOnlyShortGroup(a + [','] + b, f);
    assert ',' !in a;
    SplitAtFirst(a, ',', rest);
    DigitsOfGrouped(b, ',', f);
    DigitsOfNoSeparator(a);
    PartsAtFirst(u, ',', a, rest, b + f);
  }

  /** The two ways of grouping `a , b , f`. */
  lemma CommaGroupsAt(a: string, b: string, f: string)
    ensures a + [','] + b + [','] + f == a + [','] + (b + [','] + f)
  {
  }

  /** The parts read at a decimal separator `c` with `before` before its first occurrence and the digits `frac` after it. */
  lemma PartsAtFirst(u: string, c: char, before: string, after: string, frac: string)
    requires DecimalSeparator(u) == Some(c)
    requires before != [] && AllDigits(before) && DigitsOf(before) == before
    requires BeforeFirst(u, c) == before && AfterFirst(u, c) == after && DigitsOf(after) == frac
    ensures Parts(u) == (before, frac)
  {
  }

  lemma CommaOnlyShortGroup(x: string, f: string)
    requires AllDigits(f) && 1 <= |f| <= 2 && '.' !in x + [','] + f
    ensures DecimalSeparator(x + [','] + f) == Some(',')
  {
    assert ',' !in f;
    SplitAtLast(x, ',', f);
    assert ',' in x + [','] + f by { assert (x + [','] + f)[|x|] == ','; }
  }

  lemma DigitsOfNoSeparator(a: string)
    requires AllDigits(a)
    ensures DigitsOf(a) == a
  {
    DigitsOfConcat(a, []);
    assert a + [] == a;
  }

  lemma JoinThree(a: string, b: string, f: string)
    ensures Join([a, b, f]) == a + b + f
  {
    assert [a, b, f][1..] == [b, f];
    assert [b, f][1..] == [f];
    assert [f][1..] == [];
    assert Join([f]) == f;
    assert Join([b, f]) == b + f;
  }

  lemma FixedCommaGroups(a: string, b: string, f: string)
    requires a != [] && AllDigits(a) && AllDigits(b) && AllDigits(f)
    requires '.' !in a + [','] + b + [','] + f
    ensures FixedUnsignedValue(a + [','] + b + [','] + f) == DecimalValue(a + b + f) as real
  {
    var u := a + [','] + b + [','] + f;
    assert ',' in u by { assert u[|a|] == ','; }
    assert ',' !in a && ',' !in b && ',' !in f;
    SplitThree(a, ',', b, f);
    JoinThree(a, b, f);
    assert FixedNormalized(u) == a + b + f;
    ParseFloatInteger(a + b + f);
  }

  /** One comma before one or two digits is the decimal point in both versions, e.g. `1234,56`. */
  lemma CommaDecimalAgrees(x: string, f: string)
    requires x != [] && AllDigits(x) && AllDigits(f) && 1 <= |f| <= 2
    ensures ParseNumericFixedText(x + [','] + f) == DecimalValue(x) as real + FractionValue(f)
    ensures ParseNumericFixedText(x + [','] + f) == ParseNumericText(x + [','] + f)
  {
    var u := x + [','] + f;
    CommaTextShape(x, f);
    FixedTextAsIs(u);
    FixedCommaDecimal(x, f);
    UnsignedTextAsIs(u);
    ShortLastGroupIsDecimal(x, ',', f);
  }

  lemma CommaTextShape(x: string, f: string)
    requires AllDigits(x) && AllDigits(f)
    ensures var u := x + [','] + f;
            u != [] && ',' in u && '.' !in u && IsUnsignedText(u)
  {
    var u := x + [','] + f;
    assert u[|x|] == ',';
    forall i | 0 <= i < |u| ensures IsDigit(u[i]) || u[i] == ',' {
      if i < |x| { assert u[i] == x[i]; } else if i > |x| { assert u[i] == f[i - |x| - 1]; }
    }
  }

  lemma FixedCommaDecimal(x: string, f: string)
    requires x != [] && AllDigits(x) && AllDigits(f) && |f| <= 2
    requires '.' !in x + [','] + f
    ensures FixedUnsignedValue(x + [','] + f) == DecimalValue(x) as real + FractionValue(f)
  {
    var u := x + [','] + f;
    assert ',' in u by { assert u[|x|] == ','; }
    assert ',' !in x && ',' !in f;
    SplitAtFirst(x, ',', f);
    SplitTail(u, ',');
    assert Split(f, ',') == [f];
    assert Split(u, ',') == [x, f];
    assert FixedNormalized(u) == x + "." + f;
    assert x + "." + f == x + ("." + f);
    ParseFloatDecimal(x, f);
  }

  // ===========================================================================
  // processSalesDataFixed
  // ===========================================================================

  /** One record as `processSalesDataFixed` builds it: numeric grand total, unrounded units and the area. */
  datatype FixedRecord = FixedRecord(
    grandTotal: real,
    week: int,
    date: CalendarDate,
    product: Cell,
    category: Cell,
    customerNo: Cell,
    customer: Cell,
    customerType: Cell,
    salesman: Cell,
    village: Cell,
    district: Cell,
    city: Cell,
    area: Option<string>,
    unitsBks: real,
    unitsSlop: real,
    unitsBal: real,
    unitsDos: real,
    omzet: real)

  /** `selectedArea || null`: an absent or empty area is stored as null. */
  function AreaOf(selectedArea: Option<string>): (r: Option<string>)
    ensures r.Some? <==> selectedArea.Some? && selectedArea.value != []
    ensures r.Some? ==> r == selectedArea
  {
    match selectedArea
    case Some(a) => if a != [] then Some(a) else None
    case None => None
  }

  /** The record fields of a row whose week and corrected date are known. */
  function BuildFixedRecord(row: Row, week: int, date: CalendarDate, selectedArea: Option<string>): FixedRecord {
    FixedRecord(
      grandTotal := ParseNumericFixed(Get(row, "Grand Total")),
      week := week,
      date := date,
      product := Either(row, "Produk", "Product"),
      category := Either(row, "Kategori", "Category"),
      customerNo := Either(row, "No. Customer", "Customer No"),
      customer := Field(row, "Customer"),
      customerType := Either(row, "Tipe Customer", "Customer Type"),
      salesman := Field(row, "Salesman"),
      village := Either(row, "Desa", "Village"),
      district := Either(row, "Kecamatan", "District"),
      city := Either(row, "Kota", "City"),
      area := AreaOf(selectedArea),
      unitsBks := ParseNumericFixed(Get(row, "Jual (Bks Net)")),
      unitsSlop := ParseNumericFixed(Get(row, "Jual (Slop Net)")),
      unitsBal := ParseNumericFixed(Get(row, "Jual (Bal Net)")),
      unitsDos := ParseNumericFixed(Get(row, "Jual (Dos Net)")),
      omzet := ParseNumericFixed(Get(row, "Omzet (Nett)")))
  }

  /**
    One pass of the loop body of `processSalesDataFixed`: the record, or why
    the row is skipped. A truthy non-text `Minggu` still throws; the date
    cell no longer does, since a non-text non-date value gives `null`.
  */
  function ProcessRowFixed(row: Row, selectedArea: Option<string>, host: string -> Option<CalendarDate>): (r: Result<FixedRecord, Rejection>)
    ensures r.Ok? <==>
              |row| > 0
              && !(Truthy(Get(row, "Minggu")) && !Get(row, "Minggu").Str?)
              && CorrectedDate(RawDate(row), WeekOf(Get(row, "Minggu")).value, host).Some?
              && Truthy(Either(row, "Produk", "Product")) && Truthy(Get(row, "Customer"))
    ensures r.Ok? ==> r.value.week == WeekOf(Get(row, "Minggu")).value
                      && r.value.date == CorrectedDate(RawDate(row), r.value.week, host).value
                      && r.value == BuildFixedRecord(row, r.value.week, r.value.date, selectedArea)
  {
    if |row| == 0 then Err(EmptyRow)
    else match WeekOf(Get(row, "Minggu"))
      case Err(e) => Err(e)
      case Ok(week) =>
        match CorrectedDate(RawDate(row), week, host)
        case None => Err(NoDate)
        case Some(date) =>
          var record := BuildFixedRecord(row, week, date, selectedArea);
          if Truthy(record.product) && Truthy(record.customer) then Ok(record)
          else Err(MissingProductOrCustomer)
  }

  function FixedStep(selectedArea: Option<string>, host: string -> Option<CalendarDate>): Row -> Result<FixedRecord, Rejection> {
    row => ProcessRowFixed(row, selectedArea, host)
  }

  /** The records `processSalesDataFixed` returns: the accepted rows' records in input order. */
  function KeptFixed(rows: seq<Row>, selectedArea: Option<string>, host: string -> Option<CalendarDate>): seq<FixedRecord> {
    Keep(rows, FixedStep(selectedArea, host))
  }

  /**
    `processSalesDataFixed`: one pass over the rows, parsing each date into
    a fresh corrected `Date` and pushing the record of each accepted row.
  */
  method ProcessSalesDataFixed(data: seq<Row>, selectedArea: Option<string>, host: string -> Option<CalendarDate>)
    returns (processed: seq<FixedRecord>)
    ensures processed == KeptFixed(data, selectedArea, host)
  {
    processed := [];
    for i := 0 to |data|
      invariant processed == Keep(data[..i], FixedStep(selectedArea, host))
    {
      assert data[..i + 1][..i] == data[..i];
      var row := data[i];
      assert FixedStep(selectedArea, host)(row) == ProcessRowFixed(row, selectedArea, host);
      var week := WeekOf(Get(row, "Minggu"));
      if |row| > 0 && week.Ok? {
        var parsedDate := ParseSalesDateWithCorrection(RawDate(row), week.value, host);
        if parsedDate != null {
          var record := BuildFixedRecord(row, week.value, parsedDate.time, selectedArea);
          if Truthy(record.product) && Truthy(record.customer) {
            processed := processed + [record];
          }
        }
      }
    }
    assert data[..|data|] == data;
  }

  /** Every record carries the selected area, or none when it is absent or empty, and has a product, a customer and a week. */
  lemma KeptFixedCarryArea(rows: seq<Row>, selectedArea: Option<string>, host: string -> Option<CalendarDate>)
    ensures forall rec :: rec in KeptFixed(rows, selectedArea, host) ==>
              rec.area == AreaOf(selectedArea) && Truthy(rec.product) && Truthy(rec.customer) && rec.week != 0
  {
    forall rec | rec in KeptFixed(rows, selectedArea, host)
      ensures rec.area == AreaOf(selectedArea) && Truthy(rec.product) && Truthy(rec.customer) && rec.week != 0
    {
      KeepMembers(rows, FixedStep(selectedArea, host), rec);
      var i :| 0 <= i < |rows| && FixedStep(selectedArea, host)(rows[i]) == Ok(rec);
      assert ProcessRowFixed(rows[i], selectedArea, host) == Ok(rec);
    }
  }

  /** The output is an order-preserving subsequence of the input, as in the endpoint. */
  lemma KeptFixedIsSubsequence(rows: seq<Row>, selectedArea: Option<string>, host: string -> Option<CalendarDate>)
    ensures var idx := OkIndices(rows, FixedStep(selectedArea, host));
            |KeptFixed(rows, selectedArea, host)| == |idx|
            && (forall k, l :: 0 <= k < l < |idx| ==> idx[k] < idx[l])
            && (forall i :: 0 <= i < |rows| ==> (i in idx <==> ProcessRowFixed(rows[i], selectedArea, host).Ok?))
            && (forall k :: 0 <= k < |idx| ==> ProcessRowFixed(rows[idx[k]], selectedArea, host) == Ok(KeptFixed(rows, selectedArea, host)[k]))
  {
    KeepIsSubsequence(rows, FixedStep(selectedArea, host));
    assert forall i :: 0 <= i < |rows| ==> FixedStep(selectedArea, host)(rows[i]) == ProcessRowFixed(rows[i], selectedArea, host);
  }

  /**
    With a text date both versions keep the same rows, and the kept record's
    date is the endpoint's date corrected once for the week.
  */
  lemma TextDateRowsAgree(row: Row, selectedArea: Option<string>, host: string -> Option<CalendarDate>)
    requires RawDate(row).Str?
    ensures ProcessRowFixed(row, selectedArea, host).Ok? <==> ProcessRow(row, host).Ok?
    ensures ProcessRow(row, host).Ok? ==>
              ProcessRowFixed(row, selectedArea, host).value.date
                == Correct(ProcessRow(row, host).value.week, ProcessRow(row, host).value.date)
  {
    var week := WeekOf(Get(row, "Minggu"));
    if week.Ok? {
      CorrectedTextIsCorrectedRouteDate(RawDate(row).s, week.value, host);
    }
  }

  /**
    A native spreadsheet date is rejected by the endpoint (its `replace`
    throws) but accepted here, corrected for the week.
  */
  lemma NativeDateRows(row: Row, selectedArea: Option<string>, host: string -> Option<CalendarDate>)
    requires RawDate(row).DateCell?
    ensures ProcessRow(row, host).Err?
    ensures ProcessRowFixed(row, selectedArea, host).Ok? <==>
              |row| > 0 && !(Truthy(Get(row, "Minggu")) && !Get(row, "Minggu").Str?)
              && Truthy(Either(row, "Produk", "Product")) && Truthy(Get(row, "Customer"))
    ensures ProcessRowFixed(row, selectedArea, host).Ok? ==>
              ProcessRowFixed(row, selectedArea, host).value.date == Correct(WeekOf(Get(row, "Minggu")).value, RawDate(row).d)
  {
  }

  /** Units are no longer rounded and the grand total is read as a number: 2.5 packs stay 2.5 here and become 3 at the endpoint. */
  lemma UnitsNotRounded(row: Row, selectedArea: Option<string>, host: string -> Option<CalendarDate>)
    requires ProcessRow(row, host).Ok? && ProcessRowFixed(row, selectedArea, host).Ok?
    requires Get(row, "Jual (Bks Net)") == Num(2.5) && Get(row, "Grand Total") == Num(10.0)
    ensures ProcessRowFixed(row, selectedArea, host).value.unitsBks == 2.5
    ensures ProcessRow(row, host).value.unitsBks == 3
    ensures ProcessRowFixed(row, selectedArea, host).value.grandTotal == 10.0
    ensures ProcessRow(row, host).value.grandTotal == Num(10.0)
  {
  }
}
