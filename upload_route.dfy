/**
  The upload endpoint (`app/api/upload/route.ts`): reading numbers and dates
  out of spreadsheet cells written the Indonesian or the English way,
  turning each header-keyed row into a sales record, keeping only the valid
  ones in order, and the endpoint's decision on the batch.
*/
module UploadRoute {
  import opened Wrappers
  import opened JsText
  import opened Calendar
  import opened Cells
  import opened DateText
  import opened Filtering

  // ===========================================================================
  // parseNumericValue
  // ===========================================================================

  /** The characters the sanitising step keeps: `[0-9.,\-]`. */
  predicate IsNumericChar(c: char) { IsDigit(c) || c == '.' || c == ',' || c == '-' }

  predicate IsSeparator(c: char) { c == '.' || c == ',' }

  /** The other of the two separators. */
  function OtherSeparator(c: char): char { if c == ',' then '.' else ',' }

  /** Text made of digits, dots and commas only. */
  predicate IsUnsignedText(u: string) {
    forall i :: 0 <= i < |u| ==> IsDigit(u[i]) || IsSeparator(u[i])
  }

  /** `x || '0'` for a digit string. */
  function OrZero(ds: string): (r: string)
    requires AllDigits(ds)
    ensures r != [] && AllDigits(r) && DecimalValue(r) == DecimalValue(ds)
  {
    if ds == [] then assert "0"[..0] == []; "0" else ds
  }

  /**
    Which separator, if any, `u` uses as its decimal point. When both occur
    the one that occurs last is decimal; when one occurs it is decimal only
    if the group after its last occurrence has one or two characters.
  */
  function DecimalSeparator(u: string): (r: Option<char>)
    ensures r.Some? ==> IsSeparator(r.value) && r.value in u
  {
    var hasComma := ',' in u;
    var hasDot := '.' in u;
    if hasComma && hasDot then
      Some(if LastIndexOf(u, ',') > LastIndexOf(u, '.') then ',' else '.')
    else if hasComma then
      var n := |AfterLast(u, ',')|;
      if 0 < n <= 2 then Some(',') else None
    else if hasDot then
      var n := |AfterLast(u, '.')|;
      if 0 < n <= 2 then Some('.') else None
    else None
  }

  /**
    The integer and fraction digits the route assembles: with a decimal
    separator, the dots and commas are removed from the text before its first
    occurrence and from the text after it; without one they are removed from
    all of it. An empty integer part is `0`.
  */
  function Parts(u: string): (r: (string, string))
    ensures r.0 != [] && AllDigits(r.0) && AllDigits(r.1)
  {
    match DecimalSeparator(u)
    case Some(c) => (OrZero(DigitsOf(BeforeFirst(u, c))), DigitsOf(AfterFirst(u, c)))
    case None => (OrZero(DigitsOf(u)), "")
  }

  /** The text `parseFloat` is given: `int.frac`, or `int` when there is no fraction digit. */
  function Normalized(ip: string, fp: string): string {
    if fp == [] then ip else ip + ("." + fp)
  }

  /**
    The value of the assembled text. The route reads it with `parseFloat`
    and would use 0 for a non-finite result; `ParseFloatOfParts` shows
    that `parseFloat` reads it as exactly this value.
  */
  function UnsignedValue(u: string): (r: real)
    ensures r >= 0.0
  {
    DecimalValue(Parts(u).0) as real + FractionValue(Parts(u).1)
  }

  /**
    `parseFloat` reads the assembled `int` or `int.frac` text (the integer
    digits, never empty, and the fraction digits of `Parts`) as a finite
    number: exactly the unsigned value.
  */
  lemma ParseFloatOfParts(ip: string, fp: string)
    requires ip != [] && AllDigits(ip) && AllDigits(fp)
    ensures ParseFloat(Normalized(ip, fp)) == Some(DecimalValue(ip) as real + FractionValue(fp))
  {
    if fp == [] {
      ParseFloatOfWhole(ip, fp);
    } else {
      ParseFloatOfFraction(ip, fp);
    }
  }

  lemma ParseFloatOfWhole(ip: string, fp: string)
    requires ip != [] && AllDigits(ip) && fp == []
    ensures ParseFloat(Normalized(ip, fp)) == Some(DecimalValue(ip) as real + FractionValue(fp))
  {
    ParseFloatInteger(ip);
  }

  lemma ParseFloatOfFraction(ip: string, fp: string)
    requires ip != [] && AllDigits(ip) && AllDigits(fp) && fp != []
    ensures ParseFloat(Normalized(ip, fp)) == Some(DecimalValue(ip) as real + FractionValue(fp))
  {
    ParseFloatDecimal(ip, fp);
  }

  /** The digits, dots and commas of the trimmed text, without its minus signs. */
  function UnsignedText(s: string): (u: string)
    ensures IsUnsignedText(u)
  {
    var sanitized := FilterChars(Trim(s), IsNumericChar);
    var u := RemoveChar(sanitized, '-');
    assert forall i :: 0 <= i < |u| ==> u[i] in sanitized && u[i] != '-';
    u
  }

  /**
    `parseNumericValue` on text: 0 for blank text; otherwise the value of the
    digits and separators, negated when a minus sign occurs anywhere.
  */
  function ParseNumericText(s: string): (r: real)
    ensures IsBlank(s) ==> r == 0.0
    ensures '-' !in s ==> r >= 0.0
  {
    TrimEmptyIffBlank(s);
    var trimmed := Trim(s);
    if trimmed == [] then 0.0
    else
      var sanitized := FilterChars(trimmed, IsNumericChar);
      var negative := '-' in sanitized;
      MinusSurvivesTrim(s);
      var magnitude := UnsignedValue(UnsignedText(s));
      if negative then -magnitude else magnitude
  }

  lemma MinusSurvivesTrim(s: string)
    ensures '-' in FilterChars(Trim(s), IsNumericChar) <==> '-' in s
  {
    FilterCharsOfTrim(s, IsNumericChar);
  }

  /**
    `parseNumericValue`: a number cell is returned as it is, text is parsed,
    and every other cell (date, boolean, object, missing) gives 0.
  */
  function ParseNumericValue(raw: Cell): (r: real)
    ensures raw.Num? ==> r == raw.n
    ensures !raw.Num? && !raw.Str? ==> r == 0.0
    ensures raw.Str? && IsBlank(raw.s) ==> r == 0.0
  {
    match raw
    case Num(n) => n
    case Str(s) => ParseNumericText(s)
    case _ => 0.0
  }

  /** The three outcomes of `ParseNumericText`, with the trimming taken out. */
  lemma NumericTextCases(s: string)
    ensures IsBlank(s) ==> ParseNumericText(s) == 0.0
    ensures !IsBlank(s) && '-' in s ==> ParseNumericText(s) == -UnsignedValue(UnsignedText(s))
    ensures !IsBlank(s) && '-' !in s ==> ParseNumericText(s) == UnsignedValue(UnsignedText(s))
  {
    TrimEmptyIffBlank(s);
    MinusSurvivesTrim(s);
  }

  /** Trimming does not change which digits and separators are read. */
  lemma UnsignedTextUntrimmed(s: string)
    ensures UnsignedText(s) == RemoveChar(FilterChars(s, IsNumericChar), '-')
  {
    FilterCharsOfTrim(s, IsNumericChar);
  }

  /** No digit and no separator reads as 0. */
  lemma UnsignedValueOfEmpty()
    ensures UnsignedValue([]) == 0.0
  {
    assert Parts([]) == ("0", "");
    assert DecimalValue("0") == 0 by { assert "0"[..0] == []; }
  }

  /** Minus signs do not reach the separator logic. */
  lemma MinusIgnoredByUnsignedText(s: string)
    ensures UnsignedText(RemoveChar(s, '-')) == UnsignedText(s)
  {
    var all := FilterChars(s, IsNumericChar);
    UnsignedTextUntrimmed(s);
    UnsignedTextUntrimmed(RemoveChar(s, '-'));
    RemoveCharFilterChars(s, '-', IsNumericChar);
    RemoveAbsentChar(RemoveChar(all, '-'), '-');
  }

  lemma BlankWithoutMinus(s: string)
    requires IsBlank(RemoveChar(s, '-'))
    ensures UnsignedText(s) == []
  {
    var t := RemoveChar(s, '-');
    UnsignedTextUntrimmed(s);
    RemoveCharFilterChars(s, '-', IsNumericChar);
    FilterCharsOfBlank(t, IsNumericChar);
    assert RemoveChar(FilterChars(s, IsNumericChar), '-') == FilterChars(t, IsNumericChar);
  }

  /** A minus sign anywhere negates the value the text has without its minus signs. */
  lemma MinusNegates(s: string)
    requires '-' in s
    ensures ParseNumericText(s) == -ParseNumericText(RemoveChar(s, '-'))
  {
    var t := RemoveChar(s, '-');
    assert !IsBlank(s) by { assert exists i :: 0 <= i < |s| && s[i] == '-'; }
    NumericTextCases(s);
    NumericTextCases(t);
    MinusIgnoredByUnsignedText(s);
    if IsBlank(t) {
      BlankWithoutMinus(s);
      UnsignedValueOfEmpty();
    }
  }

  /** Text of digits, dots and commas reaches the separator logic unchanged. */
  lemma UnsignedTextAsIs(u: string)
    requires u != [] && IsUnsignedText(u)
    ensures ParseNumericText(u) == UnsignedValue(u)
  {
    assert !IsBlank(u) by { assert !IsSpace(u[0]); }
    assert forall i :: 0 <= i < |u| ==> u[i] != '-';
    NumericTextCases(u);
    UnsignedTextUntrimmed(u);
    FilterCharsKeepsAll(u, IsNumericChar);
    RemoveAbsentChar(u, '-');
  }

  /**
    Whichever separator is chosen as the decimal point, its first occurrence
    splits the text: the dots and commas before it are dropped from the
    integer part and those after it from the fraction, e.g. `1,2.3,4` reads
    1.234 and `1,234,56` reads 1.23456.
  */
  lemma FirstOccurrenceIsDecimal(x: string, c: char, y: string)
    requires c !in x && DecimalSeparator(x + [c] + y) == Some(c)
    ensures UnsignedValue(x + [c] + y) == DecimalValue(OrZero(DigitsOf(x))) as real + FractionValue(DigitsOf(y))
  {
    SplitAtFirst(x, c, y);
  }

  /**
    Both separators, the later one occurring once: it is the decimal point
    and every other separator is dropped, e.g. `1.234.567,89` and `1,234.56`.
  */
  lemma LaterSeparatorIsDecimal(x: string, c: char, f: string)
    requires IsSeparator(c) && IsUnsignedText(x) && OtherSeparator(c) in x && c !in x
    requires AllDigits(f)
    ensures UnsignedValue(x + [c] + f) == DecimalValue(DigitsOf(x)) as real + FractionValue(f)
  {
    var u := x + [c] + f;
    var d := OtherSeparator(c);
    assert u[|x|] == c;
    assert d in u by { var i :| 0 <= i < |x| && x[i] == d; assert u[i] == d; }
    assert forall i :: |x| < i < |u| ==> IsDigit(u[i]) by {
      forall i | |x| < i < |u| ensures IsDigit(u[i]) { assert u[i] == f[i - |x| - 1]; }
    }
    assert LastIndexOf(u, c) == |x|;
    assert LastIndexOf(u, d) < |x|;
    assert DecimalSeparator(u) == Some(c);
    SplitAtFirst(x, c, f);
  }

  /**
    One separator, occurring once, with a last group of one or two digits:
    it is the decimal point, e.g. `1234,56`.
  */
  lemma ShortLastGroupIsDecimal(x: string, c: char, f: string)
    requires IsSeparator(c) && AllDigits(x) && AllDigits(f) && 1 <= |f| <= 2
    ensures UnsignedValue(x + [c] + f) == DecimalValue(x) as real + FractionValue(f)
  {
    var u := x + [c] + f;
    var d := OtherSeparator(c);
    assert forall i :: 0 <= i < |u| && i != |x| ==> IsDigit(u[i]) by {
      forall i | 0 <= i < |u| && i != |x| ensures IsDigit(u[i]) {
        if i < |x| { assert u[i] == x[i]; } else { assert u[i] == f[i - |x| - 1]; }
      }
    }
    assert d !in u;
    assert c !in f;
    SplitAtLast(x, c, f);
    assert DecimalSeparator(u) == Some(c);
    SplitAtFirst(x, c, f);
  }

  /**
    One separator whose last group is empty or has three or more
    characters: it groups thousands and every separator is dropped, e.g.
    `1.500.000` and `1,234,567`.
  */
  lemma LongLastGroupIsGrouping(u: string, c: char)
    requires IsSeparator(c) && c in u
    requires forall i :: 0 <= i < |u| ==> IsDigit(u[i]) || u[i] == c
    requires |AfterLast(u, c)| == 0 || |AfterLast(u, c)| > 2
    ensures UnsignedValue(u) == DecimalValue(DigitsOf(u)) as real
  {
    assert OtherSeparator(c) !in u;
    assert DecimalSeparator(u) == None;
    assert Parts(u) == (OrZero(DigitsOf(u)), "");
  }

  // ===========================================================================
  // parseSalesDate
  // ===========================================================================

  /**
    `parseSalesDate` on text, with the host's `new Date(text)` as `host`
    (`None` for an invalid date). After the pre-processing the host parser is
    tried first, then D/M/Y, then Y/M/D.
  */
  function ParseSalesDate(raw: string, host: string -> Option<CalendarDate>): (r: Option<CalendarDate>)
    ensures IsBlank(StripQuotes(raw)) ==> r.None?
    ensures r.None? <==>
              Normalize(raw).None?
              || (host(Normalize(raw).value).None? && MatchDmy(Normalize(raw).value).None? && MatchYmd(Normalize(raw).value).None?)
    ensures Normalize(raw).Some? && host(Normalize(raw).value).Some? ==> r == host(Normalize(raw).value)
  {
    match Normalize(raw)
    case None => None
    case Some(n) => ParseNormalized(n, host)
  }

  /** The three attempts on the pre-processed text `n`. */
  function ParseNormalized(n: string, host: string -> Option<CalendarDate>): Option<CalendarDate> {
    if host(n).Some? then host(n)
    else match MatchDmy(n)
      case Some((dd, mm, yy)) => Some(DmyDate(dd, mm, yy))
      case None =>
        match MatchYmd(n)
        case Some((yy, mm, dd)) => Some(YmdDate(yy, mm, dd))
        case None => None
  }

  /**
    When the host parser gives up on `dd/mm/yyyy` or `dd/mm/yy` (`/` or `-`),
    the day comes first; `DmyDate` reads a two-digit year in the 2000s.
  */
  lemma DayFirstFallback(dd: string, s1: char, mm: string, s2: char, yy: string, host: string -> Option<CalendarDate>)
    requires DigitRun(dd, 1, 2) && DigitRun(mm, 1, 2) && DigitRun(yy, 2, 4)
    requires IsDateSeparator(s1) && IsDateSeparator(s2)
    requires host(dd + [s1] + mm + [s2] + yy).None?
    ensures ParseSalesDate(dd + [s1] + mm + [s2] + yy, host) == Some(DmyDate(dd, mm, yy))
  {
    var s := dd + [s1] + mm + [s2] + yy;
    NumericDateText(dd, s1, mm, s2, yy);
    MatchDatePartsOf(dd, s1, mm, s2, yy, 1, 2, 1, 2, 2, 4);
    DmyAfterHost(s, host);
  }

  lemma DmyAfterHost(s: string, host: string -> Option<CalendarDate>)
    requires Normalize(s) == Some(s) && host(s).None? && MatchDmy(s).Some?
    ensures ParseSalesDate(s, host) == Some(DmyDate(MatchDmy(s).value.0, MatchDmy(s).value.1, MatchDmy(s).value.2))
  {
  }

  /** `yyyy/mm/dd` (or `-`) that the host parser rejects is read year first. */
  lemma YearFirstFallback(yy: string, s1: char, mm: string, s2: char, dd: string, host: string -> Option<CalendarDate>)
    requires DigitRun(yy, 4, 4) && DigitRun(mm, 1, 2) && DigitRun(dd, 1, 2)
    requires IsDateSeparator(s1) && IsDateSeparator(s2)
    requires host(yy + [s1] + mm + [s2] + dd).None?
    ensures ParseSalesDate(yy + [s1] + mm + [s2] + dd, host) == Some(YmdDate(yy, mm, dd))
  {
    NumericDateText(yy, s1, mm, s2, dd);
    MatchDatePartsOf(yy, s1, mm, s2, dd, 4, 4, 1, 2, 1, 2);
    DmyAndYmdExclusive(yy + [s1] + mm + [s2] + dd);
  }

  /** Three digit groups joined by `/` or `-` pass the pre-processing unchanged. */
  lemma NumericDateText(a: string, s1: char, b: string, s2: char, c: string)
    requires a != [] && b != [] && c != [] && AllDigits(a) && AllDigits(b) && AllDigits(c)
    requires IsDateSeparator(s1) && IsDateSeparator(s2)
    ensures Normalize(a + [s1] + b + [s2] + c) == Some(a + [s1] + b + [s2] + c)
  {
    var s := a + [s1] + b + [s2] + c;
    assert s[0] == a[0] && s[|s| - 1] == c[|c| - 1];
    assert forall i :: 0 <= i < |s| ==> IsDigit(s[i]) || IsDateSeparator(s[i]) || s[i] == '.' by {
      forall i | 0 <= i < |s| ensures IsDigit(s[i]) || IsDateSeparator(s[i]) || s[i] == '.' {
        if i < |a| { assert s[i] == a[i]; }
        else if i == |a| { assert s[i] == s1; }
        else if i < |a| + 1 + |b| { assert s[i] == b[i - |a| - 1]; }
        else if i == |a| + 1 + |b| { assert s[i] == s2; }
        else { assert s[i] == c[i - |a| - |b| - 2]; }
      }
    }
    NormalizeNumeric(s);
  }

  // ===========================================================================
  // processSalesData
  // ===========================================================================

  /** Why `processSalesData` leaves a row out. */
  datatype Rejection =
    | EmptyRow                  // a row without any column
    | WeekNotText               // `Minggu` holds a truthy non-string: `startsWith` throws
    | DateNotText               // the date cell is a truthy non-string: `replace` throws
    | NoDate                    // the date text parses in none of the three ways
    | MissingProductOrCustomer  // product or customer is falsy

  /** `n || 1` for the result of `parseInt`: NaN and 0 become 1. */
  function OrOne(n: Option<int>): (w: int)
    ensures w != 0
    ensures n.Some? && n.value != 0 ==> w == n.value
  {
    match n
    case Some(v) => if v != 0 then v else 1
    case None => 1
  }

  /**
    The week of a row: the number after a leading `W`, or the number the text
    starts with, and 1 when there is none or it is 0. A truthy `Minggu` that
    is not text makes `startsWith` throw.
  */
  function WeekOf(minggu: Cell): (r: Result<int, Rejection>)
    ensures r.Err? <==> Truthy(minggu) && !minggu.Str?
    ensures r.Ok? ==> r.value != 0
    ensures !Truthy(minggu) ==> r == Ok(1)
  {
    match Or(minggu, Str(""))
    case Str(s) =>
      if |s| > 0 && s[0] == 'W' then Ok(OrOne(ParseInt(s[1..]))) else Ok(OrOne(ParseInt(s)))
    case _ => Err(WeekNotText)
  }

  /** `W` followed by digits is that week number, `W0` aside. */
  lemma WeekFromLabel(ds: string)
    requires ds != [] && AllDigits(ds) && DecimalValue(ds) != 0
    ensures WeekOf(Str("W" + ds)) == Ok(DecimalValue(ds))
  {
    assert ("W" + ds)[1..] == ds;
    ParseIntDigits(ds);
  }

  /** Plain digits are the week number. */
  lemma WeekFromNumber(ds: string)
    requires ds != [] && AllDigits(ds) && DecimalValue(ds) != 0
    ensures WeekOf(Str(ds)) == Ok(DecimalValue(ds))
  {
    ParseIntDigits(ds);
  }

  lemma WeekFiftyTwo()
    ensures WeekOf(Str("W52")) == Ok(52)
  {
    assert "W52" == "W" + "52";
    assert DecimalValue("52") == 52 by { assert "52"[..1] == "5"; assert "5"[..0] == []; }
    WeekFromLabel("52");
  }

  /** One record of the `sales_records` upload, as `processSalesData` builds it. */
  datatype SalesRecord = SalesRecord(
    grandTotal: Cell,
    week: int,
    date: CalendarDate,
    product: Cell,
    category: Cell,
    customerNo: Cell,
    customer: Cell,
    customerType: Cell,
    salesman: Cell,
    village: Cell,
    district: Cell,
    city: Cell,
    unitsBks: int,
    unitsSlop: int,
    unitsBal: int,
    unitsDos: int,
    omzet: real)

  /** The date cell of a row: `Tanggal`, else `Date`, else the empty string. */
  function RawDate(row: Row): Cell {
    Either(row, "Tanggal", "Date")
  }

  /** The record fields of a row whose week and date are known. */
  function BuildRecord(row: Row, week: int, date: CalendarDate): SalesRecord {
    SalesRecord(
      grandTotal := Field(row, "Grand Total"),
      week := week,
      date := date,
      product := Either(row, "Produk", "Product"),
      category := Either(row, "Kategori", "Category"),
      customerNo := Either(row, "No. Customer", "Customer No"),
      customer := Field(row, "Customer"),
      customerType := Either(row, "Tipe Customer", "Customer Type"),
      salesman := Field(row, "Salesman"),
      village := Either(row, "Desa", "Village"),
      district := Either(row, "Kecamatan", "District"),
      city := Either(row, "Kota", "City"),
      unitsBks := Round(ParseNumericValue(Get(row, "Jual (Bks Net)"))),
      unitsSlop := Round(ParseNumericValue(Get(row, "Jual (Slop Net)"))),
      unitsBal := Round(ParseNumericValue(Get(row, "Jual (Bal Net)"))),
      unitsDos := Round(ParseNumericValue(Get(row, "Jual (Dos Net)"))),
      omzet := ParseNumericValue(Get(row, "Omzet (Nett)")))
  }

  /**
    One pass of the loop body of `processSalesData`: the record, or why the
    row is skipped (including the rows whose processing throws). The omzet
    is always finite and the week never NaN, so those two checks never fail.
  */
  function ProcessRow(row: Row, host: string -> Option<CalendarDate>): (r: Result<SalesRecord, Rejection>)
    ensures r.Ok? <==>
              |row| > 0
              && !(Truthy(Get(row, "Minggu")) && !Get(row, "Minggu").Str?)
              && RawDate(row).Str? && ParseSalesDate(RawDate(row).s, host).Some?
              && Truthy(Either(row, "Produk", "Product")) && Truthy(Get(row, "Customer"))
    ensures r.Ok? ==> r.value.date == ParseSalesDate(RawDate(row).s, host).value
                      && r.value.week == WeekOf(Get(row, "Minggu")).value
                      && r.value == BuildRecord(row, r.value.week, r.value.date)
  {
    if |row| == 0 then Err(EmptyRow)
    else match WeekOf(Get(row, "Minggu"))
      case Err(e) => Err(e)
      case Ok(week) =>
        match RawDate(row)
        case Str(text) =>
          (match ParseSalesDate(text, host)
           case None => Err(NoDate)
           case Some(date) =>
             var record := BuildRecord(row, week, date);
             if Truthy(record.product) && Truthy(record.customer) then Ok(record)
             else Err(MissingProductOrCustomer))
        case _ => Err(DateNotText)
  }

  predicate IsAccepted(row: Row, host: string -> Option<CalendarDate>) {
    ProcessRow(row, host).Ok?
  }

  /** The loop body as a step over rows. */
  function RowStep(host: string -> Option<CalendarDate>): Row -> Result<SalesRecord, Rejection> {
    row => ProcessRow(row, host)
  }

  /** The records `processSalesData` returns: the accepted rows' records in input order. */
  function Kept(rows: seq<Row>, host: string -> Option<CalendarDate>): seq<SalesRecord> {
    Keep(rows, RowStep(host))
  }

  /** `processSalesData`: one pass over the rows, pushing each accepted row's record. */
  method ProcessSalesData(data: seq<Row>, host: string -> Option<CalendarDate>) returns (processed: seq<SalesRecord>)
    ensures processed == Kept(data, host)
  {
    processed := [];
    for i := 0 to |data|
      invariant processed == Keep(data[..i], RowStep(host))
    {
      assert data[..i + 1][..i] == data[..i];
      assert RowStep(host)(data[i]) == ProcessRow(data[i], host);
      match ProcessRow(data[i], host)
      case Ok(record) =>
        processed := processed + [record];
      case Err(_) =>
    }
    assert data[..|data|] == data;
  }

  /**
    The output is an order-preserving subsequence of the input: its `k`-th
    record is the record of the `k`-th accepted row, and a row's position is
    among the accepted ones exactly when `ProcessRow` accepts it.
  */
  lemma KeptIsSubsequence(rows: seq<Row>, host: string -> Option<CalendarDate>)
    ensures var idx := OkIndices(rows, RowStep(host));
            |Kept(rows, host)| == |idx|
            && (forall k, l :: 0 <= k < l < |idx| ==> idx[k] < idx[l])
            && (forall i :: 0 <= i < |rows| ==> (i in idx <==> IsAccepted(rows[i], host)))
            && (forall k :: 0 <= k < |idx| ==> ProcessRow(rows[idx[k]], host) == Ok(Kept(rows, host)[k]))
  {
    KeepIsSubsequence(rows, RowStep(host));
    var idx := OkIndices(rows, RowStep(host));
    assert forall i :: 0 <= i < |rows| ==> RowStep(host)(rows[i]) == ProcessRow(rows[i], host);
  }

  /** Every record comes from an accepted row: none lacks a product or a customer, and no week is 0. */
  lemma KeptRecordsAreValid(rows: seq<Row>, host: string -> Option<CalendarDate>)
    ensures forall rec :: rec in Kept(rows, host) ==>
              Truthy(rec.product) && Truthy(rec.customer) && rec.week != 0
  {
    forall rec | rec in Kept(rows, host)
      ensures Truthy(rec.product) && Truthy(rec.customer) && rec.week != 0
    {
      KeepMembers(rows, RowStep(host), rec);
      var i :| 0 <= i < |rows| && RowStep(host)(rows[i]) == Ok(rec);
      assert ProcessRow(rows[i], host) == Ok(rec);
    }
  }

  // ===========================================================================
  // processCSVFile's row filter
  // ===========================================================================

  /** csv-parser rows that are skipped: no column at all, or a lone `Grand Total` column. */
  predicate SkipCsvRow(row: Row) {
    |row| == 0 || (Get(row, "Grand Total") != Missing && |row| == 1)
  }

  /** The rows `processCSVFile` resolves with: the rows not skipped, in stream order. */
  function CsvKept(rows: seq<Row>): (r: seq<Row>)
    ensures |r| <= |rows|
  {
    if rows == [] then []
    else CsvKept(rows[..|rows| - 1]) + (if SkipCsvRow(rows[|rows| - 1]) then [] else [rows[|rows| - 1]])
  }

  /** The `data` handler applied to each parsed row in turn, pushing the rows it does not skip. */
  method ProcessCsvRows(parsed: seq<Row>) returns (results: seq<Row>)
    ensures results == CsvKept(parsed)
  {
    results := [];
    for i := 0 to |parsed|
      invariant results == CsvKept(parsed[..i])
    {
      assert parsed[..i + 1][..i] == parsed[..i];
      if !SkipCsvRow(parsed[i]) {
        results := results + [parsed[i]];
      }
    }
    assert parsed[..|parsed|] == parsed;
  }

  /** A row survives the CSV filter exactly when it occurs and is not skipped. */
  lemma {:induction false} CsvKeptMembers(rows: seq<Row>)
    ensures forall r :: r in CsvKept(rows) <==> r in rows && !SkipCsvRow(r)
  {
    if rows != [] {
      var n := |rows| - 1;
      CsvKeptMembers(rows[..n]);
      assert rows == rows[..n] + [rows[n]];
    }
  }

  /** The filter works row by row, so a stream split anywhere gives the same rows. */
  lemma {:induction false} CsvKeptConcat(a: seq<Row>, b: seq<Row>)
    ensures CsvKept(a + b) == CsvKept(a) + CsvKept(b)
  {
    if b == [] {
      assert a + b == a;
    } else {
      var n := |b| - 1;
      assert (a + b)[..|a + b| - 1] == a + b[..n];
      CsvKeptConcat(a, b[..n]);
    }
  }

  // ===========================================================================
  // POST
  // ===========================================================================

  /** The uploaded form field `file`: its name, its MIME type and its size in bytes. */
  datatype UploadFile = UploadFile(name: string, mimeType: string, size: nat)

  /** The JSON answer: an error with its HTTP status, or the summary of the stored batch. */
  datatype Response =
    | Rejected(status: nat, error: string)
    | Accepted(fileId: nat, filename: string, recordCount: nat, totalOmzet: real, preview: seq<SalesRecord>)

  const XlsxType: string := "application/vnd.openxmlformats-officedocument.spreadsheetml.sheet"
  const XlsType: string := "application/vnd.ms-excel"
  const CsvType: string := "text/csv"

  predicate AllowedType(t: string) { t == XlsxType || t == XlsType || t == CsvType }

  const NoFileMessage: string := "No file provided"
  const NoValidDataMessage: string :=
    "No valid data found in file. Please check if your file has the required columns: Grand Total, Minggu, Tanggal, Produk, Customer, Omzet (Nett)"
  const FailureMessage: string := "Failed to process file upload"

  function InvalidTypeMessage(t: string): string {
    "Invalid file type: " + t + ". Only Excel and CSV files are allowed"
  }

  /** `reduce((sum, record) => sum + record.omzet, 0)`. */
  function SumOmzet(records: seq<SalesRecord>): real {
    if records == [] then 0.0 else SumOmzet(records[..|records| - 1]) + records[|records| - 1].omzet
  }

  lemma {:induction false} SumOmzetConcat(a: seq<SalesRecord>, b: seq<SalesRecord>)
    ensures SumOmzet(a + b) == SumOmzet(a) + SumOmzet(b)
  {
    if b == [] {
      assert a + b == a;
    } else {
      var n := |b| - 1;
      assert (a + b)[..|a + b| - 1] == a + b[..n];
      SumOmzetConcat(a, b[..n]);
    }
  }

  /** The total omzet of a batch is the sum over its accepted rows, row by row. */
  lemma KeptOmzetOfOneMore(rows: seq<Row>, row: Row, host: string -> Option<CalendarDate>)
    ensures SumOmzet(Kept(rows + [row], host))
            == SumOmzet(Kept(rows, host)) + (if IsAccepted(row, host) then ParseNumericValue(Get(row, "Omzet (Nett)")) else 0.0)
  {
    assert (rows + [row])[..|rows|] == rows;
    assert RowStep(host)(row) == ProcessRow(row, host);
    var tail := match ProcessRow(row, host) case Ok(rec) => [rec] case Err(_) => [];
    assert Kept(rows + [row], host) == Kept(rows, host) + tail;
    SumOmzetConcat(Kept(rows, host), tail);
  }

  /** The rows the route hands to `processSalesData`: the CSV reader filters, the Excel reader does not. */
  function ReadRows(mimeType: string, rows: seq<Row>): seq<Row> {
    if mimeType == CsvType then CsvKept(rows) else rows
  }

  /**
    `POST /api/upload`. `contents` is what the file reader yields (csv-parser
    rows before the route's filter, or the Excel worksheet's rows), `None`
    when saving or reading the file fails; `fileId` is the id the database
    assigns to the upload, `None` when the transaction fails.
  */
  method Post(file: Option<UploadFile>, contents: Option<seq<Row>>, fileId: Option<nat>,
              host: string -> Option<CalendarDate>) returns (r: Response)
    ensures file.None? ==> r == Rejected(400, NoFileMessage)
    ensures file.Some? && !AllowedType(file.value.mimeType) ==> r == Rejected(400, InvalidTypeMessage(file.value.mimeType))
    ensures file.Some? && AllowedType(file.value.mimeType) && contents.None? ==> r == Rejected(500, FailureMessage)
    ensures file.Some? && AllowedType(file.value.mimeType) && contents.Some? ==>
              var kept := Kept(ReadRows(file.value.mimeType, contents.value), host);
              (kept == [] ==> r == Rejected(400, NoValidDataMessage))
              && (kept != [] && fileId.None? ==> r == Rejected(500, FailureMessage))
              && (kept != [] && fileId.Some? ==>
                    r == Accepted(fileId.value, file.value.name, |kept|, SumOmzet(kept), kept[..if |kept| < 5 then |kept| else 5]))
    ensures r.Accepted? ==> r.recordCount > 0 && |r.preview| <= 5 && |r.preview| <= r.recordCount
  {
    if file.None? {
      return Rejected(400, NoFileMessage);
    }
    var f := file.value;
    if !AllowedType(f.mimeType) {
      return Rejected(400, InvalidTypeMessage(f.mimeType));
    }
    if contents.None? {
      return Rejected(500, FailureMessage);
    }
    var data := contents.value;
    if f.mimeType == CsvType {
      data := ProcessCsvRows(data);
    }
    var processed := ProcessSalesData(data, host);
    if |processed| == 0 {
      return Rejected(400, NoValidDataMessage);
    }
    if fileId.None? {
      return Rejected(500, FailureMessage);
    }
    var totalOmzet := SumOmzet(processed);
    var previewLength := if |processed| < 5 then |processed| else 5;
    r := Accepted(fileId.value, f.name, |processed|, totalOmzet, processed[..previewLength]);
  }

  // ===========================================================================
  // Worked examples
  // ===========================================================================

  lemma Value1234()
    ensures DecimalValue("1234") == 1234
  {
    assert "1234"[..3] == "123";
    assert "123"[..2] == "12";
    assert "12"[..1] == "1";
    assert "1"[..0] == [];
  }

  lemma Value1234567()
    ensures DecimalValue("1234567") == 1234567
  {
    assert "1234567"[..6] == "123456";
    assert "123456"[..5] == "12345";
    assert "12345"[..4] == "1234";
    Value1234();
  }

  lemma Value1500000()
    ensures DecimalValue("1500000") == 1500000
  {
    assert "1500000"[..6] == "150000";
    assert "150000"[..5] == "15000";
    assert "15000"[..4] == "1500";
    assert "1500"[..3] == "150";
    assert "150"[..2] == "15";
    assert "15"[..1] == "1";
    assert "1"[..0] == [];
  }

  /** Digits on both sides of one separator. */
  lemma DigitsOfGrouped(a: string, c: char, b: string)
    requires AllDigits(a) && AllDigits(b) && !IsDigit(c)
    ensures DigitsOf(a + [c] + b) == a + b
  {
    DigitsOfConcat(a + [c], b);
    DigitsOfConcat(a, [c]);
  }

  lemma Fraction56()
    ensures FractionValue("56") == 0.56
  {
    assert "56"[1..] == "6";
    assert "6"[1..] == [];
  }

  /**
    The worked examples below are stated for the text the separator logic
    receives; for text of digits, dots and commas that is the cell's text
    itself (`UnsignedTextAsIs`). The pieces are parameters so that the
    verifier does not evaluate the parser on the whole literal.
  */

  /** `1.234,56`: the comma comes last, so it is the decimal point. */
  lemma IndonesianDecimal(x: string, f: string)
    requires x == "1.234" && f == "56"
    ensures UnsignedValue(x + [','] + f) == 1234.56
  {
    assert "1" + ['.'] + "234" == x;
    assert "1" + "234" == "1234";
    DigitsOfGrouped("1", '.', "234");
    Value1234();
    Fraction56();
    LaterSeparatorIsDecimal(x, ',', f);
  }

  /** `1,234.56`: the dot comes last, so it is the decimal point. */
  lemma EnglishDecimal(x: string, f: string)
    requires x == "1,234" && f == "56"
    ensures UnsignedValue(x + ['.'] + f) == 1234.56
  {
    assert "1" + [','] + "234" == x;
    assert "1" + "234" == "1234";
    DigitsOfGrouped("1", ',', "234");
    Value1234();
    Fraction56();
    LaterSeparatorIsDecimal(x, '.', f);
  }

  /** `1234,56`: one comma before two digits is the decimal point. */
  lemma CommaDecimal(x: string, f: string)
    requires x == "1234" && f == "56"
    ensures UnsignedValue(x + [','] + f) == 1234.56
  {
    Value1234();
    Fraction56();
    ShortLastGroupIsDecimal(x, ',', f);
  }

  /** With the other separator before `p`'s end and neither separator in `q`, the one between them is chosen. */
  lemma LaterOfBothChosen(p: string, c: char, q: string)
    requires IsSeparator(c) && OtherSeparator(c) in p && c !in q && OtherSeparator(c) !in q
    ensures DecimalSeparator(p + [c] + q) == Some(c)
  {
    var u := p + [c] + q;
    var d := OtherSeparator(c);
    assert u[|p|] == c;
    assert d in u by { var i :| 0 <= i < |p| && p[i] == d; assert u[i] == d; }
    assert forall i :: |p| < i < |u| ==> u[i] != c && u[i] != d by {
      forall i | |p| < i < |u| ensures u[i] != c && u[i] != d { assert u[i] == q[i - |p| - 1]; }
    }
    assert LastIndexOf(u, c) == |p|;
    assert LastIndexOf(u, d) < |p|;
  }

  /** `1,2.3,4`: the comma comes last, so the first comma is the decimal point and the text reads 1.234. */
  lemma MixedSeparatorsFirstComma(a: string, b: string, c: string, d: string)
    requires a == "1" && b == "2" && c == "3" && d == "4"
    ensures UnsignedValue(a + [','] + b + ['.'] + c + [','] + d) == 1.234
  {
    var p := a + [','] + b + ['.'] + c;
    var y := b + ['.'] + c + [','] + d;
    assert p[|a| + 1 + |b|] == '.';
    LaterOfBothChosen(p, ',', d);
    assert p + [','] + d == a + [','] + y;
    DigitsOfTwoSeparators(b, c, d);
    assert b + c + d == "234";
    assert DecimalValue(a) == 1 by { assert a[..0] == []; }
    Fraction234();
    FirstOccurrenceIsDecimal(a, ',', y);
  }

  lemma DigitsOfTwoSeparators(b: string, c: string, d: string)
    requires AllDigits(b) && AllDigits(c) && AllDigits(d)
    ensures DigitsOf(b + ['.'] + c + [','] + d) == b + c + d
  {
    assert b + ['.'] + c + [','] + d == (b + ['.'] + c) + ([','] + d);
    DigitsOfConcat(b + ['.'] + c, [','] + d);
    DigitsOfGrouped(b, '.', c);
    DigitsOfSeparatorFirst(',', d);
  }

  lemma Fraction234()
    ensures FractionValue("234") == 0.234
  {
    assert "234"[1..] == "34"; assert "34"[1..] == "4"; assert "4"[1..] == [];
  }

  /** With one separator kind and a last group of one or two characters, that separator is chosen. */
  lemma ShortLastGroupChosen(x: string, c: char, f: string)
    requires IsSeparator(c) && OtherSeparator(c) !in x && c !in f && OtherSeparator(c) !in f && 1 <= |f| <= 2
    ensures DecimalSeparator(x + [c] + f) == Some(c)
  {
    var u := x + [c] + f;
    SplitAtLast(x, c, f);
    assert u[|x|] == c;
    assert OtherSeparator(c) !in u by {
      forall i | 0 <= i < |u| ensures u[i] != OtherSeparator(c) {
        if i < |x| { assert u[i] == x[i]; } else if i > |x| { assert u[i] == f[i - |x| - 1]; }
      }
    }
  }

  lemma Fraction23456()
    ensures FractionValue("23456") == 0.23456
  {
    assert "23456"[1..] == "3456"; assert "3456"[1..] == "456"; assert "456"[1..] == "56";
    assert "56"[1..] == "6"; assert "6"[1..] == [];
  }

  /** `1,234,56`: the last group has two digits, so the first comma is the decimal point and the text reads 1.23456. */
  lemma RepeatedCommaFirstIsDecimal(a: string, b: string, f: string)
    requires a == "1" && b == "234" && f == "56"
    ensures UnsignedValue(a + [','] + b + [','] + f) == 1.23456
  {
    var x := a + [','] + b;
    assert '.' !in x by {
      forall i | 0 <= i < |x| ensures x[i] != '.' {
        if i < |a| { assert x[i] == a[i]; } else if i > |a| { assert x[i] == b[i - |a| - 1]; }
      }
    }
    ShortLastGroupChosen(x, ',', f);
    assert x + [','] + f == a + [','] + (b + [','] + f);
    DigitsOfGrouped(b, ',', f);
    assert b + f == "23456";
    assert DecimalValue(a) == 1 by { assert a[..0] == []; }
    Fraction23456();
    FirstOccurrenceIsDecimal(a, ',', b + [','] + f);
  }

  /** Three digit groups joined by one separator `c` that groups thousands. */
  lemma ThreeGroups(a: string, c: char, b: string, t: string)
    requires IsSeparator(c) && AllDigits(a) && AllDigits(b) && AllDigits(t) && |t| == 3
    ensures UnsignedValue(a + [c] + b + [c] + t) == DecimalValue(a + b + t) as real
  {
    ThreeGroupsShape(a, c, b, t);
    ThreeGroupsDigits(a, c, b, t);
    LongLastGroupIsGrouping(a + [c] + b + [c] + t, c);
  }

  lemma ThreeGroupsShape(a: string, c: char, b: string, t: string)
    requires IsSeparator(c) && AllDigits(a) && AllDigits(b) && AllDigits(t) && |t| == 3
    ensures var u := a + [c] + b + [c] + t;
            c in u && |AfterLast(u, c)| == 3 && forall i :: 0 <= i < |u| ==> IsDigit(u[i]) || u[i] == c
  {
    var x := a + [c] + b;
    var u := x + [c] + t;
    assert c !in t;
    SplitAtLast(x, c, t);
    assert u[|a|] == c;
    forall i | 0 <= i < |u| ensures IsDigit(u[i]) || u[i] == c {
      if i < |a| { assert u[i] == a[i]; }
      else if i == |a| { }
      else if i < |x| { assert u[i] == b[i - |a| - 1]; }
      else if i == |x| { }
      else { assert u[i] == t[i - |x| - 1]; }
    }
  }

  lemma ThreeGroupsDigits(a: string, c: char, b: string, t: string)
    requires IsSeparator(c) && AllDigits(a) && AllDigits(b) && AllDigits(t)
    ensures DigitsOf(a + [c] + b + [c] + t) == a + b + t
  {
    var x := a + [c] + b;
    var y := [c] + t;
    assert x + [c] + t == x + y;
    DigitsOfGrouped(a, c, b);
    DigitsOfSeparatorFirst(c, t);
    DigitsOfConcat(x, y);
    assert (a + b) + t == a + b + t;
  }

  lemma DigitsOfSeparatorFirst(c: char, t: string)
    requires !IsDigit(c) && AllDigits(t)
    ensures DigitsOf([c] + t) == t
  {
    assert ([c] + t)[0] == c && ([c] + t)[1..] == t;
  }

  /** `1.500.000`: dots before a group of three digits group thousands. */
  lemma DotThousands(a: string, b: string, t: string)
    requires a == "1" && b == "500" && t == "000"
    ensures UnsignedValue(a + ['.'] + b + ['.'] + t) == 1500000.0
  {
    assert a + b + t == "1500000";
    Value1500000();
    ThreeGroups(a, '.', b, t);
  }

  /** `1,234,567`: commas before a group of three digits group thousands. */
  lemma CommaThousands(a: string, b: string, t: string)
    requires a == "1" && b == "234" && t == "567"
    ensures UnsignedValue(a + [','] + b + [','] + t) == 1234567.0
  {
    assert a + b + t == "1234567";
    Value1234567();
    ThreeGroups(a, ',', b, t);
  }

  /** `15/08/2024` that the host parser rejects is 15 August 2024 (month index 7). */
  lemma DayFirstExample(dd: string, mm: string, yyyy: string, host: string -> Option<CalendarDate>)
    requires dd == "15" && mm == "08" && yyyy == "2024"
    requires host(dd + ['/'] + mm + ['/'] + yyyy).None?
    ensures ParseSalesDate(dd + ['/'] + mm + ['/'] + yyyy, host) == Some(Date(2024, 7, 15))
  {
    assert DecimalValue(dd) == 15 by { assert "15"[..1] == "1"; assert "1"[..0] == []; }
    assert DecimalValue(mm) == 8 by { assert "08"[..1] == "0"; assert "0"[..0] == []; }
    assert DecimalValue(yyyy) == 2024 by {
      assert "2024"[..3] == "202"; assert "202"[..2] == "20"; assert "20"[..1] == "2"; assert "2"[..0] == [];
    }
    DayFirstFallback(dd, '/', mm, '/', yyyy, host);
  }

  /** `15-08-24` that the host parser rejects is 15 August 2024 too. */
  lemma TwoDigitYearExample(dd: string, mm: string, yy: string, host: string -> Option<CalendarDate>)
    requires dd == "15" && mm == "08" && yy == "24"
    requires host(dd + ['-'] + mm + ['-'] + yy).None?
    ensures ParseSalesDate(dd + ['-'] + mm + ['-'] + yy, host) == Some(Date(2024, 7, 15))
  {
    assert DecimalValue(dd) == 15 by { assert "15"[..1] == "1"; assert "1"[..0] == []; }
    assert DecimalValue(mm) == 8 by { assert "08"[..1] == "0"; assert "0"[..0] == []; }
    assert DecimalValue(yy) == 24 by { assert "24"[..1] == "2"; assert "2"[..0] == []; }
    DayFirstFallback(dd, '-', mm, '-', yy, host);
  }
}
