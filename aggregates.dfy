/**
  The aggregations of `lib/database.ts` over the stored sales records the
  dashboard reads back: quarterly totals against an estimated target, the
  L4W/C4W comparison of the four latest weekly totals with the four before
  them, and the year-on-year totals.
*/
module SalesAggregates {
  import opened Wrappers
  import opened JsText
  import Calendar

  /** A stored record as the dashboard uses it: its date, its sales week and its omzet. */
  datatype StoredRecord = StoredRecord(date: Calendar.CalendarDate, week: int, omzet: real)

  /** `record.year`, which `processSalesRecords` sets to the full year of the record's date. */
  function YearOf(r: StoredRecord): int { r.date.year }

  /** The sum of the omzet of `rs`, as `reduce` adds it up from the left. */
  function Total(rs: seq<StoredRecord>): real {
    if rs == [] then 0.0 else Total(rs[..|rs| - 1]) + rs[|rs| - 1].omzet
  }

  /** `rs.filter(p)`. */
  function Select(rs: seq<StoredRecord>, p: StoredRecord -> bool): (r: seq<StoredRecord>)
    ensures |r| <= |rs|
    ensures forall x :: x in r ==> x in rs && p(x)
  {
    if rs == [] then []
    else Select(rs[..|rs| - 1], p) + (if p(rs[|rs| - 1]) then [rs[|rs| - 1]] else [])
  }

  /**
    Splitting a filter into two disjoint filters splits its total: the
    records `p` keeps are exactly those `q` or `s` keeps, never both.
  */
  lemma {:induction false} SelectSplitsTotal(rs: seq<StoredRecord>, p: StoredRecord -> bool, q: StoredRecord -> bool, s: StoredRecord -> bool)
    requires forall x :: p(x) == (q(x) || s(x))
    requires forall x :: !(q(x) && s(x))
    ensures Total(Select(rs, p)) == Total(Select(rs, q)) + Total(Select(rs, s))
  {
    if rs != [] {
      var front := rs[..|rs| - 1];
      var x := rs[|rs| - 1];
      SelectSplitsTotal(front, p, q, s);
      if q(x) {
        assert Select(rs, q) == Select(front, q) + [x] && Select(rs, s) == Select(front, s);
        assert Select(rs, p) == Select(front, p) + [x];
        TotalSnoc(Select(front, p), x);
        TotalSnoc(Select(front, q), x);
      } else if s(x) {
        assert Select(rs, s) == Select(front, s) + [x] && Select(rs, q) == Select(front, q);
        assert Select(rs, p) == Select(front, p) + [x];
        TotalSnoc(Select(front, p), x);
        TotalSnoc(Select(front, s), x);
      } else {
        assert Select(rs, p) == Select(front, p);
        assert Select(rs, q) == Select(front, q) && Select(rs, s) == Select(front, s);
      }
    }
  }

  /** Appending one record adds its omzet. */
  lemma TotalSnoc(rs: seq<StoredRecord>, x: StoredRecord)
    ensures Total(rs + [x]) == Total(rs) + x.omzet
  {
    assert (rs + [x])[..|rs|] == rs;
  }

  /** A filter that keeps everything keeps the whole total. */
  lemma {:induction false} SelectAll(rs: seq<StoredRecord>, p: StoredRecord -> bool)
    requires forall x :: p(x)
    ensures Select(rs, p) == rs
  {
    if rs != [] {
      SelectAll(rs[..|rs| - 1], p);
      assert rs[..|rs| - 1] + [rs[|rs| - 1]] == rs;
    }
  }

  // ===========================================================================
  // generateQuarterlyData
  // ===========================================================================

  datatype QuarterStats = QuarterStats(quarter: string, target: int, actual: int, variance: int, variancePercentage: real)

  const QuarterNames: seq<string> := ["Q1", "Q2", "Q3", "Q4"]

  /** The first and last week of quarter `index` (0-based): 13 weeks each, the last ending at week 52. */
  function StartWeek(index: nat): int { index * 13 + 1 }

  function EndWeek(index: nat): int {
    if (index + 1) * 13 < 52 then (index + 1) * 13 else 52
  }

  /** The records of `year` whose week lies in quarter `index`. */
  function InQuarter(year: int, index: nat): StoredRecord -> bool {
    r => YearOf(r) == year && StartWeek(index) <= r.week <= EndWeek(index)
  }

  /** The sales target estimated for an actual total: 10% above it, or 100000 when it is not positive. */
  function QuarterTarget(actual: real): (t: real)
    ensures t > 0.0
  {
    if actual > 0.0 then actual * 1.1 else 100000.0
  }

  /** The entry `generateQuarterlyData` pushes for quarter `index`. */
  function QuarterOf(records: seq<StoredRecord>, year: int, index: nat): QuarterStats
    requires index < 4
  {
    var actual := Total(Select(records, InQuarter(year, index)));
    var target := QuarterTarget(actual);
    var variance := actual - target;
    QuarterStats(QuarterNames[index], Round(target), Round(actual), Round(variance),
                 if target > 0.0 then RoundTenth(variance / target * 100.0) else 0.0)
  }

  /** `generateQuarterlyData`: one entry per quarter, pushed in order Q1 to Q4. */
  method GenerateQuarterlyData(records: seq<StoredRecord>, year: int) returns (quarterlyData: seq<QuarterStats>)
    ensures |quarterlyData| == 4
    ensures forall i :: 0 <= i < 4 ==> quarterlyData[i] == QuarterOf(records, year, i)
  {
    quarterlyData := [];
    for index := 0 to 4
      invariant |quarterlyData| == index
      invariant forall i :: 0 <= i < index ==> quarterlyData[i] == QuarterOf(records, year, i)
    {
      quarterlyData := quarterlyData + [QuarterOf(records, year, index)];
    }
  }

  /** The quarters are weeks 1-13, 14-26, 27-39 and 40-52, named Q1 to Q4. */
  lemma QuarterBounds()
    ensures StartWeek(0) == 1 && EndWeek(0) == 13 && StartWeek(1) == 14 && EndWeek(1) == 26
    ensures StartWeek(2) == 27 && EndWeek(2) == 39 && StartWeek(3) == 40 && EndWeek(3) == 52
    ensures forall i :: 0 <= i < 4 ==> QuarterNames[i] == ['Q', "1234"[i]]
  {
  }

  /** In the year's records of weeks 1 to 52. */
  function InYearWeeks(year: int): StoredRecord -> bool {
    r => YearOf(r) == year && 1 <= r.week <= 52
  }

  /**
    The four quarters partition the year's weeks 1 to 52: their (unrounded)
    actual totals add up to the year's total over those weeks, and records
    of other weeks count in no quarter.
  */
  lemma QuartersCoverYear(records: seq<StoredRecord>, year: int)
    ensures Total(Select(records, InQuarter(year, 0))) + Total(Select(records, InQuarter(year, 1)))
            + Total(Select(records, InQuarter(year, 2))) + Total(Select(records, InQuarter(year, 3)))
            == Total(Select(records, InYearWeeks(year)))
  {
    var firstHalf := (r: StoredRecord) => YearOf(r) == year && 1 <= r.week <= 26;
    var secondHalf := (r: StoredRecord) => YearOf(r) == year && 27 <= r.week <= 52;
    SelectSplitsTotal(records, firstHalf, InQuarter(year, 0), InQuarter(year, 1));
    SelectSplitsTotal(records, secondHalf, InQuarter(year, 2), InQuarter(year, 3));
    SelectSplitsTotal(records, InYearWeeks(year), firstHalf, secondHalf);
  }

  /**
    With positive sales the target is 10% above the actual, so the variance
    percentage is always -9.1; otherwise the target is 100000 and the
    variance is the shortfall against it.
  */
  lemma QuarterVariance(records: seq<StoredRecord>, year: int, index: nat)
    requires index < 4
    ensures var actual := Total(Select(records, InQuarter(year, index)));
            var q := QuarterOf(records, year, index);
            (actual > 0.0 ==> q.variancePercentage == -9.1)
            && (actual <= 0.0 ==> q.target == 100000 && q.variance == Round(actual - 100000.0))
  {
    var actual := Total(Select(records, InQuarter(year, index)));
    if actual > 0.0 {
      var target := actual * 1.1;
      assert (actual - target) / target == -1.0 / 11.0 by {
        assert actual - target == -(actual / 10.0);
        assert target == 11.0 * (actual / 10.0);
      }
      assert Round(-1.0 / 11.0 * 100.0 * 10.0) == -91;
    }
  }

  // ===========================================================================
  // generateL4WC4WData
  // ===========================================================================

  /** One entry of `weeklyTotalsMap`: a (year, week) key, its omzet total and its latest timestamp. */
  datatype WeekTotal = WeekTotal(year: int, week: int, total: real, timestamp: int)

  /**
    A number ordered as `date.getTime()` orders dates (later dates larger);
    timestamps are only compared and maximised, so their scale does not
    matter.
  */
  function Stamp(d: Calendar.CalendarDate): int {
    (d.year * 12 + d.month) * 31 + d.day
  }

  /** Stamps order dates by year, then month, then day. */
  lemma StampOrder(a: Calendar.CalendarDate, b: Calendar.CalendarDate)
    ensures Stamp(a) < Stamp(b) <==>
              a.year < b.year || (a.year == b.year && (a.month < b.month || (a.month == b.month && a.day < b.day)))
  {
    assert 1 <= a.day <= 31 && 1 <= b.day <= 31;
  }

  /** Records that reach the map: a positive week (`Number(record.week) || 0` is not `<= 0`). */
  predicate Counted(r: StoredRecord) { r.week > 0 }

  /** The position of the entry with key (`year`, `week`), or -1. */
  function KeyIndex(ts: seq<WeekTotal>, year: int, week: int): (i: int)
    ensures -1 <= i < |ts|
    ensures i >= 0 ==> ts[i].year == year && ts[i].week == week
    ensures i == -1 <==> forall j :: 0 <= j < |ts| ==> !(ts[j].year == year && ts[j].week == week)
  {
    if ts == [] then -1
    else if ts[|ts| - 1].year == year && ts[|ts| - 1].week == week then |ts| - 1
    else KeyIndex(ts[..|ts| - 1], year, week)
  }

  function Max(a: int, b: int): int { if a >= b then a else b }

  /** The map after one counted record: a new entry at the end, or its entry's total and timestamp updated in place. */
  function AddRecord(ts: seq<WeekTotal>, r: StoredRecord): seq<WeekTotal> {
    var i := KeyIndex(ts, YearOf(r), r.week);
    if i < 0 then ts + [WeekTotal(YearOf(r), r.week, r.omzet, Stamp(r.date))]
    else ts[i := ts[i].(total := ts[i].total + r.omzet, timestamp := Max(ts[i].timestamp, Stamp(r.date)))]
  }

  /** `weeklyTotalsMap.values()` after the loop, in the map's insertion order. */
  function WeeklyTotals(rs: seq<StoredRecord>): seq<WeekTotal> {
    if rs == [] then []
    else
      var ts := WeeklyTotals(rs[..|rs| - 1]);
      if Counted(rs[|rs| - 1]) then AddRecord(ts, rs[|rs| - 1]) else ts
  }

  /** The loop of `generateL4WC4WData` that fills `weeklyTotalsMap`. */
  method AccumulateWeeks(effectiveRecords: seq<StoredRecord>) returns (weeklyTotals: seq<WeekTotal>)
    ensures weeklyTotals == WeeklyTotals(effectiveRecords)
  {
    weeklyTotals := [];
    for k := 0 to |effectiveRecords|
      invariant weeklyTotals == WeeklyTotals(effectiveRecords[..k])
    {
      assert effectiveRecords[..k + 1][..k] == effectiveRecords[..k];
      var record := effectiveRecords[k];
      var week := record.week;
      if week <= 0 {
        continue;
      }
      var year := YearOf(record);
      var i := KeyIndex(weeklyTotals, year, week);
      if i < 0 {
        weeklyTotals := weeklyTotals + [WeekTotal(year, week, record.omzet, Stamp(record.date))];
      } else {
        var entry := weeklyTotals[i];
        weeklyTotals := weeklyTotals[i := entry.(total := entry.total + record.omzet,
                                                timestamp := Max(entry.timestamp, Stamp(record.date)))];
      }
    }
    assert effectiveRecords[..|effectiveRecords|] == effectiveRecords;
  }

  /** The sum of the entries' totals. */
  function SumTotals(ts: seq<WeekTotal>): real {
    if ts == [] then 0.0 else SumTotals(ts[..|ts| - 1]) + ts[|ts| - 1].total
  }

  predicate DistinctKeys(ts: seq<WeekTotal>) {
    forall i, j :: 0 <= i < j < |ts| ==> !(ts[i].year == ts[j].year && ts[i].week == ts[j].week)
  }

  /**
    The map holds one entry per (year, week) key, and its totals add up to
    the omzet of the counted records: nothing is lost or counted twice.
  */
  lemma {:induction false} WeeklyTotalsConserve(rs: seq<StoredRecord>)
    ensures DistinctKeys(WeeklyTotals(rs))
    ensures SumTotals(WeeklyTotals(rs)) == Total(Select(rs, Counted))
    ensures forall k :: 0 <= k < |WeeklyTotals(rs)| ==> WeeklyTotals(rs)[k].week > 0
  {
    if rs != [] {
      var front := rs[..|rs| - 1];
      var r := rs[|rs| - 1];
      WeeklyTotalsConserve(front);
      var ts := WeeklyTotals(front);
      if Counted(r) {
        CountedStep(rs);
        AddRecordConserves(ts, r);
        TotalSnoc(Select(front, Counted), r);
      } else {
        SkippedStep(rs);
      }
    }
  }

  lemma CountedStep(rs: seq<StoredRecord>)
    requires rs != [] && Counted(rs[|rs| - 1])
    ensures WeeklyTotals(rs) == AddRecord(WeeklyTotals(rs[..|rs| - 1]), rs[|rs| - 1])
    ensures Select(rs, Counted) == Select(rs[..|rs| - 1], Counted) + [rs[|rs| - 1]]
  {
  }

  lemma SkippedStep(rs: seq<StoredRecord>)
    requires rs != [] && !Counted(rs[|rs| - 1])
    ensures WeeklyTotals(rs) == WeeklyTotals(rs[..|rs| - 1])
    ensures Select(rs, Counted) == Select(rs[..|rs| - 1], Counted)
  {
  }

  lemma AddRecordConserves(ts: seq<WeekTotal>, r: StoredRecord)
    requires DistinctKeys(ts) && Counted(r)
    requires forall k :: 0 <= k < |ts| ==> ts[k].week > 0
    ensures DistinctKeys(AddRecord(ts, r))
    ensures SumTotals(AddRecord(ts, r)) == SumTotals(ts) + r.omzet
    ensures forall k :: 0 <= k < |AddRecord(ts, r)| ==> AddRecord(ts, r)[k].week > 0
  {
    var i := KeyIndex(ts, YearOf(r), r.week);
    if i < 0 {
      var e := WeekTotal(YearOf(r), r.week, r.omzet, Stamp(r.date));
      assert (ts + [e])[..|ts|] == ts;
    } else {
      SumTotalsUpdate(ts, i, ts[i].(total := ts[i].total + r.omzet, timestamp := Max(ts[i].timestamp, Stamp(r.date))));
    }
  }

  /** Replacing one entry changes the sum by the difference of the totals. */
  lemma {:induction false} SumTotalsUpdate(ts: seq<WeekTotal>, i: nat, e: WeekTotal)
    requires i < |ts|
    ensures SumTotals(ts[i := e]) == SumTotals(ts) - ts[i].total + e.total
    decreases |ts|
  {
    var n := |ts| - 1;
    if i < n {
      assert ts[i := e][..n] == ts[..n][i := e];
      SumTotalsUpdate(ts[..n], i, e);
    } else {
      assert ts[i := e][..n] == ts[..n];
    }
  }

  // ---------------------------------------------------------------------------
  // Sorting by timestamp
  // ---------------------------------------------------------------------------

  predicate SortedByStamp(ts: seq<WeekTotal>) {
    forall i, j :: 0 <= i < j < |ts| ==> ts[i].timestamp <= ts[j].timestamp
  }

  /** Inserting `x` after every entry whose timestamp is not later than its own. */
  function InsertByStamp(s: seq<WeekTotal>, x: WeekTotal): (r: seq<WeekTotal>)
    ensures multiset(r) == multiset(s) + multiset{x}
    ensures SortedByStamp(s) ==> SortedByStamp(r)
    ensures |r| == |s| + 1
    decreases |s|, 0
  {
    if s == [] || s[|s| - 1].timestamp <= x.timestamp then
      assert SortedByStamp(s) ==> SortedByStamp(s + [x]);
      s + [x]
    else
      var front := s[..|s| - 1];
      var last := s[|s| - 1];
      assert s == front + [last];
      var r := InsertByStamp(front, x) + [last];
      assert SortedByStamp(s) ==> SortedByStamp(r) by {
        if SortedByStamp(s) {
          assert SortedByStamp(front);
          InsertedStaysBelow(front, x, last);
        }
      }
      r
  }

  /** Every entry of the insertion is not later than an entry `last` that is later than `x` and than all of `s`. */
  lemma InsertedStaysBelow(s: seq<WeekTotal>, x: WeekTotal, last: WeekTotal)
    requires SortedByStamp(s) && x.timestamp < last.timestamp
    requires forall k :: 0 <= k < |s| ==> s[k].timestamp <= last.timestamp
    ensures forall k :: 0 <= k < |InsertByStamp(s, x)| ==> InsertByStamp(s, x)[k].timestamp <= last.timestamp
    decreases |s|, 1
  {
    var r := InsertByStamp(s, x);
    forall k | 0 <= k < |r| ensures r[k].timestamp <= last.timestamp {
      assert r[k] in multiset(r);
      assert r[k] in multiset(s) + multiset{x};
      if r[k] != x {
        assert r[k] in s;
      }
    }
  }

  /** `sort((a, b) => a.timestamp - b.timestamp)`: a stable insertion sort. */
  function SortByStamp(ts: seq<WeekTotal>): (r: seq<WeekTotal>)
    ensures SortedByStamp(r)
    ensures multiset(r) == multiset(ts)
    ensures |r| == |ts|
  {
    if ts == [] then []
    else
      assert ts == ts[..|ts| - 1] + [ts[|ts| - 1]];
      InsertByStamp(SortByStamp(ts[..|ts| - 1]), ts[|ts| - 1])
  }

  // ---------------------------------------------------------------------------
  // The averages
  // ---------------------------------------------------------------------------

  datatype WindowStats = WindowStats(l4wAverage: int, c4wAverage: int, variance: int, variancePercentage: real)

  const ZeroWindow: WindowStats := WindowStats(0, 0, 0, 0.0)

  /** The mean total of `ts`, 0 for none. */
  function Mean(ts: seq<WeekTotal>): real {
    if |ts| == 0 then 0.0 else SumTotals(ts) / (|ts| as real)
  }

  /** The result computed from the weekly totals sorted by timestamp. */
  function Windows(sorted: seq<WeekTotal>): WindowStats {
    var n := |sorted|;
    if n < 4 then
      WindowStats(0, Round(SumTotals(sorted) / (if n == 0 then 1.0 else n as real)), 0, 0.0)
    else
      var c4wWeeks := sorted[n - 4..];
      var l4wWeeks := L4WWeeks(sorted);
      var l4wAverageRaw := Mean(l4wWeeks);
      var c4wAverageRaw := Mean(c4wWeeks);
      var variance := c4wAverageRaw - l4wAverageRaw;
      WindowStats(Round(l4wAverageRaw), Round(c4wAverageRaw), Round(variance),
                  if l4wAverageRaw > 0.0 then RoundTenth(variance / l4wAverageRaw * 100.0) else 0.0)
  }

  /** The records the weekly totals are taken from: the current year's, or all of them when it has none. */
  function EffectiveRecords(records: seq<StoredRecord>, currentYear: Option<int>): seq<StoredRecord> {
    var recordsForYear :=
      if currentYear.Some? && currentYear.value != 0 then Select(records, (r: StoredRecord) => YearOf(r) == currentYear.value)
      else records;
    if |recordsForYear| > 0 then recordsForYear else records
  }

  /** The result of `generateL4WC4WData(records, currentYear)`. */
  function L4WC4W(records: seq<StoredRecord>, currentYear: Option<int>): WindowStats {
    if |records| == 0 then ZeroWindow
    else Windows(SortByStamp(WeeklyTotals(EffectiveRecords(records, currentYear))))
  }

  /** `generateL4WC4WData`. */
  method GenerateL4WC4WData(records: seq<StoredRecord>, currentYear: Option<int>) returns (r: WindowStats)
    ensures r == L4WC4W(records, currentYear)
  {
    if |records| == 0 {
      return ZeroWindow;
    }
    var effectiveRecords := EffectiveRecords(records, currentYear);
    var weeklyTotals := AccumulateWeeks(effectiveRecords);
    var sorted := SortByStamp(weeklyTotals);
    r := Windows(sorted);
  }

  /**
    The C4W weeks are the four latest: none of the earlier weeks has a later
    timestamp. The L4W weeks are the (up to) four just before them: four
    from eight weeks on, the one to three weeks before the last four with
    five to seven weeks, and none with exactly four. With fewer than four
    weeks there is no L4W, no variance, and C4W is the mean of all.
  */
  lemma WindowsAreLatest(sorted: seq<WeekTotal>)
    requires SortedByStamp(sorted)
    ensures |sorted| >= 4 ==>
              (forall i, j :: 0 <= i < |sorted| - 4 <= j < |sorted| ==> sorted[i].timestamp <= sorted[j].timestamp)
              && Windows(sorted).c4wAverage == Round(SumTotals(sorted[|sorted| - 4..]) / 4.0)
    ensures |sorted| >= 8 ==> Windows(sorted).l4wAverage == Round(SumTotals(sorted[|sorted| - 8..|sorted| - 4]) / 4.0)
    ensures 4 < |sorted| < 8 ==> Windows(sorted).l4wAverage == Round(Mean(sorted[..|sorted| - 4]))
    ensures |sorted| == 4 ==> Windows(sorted).l4wAverage == 0 && Windows(sorted).variancePercentage == 0.0
    ensures |sorted| < 4 ==>
              Windows(sorted).l4wAverage == 0 && Windows(sorted).c4wAverage == Round(Mean(sorted))
              && Windows(sorted).variance == 0 && Windows(sorted).variancePercentage == 0.0
  {
  }

  /** The weeks L4W averages once there are four or more: up to four just before the last four. */
  function L4WWeeks(sorted: seq<WeekTotal>): seq<WeekTotal>
    requires |sorted| >= 4
  {
    sorted[if |sorted| >= 8 then |sorted| - 8 else 0..|sorted| - 4]
  }

  /**
    From four weeks on, the variance is the C4W mean less the L4W mean,
    rounded, and a rise shows as a non-negative and a fall as a
    non-positive variance. The percentage is taken against a positive L4W
    mean only, and then has the sign of the change; otherwise it is 0.
  */
  lemma WindowVariance(sorted: seq<WeekTotal>)
    requires |sorted| >= 4
    ensures var c := Mean(sorted[|sorted| - 4..]); var l := Mean(L4WWeeks(sorted));
            && Windows(sorted).variance == Round(c - l)
            && (c >= l ==> Windows(sorted).variance >= 0)
            && (c <= l ==> Windows(sorted).variance <= 0)
            && (l > 0.0 ==> Windows(sorted).variancePercentage == RoundTenth((c - l) / l * 100.0))
            && (l > 0.0 && c >= l ==> Windows(sorted).variancePercentage >= 0.0)
            && (l > 0.0 && c <= l ==> Windows(sorted).variancePercentage <= 0.0)
            && (l <= 0.0 ==> Windows(sorted).variancePercentage == 0.0)
  {
    var c := Mean(sorted[|sorted| - 4..]);
    var l := Mean(L4WWeeks(sorted));
    if l > 0.0 {
      RatioSign(c - l, l);
    }
  }

  /** A difference divided by a positive base keeps its sign through the percentage and its rounding. */
  lemma RatioSign(d: real, l: real)
    requires l > 0.0
    ensures d >= 0.0 ==> RoundTenth(d / l * 100.0) >= 0.0
    ensures d <= 0.0 ==> RoundTenth(d / l * 100.0) <= 0.0
  {
    var p := d / l * 100.0;
    assert d >= 0.0 ==> p >= 0.0;
    assert d <= 0.0 ==> p <= 0.0;
    var n := Round(p * 10.0);
    assert p >= 0.0 ==> n >= 0;
    assert p <= 0.0 ==> n <= 0;
  }

  /** When the chosen year has no records, the totals are taken over all records. */
  lemma YearFallback(records: seq<StoredRecord>, year: int)
    requires year != 0
    requires forall k :: 0 <= k < |records| ==> YearOf(records[k]) != year
    ensures EffectiveRecords(records, Some(year)) == records
  {
    var p := (r: StoredRecord) => YearOf(r) == year;
    if |Select(records, p)| > 0 {
      var x := Select(records, p)[0];
      assert x in Select(records, p);
    }
  }

  // ===========================================================================
  // generateYearOnYearGrowth
  // ===========================================================================

  datatype YearStats = YearStats(previousYearTotal: int, currentYearTotal: int, variance: int, variancePercentage: real)

  const ZeroYear: YearStats := YearStats(0, 0, 0, 0.0)

  function InYear(year: int): StoredRecord -> bool {
    r => YearOf(r) == year
  }

  /** The omzet of the records of `year`. */
  function YearTotal(records: seq<StoredRecord>, year: int): real {
    Total(Select(records, InYear(year)))
  }

  /** `generateYearOnYearGrowth`: the two years' totals, their difference and the growth in percent to one decimal. */
  function YearOnYear(records: seq<StoredRecord>, previousYear: int, currentYear: int): (r: YearStats)
    ensures r.previousYearTotal == Round(YearTotal(records, previousYear))
    ensures r.currentYearTotal == Round(YearTotal(records, currentYear))
    ensures YearTotal(records, previousYear) <= 0.0 ==> r.variancePercentage == 0.0
  {
    var previousYearTotal := YearTotal(records, previousYear);
    var currentYearTotal := YearTotal(records, currentYear);
    var variance := currentYearTotal - previousYearTotal;
    YearStats(Round(previousYearTotal), Round(currentYearTotal), Round(variance),
              if previousYearTotal > 0.0 then RoundTenth(variance / previousYearTotal * 100.0) else 0.0)
  }

  /** Comparing a year with itself shows no growth. */
  lemma SameYearNoGrowth(records: seq<StoredRecord>, year: int)
    ensures YearOnYear(records, year, year).variance == 0
    ensures YearOnYear(records, year, year).variancePercentage == 0.0
  {
    assert Round(0.0) == 0;
  }

  /** The total of two concatenated record lists is the sum of their totals. */
  lemma {:induction false} TotalConcat(a: seq<StoredRecord>, b: seq<StoredRecord>)
    ensures Total(a + b) == Total(a) + Total(b)
    decreases |b|
  {
    if b == [] {
      assert a + b == a;
    } else {
      var n := |b| - 1;
      assert (a + b)[..|a + b| - 1] == a + b[..n];
      TotalConcat(a, b[..n]);
    }
  }

  lemma {:induction false} SelectConcat(a: seq<StoredRecord>, b: seq<StoredRecord>, p: StoredRecord -> bool)
    ensures Select(a + b, p) == Select(a, p) + Select(b, p)
    decreases |b|
  {
    if b == [] {
      assert a + b == a;
    } else {
      var n := |b| - 1;
      assert (a + b)[..|a + b| - 1] == a + b[..n];
      SelectConcat(a, b[..n], p);
    }
  }

  /** A year's total over two lists of records is the sum of its totals over each. */
  lemma YearTotalConcat(a: seq<StoredRecord>, b: seq<StoredRecord>, year: int)
    ensures YearTotal(a + b, year) == YearTotal(a, year) + YearTotal(b, year)
  {
    SelectConcat(a, b, InYear(year));
    TotalConcat(Select(a, InYear(year)), Select(b, InYear(year)));
  }
}
