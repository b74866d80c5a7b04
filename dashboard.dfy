/**
  `processSalesRecords` of `lib/database.ts`: it groups the stored records
  by year and week, chooses the two years to compare, builds the week by
  week comparison and the weekly series of those two years, and hands the
  records to the three aggregations of `SalesAggregates`.
*/
module Dashboard {
  import opened Wrappers
  import opened JsText
  import opened SalesAggregates
  import opened Collections

  // ===========================================================================
  // Grouping by year and week
  // ===========================================================================

  /**
    The key `${year}-${week}` of a record. Years and weeks are integers, and
    the year's digits end at the first '-' after an optional sign, so two
    different pairs never give the same key: the pair stands for the string.
  */
  type Key = (int, int)

  function KeyOf(r: StoredRecord): Key { (YearOf(r), r.week) }

  function HasKey(k: Key): StoredRecord -> bool {
    r => KeyOf(r) == k
  }

  /** `weeklyMap.get(key) || []`. */
  function Lookup(m: map<Key, seq<StoredRecord>>, k: Key): seq<StoredRecord> {
    if k in m then m[k] else []
  }

  /** The map the `forEach` builds: each record pushed onto the list of its key, in order. */
  function Group(rs: seq<StoredRecord>): map<Key, seq<StoredRecord>> {
    if rs == [] then map[]
    else
      var m := Group(rs[..|rs| - 1]);
      var r := rs[|rs| - 1];
      m[KeyOf(r) := Lookup(m, KeyOf(r)) + [r]]
  }

  /** The set of years the `forEach` collects. */
  function Years(rs: seq<StoredRecord>): (ys: set<int>)
    ensures forall k :: 0 <= k < |rs| ==> YearOf(rs[k]) in ys
    ensures forall y :: y in ys ==> exists k :: 0 <= k < |rs| && YearOf(rs[k]) == y
  {
    if rs == [] then {}
    else
      var front := rs[..|rs| - 1];
      var ys := Years(front);
      assert forall k :: 0 <= k < |front| ==> front[k] == rs[k];
      ys + {YearOf(rs[|rs| - 1])}
  }

  /**
    A key's list holds exactly the records with that key, in their original
    order, and the key is in the map exactly when some record has it.
  */
  lemma {:induction false} GroupLookup(rs: seq<StoredRecord>, k: Key)
    ensures Lookup(Group(rs), k) == Select(rs, HasKey(k))
    ensures k in Group(rs) <==> Select(rs, HasKey(k)) != []
  {
    if rs != [] {
      var front := rs[..|rs| - 1];
      var r := rs[|rs| - 1];
      GroupLookup(front, k);
      if KeyOf(r) == k {
        assert Select(rs, HasKey(k)) == Select(front, HasKey(k)) + [r];
      } else {
        assert Select(rs, HasKey(k)) == Select(front, HasKey(k));
        assert Lookup(Group(rs), k) == Lookup(Group(front), k);
      }
    }
  }

  /** The `forEach` over all records: it pushes each record onto its key's list and adds its year. */
  method GroupRecords(records: seq<StoredRecord>) returns (weeklyMap: map<Key, seq<StoredRecord>>, yearSet: set<int>)
    ensures weeklyMap == Group(records)
    ensures yearSet == Years(records)
  {
    weeklyMap := map[];
    yearSet := {};
    for i := 0 to |records|
      invariant weeklyMap == Group(records[..i])
      invariant yearSet == Years(records[..i])
    {
      var record := records[i];
      var year := YearOf(record);
      yearSet := yearSet + {year};
      var key := (year, record.week);
      ghost var before := weeklyMap;
      if key !in weeklyMap {
        weeklyMap := weeklyMap[key := []];
      }
      PushOnto(before, weeklyMap, key, record);
      weeklyMap := weeklyMap[key := weeklyMap[key] + [record]];
      GroupedStep(records, i);
    }
    assert records[..|records|] == records;
  }

  /** Creating the list when missing and then pushing is pushing onto the looked-up list. */
  lemma PushOnto(m0: map<Key, seq<StoredRecord>>, m1: map<Key, seq<StoredRecord>>, key: Key, r: StoredRecord)
    requires m1 == if key in m0 then m0 else m0[key := []]
    ensures key in m1 && m1[key := m1[key] + [r]] == m0[key := Lookup(m0, key) + [r]]
  {
  }

  /** One more record: its key's list grows by it and its year joins the years. */
  lemma GroupedStep(records: seq<StoredRecord>, i: nat)
    requires i < |records|
    ensures var r := records[i];
            && Group(records[..i + 1]) == Group(records[..i])[KeyOf(r) := Lookup(Group(records[..i]), KeyOf(r)) + [r]]
            && Years(records[..i + 1]) == Years(records[..i]) + {YearOf(r)}
  {
    assert records[..i + 1][..i] == records[..i];
  }

  // ===========================================================================
  // The years compared
  // ===========================================================================

  /** The years to compare, as the optional filters ask for them. */
  datatype Filters = Filters(year1: Option<int>, year2: Option<int>)

  /** `Array.from(yearSet).sort((a, b) => a - b)`: the years of the records, ascending; some year for some record. */
  function RecordYears(records: seq<StoredRecord>): (r: seq<int>)
    ensures records != [] ==> r != []
    ensures |r| == |Years(records)|
    ensures forall y :: y in Years(records) <==> y in r
    ensures forall i, j :: 0 <= i < j < |r| ==> r[i] < r[j]
  {
    IntLessIsStrictTotalOrder();
    var r := SortedSet(Years(records), IntLess);
    if records != [] then assert YearOf(records[0]) in r; r else r
  }

  /** `filters?.year2 ?? sortedYears[sortedYears.length - 1]`. */
  function CurrentYear(records: seq<StoredRecord>, filters: Filters): int
    requires records != []
  {
    var sortedYears := RecordYears(records);
    filters.year2.GetOr(sortedYears[|sortedYears| - 1])
  }

  /** `filters?.year1 ?? (sortedYears.length > 1 ? sortedYears[sortedYears.length - 2] : currentYear)`. */
  function PreviousYear(records: seq<StoredRecord>, filters: Filters): int
    requires records != []
  {
    var sortedYears := RecordYears(records);
    filters.year1.GetOr(if |sortedYears| > 1 then sortedYears[|sortedYears| - 2] else CurrentYear(records, filters))
  }

  /** Without a `year2` filter the current year is the latest year of any record. */
  lemma CurrentYearIsLatest(records: seq<StoredRecord>, filters: Filters)
    requires records != [] && filters.year2.None?
    ensures exists k :: 0 <= k < |records| && YearOf(records[k]) == CurrentYear(records, filters)
    ensures forall k :: 0 <= k < |records| ==> YearOf(records[k]) <= CurrentYear(records, filters)
  {
    var s := RecordYears(records);
    var c := CurrentYear(records, filters);
    assert c == s[|s| - 1] && c in s;
    forall k | 0 <= k < |records|
      ensures YearOf(records[k]) <= c
    {
      var y := YearOf(records[k]);
      assert y in s;
      var i :| 0 <= i < |s| && s[i] == y;
      assert i == |s| - 1 || s[i] < s[|s| - 1];
    }
  }

  /**
    Without a `year1` filter the previous year is the latest year before
    the latest one when the records span more than one year, and the
    current year otherwise (which is then `year2` when that is given).
  */
  lemma {:induction false} PreviousYearIsSecondLatest(records: seq<StoredRecord>, filters: Filters)
    requires records != [] && filters.year1.None?
    ensures |Years(records)| == 1 ==> PreviousYear(records, filters) == CurrentYear(records, filters)
    ensures |Years(records)| > 1 ==>
              var p := PreviousYear(records, filters);
              (exists k :: 0 <= k < |records| && YearOf(records[k]) == p)
              && (exists k :: 0 <= k < |records| && YearOf(records[k]) > p)
              && (forall k :: 0 <= k < |records| && YearOf(records[k]) > p ==>
                    forall j :: 0 <= j < |records| ==> YearOf(records[j]) <= YearOf(records[k]))
  {
    var s := RecordYears(records);
    if |s| > 1 {
      TopTwoYears(records, s, s[|s| - 2]);
    }
  }

  /** In the ascending years of the records, the one before the last is held by a record and exceeded only by the latest. */
  lemma TopTwoYears(records: seq<StoredRecord>, s: seq<int>, p: int)
    requires |s| > 1 && p == s[|s| - 2]
    requires forall k :: 0 <= k < |records| ==> YearOf(records[k]) in s
    requires forall y :: y in s ==> exists k :: 0 <= k < |records| && YearOf(records[k]) == y
    requires forall i, j :: 0 <= i < j < |s| ==> s[i] < s[j]
    ensures exists k :: 0 <= k < |records| && YearOf(records[k]) == p
    ensures exists k :: 0 <= k < |records| && YearOf(records[k]) > p
    ensures forall k :: 0 <= k < |records| && YearOf(records[k]) > p ==>
              forall j :: 0 <= j < |records| ==> YearOf(records[j]) <= YearOf(records[k])
  {
    var top := s[|s| - 1];
    assert top in s && p in s;
    var kt :| 0 <= kt < |records| && YearOf(records[kt]) == top;
    assert YearOf(records[kt]) > p;
    forall k | 0 <= k < |records|
      ensures YearOf(records[k]) <= top
      ensures YearOf(records[k]) > p ==> YearOf(records[k]) == top
    {
      TopTwo(s, YearOf(records[k]));
    }
  }

  /** In an ascending sequence nothing exceeds the last element, and only the last exceeds the one before it. */
  lemma TopTwo(s: seq<int>, y: int)
    requires |s| > 1 && y in s
    requires forall i, j :: 0 <= i < j < |s| ==> s[i] < s[j]
    ensures y <= s[|s| - 1]
    ensures y > s[|s| - 2] ==> y == s[|s| - 1]
  {
    var i :| 0 <= i < |s| && s[i] == y;
    if i < |s| - 1 {
      assert s[i] < s[|s| - 1];
      assert i == |s| - 2 || s[i] < s[|s| - 2];
    }
  }

  // ===========================================================================
  // The weekly comparison
  // ===========================================================================

  datatype WeekComparison = WeekComparison(week: int, previousYear: real, currentYear: real, variance: real, variancePercentage: real)

  datatype WeeklySales = WeeklySales(week: int, year: int, sales: real, target: real)

  /** The omzet summed over the records of `year` and `week`, as the `reduce` adds it up. */
  function Sales(m: map<Key, seq<StoredRecord>>, year: int, week: int): real {
    Total(Lookup(m, (year, week)))
  }

  /** The forecast shown beside a week's sales: ten percent above them. */
  function Forecast(sales: real): real {
    sales * 1.1
  }

  /** The entry pushed for a week with the two years' sales. */
  function ComparisonOf(week: int, prev: real, curr: real): WeekComparison {
    WeekComparison(week, prev, curr, curr - prev, if prev > 0.0 then (curr - prev) / prev * 100.0 else 0.0)
  }

  /** A week enters the comparison when either year sold something in it. */
  predicate Compared(m: map<Key, seq<StoredRecord>>, py: int, cy: int, week: int) {
    Sales(m, py, week) > 0.0 || Sales(m, cy, week) > 0.0
  }

  /** What one week contributes to `weekComparisons`. */
  function ComparisonsOfWeek(m: map<Key, seq<StoredRecord>>, py: int, cy: int, week: int): seq<WeekComparison> {
    if Compared(m, py, cy, week) then [ComparisonOf(week, Sales(m, py, week), Sales(m, cy, week))] else []
  }

  /** What one week contributes to `weeklyData`: the current year's entry first, then the previous year's. */
  function EntriesOfWeek(m: map<Key, seq<StoredRecord>>, py: int, cy: int, week: int): seq<WeeklySales> {
    var curr := Sales(m, cy, week);
    var prev := Sales(m, py, week);
    (if curr > 0.0 then [WeeklySales(week, cy, curr, Forecast(curr))] else [])
    + (if prev > 0.0 then [WeeklySales(week, py, prev, Forecast(prev))] else [])
  }

  // ---------------------------------------------------------------------------
  // Series built week by week
  // ---------------------------------------------------------------------------

  /** What a loop over weeks 1 to `n` pushes when week `w` contributes `f(w)`. */
  function WeekByWeek<T>(f: int -> seq<T>, n: nat): seq<T> {
    if n == 0 then [] else WeekByWeek(f, n - 1) + f(n)
  }

  /** The elements of `xs` that belong to week `week`, in order. */
  function OfWeek<T>(xs: seq<T>, weekOf: T -> int, week: int): (r: seq<T>)
    ensures forall x :: x in r ==> x in xs && weekOf(x) == week
  {
    if xs == [] then []
    else OfWeek(xs[..|xs| - 1], weekOf, week) + (if weekOf(xs[|xs| - 1]) == week then [xs[|xs| - 1]] else [])
  }

  /** Every element week `w` contributes belongs to week `w`. */
  ghost predicate PerWeek<T>(f: int -> seq<T>, weekOf: T -> int) {
    forall w, x :: x in f(w) ==> weekOf(x) == w
  }

  lemma {:induction false} OfWeekConcat<T>(a: seq<T>, b: seq<T>, weekOf: T -> int, week: int)
    ensures OfWeek(a + b, weekOf, week) == OfWeek(a, weekOf, week) + OfWeek(b, weekOf, week)
    decreases |b|
  {
    if b == [] {
      assert a + b == a;
    } else {
      var b' := b[..|b| - 1];
      assert (a + b)[..|a + b| - 1] == a + b';
      OfWeekConcat(a, b', weekOf, week);
    }
  }

  lemma {:induction false} OfWeekNone<T>(xs: seq<T>, weekOf: T -> int, week: int)
    requires forall x :: x in xs ==> weekOf(x) != week
    ensures OfWeek(xs, weekOf, week) == []
  {
    if xs != [] {
      assert xs[|xs| - 1] in xs;
      var front := xs[..|xs| - 1];
      FrontIn(xs);
      OfWeekNone(front, weekOf, week);
    }
  }

  lemma {:induction false} OfWeekAll<T>(xs: seq<T>, weekOf: T -> int, week: int)
    requires forall x :: x in xs ==> weekOf(x) == week
    ensures OfWeek(xs, weekOf, week) == xs
  {
    if xs != [] {
      assert xs[|xs| - 1] in xs;
      var front := xs[..|xs| - 1];
      FrontIn(xs);
      OfWeekAll(front, weekOf, week);
      FrontThenLast(xs);
    }
  }

  lemma FrontIn<T>(xs: seq<T>)
    requires xs != []
    ensures forall x :: x in xs[..|xs| - 1] ==> x in xs
  {
  }

  lemma FrontThenLast<T>(xs: seq<T>)
    requires xs != []
    ensures xs[..|xs| - 1] + [xs[|xs| - 1]] == xs
  {
  }

  /** Every element pushed in weeks 1 to `n` belongs to one of those weeks. */
  lemma {:induction false} WeeksInRange<T>(f: int -> seq<T>, weekOf: T -> int, n: nat)
    requires PerWeek(f, weekOf)
    ensures forall x :: x in WeekByWeek(f, n) ==> 1 <= weekOf(x) <= n
  {
    if n > 0 {
      WeeksInRange(f, weekOf, n - 1);
    }
  }

  /** Picking one week out of weeks 1 to `n` gives back what that week pushed, and nothing for any other week. */
  lemma {:induction false} OfEachWeek<T>(f: int -> seq<T>, weekOf: T -> int, n: nat, week: int)
    requires PerWeek(f, weekOf)
    ensures OfWeek(WeekByWeek(f, n), weekOf, week) == if 1 <= week <= n then f(week) else []
  {
    if n > 0 {
      if week == n {
        OfLastWeek(f, weekOf, n);
      } else {
        OfEachWeek(f, weekOf, n - 1, week);
        OfEarlierWeek(f, weekOf, n, week);
      }
    }
  }

  lemma OfLastWeek<T>(f: int -> seq<T>, weekOf: T -> int, n: nat)
    requires PerWeek(f, weekOf) && n > 0
    ensures OfWeek(WeekByWeek(f, n), weekOf, n) == f(n)
  {
    WeeksInRange(f, weekOf, n - 1);
    PerWeekAt(f, weekOf, n);
    OfNewestWeek(f, weekOf, n);
  }

  lemma PerWeekAt<T>(f: int -> seq<T>, weekOf: T -> int, w: int)
    requires PerWeek(f, weekOf)
    ensures forall x :: x in f(w) ==> weekOf(x) == w
  {
  }

  lemma OfNewestWeek<T>(f: int -> seq<T>, weekOf: T -> int, n: nat)
    requires n > 0
    requires forall x :: x in WeekByWeek(f, n - 1) ==> weekOf(x) < n
    requires forall x :: x in f(n) ==> weekOf(x) == n
    ensures OfWeek(WeekByWeek(f, n), weekOf, n) == f(n)
  {
    var front := WeekByWeek(f, n - 1);
    OfWeekConcat(front, f(n), weekOf, n);
    OfWeekNone(front, weekOf, n);
    OfWeekAll(f(n), weekOf, n);
    assert [] + f(n) == f(n);
  }

  lemma OfEarlierWeek<T>(f: int -> seq<T>, weekOf: T -> int, n: nat, week: int)
    requires PerWeek(f, weekOf) && n > 0 && week != n
    ensures OfWeek(WeekByWeek(f, n), weekOf, week) == OfWeek(WeekByWeek(f, n - 1), weekOf, week)
  {
    var front := WeekByWeek(f, n - 1);
    OfWeekConcat(front, f(n), weekOf, week);
    OfWeekNone(f(n), weekOf, week);
    var before := OfWeek(front, weekOf, week);
    assert before + [] == before;
  }

  /** When each week pushes at most one element, the elements are in strictly ascending order of week. */
  lemma {:induction false} WeeksAscending<T>(f: int -> seq<T>, weekOf: T -> int, n: nat)
    requires PerWeek(f, weekOf)
    requires forall w :: |f(w)| <= 1
    ensures forall i, j :: 0 <= i < j < |WeekByWeek(f, n)| ==> weekOf(WeekByWeek(f, n)[i]) < weekOf(WeekByWeek(f, n)[j])
  {
    if n > 0 {
      WeeksAscending(f, weekOf, n - 1);
      WeeksInRange(f, weekOf, n - 1);
      var xs := WeekByWeek(f, n);
      var front := WeekByWeek(f, n - 1);
      assert |f(n)| <= 1 && xs == front + f(n);
      forall i, j | 0 <= i < j < |xs|
        ensures weekOf(xs[i]) < weekOf(xs[j])
      {
        assert |xs| == |front| + |f(n)|;
        if j >= |front| {
          assert i < |front|;
          assert xs[j] == f(n)[j - |front|] && xs[j] in f(n);
          assert weekOf(xs[j]) == n;
          assert xs[i] == front[i] && xs[i] in front;
          assert weekOf(xs[i]) <= n - 1;
        } else {
          assert xs[i] == front[i] && xs[j] == front[j];
        }
      }
    }
  }

  /** Every element is among those of its own week. */
  lemma {:induction false} InOfItsWeek<T>(xs: seq<T>, weekOf: T -> int, i: int)
    requires 0 <= i < |xs|
    ensures xs[i] in OfWeek(xs, weekOf, weekOf(xs[i]))
  {
    var front := xs[..|xs| - 1];
    if i < |xs| - 1 {
      assert xs[i] == front[i];
      InOfItsWeek(front, weekOf, i);
    }
  }

  // ---------------------------------------------------------------------------
  // The two series
  // ---------------------------------------------------------------------------

  function ComparisonWeek(c: WeekComparison): int { c.week }

  function EntryWeek(e: WeeklySales): int { e.week }

  function ComparisonsByWeek(m: map<Key, seq<StoredRecord>>, py: int, cy: int): int -> seq<WeekComparison> {
    w => ComparisonsOfWeek(m, py, cy, w)
  }

  function EntriesByWeek(m: map<Key, seq<StoredRecord>>, py: int, cy: int): int -> seq<WeeklySales> {
    w => EntriesOfWeek(m, py, cy, w)
  }

  /** `weekComparisons` after weeks 1 to `n`. */
  function Comparisons(m: map<Key, seq<StoredRecord>>, py: int, cy: int, n: nat): seq<WeekComparison> {
    WeekByWeek(ComparisonsByWeek(m, py, cy), n)
  }

  /** `weeklyData` after weeks 1 to `n`. */
  function WeeklyEntries(m: map<Key, seq<StoredRecord>>, py: int, cy: int, n: nat): seq<WeeklySales> {
    WeekByWeek(EntriesByWeek(m, py, cy), n)
  }

  /** The weeks the comparison runs over are 1 to 52. */
  const WeeksInYear: nat := 52

  /** The loop over weeks 1 to 52. */
  method CompareWeeks(weeklyMap: map<Key, seq<StoredRecord>>, previousYear: int, currentYear: int)
    returns (weeklyData: seq<WeeklySales>, weekComparisons: seq<WeekComparison>)
    ensures weeklyData == WeeklyEntries(weeklyMap, previousYear, currentYear, WeeksInYear)
    ensures weekComparisons == Comparisons(weeklyMap, previousYear, currentYear, WeeksInYear)
  {
    weeklyData := [];
    weekComparisons := [];
    for week := 1 to WeeksInYear + 1
      invariant weeklyData == WeeklyEntries(weeklyMap, previousYear, currentYear, week - 1)
      invariant weekComparisons == Comparisons(weeklyMap, previousYear, currentYear, week - 1)
    {
      var prevYearSales := Total(Lookup(weeklyMap, (previousYear, week)));
      var currYearSales := Total(Lookup(weeklyMap, (currentYear, week)));
      ghost var data0, comparisons0 := weeklyData, weekComparisons;
      if prevYearSales > 0.0 || currYearSales > 0.0 {
        weekComparisons := weekComparisons + [ComparisonOf(week, prevYearSales, currYearSales)];
      }
      if currYearSales > 0.0 {
        weeklyData := weeklyData + [WeeklySales(week, currentYear, currYearSales, Forecast(currYearSales))];
      }
      if prevYearSales > 0.0 {
        weeklyData := weeklyData + [WeeklySales(week, previousYear, prevYearSales, Forecast(prevYearSales))];
      }
      NextWeek(weeklyMap, previousYear, currentYear, week, comparisons0, data0, weekComparisons, weeklyData);
    }
  }

  /** What week `week` pushes extends the lists of the weeks before it to those of weeks 1 to `week`. */
  lemma NextWeek(m: map<Key, seq<StoredRecord>>, py: int, cy: int, week: nat,
                 comparisons0: seq<WeekComparison>, data0: seq<WeeklySales>,
                 comparisons: seq<WeekComparison>, data: seq<WeeklySales>)
    requires week > 0
    requires comparisons0 == Comparisons(m, py, cy, week - 1) && data0 == WeeklyEntries(m, py, cy, week - 1)
    requires var prev := Total(Lookup(m, (py, week)));
             var curr := Total(Lookup(m, (cy, week)));
             && comparisons == comparisons0 + (if prev > 0.0 || curr > 0.0 then [ComparisonOf(week, prev, curr)] else [])
             && data == data0 + (if curr > 0.0 then [WeeklySales(week, cy, curr, Forecast(curr))] else [])
                        + (if prev > 0.0 then [WeeklySales(week, py, prev, Forecast(prev))] else [])
    ensures comparisons == Comparisons(m, py, cy, week)
    ensures data == WeeklyEntries(m, py, cy, week)
  {
    var prev := Total(Lookup(m, (py, week)));
    var curr := Total(Lookup(m, (cy, week)));
    NextWeekComparisons(m, py, cy, week, if prev > 0.0 || curr > 0.0 then [ComparisonOf(week, prev, curr)] else []);
    NextWeekEntries(m, py, cy, week, if curr > 0.0 then [WeeklySales(week, cy, curr, Forecast(curr))] else [],
                    if prev > 0.0 then [WeeklySales(week, py, prev, Forecast(prev))] else []);
  }

  /** What week `week` adds to the comparisons extends those of the weeks before it to those of weeks 1 to `week`. */
  lemma NextWeekComparisons(m: map<Key, seq<StoredRecord>>, py: int, cy: int, week: nat, compared: seq<WeekComparison>)
    requires week > 0
    requires var prev := Total(Lookup(m, (py, week)));
             var curr := Total(Lookup(m, (cy, week)));
             compared == (if prev > 0.0 || curr > 0.0 then [ComparisonOf(week, prev, curr)] else [])
    ensures Comparisons(m, py, cy, week - 1) + compared == Comparisons(m, py, cy, week)
  {
    WeekStep(m, py, cy, week);
  }

  /** What week `week` adds to the weekly data extends that of the weeks before it to that of weeks 1 to `week`. */
  lemma NextWeekEntries(m: map<Key, seq<StoredRecord>>, py: int, cy: int, week: nat,
                        current: seq<WeeklySales>, previous: seq<WeeklySales>)
    requires week > 0
    requires var prev := Total(Lookup(m, (py, week)));
             var curr := Total(Lookup(m, (cy, week)));
             && current == (if curr > 0.0 then [WeeklySales(week, cy, curr, Forecast(curr))] else [])
             && previous == (if prev > 0.0 then [WeeklySales(week, py, prev, Forecast(prev))] else [])
    ensures WeeklyEntries(m, py, cy, week - 1) + current + previous == WeeklyEntries(m, py, cy, week)
  {
    WeekStep(m, py, cy, week);
    AppendTwo(WeeklyEntries(m, py, cy, week - 1), current, previous);
  }

  lemma AppendTwo<T>(s: seq<T>, a: seq<T>, b: seq<T>)
    ensures s + a + b == s + (a + b)
  {
  }

  /** The two contributions of one week, written out. */
  lemma WeekStep(m: map<Key, seq<StoredRecord>>, py: int, cy: int, week: nat)
    requires week > 0
    ensures var prev := Total(Lookup(m, (py, week)));
            var curr := Total(Lookup(m, (cy, week)));
            && Comparisons(m, py, cy, week) == Comparisons(m, py, cy, week - 1) + ComparisonsOfWeek(m, py, cy, week)
            && WeeklyEntries(m, py, cy, week) == WeeklyEntries(m, py, cy, week - 1) + EntriesOfWeek(m, py, cy, week)
            && ComparisonsOfWeek(m, py, cy, week) == (if prev > 0.0 || curr > 0.0 then [ComparisonOf(week, prev, curr)] else [])
            && EntriesOfWeek(m, py, cy, week)
               == (if curr > 0.0 then [WeeklySales(week, cy, curr, Forecast(curr))] else [])
                  + (if prev > 0.0 then [WeeklySales(week, py, prev, Forecast(prev))] else [])
  {
  }

  lemma ComparisonsPerWeek(m: map<Key, seq<StoredRecord>>, py: int, cy: int)
    ensures PerWeek(ComparisonsByWeek(m, py, cy), ComparisonWeek)
    ensures forall w :: |ComparisonsByWeek(m, py, cy)(w)| <= 1
  {
  }

  lemma EntriesPerWeek(m: map<Key, seq<StoredRecord>>, py: int, cy: int)
    ensures PerWeek(EntriesByWeek(m, py, cy), EntryWeek)
  {
  }

  /**
    The comparison of any week: one entry for a week of 1 to 52 in which
    either year sold something, with the two years' sales, and none for
    any other week; the comparisons are in strictly ascending week order.
  */
  lemma ComparisonsOfEachWeek(m: map<Key, seq<StoredRecord>>, py: int, cy: int, week: int)
    ensures OfWeek(Comparisons(m, py, cy, WeeksInYear), ComparisonWeek, week)
            == if 1 <= week <= WeeksInYear && Compared(m, py, cy, week)
               then [ComparisonOf(week, Sales(m, py, week), Sales(m, cy, week))]
               else []
    ensures var cs := Comparisons(m, py, cy, WeeksInYear);
            forall i, j :: 0 <= i < j < |cs| ==> cs[i].week < cs[j].week
  {
    ComparisonsPerWeek(m, py, cy);
    OfEachWeek(ComparisonsByWeek(m, py, cy), ComparisonWeek, WeeksInYear, week);
    WeeksAscending(ComparisonsByWeek(m, py, cy), ComparisonWeek, WeeksInYear);
  }

  /**
    The weekly entries of any week: for a week of 1 to 52, the current
    year's entry when it sold something, followed by the previous year's
    entry when that year sold something, each with a target 10% above its
    sales; none for any other week.
  */
  lemma EntriesOfEachWeek(m: map<Key, seq<StoredRecord>>, py: int, cy: int, week: int)
    ensures OfWeek(WeeklyEntries(m, py, cy, WeeksInYear), EntryWeek, week)
            == if 1 <= week <= WeeksInYear then
                 (if Sales(m, cy, week) > 0.0 then [WeeklySales(week, cy, Sales(m, cy, week), Forecast(Sales(m, cy, week)))] else [])
                 + (if Sales(m, py, week) > 0.0 then [WeeklySales(week, py, Sales(m, py, week), Forecast(Sales(m, py, week)))] else [])
               else []
  {
    EntriesPerWeek(m, py, cy);
    OfEachWeek(EntriesByWeek(m, py, cy), EntryWeek, WeeksInYear, week);
  }

  /**
    A comparison's variance is the current year's sales less the previous
    year's, and its percentage has the sign of that variance; it is 0 when
    the previous year sold nothing.
  */
  lemma ComparisonSigns(week: int, prev: real, curr: real)
    ensures ComparisonOf(week, prev, curr).currentYear == ComparisonOf(week, prev, curr).previousYear + ComparisonOf(week, prev, curr).variance
    ensures prev <= 0.0 ==> ComparisonOf(week, prev, curr).variancePercentage == 0.0
    ensures prev > 0.0 ==> (ComparisonOf(week, prev, curr).variancePercentage > 0.0 <==> curr > prev)
    ensures prev > 0.0 ==> (ComparisonOf(week, prev, curr).variancePercentage < 0.0 <==> curr < prev)
  {
    if prev > 0.0 {
      var d := curr - prev;
      assert d / prev * 100.0 > 0.0 <==> d > 0.0 by {
        if d > 0.0 { assert d / prev > 0.0; }
        if d <= 0.0 { assert d / prev <= 0.0; }
      }
      assert d / prev * 100.0 < 0.0 <==> d < 0.0 by {
        if d < 0.0 { assert d / prev < 0.0; }
        if d >= 0.0 { assert d / prev >= 0.0; }
      }
    }
  }

  /**
    With only one year to compare (the previous year is the current one),
    every week that sold something appears twice in the weekly series, and
    its comparison shows no change.
  */
  lemma OneYearListedTwice(m: map<Key, seq<StoredRecord>>, year: int, week: int)
    requires 1 <= week <= WeeksInYear && Sales(m, year, week) > 0.0
    ensures var es := OfWeek(WeeklyEntries(m, year, year, WeeksInYear), EntryWeek, week);
            |es| == 2 && es[0] == es[1] && es[0].year == year
    ensures OfWeek(Comparisons(m, year, year, WeeksInYear), ComparisonWeek, week)
            == [WeekComparison(week, Sales(m, year, week), Sales(m, year, week), 0.0, 0.0)]
  {
    var s := Sales(m, year, week);
    EntriesOfEachWeek(m, year, year, week);
    ComparisonsOfEachWeek(m, year, year, week);
    SameSalesComparison(week, s);
  }

  /** Equal sales in both years: no variance. */
  lemma SameSalesComparison(week: int, s: real)
    requires s > 0.0
    ensures ComparisonOf(week, s, s) == WeekComparison(week, s, s, 0.0, 0.0)
  {
    assert (s - s) / s == 0.0;
  }

  /** The sales of a year and week are the omzet of exactly the records with that year and week. */
  lemma SalesOfRecords(records: seq<StoredRecord>, year: int, week: int)
    ensures Sales(Group(records), year, week) == Total(Select(records, HasKey((year, week))))
  {
    GroupLookup(records, (year, week));
  }

  // ===========================================================================
  // processSalesRecords
  // ===========================================================================

  datatype ComparisonYears = ComparisonYears(previousYear: Option<int>, currentYear: Option<int>)

  datatype SalesData = SalesData(
    weeklyData: seq<WeeklySales>,
    quarterlyData: seq<QuarterStats>,
    weekComparisons: seq<WeekComparison>,
    l4wc4wData: WindowStats,
    yearOnYearGrowth: YearStats,
    comparisonYears: ComparisonYears)

  /** `generateEmptyQuarterlyData`: Q1 to Q4, every amount zero. */
  function EmptyQuarterlyData(): (r: seq<QuarterStats>)
    ensures |r| == 4
    ensures forall i :: 0 <= i < 4 ==> r[i].quarter == QuarterNames[i]
    ensures forall q :: q in r ==> q.target == 0 && q.actual == 0 && q.variance == 0 && q.variancePercentage == 0.0
  {
    seq(4, i requires 0 <= i < 4 => QuarterStats(QuarterNames[i], 0, 0, 0, 0.0))
  }

  /** What `generateQuarterlyData` returns. */
  function QuarterlyData(records: seq<StoredRecord>, year: int): seq<QuarterStats> {
    seq(4, i requires 0 <= i < 4 => QuarterOf(records, year, i))
  }

  /** Four entries, each that of its quarter, are the quarterly data. */
  lemma QuarterlyDataIs(records: seq<StoredRecord>, year: int, q: seq<QuarterStats>)
    requires |q| == 4 && forall i :: 0 <= i < 4 ==> q[i] == QuarterOf(records, year, i)
    ensures q == QuarterlyData(records, year)
  {
  }

  /** The result for no records. */
  const EmptySalesData: SalesData :=
    SalesData([], EmptyQuarterlyData(), [], ZeroWindow, ZeroYear, ComparisonYears(None, None))

  /** The result of `processSalesRecords(records, filters)`. */
  function SalesDataOf(records: seq<StoredRecord>, filters: Filters): SalesData {
    if records == [] then EmptySalesData
    else
      var m := Group(records);
      var cy := CurrentYear(records, filters);
      var py := PreviousYear(records, filters);
      SalesData(WeeklyEntries(m, py, cy, WeeksInYear), QuarterlyData(records, cy), Comparisons(m, py, cy, WeeksInYear),
                L4WC4W(records, Some(cy)), YearOnYear(records, py, cy), ComparisonYears(Some(py), Some(cy)))
  }

  /**
    `processSalesRecords`. The checks `currentYear !== undefined` and the
    fallbacks `?? sortedYears[...]` never apply: with at least one record
    there is at least one year, so both years are always defined.
  */
  method ProcessSalesRecords(records: seq<StoredRecord>, filters: Filters) returns (data: SalesData)
    ensures data == SalesDataOf(records, filters)
  {
    if |records| == 0 {
      return EmptySalesData;
    }
    var weeklyMap, yearSet := GroupRecords(records);
    IntLessIsStrictTotalOrder();
    var sortedYears := SortedSet(yearSet, IntLess);
    var currentYear := filters.year2.GetOr(sortedYears[|sortedYears| - 1]);
    var previousYear := filters.year1.GetOr(if |sortedYears| > 1 then sortedYears[|sortedYears| - 2] else currentYear);
    ChosenYears(records, filters, sortedYears, previousYear, currentYear);
    var weeklyData, weekComparisons := CompareWeeks(weeklyMap, previousYear, currentYear);
    var quarterlyData := GenerateQuarterlyData(records, currentYear);
    var l4wc4wData := GenerateL4WC4WData(records, Some(currentYear));
    var yearOnYearGrowth := YearOnYear(records, previousYear, currentYear);
    QuarterlyDataIs(records, currentYear, quarterlyData);
    data := SalesData(weeklyData, quarterlyData, weekComparisons, l4wc4wData, yearOnYearGrowth,
                      ComparisonYears(Some(previousYear), Some(currentYear)));
    SalesDataOfRecords(records, filters, previousYear, currentYear);
  }

  /** The years `processSalesRecords` picks from the sorted years are the current and previous year. */
  lemma ChosenYears(records: seq<StoredRecord>, filters: Filters, sortedYears: seq<int>, previousYear: int, currentYear: int)
    requires records != [] && sortedYears == SortedSet(Years(records), IntLess)
    requires |sortedYears| > 0 && currentYear == filters.year2.GetOr(sortedYears[|sortedYears| - 1])
    requires previousYear == filters.year1.GetOr(if |sortedYears| > 1 then sortedYears[|sortedYears| - 2] else currentYear)
    ensures currentYear == CurrentYear(records, filters) && previousYear == PreviousYear(records, filters)
  {
    assert sortedYears == RecordYears(records);
  }

  /** With records, the result is assembled from the parts for the chosen years. */
  lemma SalesDataOfRecords(records: seq<StoredRecord>, filters: Filters, previousYear: int, currentYear: int)
    requires records != []
    requires currentYear == CurrentYear(records, filters) && previousYear == PreviousYear(records, filters)
    ensures var m := Group(records);
            SalesDataOf(records, filters)
            == SalesData(WeeklyEntries(m, previousYear, currentYear, WeeksInYear), QuarterlyData(records, currentYear),
                         Comparisons(m, previousYear, currentYear, WeeksInYear), L4WC4W(records, Some(currentYear)),
                         YearOnYear(records, previousYear, currentYear), ComparisonYears(Some(previousYear), Some(currentYear)))
  {
  }

  /**
    For no records every part is empty or zero and no years are chosen. The
    empty quarters differ from what `generateQuarterlyData` gives for no
    records, whose targets are the 100000 fallback; the other two empty
    parts agree with their generators.
  */
  lemma NoRecords(filters: Filters, year: int, pyear: int)
    ensures SalesDataOf([], filters).weeklyData == [] && SalesDataOf([], filters).weekComparisons == []
    ensures SalesDataOf([], filters).comparisonYears == ComparisonYears(None, None)
    ensures SalesDataOf([], filters).l4wc4wData == L4WC4W([], Some(year))
    ensures SalesDataOf([], filters).yearOnYearGrowth == YearOnYear([], pyear, year)
    ensures forall i :: 0 <= i < 4 ==>
              SalesDataOf([], filters).quarterlyData[i].target == 0 && QuarterOf([], year, i).target == 100000
  {
    assert Round(0.0) == 0;
    assert Round(100000.0) == 100000;
  }

  /**
    With records, both years are chosen, every comparison is that of its
    week's totals over the records of the two years, and the year-on-year
    totals are the totals of those two years.
  */
  lemma ComparisonsOfRecords(records: seq<StoredRecord>, filters: Filters, i: int)
    requires records != []
    requires 0 <= i < |SalesDataOf(records, filters).weekComparisons|
    ensures var d := SalesDataOf(records, filters);
            var c := d.weekComparisons[i];
            d.comparisonYears.previousYear.Some? && d.comparisonYears.currentYear.Some?
            && 1 <= c.week <= WeeksInYear
            && c.previousYear == Total(Select(records, HasKey((d.comparisonYears.previousYear.value, c.week))))
            && c.currentYear == Total(Select(records, HasKey((d.comparisonYears.currentYear.value, c.week))))
            && (c.previousYear > 0.0 || c.currentYear > 0.0)
  {
    var m := Group(records);
    var py := PreviousYear(records, filters);
    var cy := CurrentYear(records, filters);
    var c := Comparisons(m, py, cy, WeeksInYear)[i];
    ComparisonAt(m, py, cy, i);
    SalesOfRecords(records, py, c.week);
    SalesOfRecords(records, cy, c.week);
  }

  /** Each comparison is that of its week, a week of 1 to 52 in which either year sold something. */
  lemma ComparisonAt(m: map<Key, seq<StoredRecord>>, py: int, cy: int, i: int)
    requires 0 <= i < |Comparisons(m, py, cy, WeeksInYear)|
    ensures var c := Comparisons(m, py, cy, WeeksInYear)[i];
            && 1 <= c.week <= WeeksInYear
            && Compared(m, py, cy, c.week)
            && c == ComparisonOf(c.week, Sales(m, py, c.week), Sales(m, cy, c.week))
  {
    var cs := Comparisons(m, py, cy, WeeksInYear);
    var c := cs[i];
    ComparisonsPerWeek(m, py, cy);
    WeeksInRange(ComparisonsByWeek(m, py, cy), ComparisonWeek, WeeksInYear);
    assert c in cs;
    ComparisonsOfEachWeek(m, py, cy, c.week);
    InOfItsWeek(cs, ComparisonWeek, i);
  }
}
