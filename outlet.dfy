/**
  The derived data of `components/OutletContributionSection.tsx`: the
  filter options, the three-way filter, the DOZ Net summed per week and per
  outlet type, the contribution shares, the summary metrics and the status
  of a week's share.
*/
module OutletContribution {
  import opened Wrappers
  import opened JsText
  import opened Collections

  /** An outlet sales item; `None` is an absent (`undefined`) field. */
  datatype OutletItem = OutletItem(
    outletType: Option<string>,
    category: Option<string>,
    product: Option<string>,
    week: int,
    dozNet: Option<real>)

  function OutletTypeOf(item: OutletItem): Option<string> { item.outletType }

  function CategoryOf(item: OutletItem): Option<string> { item.category }

  function ProductOf(item: OutletItem): Option<string> { item.product }

  /** A text field is truthy: present and not empty. */
  predicate Present(v: Option<string>) { v.Some? && v.value != "" }

  /** `item.dozNet || 0`. */
  function Doz(item: OutletItem): real { item.dozNet.GetOr(0.0) }

  /** The DOZ Net of `items`, added up from the left. */
  function SumDoz(items: seq<OutletItem>): real {
    if items == [] then 0.0 else SumDoz(items[..|items| - 1]) + Doz(items[|items| - 1])
  }

  // ===========================================================================
  // The filter options: outletTypes, categories, products
  // ===========================================================================

  /** The truthy values of `field` over `items`: what the `forEach` adds to its `Set`. */
  function PresentValues(items: seq<OutletItem>, field: OutletItem -> Option<string>): (vs: set<string>)
    ensures forall v :: v in vs <==> exists k :: 0 <= k < |items| && field(items[k]) == Some(v) && v != ""
  {
    if items == [] then {}
    else
      var front := items[..|items| - 1];
      var last := items[|items| - 1];
      assert forall k :: 0 <= k < |front| ==> front[k] == items[k];
      PresentValues(front, field) + (if Present(field(last)) then {field(last).value} else {})
  }

  /** `Array.from(set).sort()` over the truthy values of `field`. */
  function Options(items: seq<OutletItem>, field: OutletItem -> Option<string>): seq<string> {
    TextLessIsStrictTotalOrder();
    SortedSet(PresentValues(items, field), TextLess)
  }

  /** The `useMemo` of `outletTypes` and of `categories`: no data gives no options. */
  method DistinctSorted(outletData: Option<seq<OutletItem>>, field: OutletItem -> Option<string>) returns (r: seq<string>)
    ensures r == if outletData.None? then [] else Options(outletData.value, field)
  {
    if outletData.None? {
      return [];
    }
    var items := outletData.value;
    var values: set<string> := {};
    for i := 0 to |items|
      invariant values == PresentValues(items[..i], field)
    {
      var v := field(items[i]);
      if v.Some? && v.value != "" {
        values := values + {v.value};
      }
      assert items[..i + 1][..i] == items[..i];
    }
    assert items[..|items|] == items;
    TextLessIsStrictTotalOrder();
    r := SortedSet(values, TextLess);
  }

  /**
    The options are the distinct truthy values of the field, each once, in
    ascending order.
  */
  lemma OptionsAreDistinctValues(items: seq<OutletItem>, field: OutletItem -> Option<string>)
    ensures var r := Options(items, field);
            && (forall i, j :: 0 <= i < j < |r| ==> TextLess(r[i], r[j]) && r[i] != r[j])
            && (forall v :: v in r <==> exists k :: 0 <= k < |items| && field(items[k]) == Some(v) && v != "")
  {
    TextLessIsStrictTotalOrder();
    AscendingIsDistinct(Options(items, field), TextLess);
  }

  lemma PresentValueOfMember(items: seq<OutletItem>, item: OutletItem, field: OutletItem -> Option<string>)
    requires item in items && Present(field(item))
    ensures field(item).value in PresentValues(items, field)
  {
    var j :| 0 <= j < |items| && items[j] == item;
  }

  /** `selectedCategory === 'all' || item.category === selectedCategory`. */
  function InCategory(selectedCategory: string): OutletItem -> bool {
    (item: OutletItem) => Matches(selectedCategory, item.category)
  }

  /** The `useMemo` of `products`: the truthy products of the items of the selected category. */
  method Products(outletData: Option<seq<OutletItem>>, selectedCategory: string) returns (r: seq<string>)
    ensures r == if outletData.None? then [] else Options(Where(outletData.value, InCategory(selectedCategory)), ProductOf)
  {
    if outletData.None? {
      return [];
    }
    var filteredDataForProducts := Where(outletData.value, InCategory(selectedCategory));
    r := DistinctSorted(Some(filteredDataForProducts), ProductOf);
  }

  /** A product is offered exactly when some item of the selected category (or of any, for `'all'`) has it. */
  lemma ProductsOfCategory(items: seq<OutletItem>, selectedCategory: string, v: string)
    ensures v in Options(Where(items, InCategory(selectedCategory)), ProductOf)
            <==> v != "" && exists k :: 0 <= k < |items| && items[k].product == Some(v)
                                      && (selectedCategory == "all" || items[k].category == Some(selectedCategory))
  {
    var p := InCategory(selectedCategory);
    var kept := Where(items, p);
    TextLessIsStrictTotalOrder();
    assert v in Options(kept, ProductOf) <==> v in PresentValues(kept, ProductOf);
    if v in PresentValues(kept, ProductOf) {
      var k :| 0 <= k < |kept| && ProductOf(kept[k]) == Some(v) && v != "";
      assert kept[k] in items && p(kept[k]);
      var j :| 0 <= j < |items| && items[j] == kept[k];
      assert items[j].product == Some(v) && (selectedCategory == "all" || items[j].category == Some(selectedCategory));
    }
    if v != "" && exists k :: 0 <= k < |items| && items[k].product == Some(v)
                              && (selectedCategory == "all" || items[k].category == Some(selectedCategory)) {
      var k :| 0 <= k < |items| && items[k].product == Some(v)
               && (selectedCategory == "all" || items[k].category == Some(selectedCategory));
      assert p(items[k]);
      assert items[k] in kept;
      PresentValueOfMember(kept, items[k], ProductOf);
    }
  }

  // ===========================================================================
  // filteredData
  // ===========================================================================

  /** The three selections; `'all'` selects everything. */
  datatype Selection = Selection(outletType: string, category: string, product: string)

  predicate Matches(selected: string, v: Option<string>) {
    selected == "all" || v == Some(selected)
  }

  predicate Keeps(selection: Selection, item: OutletItem) {
    && Matches(selection.outletType, item.outletType)
    && Matches(selection.category, item.category)
    && Matches(selection.product, item.product)
  }

  function KeepsFor(selection: Selection): OutletItem -> bool {
    (item: OutletItem) => Keeps(selection, item)
  }

  /** The `useMemo` of `filteredData`. */
  function FilteredData(outletData: Option<seq<OutletItem>>, selection: Selection): (r: seq<OutletItem>)
    ensures outletData.None? ==> r == []
    ensures outletData.Some? ==>
              forall item :: item in r <==> item in outletData.value && Keeps(selection, item)
  {
    if outletData.None? then [] else Where(outletData.value, KeepsFor(selection))
  }

  /**
    `filteredData` is the order-preserving subsequence of the items that
    match all three selections.
  */
  lemma FilteredInOrder(items: seq<OutletItem>, selection: Selection)
    ensures var r := FilteredData(Some(items), selection);
            var idx := WhereIndices(items, KeepsFor(selection));
            && |r| == |idx|
            && (forall k, l :: 0 <= k < l < |idx| ==> idx[k] < idx[l])
            && (forall k :: 0 <= k < |r| ==> idx[k] < |items| && r[k] == items[idx[k]])
            && (forall i :: 0 <= i < |items| ==> (i in idx <==> Keeps(selection, items[i])))
  {
    WhereIsSubsequence(items, KeepsFor(selection));
  }

  /** Selecting `'all'` three times keeps every item. */
  lemma {:induction false} AllSelectedKeepsAll(items: seq<OutletItem>)
    ensures FilteredData(Some(items), Selection("all", "all", "all")) == items
  {
    if items != [] {
      var front := items[..|items| - 1];
      AllSelectedKeepsAll(front);
      assert front + [items[|items| - 1]] == items;
    }
  }

  // ===========================================================================
  // Sums over a partition of the items
  // ===========================================================================

  function HasKey<K(==)>(key: OutletItem -> K, k: K): OutletItem -> bool {
    (item: OutletItem) => key(item) == k
  }

  /** The DOZ Net of the items that belong to `k`. */
  function KeySum<K(==)>(items: seq<OutletItem>, key: OutletItem -> K, k: K): real {
    SumDoz(Where(items, HasKey(key, k)))
  }

  /** The DOZ Net summed key by key over `ks`. */
  function SumOverKeys<K(==)>(ks: seq<K>, items: seq<OutletItem>, key: OutletItem -> K): real {
    if ks == [] then 0.0 else SumOverKeys(ks[..|ks| - 1], items, key) + KeySum(items, key, ks[|ks| - 1])
  }

  predicate Distinct<K(==)>(ks: seq<K>) {
    forall i, j :: 0 <= i < j < |ks| ==> ks[i] != ks[j]
  }

  /** The last item adds its DOZ Net to the sum of its own key and to no other. */
  lemma KeySumStep<K(!new)>(items: seq<OutletItem>, key: OutletItem -> K, k: K)
    requires items != []
    ensures var x := items[|items| - 1];
            KeySum(items, key, k) == KeySum(items[..|items| - 1], key, k) + (if key(x) == k then Doz(x) else 0.0)
  {
    var x := items[|items| - 1];
    var w := Where(items[..|items| - 1], HasKey(key, k));
    if key(x) == k {
      assert Where(items, HasKey(key, k)) == w + [x];
      assert (w + [x])[..|w + [x]| - 1] == w;
    } else {
      assert Where(items, HasKey(key, k)) == w + [];
      assert w + [] == w;
    }
  }

  /** The last item adds its DOZ Net to the sum over the keys once, when its key is among them. */
  lemma {:induction false} SumOverKeysStep<K(!new)>(ks: seq<K>, items: seq<OutletItem>, key: OutletItem -> K)
    requires Distinct(ks) && items != []
    ensures var x := items[|items| - 1];
            SumOverKeys(ks, items, key) == SumOverKeys(ks, items[..|items| - 1], key) + (if key(x) in ks then Doz(x) else 0.0)
  {
    if ks != [] {
      var front := ks[..|ks| - 1];
      var k := ks[|ks| - 1];
      var x := items[|items| - 1];
      SumOverKeysStep(front, items, key);
      KeySumStep(items, key, k);
      assert key(x) in ks <==> key(x) in front || key(x) == k by {
        assert ks == front + [k];
      }
      assert key(x) == k ==> key(x) !in front;
    }
  }

  /** Summing key by key over distinct keys that cover every item gives the sum over all items. */
  lemma {:induction false} PartitionSum<K(!new)>(ks: seq<K>, items: seq<OutletItem>, key: OutletItem -> K)
    requires Distinct(ks)
    requires forall i :: 0 <= i < |items| ==> key(items[i]) in ks
    ensures SumOverKeys(ks, items, key) == SumDoz(items)
  {
    if items == [] {
      ZeroOverKeys(ks, key);
    } else {
      var front := items[..|items| - 1];
      assert forall i :: 0 <= i < |front| ==> front[i] == items[i];
      PartitionSum(ks, front, key);
      SumOverKeysStep(ks, items, key);
    }
  }

  lemma {:induction false} ZeroOverKeys<K(!new)>(ks: seq<K>, key: OutletItem -> K)
    ensures SumOverKeys(ks, [], key) == 0.0
  {
    if ks != [] {
      ZeroOverKeys(ks[..|ks| - 1], key);
    }
  }

  // ===========================================================================
  // weeklyContributions, totalDozNet, chartData
  // ===========================================================================

  /** An entry `{ dozNet, week }` of `weeklyContributions`; `week` is the label `W<n>`. */
  datatype Contribution = Contribution(week: string, dozNet: real)

  /** The key `` `W${item.week}` ``. */
  function WeekLabel(w: int): string { "W" + IntToString(w) }

  function WeekOf(item: OutletItem): int { item.week }

  /**
    The labels key the weeks one to one, and `parseInt(label.replace('W', ''))`
    reads the week number back, so the `sort` orders the entries by week.
  */
  lemma WeekLabelReadsBack(a: int, b: int)
    ensures WeekLabel(a) == WeekLabel(b) ==> a == b
    ensures ParseInt(WeekLabel(a)[1..]) == Some(a)
  {
    assert WeekLabel(a)[1..] == IntToString(a);
    if WeekLabel(a) == WeekLabel(b) {
      assert WeekLabel(b)[1..] == IntToString(b);
      IntToStringInjective(a, b);
    }
    ParseIntOfIntToString(a);
  }

  /** The map the `forEach` builds: week number to the DOZ Net of its items. */
  function WeekTotals(items: seq<OutletItem>): map<int, real> {
    if items == [] then map[]
    else
      var m := WeekTotals(items[..|items| - 1]);
      var item := items[|items| - 1];
      m[item.week := (if item.week in m then m[item.week] else 0.0) + Doz(item)]
  }

  /** A week is in the map exactly when some item has it, with the DOZ Net of that week's items. */
  lemma {:induction false} WeekTotalsLookup(items: seq<OutletItem>, w: int)
    ensures w in WeekTotals(items) <==> exists k :: 0 <= k < |items| && items[k].week == w
    ensures w in WeekTotals(items) ==> WeekTotals(items)[w] == KeySum(items, WeekOf, w)
    ensures w !in WeekTotals(items) ==> KeySum(items, WeekOf, w) == 0.0
  {
    if items == [] {
      assert Where(items, HasKey(WeekOf, w)) == [];
    } else {
      var front := items[..|items| - 1];
      var x := items[|items| - 1];
      WeekTotalsLookup(front, w);
      KeySumStep(items, WeekOf, w);
      assert forall k :: 0 <= k < |front| ==> front[k] == items[k];
    }
  }

  /** The week numbers of the entries, ascending. */
  function ContributionWeeks(items: seq<OutletItem>): seq<int> {
    IntLessIsStrictTotalOrder();
    SortedSet(WeekTotals(items).Keys, IntLess)
  }

  /** What the `weeklyContributions` `useMemo` returns. */
  function Contributions(items: seq<OutletItem>): seq<Contribution> {
    var m := WeekTotals(items);
    var weeks := ContributionWeeks(items);
    seq(|weeks|, i requires 0 <= i < |weeks| => Contribution(WeekLabel(weeks[i]), m[weeks[i]]))
  }

  /** The `useMemo` of `weeklyContributions`: sum per week into a map, then sort the entries by week. */
  method WeeklyContributions(filteredData: seq<OutletItem>) returns (r: seq<Contribution>)
    ensures r == Contributions(filteredData)
  {
    var weekMap: map<int, real> := map[];
    for i := 0 to |filteredData|
      invariant weekMap == WeekTotals(filteredData[..i])
    {
      var item := filteredData[i];
      var current := if item.week in weekMap then weekMap[item.week] else 0.0;
      weekMap := weekMap[item.week := current + Doz(item)];
      assert filteredData[..i + 1][..i] == filteredData[..i];
    }
    assert filteredData[..|filteredData|] == filteredData;
    IntLessIsStrictTotalOrder();
    var weeks := SortedSet(weekMap.Keys, IntLess);
    r := seq(|weeks|, i requires 0 <= i < |weeks| => Contribution(WeekLabel(weeks[i]), weekMap[weeks[i]]));
  }

  /**
    One entry per distinct week of the items, in ascending week order, each
    with the DOZ Net summed over that week's items.
  */
  lemma ContributionsPerWeek(items: seq<OutletItem>)
    ensures var cs := Contributions(items);
            var ws := ContributionWeeks(items);
            && |cs| == |ws|
            && (forall i, j :: 0 <= i < j < |ws| ==> ws[i] < ws[j])
            && (forall w :: w in ws <==> exists k :: 0 <= k < |items| && items[k].week == w)
            && (forall i :: 0 <= i < |cs| ==> cs[i] == Contribution(WeekLabel(ws[i]), KeySum(items, WeekOf, ws[i])))
  {
    var ws := ContributionWeeks(items);
    forall w
      ensures w in ws <==> exists k :: 0 <= k < |items| && items[k].week == w
    {
      WeekTotalsLookup(items, w);
    }
    forall i | 0 <= i < |ws|
      ensures WeekTotals(items)[ws[i]] == KeySum(items, WeekOf, ws[i])
    {
      WeekTotalsLookup(items, ws[i]);
    }
  }

  /** The `reduce` of `totalDozNet`. */
  function TotalDozNet(cs: seq<Contribution>): real {
    if cs == [] then 0.0 else TotalDozNet(cs[..|cs| - 1]) + cs[|cs| - 1].dozNet
  }

  lemma {:induction false} TotalOverKeys(cs: seq<Contribution>, ws: seq<int>, items: seq<OutletItem>)
    requires |cs| == |ws|
    requires forall i :: 0 <= i < |cs| ==> cs[i].dozNet == KeySum(items, WeekOf, ws[i])
    ensures TotalDozNet(cs) == SumOverKeys(ws, items, WeekOf)
  {
    if cs != [] {
      TotalOverKeys(cs[..|cs| - 1], ws[..|ws| - 1], items);
    }
  }

  /** `totalDozNet` is the DOZ Net of all filtered items. */
  lemma TotalIsSumOfItems(items: seq<OutletItem>)
    ensures TotalDozNet(Contributions(items)) == SumDoz(items)
  {
    var ws := ContributionWeeks(items);
    ContributionsPerWeek(items);
    TotalOverKeys(Contributions(items), ws, items);
    forall i | 0 <= i < |items|
      ensures WeekOf(items[i]) in ws
    {
      assert items[i].week == WeekOf(items[i]);
    }
    PartitionSum(ws, items, WeekOf);
  }

  /** A value's share of the total in percent; 0 when the total is not positive. */
  function Share(value: real, total: real): real {
    if total > 0.0 then value / total * 100.0 else 0.0
  }

  datatype ChartPoint = ChartPoint(week: string, dozNet: real, percentage: real)

  /** The `useMemo` of `chartData`. */
  function ChartData(cs: seq<Contribution>): (r: seq<ChartPoint>)
    ensures |r| == |cs|
    ensures forall i :: 0 <= i < |r| ==> r[i].week == cs[i].week && r[i].dozNet == cs[i].dozNet
  {
    var total := TotalDozNet(cs);
    seq(|cs|, i requires 0 <= i < |cs| => ChartPoint(cs[i].week, cs[i].dozNet, Share(cs[i].dozNet, total)))
  }

  function SumPercentages(ps: seq<ChartPoint>): real {
    if ps == [] then 0.0 else SumPercentages(ps[..|ps| - 1]) + ps[|ps| - 1].percentage
  }

  lemma {:induction false} SharesScale(cs: seq<Contribution>, ps: seq<ChartPoint>, total: real)
    requires total > 0.0 && |ps| == |cs|
    requires forall i :: 0 <= i < |ps| ==> ps[i].percentage == cs[i].dozNet / total * 100.0
    ensures SumPercentages(ps) == TotalDozNet(cs) / total * 100.0
  {
    if cs != [] {
      SharesScale(cs[..|cs| - 1], ps[..|ps| - 1], total);
      var a := TotalDozNet(cs[..|cs| - 1]);
      var b := cs[|cs| - 1].dozNet;
      assert (a + b) / total * 100.0 == a / total * 100.0 + b / total * 100.0;
    }
  }

  /** With a positive total the weekly shares add up to 100%; otherwise every share is 0. */
  lemma SharesAddUp(cs: seq<Contribution>)
    ensures TotalDozNet(cs) > 0.0 ==> SumPercentages(ChartData(cs)) == 100.0
    ensures TotalDozNet(cs) <= 0.0 ==> forall i :: 0 <= i < |cs| ==> ChartData(cs)[i].percentage == 0.0
  {
    var t := TotalDozNet(cs);
    if t > 0.0 {
      SharesScale(cs, ChartData(cs), t);
      WholeShare(t);
    }
  }

  lemma WholeShare(t: real)
    requires t > 0.0
    ensures t / t * 100.0 == 100.0
  {
  }

  // ===========================================================================
  // pieData
  // ===========================================================================

  /** `item.outletType || 'Unknown'`. */
  function TypeName(item: OutletItem): string {
    if Present(item.outletType) then item.outletType.value else "Unknown"
  }

  /** The keys of the pie's `Map`, in the order they were first set. */
  function TypeNames(items: seq<OutletItem>): (names: seq<string>)
    ensures Distinct(names)
    ensures forall n :: n in names <==> exists k :: 0 <= k < |items| && TypeName(items[k]) == n
  {
    if items == [] then []
    else
      var front := items[..|items| - 1];
      var names := TypeNames(front);
      var n := TypeName(items[|items| - 1]);
      assert forall k :: 0 <= k < |front| ==> front[k] == items[k];
      if n in names then names else names + [n]
  }

  /** The values of the pie's `Map`: outlet type to the DOZ Net of its items. */
  function TypeTotals(items: seq<OutletItem>): map<string, real> {
    if items == [] then map[]
    else
      var m := TypeTotals(items[..|items| - 1]);
      var n := TypeName(items[|items| - 1]);
      m[n := (if n in m then m[n] else 0.0) + Doz(items[|items| - 1])]
  }

  lemma {:induction false} TypeTotalsLookup(items: seq<OutletItem>, n: string)
    ensures n in TypeTotals(items) <==> n in TypeNames(items)
    ensures n in TypeTotals(items) ==> TypeTotals(items)[n] == KeySum(items, TypeName, n)
  {
    if items != [] {
      var front := items[..|items| - 1];
      var x := items[|items| - 1];
      TypeTotalsLookup(front, n);
      KeySumStep(items, TypeName, n);
      if n !in TypeTotals(front) {
        assert forall k :: 0 <= k < |front| ==> TypeName(front[k]) != n;
        assert forall item :: item in front ==> TypeName(item) != n;
        NoneOfKey(front, TypeName, n);
      }
    }
  }

  lemma NoneOfKey<K(!new)>(items: seq<OutletItem>, key: OutletItem -> K, k: K)
    requires forall item :: item in items ==> key(item) != k
    ensures KeySum(items, key, k) == 0.0
  {
    assert Where(items, HasKey(key, k)) == [] by {
      if Where(items, HasKey(key, k)) != [] {
        assert Where(items, HasKey(key, k))[0] in Where(items, HasKey(key, k));
      }
    }
  }

  datatype PieSlice = PieSlice(name: string, value: real, percentage: real)

  /** The slice of the `Map` entry for `name`. */
  function SliceOf(typeMap: map<string, real>, name: string, totalDozNet: real): PieSlice {
    var value := if name in typeMap then typeMap[name] else 0.0;
    PieSlice(name, value, Share(value, totalDozNet))
  }

  /** What the `pieData` `useMemo` returns for the given total. */
  function Pie(items: seq<OutletItem>, totalDozNet: real): seq<PieSlice> {
    var names := TypeNames(items);
    seq(|names|, i requires 0 <= i < |names| => SliceOf(TypeTotals(items), names[i], totalDozNet))
  }

  /** The `useMemo` of `pieData`: sum per outlet type into a `Map`, then one slice per entry in insertion order. */
  method PieData(filteredData: seq<OutletItem>, totalDozNet: real) returns (r: seq<PieSlice>)
    ensures r == Pie(filteredData, totalDozNet)
  {
    var names: seq<string> := [];
    var typeMap: map<string, real> := map[];
    for i := 0 to |filteredData|
      invariant names == TypeNames(filteredData[..i])
      invariant typeMap == TypeTotals(filteredData[..i])
    {
      var item := filteredData[i];
      var name := TypeName(item);
      TypeTotalsLookup(filteredData[..i], name);
      var current := if name in typeMap then typeMap[name] else 0.0;
      if name !in typeMap {
        names := names + [name];
      }
      typeMap := typeMap[name := current + Doz(item)];
      assert filteredData[..i + 1][..i] == filteredData[..i];
    }
    assert filteredData[..|filteredData|] == filteredData;
    r := seq(|names|, i requires 0 <= i < |names| => SliceOf(typeMap, names[i], totalDozNet));
  }

  function SumSliceValues(ps: seq<PieSlice>): real {
    if ps == [] then 0.0 else SumSliceValues(ps[..|ps| - 1]) + ps[|ps| - 1].value
  }

  lemma {:induction false} SlicesOverKeys(ps: seq<PieSlice>, names: seq<string>, items: seq<OutletItem>)
    requires |ps| == |names|
    requires forall i :: 0 <= i < |ps| ==> ps[i].value == KeySum(items, TypeName, names[i])
    ensures SumSliceValues(ps) == SumOverKeys(names, items, TypeName)
  {
    if ps != [] {
      SlicesOverKeys(ps[..|ps| - 1], names[..|names| - 1], items);
    }
  }

  /**
    One slice per name of `TypeNames` (the distinct outlet types present, in
    first-seen order, `'Unknown'` standing for a missing one), each with the
    DOZ Net of that type's items; the slices add up to `totalDozNet`.
  */
  lemma PieSlicesAddUp(items: seq<OutletItem>)
    ensures var ps := Pie(items, TotalDozNet(Contributions(items)));
            var names := TypeNames(items);
            && |ps| == |names|
            && (forall i :: 0 <= i < |ps| ==> ps[i].name == names[i] && ps[i].value == KeySum(items, TypeName, names[i]))
            && SumSliceValues(ps) == TotalDozNet(Contributions(items))
  {
    var names := TypeNames(items);
    var ps := Pie(items, TotalDozNet(Contributions(items)));
    forall i | 0 <= i < |ps|
      ensures ps[i].value == KeySum(items, TypeName, names[i])
    {
      TypeTotalsLookup(items, names[i]);
    }
    SlicesOverKeys(ps, names, items);
    PartitionSum(names, items, TypeName);
    TotalIsSumOfItems(items);
  }

  // ===========================================================================
  // metrics
  // ===========================================================================

  /** The seed `{ dozNet: 0, week: 'W1' }` of the best-week `reduce`. */
  const Placeholder: Contribution := Contribution("W1", 0.0)

  /** `reduce((best, current) => current.dozNet > best.dozNet ? current : best, Placeholder)`. */
  function BestWeek(cs: seq<Contribution>): Contribution {
    if cs == [] then Placeholder
    else
      var best := BestWeek(cs[..|cs| - 1]);
      if cs[|cs| - 1].dozNet > best.dozNet then cs[|cs| - 1] else best
  }

  /**
    The worst-week `reduce` from `{ dozNet: Infinity, week: 'W1' }`; `None`
    is that seed, which every finite entry replaces.
  */
  function WorstWeek(cs: seq<Contribution>): Option<Contribution> {
    if cs == [] then None
    else
      var worst := WorstWeek(cs[..|cs| - 1]);
      if worst.None? || cs[|cs| - 1].dozNet < worst.value.dozNet then Some(cs[|cs| - 1]) else worst
  }

  /** Entry `i` has the largest DOZ Net, and every entry before it has less. */
  predicate FirstLargestAt(cs: seq<Contribution>, i: int) {
    && 0 <= i < |cs|
    && (forall j :: 0 <= j < |cs| ==> cs[j].dozNet <= cs[i].dozNet)
    && (forall j :: 0 <= j < i ==> cs[j].dozNet < cs[i].dozNet)
  }

  /** Entry `i` has the smallest DOZ Net, and every entry before it has more. */
  predicate FirstSmallestAt(cs: seq<Contribution>, i: int) {
    && 0 <= i < |cs|
    && (forall j :: 0 <= j < |cs| ==> cs[i].dozNet <= cs[j].dozNet)
    && (forall j :: 0 <= j < i ==> cs[i].dozNet < cs[j].dozNet)
  }

  lemma LargestSoFar(cs: seq<Contribution>, i: int)
    requires cs != [] && FirstLargestAt(cs[..|cs| - 1], i) && cs[|cs| - 1].dozNet <= cs[i].dozNet
    ensures FirstLargestAt(cs, i)
  {
    assert forall j :: 0 <= j < |cs| - 1 ==> cs[..|cs| - 1][j] == cs[j];
  }

  lemma LargestLast(cs: seq<Contribution>)
    requires cs != [] && forall j :: 0 <= j < |cs| - 1 ==> cs[j].dozNet < cs[|cs| - 1].dozNet
    ensures FirstLargestAt(cs, |cs| - 1)
  {
  }

  lemma SmallestSoFar(cs: seq<Contribution>, i: int)
    requires cs != [] && FirstSmallestAt(cs[..|cs| - 1], i) && cs[i].dozNet <= cs[|cs| - 1].dozNet
    ensures FirstSmallestAt(cs, i)
  {
    assert forall j :: 0 <= j < |cs| - 1 ==> cs[..|cs| - 1][j] == cs[j];
  }

  lemma SmallestLast(cs: seq<Contribution>)
    requires cs != [] && forall j :: 0 <= j < |cs| - 1 ==> cs[|cs| - 1].dozNet < cs[j].dozNet
    ensures FirstSmallestAt(cs, |cs| - 1)
  {
  }

  /**
    With some week above 0 the best week is the first week of largest DOZ
    Net; otherwise it is the placeholder.
  */
  lemma {:induction false} BestIsFirstLargest(cs: seq<Contribution>)
    ensures (forall j :: 0 <= j < |cs| ==> cs[j].dozNet <= 0.0) ==> BestWeek(cs) == Placeholder
    ensures (exists j :: 0 <= j < |cs| && cs[j].dozNet > 0.0) ==>
              exists i :: FirstLargestAt(cs, i) && BestWeek(cs) == cs[i]
  {
    if cs != [] {
      var n := |cs| - 1;
      var front := cs[..n];
      BestIsFirstLargest(front);
      assert forall j :: 0 <= j < n ==> front[j] == cs[j];
      if exists j :: 0 <= j < n && front[j].dozNet > 0.0 {
        var i :| FirstLargestAt(front, i) && BestWeek(front) == front[i];
        if cs[n].dozNet > front[i].dozNet {
          LargestLast(cs);
          assert BestWeek(cs) == cs[n];
        } else {
          LargestSoFar(cs, i);
          assert BestWeek(cs) == cs[i];
        }
      } else if cs[n].dozNet > 0.0 {
        LargestLast(cs);
        assert BestWeek(cs) == cs[n];
      } else {
        assert forall j :: 0 <= j < |cs| ==> cs[j].dozNet <= 0.0;
        assert BestWeek(cs) == Placeholder;
      }
    }
  }

  /** With no weeks the worst week is the Infinity seed; otherwise it is the first week of smallest DOZ Net. */
  lemma {:induction false} WorstIsFirstSmallest(cs: seq<Contribution>)
    ensures WorstWeek(cs).None? <==> cs == []
    ensures WorstWeek(cs).Some? ==> exists i :: FirstSmallestAt(cs, i) && WorstWeek(cs).value == cs[i]
  {
    if cs != [] {
      var n := |cs| - 1;
      var front := cs[..n];
      WorstIsFirstSmallest(front);
      if front != [] {
        var i :| FirstSmallestAt(front, i) && WorstWeek(front).value == front[i];
        assert front[i] == cs[i];
        if cs[n].dozNet < front[i].dozNet {
          assert forall j :: 0 <= j < n ==> front[j] == cs[j];
          SmallestLast(cs);
          assert WorstWeek(cs).value == cs[n];
        } else {
          SmallestSoFar(cs, i);
          assert WorstWeek(cs).value == cs[i];
        }
      } else {
        SmallestLast(cs);
        assert WorstWeek(cs).value == cs[0];
      }
    }
  }

  datatype Metrics = Metrics(totalDozNet: real, avgWeekly: real, bestWeek: Contribution,
                             worstWeek: Option<Contribution>, totalWeeks: nat)

  /** The `useMemo` of `metrics`. */
  function MetricsOf(cs: seq<Contribution>): (r: Metrics)
    ensures r.totalWeeks == |cs|
    ensures cs == [] ==> r.avgWeekly == 0.0
    ensures cs != [] ==> r.avgWeekly * (|cs| as real) == r.totalDozNet
  {
    var total := TotalDozNet(cs);
    Metrics(total, if |cs| > 0 then total / (|cs| as real) else 0.0, BestWeek(cs), WorstWeek(cs), |cs|)
  }

  // ===========================================================================
  // The status of a week's share
  // ===========================================================================

  /** The label of a week's share: `Tinggi` from 5%, `Sedang` from 2%, `Rendah` below. */
  function Status(percentage: real): string {
    if percentage >= 5.0 then "Tinggi" else if percentage >= 2.0 then "Sedang" else "Rendah"
  }

  function StatusRank(status: string): int {
    if status == "Tinggi" then 2 else if status == "Sedang" then 1 else 0
  }

  /** A larger share never gets a lower status, and the boundaries belong to the higher status. */
  lemma StatusMonotone(p: real, q: real)
    requires p <= q
    ensures StatusRank(Status(p)) <= StatusRank(Status(q))
    ensures Status(5.0) == "Tinggi" && Status(2.0) == "Sedang" && Status(1.99) == "Rendah"
  {
  }
}
