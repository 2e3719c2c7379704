/** The calculator component's state and its handlers: the entry store,
    the monthly history and the contribution percentages. Each handler is
    one atomic transition of that state; the percentage reconcile effect
    runs at the end of every handler that changes the entries. */
module Portfolio {
  import opened Categories
  import opened Entries
  import opened Grouping
  import opened Aggregators
  import opened Ledger
  import opened Allocator

  /** The name `addInvestment` stores: the trimmed name, or the category
      itself when the category does not require a name and the name is
      blank. */
  function FinalName(category: string, assetName: string): (name: string)
    ensures !RequiresName(category) && AllWhiteSpace(assetName) ==> name == category
    ensures RequiresName(category) || !AllWhiteSpace(assetName) ==> name == Trim(assetName)
  {
    var trimmed := Trim(assetName);
    if !RequiresName(category) && trimmed == "" then category else trimmed
  }

  /** `addInvestment`'s guard, checked after the name is defaulted. */
  predicate Rejected(category: string, assetName: string, value: real) {
    category == "" || value <= 0.0 || (RequiresName(category) && FinalName(category, assetName) == "")
  }

  /** An entry is refused in exactly three cases: no category, a value not
      above zero, or a category that requires a name given a blank one. */
  lemma RejectedCases(category: string, assetName: string, value: real)
    ensures Rejected(category, assetName, value) <==>
      category == "" || value <= 0.0 || (RequiresName(category) && AllWhiteSpace(assetName))
  {
  }

  /** `isAddButtonDisabled`: the same three conditions, on the raw name. */
  predicate AddButtonDisabled(category: string, assetName: string, value: real) {
    category == "" || value <= 0.0 || (RequiresName(category) && Trim(assetName) == "")
  }

  /** The add button is disabled exactly when the handler would refuse the
      entry. */
  lemma AddButtonMatchesGuard(category: string, assetName: string, value: real)
    ensures AddButtonDisabled(category, assetName, value) <==> Rejected(category, assetName, value)
  {
  }

  /** The manual registration button's `disabled` flag: an empty store, or
      the selected month already recorded with the current total. */
  predicate ManualRegistrationDisabled(s: seq<Investment>, data: seq<MonthSnapshot>, month: Month) {
    |s| == 0 || exists k :: 0 <= k < |data| && data[k].month == month && data[k].total == Total(s)
  }

  /** Right after the current entries are registered for the selected
      month, the manual registration button is disabled. */
  lemma RegisteredDisablesButton(s: seq<Investment>, data: seq<MonthSnapshot>, month: Month)
    ensures ManualRegistrationDisabled(s, Register(data, MonthSnapshot(month, Total(s), s)), month)
  {
    var snap := MonthSnapshot(month, Total(s), s);
    RegisterProperties(data, snap);
    var r := Register(data, snap);
    var k :| 0 <= k < |r| && r[k] == snap;
  }

  /** The categories present in `s`, in order of first appearance: the
      names of the category rows. */
  function PresentCategories(s: seq<Investment>): seq<string> {
    Distinct(CategoryKeys(s))
  }

  /** The category rows are named after the present categories. */
  lemma PieNames(s: seq<Investment>)
    ensures Names(PieRows(s)) == PresentCategories(s)
    ensures |PieRows(s)| == |PresentCategories(s)|
  {
  }

  /** The percentage dictionary after the reconcile effect: rebuilt from
      the present categories when their number differs from `count`,
      untouched otherwise. */
  function Reconciled(prev: Dict, count: nat, s: seq<Investment>): Dict {
    if |PresentCategories(s)| != count then Rebuild(prev, PresentCategories(s)) else prev
  }

  lemma PresentCategoriesDistinct(s: seq<Investment>)
    ensures NoDuplicates(PresentCategories(s))
    ensures forall c :: c in PresentCategories(s) <==> c in CategoryKeys(s)
  {
    DistinctKeys(CategoryKeys(s));
  }

  /** The reconcile effect keeps the dictionary well formed; when it fires,
      the keys become exactly the present categories, in order of first
      appearance, each keeping its prior percentage or starting at 0. */
  lemma ReconciledProperties(prev: Dict, count: nat, s: seq<Investment>)
    requires WellFormed(prev)
    ensures WellFormed(Reconciled(prev, count, s))
    ensures |PresentCategories(s)| != count ==>
      && (forall c :: c in Reconciled(prev, count, s).keys <==> c in CategoryKeys(s))
      && (forall c :: c in CategoryKeys(s) ==> Get(Reconciled(prev, count, s), c) == Get(prev, c))
      && (forall c :: c !in CategoryKeys(s) ==> c !in Reconciled(prev, count, s).values)
    ensures |PresentCategories(s)| == count ==> Reconciled(prev, count, s) == prev
  {
    PresentCategoriesDistinct(s);
    RebuildProperties(prev, PresentCategories(s));
  }

  /** Rescaling leaves every entry's category alone, so the present
      categories do not change and the reconcile effect does not fire. */
  lemma ScaleKeepsCategories(s: seq<Investment>, ids: seq<int>, factor: real)
    ensures PresentCategories(Scale(s, ids, factor)) == PresentCategories(s)
  {
    ScaleKeepsFields(s, ids, factor);
    assert CategoryKeys(Scale(s, ids, factor)) == CategoryKeys(s);
  }

  /** The reconcile effect keeps the dictionary well formed. */
  lemma ReconciledWellFormed(prev: Dict, count: nat, s: seq<Investment>)
    requires WellFormed(prev)
    ensures WellFormed(Reconciled(prev, count, s))
  {
    PresentCategoriesDistinct(s);
    RebuildShape(prev, PresentCategories(s));
  }

  /** Rebuilding over one more name sets that name last. */
  lemma RebuildSnoc(prev: Dict, names: seq<string>, i: nat)
    requires i < |names|
    ensures Rebuild(prev, names[..i + 1]) == Set(Rebuild(prev, names[..i]), names[i], Get(prev, names[i]))
  {
    assert names[..i + 1][..i] == names[..i];
  }

  /** Appending an entry of a listed category with a fresh id keeps the
      categories listed and the ids unique. */
  lemma AppendKeepsValid(s: seq<Investment>, x: Investment)
    requires ListedCategories(s) && UniqueIds(s)
    requires x.category in InvestmentCategories && !HasId(s, x.id)
    ensures ListedCategories(s + [x]) && UniqueIds(s + [x])
  {
  }

  /** Removal keeps the categories listed and the ids unique. */
  lemma RemoveKeepsValid(s: seq<Investment>, ids: seq<int>)
    requires ListedCategories(s) && UniqueIds(s)
    ensures ListedCategories(RemoveIds(s, ids)) && UniqueIds(RemoveIds(s, ids))
  {
    RemoveKeepsListed(s, ids);
    RemoveIdsProperties(s, ids);
  }

  lemma RemoveKeepsListed(s: seq<Investment>, ids: seq<int>)
    requires ListedCategories(s)
    ensures ListedCategories(RemoveIds(s, ids))
  {
    FilterIdsMembers(s, ids, false);
    var r := RemoveIds(s, ids);
    forall i | 0 <= i < |r| ensures r[i].category in InvestmentCategories {
      assert r[i] in r;
      var j :| 0 <= j < |s| && s[j] == r[i];
    }
  }

  /** Rescaling keeps the categories listed and the ids unique. */
  lemma ScaleKeepsValid(s: seq<Investment>, ids: seq<int>, factor: real)
    requires ListedCategories(s) && UniqueIds(s)
    ensures ListedCategories(Scale(s, ids, factor)) && UniqueIds(Scale(s, ids, factor))
  {
    ScaleKeepsFields(s, ids, factor);
  }

  /** The reconcile effect watches only the number of categories; this
      says that watching the number is enough to see every change of the
      set of categories from `s` to `t`. */
  predicate CountTracksCategories(s: seq<Investment>, t: seq<Investment>) {
    |PresentCategories(t)| == |PresentCategories(s)| ==> KeySet(PresentCategories(t)) == KeySet(PresentCategories(s))
  }

  /** An appended entry adds its category at the end when it is new, and
      changes nothing otherwise. */
  lemma AppendCategories(s: seq<Investment>, x: Investment)
    ensures PresentCategories(s + [x]) ==
      if x.category in PresentCategories(s) then PresentCategories(s) else PresentCategories(s) + [x.category]
    ensures CountTracksCategories(s, s + [x])
  {
    assert CategoryKeys(s + [x]) == CategoryKeys(s) + [x.category];
    DistinctSnoc(CategoryKeys(s), x.category);
  }

  /** Removal can only take categories away, so when the number of
      categories stays, so do the categories. */
  lemma RemoveCategories(s: seq<Investment>, ids: seq<int>)
    ensures forall c :: c in PresentCategories(RemoveIds(s, ids)) ==> c in PresentCategories(s)
    ensures CountTracksCategories(s, RemoveIds(s, ids))
  {
    var r := RemoveIds(s, ids);
    PresentCategoriesDistinct(s);
    PresentCategoriesDistinct(r);
    FilterIdsMembers(s, ids, false);
    forall c | c in PresentCategories(r) ensures c in PresentCategories(s) {
      var i :| 0 <= i < |r| && CategoryKeys(r)[i] == c;
      assert r[i] in r;
      var j :| 0 <= j < |s| && s[j] == r[i];
      assert CategoryKeys(s)[j] == c;
    }
    if |PresentCategories(r)| == |PresentCategories(s)| {
      KeySetSize(PresentCategories(r));
      KeySetSize(PresentCategories(s));
      SubsetSameSize(KeySet(PresentCategories(r)), KeySet(PresentCategories(s)));
    }
  }

  /** When the reconcile effect fires, or when the categories did not
      change, the dictionary ends up keyed by exactly the present
      categories. */
  lemma ReconciledKeySet(prev: Dict, s: seq<Investment>, t: seq<Investment>)
    requires KeySet(prev.keys) == KeySet(PresentCategories(s))
    requires CountTracksCategories(s, t)
    ensures KeySet(Reconciled(prev, |PresentCategories(s)|, t).keys) == KeySet(PresentCategories(t))
  {
    if |PresentCategories(t)| != |PresentCategories(s)| {
      PresentCategoriesDistinct(t);
      RebuildShape(prev, PresentCategories(t));
    }
  }

  /** Percentages keyed by exactly the categories of the entries, in any
      order, split the contribution over the category rows in proportion:
      the rows receive the percentages' sum as a share of the contribution,
      and all of it when the percentages add up to 100. */
  lemma StoreAllocation(s: seq<Investment>, pct: Dict, contribution: real, rows: seq<DistributionRow>)
    requires NoDuplicates(pct.keys) && KeySet(pct.keys) == KeySet(PresentCategories(s))
    requires rows == Distribution(PieRows(s), pct, contribution)
    ensures TotalAllocated(rows) == SumValues(pct) / 100.0 * contribution
    ensures SumValues(pct) == 100.0 ==> TotalAllocated(rows) == contribution
  {
    PieNames(s);
    PresentCategoriesDistinct(s);
    AllocatedTotal(PieRows(s), pct, contribution);
    if SumValues(pct) == 100.0 {
      FullAllocation(PieRows(s), pct, contribution);
    }
  }

  /** The body of the reconcile effect: a dictionary with one key per
      category row, in row order, each holding its prior percentage or 0;
      the empty dictionary when there are no rows. */
  method InitialPercentages(prev: Dict, pieData: seq<PieRow>) returns (initialPercentages: Dict)
    ensures initialPercentages == Rebuild(prev, Names(pieData))
  {
    initialPercentages := Dict([], map[]);
    if |pieData| > 0 {
      for i := 0 to |pieData|
        invariant initialPercentages == Rebuild(prev, Names(pieData)[..i])
      {
        RebuildSnoc(prev, Names(pieData), i);
        initialPercentages := Set(initialPercentages, pieData[i].name, Get(prev, pieData[i].name));
      }
      assert Names(pieData)[..|pieData|] == Names(pieData);
    }
  }

  /** The component `InvestmentCalculator`. */
  class InvestmentCalculator {
    var investments: seq<Investment>
    var monthlyData: seq<MonthSnapshot>
    var monthlyContribution: real
    var selectedMonth: Month
    var contributionPercentages: Dict

    /** Entries of listed categories with distinct ids, a history in
        calendar order with one snapshot per month, and a well-formed
        percentage dictionary. */
    ghost predicate Consistent()
      reads this
    {
      && ListedCategories(investments)
      && UniqueIds(investments)
      && StrictlySorted(monthlyData)
      && WellFormed(contributionPercentages)
    }

    /** Between handlers, moreover, the percentage dictionary is keyed by
        exactly the categories present in the entries. */
    ghost predicate Valid()
      reads this
    {
      && Consistent()
      && KeySet(contributionPercentages.keys) == KeySet(PresentCategories(investments))
    }

    /** The initial state; `currentMonth` is the clock's month. */
    constructor (currentMonth: Month)
      ensures Valid()
      ensures investments == [] && monthlyData == [] && monthlyContribution == 0.0
      ensures selectedMonth == currentMonth && contributionPercentages == Dict([], map[])
    {
      investments := [];
      monthlyData := [];
      monthlyContribution := 0.0;
      selectedMonth := currentMonth;
      contributionPercentages := Dict([], map[]);
    }

    /** `registerCurrentMonth`: records a snapshot of the given total and
        entries for the selected month. */
    method RegisterCurrentMonth(currentTotal: real, currentInvestments: seq<Investment>)
      requires Consistent()
      modifies this`monthlyData
      ensures Consistent()
      ensures monthlyData == Register(old(monthlyData), MonthSnapshot(selectedMonth, currentTotal, currentInvestments))
    {
      RegisterProperties(monthlyData, MonthSnapshot(selectedMonth, currentTotal, currentInvestments));
      monthlyData := Register(monthlyData, MonthSnapshot(selectedMonth, currentTotal, currentInvestments));
    }

    /** The reconcile effect, triggered when the number of category rows
        differs from `previousCount`: the dictionary is rebuilt over the
        category rows, each keeping its percentage or starting at 0. When
        it does not fire, the dictionary must already fit the categories. */
    method ReconcileEffect(previousCount: nat)
      requires Consistent()
      requires previousCount == |PresentCategories(investments)| ==>
        KeySet(contributionPercentages.keys) == KeySet(PresentCategories(investments))
      modifies this`contributionPercentages
      ensures Valid()
      ensures contributionPercentages == Reconciled(old(contributionPercentages), previousCount, investments)
    {
      var pieData := AggregatePieData(investments);
      PieNames(investments);
      if |pieData| != previousCount {
        ReconciledWellFormed(contributionPercentages, previousCount, investments);
        PresentCategoriesDistinct(investments);
        RebuildShape(contributionPercentages, PresentCategories(investments));
        contributionPercentages := InitialPercentages(contributionPercentages, pieData);
      }
    }

    /** The common end of the three entry handlers: the updated entries
        replace the store, their total is recorded for the selected month,
        and the reconcile effect runs if the number of categories changed. */
    method CommitInvestments(updatedInvestments: seq<Investment>)
      requires Valid()
      requires ListedCategories(updatedInvestments) && UniqueIds(updatedInvestments)
      requires CountTracksCategories(investments, updatedInvestments)
      modifies this`investments, this`monthlyData, this`contributionPercentages
      ensures Valid()
      ensures investments == updatedInvestments
      ensures monthlyData == Register(old(monthlyData), MonthSnapshot(selectedMonth, Total(updatedInvestments), updatedInvestments))
      ensures contributionPercentages == Reconciled(old(contributionPercentages), |PresentCategories(old(investments))|, updatedInvestments)
    {
      var previousPie := AggregatePieData(investments);
      PieNames(investments);
      investments := updatedInvestments;
      RegisterCurrentMonth(Total(investments), investments);
      ReconcileEffect(|previousPie|);
    }

    /** `addInvestment`: refuses the entry in the three guarded cases;
        otherwise appends it under its defaulted name with its category's
        colour and the fresh `id`, and records the new total for the
        selected month. */
    method AddInvestment(category: string, assetName: string, value: real, id: int)
      requires Valid()
      requires category == "" || category in InvestmentCategories
      requires !HasId(investments, id)
      modifies this`investments, this`monthlyData, this`contributionPercentages
      ensures Valid()
      ensures Rejected(category, assetName, value) ==>
        investments == old(investments) && monthlyData == old(monthlyData)
        && contributionPercentages == old(contributionPercentages)
      ensures !Rejected(category, assetName, value) ==>
        && investments == old(investments) + [Investment(id, category, FinalName(category, assetName), value, CategoryColor(category))]
        && Total(investments) == Total(old(investments)) + value
        && monthlyData == Register(old(monthlyData), MonthSnapshot(selectedMonth, Total(investments), investments))
        && contributionPercentages == Reconciled(old(contributionPercentages), |PresentCategories(old(investments))|, investments)
    {
      var finalAssetName := FinalName(category, assetName);
      if category == "" || value <= 0.0 || (RequiresName(category) && finalAssetName == "") {
        return;
      }
      var newInv := Investment(id, category, finalAssetName, value, CategoryColor(category));
      AppendKeepsValid(investments, newInv);
      AppendCategories(investments, newInv);
      TotalSnoc(investments, newInv);
      CommitInvestments(investments + [newInv]);
    }

    /** `removeAggregatedAsset`: drops the entries whose id is listed and
        records the new total for the selected month. */
    method RemoveAggregatedAsset(individualIds: seq<int>)
      requires Valid()
      modifies this`investments, this`monthlyData, this`contributionPercentages
      ensures Valid()
      ensures investments == RemoveIds(old(investments), individualIds)
      ensures Total(investments) == Total(old(investments)) - Total(SelectIds(old(investments), individualIds))
      ensures monthlyData == Register(old(monthlyData), MonthSnapshot(selectedMonth, Total(investments), investments))
      ensures contributionPercentages == Reconciled(old(contributionPercentages), |PresentCategories(old(investments))|, investments)
    {
      RemoveKeepsValid(investments, individualIds);
      RemoveCategories(investments, individualIds);
      RemoveIdsProperties(investments, individualIds);
      CommitInvestments(RemoveIds(investments, individualIds));
    }

    /** `updateAggregatedAssetValue`: nothing happens when the listed
        entries add up to 0; otherwise each of them is multiplied by
        `newValue` over their current sum, and the new total is recorded for
        the selected month. The categories do not change, so neither does
        the percentage dictionary. */
    method UpdateAggregatedAssetValue(individualIds: seq<int>, newValue: real)
      requires Valid()
      modifies this`investments, this`monthlyData, this`contributionPercentages
      ensures Valid()
      ensures contributionPercentages == old(contributionPercentages)
      ensures Total(SelectIds(old(investments), individualIds)) == 0.0 ==>
        investments == old(investments) && monthlyData == old(monthlyData)
      ensures Total(SelectIds(old(investments), individualIds)) != 0.0 ==>
        && investments == Scale(old(investments), individualIds, newValue / Total(SelectIds(old(investments), individualIds)))
        && monthlyData == Register(old(monthlyData), MonthSnapshot(selectedMonth, Total(investments), investments))
        && Total(SelectIds(investments, individualIds)) == newValue
        && Total(investments) == Total(old(investments)) - Total(SelectIds(old(investments), individualIds)) + newValue
    {
      var currentGroupTotal := Total(SelectIds(investments, individualIds));
      if currentGroupTotal == 0.0 {
        return;
      }
      var adjustmentFactor := newValue / currentGroupTotal;
      ScaleKeepsValid(investments, individualIds, adjustmentFactor);
      ScaleKeepsCategories(investments, individualIds, adjustmentFactor);
      ScaleHitsTarget(investments, individualIds, newValue);
      ScaleTotal(investments, individualIds, adjustmentFactor);
      CommitInvestments(Scale(investments, individualIds, adjustmentFactor));
    }

    /** `handleManualRegistration`: records the current total for the
        selected month, unless there are no entries. */
    method HandleManualRegistration()
      requires Valid()
      modifies this`monthlyData
      ensures Valid()
      ensures |investments| == 0 ==> monthlyData == old(monthlyData)
      ensures |investments| != 0 ==>
        monthlyData == Register(old(monthlyData), MonthSnapshot(selectedMonth, Total(investments), investments))
    {
      if |investments| == 0 {
        return;
      }
      RegisterCurrentMonth(Total(investments), investments);
    }

    /** `handlePercentageChange`: sets one category's percentage. Its only
        caller is the input of a category row, so `name` is a present
        category. */
    method HandlePercentageChange(name: string, percentage: real)
      requires Valid()
      requires name in PresentCategories(investments)
      modifies this`contributionPercentages
      ensures Valid()
      ensures contributionPercentages == Set(old(contributionPercentages), name, percentage)
    {
      SetProperties(contributionPercentages, name, percentage);
      contributionPercentages := Set(contributionPercentages, name, percentage);
    }

    /** The month picker. */
    method SelectMonth(month: Month)
      requires Valid()
      modifies this`selectedMonth
      ensures Valid() && selectedMonth == month
    {
      selectedMonth := month;
    }

    /** The monthly contribution field. */
    method SetMonthlyContribution(contribution: real)
      requires Valid()
      modifies this`monthlyContribution
      ensures Valid() && monthlyContribution == contribution
    {
      monthlyContribution := contribution;
    }

    /** The asset list: one row per asset with its share of the total. */
    method AssetList() returns (rows: seq<AssetRow>)
      requires Valid()
      ensures rows == AssetRows(investments, Total(investments))
    {
      rows := AggregateAssetData(investments, Total(investments));
    }

    /** The contribution split, one row per category row. It hands out
        the percentages' sum as a share of the contribution, so exactly the
        contribution when the percentages add up to 100. */
    method ContributionDistribution() returns (rows: seq<DistributionRow>)
      requires Valid()
      ensures rows == Distribution(PieRows(investments), contributionPercentages, monthlyContribution)
      ensures SumValues(contributionPercentages) == 100.0 ==> TotalAllocated(rows) == monthlyContribution
    {
      var entries, pct, contribution := investments, contributionPercentages, monthlyContribution;
      var pieData := AggregatePieData(entries);
      rows := Distribution(pieData, pct, contribution);
      StoreAllocation(entries, pct, contribution, rows);
    }
  }
}
