/** The two aggregations the calculator derives from its entries: the
    category rows of the pie chart and the asset rows of the asset list.
    Each is an imperative pass over the entries that accumulates into a
    dictionary, proved equal to a specification built from `Grouping`. */
module Aggregators {
  import opened Categories
  import opened Entries
  import opened Grouping

  /** One slice of the pie chart: a category and the sum of its entries. */
  datatype PieRow = PieRow(name: string, value: real, color: string)

  /** The accumulator of one asset: its category and name, the sum of its
      entries and the ids of those entries. */
  datatype AssetGroup = AssetGroup(category: string, name: string, value: real, color: string, individualIds: seq<int>)

  /** An asset group with its share of the portfolio, in percent. */
  datatype AssetRow = AssetRow(category: string, name: string, value: real, color: string, individualIds: seq<int>, percentage: real)

  type AssetKey = (string, string)

  /** The grouping key of every entry for the pie chart. */
  function CategoryKeys(s: seq<Investment>): (ks: seq<string>)
    ensures |ks| == |s|
  {
    seq(|s|, i requires 0 <= i < |s| => s[i].category)
  }

  /** The grouping key of every entry for the asset list. */
  function AssetKeys(s: seq<Investment>): (ks: seq<AssetKey>)
    ensures |ks| == |s|
  {
    seq(|s|, i requires 0 <= i < |s| => (s[i].category, s[i].name))
  }

  lemma KeysSnoc(s: seq<Investment>, n: nat)
    requires n < |s|
    ensures s[..n + 1] == s[..n] + [s[n]]
    ensures CategoryKeys(s[..n + 1]) == CategoryKeys(s[..n]) + [s[n].category]
    ensures AssetKeys(s[..n + 1]) == AssetKeys(s[..n]) + [(s[n].category, s[n].name)]
  {
  }

  // ---------------------------------------------------------------------
  // Category aggregation

  function PieRowsFor(s: seq<Investment>, keys: seq<string>): seq<PieRow> {
    seq(|keys|, j requires 0 <= j < |keys| =>
      PieRow(keys[j], GroupSum(s, CategoryKeys(s), keys[j]), CategoryColor(keys[j])))
  }

  /** The pie rows of `s`: one per category, in order of first appearance,
      each carrying the sum of its category's entries. */
  function PieRows(s: seq<Investment>): seq<PieRow> {
    PieRowsFor(s, Distinct(CategoryKeys(s)))
  }

  /** The category of every row. */
  function Names(rows: seq<PieRow>): seq<string> {
    seq(|rows|, j requires 0 <= j < |rows| => rows[j].name)
  }

  /** The sum of the rows' values. */
  function PieTotal(rows: seq<PieRow>): real {
    if rows == [] then 0.0 else PieTotal(rows[..|rows| - 1]) + rows[|rows| - 1].value
  }

  /** The loop state of `AggregatePieData` after reading `s`: the keys are
      the categories in order of first appearance, and each holds the sum of
      its category's entries. */
  ghost predicate PieAccumulator(s: seq<Investment>, aggregated: map<string, real>, keys: seq<string>) {
    && keys == Distinct(CategoryKeys(s))
    && (forall c :: c in aggregated <==> c in keys)
    && (forall c :: c in aggregated ==> aggregated[c] == GroupSum(s, CategoryKeys(s), c))
  }

  /** `aggregatePieData`: one pass over the entries accumulating per
      category. A category whose running sum is 0 is falsy to the source's
      presence test, so its sum is overwritten with the entry's value rather
      than added to; the key keeps its place in the dictionary. The
      categories are listed ones: those are plain, non-integer-like keys of
      the source's object, so it keeps them in insertion order and holds
      numbers under them. */
  method AggregatePieData(investments: seq<Investment>) returns (rows: seq<PieRow>)
    requires ListedCategories(investments)
    ensures rows == PieRows(investments)
  {
    var aggregated: map<string, real> := map[];
    var keys: seq<string> := [];  // the dictionary's keys in insertion order
    for i := 0 to |investments|
      invariant PieAccumulator(investments[..i], aggregated, keys)
    {
      var inv := investments[i];
      if inv.category in aggregated && aggregated[inv.category] != 0.0 {
        PieStep(investments, i, aggregated, keys, aggregated[inv.category] + inv.value);
        aggregated := aggregated[inv.category := aggregated[inv.category] + inv.value];
      } else {
        PieStep(investments, i, aggregated, keys, inv.value);
        if inv.category !in aggregated {
          keys := keys + [inv.category];
        }
        aggregated := aggregated[inv.category := inv.value];
      }
    }
    assert investments[..|investments|] == investments;
    rows := seq(|keys|, j requires 0 <= j < |keys| => PieRow(keys[j], aggregated[keys[j]], CategoryColor(keys[j])));
  }

  /** One iteration of `AggregatePieData`: the running sum of the entry's
      category grows by its value (from 0 when the category is new or its
      sum was 0), a new category joins the end of the keys, and every other
      sum stays. */
  lemma PieStep(s: seq<Investment>, i: nat, prev: map<string, real>, keys: seq<string>, sum: real)
    requires i < |s|
    requires PieAccumulator(s[..i], prev, keys)
    requires sum == (if s[i].category in prev then prev[s[i].category] else 0.0) + s[i].value
    ensures PieAccumulator(s[..i + 1], prev[s[i].category := sum],
                           if s[i].category in prev then keys else keys + [s[i].category])
  {
    PieStepKeys(s, i, prev, keys);
    PieStepSums(s, i, prev, keys, sum);
  }

  lemma PieStepKeys(s: seq<Investment>, i: nat, prev: map<string, real>, keys: seq<string>)
    requires i < |s|
    requires PieAccumulator(s[..i], prev, keys)
    ensures Distinct(CategoryKeys(s[..i + 1])) == if s[i].category in prev then keys else keys + [s[i].category]
  {
    KeysSnoc(s, i);
    DistinctSnoc(CategoryKeys(s[..i]), s[i].category);
  }

  lemma PieStepSums(s: seq<Investment>, i: nat, prev: map<string, real>, keys: seq<string>, sum: real)
    requires i < |s|
    requires PieAccumulator(s[..i], prev, keys)
    requires sum == (if s[i].category in prev then prev[s[i].category] else 0.0) + s[i].value
    ensures sum == GroupSum(s[..i + 1], CategoryKeys(s[..i + 1]), s[i].category)
    ensures forall c :: c in prev && c != s[i].category ==> prev[c] == GroupSum(s[..i + 1], CategoryKeys(s[..i + 1]), c)
  {
    var c := s[i].category;
    var ks := CategoryKeys(s[..i]);
    KeysSnoc(s, i);
    MembersSnoc(s[..i], ks, s[i], c);
    if c !in prev {
      DistinctKeys(ks);
      MembersAbsent(s[..i], ks, c);
    }
  }

  lemma {:induction false} PieTotalFor(s: seq<Investment>, keys: seq<string>)
    ensures PieTotal(PieRowsFor(s, keys)) == SumGroups(s, CategoryKeys(s), keys)
    decreases |keys|
  {
    if keys != [] {
      var rows := PieRowsFor(s, keys);
      assert rows[..|rows| - 1] == PieRowsFor(s, keys[..|keys| - 1]);
      PieTotalFor(s, keys[..|keys| - 1]);
    }
  }

  /** The pie has exactly one row per category present in the entries and
      none for an absent one, the rows follow the order in which categories
      first appear, each row holds the sum of its category's entries and
      the rows add up to the portfolio total. */
  lemma PieRowsProperties(s: seq<Investment>)
    ensures forall c :: c in Names(PieRows(s)) <==> c in CategoryKeys(s)
    ensures forall j, k :: 0 <= j < k < |PieRows(s)| ==> PieRows(s)[j].name != PieRows(s)[k].name
    ensures forall j, k :: 0 <= j < k < |PieRows(s)| ==>
      AppearsBefore(CategoryKeys(s), PieRows(s)[j].name, PieRows(s)[k].name)
    ensures forall j :: 0 <= j < |PieRows(s)| ==>
      PieRows(s)[j].value == Total(Members(s, CategoryKeys(s), PieRows(s)[j].name))
    ensures PieTotal(PieRows(s)) == Total(s)
  {
    var ks, rows := CategoryKeys(s), PieRows(s);
    var d := Distinct(ks);
    assert Names(rows) == d;
    DistinctKeys(ks);
    DistinctFirstAppearance(ks);
    PieTotalFor(s, d);
    SumGroupsDistinct(s, ks);
  }

  // ---------------------------------------------------------------------
  // Asset aggregation

  /** The text key of an asset. */
  function KeyOf(p: AssetKey): string {
    KeyString(p.0, p.1)
  }

  /** The text keys of the listed assets. */
  function KeyStrings(d: seq<AssetKey>): seq<string> {
    seq(|d|, j requires 0 <= j < |d| => KeyOf(d[j]))
  }

  /** What the accumulator holds for asset `p` once all of `s` is read. */
  function GroupOf(s: seq<Investment>, p: AssetKey): AssetGroup {
    AssetGroup(p.0, p.1, GroupSum(s, AssetKeys(s), p), CategoryColor(p.0), GroupIds(s, AssetKeys(s), p))
  }

  /** `percentage` of an asset row: 0 when the total is 0 (an empty store,
      or entries whose values sum to 0), otherwise the value as a percentage
      of the total (display rounding is not modelled). */
  function Percentage(value: real, total: real): (pct: real)
    ensures total == 0.0 ==> pct == 0.0
    ensures total != 0.0 ==> pct * total == value * 100.0
  {
    if total == 0.0 then 0.0 else value / total * 100.0
  }

  function WithPercentage(g: AssetGroup, total: real): AssetRow {
    AssetRow(g.category, g.name, g.value, g.color, g.individualIds, Percentage(g.value, total))
  }

  function AssetRowsFor(s: seq<Investment>, keys: seq<AssetKey>, total: real): seq<AssetRow> {
    seq(|keys|, j requires 0 <= j < |keys| => WithPercentage(GroupOf(s, keys[j]), total))
  }

  /** The asset rows of `s`: one per (category, name) pair, in order of
      first appearance. */
  function AssetRows(s: seq<Investment>, total: real): seq<AssetRow> {
    AssetRowsFor(s, Distinct(AssetKeys(s)), total)
  }

  predicate ListedCategories(s: seq<Investment>) {
    forall i :: 0 <= i < |s| ==> s[i].category in InvestmentCategories
  }

  /** Every asset read from entries of listed categories has a listed
      category. */
  lemma DistinctAssetsListed(s: seq<Investment>)
    requires ListedCategories(s)
    ensures forall p :: p in Distinct(AssetKeys(s)) ==> '-' !in p.0
  {
    DistinctKeys(AssetKeys(s));
    forall p | p in Distinct(AssetKeys(s)) ensures '-' !in p.0 {
      var ks := AssetKeys(s);
      var i :| 0 <= i < |ks| && ks[i] == p;
      CategoriesHaveNoDash(s[i].category);
    }
  }

  /** For assets whose categories have no '-', the text key of `p` is among
      the text keys of `d` exactly when `p` is among `d`. */
  lemma KeyStringsMember(d: seq<AssetKey>, p: AssetKey)
    requires forall q :: q in d ==> '-' !in q.0
    requires '-' !in p.0
    ensures KeyOf(p) in KeyStrings(d) <==> p in d
  {
    if KeyOf(p) in KeyStrings(d) {
      var j :| 0 <= j < |d| && KeyStrings(d)[j] == KeyOf(p);
      assert d[j] in d;
      KeyStringInjective(d[j].0, d[j].1, p.0, p.1);
    }
    if p in d {
      var j :| 0 <= j < |d| && d[j] == p;
      assert KeyStrings(d)[j] == KeyOf(p);
    }
  }

  /** Adding one entry to an asset's accumulator: its value joins the sum
      and its id the end of the id list. */
  function AddEntry(g: AssetGroup, x: Investment): AssetGroup {
    g.(value := g.value + x.value, individualIds := g.individualIds + [x.id])
  }

  /** Every asset of `d` has its group, as read from `s`, under its text key. */
  ghost predicate HoldsGroups(s: seq<Investment>, aggregated: map<string, AssetGroup>, d: seq<AssetKey>) {
    forall j :: 0 <= j < |d| ==> KeyOf(d[j]) in aggregated && aggregated[KeyOf(d[j])] == GroupOf(s, d[j])
  }

  /** The loop state of `AggregateAssetData` after reading `s`: the keys
      are the text keys of the assets in order of first appearance, and each
      holds its asset's group. */
  ghost predicate AssetAccumulator(s: seq<Investment>, aggregated: map<string, AssetGroup>, keys: seq<string>) {
    && keys == KeyStrings(Distinct(AssetKeys(s)))
    && (forall key :: key in aggregated <==> key in keys)
    && HoldsGroups(s, aggregated, Distinct(AssetKeys(s)))
  }

  /** `aggregateAssetData`: one pass over the entries accumulating per text
      key `category + '-' + name`, appending each entry's id to its group;
      then every group gets its percentage of `totalValue`. */
  method AggregateAssetData(investments: seq<Investment>, totalValue: real) returns (rows: seq<AssetRow>)
    requires ListedCategories(investments)
    ensures rows == AssetRows(investments, totalValue)
  {
    var aggregated: map<string, AssetGroup> := map[];
    var keys: seq<string> := [];  // the dictionary's keys in insertion order
    for i := 0 to |investments|
      invariant AssetAccumulator(investments[..i], aggregated, keys)
    {
      var inv := investments[i];
      var key := KeyString(inv.category, inv.name);
      if key in aggregated {
        AssetStepExisting(investments, i, aggregated, keys);
        aggregated := aggregated[key := AddEntry(aggregated[key], inv)];
      } else {
        AssetStepNew(investments, i, aggregated, keys);
        aggregated := aggregated[key := AssetGroup(inv.category, inv.name, inv.value, CategoryColor(inv.category), [inv.id])];
        keys := keys + [key];
      }
    }
    assert investments[..|investments|] == investments;
    AssetRowsFromAccumulator(investments, aggregated, keys, totalValue);
    rows := seq(|keys|, j requires 0 <= j < |keys| && keys[j] in aggregated => WithPercentage(aggregated[keys[j]], totalValue));
  }

  /** Reading the accumulator off in key order gives the asset rows. */
  lemma AssetRowsFromAccumulator(s: seq<Investment>, aggregated: map<string, AssetGroup>, keys: seq<string>, total: real)
    requires AssetAccumulator(s, aggregated, keys)
    ensures forall j :: 0 <= j < |keys| ==> keys[j] in aggregated
    ensures seq(|keys|, j requires 0 <= j < |keys| && keys[j] in aggregated => WithPercentage(aggregated[keys[j]], total))
         == AssetRows(s, total)
  {
    var d := Distinct(AssetKeys(s));
    assert forall j :: 0 <= j < |keys| ==> keys[j] == KeyOf(d[j]);
  }

  /** Accumulating one more entry changes only the group of its asset. */
  lemma GroupOfSnoc(s: seq<Investment>, i: nat)
    requires i < |s|
    ensures GroupOf(s[..i + 1], (s[i].category, s[i].name)) == AddEntry(GroupOf(s[..i], (s[i].category, s[i].name)), s[i])
    ensures forall q :: q != (s[i].category, s[i].name) ==> GroupOf(s[..i + 1], q) == GroupOf(s[..i], q)
  {
    KeysSnoc(s, i);
    OwnGroupSnoc(s, i);
    OtherGroupsSnoc(s, i);
  }

  lemma OwnGroupSnoc(s: seq<Investment>, i: nat)
    requires i < |s|
    requires AssetKeys(s[..i + 1]) == AssetKeys(s[..i]) + [(s[i].category, s[i].name)]
    ensures GroupOf(s[..i + 1], (s[i].category, s[i].name)) == AddEntry(GroupOf(s[..i], (s[i].category, s[i].name)), s[i])
  {
    assert s[..i + 1] == s[..i] + [s[i]];
    MembersSnoc(s[..i], AssetKeys(s[..i]), s[i], (s[i].category, s[i].name));
  }

  lemma OtherGroupsSnoc(s: seq<Investment>, i: nat)
    requires i < |s|
    requires AssetKeys(s[..i + 1]) == AssetKeys(s[..i]) + [(s[i].category, s[i].name)]
    ensures forall q :: q != (s[i].category, s[i].name) ==> GroupOf(s[..i + 1], q) == GroupOf(s[..i], q)
  {
    assert s[..i + 1] == s[..i] + [s[i]];
    MembersSnoc(s[..i], AssetKeys(s[..i]), s[i], (s[i].category, s[i].name));
  }

  /** The categories of a prefix of `s` are listed, so none contains '-'. */
  lemma PrefixAssetsListed(s: seq<Investment>, i: nat)
    requires i <= |s| && ListedCategories(s)
    ensures forall q :: q in Distinct(AssetKeys(s[..i])) ==> '-' !in q.0
  {
    assert ListedCategories(s[..i]) by {
      forall j | 0 <= j < i ensures s[..i][j].category in InvestmentCategories {
        assert s[..i][j] == s[j];
      }
    }
    DistinctAssetsListed(s[..i]);
  }

  /** The asset list of one more entry: a known asset keeps the list, a new
      one joins it at the end; either way its text key is new exactly when
      the asset is. */
  lemma AssetKeysStep(s: seq<Investment>, i: nat, aggregated: map<string, AssetGroup>, keys: seq<string>)
    requires i < |s| && ListedCategories(s)
    requires AssetAccumulator(s[..i], aggregated, keys)
    ensures var p := (s[i].category, s[i].name);
      && (KeyOf(p) in aggregated <==> p in Distinct(AssetKeys(s[..i])))
      && Distinct(AssetKeys(s[..i + 1])) == if p in Distinct(AssetKeys(s[..i])) then Distinct(AssetKeys(s[..i]))
                                           else Distinct(AssetKeys(s[..i])) + [p]
  {
    var p: AssetKey := (s[i].category, s[i].name);
    KeysSnoc(s, i);
    DistinctSnoc(AssetKeys(s[..i]), p);
    PrefixAssetsListed(s, i);
    CategoriesHaveNoDash(s[i].category);
    KeyStringsMember(Distinct(AssetKeys(s[..i])), p);
  }

  /** Updating the group of `p` with entry `x` keeps every other group of `d`,
      whose text keys differ from that of `p`. */
  lemma HoldsGroupsUpdate(s: seq<Investment>, i: nat, aggregated: map<string, AssetGroup>, d: seq<AssetKey>, g: AssetGroup)
    requires i < |s|
    requires HoldsGroups(s[..i], aggregated, d)
    requires forall q :: q in d ==> '-' !in q.0
    requires '-' !in s[i].category
    requires g == GroupOf(s[..i + 1], (s[i].category, s[i].name))
    ensures HoldsGroups(s[..i + 1], aggregated[KeyString(s[i].category, s[i].name) := g], d)
  {
    var p: AssetKey := (s[i].category, s[i].name);
    GroupOfSnoc(s, i);
    forall j | 0 <= j < |d| && d[j] != p
      ensures KeyOf(d[j]) != KeyOf(p) && GroupOf(s[..i + 1], d[j]) == GroupOf(s[..i], d[j])
    {
      assert d[j] in d;
      KeyStringInjective(d[j].0, d[j].1, p.0, p.1);
    }
  }

  /** An entry of an asset already seen: its group is updated in place. */
  lemma AssetStepExisting(s: seq<Investment>, i: nat, aggregated: map<string, AssetGroup>, keys: seq<string>)
    requires i < |s| && ListedCategories(s)
    requires AssetAccumulator(s[..i], aggregated, keys)
    requires KeyString(s[i].category, s[i].name) in aggregated
    ensures var key := KeyString(s[i].category, s[i].name);
      AssetAccumulator(s[..i + 1], aggregated[key := AddEntry(aggregated[key], s[i])], keys)
  {
    var p: AssetKey := (s[i].category, s[i].name);
    var d := Distinct(AssetKeys(s[..i]));
    AssetKeysStep(s, i, aggregated, keys);
    var g := AddEntry(aggregated[KeyOf(p)], s[i]);
    assert g == GroupOf(s[..i + 1], p) by {
      ExistingGroup(s, i, aggregated, d);
    }
    KeepGroups(s, i, aggregated, d, g);
  }

  /** An entry of a new asset: a group is created for it, and its key joins
      the end of the key list. */
  lemma AssetStepNew(s: seq<Investment>, i: nat, aggregated: map<string, AssetGroup>, keys: seq<string>)
    requires i < |s| && ListedCategories(s)
    requires AssetAccumulator(s[..i], aggregated, keys)
    requires KeyString(s[i].category, s[i].name) !in aggregated
    ensures var x, key := s[i], KeyString(s[i].category, s[i].name);
      AssetAccumulator(s[..i + 1],
        aggregated[key := AssetGroup(x.category, x.name, x.value, CategoryColor(x.category), [x.id])],
        keys + [key])
  {
    var x := s[i];
    var p: AssetKey := (x.category, x.name);
    var d := Distinct(AssetKeys(s[..i]));
    AssetKeysStep(s, i, aggregated, keys);
    var g := AssetGroup(x.category, x.name, x.value, CategoryColor(x.category), [x.id]);
    NewGroup(s, i);
    AddGroup(s, i, aggregated, keys, d, g);
  }

  /** The group of a known asset, updated with the entry, is its group after
      the entry. */
  lemma ExistingGroup(s: seq<Investment>, i: nat, aggregated: map<string, AssetGroup>, d: seq<AssetKey>)
    requires i < |s| && HoldsGroups(s[..i], aggregated, d)
    requires (s[i].category, s[i].name) in d
    ensures KeyString(s[i].category, s[i].name) in aggregated
    ensures AddEntry(aggregated[KeyString(s[i].category, s[i].name)], s[i])
         == GroupOf(s[..i + 1], (s[i].category, s[i].name))
  {
    var p: AssetKey := (s[i].category, s[i].name);
    var j :| 0 <= j < |d| && d[j] == p;
    GroupOfSnoc(s, i);
  }

  /** Replacing the group of a known asset keeps the accumulator. */
  lemma KeepGroups(s: seq<Investment>, i: nat, aggregated: map<string, AssetGroup>, d: seq<AssetKey>, g: AssetGroup)
    requires i < |s| && ListedCategories(s)
    requires d == Distinct(AssetKeys(s[..i])) && (s[i].category, s[i].name) in d
    requires AssetAccumulator(s[..i], aggregated, KeyStrings(d))
    requires g == GroupOf(s[..i + 1], (s[i].category, s[i].name))
    ensures AssetAccumulator(s[..i + 1], aggregated[KeyString(s[i].category, s[i].name) := g], KeyStrings(d))
  {
    var p: AssetKey := (s[i].category, s[i].name);
    KeysSnoc(s, i);
    DistinctSnoc(AssetKeys(s[..i]), p);
    assert Distinct(AssetKeys(s[..i + 1])) == d;
    PrefixAssetsListed(s, i);
    CategoriesHaveNoDash(s[i].category);
    HoldsGroupsUpdate(s, i, aggregated, d, g);
  }

  /** Adding the group of a new asset, under a new key at the end, keeps the
      accumulator. */
  lemma AddGroup(s: seq<Investment>, i: nat, aggregated: map<string, AssetGroup>, keys: seq<string>, d: seq<AssetKey>, g: AssetGroup)
    requires i < |s| && ListedCategories(s)
    requires d == Distinct(AssetKeys(s[..i])) && (s[i].category, s[i].name) !in d
    requires AssetAccumulator(s[..i], aggregated, keys)
    requires g == GroupOf(s[..i + 1], (s[i].category, s[i].name))
    ensures var key := KeyString(s[i].category, s[i].name);
      AssetAccumulator(s[..i + 1], aggregated[key := g], keys + [key])
  {
    AddGroupKeys(s, i, d);
    AddGroupHolds(s, i, aggregated, d, g);
  }

  lemma AddGroupKeys(s: seq<Investment>, i: nat, d: seq<AssetKey>)
    requires i < |s|
    requires d == Distinct(AssetKeys(s[..i])) && (s[i].category, s[i].name) !in d
    ensures Distinct(AssetKeys(s[..i + 1])) == d + [(s[i].category, s[i].name)]
    ensures KeyStrings(Distinct(AssetKeys(s[..i + 1]))) == KeyStrings(d) + [KeyString(s[i].category, s[i].name)]
  {
    var p: AssetKey := (s[i].category, s[i].name);
    KeysSnoc(s, i);
    DistinctSnoc(AssetKeys(s[..i]), p);
    KeyStringsSnoc(d, p);
  }

  lemma AddGroupHolds(s: seq<Investment>, i: nat, aggregated: map<string, AssetGroup>, d: seq<AssetKey>, g: AssetGroup)
    requires i < |s| && ListedCategories(s)
    requires d == Distinct(AssetKeys(s[..i]))
    requires HoldsGroups(s[..i], aggregated, d)
    requires g == GroupOf(s[..i + 1], (s[i].category, s[i].name))
    ensures HoldsGroups(s[..i + 1], aggregated[KeyString(s[i].category, s[i].name) := g], d + [(s[i].category, s[i].name)])
  {
    var p: AssetKey := (s[i].category, s[i].name);
    PrefixAssetsListed(s, i);
    CategoriesHaveNoDash(s[i].category);
    HoldsGroupsUpdate(s, i, aggregated, d, g);
    HoldsGroupsSnoc(s[..i + 1], aggregated[KeyOf(p) := g], d, p);
  }

  /** The group of an asset not seen before holds only the entry. */
  lemma NewGroup(s: seq<Investment>, i: nat)
    requires i < |s| && (s[i].category, s[i].name) !in Distinct(AssetKeys(s[..i]))
    ensures GroupOf(s[..i + 1], (s[i].category, s[i].name))
         == AssetGroup(s[i].category, s[i].name, s[i].value, CategoryColor(s[i].category), [s[i].id])
  {
    DistinctKeys(AssetKeys(s[..i]));
    MembersAbsent(s[..i], AssetKeys(s[..i]), (s[i].category, s[i].name));
    TotalSnoc([], s[i]);
    GroupOfSnoc(s, i);
  }

  lemma KeyStringsSnoc(d: seq<AssetKey>, p: AssetKey)
    ensures KeyStrings(d + [p]) == KeyStrings(d) + [KeyOf(p)]
  {
  }

  lemma HoldsGroupsSnoc(s: seq<Investment>, aggregated: map<string, AssetGroup>, d: seq<AssetKey>, p: AssetKey)
    requires HoldsGroups(s, aggregated, d)
    requires KeyOf(p) in aggregated && aggregated[KeyOf(p)] == GroupOf(s, p)
    ensures HoldsGroups(s, aggregated, d + [p])
  {
    forall j | 0 <= j < |d| + 1
      ensures KeyOf((d + [p])[j]) in aggregated && aggregated[KeyOf((d + [p])[j])] == GroupOf(s, (d + [p])[j])
    {
      if j < |d| {
        assert (d + [p])[j] == d[j];
      }
    }
  }

  /** The (category, name) pair of every row. */
  function Assets(rows: seq<AssetRow>): seq<AssetKey> {
    seq(|rows|, j requires 0 <= j < |rows| => (rows[j].category, rows[j].name))
  }

  /** The sum of the rows' values. */
  function AssetTotal(rows: seq<AssetRow>): real {
    if rows == [] then 0.0 else AssetTotal(rows[..|rows| - 1]) + rows[|rows| - 1].value
  }

  /** The sum of the rows' percentages. */
  function PercentTotal(rows: seq<AssetRow>): real {
    if rows == [] then 0.0 else PercentTotal(rows[..|rows| - 1]) + rows[|rows| - 1].percentage
  }

  /** The asset list has exactly one row per (category, name) pair present
      in the entries, in order of first appearance. */
  lemma AssetRowsCover(s: seq<Investment>, total: real)
    ensures forall p :: p in Assets(AssetRows(s, total)) <==> p in AssetKeys(s)
    ensures forall j, k :: 0 <= j < k < |AssetRows(s, total)| ==> Assets(AssetRows(s, total))[j] != Assets(AssetRows(s, total))[k]
    ensures forall j, k :: 0 <= j < k < |AssetRows(s, total)| ==>
      AppearsBefore(AssetKeys(s), Assets(AssetRows(s, total))[j], Assets(AssetRows(s, total))[k])
  {
    var ks := AssetKeys(s);
    assert Assets(AssetRows(s, total)) == Distinct(ks);
    DistinctKeys(ks);
    DistinctFirstAppearance(ks);
  }

  /** Each row carries its asset's entries: its value is their sum, its ids
      are theirs in input order, and its colour is its category's. */
  lemma AssetRowsGroups(s: seq<Investment>, total: real)
    ensures forall j :: 0 <= j < |AssetRows(s, total)| ==>
      var row, m := AssetRows(s, total)[j], Members(s, AssetKeys(s), Assets(AssetRows(s, total))[j]);
      && row.value == Total(m)
      && row.individualIds == Ids(m)
      && row.color == CategoryColor(row.category)
  {
  }

  /** Each row's percentage is its share of `total`, and 0 when `total` is 0. */
  lemma AssetRowsPercentages(s: seq<Investment>, total: real)
    ensures forall j :: 0 <= j < |AssetRows(s, total)| ==>
      var row := AssetRows(s, total)[j];
      && (total == 0.0 ==> row.percentage == 0.0)
      && (total != 0.0 ==> row.percentage == row.value / total * 100.0)
  {
  }

  /** With unique ids, an entry's id is in the row of its own asset and in
      no other row. */
  lemma AssetRowsIds(s: seq<Investment>, total: real)
    requires UniqueIds(s)
    ensures forall i, j :: 0 <= i < |s| && 0 <= j < |AssetRows(s, total)| ==>
      (s[i].id in AssetRows(s, total)[j].individualIds <==> Assets(AssetRows(s, total))[j] == (s[i].category, s[i].name))
  {
    var ks, rows := AssetKeys(s), AssetRows(s, total);
    forall i, j | 0 <= i < |s| && 0 <= j < |rows|
      ensures s[i].id in rows[j].individualIds <==> Assets(rows)[j] == (s[i].category, s[i].name)
    {
      IdInOwnGroupOnly(s, ks, i, Assets(rows)[j]);
    }
  }

  lemma {:induction false} AssetTotalFor(s: seq<Investment>, keys: seq<AssetKey>, total: real)
    ensures AssetTotal(AssetRowsFor(s, keys, total)) == SumGroups(s, AssetKeys(s), keys)
    decreases |keys|
  {
    if keys != [] {
      var rows := AssetRowsFor(s, keys, total);
      assert rows[..|rows| - 1] == AssetRowsFor(s, keys[..|keys| - 1], total);
      AssetTotalFor(s, keys[..|keys| - 1], total);
    }
  }

  /** Rows whose percentages are shares of `total` have percentages adding
      up to the share of their values' sum. */
  lemma {:induction false} PercentTotalShare(rows: seq<AssetRow>, total: real)
    requires total != 0.0
    requires forall j :: 0 <= j < |rows| ==> rows[j].percentage == rows[j].value / total * 100.0
    ensures PercentTotal(rows) == AssetTotal(rows) / total * 100.0
    decreases |rows|
  {
    if rows != [] {
      var rows' := rows[..|rows| - 1];
      PercentTotalShare(rows', total);
      PercentSharesAdd(AssetTotal(rows'), rows[|rows| - 1].value, total);
    }
  }

  lemma PercentSharesAdd(a: real, b: real, t: real)
    requires t != 0.0
    ensures a / t * 100.0 + b / t * 100.0 == (a + b) / t * 100.0
  {
  }

  lemma SelfShare(t: real)
    requires t != 0.0
    ensures t / t * 100.0 == 100.0
  {
  }

  /** The asset rows share out the whole portfolio: their values add up to
      the total of the entries, and when `total` is that (non-zero) total
      their percentages add up to 100. */
  lemma AssetRowsTotal(s: seq<Investment>, total: real)
    ensures AssetTotal(AssetRows(s, total)) == Total(s)
    ensures total == Total(s) && total != 0.0 ==> PercentTotal(AssetRows(s, total)) == 100.0
  {
    AssetTotalFor(s, Distinct(AssetKeys(s)), total);
    SumGroupsDistinct(s, AssetKeys(s));
    if total == Total(s) && total != 0.0 {
      AssetRowsPercentages(s, total);
      PercentTotalShare(AssetRows(s, total), total);
      SelfShare(total);
    }
  }
}
