# Investment calculator: portfolio engine

A Dafny model of the logic inside the `InvestmentCalculator` React
component of `src/App.js`, a personal investment tracker. Everything
between the input widgets and the charts is modelled:

- **Entry store.** A list of investments (id, category, asset name,
  value, colour) with three handlers:
  - `addInvestment` validates a new entry and appends it;
  - `removeAggregatedAsset` deletes the entries of one asset by their ids;
  - `updateAggregatedAssetValue` gives one asset a new total by scaling
    its entries in proportion.
- **Aggregators.**
  - `aggregatePieData` builds the category rows of the pie chart.
  - `aggregateAssetData` builds the asset rows of the asset list. Each row
    has the ids of its entries and its percentage of the portfolio.
- **Monthly ledger.** `registerCurrentMonth` keeps one snapshot (total and
  a copy of the entries) per month label, in calendar order. Every entry
  handler and the manual registration button call it.
- **Contribution allocator.**
  - A percentage per category, kept in step with the categories by the
    reconcile effect, and changed by `handlePercentageChange`.
  - `calculateContributionDistribution` splits the monthly contribution
    by those percentages.

The modules follow the structure of the component:

- `Categories`: the fixed tables, whitespace trimming, and the text key of an asset.
- `Entries`: the investment record, the total, and the id filters and proportional rescale.
- `Grouping`: the dictionary grouping both aggregators perform, as a specification.
- `Aggregators`: the two aggregation loops, proved equal to that specification.
- `Ledger`: the monthly history.
- `Allocator`: the percentage dictionary and the contribution split.
- `Portfolio`: the component as a class. It holds the state fields `investments`, `monthlyData`, `monthlyContribution`, `selectedMonth` and `contributionPercentages`, and one method per handler.

Modelling choices:

- **Values.** Money is `real`, ids are `int`, and strings are `seq<char>`.
- **Months.** A month is its index 0..11 in the month list.
- **Percentage dictionary.** The JavaScript object holding the percentages is a `Dict`: its keys in insertion order plus a map. A missing key reads as 0.
- **Class invariant.** Each handler is one atomic transition of the class and keeps `Valid()`. The invariant says:
  - every entry has a listed category;
  - ids are unique;
  - the history has at most one snapshot per month, in calendar order;
  - the dictionary lists each key once;
  - the dictionary is keyed by exactly the categories present in the entries, in some order.

  The last clause needs the reconcile effect. An entry handler therefore only promises the first four clauses before the effect runs, and all of them after it.
- **Reconcile effect.** The effect at `src/App.js:326-337` runs at the end of every entry handler. It fires exactly when the number of category rows changed, as its dependency `pieData.length` does.

Two behaviours follow the code rather than a looser reading of it:

- The reconcile effect rebuilds the dictionary from the present categories. Percentages of categories that disappeared are dropped, not kept.
- The rescale target is not clamped. A negative target scales the asset to a negative total.

## Model

| member | source | states |
|---|---|---|
| Categories.CategoryColor | src/App.js:32-36 | every category is drawn in a palette colour, and a category outside the list gets the first colour |
| Categories.ColorOfListed | src/App.js:32-36 | a listed category gets the palette colour at its own position in the list; eight colours for eight categories, so the index never wraps |
| Categories.DistinctCategoryColors | src/App.js:32-36 | two different listed categories get different colours (eight categories, eight colours) |
| Categories.RequiresName | src/App.js:400 | the `includes` test on the list of categories that require a name, also used by the add button at line 483; RejectedCases and AddButtonMatchesGuard state its role in the guard |
| Categories.RequiredNamesAreCategories | src/App.js:18 | every category that requires a name is one of the offered categories |
| Categories.Trim | src/App.js:399 | the trimmed name is the infix left after cutting white space from both ends; it is empty exactly when the name is all white space |
| Categories.CategoriesHaveNoDash | src/App.js:6-15 | no listed category contains '-' |
| Categories.KeyString | src/App.js:201 | computes the text key `category-name` of an asset: the category, a dash, then the name; KeyStringInjective states that it identifies the pair for dash-free categories |
| Categories.KeyStringInjective | src/App.js:201 | for categories without '-', the text key `category-name` identifies the (category, name) pair, both directions |
| Entries.Total | src/App.js:305 | computes the left-fold sum of the entries' values; its properties are stated by TotalAppend, SelectRemoveTotal and ScaleTotal |
| Entries.FilterIds | src/App.js:432 | computes the entries whose id is (or is not) among the given ids, in their order; its properties are stated by RemoveIdsProperties |
| Entries.RemoveIds | src/App.js:432 | computes the filter that drops the listed ids, as in removeAggregatedAsset; stated by RemoveIdsProperties |
| Entries.SelectIds | src/App.js:443-444 | computes the filter that keeps the listed ids, the group whose total updateAggregatedAssetValue reads; stated by SelectRemoveTotal |
| Entries.Scale | src/App.js:450-456 | computes the map that multiplies the listed entries' values by the factor; stated by ScaleKeepsFields, ScaleKeepsOthers, ScaleGroupTotal and ScaleHitsTarget |
| Entries.TotalAppend | src/App.js:305 | the total of two concatenated lists is the sum of their totals |
| Entries.RemoveIdsProperties | src/App.js:430-437 | removal keeps exactly the entries whose id is not listed, in their order; ids stay unique; the total drops by the removed entries' values; absent ids change nothing |
| Entries.SelectRemoveTotal | src/App.js:443-444 | the group's total plus the rest's total is the whole total |
| Entries.ScaleKeepsFields | src/App.js:450-456 | rescaling changes only values, and only inside the group: ids, categories, names, colours, length and order stay |
| Entries.ScaleKeepsOthers | src/App.js:450-456 | the entries outside the group are exactly as before |
| Entries.ScaleGroupTotal | src/App.js:448-453 | rescaling multiplies the group's total by the factor |
| Entries.ScaleHitsTarget | src/App.js:443-453 | for a group with a non-zero total, scaling by target over total makes the group sum to the target, whatever its sign |
| Entries.ScaleTotal | src/App.js:458 | rescaling changes the overall total by exactly the change of the group's total |
| Grouping.DistinctKeys | src/App.js:186 | the dictionary's keys are exactly the keys that occur, each once |
| Grouping.DistinctFirstAppearance | src/App.js:186 | the keys come out in the order of their first appearance |
| Grouping.MembersExact | src/App.js:176-184 | a group holds exactly the entries carrying its key |
| Grouping.MembersInOrder | src/App.js:205 | a group lists its members in input order |
| Grouping.IdInOwnGroupOnly | src/App.js:205 | with unique ids, an id is collected by its own key's group and by no other |
| Grouping.SumGroupsDistinct | src/App.js:176-184 | the groups of all keys share out the whole total, counting no entry twice |
| Aggregators.PieRows | src/App.js:173-191 | the independent definition of the category rows (one per distinct category in first-appearance order, with its group sum and colour) that the loop is proved equal to; stated by PieRowsProperties |
| Aggregators.AggregatePieData | src/App.js:173-191 | the loop, including the overwrite when a running sum is 0, returns one row per category in first-appearance order with its sum and colour |
| Aggregators.PieStep | src/App.js:179-183 | one iteration grows only the entry's category, adds a new category last, and leaves other sums alone |
| Aggregators.PieRowsProperties | src/App.js:173-191 | a row exists exactly for each present category, names are distinct, rows follow first appearance, each value is its category's sum, and the values add up to the total |
| Aggregators.Percentage | src/App.js:219 | the percentage is 0 when the total is 0 (an empty store, or entries whose values sum to 0); otherwise it is value / total * 100 |
| Aggregators.AssetRows | src/App.js:196-221 | the independent definition of the asset rows (one per distinct (category, name) pair in first-appearance order, with its group and percentage) that the loop is proved equal to; stated by AssetRowsCover, AssetRowsGroups, AssetRowsPercentages, AssetRowsIds and AssetRowsTotal |
| Aggregators.AggregateAssetData | src/App.js:196-221 | the loop over text keys returns one row per (category, name) asset in first-appearance order, with its group and percentage |
| Aggregators.DistinctAssetsListed | src/App.js:201 | assets read from listed categories never have '-' in the category |
| Aggregators.KeyStringsMember | src/App.js:201 | for such assets, a text key is present exactly when its pair is |
| Aggregators.AddEntry | src/App.js:204-205 | adds an entry to an asset group: its value to the sum and its id to the end of the id list; GroupOfSnoc states that this is one step of the grouping |
| Aggregators.GroupOfSnoc | src/App.js:203-205 | one entry adds its value and appends its id to its own asset's group only |
| Aggregators.AssetRowsCover | src/App.js:196-217 | a row exists exactly for each present asset, assets are distinct, and rows follow first appearance |
| Aggregators.AssetRowsGroups | src/App.js:203-213 | each row's value is the sum of its entries, its ids are theirs in input order, and its colour is its category's |
| Aggregators.WithPercentage | src/App.js:217-220 | turns an asset group into a row carrying its percentage of the total; AssetRowsPercentages states the percentage of every row |
| Aggregators.AssetRowsPercentages | src/App.js:217-220 | each row's percentage is value / total * 100, and exactly 0 when the total is 0 |
| Aggregators.AssetRowsIds | src/App.js:205-212 | with unique ids, every entry's id is in its own asset's row and in no other row |
| Aggregators.AssetRowsTotal | src/App.js:217-220 | the row values add up to the portfolio total, and the percentages add up to 100 when the total is the non-zero portfolio total |
| Ledger.ReplaceMonth | src/App.js:383-386 | computes the map that puts the new snapshot in place of every snapshot of its month; stated by RegisterReplace |
| Ledger.SortByMonth | src/App.js:389-390 | computes the stable sort by calendar index, as insertion sort; stated by SortByMonthSorted and SortByMonthOfSorted |
| Ledger.Register | src/App.js:374-394 | computes the updater of registerCurrentMonth: replace in place when the month is recorded, else append and sort; stated by RegisterProperties |
| Ledger.InsertByMonthElements | src/App.js:389-390 | inserting adds exactly the new snapshot and keeps all others |
| Ledger.SortByMonthSorted | src/App.js:389-390 | the sort by calendar index yields calendar order and is a permutation of its input |
| Ledger.SortByMonthOfSorted | src/App.js:389-390 | a list already in calendar order is left as is by the stable sort |
| Ledger.InsertByMonthStrict | src/App.js:389-390 | inserting a month not yet recorded keeps a strictly ordered list strictly ordered |
| Ledger.RegisterReplace | src/App.js:383-387 | a recorded month is replaced in place: same months, only that month's snapshots change |
| Ledger.RegisterInsert | src/App.js:388-391 | a new month adds one snapshot; the others stay; strict calendar order is kept |
| Ledger.RegisterProperties | src/App.js:374-394 | after registering, the month has exactly the new snapshot, other months are unchanged, and one snapshot per month in calendar order is kept |
| Allocator.Get | src/App.js:354-359 | reads a percentage with a missing key as 0, the `|| 0` reads at lines 354 and 359 and the `!== undefined ? … : 0` read at line 330; DistributionRows and RebuildProperties state what it yields |
| Allocator.Set | src/App.js:341-344 | computes the object spread `{...prev, [name]: value}` on the dictionary; stated by SetProperties |
| Allocator.SumValues | src/App.js:348 | computes the sum of `Object.values` in key order; stated by SumOverSet and SumOverSameKeys |
| Allocator.Rebuild | src/App.js:327-335 | computes the dictionary the effect builds over the row names, each with its prior value or 0; stated by RebuildProperties |
| Allocator.Distribution | src/App.js:347-368 | computes calculateContributionDistribution's rows over the category rows; stated by DistributionRows, AllocatedTotal and FullAllocation |
| Allocator.TotalAllocated | src/App.js:481 | computes the sum of the rows' contribution amounts; stated by AllocatedShare, TotalAllocatedZero and AllocatedTotal |
| Allocator.SetProperties | src/App.js:339-345 | setting a percentage changes only that key, keeps key order (a new key goes last) and changes the sum by the difference |
| Allocator.SumOverSet | src/App.js:348 | summing over keys listed once, after one key is set, changes the sum by that key's difference |
| Allocator.KeySetSize | src/App.js:348 | a key list without repetition has as many distinct keys as entries |
| Allocator.SumOverSameKeys | src/App.js:348 | two repetition-free key lists with the same keys, in any order, give the same sum of percentages |
| Allocator.RebuildProperties | src/App.js:326-337 | the rebuilt dictionary has exactly the category names as keys, in row order, each with its prior percentage or 0; stale keys are gone |
| Allocator.ShortCircuits | src/App.js:350 | the short-circuit test: the percentages sum to 0, the contribution is 0, or there are no category rows; DistributionRows and TotalAllocatedZero state its effect |
| Allocator.DistributionRows | src/App.js:347-368 | one row per category row, in order, with the category's percentage (missing reads as 0) and amount 0 on short-circuit, else pct / 100 * contribution |
| Allocator.AllocatedShare | src/App.js:358-367 | without short-circuit, the amounts add up to the summed percentages as a share of the contribution |
| Allocator.TotalAllocatedZero | src/App.js:350-355 | on short-circuit the allocated total is 0 |
| Allocator.AllocatedTotal | src/App.js:347-368 | for percentages keyed by exactly the category rows, as the reconcile effect leaves them, the allocated total is 0 on short-circuit and always sum(pct) / 100 * contribution |
| Allocator.FullAllocation | src/App.js:480-481 | percentages keyed by the category rows that add up to 100 allocate exactly the contribution |
| Portfolio.Rejected | src/App.js:406 | the add handler's refusal test; stated by RejectedCases |
| Portfolio.AddButtonDisabled | src/App.js:485-488 | the add button's disabled flag; stated by AddButtonMatchesGuard |
| Portfolio.ManualRegistrationDisabled | src/App.js:748 | the manual registration button's disabled flag; stated by RegisteredDisablesButton |
| Portfolio.FinalName | src/App.js:399-404 | a blank name defaults to the category when the category does not require a name; otherwise the trimmed name is kept |
| Portfolio.RejectedCases | src/App.js:406-408 | an entry is refused exactly when it has no category, a value not above 0, or a blank name for a category that requires one |
| Portfolio.AddButtonMatchesGuard | src/App.js:485-488 | the add button is disabled exactly when the handler would refuse the entry |
| Portfolio.RegisteredDisablesButton | src/App.js:748 | after the current entries are registered for the selected month, the manual registration button is disabled |
| Portfolio.PieNames | src/App.js:186-187 | the category rows are named after the present categories |
| Portfolio.Reconciled | src/App.js:326-337 | computes the dictionary after the reconcile effect: rebuilt over the present categories when their count changed, else unchanged; stated by ReconciledProperties and ReconciledKeySet |
| Portfolio.ReconciledProperties | src/App.js:326-337 | when the category count changes, the dictionary's keys become exactly the present categories with prior or 0 values; otherwise it is unchanged |
| Portfolio.ScaleKeepsCategories | src/App.js:450-456 | rescaling keeps the present categories, so the reconcile effect does not fire |
| Portfolio.RemoveKeepsValid | src/App.js:432 | removal keeps categories listed and ids unique |
| Portfolio.AppendCategories | src/App.js:176-186 | an appended entry adds its category last when it is new and leaves the categories alone otherwise, so an unchanged category count means unchanged categories |
| Portfolio.RemoveCategories | src/App.js:430-437 | removal only takes categories away, so an unchanged category count means unchanged categories |
| Portfolio.ReconciledKeySet | src/App.js:326-337 | if the category count tracks the categories, the reconcile effect leaves the dictionary keyed by exactly the present categories |
| Portfolio.StoreAllocation | src/App.js:347-368 | percentages keyed by exactly the present categories hand out their sum as a share of the contribution over the category rows, and the whole contribution when they add up to 100 |
| Portfolio.InitialPercentages | src/App.js:327-335 | the effect's loop builds the rebuilt dictionary over the category rows, empty when there are none |
| Portfolio.InvestmentCalculator.constructor | src/App.js:287-296 | empty store, empty history, contribution 0, the clock's month selected, no percentages |
| Portfolio.InvestmentCalculator.RegisterCurrentMonth | src/App.js:374-394 | the history becomes the registration of the snapshot for the selected month, and the class invariant is kept |
| Portfolio.InvestmentCalculator.ReconcileEffect | src/App.js:326-337 | the dictionary is rebuilt over the category rows when their count differs, and left alone otherwise |
| Portfolio.InvestmentCalculator.CommitInvestments | src/App.js:418-423 | the new entries replace the store, their total is recorded for the selected month, and the reconcile effect runs |
| Portfolio.InvestmentCalculator.AddInvestment | src/App.js:396-428 | a refused entry changes nothing; otherwise the entry with the defaulted name, colour and fresh id is appended, the total grows by its value, and the new total is recorded |
| Portfolio.InvestmentCalculator.RemoveAggregatedAsset | src/App.js:430-437 | the listed entries are dropped, the total falls by their values, and the new total is recorded |
| Portfolio.InvestmentCalculator.UpdateAggregatedAssetValue | src/App.js:439-462 | nothing changes when the group sums to 0; otherwise the group is scaled to sum to the new value, the total moves by the difference, the new total is recorded, and the percentages stay |
| Portfolio.InvestmentCalculator.HandleManualRegistration | src/App.js:464-467 | nothing happens with an empty store; otherwise the current total is recorded for the selected month |
| Portfolio.InvestmentCalculator.HandlePercentageChange | src/App.js:339-345 | only the given category's percentage is set, and the dictionary stays keyed by the present categories |
| Portfolio.InvestmentCalculator.SelectMonth | src/App.js:632-635 | the picked month becomes the selected month |
| Portfolio.InvestmentCalculator.SetMonthlyContribution | src/App.js:843 | the contribution field is set |
| Portfolio.InvestmentCalculator.AssetList | src/App.js:305-309 | the asset rows of the store, with percentages of the store's total |
| Portfolio.InvestmentCalculator.ContributionDistribution | src/App.js:478-481 | the distribution of the contribution over the store's category rows; when the percentages add up to 100 the rows receive exactly the contribution |

## Left out

- Rendering: the JSX, the inline styles, the charts and icons, the month detail modal (`viewingMonth`, `openMonthDetail`, `closeMonthDetail`) and the month picker's open flag are presentation, not logic.
- `formatCurrencyEUR` is a locale formatter call, and formatting only.
- The click-outside effect is DOM event plumbing.
- Number parsing: `parseFloat` and its NaN cases are not modelled. The handlers take parsed reals, and the `|| 0` defaults at lines 340, 440 and 843 are assumed already applied.
- Form field resets after an add (lines 425-427) are not modelled. The form fields are the handler's parameters, not class state.
- React state batching and updater functions are not modelled. Each handler is one atomic transition, and the reconcile effect runs at its end rather than after the next render.
- Number precision: JavaScript numbers are IEEE doubles, and the model computes in exact reals.
- Percentage: the asset percentage is the unrounded real. The source turns it into a `toFixed(2)` string, which is display rounding.
- Allocator.Distribution: the amounts are unrounded reals. The source rounds them with `toFixed(2)` and sums them back with `parseFloat`.
- Portfolio.InvestmentCalculator.AddInvestment: the id is a parameter that must not be in use, rather than `Date.now()`.
- Portfolio.InvestmentCalculator.AddInvestment: the category must be empty or one of the listed categories, which is what the form's select offers. Only listed categories make the pair key equivalent to the text key.
- Portfolio.InvestmentCalculator.HandlePercentageChange: requires a present category name, because its only caller, the input of a category row (line 873), passes that row's name.
- Portfolio.InvestmentCalculator.ContributionDistribution: states the allocated total only for percentages adding up to 100. The general share, sum / 100 * contribution, is stated by Portfolio.StoreAllocation.
- Portfolio.InvestmentCalculator.constructor: the initially selected month is a parameter, rather than a read of the clock.
- Aggregators.AggregateAssetData: the entries must have listed categories. Only then does the text key `category-name` identify an asset.
- The deep copy of the entries in a snapshot (line 380) needs no model, because Dafny sequences of datatypes are values.
- Categories.CategoryColor: the fallback to the first colour is stated for every unlisted string. The source's lookup is a plain object, so `toString`, `constructor` or `__proto__` would return an inherited member instead; no caller reaches these, because the class invariant keeps categories listed.
- Aggregators.AggregatePieData: the entries must have listed categories, as every caller's class invariant guarantees. A plain JavaScript object treats other keys specially: integer-like keys come first, `toString` finds an inherited function, and `__proto__` makes no row.
- Object key order: the model uses insertion order for the dictionaries. JavaScript moves integer-like keys first, but listed category names and their `category-name` keys are never integer-like. The percentage dictionary's keys are the present categories, which the class invariant keeps listed.
