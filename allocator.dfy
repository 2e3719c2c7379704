/** The monthly-contribution simulator: a percentage per category, kept in
    a dictionary that follows the categories of the pie chart, and the
    split of the monthly contribution by those percentages. */
module Allocator {
  import opened Aggregators

  /** A JavaScript object used as a dictionary from category to percentage:
      its keys in insertion order and the value under each. */
  datatype Dict = Dict(keys: seq<string>, values: map<string, real>)

  /** No key is listed twice. */
  predicate NoDuplicates(keys: seq<string>) {
    forall i, j :: 0 <= i < j < |keys| ==> keys[i] != keys[j]
  }

  /** Every key listed once, and exactly the keys that hold a value. */
  predicate WellFormed(d: Dict) {
    d.values.Keys == (set k | k in d.keys) && NoDuplicates(d.keys)
  }

  /** `d[k] || 0`: a missing key reads as 0. */
  function Get(d: Dict, k: string): real {
    if k in d.values then d.values[k] else 0.0
  }

  /** `{...d, [k]: v}`: a key already present keeps its place, a new key
      is added last. */
  function Set(d: Dict, k: string, v: real): Dict {
    Dict(if k in d.keys then d.keys else d.keys + [k], d.values[k := v])
  }

  /** The values read at `keys`, added up in that order. */
  function SumOver(keys: seq<string>, d: Dict): real {
    if keys == [] then 0.0 else SumOver(keys[..|keys| - 1], d) + Get(d, keys[|keys| - 1])
  }

  /** `Object.values(d).reduce((sum, p) => sum + p, 0)`. */
  function SumValues(d: Dict): real {
    SumOver(d.keys, d)
  }

  /** Setting a key changes only that key: it now holds `v`, the other keys
      read as before, the dictionary stays well formed, the key order is
      kept (a new key goes last) and the sum of the values changes by the
      difference. */
  lemma SetProperties(d: Dict, k: string, v: real)
    requires WellFormed(d)
    ensures WellFormed(Set(d, k, v))
    ensures Get(Set(d, k, v), k) == v
    ensures forall k' :: k' != k ==> Get(Set(d, k, v), k') == Get(d, k')
    ensures Set(d, k, v).keys == if k in d.keys then d.keys else d.keys + [k]
    ensures SumValues(Set(d, k, v)) == SumValues(d) - Get(d, k) + v
  {
    SetWellFormed(d, k, v);
    SetReads(d, k, v);
    SetSum(d, k, v);
  }

  lemma SetReads(d: Dict, k: string, v: real)
    ensures Get(Set(d, k, v), k) == v
    ensures forall k' :: k' != k ==> Get(Set(d, k, v), k') == Get(d, k')
  {
  }

  lemma SetWellFormed(d: Dict, k: string, v: real)
    requires WellFormed(d)
    ensures WellFormed(Set(d, k, v))
  {
    var r := Set(d, k, v);
    if k !in d.keys {
      assert (set x | x in r.keys) == (set x | x in d.keys) + {k};
      forall i, j | 0 <= i < j < |r.keys| ensures r.keys[i] != r.keys[j] {
        if j < |d.keys| {
          assert r.keys[i] == d.keys[i] && r.keys[j] == d.keys[j];
        } else {
          assert r.keys[i] == d.keys[i] && d.keys[i] in d.keys;
        }
      }
    }
  }

  lemma SetSum(d: Dict, k: string, v: real)
    requires WellFormed(d)
    ensures SumValues(Set(d, k, v)) == SumValues(d) - Get(d, k) + v
  {
    var r := Set(d, k, v);
    SumOverSet(d.keys, d, k, v);
    if k !in d.keys {
      assert r.keys[..|d.keys|] == d.keys;
      assert k !in d.values;
    }
  }

  /** Summing over keys that list `k` at most once, after `k` is set. */
  lemma {:induction false} SumOverSet(keys: seq<string>, d: Dict, k: string, v: real)
    requires NoDuplicates(keys)
    ensures SumOver(keys, Set(d, k, v)) == SumOver(keys, d) + (if k in keys then v - Get(d, k) else 0.0)
    decreases |keys|
  {
    if keys != [] {
      var keys' := keys[..|keys| - 1];
      assert keys == keys' + [keys[|keys| - 1]];
      assert NoDuplicates(keys');
      SumOverSet(keys', d, k, v);
    }
  }

  /** The keys listed in `a`, as a set. */
  function KeySet(a: seq<string>): set<string> {
    set k | k in a
  }

  /** A list without repetition has as many keys as entries. */
  lemma {:induction false} KeySetSize(a: seq<string>)
    requires NoDuplicates(a)
    ensures |KeySet(a)| == |a|
    decreases |a|
  {
    if a != [] {
      var a', x := a[..|a| - 1], a[|a| - 1];
      assert a == a' + [x];
      assert NoDuplicates(a') && x !in a';
      KeySetSize(a');
      assert KeySet(a) == KeySet(a') + {x};
    }
  }

  /** Of two key sets, one inside the other and of the same size, are equal. */
  lemma SubsetSameSize(small: set<string>, large: set<string>)
    requires small <= large && |small| == |large|
    ensures small == large
  {
    assert large == small + (large - small);
    assert |large - small| == 0;
  }

  /** Dropping the key at position `j` from a list without repetition. */
  lemma RemoveAt(b: seq<string>, j: nat)
    requires j < |b| && NoDuplicates(b)
    ensures NoDuplicates(b[..j] + b[j + 1..])
    ensures KeySet(b[..j] + b[j + 1..]) == KeySet(b) - {b[j]}
  {
    var r := b[..j] + b[j + 1..];
    assert forall i :: 0 <= i < |r| ==> r[i] == if i < j then b[i] else b[i + 1];
    forall k | k in KeySet(b) - {b[j]} ensures k in KeySet(r) {
      var i :| 0 <= i < |b| && b[i] == k;
      if i < j {
        assert r[i] == k;
      } else {
        assert r[i - 1] == k;
      }
    }
  }

  /** Summing without the key at position `j`, then adding its value. */
  lemma {:induction false} SumOverRemove(b: seq<string>, j: nat, d: Dict)
    requires j < |b|
    ensures SumOver(b, d) == SumOver(b[..j] + b[j + 1..], d) + Get(d, b[j])
    decreases |b|
  {
    var r := b[..j] + b[j + 1..];
    if j < |b| - 1 {
      var b' := b[..|b| - 1];
      SumOverRemove(b', j, d);
      assert r[..|r| - 1] == b'[..j] + b'[j + 1..];
      assert r[|r| - 1] == b[|b| - 1];
    } else {
      assert r == b[..|b| - 1];
    }
  }

  /** The sum over a list of keys does not depend on their order. */
  lemma {:induction false} SumOverSameKeys(a: seq<string>, b: seq<string>, d: Dict)
    requires NoDuplicates(a) && NoDuplicates(b) && KeySet(a) == KeySet(b)
    ensures SumOver(a, d) == SumOver(b, d)
    decreases |a|
  {
    KeySetSize(a);
    KeySetSize(b);
    if a != [] {
      var a', x := a[..|a| - 1], a[|a| - 1];
      assert a == a' + [x];
      assert NoDuplicates(a') && x !in a';
      assert KeySet(a) == KeySet(a') + {x};
      assert x in KeySet(b);
      var j :| 0 <= j < |b| && b[j] == x;
      RemoveAt(b, j);
      SumOverRemove(b, j, d);
      SumOverSameKeys(a', b[..j] + b[j + 1..], d);
    }
  }

  /** The dictionary the reconcile effect builds: for each category name in
      order, its prior percentage, or 0 when it had none. */
  function Rebuild(prev: Dict, names: seq<string>): Dict {
    if names == [] then Dict([], map[])
    else
      var n := names[|names| - 1];
      Set(Rebuild(prev, names[..|names| - 1]), n, Get(prev, n))
  }

  /** For distinct names, the rebuilt dictionary has exactly those names as
      keys, in their order, each with its prior value or 0: stale keys are
      dropped. */
  lemma RebuildProperties(prev: Dict, names: seq<string>)
    requires NoDuplicates(names)
    ensures WellFormed(Rebuild(prev, names))
    ensures Rebuild(prev, names).keys == names
    ensures forall n :: n in names ==> Get(Rebuild(prev, names), n) == Get(prev, n)
    ensures forall n :: n !in names ==> n !in Rebuild(prev, names).values
  {
    RebuildShape(prev, names);
    RebuildReads(prev, names);
  }

  lemma {:induction false} RebuildShape(prev: Dict, names: seq<string>)
    requires NoDuplicates(names)
    ensures WellFormed(Rebuild(prev, names)) && Rebuild(prev, names).keys == names
    decreases |names|
  {
    if names != [] {
      var names', n := names[..|names| - 1], names[|names| - 1];
      assert names == names' + [n];
      assert NoDuplicates(names') && n !in names';
      RebuildShape(prev, names');
      SetWellFormed(Rebuild(prev, names'), n, Get(prev, n));
    }
  }

  lemma {:induction false} RebuildReads(prev: Dict, names: seq<string>)
    ensures forall n :: n in names ==> Get(Rebuild(prev, names), n) == Get(prev, n)
    ensures forall n :: n !in names ==> n !in Rebuild(prev, names).values
    decreases |names|
  {
    if names != [] {
      var names', n := names[..|names| - 1], names[|names| - 1];
      assert names == names' + [n];
      RebuildReads(prev, names');
      SetReads(Rebuild(prev, names'), n, Get(prev, n));
    }
  }

  /** One row of the distribution: a category row of the pie chart with
      the share of the contribution it receives and its percentage. */
  datatype DistributionRow = DistributionRow(name: string, value: real, color: string,
                                             contributionAmount: real, manualPercentage: real)

  /** `calculateContributionDistribution`: every category row gets
      `pct / 100 * contribution`, or 0 for all rows when the percentages
      add up to 0, the contribution is 0 or there are no categories. */
  function Distribution(pie: seq<PieRow>, pct: Dict, contribution: real): seq<DistributionRow> {
    if SumValues(pct) == 0.0 || contribution == 0.0 || |pie| == 0 then
      seq(|pie|, j requires 0 <= j < |pie| =>
        DistributionRow(pie[j].name, pie[j].value, pie[j].color, 0.0, Get(pct, pie[j].name)))
    else
      seq(|pie|, j requires 0 <= j < |pie| =>
        var p := Get(pct, pie[j].name);
        DistributionRow(pie[j].name, pie[j].value, pie[j].color, p / 100.0 * contribution, p))
  }

  /** Whether the distribution short-circuits to zero. */
  predicate ShortCircuits(pie: seq<PieRow>, pct: Dict, contribution: real) {
    SumValues(pct) == 0.0 || contribution == 0.0 || |pie| == 0
  }

  /** `totalAllocatedContribution`: the amounts added up. */
  function TotalAllocated(rows: seq<DistributionRow>): real {
    if rows == [] then 0.0 else TotalAllocated(rows[..|rows| - 1]) + rows[|rows| - 1].contributionAmount
  }

  /** The distribution has one row per category row, in the same order,
      carrying that row's category, value and colour and the category's
      percentage; every amount is 0 when it short-circuits and the
      category's share of the contribution otherwise. */
  lemma DistributionRows(pie: seq<PieRow>, pct: Dict, contribution: real)
    ensures |Distribution(pie, pct, contribution)| == |pie|
    ensures forall j :: 0 <= j < |pie| ==>
      var row := Distribution(pie, pct, contribution)[j];
      && row.name == pie[j].name && row.value == pie[j].value && row.color == pie[j].color
      && row.manualPercentage == Get(pct, pie[j].name)
      && row.contributionAmount == (if ShortCircuits(pie, pct, contribution) then 0.0
                                    else Get(pct, pie[j].name) / 100.0 * contribution)
  {
  }

  /** The amounts of a distribution that does not short-circuit add up to
      the categories' percentages, summed, as a share of the
      contribution. */
  lemma {:induction false} AllocatedShare(pie: seq<PieRow>, pct: Dict, contribution: real)
    requires !ShortCircuits(pie, pct, contribution)
    ensures TotalAllocated(Distribution(pie, pct, contribution)) == SumOver(Names(pie), pct) / 100.0 * contribution
  {
    AllocatedPrefix(pie, pct, contribution, |pie|);
    assert Distribution(pie, pct, contribution)[..|pie|] == Distribution(pie, pct, contribution);
    assert Names(pie)[..|pie|] == Names(pie);
  }

  lemma {:induction false} AllocatedPrefix(pie: seq<PieRow>, pct: Dict, contribution: real, n: nat)
    requires !ShortCircuits(pie, pct, contribution) && n <= |pie|
    ensures TotalAllocated(Distribution(pie, pct, contribution)[..n]) == SumOver(Names(pie)[..n], pct) / 100.0 * contribution
    decreases n
  {
    if n > 0 {
      var rows := Distribution(pie, pct, contribution);
      AllocatedPrefix(pie, pct, contribution, n - 1);
      assert rows[..n][..n - 1] == rows[..n - 1];
      assert Names(pie)[..n][..n - 1] == Names(pie)[..n - 1];
      AmountSharesAdd(SumOver(Names(pie)[..n - 1], pct), Get(pct, pie[n - 1].name), contribution);
    }
  }

  lemma AmountSharesAdd(a: real, b: real, c: real)
    ensures a / 100.0 * c + b / 100.0 * c == (a + b) / 100.0 * c
  {
  }

  lemma AllOfIt(c: real)
    ensures 100.0 / 100.0 * c == c
  {
  }

  lemma {:induction false} TotalAllocatedZero(rows: seq<DistributionRow>)
    requires forall j :: 0 <= j < |rows| ==> rows[j].contributionAmount == 0.0
    ensures TotalAllocated(rows) == 0.0
    decreases |rows|
  {
    if rows != [] {
      TotalAllocatedZero(rows[..|rows| - 1]);
    }
  }

  /** A share of nothing, or of a contribution of 0, is 0. */
  lemma ZeroShare(a: real, c: real)
    requires a == 0.0 || c == 0.0
    ensures a / 100.0 * c == 0.0
  {
  }

  /** A short-circuited distribution hands out nothing. */
  lemma ShortCircuitTotal(pie: seq<PieRow>, pct: Dict, contribution: real)
    requires ShortCircuits(pie, pct, contribution)
    ensures TotalAllocated(Distribution(pie, pct, contribution)) == 0.0
  {
    DistributionRows(pie, pct, contribution);
    TotalAllocatedZero(Distribution(pie, pct, contribution));
  }

  /** For a dictionary keyed by exactly the category rows, in any order,
      the distribution hands out the sum of all percentages as a share of
      the contribution, which is nothing when it short-circuits. */
  lemma AllocatedTotal(pie: seq<PieRow>, pct: Dict, contribution: real)
    requires NoDuplicates(Names(pie)) && NoDuplicates(pct.keys)
    requires KeySet(pct.keys) == KeySet(Names(pie))
    ensures ShortCircuits(pie, pct, contribution) ==> TotalAllocated(Distribution(pie, pct, contribution)) == 0.0
    ensures TotalAllocated(Distribution(pie, pct, contribution)) == SumValues(pct) / 100.0 * contribution
  {
    SumOverSameKeys(Names(pie), pct.keys, pct);
    if ShortCircuits(pie, pct, contribution) {
      ShortCircuitTotal(pie, pct, contribution);
      if |pie| == 0 {
        assert Names(pie) == [];
      }
      ZeroShare(SumValues(pct), contribution);
    } else {
      AllocatedShare(pie, pct, contribution);
    }
  }

  /** Percentages keyed by exactly the category rows that add up to 100
      hand out exactly the contribution. */
  lemma FullAllocation(pie: seq<PieRow>, pct: Dict, contribution: real)
    requires NoDuplicates(Names(pie)) && NoDuplicates(pct.keys)
    requires KeySet(pct.keys) == KeySet(Names(pie))
    requires SumValues(pct) == 100.0
    ensures TotalAllocated(Distribution(pie, pct, contribution)) == contribution
  {
    AllocatedTotal(pie, pct, contribution);
    AllOfIt(contribution);
  }
}
