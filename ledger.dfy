/** The monthly history: one snapshot of the portfolio per month label,
    kept in calendar order. */
module Ledger {
  import opened Entries

  /** The month labels of the month picker; a month is its position here. */
  const MonthsList: seq<string> := ["Jan", "Fev", "Mar", "Abr", "Mai", "Jun", "Jul", "Ago", "Set", "Out", "Nov", "Dez"]

  type Month = m: nat | m < 12

  /** A recorded month: its label, the portfolio total and a copy of the
      entries at that moment. */
  datatype MonthSnapshot = MonthSnapshot(month: Month, total: real, investments: seq<Investment>)

  /** The months recorded, in list order. */
  function Months(data: seq<MonthSnapshot>): (ms: seq<Month>)
    ensures |ms| == |data|
  {
    seq(|data|, k requires 0 <= k < |data| => data[k].month)
  }

  /** The snapshot of `snap.month` replaces every snapshot of that month, in
      place. */
  function ReplaceMonth(data: seq<MonthSnapshot>, snap: MonthSnapshot): (r: seq<MonthSnapshot>)
    ensures |r| == |data|
  {
    seq(|data|, k requires 0 <= k < |data| => if data[k].month == snap.month then snap else data[k])
  }

  predicate SortedByMonth(data: seq<MonthSnapshot>) {
    forall j, k :: 0 <= j < k < |data| ==> data[j].month <= data[k].month
  }

  /** Calendar order with at most one snapshot per month. */
  predicate StrictlySorted(data: seq<MonthSnapshot>) {
    forall j, k :: 0 <= j < k < |data| ==> data[j].month < data[k].month
  }

  /** Places `x` after every snapshot of `sorted` that is not later than it. */
  function InsertByMonth(sorted: seq<MonthSnapshot>, x: MonthSnapshot): seq<MonthSnapshot> {
    if sorted == [] || sorted[|sorted| - 1].month <= x.month then sorted + [x]
    else InsertByMonth(sorted[..|sorted| - 1], x) + [sorted[|sorted| - 1]]
  }

  /** The array sort by calendar index: a stable sort on the month. */
  function SortByMonth(data: seq<MonthSnapshot>): seq<MonthSnapshot> {
    if data == [] then [] else InsertByMonth(SortByMonth(data[..|data| - 1]), data[|data| - 1])
  }

  /** `registerCurrentMonth`'s update of the history: a month already
      recorded has its snapshot replaced in place; a new month is appended
      and the list sorted by calendar index. */
  function Register(data: seq<MonthSnapshot>, snap: MonthSnapshot): seq<MonthSnapshot> {
    if snap.month in Months(data) then ReplaceMonth(data, snap) else SortByMonth(data + [snap])
  }

  /** Insertion adds `x` and keeps every snapshot of the list. */
  lemma {:induction false} InsertByMonthElements(sorted: seq<MonthSnapshot>, x: MonthSnapshot)
    ensures multiset(InsertByMonth(sorted, x)) == multiset(sorted) + multiset{x}
    ensures forall y :: y in InsertByMonth(sorted, x) <==> y in sorted || y == x
    ensures |InsertByMonth(sorted, x)| == |sorted| + 1
    decreases |sorted|
  {
    if sorted != [] && sorted[|sorted| - 1].month > x.month {
      var t', last := sorted[..|sorted| - 1], sorted[|sorted| - 1];
      assert sorted == t' + [last];
      InsertByMonthElements(t', x);
    }
  }

  lemma {:induction false} InsertByMonthSorted(sorted: seq<MonthSnapshot>, x: MonthSnapshot)
    requires SortedByMonth(sorted)
    ensures SortedByMonth(InsertByMonth(sorted, x))
    decreases |sorted|
  {
    if sorted != [] && sorted[|sorted| - 1].month > x.month {
      var t', last := sorted[..|sorted| - 1], sorted[|sorted| - 1];
      InsertByMonthSorted(t', x);
      InsertByMonthElements(t', x);
      var r' := InsertByMonth(t', x);
      var r := r' + [last];
      forall j, k | 0 <= j < k < |r| ensures r[j].month <= r[k].month {
        if k == |r| - 1 {
          assert r[j] in r';
          if r[j] != x {
            var i :| 0 <= i < |t'| && t'[i] == r[j];
            assert sorted[i] == r[j];
          }
        }
      }
    }
  }

  /** Sorting by month yields a list in calendar order holding exactly the
      snapshots it was given. */
  lemma {:induction false} SortByMonthSorted(data: seq<MonthSnapshot>)
    ensures SortedByMonth(SortByMonth(data))
    ensures multiset(SortByMonth(data)) == multiset(data)
    decreases |data|
  {
    if data != [] {
      var d', x := data[..|data| - 1], data[|data| - 1];
      assert data == d' + [x];
      SortByMonthSorted(d');
      InsertByMonthSorted(SortByMonth(d'), x);
      InsertByMonthElements(SortByMonth(d'), x);
    }
  }

  /** A list already in calendar order is left as it is by the sort. */
  lemma {:induction false} SortByMonthOfSorted(data: seq<MonthSnapshot>)
    requires SortedByMonth(data)
    ensures SortByMonth(data) == data
    decreases |data|
  {
    if data != [] {
      var d' := data[..|data| - 1];
      assert SortedByMonth(d');
      SortByMonthOfSorted(d');
      assert d' + [data[|data| - 1]] == data;
    }
  }

  /** Inserting a snapshot of a month not yet recorded into a strictly
      sorted list keeps it strictly sorted and adds exactly that snapshot. */
  lemma {:induction false} InsertByMonthStrict(sorted: seq<MonthSnapshot>, x: MonthSnapshot)
    requires StrictlySorted(sorted) && x.month !in Months(sorted)
    ensures StrictlySorted(InsertByMonth(sorted, x))
    decreases |sorted|
  {
    if sorted != [] {
      var t', last := sorted[..|sorted| - 1], sorted[|sorted| - 1];
      assert last.month == Months(sorted)[|sorted| - 1];
      if last.month > x.month {
        assert Months(t') == Months(sorted)[..|sorted| - 1];
        InsertByMonthStrict(t', x);
        InsertByMonthElements(t', x);
        var r' := InsertByMonth(t', x);
        var r := r' + [last];
        forall j, k | 0 <= j < k < |r| ensures r[j].month < r[k].month {
          if k == |r| - 1 {
            assert r[j] in r';
            if r[j] != x {
              var i :| 0 <= i < |t'| && t'[i] == r[j];
              assert sorted[i] == r[j];
            }
          }
        }
      }
    }
  }

  /** Registering a month already recorded replaces its snapshots in place. */
  lemma RegisterReplace(data: seq<MonthSnapshot>, snap: MonthSnapshot)
    requires snap.month in Months(data)
    ensures snap in Register(data, snap)
    ensures forall x :: x in Register(data, snap) && x.month == snap.month ==> x == snap
    ensures forall x: MonthSnapshot :: x.month != snap.month ==> (x in Register(data, snap) <==> x in data)
    ensures Months(Register(data, snap)) == Months(data)
    ensures StrictlySorted(data) ==> StrictlySorted(Register(data, snap))
  {
    var r := Register(data, snap);
    var k :| 0 <= k < |data| && Months(data)[k] == snap.month;
    assert r[k] == snap;
    forall x: MonthSnapshot | x.month != snap.month && x in data ensures x in r {
      var i :| 0 <= i < |data| && data[i] == x;
      assert r[i] == x;
    }
    assert Months(r) == Months(data);
  }

  /** Registering a new month adds its snapshot to the list, in calendar
      order. */
  lemma RegisterInsert(data: seq<MonthSnapshot>, snap: MonthSnapshot)
    requires snap.month !in Months(data)
    ensures snap in Register(data, snap)
    ensures forall x :: x in Register(data, snap) && x.month == snap.month ==> x == snap
    ensures forall x: MonthSnapshot :: x.month != snap.month ==> (x in Register(data, snap) <==> x in data)
    ensures |Register(data, snap)| == |data| + 1
    ensures StrictlySorted(data) ==> StrictlySorted(Register(data, snap))
  {
    var r := Register(data, snap);
    SortByMonthSorted(data + [snap]);
    assert |r| == |multiset(r)| == |multiset(data + [snap])| == |data| + 1;
    forall x | x in r ensures x in data || x == snap {
      assert x in multiset(data + [snap]);
    }
    forall x | x in data || x == snap ensures x in r {
      assert x in multiset(data + [snap]);
    }
    forall x | x in data ensures x.month != snap.month {
      var i :| 0 <= i < |data| && data[i] == x;
      assert Months(data)[i] == x.month;
    }
    if StrictlySorted(data) {
      SortByMonthOfSorted(data);
      assert (data + [snap])[..|data|] == data;
      InsertByMonthStrict(data, snap);
    }
  }

  /** After registering a snapshot there is exactly one snapshot for its
      month, that snapshot; every other month keeps its snapshots; a
      recorded month is replaced in place and a new one adds one entry; a
      list in calendar order with one snapshot per month stays so. */
  lemma RegisterProperties(data: seq<MonthSnapshot>, snap: MonthSnapshot)
    ensures snap in Register(data, snap)
    ensures forall x :: x in Register(data, snap) && x.month == snap.month ==> x == snap
    ensures forall x: MonthSnapshot :: x.month != snap.month ==> (x in Register(data, snap) <==> x in data)
    ensures snap.month in Months(data) ==> Months(Register(data, snap)) == Months(data)
    ensures snap.month !in Months(data) ==> |Register(data, snap)| == |data| + 1
    ensures StrictlySorted(data) ==> StrictlySorted(Register(data, snap))
  {
    if snap.month in Months(data) {
      RegisterReplace(data, snap);
    } else {
      RegisterInsert(data, snap);
    }
  }
}
