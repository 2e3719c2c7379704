/** Investment entries and the pure list transformations the entry store
    is built from: the running total (`reduce`), the id filters used by
    removal and rescaling (`filter`) and the proportional rescaling (`map`). */
module Entries {

  /** One recorded position. `color` is the category colour stored with the
      entry when it is created. */
  datatype Investment = Investment(id: int, category: string, name: string, value: real, color: string)

  /** `investments.reduce((sum, inv) => sum + inv.value, 0)`, a left fold. */
  function Total(s: seq<Investment>): real {
    if s == [] then 0.0 else Total(s[..|s| - 1]) + s[|s| - 1].value
  }

  /** The ids of `s`, in order. */
  function Ids(s: seq<Investment>): seq<int> {
    seq(|s|, i requires 0 <= i < |s| => s[i].id)
  }

  predicate UniqueIds(s: seq<Investment>) {
    forall i, j :: 0 <= i < j < |s| ==> s[i].id != s[j].id
  }

  predicate HasId(s: seq<Investment>, id: int) {
    exists i :: 0 <= i < |s| && s[i].id == id
  }

  /** The positions `idx` pick `r` out of `s`: `r[k]` is `s[idx[k]]` and
      the positions increase, so `r` is a sub-list of `s` in its order. */
  predicate PicksOut(idx: seq<int>, r: seq<Investment>, s: seq<Investment>) {
    && |idx| == |r|
    && (forall k :: 0 <= k < |idx| ==> 0 <= idx[k] < |s| && s[idx[k]] == r[k])
    && (forall k1, k2 :: 0 <= k1 < k2 < |idx| ==> idx[k1] < idx[k2])
  }

  /** `r` lists entries of `s`, in the order they have in `s`. */
  ghost predicate InOrder(r: seq<Investment>, s: seq<Investment>) {
    exists idx :: PicksOut(idx, r, s)
  }

  /** Picking one more entry from a longer list, after all earlier picks. */
  lemma PicksOutSnoc(idx: seq<int>, r: seq<Investment>, s: seq<Investment>, x: Investment, keep: bool)
    requires PicksOut(idx, r, s)
    ensures PicksOut(if keep then idx + [|s|] else idx, if keep then r + [x] else r, s + [x])
  {
  }

  lemma TotalSnoc(s: seq<Investment>, x: Investment)
    ensures Total(s + [x]) == Total(s) + x.value
  {
    assert (s + [x])[..|s|] == s;
  }

  /** Appending lists adds their totals. */
  lemma {:induction false} TotalAppend(s: seq<Investment>, t: seq<Investment>)
    ensures Total(s + t) == Total(s) + Total(t)
    decreases |t|
  {
    if t != [] {
      var t', x := t[..|t| - 1], t[|t| - 1];
      assert s + t == (s + t') + [x];
      TotalSnoc(s + t', x);
      TotalAppend(s, t');
      assert t == t' + [x];
      TotalSnoc(t', x);
    } else {
      assert s + t == s;
    }
  }

  /** The entries of `s` whose id is listed in `ids` (when `listed`) or is
      not listed (when `!listed`), in their order: `prev.filter(inv =>
      individualIds.includes(inv.id))` and its negation. */
  function FilterIds(s: seq<Investment>, ids: seq<int>, listed: bool): (r: seq<Investment>)
    ensures |r| <= |s|
  {
    if s == [] then []
    else
      var r' := FilterIds(s[..|s| - 1], ids, listed);
      if (s[|s| - 1].id in ids) == listed then r' + [s[|s| - 1]] else r'
  }

  /** The group a list of ids designates. */
  function SelectIds(s: seq<Investment>, ids: seq<int>): seq<Investment> {
    FilterIds(s, ids, true)
  }

  /** What is left after removing the entries whose id is listed. */
  function RemoveIds(s: seq<Investment>, ids: seq<int>): seq<Investment> {
    FilterIds(s, ids, false)
  }

  /** Exactly the entries on the chosen side of `ids` are kept. */
  lemma {:induction false} FilterIdsMembers(s: seq<Investment>, ids: seq<int>, listed: bool)
    ensures forall x :: x in FilterIds(s, ids, listed) <==> x in s && (x.id in ids) == listed
    decreases |s|
  {
    if s != [] {
      FilterIdsMembers(s[..|s| - 1], ids, listed);
      assert s == s[..|s| - 1] + [s[|s| - 1]];
    }
  }

  /** The positions of the entries `FilterIds` keeps. */
  function FilterPositions(s: seq<Investment>, ids: seq<int>, listed: bool): seq<int> {
    if s == [] then []
    else
      var p' := FilterPositions(s[..|s| - 1], ids, listed);
      if (s[|s| - 1].id in ids) == listed then p' + [|s| - 1] else p'
  }

  /** Filtering keeps the relative order of the entries it keeps. */
  lemma {:induction false} FilterIdsInOrder(s: seq<Investment>, ids: seq<int>, listed: bool)
    ensures PicksOut(FilterPositions(s, ids, listed), FilterIds(s, ids, listed), s)
    decreases |s|
  {
    if s != [] {
      var s', x := s[..|s| - 1], s[|s| - 1];
      var keep := (x.id in ids) == listed;
      var p', r' := FilterPositions(s', ids, listed), FilterIds(s', ids, listed);
      assert s' + [x] == s;
      FilterIdsInOrder(s', ids, listed);
      PicksOutSnoc(p', r', s', x, keep);
      assert FilterPositions(s, ids, listed) == if keep then p' + [|s'|] else p';
      assert FilterIds(s, ids, listed) == if keep then r' + [x] else r';
    }
  }

  /** When every entry is on the chosen side, filtering changes nothing. */
  lemma {:induction false} FilterIdsAll(s: seq<Investment>, ids: seq<int>, listed: bool)
    requires forall i :: 0 <= i < |s| ==> (s[i].id in ids) == listed
    ensures FilterIds(s, ids, listed) == s
    decreases |s|
  {
    if s != [] {
      FilterIdsAll(s[..|s| - 1], ids, listed);
      assert s == s[..|s| - 1] + [s[|s| - 1]];
    }
  }

  /** The total splits between the group and the rest. */
  lemma {:induction false} SelectRemoveTotal(s: seq<Investment>, ids: seq<int>)
    ensures Total(SelectIds(s, ids)) + Total(RemoveIds(s, ids)) == Total(s)
    decreases |s|
  {
    if s != [] {
      var s', x := s[..|s| - 1], s[|s| - 1];
      SelectRemoveTotal(s', ids);
      TotalSnoc(SelectIds(s', ids), x);
      TotalSnoc(RemoveIds(s', ids), x);
    }
  }

  /** A sub-list in order of a list with unique ids has unique ids. */
  lemma InOrderKeepsUniqueIds(r: seq<Investment>, s: seq<Investment>)
    requires InOrder(r, s) && UniqueIds(s)
    ensures UniqueIds(r)
  {
    var idx :| PicksOut(idx, r, s);
    forall i, j | 0 <= i < j < |r| ensures r[i].id != r[j].id {
      assert s[idx[i]] == r[i] && s[idx[j]] == r[j] && idx[i] < idx[j];
    }
  }

  /** Removal keeps exactly the entries whose id is not listed, in their
      order, keeps ids unique, takes exactly the group's values off the
      total, and is a no-op when none of the ids is present. */
  lemma RemoveIdsProperties(s: seq<Investment>, ids: seq<int>)
    ensures forall x :: x in RemoveIds(s, ids) <==> x in s && x.id !in ids
    ensures InOrder(RemoveIds(s, ids), s)
    ensures UniqueIds(s) ==> UniqueIds(RemoveIds(s, ids))
    ensures Total(RemoveIds(s, ids)) == Total(s) - Total(SelectIds(s, ids))
    ensures (forall i :: 0 <= i < |s| ==> s[i].id !in ids) ==> RemoveIds(s, ids) == s
  {
    FilterIdsMembers(s, ids, false);
    FilterIdsInOrder(s, ids, false);
    assert PicksOut(FilterPositions(s, ids, false), RemoveIds(s, ids), s);
    if UniqueIds(s) {
      InOrderKeepsUniqueIds(RemoveIds(s, ids), s);
    }
    SelectRemoveTotal(s, ids);
    if forall i :: 0 <= i < |s| ==> s[i].id !in ids {
      FilterIdsAll(s, ids, false);
    }
  }

  /** `prev.map(...)` of the rescale: every entry whose id is listed has its
      value multiplied by `factor`. */
  function Scale(s: seq<Investment>, ids: seq<int>, factor: real): (r: seq<Investment>)
    ensures |r| == |s|
  {
    seq(|s|, i requires 0 <= i < |s| => if s[i].id in ids then s[i].(value := s[i].value * factor) else s[i])
  }

  /** Rescaling changes no id, category, name or colour, and leaves every
      entry outside the group as it was. */
  lemma ScaleKeepsFields(s: seq<Investment>, ids: seq<int>, factor: real)
    ensures forall i :: 0 <= i < |s| ==> Scale(s, ids, factor)[i].(value := s[i].value) == s[i]
    ensures forall i :: 0 <= i < |s| && s[i].id !in ids ==> Scale(s, ids, factor)[i] == s[i]
  {
  }

  lemma ScalePrefix(s: seq<Investment>, ids: seq<int>, factor: real)
    requires s != []
    ensures Scale(s, ids, factor)[..|s| - 1] == Scale(s[..|s| - 1], ids, factor)
  {
    var t, t' := Scale(s, ids, factor), Scale(s[..|s| - 1], ids, factor);
    forall k | 0 <= k < |s| - 1 ensures t[k] == t'[k] {}
  }

  lemma ScaleSnoc(s: seq<Investment>, ids: seq<int>, factor: real, listed: bool)
    requires s != []
    ensures FilterIds(Scale(s, ids, factor), ids, listed)
         == FilterIds(Scale(s[..|s| - 1], ids, factor), ids, listed)
          + (if (s[|s| - 1].id in ids) == listed then [Scale(s, ids, factor)[|s| - 1]] else [])
  {
    ScalePrefix(s, ids, factor);
  }

  /** Rescaling leaves the entries outside the group exactly as they were. */
  lemma {:induction false} ScaleKeepsOthers(s: seq<Investment>, ids: seq<int>, factor: real)
    ensures RemoveIds(Scale(s, ids, factor), ids) == RemoveIds(s, ids)
    decreases |s|
  {
    if s != [] {
      ScaleKeepsOthers(s[..|s| - 1], ids, factor);
      ScaleSnoc(s, ids, factor, false);
    }
  }

  /** The total of `s` with every value multiplied by `factor`, summed entry
      by entry as the rescaled list sums it. */
  function ScaledTotal(s: seq<Investment>, factor: real): real {
    if s == [] then 0.0 else ScaledTotal(s[..|s| - 1], factor) + s[|s| - 1].value * factor
  }

  lemma ScaledTotalSnoc(s: seq<Investment>, x: Investment, factor: real)
    ensures ScaledTotal(s + [x], factor) == ScaledTotal(s, factor) + x.value * factor
  {
    assert (s + [x])[..|s|] == s;
  }

  /** Multiplying entry by entry is multiplying the total. */
  lemma {:induction false} ScaledTotalIsProduct(s: seq<Investment>, factor: real)
    ensures ScaledTotal(s, factor) == factor * Total(s)
    decreases |s|
  {
    if s != [] {
      ScaledTotalIsProduct(s[..|s| - 1], factor);
      Distributes(factor, Total(s[..|s| - 1]), s[|s| - 1].value);
    }
  }

  lemma Distributes(f: real, a: real, b: real)
    ensures f * (a + b) == f * a + b * f
  {
  }

  /** The rescaled group sums to the entry-by-entry scaled total of the
      group before. */
  lemma {:induction false} ScaleSelectTotal(s: seq<Investment>, ids: seq<int>, factor: real)
    ensures Total(SelectIds(Scale(s, ids, factor), ids)) == ScaledTotal(SelectIds(s, ids), factor)
    decreases |s|
  {
    if s != [] {
      var s', x := s[..|s| - 1], s[|s| - 1];
      var a, b := SelectIds(Scale(s', ids, factor), ids), SelectIds(s', ids);
      ScaleSelectTotal(s', ids, factor);
      ScaleSnoc(s, ids, factor, true);
      if x.id in ids {
        var y := Scale(s, ids, factor)[|s| - 1];
        assert y.value == x.value * factor;
        assert SelectIds(Scale(s, ids, factor), ids) == a + [y];
        assert SelectIds(s, ids) == b + [x];
        TotalSnoc(a, y);
        ScaledTotalSnoc(b, x, factor);
      } else {
        assert SelectIds(Scale(s, ids, factor), ids) == a;
        assert SelectIds(s, ids) == b;
      }
    }
  }

  /** Rescaling multiplies the group's total by `factor`. */
  lemma ScaleGroupTotal(s: seq<Investment>, ids: seq<int>, factor: real)
    ensures Total(SelectIds(Scale(s, ids, factor), ids)) == factor * Total(SelectIds(s, ids))
  {
    ScaleSelectTotal(s, ids, factor);
    ScaledTotalIsProduct(SelectIds(s, ids), factor);
  }

  lemma DivTimes(t: real, g: real)
    requires g != 0.0
    ensures (t / g) * g == t
  {
  }

  /** The proportional rescale of a group whose total is not zero makes the
      group sum to the requested total, whatever its sign. */
  lemma ScaleHitsTarget(s: seq<Investment>, ids: seq<int>, target: real)
    requires Total(SelectIds(s, ids)) != 0.0
    ensures Total(SelectIds(Scale(s, ids, target / Total(SelectIds(s, ids))), ids)) == target
  {
    var g := Total(SelectIds(s, ids));
    ScaleGroupTotal(s, ids, target / g);
    DivTimes(target, g);
  }

  /** Rescaling changes the overall total by exactly the change of the
      group's total. */
  lemma ScaleTotal(s: seq<Investment>, ids: seq<int>, factor: real)
    ensures Total(Scale(s, ids, factor)) - Total(SelectIds(Scale(s, ids, factor), ids))
         == Total(s) - Total(SelectIds(s, ids))
  {
    SelectRemoveTotal(s, ids);
    SelectRemoveTotal(Scale(s, ids, factor), ids);
    ScaleKeepsOthers(s, ids, factor);
  }
}
