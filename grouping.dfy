/** Grouping of entries by a key, as both aggregators do it with a plain
    object used as a dictionary: `ks[i]` is the key of entry `s[i]`, the
    groups come out in the order their keys were first inserted, and each
    group accumulates its members' values and ids in input order. */
module Grouping {
  import opened Entries

  /** The keys of `ks` without repetition, in order of first appearance:
      the insertion order of the accumulator's keys. */
  function Distinct<K(==, !new)>(ks: seq<K>): seq<K> {
    if ks == [] then []
    else
      var d' := Distinct(ks[..|ks| - 1]);
      if ks[|ks| - 1] in d' then d' else d' + [ks[|ks| - 1]]
  }

  /** The listed keys are exactly the keys that occur, each listed once. */
  lemma {:induction false} DistinctKeys<K(!new)>(ks: seq<K>)
    ensures forall k :: k in Distinct(ks) <==> k in ks
    ensures forall i, j :: 0 <= i < j < |Distinct(ks)| ==> Distinct(ks)[i] != Distinct(ks)[j]
    decreases |ks|
  {
    if ks != [] {
      DistinctKeys(ks[..|ks| - 1]);
      assert ks == ks[..|ks| - 1] + [ks[|ks| - 1]];
    }
  }

  lemma DistinctSnoc<K(!new)>(ks: seq<K>, k: K)
    ensures Distinct(ks + [k]) == if k in Distinct(ks) then Distinct(ks) else Distinct(ks) + [k]
  {
    assert (ks + [k])[..|ks|] == ks;
  }

  /** `a` occurs in `ks` at a position before every occurrence of `b`. */
  ghost predicate AppearsBefore<K(!new)>(ks: seq<K>, a: K, b: K) {
    exists p :: 0 <= p < |ks| && ks[p] == a && b !in ks[..p + 1]
  }

  /** Of two listed keys, the one listed first appears first in `ks`. */
  lemma {:induction false} DistinctFirstAppearance<K(!new)>(ks: seq<K>)
    ensures forall i, j :: 0 <= i < j < |Distinct(ks)| ==> AppearsBefore(ks, Distinct(ks)[i], Distinct(ks)[j])
    decreases |ks|
  {
    if ks != [] {
      var ks', k := ks[..|ks| - 1], ks[|ks| - 1];
      var d, d' := Distinct(ks), Distinct(ks');
      DistinctFirstAppearance(ks');
      DistinctKeys(ks');
      forall i, j | 0 <= i < j < |d|
        ensures AppearsBefore(ks, d[i], d[j])
      {
        if j < |d'| {
          assert d[i] == d'[i] && d[j] == d'[j];
          assert AppearsBefore(ks', d'[i], d'[j]);
          var p :| 0 <= p < |ks'| && ks'[p] == d'[i] && d'[j] !in ks'[..p + 1];
          assert ks[..p + 1] == ks'[..p + 1];
          assert 0 <= p < |ks| && ks[p] == d[i] && d[j] !in ks[..p + 1];
        } else {
          assert d[j] == k && k !in ks';
          assert d[i] == d'[i] && d[i] in ks';
          var p :| 0 <= p < |ks'| && ks'[p] == d[i];
          assert ks[..p + 1] == ks'[..p + 1];
          assert 0 <= p < |ks| && ks[p] == d[i] && d[j] !in ks[..p + 1];
        }
      }
    } else {
      assert Distinct(ks) == [];
    }
  }

  /** The entries of `s` whose key is `k`, in input order. */
  function Members<K(==, !new)>(s: seq<Investment>, ks: seq<K>, k: K): (m: seq<Investment>)
    requires |ks| == |s|
    ensures |m| <= |s|
  {
    if s == [] then []
    else
      var m' := Members(s[..|s| - 1], ks[..|ks| - 1], k);
      if ks[|ks| - 1] == k then m' + [s[|s| - 1]] else m'
  }

  /** The value a group accumulates: the sum of its members. */
  function GroupSum<K(==, !new)>(s: seq<Investment>, ks: seq<K>, k: K): real
    requires |ks| == |s|
  {
    Total(Members(s, ks, k))
  }

  /** The ids a group collects, in input order. */
  function GroupIds<K(==, !new)>(s: seq<Investment>, ks: seq<K>, k: K): seq<int>
    requires |ks| == |s|
  {
    Ids(Members(s, ks, k))
  }

  /** Accumulating one more entry: only the group of its key grows, by the
      entry's value and at the end of its id list. */
  lemma MembersSnoc<K(!new)>(s: seq<Investment>, ks: seq<K>, x: Investment, kx: K)
    requires |ks| == |s|
    ensures forall k :: Members(s + [x], ks + [kx], k) == Members(s, ks, k) + (if kx == k then [x] else [])
    ensures forall k :: GroupSum(s + [x], ks + [kx], k) == GroupSum(s, ks, k) + (if kx == k then x.value else 0.0)
    ensures forall k :: GroupIds(s + [x], ks + [kx], k) == GroupIds(s, ks, k) + (if kx == k then [x.id] else [])
  {
    assert (s + [x])[..|s|] == s;
    assert (ks + [kx])[..|ks|] == ks;
    forall k ensures GroupSum(s + [x], ks + [kx], k) == GroupSum(s, ks, k) + (if kx == k then x.value else 0.0) {
      if kx == k {
        TotalSnoc(Members(s, ks, k), x);
      }
    }
  }

  /** A key that no entry has makes an empty group. */
  lemma {:induction false} MembersAbsent<K(!new)>(s: seq<Investment>, ks: seq<K>, k: K)
    requires |ks| == |s| && k !in ks
    ensures Members(s, ks, k) == []
    decreases |s|
  {
    if s != [] {
      assert ks[..|ks| - 1] + [ks[|ks| - 1]] == ks;
      MembersAbsent(s[..|s| - 1], ks[..|ks| - 1], k);
    }
  }

  /** A group holds exactly the entries carrying its key. */
  lemma {:induction false} MembersExact<K(!new)>(s: seq<Investment>, ks: seq<K>, k: K)
    requires |ks| == |s|
    ensures forall x :: x in Members(s, ks, k) <==> exists i :: 0 <= i < |s| && s[i] == x && ks[i] == k
    decreases |s|
  {
    if s != [] {
      var n := |s| - 1;
      MembersExact(s[..n], ks[..n], k);
      forall x | x in Members(s, ks, k)
        ensures exists i :: 0 <= i < |s| && s[i] == x && ks[i] == k
      {
        if x in Members(s[..n], ks[..n], k) {
          var i :| 0 <= i < n && s[..n][i] == x && ks[..n][i] == k;
          assert s[i] == x && ks[i] == k;
        } else {
          assert s[n] == x && ks[n] == k;
        }
      }
      forall x | exists i :: 0 <= i < |s| && s[i] == x && ks[i] == k
        ensures x in Members(s, ks, k)
      {
        var i :| 0 <= i < |s| && s[i] == x && ks[i] == k;
        if i < n {
          assert s[..n][i] == x && ks[..n][i] == k;
        }
      }
    }
  }

  /** The positions of a group's members. */
  function MemberPositions<K(==, !new)>(s: seq<Investment>, ks: seq<K>, k: K): seq<int>
    requires |ks| == |s|
  {
    if s == [] then []
    else
      var p' := MemberPositions(s[..|s| - 1], ks[..|ks| - 1], k);
      if ks[|ks| - 1] == k then p' + [|s| - 1] else p'
  }

  /** A group lists its members in the order they have in the input. */
  lemma {:induction false} MembersInOrder<K(!new)>(s: seq<Investment>, ks: seq<K>, k: K)
    requires |ks| == |s|
    ensures PicksOut(MemberPositions(s, ks, k), Members(s, ks, k), s)
    decreases |s|
  {
    if s != [] {
      var n := |s| - 1;
      var p', m' := MemberPositions(s[..n], ks[..n], k), Members(s[..n], ks[..n], k);
      assert s[..n] + [s[n]] == s;
      MembersInOrder(s[..n], ks[..n], k);
      PicksOutSnoc(p', m', s[..n], s[n], ks[n] == k);
      assert MemberPositions(s, ks, k) == if ks[n] == k then p' + [n] else p';
      assert Members(s, ks, k) == if ks[n] == k then m' + [s[n]] else m';
    }
  }

  /** With unique ids, an entry's id is collected by the group of its own
      key and by no other group. */
  lemma IdInOwnGroupOnly<K(!new)>(s: seq<Investment>, ks: seq<K>, i: int, k: K)
    requires |ks| == |s| && UniqueIds(s) && 0 <= i < |s|
    ensures s[i].id in GroupIds(s, ks, k) <==> ks[i] == k
  {
    var m := Members(s, ks, k);
    MembersExact(s, ks, k);
    if ks[i] == k {
      assert s[i] in m;
      var j :| 0 <= j < |m| && m[j] == s[i];
      assert Ids(m)[j] == s[i].id;
    }
    if s[i].id in GroupIds(s, ks, k) {
      var j :| 0 <= j < |m| && Ids(m)[j] == s[i].id;
      assert m[j] in m;
      var p :| 0 <= p < |s| && s[p] == m[j] && ks[p] == k;
      assert p == i;
    }
  }

  /** Every collected id belongs to an entry of that group. */
  lemma GroupIdsFromMembers<K(!new)>(s: seq<Investment>, ks: seq<K>, k: K, id: int)
    requires |ks| == |s| && id in GroupIds(s, ks, k)
    ensures exists i :: 0 <= i < |s| && s[i].id == id && ks[i] == k
  {
    var m := Members(s, ks, k);
    MembersExact(s, ks, k);
    var j :| 0 <= j < |m| && Ids(m)[j] == id;
    assert m[j] in m;
  }

  /** The values of the groups named in `keys`, added up. */
  function SumGroups<K(==, !new)>(s: seq<Investment>, ks: seq<K>, keys: seq<K>): real
    requires |ks| == |s|
  {
    if keys == [] then 0.0 else SumGroups(s, ks, keys[..|keys| - 1]) + GroupSum(s, ks, keys[|keys| - 1])
  }

  lemma {:induction false} SumGroupsSnoc<K(!new)>(s: seq<Investment>, ks: seq<K>, x: Investment, kx: K, keys: seq<K>)
    requires |ks| == |s|
    requires forall i, j :: 0 <= i < j < |keys| ==> keys[i] != keys[j]
    ensures SumGroups(s + [x], ks + [kx], keys) == SumGroups(s, ks, keys) + (if kx in keys then x.value else 0.0)
    decreases |keys|
  {
    MembersSnoc(s, ks, x, kx);
    if keys != [] {
      var keys' := keys[..|keys| - 1];
      SumGroupsSnoc(s, ks, x, kx, keys');
      assert kx in keys <==> kx in keys' || kx == keys[|keys| - 1] by {
        assert keys == keys' + [keys[|keys| - 1]];
      }
    }
  }

  /** The groups of all distinct keys share out the whole total: no entry
      is counted twice and none is lost. */
  lemma {:induction false} SumGroupsDistinct<K(!new)>(s: seq<Investment>, ks: seq<K>)
    requires |ks| == |s|
    ensures SumGroups(s, ks, Distinct(ks)) == Total(s)
    decreases |s|
  {
    if s != [] {
      var n := |s| - 1;
      var s', ks', x, kx := s[..n], ks[..n], s[n], ks[n];
      assert s == s' + [x] && ks == ks' + [kx];
      var d' := Distinct(ks');
      DistinctKeys(ks');
      SumGroupsDistinct(s', ks');
      DistinctSnoc(ks', kx);
      SumGroupsSnoc(s', ks', x, kx, d');
      TotalSnoc(s', x);
      if kx !in d' {
        var d := d' + [kx];
        assert d[..|d| - 1] == d';
        MembersSnoc(s', ks', x, kx);
        MembersAbsent(s', ks', kx);
      }
    }
  }
}
