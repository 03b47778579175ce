/** Finite sets of ids in ascending order, as an ORDER BY clause lists them. */
module SortedSets {
  import opened Lists

  predicate Ascending(xs: seq<int>) {
    forall i, j :: 0 <= i < j < |xs| ==> xs[i] < xs[j]
  }

  predicate IsLeast(m: int, ids: set<int>) {
    m in ids && forall x :: x in ids ==> m <= x
  }

  /** A least element of the rest that lies below m is least. */
  lemma LeastOfRest(ids: set<int>, m: int, least: int)
    requires IsLeast(least, ids - {m}) && least <= m
    ensures IsLeast(least, ids)
  {
    forall x | x in ids
      ensures least <= x
    {
      if x != m {
        assert x in ids - {m};
      }
    }
  }

  lemma {:induction false} LeastBelow(ids: set<int>, m: int) returns (least: int)
    requires m in ids
    ensures IsLeast(least, ids) && least <= m
    decreases |ids|
  {
    least := m;
    if x :| x in ids && x < m {
      least := LeastBelow(ids - {m}, x);
      LeastOfRest(ids, m, least);
    }
  }

  lemma HasMember<T>(s: set<T>) returns (x: T)
    requires s != {}
    ensures x in s
  {
    x :| x in s;
  }

  lemma LeastExists(ids: set<int>)
    requires ids != {}
    ensures exists least :: IsLeast(least, ids)
  {
    var x := HasMember(ids);
    var least := LeastBelow(ids, x);
  }

  function Least(ids: set<int>): (m: int)
    requires ids != {}
    ensures IsLeast(m, ids)
  {
    LeastExists(ids);
    var m :| IsLeast(m, ids);
    m
  }

  function SortedIds(ids: set<int>): seq<int> {
    if ids == {} then [] else [Least(ids)] + SortedIds(ids - {Least(ids)})
  }

  function Above(ids: set<int>, bound: int): set<int> {
    set id | id in ids && id > bound
  }

  lemma AscendFrom(m: int, rest: seq<int>)
    requires Ascending(rest) && forall x :: x in Elems(rest) ==> m < x
    ensures Ascending([m] + rest)
  {
    forall i, j | 0 <= i < j < |[m] + rest|
      ensures ([m] + rest)[i] < ([m] + rest)[j]
    {
      assert rest[j - 1] in Elems(rest);
    }
  }

  lemma {:induction false} SortedIdsAscend(ids: set<int>)
    ensures Ascending(SortedIds(ids)) && Elems(SortedIds(ids)) == ids
  {
    if ids != {} {
      var m, rest := Least(ids), SortedIds(ids - {Least(ids)});
      SortedIdsAscend(ids - {m});
      AscendFrom(m, rest);
      ElemsAppend([m], rest);
      assert Elems([m]) == {m};
    }
  }

  lemma AboveWithoutLeast(ids: set<int>, id: int)
    requires ids != {} && id in ids - {Least(ids)}
    ensures Above(ids, id) == Above(ids - {Least(ids)}, id)
  {
  }

  /** The ids after the k-th are the sorted ids above it. */
  lemma {:induction false} SortedTail(ids: set<int>, k: nat)
    requires 0 < k <= |SortedIds(ids)|
    ensures SortedIds(ids)[k..] == SortedIds(Above(ids, SortedIds(ids)[k - 1]))
  {
    var m := Least(ids);
    var rest := SortedIds(ids - {m});
    assert SortedIds(ids)[k..] == rest[k - 1..];
    if k == 1 {
      assert Above(ids, m) == ids - {m};
    } else {
      SortedTail(ids - {m}, k - 1);
      AboveWithoutLeast(ids, rest[k - 2]) by {
        SortedIdsAscend(ids - {m});
        assert rest[k - 2] in Elems(rest);
      }
    }
  }

  lemma {:induction false} AscendingCount(xs: seq<int>)
    requires Ascending(xs)
    ensures |Elems(xs)| == |xs|
  {
    if xs != [] {
      var front, last := xs[..|xs| - 1], xs[|xs| - 1];
      AscendingCount(front);
      assert Elems(xs) == Elems(front) + {last} by {
        assert xs == front + [last];
      }
      assert last !in Elems(front);
    }
  }

  lemma SubsetCount<T>(s: set<T>, t: set<T>)
    requires s <= t
    ensures |s| <= |t|
  {
    assert t == s + (t - s);
  }
}
