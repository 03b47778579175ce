/** Order-preserving list operations of github.com/samber/lo, as used by the controllers. */
module Lists {

  function Elems<T>(xs: seq<T>): set<T> {
    set x | x in xs
  }

  /** lo.Uniq: the first occurrence of each element. */
  function Uniq<T(==)>(xs: seq<T>): seq<T> {
    if xs == [] then []
    else
      var u := Uniq(xs[..|xs| - 1]);
      if xs[|xs| - 1] in u then u else u + [xs[|xs| - 1]]
  }

  /** lo.Filter. */
  function Filter<T>(xs: seq<T>, keep: T -> bool): seq<T> {
    if xs == [] then []
    else Filter(xs[..|xs| - 1], keep) + if keep(xs[|xs| - 1]) then [xs[|xs| - 1]] else []
  }

  /** lo.FilterMap with a closure that maps by f and keeps by a test of the result. */
  function FilterMap<T, U>(xs: seq<T>, f: T -> U, keep: U -> bool): seq<U> {
    if xs == [] then []
    else FilterMap(xs[..|xs| - 1], f, keep) + if keep(f(xs[|xs| - 1])) then [f(xs[|xs| - 1])] else []
  }

  function Without<T(==)>(xs: seq<T>, s: set<T>): seq<T> {
    Filter(xs, x => x !in s)
  }

  function Within<T(==)>(xs: seq<T>, s: set<T>): seq<T> {
    Filter(xs, x => x in s)
  }

  predicate Distinct<T(==)>(xs: seq<T>) {
    forall i, j :: 0 <= i < j < |xs| ==> xs[i] != xs[j]
  }

  /** xs can be read off ys from left to right. */
  predicate Subsequence<T(==)>(xs: seq<T>, ys: seq<T>) {
    if xs == [] then true
    else if ys == [] then false
    else if xs[|xs| - 1] == ys[|ys| - 1] then Subsequence(xs[..|xs| - 1], ys[..|ys| - 1])
    else Subsequence(xs, ys[..|ys| - 1])
  }

  predicate AnyIn<T(==)>(xs: seq<T>, p: T -> bool) {
    exists x :: x in xs && p(x)
  }

  lemma AnyInFirst<T>(xs: seq<T>, p: T -> bool)
    requires xs != []
    ensures AnyIn(xs, p) <==> p(xs[0]) || AnyIn(xs[1..], p)
  {
    assert forall x :: x in xs <==> x == xs[0] || x in xs[1..];
  }

  lemma {:induction false} UniqElems<T>(xs: seq<T>)
    ensures Distinct(Uniq(xs))
    ensures forall x :: x in Uniq(xs) <==> x in xs
    ensures Distinct(xs) ==> Uniq(xs) == xs
  {
    if xs != [] {
      UniqElems(xs[..|xs| - 1]);
      assert xs == xs[..|xs| - 1] + [xs[|xs| - 1]];
    }
  }

  lemma {:induction false} FilterElems<T>(xs: seq<T>, keep: T -> bool)
    ensures forall x :: x in Filter(xs, keep) <==> x in xs && keep(x)
    ensures Distinct(xs) ==> Distinct(Filter(xs, keep))
  {
    if xs != [] {
      FilterElems(xs[..|xs| - 1], keep);
      assert xs == xs[..|xs| - 1] + [xs[|xs| - 1]];
    }
  }

  lemma {:induction false} FilterAll<T>(xs: seq<T>, keep: T -> bool)
    requires forall x :: x in xs ==> keep(x)
    ensures Filter(xs, keep) == xs
  {
    if xs != [] {
      assert xs == xs[..|xs| - 1] + [xs[|xs| - 1]];
      FilterAll(xs[..|xs| - 1], keep);
    }
  }

  /** The values that FilterMap lists. */
  function Image<T(==), U>(xs: seq<T>, f: T -> U, keep: U -> bool): set<U> {
    set x | x in xs && keep(f(x)) :: f(x)
  }

  lemma {:induction false} FilterMapElems<T, U>(xs: seq<T>, f: T -> U, keep: U -> bool)
    ensures Elems(FilterMap(xs, f, keep)) == Image(xs, f, keep)
  {
    if xs != [] {
      var front, last := xs[..|xs| - 1], xs[|xs| - 1];
      FilterMapElems(front, f, keep);
      assert forall x :: x in xs <==> x in front || x == last;
      assert Image(xs, f, keep) == Image(front, f, keep) + if keep(f(last)) then {f(last)} else {};
      ElemsAppend(FilterMap(front, f, keep), if keep(f(last)) then [f(last)] else []);
    }
  }

  lemma {:induction false} FilterMapFixed<T>(xs: seq<T>, f: T -> T, keep: T -> bool)
    requires forall x :: x in xs ==> f(x) == x && keep(x)
    ensures FilterMap(xs, f, keep) == xs
  {
    if xs != [] {
      FilterMapFixed(xs[..|xs| - 1], f, keep);
      assert xs == xs[..|xs| - 1] + [xs[|xs| - 1]];
    }
  }

  lemma FilterMapSnoc<T, U>(xs: seq<T>, x: T, f: T -> U, keep: U -> bool)
    ensures FilterMap(xs + [x], f, keep) == FilterMap(xs, f, keep) + if keep(f(x)) then [f(x)] else []
  {
    assert (xs + [x])[..|xs|] == xs;
  }

  lemma {:induction false} FilterMapAppend<T, U>(xs: seq<T>, ys: seq<T>, f: T -> U, keep: U -> bool)
    ensures FilterMap(xs + ys, f, keep) == FilterMap(xs, f, keep) + FilterMap(ys, f, keep)
  {
    if ys == [] {
      assert xs + ys == xs;
    } else {
      FilterMapAppend(xs, ys[..|ys| - 1], f, keep);
      assert (xs + ys)[..|xs + ys| - 1] == xs + ys[..|ys| - 1];
    }
  }

  /** A filter keeps the order of what it keeps. */
  lemma {:induction false} FilterSubsequence<T>(xs: seq<T>, keep: T -> bool)
    requires Distinct(xs)
    ensures Subsequence(Filter(xs, keep), xs)
  {
    if xs != [] {
      var ys, last := xs[..|xs| - 1], xs[|xs| - 1];
      var f := Filter(ys, keep);
      FilterSubsequence(ys, keep);
      FilterElems(ys, keep);
      if keep(last) {
        assert (f + [last])[..|f|] == f;
      } else {
        assert f + [] == f;
        assert f != [] ==> f[|f| - 1] in f;
        assert forall y :: y in ys ==> y != last;
      }
    }
  }

  lemma {:induction false} FilterCongruent<T>(xs: seq<T>, p: T -> bool, q: T -> bool)
    requires forall x :: x in xs ==> p(x) == q(x)
    ensures Filter(xs, p) == Filter(xs, q)
  {
    if xs != [] {
      FilterCongruent(xs[..|xs| - 1], p, q);
    }
  }

  lemma {:induction false} FilterAppend<T>(xs: seq<T>, ys: seq<T>, keep: T -> bool)
    ensures Filter(xs + ys, keep) == Filter(xs, keep) + Filter(ys, keep)
  {
    if ys == [] {
      assert xs + ys == xs;
    } else {
      FilterAppend(xs, ys[..|ys| - 1], keep);
      assert (xs + ys)[..|xs + ys| - 1] == xs + ys[..|ys| - 1];
    }
  }

  /** Filtering twice is filtering by any predicate that agrees with the conjunction on the list. */
  lemma {:induction false} FilterFilter<T>(xs: seq<T>, p: T -> bool, q: T -> bool, r: T -> bool)
    requires forall x :: x in xs ==> r(x) == (p(x) && q(x))
    ensures Filter(Filter(xs, p), q) == Filter(xs, r)
  {
    if xs != [] {
      var ys, last := xs[..|xs| - 1], xs[|xs| - 1];
      FilterFilter(ys, p, q, r);
      FilterAppend(Filter(ys, p), if p(last) then [last] else [], q);
    }
  }

  lemma UniqSnoc<T>(xs: seq<T>, x: T)
    ensures Uniq(xs + [x]) == if x in xs then Uniq(xs) else Uniq(xs) + [x]
  {
    assert (xs + [x])[..|xs|] == xs;
    UniqElems(xs);
  }

  /** lo.Uniq of a concatenation: what the first list has, then what only the second has. */
  lemma {:induction false} UniqAppend<T>(xs: seq<T>, ys: seq<T>)
    ensures Uniq(xs + ys) == Uniq(xs) + Without(Uniq(ys), Elems(xs))
  {
    if ys == [] {
      assert xs + ys == xs;
    } else {
      var zs, y := ys[..|ys| - 1], ys[|ys| - 1];
      UniqAppend(xs, zs);
      assert xs + ys == (xs + zs) + [y];
      assert ys == zs + [y];
      assert y in xs + zs <==> y in xs || y in zs;
      UniqSnoc(xs + zs, y);
      UniqSnoc(zs, y);
      WithoutSnoc(Uniq(zs), y, Elems(xs));
      AppendSnoc(Uniq(xs), Without(Uniq(zs), Elems(xs)), y);
    }
  }

  lemma AppendAssociative<T>(xs: seq<T>, ys: seq<T>, zs: seq<T>)
    ensures xs + ys + zs == xs + (ys + zs)
  {
  }

  lemma AppendSnoc<T>(xs: seq<T>, ys: seq<T>, y: T)
    ensures xs + ys + [y] == xs + (ys + [y])
    ensures ys + [] == ys
  {
  }

  lemma WithoutSnoc<T>(xs: seq<T>, x: T, s: set<T>)
    ensures Without(xs + [x], s) == Without(xs, s) + if x in s then [] else [x]
  {
    assert (xs + [x])[..|xs|] == xs;
  }

  /** One step of a loop that appends what a set does not hold. */
  lemma WithoutNext<T>(base: seq<T>, xs: seq<T>, i: nat, s: set<T>)
    requires i < |xs| && Distinct(xs)
    ensures base + Without(xs[..i + 1], s) == base + Without(xs[..i], s) + if xs[i] in s then [] else [xs[i]]
    ensures Elems(xs[..i + 1]) == Elems(xs[..i]) + {xs[i]}
    ensures xs[i] !in Elems(xs[..i])
  {
    assert xs[..i + 1] == xs[..i] + [xs[i]];
    WithoutSnoc(xs[..i], xs[i], s);
    AppendSnoc(base, Without(xs[..i], s), xs[i]);
    ElemsAppend(xs[..i], [xs[i]]);
  }

  lemma DistinctAppend<T>(xs: seq<T>, ys: seq<T>)
    requires Distinct(xs) && Distinct(ys) && Elems(xs) !! Elems(ys)
    ensures Distinct(xs + ys)
  {
    forall i, j | 0 <= i < j < |xs + ys|
      ensures (xs + ys)[i] != (xs + ys)[j]
    {
      if i < |xs| <= j {
        assert xs[i] in Elems(xs) && ys[j - |xs|] in Elems(ys);
      }
    }
  }

  lemma ElemsAppend<T>(xs: seq<T>, ys: seq<T>)
    ensures Elems(xs + ys) == Elems(xs) + Elems(ys)
  {
    assert forall x :: x in xs + ys <==> x in xs || x in ys;
  }

  lemma WithoutNone<T>(xs: seq<T>, s: set<T>)
    requires Elems(xs) !! s
    ensures Without(xs, s) == xs
  {
    assert forall x :: x in xs ==> x in Elems(xs);
    FilterAll(xs, x => x !in s);
  }

  lemma WithoutAppend<T>(xs: seq<T>, ys: seq<T>, s: set<T>)
    ensures Without(xs + ys, s) == Without(xs, s) + Without(ys, s)
  {
    FilterAppend(xs, ys, x => x !in s);
  }

  lemma NoElems<T>(xs: seq<T>)
    ensures xs == [] <==> Elems(xs) == {}
  {
    if xs != [] {
      assert xs[0] in Elems(xs);
    }
  }

  lemma {:induction false} DistinctCount<T>(xs: seq<T>)
    requires Distinct(xs)
    ensures |Elems(xs)| == |xs|
  {
    if xs != [] {
      var front, last := xs[..|xs| - 1], xs[|xs| - 1];
      DistinctCount(front);
      assert forall i :: 0 <= i < |front| ==> front[i] != last;
      assert Elems(xs) == Elems(front) + {last};
    }
  }
}
