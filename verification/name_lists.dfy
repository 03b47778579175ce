/** The duplicate-free list algebra over model names of
    controller/channel_upstream_update.go (lines 97-147). */
module NameLists {
  import opened Text
  import opened Lists

  type Names = seq<string>

  predicate NonBlankName(x: string) {
    x != ""
  }

  /** The trimmed names, without the blank ones. */
  function TrimNonEmpty(xs: Names): Names {
    FilterMap(xs, TrimSpace, NonBlankName)
  }

  function Normalize(models: Names): Names {
    Uniq(TrimNonEmpty(models))
  }

  function Subtract(base: Names, removed: Names): Names {
    Without(Normalize(base), Elems(Normalize(removed)))
  }

  function Intersect(base: Names, allowed: Names): Names {
    Within(Normalize(base), Elems(Normalize(allowed)))
  }

  function Merge(base: Names, appended: Names): Names {
    Normalize(base) + Without(Normalize(appended), Elems(Normalize(base)))
  }

  function ApplySelected(origin: Names, add: Names, remove: Names): Names {
    var normalizedAdd := Normalize(add);
    var normalizedRemove := Subtract(Normalize(remove), normalizedAdd);
    Subtract(Merge(origin, normalizedAdd), normalizedRemove)
  }

  /** The loop of mergeModelNames, which marks each appended name as seen. */
  method MergeModelNames(base: Names, appended: Names) returns (merged: Names)
    ensures merged == Merge(base, appended)
  {
    merged := Normalize(base);
    ghost var known := Elems(merged);
    var seen := set x | x in merged;
    var tail := Normalize(appended);
    UniqElems(TrimNonEmpty(appended));
    for i := 0 to |tail|
      invariant seen == known + Elems(tail[..i])
      invariant merged == Normalize(base) + Without(tail[..i], known)
    {
      WithoutNext(Normalize(base), tail, i, known);
      if tail[i] in seen {
        continue;
      }
      seen := seen + {tail[i]};
      merged := merged + [tail[i]];
    }
    assert tail[..|tail|] == tail;
  }

  /** A name as normalizeModelNames leaves it: trimmed and not empty. */
  predicate IsName(x: string) {
    x != "" && Trimmed(x)
  }

  predicate AllNames(xs: Names) {
    forall x :: x in xs ==> IsName(x)
  }

  /** Trimmed, non-empty and pairwise different names. */
  predicate Normal(xs: Names) {
    Distinct(xs) && AllNames(xs)
  }

  /** The names a list stands for. */
  function NameSet(xs: Names): set<string> {
    Image(xs, TrimSpace, NonBlankName)
  }

  lemma NameSetAppend(xs: Names, ys: Names)
    ensures NameSet(xs + ys) == NameSet(xs) + NameSet(ys)
  {
    assert forall x :: x in xs + ys <==> x in xs || x in ys;
  }

  lemma BlankPiece(xs: Names)
    ensures NameSet([""] + xs) == NameSet(xs) && NameSet(xs + [""]) == NameSet(xs)
  {
    assert TrimSpace("") == "";
    assert NameSet([""]) == {};
    NameSetAppend([""], xs);
    NameSetAppend(xs, [""]);
  }

  lemma {:induction false} TrimLeftDropsBlanks(s: string, cut: char -> bool, sep: char)
    requires forall c :: cut(c) <==> c == sep
    ensures NameSet(Split(TrimLeft(s, cut), sep)) == NameSet(Split(s, sep))
  {
    if s != [] && s[0] == sep {
      TrimLeftDropsBlanks(s[1..], cut, sep);
      BlankPiece(Split(s[1..], sep));
    }
  }

  lemma {:induction false} TrimRightDropsBlanks(s: string, cut: char -> bool, sep: char)
    requires forall c :: cut(c) <==> c == sep
    ensures NameSet(Split(TrimRight(s, cut), sep)) == NameSet(Split(s, sep))
  {
    if s != [] && s[|s| - 1] == sep {
      var front := s[..|s| - 1];
      TrimRightDropsBlanks(front, cut, sep);
      assert s == front + [sep] + "";
      SplitConcat(front, "", sep);
      BlankPiece(Split(front, sep));
    }
  }

  /** Trimming separators off a list drops only blank pieces. */
  lemma TrimDropsBlanks(s: string, cut: char -> bool, sep: char)
    requires forall c :: cut(c) <==> c == sep
    ensures NameSet(Split(Trim(s, cut), sep)) == NameSet(Split(s, sep))
  {
    TrimRightDropsBlanks(TrimLeft(s, cut), cut, sep);
    TrimLeftDropsBlanks(s, cut, sep);
  }

  lemma TrimmedName(y: string)
    ensures TrimSpace(y) != "" ==> IsName(TrimSpace(y))
    ensures IsName(y) ==> TrimSpace(y) == y
  {
    TrimCutsEnds(y, IsSpace);
  }

  lemma TrimNonEmptyElems(xs: Names)
    ensures AllNames(TrimNonEmpty(xs))
    ensures Elems(TrimNonEmpty(xs)) == NameSet(xs)
  {
    FilterMapElems(xs, TrimSpace, NonBlankName);
    forall x | x in TrimNonEmpty(xs)
      ensures IsName(x)
    {
      assert x in Elems(TrimNonEmpty(xs));
      NamesAreTrimmed(xs, x);
    }
  }

  lemma NamesAreTrimmed(xs: Names, x: string)
    requires x in NameSet(xs)
    ensures IsName(x)
  {
    var y :| y in xs && TrimSpace(y) == x;
    TrimmedName(y);
  }

  lemma TrimNonEmptyOfNames(xs: Names)
    requires AllNames(xs)
    ensures TrimNonEmpty(xs) == xs
  {
    forall x | x in xs
      ensures TrimSpace(x) == x && NonBlankName(x)
    {
      assert IsName(x);
      TrimmedName(x);
    }
    FilterMapFixed(xs, TrimSpace, NonBlankName);
  }

  /** normalizeModelNames yields a normal list of exactly the non-blank trimmed names,
      and leaves a normal list as it is. */
  lemma NormalizeIsNormal(xs: Names)
    ensures Normal(Normalize(xs))
    ensures Elems(Normalize(xs)) == NameSet(xs)
    ensures Normal(xs) ==> Normalize(xs) == xs
  {
    TrimNonEmptyElems(xs);
    UniqElems(TrimNonEmpty(xs));
    if Normal(xs) {
      TrimNonEmptyOfNames(xs);
    }
    forall x ensures x in Normalize(xs) <==> x in NameSet(xs) {
      assert x in TrimNonEmpty(xs) <==> x in Elems(TrimNonEmpty(xs));
    }
  }

  /** The order normalizeModelNames keeps: names stay where they first occur. */
  lemma NormalizeAppend(xs: Names, ys: Names)
    ensures Normalize(xs + ys) == Merge(xs, ys)
  {
    FilterMapAppend(xs, ys, TrimSpace, NonBlankName);
    UniqAppend(TrimNonEmpty(xs), TrimNonEmpty(ys));
    TrimNonEmptyElems(xs);
    NormalizeIsNormal(xs);
  }

  // ----- What the derived operations keep, on any lists -----

  lemma WithoutNormal(xs: Names, s: set<string>)
    requires Normal(xs)
    ensures Normal(Without(xs, s)) && Subsequence(Without(xs, s), xs)
    ensures Elems(Without(xs, s)) == Elems(xs) - s
  {
    FilterElems(xs, x => x !in s);
    FilterSubsequence(xs, x => x !in s);
  }

  lemma WithinNormal(xs: Names, s: set<string>)
    requires Normal(xs)
    ensures Normal(Within(xs, s)) && Subsequence(Within(xs, s), xs)
    ensures Elems(Within(xs, s)) == Elems(xs) * s
  {
    FilterElems(xs, x => x in s);
    FilterSubsequence(xs, x => x in s);
  }

  lemma SubtractNormal(base: Names, removed: Names)
    ensures Normal(Subtract(base, removed))
    ensures Elems(Subtract(base, removed)) == NameSet(base) - NameSet(removed)
    ensures Subsequence(Subtract(base, removed), Normalize(base))
  {
    NormalizeIsNormal(base);
    NormalizeIsNormal(removed);
    WithoutNormal(Normalize(base), Elems(Normalize(removed)));
  }

  lemma IntersectNormal(base: Names, allowed: Names)
    ensures Normal(Intersect(base, allowed))
    ensures Elems(Intersect(base, allowed)) == NameSet(base) * NameSet(allowed)
    ensures Subsequence(Intersect(base, allowed), Normalize(base))
  {
    NormalizeIsNormal(base);
    NormalizeIsNormal(allowed);
    WithinNormal(Normalize(base), Elems(Normalize(allowed)));
  }

  lemma MergeNormal(base: Names, appended: Names)
    ensures Normal(Merge(base, appended))
    ensures Elems(Merge(base, appended)) == NameSet(base) + NameSet(appended)
    ensures Normalize(base) <= Merge(base, appended)
  {
    NormalizeIsNormal(base);
    NormalizeIsNormal(appended);
    var s := Elems(Normalize(base));
    var tail := Without(Normalize(appended), s);
    WithoutNormal(Normalize(appended), s);
    DistinctAppend(Normalize(base), tail);
    ElemsAppend(Normalize(base), tail);
  }

  /** The set of names of a normal list is its set of elements. */
  lemma NameSetOfNormal(xs: Names)
    requires Normal(xs)
    ensures NameSet(xs) == Elems(xs) && Normalize(xs) == xs
  {
    NormalizeIsNormal(xs);
  }
}
