/** Splitting one selection over several apply calls, and the inputs on which the laws of
    reconciliation need their conditions. */
module Selections {
  import opened Text
  import opened Lists
  import opened NameLists
  import opened UpstreamModels
  import opened Reconciliation

  function Chosen(selected: Names, pending: Names): Names {
    Within(Normalize(selected), Elems(pending))
  }

  /** What a saved apply call does to a storable row, without the cases of
      its code: an add is never in the old list and never removed. */
  lemma ApplyClosedForm(row: Row, sel: Selection, now: int)
    requires Storable(row)
    ensures var s := row.settings;
            var a, i, r := Chosen(sel.add, s.detected), Chosen(sel.ignore, s.detected), Chosen(sel.remove, s.removed);
            var row' := ApplyRow(row, sel, now, true);
            && row'.models == (if a == [] && r == [] then row.models
                               else Join(Without(StoredNames(row.models), Elems(r)) + a, ','))
            && StoredNames(row'.models) == Without(StoredNames(row.models), Elems(r)) + a
            && row'.settings.ignored == Without(Merge(s.ignored, i), Elems(a))
            && row'.settings.detected == Without(s.detected, Elems(a) + Elems(i))
            && row'.settings.removed == Without(s.removed, Elems(r))
            && row'.settings.checkEnabled == s.checkEnabled && row'.settings.autoSync == s.autoSync
            && row'.settings.lastCheck == now
  {
    var s, o, local := row.settings, Outcome(row, sel), StoredNames(row.models);
    var a, i, r := Chosen(sel.add, s.detected), Chosen(sel.ignore, s.detected), Chosen(sel.remove, s.removed);
    OutcomeClosedForm(row, sel);
    ApplyStores(row, sel, now) by {
      NameSetOfNormal(s.detected);
    }
    ChosenNormal(sel.add, s.detected);
    ChosenNormal(sel.ignore, s.detected);
    ChosenNormal(sel.remove, s.removed);
    NextUnchanged(local, a, r) by {
      NormalizeIsNormal(GetModels(row.models));
    }
    assert Subtract(Merge(s.ignored, i), a) == Without(Merge(s.ignored, i), Elems(a)) by {
      MergeNormal(s.ignored, i);
      NameSetOfNormal(Merge(s.ignored, i));
      NameSetOfNormal(a);
    }
    if a == [] {
      WithoutNone(Merge(s.ignored, i), Elems(a));
    }
  }

  lemma OutcomeClosedForm(row: Row, sel: Selection)
    requires Storable(row)
    ensures var s := row.settings;
            var a, i, r := Chosen(sel.add, s.detected), Chosen(sel.ignore, s.detected), Chosen(sel.remove, s.removed);
            Outcome(row, sel) == Applied(a, i, r, Without(s.detected, Elems(a) + Elems(i)), Without(s.removed, Elems(r)),
                                         Without(StoredNames(row.models), Elems(r)) + a)
  {
    var s, o, local := row.settings, Outcome(row, sel), StoredNames(row.models);
    var a, i, r := Chosen(sel.add, s.detected), Chosen(sel.ignore, s.detected), Chosen(sel.remove, s.removed);
    NameSetOfNormal(s.detected);
    NameSetOfNormal(s.removed);
    ChosenNormal(sel.add, s.detected);
    ChosenNormal(sel.ignore, s.detected);
    ChosenNormal(sel.remove, s.removed);
    assert o.added == a && o.ignored == i;
    assert o.removed == r by {
      SubtractNamed(r, a);
      WithoutNone(r, Elems(a));
    }
    ApplyNextModels(row, sel);
    WithoutNone(a, Elems(local));
    assert o.remaining == Without(s.detected, Elems(a) + Elems(i)) by {
      SubtractBoth(s.detected, a, i);
    }
    assert o.remainingRemove == Without(s.removed, Elems(r)) by {
      SubtractNamed(s.removed, r);
    }
  }

  lemma SubtractNamed(xs: Names, taken: Names)
    requires Normal(xs) && Normal(taken)
    ensures Subtract(xs, taken) == Without(xs, Elems(taken))
  {
    NameSetOfNormal(xs);
    NameSetOfNormal(taken);
  }

  lemma SubtractBoth(xs: Names, a: Names, i: Names)
    requires Normal(xs) && Normal(a) && Normal(i)
    ensures Subtract(xs, a + i) == Without(xs, Elems(a) + Elems(i))
  {
    NameSetOfNormal(xs);
    NameSetAppend(a, i);
    NameSetOfNormal(a);
    NameSetOfNormal(i);
    NormalizeIsNormal(a + i);
  }

  lemma ChosenNormal(selected: Names, pending: Names)
    ensures Normal(Chosen(selected, pending))
    ensures Elems(Chosen(selected, pending)) == NameSet(selected) * Elems(pending)
  {
    NormalizeIsNormal(selected);
    WithinNormal(Normalize(selected), Elems(pending));
  }

  // ----- Two calls against one -----

  function Joint(first: Selection, second: Selection): Selection {
    Selection(first.add + second.add, first.ignore + second.ignore, first.remove + second.remove)
  }

  /** No pending name is ignored by the first selection and added only by the second. */
  predicate Splittable(row: Row, first: Selection, second: Selection) {
    forall x :: x in Elems(row.settings.detected) && x in NameSet(first.ignore) && x in NameSet(second.add)
      ==> x in NameSet(first.add)
  }

  /** What a joint choice is: the first choice, then the second from what the first left. */
  lemma ChosenJoint(first: Names, second: Names, pending: Names, left: Names)
    requires Elems(left) <= Elems(pending)
    requires forall x :: x in NameSet(second) && x in Elems(pending) ==> (x in Elems(left) <==> x !in NameSet(first))
    ensures Chosen(first + second, pending) == Chosen(first, pending) + Chosen(second, left)
  {
    var n1, n2, p := Normalize(first), Normalize(second), Elems(pending);
    NormalizeIsNormal(first);
    NormalizeIsNormal(second);
    NormalizeAppend(first, second);
    WithinAppend(n1, Without(n2, Elems(n1)), p);
    WithinWithout(n2, Elems(n1), p, Elems(left));
  }

  lemma WithinAppend<T>(xs: seq<T>, ys: seq<T>, s: set<T>)
    ensures Within(xs + ys, s) == Within(xs, s) + Within(ys, s)
  {
    FilterAppend(xs, ys, x => x in s);
  }

  lemma WithinWithout<T>(xs: seq<T>, out: set<T>, s: set<T>, t: set<T>)
    requires forall x :: x in Elems(xs) ==> (x in t <==> x in s && x !in out)
    ensures Within(Without(xs, out), s) == Within(xs, t)
  {
    assert forall x :: x in xs ==> x in Elems(xs);
    FilterFilter(xs, x => x !in out, x => x in s, x => x in t);
  }

  lemma WithoutWithout<T>(xs: seq<T>, s: set<T>, t: set<T>, u: set<T>)
    requires forall x :: x in Elems(xs) ==> (x in u <==> x in s || x in t)
    ensures Without(Without(xs, s), t) == Without(xs, u)
  {
    assert forall x :: x in xs ==> x in Elems(xs);
    FilterFilter(xs, x => x !in s, x => x !in t, x => x !in u);
  }

  /** The ignore list after one call and after two; i2 is what the first adds leave of the
      second ignores. */
  lemma IgnoredJoint(base: Names, i1: Names, all2: Names, i2: Names, a1: Names, a2: Names)
    requires Normal(i1) && Normal(all2) && Elems(i1) !! Elems(all2)
    requires i2 == Without(all2, Elems(a1))
    ensures Without(Merge(base, i1 + all2), Elems(a1 + a2)) ==
            Without(Merge(Without(Merge(base, i1), Elems(a1)), i2), Elems(a2))
  {
    var n := Normalize(base);
    var nE, s1, s2 := Elems(n), Elems(a1), Elems(a2);
    var once := Merge(base, i1);
    var mid := Without(once, s1);
    MergeNormal(base, i1);
    NormalizeIsNormal(base);
    WithoutNormal(once, s1);
    NameSetOfNormal(i1);
    NameSetOfNormal(mid);
    WithoutNormal(all2, s1);
    NameSetOfNormal(i2);
    DistinctAppend(i1, all2);
    NameSetOfNormal(i1 + all2);
    ElemsAppend(a1, a2);
    calc {
      Without(Merge(base, i1 + all2), s1 + s2);
      { WithoutAppend(i1, all2, nE); AppendAssociative(n, Without(i1, nE), Without(all2, nE)); }
      Without(once + Without(all2, nE), s1 + s2);
      { WithoutAppend(once, Without(all2, nE), s1 + s2); }
      Without(once, s1 + s2) + Without(Without(all2, nE), s1 + s2);
      { WithoutWithout(once, s1, s2, s1 + s2); }
      Without(mid, s2) + Without(Without(all2, nE), s1 + s2);
      { WithoutWithout(all2, nE, s1 + s2, nE + s1 + s2); }
      Without(mid, s2) + Without(all2, nE + s1 + s2);
      { WithoutWithout(i2, Elems(mid), s2, Elems(mid) + s2);
        WithoutWithout(all2, s1, Elems(mid) + s2, nE + s1 + s2); }
      Without(mid, s2) + Without(Without(i2, Elems(mid)), s2);
      { WithoutAppend(mid, Without(i2, Elems(mid)), s2); }
      Without(Merge(mid, i2), s2);
    }
  }

  /** One call with the joint selection leaves the same row as two calls, exactly when no
      pending name is ignored by the first call and added only by the second. */
  lemma SplitInTwo(row: Row, first: Selection, second: Selection, now: int)
    requires Storable(row)
    ensures ApplyRow(ApplyRow(row, first, now, true), second, now, true) == ApplyRow(row, Joint(first, second), now, true)
            <==> Splittable(row, first, second)
  {
    if Splittable(row, first, second) {
      SplitAgrees(row, first, second, now);
    } else {
      SplitDiffers(row, first, second, now);
    }
  }

  /** The ignores of one call: those of the first of two, then what the second still finds
      when only the first ignores are gone. */
  lemma IgnoresSplit(pending: Names, a1: Names, first: Names, second: Names)
    requires Normal(pending)
    ensures var i1 := Chosen(first, pending);
            var all2 := Chosen(second, Without(pending, Elems(i1)));
            && Chosen(first + second, pending) == i1 + all2
            && Normal(i1) && Normal(all2) && Elems(i1) !! Elems(all2)
            && Chosen(second, Without(pending, Elems(a1) + Elems(i1))) == Without(all2, Elems(a1))
  {
    var i1 := Chosen(first, pending);
    var left, d1 := Without(pending, Elems(i1)), Without(pending, Elems(a1) + Elems(i1));
    WithoutNormal(pending, Elems(i1));
    WithoutNormal(pending, Elems(a1) + Elems(i1));
    ChosenNormal(first, pending);
    ChosenNormal(second, left);
    ChosenJoint(first, second, pending, left);
    WithoutWithin(Normalize(second), Elems(left), Elems(a1), Elems(d1));
  }

  /** The removes of one call. */
  lemma RemovesSplit(pending: Names, first: Names, second: Names)
    requires Normal(pending)
    ensures var r1 := Chosen(first, pending);
            Chosen(first + second, pending) == r1 + Chosen(second, Without(pending, Elems(r1)))
  {
    IgnoresSplit(pending, [], first, second);
  }

  /** The adds of one call. */
  lemma AddsSplit(pending: Names, first: Names, ignored: Names, second: Names)
    requires Normal(pending)
    requires forall x :: x in Elems(pending) && x in NameSet(ignored) && x in NameSet(second) ==> x in NameSet(first)
    ensures var a1, i1 := Chosen(first, pending), Chosen(ignored, pending);
            Chosen(first + second, pending) == a1 + Chosen(second, Without(pending, Elems(a1) + Elems(i1)))
  {
    NormalizeIsNormal(first);
    NormalizeIsNormal(ignored);
    NormalizeIsNormal(second);
    NormalizeAppend(first, second);
    PickSplit(pending, Normalize(first), Normalize(ignored), Normalize(second));
  }

  lemma PickSplit<T>(pending: seq<T>, n1: seq<T>, ni: seq<T>, n2: seq<T>)
    requires forall x :: x in Elems(pending) && x in Elems(ni) && x in Elems(n2) ==> x in Elems(n1)
    ensures var a1, i1, p := Within(n1, Elems(pending)), Within(ni, Elems(pending)), Elems(pending);
            Within(n1 + Without(n2, Elems(n1)), p) == a1 + Within(n2, Elems(Without(pending, Elems(a1) + Elems(i1))))
  {
    var p := Elems(pending);
    var a1, i1 := Within(n1, p), Within(ni, p);
    FilterElems(n1, x => x in p);
    FilterElems(ni, x => x in p);
    FilterElems(pending, x => x !in Elems(a1) + Elems(i1));
    WithinAppend(n1, Without(n2, Elems(n1)), p);
    WithinWithout(n2, Elems(n1), p, Elems(Without(pending, Elems(a1) + Elems(i1))));
  }

  lemma WithoutWithin<T>(xs: seq<T>, s: set<T>, out: set<T>, t: set<T>)
    requires forall x :: x in Elems(xs) ==> (x in t <==> x in s && x !in out)
    ensures Without(Within(xs, s), out) == Within(xs, t)
  {
    assert forall x :: x in xs ==> x in Elems(xs);
    FilterFilter(xs, x => x in s, x => x !in out, x => x in t);
  }

  lemma SplitAgrees(row: Row, first: Selection, second: Selection, now: int)
    requires Storable(row) && Splittable(row, first, second)
    ensures ApplyRow(ApplyRow(row, first, now, true), second, now, true) == ApplyRow(row, Joint(first, second), now, true)
  {
    var s, local := row.settings, StoredNames(row.models);
    var mid := ApplyRow(row, first, now, true);
    var a1, i1, r1 := Chosen(first.add, s.detected), Chosen(first.ignore, s.detected), Chosen(first.remove, s.removed);
    var d1, left := Without(s.detected, Elems(a1) + Elems(i1)), Without(s.removed, Elems(r1));
    var a2, i2, r2 := Chosen(second.add, d1), Chosen(second.ignore, d1), Chosen(second.remove, left);
    var all2 := Chosen(second.ignore, Without(s.detected, Elems(i1)));
    ApplyClosedForm(row, first, now);
    ApplyKeepsStorable(row, first, now);
    ApplyClosedForm(mid, second, now);
    ApplyClosedForm(row, Joint(first, second), now);
    AddsSplit(s.detected, first.add, first.ignore, second.add);
    IgnoresSplit(s.detected, a1, first.ignore, second.ignore);
    RemovesSplit(s.removed, first.remove, second.remove);
    IgnoredJoint(s.ignored, i1, all2, i2, a1, a2);
    assert Elems(a1) !! Elems(r2) by {
      ChosenNormal(first.add, s.detected);
      ChosenNormal(second.remove, left);
      WithoutNormal(s.removed, Elems(r1));
    }
    ModelsJoint(local, a1, r1, a2, r2);
    PendingJoint(s.removed, r1, r2, [], []);
    PendingJoint(s.detected, a1, a2, i1, all2);
    WithoutNormal(all2, Elems(a1));
    if a2 == [] && r2 == [] {
      assert a1 + a2 == a1 && r1 + r2 == r1;
    }
  }

  lemma PendingJoint(pending: Names, a1: Names, a2: Names, i1: Names, all2: Names)
    ensures Without(Without(pending, Elems(a1) + Elems(i1)), Elems(a2) + Elems(Without(all2, Elems(a1)))) ==
            Without(pending, Elems(a1 + a2) + Elems(i1 + all2))
    ensures Without(Without(pending, Elems(a1)), Elems(a2)) == Without(pending, Elems(a1 + a2))
  {
    FilterElems(all2, x => x !in Elems(a1));
    ElemsAppend(a1, a2);
    ElemsAppend(i1, all2);
    WithoutWithout(pending, Elems(a1) + Elems(i1), Elems(a2) + Elems(Without(all2, Elems(a1))),
                   Elems(a1 + a2) + Elems(i1 + all2));
    WithoutWithout(pending, Elems(a1), Elems(a2), Elems(a1 + a2));
  }

  lemma ModelsJoint(local: Names, a1: Names, r1: Names, a2: Names, r2: Names)
    requires Elems(a1) !! Elems(r2)
    ensures Without(Without(local, Elems(r1)) + a1, Elems(r2)) + a2 == Without(local, Elems(r1 + r2)) + (a1 + a2)
  {
    WithoutAppend(Without(local, Elems(r1)), a1, Elems(r2));
    WithoutNone(a1, Elems(r2));
    ElemsAppend(r1, r2);
    WithoutWithout(local, Elems(r1), Elems(r2), Elems(r1 + r2));
    AppendAssociative(Without(local, Elems(r1 + r2)), a1, a2);
  }

  /** The name that the first call ignores is a model after one call and not after two. */
  lemma SplitDiffers(row: Row, first: Selection, second: Selection, now: int)
    requires Storable(row) && !Splittable(row, first, second)
    ensures StoredNames(ApplyRow(ApplyRow(row, first, now, true), second, now, true).models) !=
            StoredNames(ApplyRow(row, Joint(first, second), now, true).models)
  {
    var d := row.settings.detected;
    var x :| x in Elems(d) && x in NameSet(first.ignore) && x in NameSet(second.add) && x !in NameSet(first.add);
    var mid := ApplyRow(row, first, now, true);
    ApplyKeepsStorable(row, first, now);
    IsModelAfter(row, Joint(first, second), now, x);
    NameSetAppend(first.add, second.add);
    IsModelAfter(row, first, now, x);
    assert x !in Elems(mid.settings.detected) by {
      ApplyClosedForm(row, first, now);
      ChosenNormal(first.ignore, d);
      WithoutNormal(d, Elems(Chosen(first.add, d)) + Elems(Chosen(first.ignore, d)));
    }
    IsModelAfter(mid, second, now, x);
  }

  /** A name is a model after a call if it was added, or was one and is not a pending remove. */
  lemma IsModelAfter(row: Row, sel: Selection, now: int, x: string)
    requires Storable(row)
    ensures var d := Elems(row.settings.detected);
            && (x in d ==> (x in Elems(StoredNames(ApplyRow(row, sel, now, true).models)) <==> x in NameSet(sel.add)))
            && (x !in d && x !in Elems(StoredNames(row.models)) ==>
                  x !in Elems(StoredNames(ApplyRow(row, sel, now, true).models)))
  {
    NameSetOfNormal(row.settings.detected);
    ApplyPartitionsPending(row, sel);
    ApplyStores(row, sel, now);
  }

  // ----- Any number of calls -----

  function ApplyEach(row: Row, sels: seq<Selection>, now: int): Row {
    if sels == [] then row
    else ApplyRow(ApplyEach(row, sels[..|sels| - 1], now), sels[|sels| - 1], now, true)
  }

  function JointOf(sels: seq<Selection>): Selection
    requires sels != []
  {
    if |sels| == 1 then sels[0] else Joint(JointOf(sels[..|sels| - 1]), sels[|sels| - 1])
  }

  /** A selection whose adds and ignores share no pending name may be split over any number of
      calls: the rows agree in every column. */
  lemma {:induction false} SelectionsMaySplit(row: Row, sels: seq<Selection>, now: int)
    requires Storable(row) && sels != []
    requires NameSet(JointOf(sels).add) * NameSet(JointOf(sels).ignore) !! Elems(row.settings.detected)
    ensures ApplyEach(row, sels, now) == ApplyRow(row, JointOf(sels), now, true)
  {
    var last := sels[|sels| - 1];
    if |sels| > 1 {
      var front := sels[..|sels| - 1];
      var joint := JointOf(front);
      NameSetAppend(joint.add, last.add);
      NameSetAppend(joint.ignore, last.ignore);
      SelectionsMaySplit(row, front, now);
      assert forall x :: x in NameSet(joint.ignore) && x in NameSet(last.add) ==>
                           x in NameSet(JointOf(sels).add) * NameSet(JointOf(sels).ignore);
      SplitInTwo(row, joint, last, now);
    } else {
      assert sels[..0] == [];
      assert ApplyEach(row, sels[..0], now) == row;
    }
  }

  // ----- Why the conditions are there -----

  /** A pattern of the ignore list that is also an upstream name, and does not hide itself, is
      added and struck from the list; a name that only it hid is then pending: one round of a
      channel with that ignore list does not converge. */
  lemma AdoptedPatternReappears(row: Row, upstream: Names, entry: string, name: string, rx: Regex, now: int)
    requires OnePattern(row, entry, name, rx)
    requires CommaFree(upstream) && {entry, name} <= NameSet(upstream)
    requires {entry, name} !! Elems(StoredNames(row.models))
    ensures Round(row, upstream, map[], rx, now).settings.detected != []
  {
    BothUncovered(row, upstream, entry, name);
    OnlyAdoptedHides(row, upstream, entry, name, rx);
    AddsCommaFree(row, upstream, map[], rx);
    CommaFreeRound(row, upstream, map[], rx, now);
  }

  /** The ignore list is one pattern that does not hide itself. */
  predicate OnePattern(row: Row, entry: string, name: string, rx: Regex) {
    Elems(Normalize(row.settings.ignored)) == {entry} && REGEX_PREFIX <= entry
    && Hides(entry, name, rx) && !Hides(entry, entry, rx)
  }

  lemma BothUncovered(row: Row, upstream: Names, entry: string, name: string)
    requires {entry, name} <= NameSet(upstream) && {entry, name} !! Elems(StoredNames(row.models))
    ensures Uncovered(row, upstream, map[], entry) && Uncovered(row, upstream, map[], name)
  {
    assert forall x :: x in StoredNames(row.models) ==> x in Elems(StoredNames(row.models));
  }

  lemma OnlyAdoptedHides(row: Row, upstream: Names, entry: string, name: string, rx: Regex)
    requires OnePattern(row, entry, name, rx) && Uncovered(row, upstream, map[], entry)
    ensures Hidden(Normalize(row.settings.ignored), name, rx) && !StaysHidden(row, upstream, map[], rx, name)
  {
    var ignored := Normalize(row.settings.ignored);
    HiddenByOne(ignored, entry, rx);
    assert Adopted(row, upstream, map[], rx, entry);
    forall e | e in ignored
      ensures e == entry
    {
      assert e in Elems(ignored);
    }
  }

  lemma AddsCommaFree(row: Row, upstream: Names, mapping: map<string, string>, rx: Regex)
    requires CommaFree(upstream)
    ensures CommaFree(CollectPending(GetModels(row.models), upstream, row.settings.ignored, mapping, rx).0)
  {
    CollectPendingMeaning(GetModels(row.models), upstream, row.settings.ignored, mapping, rx);
    CommaFreeTrimmed(upstream);
  }

  lemma HiddenByOne(ignored: Names, entry: string, rx: Regex)
    requires Elems(ignored) == {entry}
    ensures forall x :: Hidden(ignored, x, rx) <==> Hides(entry, x, rx)
  {
    assert entry in Elems(ignored);
    assert forall e :: e in ignored ==> e in Elems(ignored);
  }

  /** A channel without models and ignore entries finds the whole upstream list. */
  lemma FreshDetection(row: Row, upstream: Names, rx: Regex, now: int)
    requires StoredNames(row.models) == [] && Normalize(row.settings.ignored) == []
    ensures var found := CheckRow(row, Detect(upstream, map[], now), rx);
            && found.models == row.models
            && Normal(found.settings.detected) && Elems(found.settings.detected) == NameSet(upstream)
  {
    CollectPendingMeaning(GetModels(row.models), upstream, row.settings.ignored, map[], rx);
    NormalizeIsNormal(GetModels(row.models));
  }

  // ----- One input of each family -----

  function Fresh(ignored: Names): Row {
    Row("", Settings(true, false, 0, [], [], ignored))
  }

  lemma FreshHasNoModels(ignored: Names)
    ensures StoredNames(Fresh(ignored).models) == [] && Elems(StoredNames(Fresh(ignored).models)) == {}
  {
    assert GetModels("") == [];
    NameSetOfNormal([]);
  }

  lemma OneName(x: string)
    requires IsName(x)
    ensures Normal([x]) && Normalize([x]) == [x] && NameSet([x]) == {x} && Elems(Normalize([x])) == {x}
  {
    NameSetOfNormal([x]);
    assert Elems([x]) == {x};
  }

  lemma TwoNames(x: string, y: string)
    requires IsName(x) && IsName(y) && x != y
    ensures NameSet([x, y]) == {x, y}
  {
    NameSetOfNormal([x, y]);
    assert Elems([x, y]) == {x, y};
  }

  lemma FreshLists(entry: string, name: string)
    requires IsName(entry) && IsName(name) && entry != name
    ensures Elems(Normalize(Fresh([entry]).settings.ignored)) == {entry}
    ensures {entry, name} <= NameSet([entry, name])
    ensures {entry, name} !! Elems(StoredNames(Fresh([entry]).models))
  {
    OneName(entry);
    TwoNames(entry, name);
    FreshHasNoModels([entry]);
  }

  /** Upstream offers the text of a pattern in the ignore list and a model that only it hides. */
  lemma FreshPattern(entry: string, name: string, rx: Regex, now: int)
    requires IsName(entry) && IsName(name) && entry != name && REGEX_PREFIX <= entry && CommaFree([entry, name])
    requires Hides(entry, name, rx) && !Hides(entry, entry, rx)
    ensures Round(Fresh([entry]), [entry, name], map[], rx, now).settings.detected != []
  {
    FreshLists(entry, name);
    AdoptedPatternReappears(Fresh([entry]), [entry, name], entry, name, rx, now);
  }

  lemma PatternText()
    ensures var entry, name := "regex:x", "x";
            && IsName(entry) && IsName(name) && entry != name && REGEX_PREFIX <= entry && CommaFree([entry, name])
  {
    assert "regex:x" == REGEX_PREFIX + "x";
    assert |"regex:x"| == 7;
  }

  lemma PatternExample(now: int)
    ensures Round(Fresh(["regex:x"]), ["regex:x", "x"], map[], (pattern, name) => name == "x", now).settings.detected != []
  {
    PatternText();
    FreshPattern("regex:x", "x", (pattern, name) => name == "x", now);
  }

  /** Upstream offers a name with a comma and its first piece, and only the name is selected: the
      piece is then in the model list and pending. */
  lemma FreshPiece(name: string, piece: string, rest: string, rx: Regex, now: int)
    requires name == piece + [','] + rest && IsName(name) && IsName(piece) && ',' !in piece
    ensures var found := CheckRow(Fresh([]), Detect([name, piece], map[], now), rx);
            Inv(found) && !Inv(ApplyRow(found, Selection([name], [], []), now, true))
  {
    var found := CheckRow(Fresh([]), Detect([name, piece], map[], now), rx);
    OneName(name);
    TwoNames(name, piece);
    FirstPiece(piece, rest);
    FreshHasNoModels([]);
    NameSetOfNormal([]);
    FreshDetection(Fresh([]), [name, piece], rx, now);
    CheckKeepsInv(Fresh([]), Detect([name, piece], map[], now), rx);
    PieceStaysPending(found, Selection([name], [], []), name, piece, now);
  }

  lemma CommaExample(rx: Regex, now: int)
    ensures var found := CheckRow(Fresh([]), Detect(["a,b", "a"], map[], now), rx);
            Inv(found) && !Inv(ApplyRow(found, Selection(["a,b"], [], []), now, true))
  {
    assert "a,b" == "a" + [','] + "b";
    FreshPiece("a,b", "a", "b", rx, now);
  }

  lemma PieceStaysPending(row: Row, sel: Selection, name: string, piece: string, now: int)
    requires Inv(row) && Elems(row.settings.detected) == {name, piece} && name != piece && IsPiece(piece, name)
    requires NameSet(sel.add) == {name} && NameSet(sel.ignore) == {}
    ensures !Inv(ApplyRow(row, sel, now, true))
  {
    assert name in Elems(row.settings.detected) && piece in Elems(row.settings.detected);
    assert !NoPieceRemains(row.settings.detected, sel);
    ApplyKeepsInv(row, sel, now);
  }

  lemma FirstPiece(piece: string, rest: string)
    requires IsName(piece) && ',' !in piece
    ensures IsPiece(piece, piece + [','] + rest)
  {
    SplitFirst(piece, rest, ',');
    NameSetAppend([piece], Split(rest, ','));
    OneName(piece);
  }
}
