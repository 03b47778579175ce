/** What the reconciliation steps keep and reach: the partition each apply makes, the invariant
    of every run, convergence in one round, and selections that may be split. */
module Reconciliation {
  import opened Wrappers
  import opened Text
  import opened Lists
  import opened NameLists
  import opened UpstreamModels
  import opened Runs

  // ----- One apply call -----

  /** Every pending name ends in exactly one place: a pending add is added or ignored, or
      remains; a pending remove is removed or remains. Nothing else is touched. */
  lemma ApplyPartitionsPending(row: Row, sel: Selection)
    ensures var o, pa, pr := Outcome(row, sel), NameSet(row.settings.detected), NameSet(row.settings.removed);
            && Elems(o.added) == NameSet(sel.add) * pa
            && Elems(o.ignored) == NameSet(sel.ignore) * pa
            && Elems(o.remaining) == pa - Elems(o.added) - Elems(o.ignored)
            && Elems(o.removed) == NameSet(sel.remove) * pr - Elems(o.added)
            && Elems(o.remainingRemove) == pr - Elems(o.removed)
    ensures var o := Outcome(row, sel);
            && Normal(o.added) && Normal(o.ignored) && Normal(o.removed)
            && Normal(o.remaining) && Normal(o.remainingRemove)
  {
    var s, o := row.settings, Outcome(row, sel);
    SelectedOf(sel.add, s.detected);
    SelectedOf(sel.ignore, s.detected);
    SelectedOf(sel.remove, s.removed);
    LeftOf(Intersect(sel.remove, Normalize(s.removed)), o.added);
    NormalizeIsNormal(s.detected);
    NormalizeIsNormal(s.removed);
    NameSetAppend(o.added, o.ignored);
    NameSetOfNormal(o.added);
    NameSetOfNormal(o.ignored);
    LeftOf(Normalize(s.detected), o.added + o.ignored);
    NameSetOfNormal(o.removed);
    LeftOf(Normalize(s.removed), o.removed);
  }

  lemma SelectedOf(selected: Names, pending: Names)
    ensures Normal(Intersect(selected, Normalize(pending)))
    ensures Elems(Intersect(selected, Normalize(pending))) == NameSet(selected) * NameSet(pending)
  {
    NormalizeIsNormal(pending);
    NameSetOfNormal(Normalize(pending));
    IntersectNormal(selected, Normalize(pending));
  }

  lemma LeftOf(xs: Names, taken: Names)
    requires Normal(xs)
    ensures Normal(Subtract(xs, taken)) && Elems(Subtract(xs, taken)) == Elems(xs) - NameSet(taken)
  {
    NameSetOfNormal(xs);
    SubtractNormal(xs, taken);
  }

  /** The next model list: the old one without the removed names, in its order, then the added
      names it did not have, in the order of the selection. */
  lemma ApplyNextModels(row: Row, sel: Selection)
    ensures var o, local := Outcome(row, sel), StoredNames(row.models);
            o.next == Without(local, Elems(o.removed)) + Without(o.added, Elems(local))
  {
    var o, local := Outcome(row, sel), StoredNames(row.models);
    ApplyPartitionsPending(row, sel);
    NormalizeIsNormal(GetModels(row.models));
    NameSetOfNormal(local);
    NameSetOfNormal(o.added);
    NameSetOfNormal(o.removed);
    assert Subtract(o.removed, o.added) == o.removed by {
      WithoutNone(o.removed, Elems(o.added));
    }
    MergeNormal(local, o.added);
    NameSetOfNormal(Merge(local, o.added));
    FilterAppend(local, Without(o.added, Elems(local)), x => x !in Elems(o.removed));
    WithoutAppend(local, Without(o.added, Elems(local)), Elems(o.removed));
    WithoutNormal(o.added, Elems(local));
    WithoutNone(Without(o.added, Elems(local)), Elems(o.removed));
  }

  /** Any apply call on any row. A failed save changes nothing. A saved one takes the selected adds
      and ignores out of the pending adds and the removes out of the pending removes, ignores what
      was ignored and nothing that was added, moves the check time and leaves the switches; the
      stored models change exactly when the next list differs. */
  lemma ApplyLeaves(row: Row, sel: Selection, now: int, saved: bool)
    ensures var r, s, s' := ApplyRow(row, sel, now, saved), row.settings, ApplyRow(row, sel, now, saved).settings;
            var added, ignored := NameSet(sel.add) * NameSet(s.detected), NameSet(sel.ignore) * NameSet(s.detected);
            var removed := NameSet(sel.remove) * NameSet(s.removed) - added;
            var next := Outcome(row, sel).next;
            if !saved then r == row
            else
              && s'.lastCheck == now && s'.checkEnabled == s.checkEnabled && s'.autoSync == s.autoSync
              && Normal(s'.detected) && Elems(s'.detected) == NameSet(s.detected) - added - ignored
              && Normal(s'.removed) && Elems(s'.removed) == NameSet(s.removed) - removed
              && Normal(s'.ignored) && Elems(s'.ignored) == NameSet(s.ignored) + ignored - added
              && Elems(next) == Elems(StoredNames(row.models)) - removed + added
              && r.models == if next == StoredNames(row.models) then row.models else Join(next, ',')
  {
    var s, o := row.settings, Outcome(row, sel);
    ApplyPartitionsPending(row, sel);
    NextNames(row, sel);
    IgnoredNames(s.ignored, o.ignored, o.added);
  }

  lemma IgnoredNames(before: Names, ignored: Names, added: Names)
    requires Normal(ignored) && Normal(added)
    ensures var merged := Merge(before, ignored);
            var left := if added != [] then Subtract(merged, added) else merged;
            Normal(left) && Elems(left) == NameSet(before) + Elems(ignored) - Elems(added)
  {
    NameSetOfNormal(ignored);
    NameSetOfNormal(added);
    MergeNormal(before, ignored);
    LeftOf(Merge(before, ignored), added);
    NoElems(added);
  }

  lemma NextNames(row: Row, sel: Selection)
    ensures var o := Outcome(row, sel);
            Elems(o.next) == Elems(StoredNames(row.models)) - Elems(o.removed) + Elems(o.added)
  {
    var o, local := Outcome(row, sel), StoredNames(row.models);
    ApplyPartitionsPending(row, sel);
    ApplyNextModels(row, sel);
    NormalizeIsNormal(GetModels(row.models));
    WithoutNormal(local, Elems(o.removed));
    WithoutNormal(o.added, Elems(local));
    ElemsAppend(Without(local, Elems(o.removed)), Without(o.added, Elems(local)));
    AddedAgain(Elems(local), Elems(o.removed), Elems(o.added));
  }

  lemma AddedAgain<T>(local: set<T>, removed: set<T>, added: set<T>)
    requires removed !! added
    ensures local - removed + (added - local) == local - removed + added
  {
  }

  // ----- The invariant of every run -----

  /** Pending adds are not in the model list, pending removes are, and both lists are normal. */
  predicate Inv(row: Row) {
    var local, s := Elems(StoredNames(row.models)), row.settings;
    && Normal(s.detected) && Elems(s.detected) !! local
    && Normal(s.removed) && Elems(s.removed) <= local
  }

  datatype Event =
    | Check(input: CheckInput)
    | Apply(sel: Selection, now: int, saved: bool)

  function Step(row: Row, e: Event, rx: Regex): Row {
    match e
    case Check(input) => CheckRow(row, input, rx)
    case Apply(sel, now, saved) => ApplyRow(row, sel, now, saved)
  }

  function Stepping(rx: Regex): (Row, Event) -> Row {
    (row, e) => Step(row, e, rx)
  }

  /** What a check finds, with its model list extended by automatic synchronization. */
  lemma SyncedModels(models: string, add: Names, input: CheckInput, ignored: Names, rx: Regex)
    requires input.fetched.Some? && CommaFree(add)
    requires add == CollectPending(GetModels(models), input.fetched.value, ignored, input.mapping, rx).0
    ensures var synced := Join(Merge(StoredNames(models), add), ',');
            && GetModels(synced) == StoredNames(synced) == StoredNames(models) + add
            && Elems(StoredNames(synced)) == Elems(StoredNames(models)) + Elems(add)
  {
    var local := StoredNames(models);
    AutoSyncGrows(models, add, input, ignored, rx);
    StoredNamesCommaFree(models);
    CommaFreeAppend(local, add);
    MergeNormal(local, add);
    JoinedNamesSplitBack(local + add);
    NameSetOfNormal(local + add);
    ElemsAppend(local, add);
  }

  /** What detection finds fits the model list. */
  lemma FoundFits(row: Row, input: CheckInput, rx: Regex)
    requires input.fetched.Some?
    ensures var (add, remove) := CollectPending(GetModels(row.models), input.fetched.value, row.settings.ignored, input.mapping, rx);
            && Normal(add) && Elems(add) !! Elems(StoredNames(row.models))
            && Normal(remove) && Elems(remove) <= Elems(StoredNames(row.models))
  {
    CollectPendingMeaning(GetModels(row.models), input.fetched.value, row.settings.ignored, input.mapping, rx);
    NormalizeIsNormal(GetModels(row.models));
  }

  /** What a check of the row would find. */
  function FoundBy(row: Row, input: CheckInput, rx: Regex): (Names, Names)
    requires input.fetched.Some?
  {
    CollectPending(GetModels(row.models), input.fetched.value, row.settings.ignored, input.mapping, rx)
  }

  lemma SameFilter(local: Names, add: Names, keep: string -> bool)
    requires forall x :: x in add ==> !keep(x)
    ensures Filter(local + add, keep) == Filter(local, keep)
  {
    FilterAppend(local, add, keep);
    FilterElems(add, keep);
    assert Elems(Filter(add, keep)) == {};
    NoElems(Filter(add, keep));
  }

  /** Names that upstream offers are never found missing there. */
  lemma SameRemoves(local: Names, add: Names, upstream: Names, ignored: Names, mapping: map<string, string>, rx: Regex)
    requires Normal(local) && Normal(add) && Elems(local) !! Elems(add)
    requires Elems(add) <= NameSet(upstream)
    ensures CollectPending(local + add, upstream, ignored, mapping, rx).1 == CollectPending(local, upstream, ignored, mapping, rx).1
  {
    NormalizeIsNormal(upstream);
    DistinctAppend(local, add);
    NameSetOfNormal(local + add);
    NameSetOfNormal(local);
    var up := Elems(Normalize(upstream));
    assert forall x :: x in add ==> x in Elems(add);
    SameFilter(local, add, name => name !in mapping.Keys && name !in up);
  }

  /** After a check with automatic synchronization, checking again finds nothing to add exactly
      when no added name holds a comma; the second check then changes nothing at all. */
  lemma AutoSyncSettles(row: Row, input: CheckInput, rx: Regex)
    requires input.force && input.saved && input.fetched.Some? && input.allowAutoApply && row.settings.autoSync
    ensures var add, synced := FoundBy(row, input, rx).0, CheckRow(row, input, rx);
            && (FoundBy(synced, input, rx).0 == [] <==> CommaFree(add))
            && (CommaFree(add) ==> CheckRow(synced, input, rx) == synced)
  {
    var add, synced := FoundBy(row, input, rx).0, CheckRow(row, input, rx);
    if add != [] {
      if CommaFree(add) {
        SyncedFinds(row, input, rx);
      } else {
        SyncedMisses(row, input, rx);
      }
    }
  }

  lemma SyncedFinds(row: Row, input: CheckInput, rx: Regex)
    requires input.fetched.Some? && CommaFree(FoundBy(row, input, rx).0)
    ensures var add := FoundBy(row, input, rx).0;
            var synced := row.(models := Join(Merge(StoredNames(row.models), add), ','));
            FoundBy(synced, input, rx) == ([], FoundBy(row, input, rx).1)
  {
    var s, upstream, local := row.settings, input.fetched.value, StoredNames(row.models);
    var add := FoundBy(row, input, rx).0;
    SyncedModels(row.models, add, input, s.ignored, rx);
    CollectPendingMeaning(GetModels(row.models), upstream, s.ignored, input.mapping, rx);
    CollectPendingMeaning(local + add, upstream, s.ignored, input.mapping, rx);
    NormalizeIsNormal(GetModels(row.models));
    NameSetOfNormal(local);
    NameSetOfNormal(add);
    NameSetAppend(local, add);
    NothingIn(CollectPending(local + add, upstream, s.ignored, input.mapping, rx).0);
    SameRemoves(local, add, upstream, s.ignored, input.mapping, rx);
  }

  lemma SyncedMisses(row: Row, input: CheckInput, rx: Regex)
    requires input.fetched.Some? && !CommaFree(FoundBy(row, input, rx).0)
    ensures var synced := row.(models := Join(Merge(StoredNames(row.models), FoundBy(row, input, rx).0), ','));
            FoundBy(synced, input, rx).0 != []
  {
    var s, upstream := row.settings, input.fetched.value;
    var add := FoundBy(row, input, rx).0;
    var models := Join(Merge(StoredNames(row.models), add), ',');
    var x :| x in add && ',' in x;
    CollectPendingMeaning(GetModels(row.models), upstream, s.ignored, input.mapping, rx);
    CollectPendingMeaning(GetModels(models), upstream, s.ignored, input.mapping, rx);
    StoredNamesCommaFree(models);
    NormalizeIsNormal(GetModels(models));
    assert x !in Elems(StoredNames(models));
    assert x in CollectPending(GetModels(models), upstream, s.ignored, input.mapping, rx).0;
  }

  /** Storing what a check finds keeps the invariant. */
  lemma FoundKeepsInv(row: Row, input: CheckInput, rx: Regex)
    requires input.fetched.Some?
    ensures var (add, remove) := FoundBy(row, input, rx);
            Inv(row.(settings := row.settings.(lastCheck := input.now, detected := add, removed := remove)))
  {
    FoundFits(row, input, rx);
  }

  /** The models after automatic synchronization, as they are read back: whatever the added names
      hold, the old ones stay. */
  lemma SyncedPieces(models: string, add: Names, input: CheckInput, ignored: Names, rx: Regex)
    requires input.fetched.Some?
    requires add == CollectPending(GetModels(models), input.fetched.value, ignored, input.mapping, rx).0
    ensures Elems(StoredNames(Join(Merge(StoredNames(models), add), ','))) ==
            Elems(StoredNames(models)) + NameSet(AllPieces(add, ','))
  {
    var local := StoredNames(models);
    AutoSyncGrows(models, add, input, ignored, rx);
    StoredPieces(local + add);
    PiecesAppend(local, add);
    StoredNamesCommaFree(models);
    CommaFreePieces(local);
    NameSetOfNormal(local);
  }

  /** So does adding it to the models. */
  lemma SyncKeepsInv(row: Row, input: CheckInput, rx: Regex)
    requires input.fetched.Some?
    ensures var (add, remove) := FoundBy(row, input, rx);
            Inv(Row(Join(Merge(StoredNames(row.models), add), ','),
                    row.settings.(lastCheck := input.now, detected := [], removed := remove)))
  {
    FoundFits(row, input, rx);
    SyncedPieces(row.models, FoundBy(row, input, rx).0, input, row.settings.ignored, rx);
  }

  /** Every check keeps the invariant, whatever names upstream offers. */
  lemma CheckKeepsInv(row: Row, input: CheckInput, rx: Regex)
    requires Inv(row)
    ensures Inv(CheckRow(row, input, rx))
  {
    if !Skipped(row, input) && input.saved && input.fetched.Some? {
      if input.allowAutoApply && row.settings.autoSync && FoundBy(row, input, rx).0 != [] {
        SyncKeepsInv(row, input, rx);
      } else {
        FoundKeepsInv(row, input, rx);
      }
    }
  }

  lemma CommaFreeAppend(xs: Names, ys: Names)
    requires CommaFree(xs) && CommaFree(ys)
    ensures CommaFree(xs + ys)
  {
  }

  /** The list of ApplyNextModels in terms of its parts. */
  lemma KeptAndAdded(local: Names, removed: set<string>, added: Names)
    requires Normal(local) && CommaFree(local) && Normal(added) && CommaFree(added) && Elems(added) !! removed
    ensures var next := Without(local, removed) + Without(added, Elems(local));
            Normal(next) && CommaFree(next) && Elems(next) == (Elems(local) - removed) + Elems(added)
  {
    var kept, novel := Without(local, removed), Without(added, Elems(local));
    WithoutNormal(local, removed);
    WithoutNormal(added, Elems(local));
    assert CommaFree(kept) && CommaFree(novel) by {
      assert forall x :: x in kept ==> x in Elems(kept);
      assert forall x :: x in novel ==> x in Elems(novel);
    }
    CommaFreeAppend(kept, novel);
    DistinctAppend(kept, novel);
    ElemsAppend(kept, novel);
  }

  lemma AddedCommaFree(row: Row, sel: Selection)
    requires CommaFree(Normalize(row.settings.detected))
    ensures var o := Outcome(row, sel); Normal(o.added) && CommaFree(o.added) && Elems(o.added) !! Elems(o.removed)
  {
    ApplyPartitionsPending(row, sel);
    NormalizeIsNormal(row.settings.detected);
    var added, pending := Outcome(row, sel).added, Normalize(row.settings.detected);
    forall x | x in added
      ensures ',' !in x
    {
      assert x in Elems(added) && x in Elems(pending);
    }
  }

  lemma NextModelsStorable(row: Row, sel: Selection)
    requires CommaFree(Normalize(row.settings.detected))
    ensures var o := Outcome(row, sel);
            && Normal(o.next) && CommaFree(o.next)
            && Elems(o.next) == (Elems(StoredNames(row.models)) - Elems(o.removed)) + Elems(o.added)
  {
    var o := Outcome(row, sel);
    AddedCommaFree(row, sel);
    StoredNamesCommaFree(row.models);
    KeptAndAdded(StoredNames(row.models), Elems(o.removed), o.added);
    ApplyNextModels(row, sel);
  }

  /** The model list an apply call leaves, as it is read back. */
  lemma ApplyStores(row: Row, sel: Selection, now: int)
    requires CommaFree(Normalize(row.settings.detected))
    ensures StoredNames(ApplyRow(row, sel, now, true).models) == Outcome(row, sel).next
    ensures Elems(Outcome(row, sel).next) ==
            (Elems(StoredNames(row.models)) - Elems(Outcome(row, sel).removed)) + Elems(Outcome(row, sel).added)
  {
    NextModelsStorable(row, sel);
    StoredListReadsBack(Outcome(row, sel).next);
  }

  lemma NextUnchanged(local: Names, a: Names, r: Names)
    requires Normal(local) && Elems(a) !! Elems(local) && Elems(r) <= Elems(local)
    ensures Without(local, Elems(r)) + a == local <==> a == [] && r == []
  {
    var kept := Without(local, Elems(r));
    WithoutNormal(local, Elems(r));
    ElemsAppend(kept, a);
    if a == [] && r == [] {
      WithoutNone(local, Elems(r));
    } else if a != [] {
      assert a[0] in Elems(a);
    } else {
      assert r[0] in Elems(r);
    }
  }

  /** The parts of an apply call under the invariant. */
  lemma AppliedParts(row: Row, sel: Selection)
    requires Inv(row)
    ensures var o, d, r := Outcome(row, sel), row.settings.detected, row.settings.removed;
            && Normal(o.added) && Elems(o.added) == NameSet(sel.add) * Elems(d)
            && Normal(o.remaining) && Elems(o.remaining) == Elems(d) - NameSet(sel.add) - NameSet(sel.ignore)
            && Elems(o.removed) == NameSet(sel.remove) * Elems(r)
            && Normal(o.remainingRemove) && Elems(o.remainingRemove) == Elems(r) - Elems(o.removed)
  {
    var d, r := row.settings.detected, row.settings.removed;
    ApplyPartitionsPending(row, sel);
    assert NameSet(d) == Elems(d) && NameSet(r) == Elems(r) by {
      NameSetOfNormal(d);
      NameSetOfNormal(r);
    }
    PartSets(NameSet(sel.add), NameSet(sel.ignore), NameSet(sel.remove), Elems(d), Elems(r), Elems(StoredNames(row.models)));
  }

  lemma PartSets<T>(add: set<T>, ignore: set<T>, remove: set<T>, d: set<T>, r: set<T>, local: set<T>)
    requires d !! local && r <= local
    ensures d - add * d - ignore * d == d - add - ignore
    ensures remove * r - add * d == remove * r
  {
  }

  lemma AppliedNext(row: Row, sel: Selection)
    requires Inv(row)
    ensures var o := Outcome(row, sel); o.next == Without(StoredNames(row.models), Elems(o.removed)) + o.added
  {
    AppliedParts(row, sel);
    ApplyNextModels(row, sel);
    WithoutNone(Outcome(row, sel).added, Elems(StoredNames(row.models)));
  }

  /** The models after an apply call as they are read back: the kept ones and the pieces of the
      added names. */
  lemma AppliedPieces(row: Row, sel: Selection, now: int)
    requires Inv(row)
    ensures var o := Outcome(row, sel);
            Elems(StoredNames(ApplyRow(row, sel, now, true).models)) ==
            (Elems(StoredNames(row.models)) - Elems(o.removed)) + NameSet(AllPieces(o.added, ','))
  {
    var o, local := Outcome(row, sel), StoredNames(row.models);
    AppliedParts(row, sel);
    AppliedNext(row, sel);
    StoredNamesCommaFree(row.models);
    NextUnchanged(local, o.added, o.removed);
    if o.next == local {
      assert NameSet(AllPieces([], ',')) == {};
    } else {
      NextPieces(local, Elems(o.removed), o.added);
    }
  }

  lemma NextPieces(local: Names, removed: set<string>, added: Names)
    requires Normal(local) && CommaFree(local)
    ensures Elems(StoredNames(Join(Without(local, removed) + added, ','))) ==
            (Elems(local) - removed) + NameSet(AllPieces(added, ','))
  {
    var kept := Without(local, removed);
    WithoutNormal(local, removed);
    assert CommaFree(kept) by {
      assert forall x :: x in kept ==> x in Elems(kept);
    }
    StoredPieces(kept + added);
    PiecesAppend(kept, added);
    CommaFreePieces(kept);
    NameSetOfNormal(kept);
  }

  /** No pending name that is neither selected nor ignored is a comma-piece of a pending name
      that is selected. */
  predicate NoPieceRemains(pending: Names, sel: Selection) {
    forall x, y :: x in pending && x in NameSet(sel.add) && y in pending && y !in NameSet(sel.add) && y !in NameSet(sel.ignore)
      ==> !IsPiece(y, x)
  }

  /** An apply call keeps the invariant exactly when no comma-piece of an added name stays
      pending. */
  lemma ApplyKeepsInv(row: Row, sel: Selection, now: int)
    requires Inv(row)
    ensures Inv(ApplyRow(row, sel, now, true)) <==> NoPieceRemains(row.settings.detected, sel)
  {
    var o := Outcome(row, sel);
    AppliedParts(row, sel);
    AppliedPieces(row, sel, now);
    PiecesMeet(row.settings.detected, sel, o.added, o.remaining);
  }

  lemma PiecesMeet(pending: Names, sel: Selection, added: Names, remaining: Names)
    requires Elems(added) == NameSet(sel.add) * Elems(pending)
    requires Elems(remaining) == Elems(pending) - NameSet(sel.add) - NameSet(sel.ignore)
    ensures Elems(remaining) !! NameSet(AllPieces(added, ',')) <==> NoPieceRemains(pending, sel)
  {
    assert forall x :: x in added <==> x in Elems(added);
    assert forall x :: x in pending <==> x in Elems(pending);
    forall y
      ensures y in NameSet(AllPieces(added, ',')) <==> AnyIn(added, HasPiece(y))
    {
      PieceOfName(added, y);
    }
    if y :| y in Elems(remaining) && y in NameSet(AllPieces(added, ',')) {
      var x :| x in added && HasPiece(y)(x);
    }
    if x, y :| x in pending && x in NameSet(sel.add) && y in pending && y !in NameSet(sel.add) && y !in NameSet(sel.ignore)
               && IsPiece(y, x) {
      assert x in added && HasPiece(y)(x) && y in Elems(remaining);
    }
  }

  predicate Harmless(row: Row, e: Event) {
    e.Apply? && e.saved ==> NoPieceRemains(row.settings.detected, e.sel)
  }

  lemma StepKeepsInv(row: Row, e: Event, rx: Regex)
    requires Inv(row)
    ensures Inv(Step(row, e, rx)) <==> Harmless(row, e)
  {
    match e {
      case Check(input) => CheckKeepsInv(row, input, rx);
      case Apply(sel, now, saved) =>
        if saved {
          ApplyKeepsInv(row, sel, now);
        }
    }
  }

  /** After every step of any run of checks, automatic syncs and applies, with any selections,
      mappings, upstream lists and write failures, the pending lists fit the model list, exactly
      when no saved apply leaves a comma-piece of an added name pending. */
  lemma EveryRunKeepsInv(row: Row, events: seq<Event>, rx: Regex)
    requires Inv(row)
    ensures Always(row, events, Stepping(rx), Inv) <==> AlwaysHarmless(row, events, Stepping(rx), Harmless)
  {
    forall s: Row, e: Event | Inv(s)
      ensures Inv(Stepping(rx)(s, e)) <==> Harmless(s, e)
    {
      StepKeepsInv(s, e, rx);
    }
    InvariantExactly(row, events, Stepping(rx), Inv, Harmless);
  }

  /** A row whose pending adds can all be stored as they are. */
  predicate Storable(row: Row) {
    Inv(row) && CommaFree(row.settings.detected)
  }

  lemma CommaFreeIsHarmless(pending: Names, sel: Selection)
    requires Normal(pending) && CommaFree(pending)
    ensures NoPieceRemains(pending, sel)
  {
    forall x | x in pending
      ensures NameSet(Split(x, ',')) == {x}
    {
      SplitWhole(x, ',');
      assert IsName(x);
      NameSetOfNormal([x]);
    }
  }

  lemma ApplyKeepsStorable(row: Row, sel: Selection, now: int)
    requires Storable(row)
    ensures Storable(ApplyRow(row, sel, now, true))
  {
    CommaFreeIsHarmless(row.settings.detected, sel);
    ApplyKeepsInv(row, sel, now);
    AppliedParts(row, sel);
    CommaFreePart(row.settings.detected, Outcome(row, sel).remaining);
  }

  lemma CommaFreePart(xs: Names, part: Names)
    requires CommaFree(xs) && Elems(part) <= Elems(xs)
    ensures CommaFree(part)
  {
    assert forall x :: x in part ==> x in Elems(part) && x in Elems(xs);
  }

  lemma CheckKeepsStorable(row: Row, input: CheckInput, rx: Regex)
    requires Storable(row) && (input.fetched.Some? ==> CommaFree(input.fetched.value))
    ensures Storable(CheckRow(row, input, rx))
  {
    CheckKeepsInv(row, input, rx);
    if input.fetched.Some? {
      CollectPendingMeaning(GetModels(row.models), input.fetched.value, row.settings.ignored, input.mapping, rx);
      CommaFreeTrimmed(input.fetched.value);
    }
  }

  /** With upstream lists without commas every run keeps all of it. */
  lemma {:induction false} CommaFreeRunKeepsInv(row: Row, events: seq<Event>, rx: Regex)
    requires Storable(row)
    requires forall i :: 0 <= i < |events| && events[i].Check? && events[i].input.fetched.Some? ==>
               CommaFree(events[i].input.fetched.value)
    ensures Storable(RunOf(row, events, Stepping(rx)))
  {
    if events != [] {
      var e := events[|events| - 1];
      var before := RunOf(row, events[..|events| - 1], Stepping(rx));
      CommaFreeRunKeepsInv(row, events[..|events| - 1], rx);
      match e {
        case Check(input) => CheckKeepsStorable(before, input, rx);
        case Apply(sel, now, saved) =>
          if saved {
            ApplyKeepsStorable(before, sel, now);
          }
      }
    }
  }

  // ----- Convergence -----

  /** A forced check without automatic sync whose fetch and write succeed: the detect endpoint. */
  function Detect(upstream: Names, mapping: map<string, string>, now: int): CheckInput {
    CheckInput(Some(upstream), mapping, now, 0, true, false, true)
  }

  /** The selection of the apply-all endpoint. */
  function AllPending(row: Row): Selection {
    Selection(Normalize(row.settings.detected), [], Normalize(row.settings.removed))
  }

  /** The row after detecting and applying everything pending. */
  function Middle(row: Row, upstream: Names, mapping: map<string, string>, rx: Regex, now: int): Row {
    var found := CheckRow(row, Detect(upstream, mapping, now), rx);
    ApplyRow(found, AllPending(found), now, true)
  }

  /** The row after detecting, applying everything pending and detecting again. */
  function Round(row: Row, upstream: Names, mapping: map<string, string>, rx: Regex, now: int): Row {
    CheckRow(Middle(row, upstream, mapping, rx, now), Detect(upstream, mapping, now), rx)
  }

  /** A name that detection sees and neither the model list nor a mapping target covers. */
  predicate Uncovered(row: Row, upstream: Names, mapping: map<string, string>, x: string) {
    x in NameSet(upstream) && x !in StoredNames(row.models) && x !in mapping.Values
  }

  /** A pattern of the ignore list that upstream also offers as a name, uncovered and hidden by no
      entry: applying everything adds it to the models and strikes it from the list. */
  predicate Adopted(row: Row, upstream: Names, mapping: map<string, string>, rx: Regex, e: string) {
    REGEX_PREFIX <= e && Uncovered(row, upstream, mapping, e) && !Hidden(Normalize(row.settings.ignored), e, rx)
  }

  predicate StaysHidden(row: Row, upstream: Names, mapping: map<string, string>, rx: Regex, x: string) {
    exists e :: e in Normalize(row.settings.ignored) && Hides(e, x, rx) && !Adopted(row, upstream, mapping, rx, e)
  }

  /** Every uncovered upstream name that the ignore list hides is hidden by an entry that is not
      adopted. */
  predicate KeepsHiding(row: Row, upstream: Names, mapping: map<string, string>, rx: Regex) {
    forall x :: x in NameSet(upstream) && Uncovered(row, upstream, mapping, x) && Hidden(Normalize(row.settings.ignored), x, rx)
      ==> StaysHidden(row, upstream, mapping, rx, x)
  }

  /** The struck entries are the adopted ones. */
  lemma StruckEntries(row: Row, upstream: Names, mapping: map<string, string>, rx: Regex, x: string)
    ensures var add := CollectPending(GetModels(row.models), upstream, row.settings.ignored, mapping, rx).0;
            Hidden(Without(Normalize(row.settings.ignored), Elems(add)), x, rx) <==> StaysHidden(row, upstream, mapping, rx, x)
  {
    var ignored := Normalize(row.settings.ignored);
    var add := CollectPending(GetModels(row.models), upstream, row.settings.ignored, mapping, rx).0;
    FilterElems(ignored, e => e !in Elems(add));
    forall e | e in ignored
      ensures e in Elems(add) <==> Adopted(row, upstream, mapping, rx, e)
    {
      AdoptedIsPending(row, upstream, mapping, rx, e);
    }
  }

  lemma AdoptedIsPending(row: Row, upstream: Names, mapping: map<string, string>, rx: Regex, e: string)
    requires e in Normalize(row.settings.ignored)
    ensures e in Elems(CollectPending(GetModels(row.models), upstream, row.settings.ignored, mapping, rx).0)
            <==> Adopted(row, upstream, mapping, rx, e)
  {
    CollectPendingMeaning(GetModels(row.models), upstream, row.settings.ignored, mapping, rx);
    NormalizeIsNormal(GetModels(row.models));
    assert e in StoredNames(row.models) <==> e in Elems(StoredNames(row.models));
    assert !(REGEX_PREFIX <= e) ==> Hides(e, e, rx);
  }

  lemma AppliedAllPending(row: Row, now: int)
    requires Normal(row.settings.detected) && Normal(row.settings.removed)
    requires Elems(row.settings.detected) !! Elems(row.settings.removed)
    ensures var o := Outcome(row, AllPending(row));
            o.added == row.settings.detected && o.ignored == [] && o.removed == row.settings.removed
    ensures NameSet(ApplyRow(row, AllPending(row), now, true).settings.ignored) ==
            NameSet(row.settings.ignored) - Elems(row.settings.detected)
  {
    var s := row.settings;
    NameSetOfNormal(s.detected);
    NameSetOfNormal(s.removed);
    IntersectSelf(s.detected);
    IntersectSelf(s.removed);
    IntersectNothing(s.detected);
    SubtractDisjoint(s.removed, s.detected);
    StruckIgnored(s.ignored, s.detected);
  }

  lemma IntersectSelf(xs: Names)
    requires Normal(xs)
    ensures Intersect(xs, xs) == xs
  {
    NameSetOfNormal(xs);
    FilterAll(xs, x => x in Elems(xs));
  }

  lemma IntersectNothing(xs: Names)
    ensures Intersect([], xs) == []
  {
    IntersectNormal([], xs);
    NoElems(Intersect([], xs));
  }

  lemma SubtractDisjoint(xs: Names, ys: Names)
    requires Normal(xs) && Normal(ys) && Elems(xs) !! Elems(ys)
    ensures Subtract(xs, ys) == xs
  {
    NameSetOfNormal(xs);
    NameSetOfNormal(ys);
    WithoutNone(xs, Elems(ys));
  }

  /** The ignore list after added names are struck from it. */
  lemma StruckIgnored(ignored: Names, added: Names)
    requires Normal(added)
    ensures var merged := Merge(ignored, []);
            NameSet(if added != [] then Subtract(merged, added) else merged) == NameSet(ignored) - Elems(added)
  {
    var merged := Merge(ignored, []);
    MergeNormal(ignored, []);
    NameSetOfNormal(merged);
    NameSetOfNormal(added);
    SubtractNormal(merged, added);
    NameSetOfNormal(Subtract(merged, added));
  }

  /** The row with found names stored as pending. */
  function Found(row: Row, pending: (Names, Names), now: int): Row {
    row.(settings := row.settings.(lastCheck := now, detected := pending.0, removed := pending.1))
  }

  lemma DetectedRow(row: Row, upstream: Names, mapping: map<string, string>, rx: Regex, now: int)
    ensures CheckRow(row, Detect(upstream, mapping, now), rx) ==
            Found(row, CollectPending(GetModels(row.models), upstream, row.settings.ignored, mapping, rx), now)
  {
  }

  /** The row `mid` has exactly the found names applied to row's list and struck from its ignore list. */
  predicate Applies(row: Row, pending: (Names, Names), mid: Row) {
    var (add, remove) := pending;
    && NameSet(mid.settings.ignored) == NameSet(row.settings.ignored) - Elems(add)
    && (CommaFree(add) ==> Elems(StoredNames(mid.models)) == Elems(StoredNames(row.models)) - Elems(remove) + Elems(add))
  }

  /** The row between the two detections of a round. */
  lemma MiddleMeaning(row: Row, upstream: Names, mapping: map<string, string>, rx: Regex, now: int)
    ensures Applies(row, CollectPending(GetModels(row.models), upstream, row.settings.ignored, mapping, rx),
                    Middle(row, upstream, mapping, rx, now))
  {
    var pending := CollectPending(GetModels(row.models), upstream, row.settings.ignored, mapping, rx);
    assert Normal(pending.0) && Normal(pending.1) && Elems(pending.0) !! Elems(pending.1) by {
      CollectPendingMeaning(GetModels(row.models), upstream, row.settings.ignored, mapping, rx);
    }
    AppliedFound(row, pending, now);
    DetectedRow(row, upstream, mapping, rx, now);
  }

  /** The row after everything found is applied. */
  lemma AppliedFound(row: Row, pending: (Names, Names), now: int)
    requires Normal(pending.0) && Normal(pending.1) && Elems(pending.0) !! Elems(pending.1)
    ensures var found := Found(row, pending, now);
            Applies(row, pending, ApplyRow(found, AllPending(found), now, true))
  {
    var found := Found(row, pending, now);
    AppliedAllPending(found, now);
    NameSetOfNormal(pending.0);
    if CommaFree(pending.0) {
      ApplyStores(found, AllPending(found), now);
    }
  }

  /** What a detection leaves pending, name by name. */
  lemma DetectionMeaning(row: Row, upstream: Names, mapping: map<string, string>, rx: Regex, now: int)
    ensures var found := CheckRow(row, Detect(upstream, mapping, now), rx);
            && found.models == row.models
            && (forall x :: x in found.settings.detected <==>
                  && x in NameSet(upstream) && x !in Elems(StoredNames(row.models)) && x !in mapping.Values
                  && !Hidden(Normalize(row.settings.ignored), x, rx))
            && (forall x :: x in found.settings.removed <==>
                  x in Elems(StoredNames(row.models)) && x !in NameSet(upstream) && x !in mapping.Keys)
  {
    DetectedRow(row, upstream, mapping, rx, now);
    CollectPendingMeaning(GetModels(row.models), upstream, row.settings.ignored, mapping, rx);
    NormalizeIsNormal(GetModels(row.models));
  }

  /** The second detection of a round, name by name, in terms of the row before the round. */
  lemma SecondDetection(row: Row, upstream: Names, mapping: map<string, string>, rx: Regex, now: int)
    ensures var add := CollectPending(GetModels(row.models), upstream, row.settings.ignored, mapping, rx).0;
            var last := Round(row, upstream, mapping, rx, now);
            var rest := Without(Normalize(row.settings.ignored), Elems(add));
            && (forall x :: x in last.settings.detected <==>
                  && x in NameSet(upstream) && x !in Elems(StoredNames(last.models)) && x !in mapping.Values
                  && !Hidden(rest, x, rx))
            && (forall x :: x in last.settings.removed <==>
                  x in Elems(StoredNames(last.models)) && x !in NameSet(upstream) && x !in mapping.Keys)
  {
    var pending := CollectPending(GetModels(row.models), upstream, row.settings.ignored, mapping, rx);
    var mid := Middle(row, upstream, mapping, rx, now);
    MiddleMeaning(row, upstream, mapping, rx, now);
    SecondDetectionOf(row, pending, mid, upstream, mapping, rx, now);
  }

  lemma SecondDetectionOf(row: Row, pending: (Names, Names), mid: Row, upstream: Names, mapping: map<string, string>, rx: Regex, now: int)
    requires Applies(row, pending, mid)
    ensures var last := CheckRow(mid, Detect(upstream, mapping, now), rx);
            var rest := Without(Normalize(row.settings.ignored), Elems(pending.0));
            && (forall x :: x in last.settings.detected <==>
                  && x in NameSet(upstream) && x !in Elems(StoredNames(last.models)) && x !in mapping.Values
                  && !Hidden(rest, x, rx))
            && (forall x :: x in last.settings.removed <==>
                  x in Elems(StoredNames(last.models)) && x !in NameSet(upstream) && x !in mapping.Keys)
  {
    DetectionMeaning(mid, upstream, mapping, rx, now);
    HiddenByRest(row.settings.ignored, mid.settings.ignored, Elems(pending.0), rx);
  }

  lemma HiddenByRest(before: Names, after: Names, struck: set<string>, rx: Regex)
    requires NameSet(after) == NameSet(before) - struck
    ensures forall name :: Hidden(Normalize(after), name, rx) <==> Hidden(Without(Normalize(before), struck), name, rx)
  {
    NormalizeIsNormal(before);
    NormalizeIsNormal(after);
    WithoutNormal(Normalize(before), struck);
    HiddenBySameNames(Normalize(after), Without(Normalize(before), struck), rx);
  }

  /** One round of detect, apply everything, detect again leaves nothing pending exactly when
      the pending adds hold no comma and no uncovered upstream name is hidden only by patterns
      that upstream also offers as names, uncovered and hidden by no entry. */
  lemma OneRoundConverges(row: Row, upstream: Names, mapping: map<string, string>, rx: Regex, now: int)
    ensures var add := CollectPending(GetModels(row.models), upstream, row.settings.ignored, mapping, rx).0;
            var last := Round(row, upstream, mapping, rx, now).settings;
            last.detected == [] && last.removed == [] <==> CommaFree(add) && KeepsHiding(row, upstream, mapping, rx)
  {
    var add := CollectPending(GetModels(row.models), upstream, row.settings.ignored, mapping, rx).0;
    if CommaFree(add) {
      CommaFreeRound(row, upstream, mapping, rx, now);
    } else {
      var ignored, last := Normalize(row.settings.ignored), Round(row, upstream, mapping, rx, now);
      CollectPendingMeaning(GetModels(row.models), upstream, row.settings.ignored, mapping, rx);
      SecondDetection(row, upstream, mapping, rx, now);
      var x :| x in add && ',' in x;
      StoredNamesCommaFree(last.models);
      HiddenByFewer(ignored, Elems(add), x, rx);
      assert x in last.settings.detected;
    }
  }

  lemma CommaFreeRound(row: Row, upstream: Names, mapping: map<string, string>, rx: Regex, now: int)
    requires CommaFree(CollectPending(GetModels(row.models), upstream, row.settings.ignored, mapping, rx).0)
    ensures Round(row, upstream, mapping, rx, now).settings.removed == []
    ensures Round(row, upstream, mapping, rx, now).settings.detected == [] <==> KeepsHiding(row, upstream, mapping, rx)
  {
    RoundRemoved(row, upstream, mapping, rx, now);
    var detected := Round(row, upstream, mapping, rx, now).settings.detected;
    NothingIn(detected);
    forall x
      ensures x in detected <==>
              && Uncovered(row, upstream, mapping, x) && Hidden(Normalize(row.settings.ignored), x, rx)
              && !StaysHidden(row, upstream, mapping, rx, x)
    {
      RoundDetects(row, upstream, mapping, rx, now, x);
      StruckEntries(row, upstream, mapping, rx, x);
    }
  }

  lemma RoundModels(row: Row, upstream: Names, mapping: map<string, string>, rx: Regex, now: int)
    requires CommaFree(CollectPending(GetModels(row.models), upstream, row.settings.ignored, mapping, rx).0)
    ensures var (add, remove) := CollectPending(GetModels(row.models), upstream, row.settings.ignored, mapping, rx);
            Elems(StoredNames(Round(row, upstream, mapping, rx, now).models)) ==
            Elems(StoredNames(row.models)) - Elems(remove) + Elems(add)
  {
    MiddleMeaning(row, upstream, mapping, rx, now);
    DetectedRow(Middle(row, upstream, mapping, rx, now), upstream, mapping, rx, now);
  }

  lemma RoundRemoved(row: Row, upstream: Names, mapping: map<string, string>, rx: Regex, now: int)
    requires CommaFree(CollectPending(GetModels(row.models), upstream, row.settings.ignored, mapping, rx).0)
    ensures Round(row, upstream, mapping, rx, now).settings.removed == []
  {
    RoundModels(row, upstream, mapping, rx, now);
    SecondDetection(row, upstream, mapping, rx, now);
    CollectPendingMeaning(GetModels(row.models), upstream, row.settings.ignored, mapping, rx);
    NormalizeIsNormal(GetModels(row.models));
    NothingIn(Round(row, upstream, mapping, rx, now).settings.removed);
  }

  lemma RoundDetects(row: Row, upstream: Names, mapping: map<string, string>, rx: Regex, now: int, x: string)
    requires CommaFree(CollectPending(GetModels(row.models), upstream, row.settings.ignored, mapping, rx).0)
    ensures var add := CollectPending(GetModels(row.models), upstream, row.settings.ignored, mapping, rx).0;
            var ignored := Normalize(row.settings.ignored);
            x in Round(row, upstream, mapping, rx, now).settings.detected <==>
            && x in NameSet(upstream) && x !in mapping.Values && x !in StoredNames(row.models)
            && Hidden(ignored, x, rx) && !Hidden(Without(ignored, Elems(add)), x, rx)
  {
    var (add, remove) := CollectPending(GetModels(row.models), upstream, row.settings.ignored, mapping, rx);
    RoundModels(row, upstream, mapping, rx, now);
    SecondDetection(row, upstream, mapping, rx, now);
    CollectPendingMeaning(GetModels(row.models), upstream, row.settings.ignored, mapping, rx);
    NormalizeIsNormal(GetModels(row.models));
    HiddenByFewer(Normalize(row.settings.ignored), Elems(add), x, rx);
    assert x in StoredNames(row.models) <==> x in Elems(StoredNames(row.models));
    assert x in add <==> x in Elems(add);
    assert x in remove <==> x in Elems(remove);
  }

  lemma NothingIn(xs: Names)
    ensures (forall x :: x in Elems(xs) ==> false) ==> xs == []
  {
    if xs != [] {
      assert xs[0] in Elems(xs);
    }
  }

  lemma HiddenByFewer(ignored: Names, s: set<string>, x: string, rx: Regex)
    ensures Hidden(Without(ignored, s), x, rx) ==> Hidden(ignored, x, rx)
  {
    FilterElems(ignored, e => e !in s);
  }

  lemma HiddenBySameNames(xs: Names, ys: Names, rx: Regex)
    requires Elems(xs) == Elems(ys)
    ensures forall name :: Hidden(xs, name, rx) <==> Hidden(ys, name, rx)
  {
    assert forall x :: x in xs <==> x in Elems(xs);
    assert forall x :: x in ys <==> x in Elems(ys);
  }

  /** No upstream name that looks like a pattern and none with a comma: one round is enough,
      whatever the channel, its ignore list and its mapping hold. */
  lemma PlainUpstreamConverges(row: Row, upstream: Names, mapping: map<string, string>, rx: Regex, now: int)
    requires CommaFree(upstream)
    requires forall x :: x in NameSet(upstream) ==> !(REGEX_PREFIX <= x)
    ensures Round(row, upstream, mapping, rx, now).settings.detected == []
    ensures Round(row, upstream, mapping, rx, now).settings.removed == []
  {
    CollectPendingMeaning(GetModels(row.models), upstream, row.settings.ignored, mapping, rx);
    CommaFreeTrimmed(upstream);
    OneRoundConverges(row, upstream, mapping, rx, now);
  }
}
