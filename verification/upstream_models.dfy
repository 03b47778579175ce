/** One channel row and the steps that reconcile its model list with the upstream list:
    controller/channel_upstream_update.go, with the comma-joined storage of model/channel.go. */
module UpstreamModels {
  import opened Wrappers
  import opened Text
  import opened Lists
  import opened NameLists

  /** The fields of dto.ChannelOtherSettings that these steps read and write. */
  datatype Settings = Settings(
    checkEnabled: bool,
    autoSync: bool,
    lastCheck: int,
    detected: Names,
    removed: Names,
    ignored: Names)

  /** The persisted columns of a channel. */
  datatype Row = Row(models: string, settings: Settings)

  /** regexp.MatchString(pattern, name), false when the pattern does not compile. */
  type Regex = (string, string) -> bool

  // ----- The stored model list -----

  predicate IsComma(c: char) {
    c == ','
  }

  predicate CommaFree(xs: Names) {
    forall x :: x in xs ==> ',' !in x
  }

  function GetModels(models: string): Names {
    if models == "" then [] else Split(Trim(models, IsComma), ',')
  }

  function StoredNames(models: string): Names {
    Normalize(GetModels(models))
  }

  lemma CommaFreeTrimmed(xs: Names)
    requires CommaFree(xs)
    ensures forall x :: x in NameSet(xs) ==> ',' !in x
  {
    forall x | x in NameSet(xs)
      ensures ',' !in x
    {
      var y :| y in xs && TrimSpace(y) == x;
      TrimCutsEnds(y, IsSpace);
    }
  }

  lemma StoredNamesCommaFree(models: string)
    ensures Normal(StoredNames(models)) && CommaFree(StoredNames(models))
  {
    NormalizeIsNormal(GetModels(models));
    CommaFreeTrimmed(GetModels(models));
    assert forall x :: x in StoredNames(models) ==> x in Elems(Normalize(GetModels(models)));
  }

  /** The names a stored list stands for are its non-blank pieces. */
  lemma StoredNamesArePieces(models: string)
    ensures Elems(StoredNames(models)) == NameSet(Split(models, ','))
  {
    NormalizeIsNormal(GetModels(models));
    if models == "" {
      BlankPiece([]);
      assert [""] + [] == [""];
    } else {
      TrimDropsBlanks(models, IsComma, ',');
    }
  }

  /** Any list, saved and read back, stands for the pieces of its names. */
  lemma StoredPieces(xs: Names)
    ensures Elems(StoredNames(Join(xs, ','))) == NameSet(AllPieces(xs, ','))
  {
    StoredNamesArePieces(Join(xs, ','));
    if xs == [] {
      BlankPiece([]);
      assert [""] + [] == [""];
    } else {
      SplitJoinPieces(xs, ',');
    }
  }

  lemma {:induction false} PiecesAppend(xs: Names, ys: Names)
    ensures NameSet(AllPieces(xs + ys, ',')) == NameSet(AllPieces(xs, ',')) + NameSet(AllPieces(ys, ','))
  {
    if xs == [] {
      assert xs + ys == ys;
      NameSetAppend([], AllPieces(ys, ','));
      assert [] + AllPieces(ys, ',') == AllPieces(ys, ',');
    } else {
      assert (xs + ys)[1..] == xs[1..] + ys;
      PiecesAppend(xs[1..], ys);
      NameSetAppend(Split(xs[0], ','), AllPieces(xs[1..] + ys, ','));
      NameSetAppend(Split(xs[0], ','), AllPieces(xs[1..], ','));
    }
  }

  /** Names without commas are their own pieces. */
  lemma {:induction false} CommaFreePieces(xs: Names)
    requires CommaFree(xs)
    ensures AllPieces(xs, ',') == xs
  {
    if xs != [] {
      SplitWhole(xs[0], ',');
      CommaFreePieces(xs[1..]);
    }
  }

  predicate IsPiece(y: string, x: string) {
    y in NameSet(Split(x, ','))
  }

  function HasPiece(y: string): string -> bool {
    x => IsPiece(y, x)
  }

  lemma PiecesFirst(xs: Names)
    requires xs != []
    ensures NameSet(AllPieces(xs, ',')) == NameSet(Split(xs[0], ',')) + NameSet(AllPieces(xs[1..], ','))
  {
    NameSetAppend(Split(xs[0], ','), AllPieces(xs[1..], ','));
  }

  /** A piece of a list is a piece of one of its names. */
  lemma {:induction false} PieceOfName(xs: Names, y: string)
    ensures y in NameSet(AllPieces(xs, ',')) <==> AnyIn(xs, HasPiece(y))
  {
    if xs == [] {
      assert NameSet([]) == {};
    } else {
      PieceOfName(xs[1..], y);
      PiecesFirst(xs);
      AnyInFirst(xs, HasPiece(y));
    }
  }

  /** A joined list of non-empty pieces without commas has no comma at either end. */
  lemma JoinKeepsEnds(xs: seq<string>)
    requires xs != [] && CommaFree(xs) && forall i :: 0 <= i < |xs| ==> |xs[i]| > 0
    ensures Join(xs, ',') != "" && HasNoEnds(Join(xs, ','), IsComma)
  {
    var first, last := xs[0], xs[|xs| - 1];
    assert ',' !in first && ',' !in last;
    JoinEnds(xs, ',');
    assert first[0] in first && last[|last| - 1] in last;
  }

  lemma JoinedPiecesSplitBack(xs: seq<string>)
    requires CommaFree(xs) && forall i :: 0 <= i < |xs| ==> |xs[i]| > 0
    ensures GetModels(Join(xs, ',')) == xs
  {
    if xs != [] {
      JoinKeepsEnds(xs);
      TrimCutsEnds(Join(xs, ','), IsComma);
      SplitJoin(xs, ',');
    }
  }

  lemma JoinedNamesSplitBack(xs: Names)
    requires Normal(xs) && CommaFree(xs)
    ensures GetModels(Join(xs, ',')) == xs
  {
    assert forall i :: 0 <= i < |xs| ==> IsName(xs[i]);
    JoinedPiecesSplitBack(xs);
  }

  /** A saved list is read back as it was written exactly when no name holds a comma. */
  lemma StoredListReadsBack(xs: Names)
    requires Normal(xs)
    ensures StoredNames(Join(xs, ',')) == xs <==> CommaFree(xs)
  {
    if CommaFree(xs) {
      JoinedNamesSplitBack(xs);
      NormalizeIsNormal(xs);
    }
    StoredNamesCommaFree(Join(xs, ','));
  }

  // ----- Detection -----

  const REGEX_PREFIX := "regex:"

  predicate Hides(entry: string, name: string, rx: Regex) {
    if REGEX_PREFIX <= entry then rx(TrimSpace(entry[|REGEX_PREFIX|..]), name) else entry == name
  }

  predicate Hidden(entries: Names, name: string, rx: Regex) {
    exists e :: e in entries && Hides(e, name, rx)
  }

  function CollectPending(local: Names, upstream: Names, ignored: Names, mapping: map<string, string>, rx: Regex)
    : (Names, Names)
  {
    var localModels := Normalize(local);
    var upstreamModels := Normalize(upstream);
    var covered := Elems(localModels) + mapping.Values;
    var normalizedIgnored := Normalize(ignored);
    var add := Filter(upstreamModels, name => name !in covered && !Hidden(normalizedIgnored, name, rx));
    var remove := Filter(localModels, name => name !in mapping.Keys && name !in Elems(upstreamModels));
    (Normalize(add), Normalize(remove))
  }

  /** Both pending lists, name by name: what upstream offers and nothing covers or hides, and
      what the channel has, upstream lacks and no redirect needs. Each keeps its list's order. */
  lemma CollectPendingMeaning(local: Names, upstream: Names, ignored: Names, mapping: map<string, string>, rx: Regex)
    ensures var (add, remove) := CollectPending(local, upstream, ignored, mapping, rx);
            && Normal(add) && Normal(remove)
            && Subsequence(add, Normalize(upstream)) && Subsequence(remove, Normalize(local))
            && (forall x :: x in add <==>
                  && x in NameSet(upstream) && x !in NameSet(local) && x !in mapping.Values
                  && !Hidden(Normalize(ignored), x, rx))
            && (forall x :: x in remove <==>
                  x in NameSet(local) && x !in NameSet(upstream) && x !in mapping.Keys)
  {
    NormalizeIsNormal(local);
    NormalizeIsNormal(upstream);
    var covered := Elems(Normalize(local)) + mapping.Values;
    var ign := Normalize(ignored);
    var up := Normalize(upstream);
    FilteredNames(up, name => name !in covered && !Hidden(ign, name, rx));
    FilteredNames(Normalize(local), name => name !in mapping.Keys && name !in Elems(up));
  }

  lemma FilteredNames(xs: Names, keep: string -> bool)
    requires Normal(xs)
    ensures Normal(Filter(xs, keep)) && Normalize(Filter(xs, keep)) == Filter(xs, keep)
    ensures forall x :: x in Filter(xs, keep) <==> x in Elems(xs) && keep(x)
    ensures Subsequence(Filter(xs, keep), xs)
  {
    FilterElems(xs, keep);
    FilterSubsequence(xs, keep);
    NormalizeIsNormal(Filter(xs, keep));
  }

  // ----- The two persisted steps, as functions of the row -----

  /** One call of checkAndPersistChannelUpstreamModelUpdates. The fetch outcome, the clock and
      whether the database accepts the write are inputs. */
  datatype CheckInput = CheckInput(
    fetched: Option<Names>,
    mapping: map<string, string>,
    now: int,
    minInterval: int,
    force: bool,
    allowAutoApply: bool,
    saved: bool)

  /** The user's selection for applyChannelUpstreamModelUpdates. */
  datatype Selection = Selection(add: Names, ignore: Names, remove: Names)

  /** An unforced check too soon after the last one does nothing. */
  predicate Skipped(row: Row, input: CheckInput) {
    !input.force && row.settings.lastCheck > 0 && input.now - row.settings.lastCheck < input.minInterval
  }

  function CheckRow(row: Row, input: CheckInput, rx: Regex): Row {
    var s := row.settings;
    if Skipped(row, input) then row
    else if !input.saved then row
    else if input.fetched.None? then row.(settings := s.(lastCheck := input.now))
    else
      var (add, remove) := CollectPending(GetModels(row.models), input.fetched.value, s.ignored, input.mapping, rx);
      if input.allowAutoApply && s.autoSync && add != [] then
        Row(Join(Merge(StoredNames(row.models), add), ','),
            s.(lastCheck := input.now, detected := [], removed := remove))
      else
        row.(settings := s.(lastCheck := input.now, detected := add, removed := remove))
  }

  /** A check that returns an error. */
  predicate CheckFails(row: Row, input: CheckInput) {
    !Skipped(row, input) && !(input.saved && input.fetched.Some?)
  }

  /** How many models automatic synchronization adds in a check that succeeds. */
  function AutoAdded(row: Row, input: CheckInput, rx: Regex): nat {
    if Skipped(row, input) || input.fetched.None? || !input.allowAutoApply || !row.settings.autoSync then 0
    else |CollectPending(GetModels(row.models), input.fetched.value, row.settings.ignored, input.mapping, rx).0|
  }

  /** What one apply call reports. */
  datatype Applied = Applied(
    added: Names,
    ignored: Names,
    removed: Names,
    remaining: Names,
    remainingRemove: Names,
    next: Names)

  function Outcome(row: Row, sel: Selection): Applied {
    var pendingAdd := Normalize(row.settings.detected);
    var pendingRemove := Normalize(row.settings.removed);
    var add := Intersect(sel.add, pendingAdd);
    var ignore := Intersect(sel.ignore, pendingAdd);
    var remove := Subtract(Intersect(sel.remove, pendingRemove), add);
    Applied(add, ignore, remove,
            Subtract(pendingAdd, add + ignore),
            Subtract(pendingRemove, remove),
            ApplySelected(StoredNames(row.models), add, remove))
  }

  function ApplyRow(row: Row, sel: Selection, now: int, saved: bool): Row {
    var s, o := row.settings, Outcome(row, sel);
    var merged := Merge(s.ignored, o.ignored);
    if !saved then row
    else
      Row(if o.next == StoredNames(row.models) then row.models else Join(o.next, ','),
          s.(ignored := if o.added != [] then Subtract(merged, o.added) else merged,
             detected := o.remaining, removed := o.remainingRemove, lastCheck := now))
  }

  // ----- What a check leaves -----

  /** What upstream offers and the row neither has, redirects to nor hides. */
  predicate Offered(row: Row, upstream: Names, mapping: map<string, string>, rx: Regex, x: string) {
    && x in NameSet(upstream) && x !in NameSet(GetModels(row.models)) && x !in mapping.Values
    && !exists e :: e in Normalize(row.settings.ignored)
         && (if REGEX_PREFIX <= e then rx(TrimSpace(e[|REGEX_PREFIX|..]), x) else e == x)
  }

  /** A list of exactly the offered names, in the order of the upstream list. */
  ghost predicate FoundNames(row: Row, upstream: Names, mapping: map<string, string>, rx: Regex, found: Names) {
    && Normal(found) && Subsequence(found, Normalize(upstream))
    && forall x :: x in found <==> Offered(row, upstream, mapping, rx, x)
  }

  /** The listed names that upstream lacks and no redirect needs, in the order of the list. */
  ghost predicate MissingNames(row: Row, upstream: Names, mapping: map<string, string>, missing: Names) {
    && Normal(missing) && Subsequence(missing, Normalize(GetModels(row.models)))
    && forall x :: x in missing <==> x in NameSet(GetModels(row.models)) && x !in NameSet(upstream) && x !in mapping.Keys
  }

  /** What a check that fetched, and saved, makes of a row. */
  ghost predicate Detects(row: Row, input: CheckInput, rx: Regex, after: Row, autoAdded: nat)
    requires input.fetched.Some?
  {
    exists found: Names ::
      && FoundNames(row, input.fetched.value, input.mapping, rx, found)
      && MissingNames(row, input.fetched.value, input.mapping, after.settings.removed)
      && (if input.allowAutoApply && row.settings.autoSync && found != []
          then after.models == Join(StoredNames(row.models) + found, ',') && after.settings.detected == [] && autoAdded == |found|
          else after.models == row.models && after.settings.detected == found && autoAdded == 0)
  }

  /** A check never touches the ignore list or the switches, and moves its time exactly when it is
      due and saved. It is due when forced, never made before, or after the interval. Not due, not
      saved or without a fetched list, it leaves the models and both pending lists as they were;
      otherwise it detects. */
  ghost predicate Checked(row: Row, input: CheckInput, rx: Regex, after: Row, autoAdded: nat) {
    var s, s' := row.settings, after.settings;
    var due := input.force || s.lastCheck <= 0 || input.now - s.lastCheck >= input.minInterval;
    && s'.ignored == s.ignored && s'.checkEnabled == s.checkEnabled && s'.autoSync == s.autoSync
    && s'.lastCheck == (if due && input.saved then input.now else s.lastCheck)
    && if due && input.saved && input.fetched.Some? then Detects(row, input, rx, after, autoAdded)
       else after.models == row.models && s'.detected == s.detected && s'.removed == s.removed
  }

  lemma CheckLeaves(row: Row, input: CheckInput, rx: Regex)
    ensures Checked(row, input, rx, CheckRow(row, input, rx), AutoAdded(row, input, rx))
  {
    if !Skipped(row, input) && input.saved && input.fetched.Some? {
      CheckDetects(row, input, rx);
    }
  }

  lemma CheckDetects(row: Row, input: CheckInput, rx: Regex)
    requires !Skipped(row, input) && input.saved && input.fetched.Some?
    ensures Detects(row, input, rx, CheckRow(row, input, rx), AutoAdded(row, input, rx))
  {
    var local, upstream := GetModels(row.models), input.fetched.value;
    var (add, remove) := CollectPending(local, upstream, row.settings.ignored, input.mapping, rx);
    PendingIsFound(row, upstream, input.mapping, rx);
    AutoSyncGrows(row.models, add, input, row.settings.ignored, rx);
    assert FoundNames(row, upstream, input.mapping, rx, add);
  }

  lemma PendingIsFound(row: Row, upstream: Names, mapping: map<string, string>, rx: Regex)
    ensures var (add, remove) := CollectPending(GetModels(row.models), upstream, row.settings.ignored, mapping, rx);
            FoundNames(row, upstream, mapping, rx, add) && MissingNames(row, upstream, mapping, remove)
  {
    CollectPendingMeaning(GetModels(row.models), upstream, row.settings.ignored, mapping, rx);
    forall x
      ensures Hidden(Normalize(row.settings.ignored), x, rx) <==>
              exists e :: e in Normalize(row.settings.ignored)
                && (if REGEX_PREFIX <= e then rx(TrimSpace(e[|REGEX_PREFIX|..]), x) else e == x)
    {
      HidingEntry(Normalize(row.settings.ignored), x, rx);
    }
  }

  lemma HidingEntry(entries: Names, x: string, rx: Regex)
    ensures Hidden(entries, x, rx) <==>
            exists e :: e in entries && (if REGEX_PREFIX <= e then rx(TrimSpace(e[|REGEX_PREFIX|..]), x) else e == x)
  {
    if Hidden(entries, x, rx) {
      var e :| e in entries && Hides(e, x, rx);
    }
    if e :| e in entries && (if REGEX_PREFIX <= e then rx(TrimSpace(e[|REGEX_PREFIX|..]), x) else e == x) {
      assert Hides(e, x, rx);
    }
  }

  /** The channel object these steps load and save. */
  class Channel {
    var models: string
    var settings: Settings

    ghost function Value(): Row
      reads this
    {
      Row(models, settings)
    }

    constructor (row: Row)
      ensures Value() == row
    {
      models, settings := row.models, row.settings;
    }

    /** autoAdded counts the models that automatic synchronization added. */
    method CheckAndPersist(input: CheckInput, rx: Regex) returns (modelsChanged: bool, autoAdded: nat, ok: bool)
      modifies this
      ensures Value() == CheckRow(old(Value()), input, rx)
      ensures Checked(old(Value()), input, rx, Value(), autoAdded)
      ensures ok <==> !CheckFails(old(Value()), input)
      ensures ok <==>
              || (input.fetched.Some? && input.saved)
              || !(input.force || old(settings).lastCheck <= 0 || input.now - old(settings).lastCheck >= input.minInterval)
      ensures ok ==> autoAdded == AutoAdded(old(Value()), input, rx)
      ensures modelsChanged <==> ok && autoAdded > 0
      ensures !modelsChanged ==> models == old(models)
    {
      modelsChanged, autoAdded, ok := false, 0, true;
      CheckLeaves(Value(), input, rx);
      if !input.force {
        if settings.lastCheck > 0 && input.now - settings.lastCheck < input.minInterval {
          return;
        }
      }
      if input.fetched.None? {
        if input.saved {
          settings := settings.(lastCheck := input.now);
        }
        return false, 0, false;
      }
      var pendingAdd, pendingRemove :=
        CollectPending(GetModels(models), input.fetched.value, settings.ignored, input.mapping, rx).0,
        CollectPending(GetModels(models), input.fetched.value, settings.ignored, input.mapping, rx).1;
      var newModels, newDetected := models, pendingAdd;
      if input.allowAutoApply && settings.autoSync && |pendingAdd| > 0 {
        var originModels := Normalize(GetModels(models));
        var mergedModels := MergeModelNames(originModels, pendingAdd);
        AutoSyncGrows(models, pendingAdd, input, settings.ignored, rx);
        if |mergedModels| > |originModels| {
          newModels := Join(mergedModels, ',');
          autoAdded := |mergedModels| - |originModels|;
          modelsChanged := true;
        }
        newDetected := [];
      }
      if !input.saved {
        return false, autoAdded, false;
      }
      models := newModels;
      settings := settings.(lastCheck := input.now, detected := newDetected, removed := pendingRemove);
    }

    method Apply(sel: Selection, now: int, saved: bool) returns (o: Applied, modelsChanged: bool, ok: bool)
      modifies this
      ensures Value() == ApplyRow(old(Value()), sel, now, saved)
      ensures ok == saved
      ensures ok ==> o == Outcome(old(Value()), sel)
      ensures modelsChanged <==> ok && o.next != StoredNames(old(models))
    {
      var pendingAdd := Normalize(settings.detected);
      var pendingRemove := Normalize(settings.removed);
      var addModels := Intersect(sel.add, pendingAdd);
      var ignoreModels := Intersect(sel.ignore, pendingAdd);
      var removeModels := Intersect(sel.remove, pendingRemove);
      removeModels := Subtract(removeModels, addModels);
      var originModels := Normalize(GetModels(models));
      var nextModels := ApplySelected(originModels, addModels, removeModels);
      var newModels := models;
      modelsChanged := originModels != nextModels;
      if modelsChanged {
        newModels := Join(nextModels, ',');
      }
      var ignored := MergeModelNames(settings.ignored, ignoreModels);
      if |addModels| > 0 {
        ignored := Subtract(ignored, addModels);
      }
      var remaining := Subtract(pendingAdd, addModels + ignoreModels);
      var remainingRemove := Subtract(pendingRemove, removeModels);
      o := Applied(addModels, ignoreModels, removeModels, remaining, remainingRemove, nextModels);
      if !saved {
        return o, false, false;
      }
      ok := true;
      models := newModels;
      settings := settings.(ignored := ignored, detected := remaining, removed := remainingRemove, lastCheck := now);
    }
  }

  /** Automatic synchronization adds every pending name: none is in the list yet. */
  lemma AutoSyncGrows(models: string, add: Names, input: CheckInput, ignored: Names, rx: Regex)
    requires input.fetched.Some?
    requires add == CollectPending(GetModels(models), input.fetched.value, ignored, input.mapping, rx).0
    ensures Merge(StoredNames(models), add) == StoredNames(models) + add
    ensures Normalize(StoredNames(models)) == StoredNames(models)
  {
    CollectPendingMeaning(GetModels(models), input.fetched.value, ignored, input.mapping, rx);
    NormalizeIsNormal(GetModels(models));
    NormalizeIsNormal(StoredNames(models));
    NormalizeIsNormal(add);
    assert forall x :: x in Elems(add) ==> x !in Elems(StoredNames(models));
    WithoutNone(add, Elems(StoredNames(models)));
  }
}
