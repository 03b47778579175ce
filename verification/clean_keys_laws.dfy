/** Channels whose keys can be stored one per line: every action keeps them so, and does on the
    stored column what it does on the key list. */
module CleanKeysLaws {
  import opened Wrappers
  import opened Text
  import opened Lists
  import opened NameLists
  import opened MultiKey
  import opened KeyColumn
  import opened StoredKeys
  import opened StoredKeysLaws
  import opened Runs
  import ListLaws = MultiKeyLaws

  /** A column whose keys are clean, and seen by every reader. */
  predicate CleanColumn(column: string, json: Json) {
    column != "" ==>
      && CleanKeys(GetKeys(column, json)) && Counted(column, json)
      && ExistingKeys(column, json) == GetKeys(column, json)
  }

  predicate CleanEvent(e: Event, json: Json) {
    match e
    case Append(request) =>
      CleanColumn(request.text, json) && (NewKeys(request).Some? ==> forall key :: key in NameSet(NewKeys(request).value) ==> CleanKey(key))
    case Replace(text) => CleanColumn(text, json)
    case _ => true
  }

  /** What an action does to the key list; a refused append is an action on no index. */
  function ListEvent(st: Stored, e: Event, json: Json): ListLaws.Event {
    match e
    case Disable(i) => ListLaws.Disable(i)
    case Enable(i) => ListLaws.Enable(i)
    case EnableEvery => ListLaws.EnableEvery
    case DisableEvery => ListLaws.DisableEvery
    case Delete(i) => ListLaws.Delete(i)
    case DeleteFailed => ListLaws.DeleteFailed
    case Append(request) =>
      if st.column == "" then ListLaws.Replace(GetKeys(request.text, json))
      else if NewKeys(request).None? then ListLaws.Disable(-1)
      else ListLaws.Append(NewKeys(request).value)
    case Replace(text) => ListLaws.Replace(GetKeys(text, json))
    case Status(key, status, why, now) => ListLaws.Status(key, status, why, now)
  }

  /** Clean keys are saved as they are. */
  lemma SaveClean(st: Stored, keys: seq<string>, json: Json)
    requires CleanKeys(keys) && keys != []
    ensures var r := Save(st, Join(keys, '\n'), json);
            && r.column == Join(keys, '\n') && CleanColumn(r.column, json) && r.column != ""
            && Listed(r, json) == Saved(Listed(st, json).(keys := keys))
  {
    CleanKeysReadBack(keys, json);
  }

  /** A save that gives no text, or the column itself, keeps the keys. */
  lemma SaveSame(st: Stored, text: string, json: Json)
    requires CleanColumn(st.column, json) && (text == "" || text == st.column)
    ensures var r := Save(st, text, json);
            r.column == st.column && Listed(r, json) == Saved(Listed(st, json))
  {
  }

  lemma SaveText(st: Stored, text: string, json: Json)
    requires CleanColumn(st.column, json) && CleanColumn(text, json)
    ensures var r := Save(st, text, json);
            && CleanColumn(r.column, json)
            && Listed(r, json) == ReplaceKeys(Listed(st, json), GetKeys(text, json))
  {
    if text != "" {
      NoEmptyKeys(text, json);
    }
  }

  lemma NoEmptyKeys(column: string, json: Json)
    requires column != "" && Counted(column, json)
    ensures GetKeys(column, json) != []
  {
  }

  lemma PartClean(keys: seq<string>, part: seq<string>)
    requires CleanKeys(keys) && forall key :: key in part ==> key in keys
    ensures CleanKeys(part)
  {
  }

  lemma ReindexClean(l: KeyState, drop: set<int>)
    requires CleanKeys(l.keys)
    ensures CleanKeys(Reindex(l, drop).keys)
  {
    SurvivorsMeaning(|l.keys|, drop);
    PartClean(l.keys, Reindex(l, drop).keys);
  }

  /** A deletion stores what is left of the list. */
  lemma DeletedClean(st: Stored, l: KeyState, drop: set<int>, json: Json)
    requires CleanColumn(st.column, json) && l.keys == GetKeys(st.column, json)
    ensures var r, left := SaveList(st, Reindex(l, drop), json), Reindex(l, drop);
            && CleanColumn(r.column, json)
            && r.column == (if left.keys == [] then st.column else Join(left.keys, '\n'))
            && Listed(r, json) ==
               if left.keys == [] then KeyState(l.keys, |l.keys|, map[], map[], map[]) else left
  {
    var left := Reindex(l, drop);
    var saving := Stored(st.column, left.size, left.status, left.time, left.reason);
    if st.column != "" {
      ReindexClean(l, drop);
    }
    SavedReindex(l, drop);
    if left.keys != [] {
      SaveClean(saving, left.keys, json);
    } else {
      SaveSame(saving, "", json);
    }
  }

  lemma AppendedClean(existing: seq<string>, newKeys: seq<string>)
    requires CleanKeys(existing) && forall key :: key in NameSet(newKeys) ==> CleanKey(key)
    ensures CleanKeys(existing + Deduped(newKeys, existing))
  {
    NormalizeIsNormal(newKeys);
    WithoutNormal(Normalize(newKeys), NameSet(existing));
    forall key | key in Deduped(newKeys, existing)
      ensures CleanKey(key)
    {
      assert key in Elems(Deduped(newKeys, existing));
      assert key in NameSet(newKeys);
    }
  }

  /** Appending to a column that stands for the given keys. */
  lemma AppendToKeys(st: Stored, keys: seq<string>, newKeys: seq<string>, json: Json)
    requires keys != [] && CleanKeys(keys) && keys == GetKeys(st.column, json)
    requires forall key :: key in NameSet(newKeys) ==> CleanKey(key)
    ensures var r := Save(st, Join(keys + Deduped(newKeys, keys), '\n'), json);
            CleanColumn(r.column, json) && Listed(r, json) == AppendKeys(Listed(st, json), newKeys)
  {
    AppendedClean(keys, newKeys);
    SaveClean(st, keys + Deduped(newKeys, keys), json);
  }

  lemma AppendMore(st: Stored, request: KeyText, newKeys: seq<string>, json: Json)
    requires st.column != "" && CleanColumn(st.column, json) && NewKeys(request) == Some(newKeys)
    requires forall key :: key in NameSet(newKeys) ==> CleanKey(key)
    ensures CleanColumn(AppendAt(st, request, json).column, json)
    ensures Listed(AppendAt(st, request, json), json) == AppendKeys(Listed(st, json), newKeys)
  {
    var keys := GetKeys(st.column, json);
    NoEmptyKeys(st.column, json);
    AppendToKeys(st, keys, newKeys, json);
    assert AppendedText(st.column, newKeys, json) == Join(keys + Deduped(newKeys, keys), '\n');
  }

  lemma AppendFirst(st: Stored, request: KeyText, json: Json)
    requires st.column == "" && CleanColumn(request.text, json)
    ensures CleanColumn(AppendAt(st, request, json).column, json)
    ensures Listed(AppendAt(st, request, json), json) == ReplaceKeys(Listed(st, json), GetKeys(request.text, json))
  {
    SaveText(st, request.text, json);
  }

  /** What an append request does to the key list of a channel. */
  function AppendedList(l: KeyState, st: Stored, request: KeyText, json: Json): KeyState {
    if st.column == "" then ReplaceKeys(l, GetKeys(request.text, json))
    else if NewKeys(request).None? then l
    else AppendKeys(l, NewKeys(request).value)
  }

  lemma ListAppends(l: KeyState, st: Stored, request: KeyText, json: Json)
    ensures ListLaws.Step(l, ListEvent(st, Append(request), json)) == AppendedList(l, st, request, json)
  {
  }

  lemma AppendClean(st: Stored, request: KeyText, json: Json)
    requires CleanColumn(st.column, json) && CleanEvent(Append(request), json)
    ensures CleanColumn(AppendAt(st, request, json).column, json)
    ensures Listed(AppendAt(st, request, json), json) == AppendedList(Listed(st, json), st, request, json)
  {
    if st.column == "" {
      AppendFirst(st, request, json);
    } else if NewKeys(request).Some? {
      AppendMore(st, request, NewKeys(request).value, json);
    }
  }

  lemma ChangeClean(st: Stored, e: Event, json: Json)
    requires CleanColumn(st.column, json) && (e.Disable? || e.Enable? || e.EnableEvery? || e.DisableEvery?)
    ensures Step(st, e, json).column == st.column
    ensures Listed(Step(st, e, json), json) == ListLaws.Step(Listed(st, json), ListEvent(st, e, json))
  {
    match e {
      case Disable(i) => SaveSame(st.(status := st.status[i := MANUALLY_DISABLED]), st.column, json);
      case Enable(i) =>
        SaveSame(st.(status := st.status - {i}, time := st.time - {i}, reason := st.reason - {i}), st.column, json);
      case EnableEvery => SaveSame(st.(status := map[], time := map[], reason := map[]), st.column, json);
      case DisableEvery => SaveSame(st.(status := DisabledBelow(st.status, st.size)), st.column, json);
    }
  }

  lemma DeleteClean(st: Stored, i: int, json: Json)
    requires CleanColumn(st.column, json)
    ensures CleanColumn(DeleteAt(st, i, json).column, json)
    ensures Listed(DeleteAt(st, i, json), json) == DeleteKey(Listed(st, json), i)
  {
    SavedReindex(Listed(st, json), {i});
    DeletedClean(st, Listed(st, json), {i}, json);
  }

  lemma DeleteFailedClean(st: Stored, json: Json)
    requires CleanColumn(st.column, json)
    ensures CleanColumn(DeleteFailedAt(st, json).column, json)
    ensures Listed(DeleteFailedAt(st, json), json) == DeleteDisabled(Listed(st, json))
  {
    var l := Listed(st, json);
    var kept := l.(time := OfDisabled(l.time, l.status), reason := OfDisabled(l.reason, l.status));
    SavedReindex(kept, Failed(l));
    DeletedClean(st, kept, Failed(l), json);
  }

  /** On a clean column with clean input every action leaves a clean column and does to the keys
      and their records what it does to a key list. */
  lemma CleanStep(st: Stored, e: Event, json: Json)
    requires CleanColumn(st.column, json) && CleanEvent(e, json)
    ensures CleanColumn(Step(st, e, json).column, json)
    ensures Listed(Step(st, e, json), json) == ListLaws.Step(Listed(st, json), ListEvent(st, e, json))
  {
    match e {
      case Delete(i) => DeleteClean(st, i, json);
      case DeleteFailed => DeleteFailedClean(st, json);
      case Append(request) =>
        AppendClean(st, request, json);
        ListAppends(Listed(st, json), st, request, json);
      case Replace(text) => SaveText(st, text, json);
      case Status(key, status, why, now) => ListedStatus(st, key, status, why, now, json);
      case _ => ChangeClean(st, e, json);
    }
  }

  function ListEvents(st: Stored, events: seq<Event>, json: Json): seq<ListLaws.Event> {
    if events == [] then []
    else
      var front := events[..|events| - 1];
      ListEvents(st, front, json) + [ListEvent(RunOf(st, front, Stepping(json)), events[|events| - 1], json)]
  }

  /** So a run with clean input on a clean column is the run on the key list. */
  lemma {:induction false} CleanRun(st: Stored, events: seq<Event>, json: Json)
    requires CleanColumn(st.column, json)
    requires forall i :: 0 <= i < |events| ==> CleanEvent(events[i], json)
    ensures CleanColumn(RunOf(st, events, Stepping(json)).column, json)
    ensures Listed(RunOf(st, events, Stepping(json)), json) ==
            RunOf(Listed(st, json), ListEvents(st, events, json), ListLaws.Step)
  {
    if events != [] {
      var front, last := events[..|events| - 1], events[|events| - 1];
      CleanRun(st, front, json);
      var before := RunOf(st, front, Stepping(json));
      CleanStep(before, last, json);
      var le := ListEvents(st, events, json);
      assert le[..|le| - 1] == ListEvents(st, front, json);
    }
  }

  // ----- Bulk deletion against single deletions -----

  /** delete_key on each of the given indices from n - 1 down to k, reading the column each time. */
  function DeleteDown(st: Stored, drop: set<int>, n: nat, k: nat, json: Json): Stored
    requires k <= n
    decreases n - k
  {
    if k == n then st
    else if k in drop then DeleteAt(DeleteDown(st, drop, n, k + 1, json), k, json)
    else DeleteDown(st, drop, n, k + 1, json)
  }

  /** delete_key on each failed index from the highest down. */
  function DeleteEach(st: Stored, json: Json): Stored {
    DeleteDown(st, Failed(Listed(st, json)), |GetKeys(st.column, json)|, 0, json)
  }

  /** The column is the keys, one per line. */
  predicate Canonical(st: Stored, json: Json) {
    st.column == Join(GetKeys(st.column, json), '\n')
  }

  /** A column is clean, stands for a key list, and is the first one or the keys, one per line. */
  predicate Follows(st: Stored, first: Stored, l: KeyState, json: Json) {
    CleanColumn(st.column, json) && Listed(st, json) == l && (st == first || Canonical(st, json))
  }

  lemma DeletedFollows(st: Stored, first: Stored, l: KeyState, i: int, json: Json)
    requires Follows(st, first, l, json)
    ensures Follows(DeleteAt(st, i, json), first, DeleteKey(l, i), json)
  {
    SavedReindex(l, {i});
    DeletedClean(st, l, {i}, json);
    DeleteClean(st, i, json);
  }

  lemma {:induction false} DownFollows(st: Stored, l: KeyState, k: nat, json: Json)
    requires Follows(st, st, l, json) && k <= |l.keys|
    ensures Follows(DeleteDown(st, Failed(l), |l.keys|, k, json), st, ListLaws.DeleteFrom(l, k), json)
    decreases |l.keys| - k
  {
    if k < |l.keys| {
      DownFollows(st, l, k + 1, json);
      DeletedFollows(DeleteDown(st, Failed(l), |l.keys|, k + 1, json), st, ListLaws.DeleteFrom(l, k + 1), k, json);
    }
  }

  lemma {:induction false} NoneDeleted(st: Stored, n: nat, k: nat, json: Json)
    requires k <= n
    ensures DeleteDown(st, {}, n, k, json) == st
    decreases n - k
  {
    if k < n {
      NoneDeleted(st, n, k + 1, json);
    }
  }

  lemma BulkCanonical(st: Stored, json: Json)
    requires CleanColumn(st.column, json)
    requires Survivors(|GetKeys(st.column, json)|, Failed(Listed(st, json))) != [] && Failed(Listed(st, json)) != {}
    ensures Canonical(DeleteFailedAt(st, json), json)
    ensures |GetKeys(DeleteFailedAt(st, json).column, json)| < |GetKeys(st.column, json)|
  {
    var l := Listed(st, json);
    var kept := l.(time := OfDisabled(l.time, l.status), reason := OfDisabled(l.reason, l.status));
    SavedReindex(kept, Failed(l));
    DeletedClean(st, kept, Failed(l), json);
    DeleteFailedClean(st, json);
    var i :| i in Failed(l);
    FewerSurvivors(|l.keys|, Failed(l), i);
  }

  /** On a clean column delete_disabled_keys leaves exactly what delete_key on every failed index,
      from the highest to the lowest, leaves, if and only if nothing failed, or a key survives and
      no surviving enabled key has a record. */
  lemma BulkEqualsIterated(st: Stored, json: Json)
    requires CleanColumn(st.column, json) && st.size == |GetKeys(st.column, json)|
    ensures var l := Listed(st, json);
            DeleteFailedAt(st, json) == DeleteEach(st, json)
            <==> Failed(l) == {} || (Survivors(|l.keys|, Failed(l)) != [] && ListLaws.NoStrayRecords(l))
  {
    var l := Listed(st, json);
    DownFollows(st, l, 0, json);
    DeleteFailedClean(st, json);
    ListLaws.BulkEqualsIterated(l);
    if Failed(l) == {} {
      NoneDeleted(st, |l.keys|, 0, json);
    } else if Survivors(|l.keys|, Failed(l)) != [] && ListLaws.NoStrayRecords(l) {
      BulkCanonical(st, json);
      SameStored(DeleteFailedAt(st, json), DeleteEach(st, json), json);
    }
  }

  lemma SameStored(a: Stored, b: Stored, json: Json)
    requires Listed(a, json) == Listed(b, json) && Canonical(a, json) && Canonical(b, json)
    ensures a == b
  {
  }

  /** Under the invariant of every run, one surviving key is all it takes. */
  lemma ValidBulkEqualsIterated(st: Stored, json: Json)
    requires CleanColumn(st.column, json) && Valid(st, json)
    requires Survivors(|GetKeys(st.column, json)|, Failed(Listed(st, json))) != []
    ensures DeleteFailedAt(st, json) == DeleteEach(st, json)
  {
    BulkEqualsIterated(st, json);
    forall i | i in Survivors(|GetKeys(st.column, json)|, Failed(Listed(st, json))) && (i in st.time || i in st.reason)
      ensures StatusOf(st.status, i) != ENABLED
    {
      assert i in st.time.Keys || i in st.reason.Keys;
      assert i in st.status.Keys;
    }
  }

  /** When every key failed, on any column, bulk deletion keeps the column and forgets that they
      failed. */
  lemma NoneLeft(st: Stored, json: Json)
    requires Failed(Listed(st, json)) != {} && Survivors(|GetKeys(st.column, json)|, Failed(Listed(st, json))) == []
    ensures DeleteFailedAt(st, json) == Stored(st.column, CountKeys(st.column, json), map[], map[], map[])
  {
  }

  // ----- Appending keys -----

  /** Appending clean keys keeps every old key at its index and every record, and adds trimmed keys
      that neither repeat nor equal an old one; the same request again changes nothing. */
  lemma AppendAddsOnlyNewKeys(st: Stored, request: KeyText, json: Json)
    requires CleanColumn(st.column, json) && Valid(st, json) && st.column != ""
    requires CleanEvent(Append(request), json) && NewKeys(request).Some?
    ensures var old', r, newKeys := GetKeys(st.column, json), AppendAt(st, request, json), NewKeys(request).value;
            var keys := GetKeys(r.column, json);
            && Valid(r, json) && old' <= keys && r.status == st.status && r.time == st.time && r.reason == st.reason
            && Normal(keys[|old'|..]) && Elems(keys[|old'|..]) == NameSet(newKeys) - NameSet(old')
            && AppendAt(r, request, json) == r
  {
    var r, newKeys := AppendAt(st, request, json), NewKeys(request).value;
    var l := Listed(st, json);
    NoEmptyKeys(st.column, json);
    AppendMore(st, request, newKeys, json);
    ListLaws.AppendAddsOnlyNewKeys(l, newKeys);
    AppendedCanonical(st, request, json);
    AppendMore(r, request, newKeys, json);
    AppendedCanonical(r, request, json);
    SameStored(AppendAt(r, request, json), r, json);
  }

  lemma AppendedCanonical(st: Stored, request: KeyText, json: Json)
    requires CleanColumn(st.column, json) && st.column != "" && NewKeys(request).Some?
    requires forall key :: key in NameSet(NewKeys(request).value) ==> CleanKey(key)
    ensures var r := AppendAt(st, request, json);
            r.column != "" && Canonical(r, json) && CleanColumn(r.column, json) && Counted(r.column, json)
  {
    var keys, newKeys := GetKeys(st.column, json), NewKeys(request).value;
    NoEmptyKeys(st.column, json);
    AppendedClean(keys, newKeys);
    CleanKeysReadBack(keys + Deduped(newKeys, keys), json);
  }
}
