/** What the multi-key actions keep over every run on the stored column, when a run is the run on
    key lists, and when bulk deletion agrees with deleting one key at a time. */
module StoredKeysLaws {
  import opened Wrappers
  import opened Text
  import opened Lists
  import opened NameLists
  import opened MultiKey
  import opened KeyColumn
  import opened StoredKeys
  import opened Runs
  import ListLaws = MultiKeyLaws

  // ----- The invariant of every run -----

  /** Update counts as many keys as every reader sees. */
  predicate Counted(column: string, json: Json) {
    CountKeys(column, json) == |GetKeys(column, json)|
  }

  /** The only column that is counted differently is an array without elements. */
  lemma CountedExactly(column: string, json: Json)
    ensures Counted(column, json) <==> !(column != "" && Bracketed(column) && json(TrimSpace(column)) == Some([]))
  {
  }

  /** The size is the number of keys; every index is below it; no "enabled" status is stored and no
      time or reason without a status. */
  predicate Valid(st: Stored, json: Json) {
    Counted(st.column, json) && Listed(st, json).Valid()
  }

  function Holds(json: Json): Stored -> bool {
    st => Valid(st, json)
  }

  datatype Event =
    | Disable(index: int)
    | Enable(index: int)
    | EnableEvery
    | DisableEvery
    | Delete(index: int)
    | DeleteFailed
    | Append(request: KeyText)
    | Replace(text: string)
    | Status(key: string, status: int, why: string, now: int)

  function Step(st: Stored, e: Event, json: Json): Stored {
    match e
    case Disable(i) => DisableAt(st, i, json)
    case Enable(i) => EnableAt(st, i, json)
    case EnableEvery => EnableEveryAt(st, json)
    case DisableEvery => DisableEveryAt(st, json)
    case Delete(i) => DeleteAt(st, i, json)
    case DeleteFailed => DeleteFailedAt(st, json)
    case Append(request) => AppendAt(st, request, json)
    case Replace(text) => ReplaceAt(st, text, json)
    case Status(key, status, why, now) => SetStatusAt(st, key, status, why, now, json)
  }

  function Stepping(json: Json): (Stored, Event) -> Stored {
    (st, e) => Step(st, e, json)
  }

  /** No time or reason at or above the number of keys that are read back from a column. */
  predicate RecordsFit(time: map<int, int>, reason: map<int, string>, column: string, json: Json) {
    Counted(column, json) && forall i :: i in time.Keys + reason.Keys ==> i < |GetKeys(column, json)|
  }

  /** The records of a list fit the column it is saved to. */
  predicate ListFits(column: string, left: KeyState, json: Json) {
    RecordsFit(left.time, left.reason, Kept(column, Join(left.keys, '\n')), json)
  }

  /** What a caller checks before a step: that the records it leaves fit the column it leaves, or,
      when the relay enables a key, that the key has none. */
  predicate Harmless(st: Stored, e: Event, json: Json) {
    var l := Listed(st, json);
    match e
    case Delete(i) => 0 <= i < st.size && Survivors(|l.keys|, {i}) != [] ==> ListFits(st.column, Reindex(l, {i}), json)
    case DeleteFailed => Failed(l) != {} ==> ListFits(st.column, WithoutFailures(l), json)
    case Append(request) =>
      if st.column == "" then RecordsFit(st.time, st.reason, request.text, json)
      else NewKeys(request).Some? ==>
             RecordsFit(st.time, st.reason, Kept(st.column, AppendedText(st.column, NewKeys(request).value, json)), json)
    case Replace(text) => RecordsFit(st.time, st.reason, Kept(st.column, text), json)
    case Status(key, status, _, _) =>
      status == ENABLED ==> IndexOf(l.keys, key) !in st.time && IndexOf(l.keys, key) !in st.reason
    case _ => true
  }

  function HarmlessFor(json: Json): (Stored, Event) -> bool {
    (st, e) => Harmless(st, e, json)
  }

  /** Records as every action keeps them. */
  predicate Coherent(status: map<int, int>, time: map<int, int>, reason: map<int, string>) {
    && (forall i :: i in status ==> 0 <= i && status[i] != ENABLED)
    && time.Keys <= status.Keys && reason.Keys <= status.Keys
  }

  lemma SavedValid(st: Stored, text: string, json: Json)
    requires Coherent(st.status, st.time, st.reason)
    ensures Valid(Save(st, text, json), json) <==> RecordsFit(st.time, st.reason, Kept(st.column, text), json)
  {
    var r := Save(st, text, json);
    assert forall i :: i in st.time.Keys + st.reason.Keys ==> i in st.status.Keys;
    assert forall i :: i in r.status.Keys <==> i in st.status.Keys && i < r.size;
    if Valid(r, json) {
      assert r.time.Keys <= r.status.Keys && r.reason.Keys <= r.status.Keys;
    }
  }

  lemma SameColumnValid(st: Stored, next: Stored, json: Json)
    requires Valid(st, json) && next.column == st.column && Coherent(next.status, next.time, next.reason)
    requires next.time.Keys <= st.time.Keys && next.reason.Keys <= st.reason.Keys
    ensures Valid(Save(next, st.column, json), json)
  {
    assert forall i :: i in next.time.Keys + next.reason.Keys ==> i in st.status.Keys;
    SavedValid(next, st.column, json);
  }

  /** Saving other records on the same column changes just the records. */
  lemma SavedAgain(st: Stored, status: map<int, int>, time: map<int, int>, reason: map<int, string>, json: Json)
    requires Valid(st, json) && forall i :: i in status ==> i < st.size
    ensures Save(Stored(st.column, st.size, status, time, reason), st.column, json) == Stored(st.column, st.size, status, time, reason)
  {
  }

  lemma ListSavedValid(st: Stored, left: KeyState, json: Json)
    requires left.Valid()
    ensures Valid(SaveList(st, left, json), json) <==> ListFits(st.column, left, json)
  {
    SavedValid(Stored(st.column, left.size, left.status, left.time, left.reason), Join(left.keys, '\n'), json);
  }

  lemma ChangeValid(st: Stored, e: Event, json: Json)
    requires Valid(st, json) && (e.Disable? || e.Enable? || e.EnableEvery? || e.DisableEvery?)
    ensures Valid(Step(st, e, json), json)
  {
    match e {
      case Disable(i) =>
        if 0 <= i < st.size {
          SameColumnValid(st, st.(status := st.status[i := MANUALLY_DISABLED]), json);
        }
      case Enable(i) =>
        if 0 <= i < st.size {
          EnabledCoherent(st, i, json);
          SameColumnValid(st, st.(status := st.status - {i}, time := st.time - {i}, reason := st.reason - {i}), json);
        }
      case EnableEvery => SameColumnValid(st, st.(status := map[], time := map[], reason := map[]), json);
      case DisableEvery => SameColumnValid(st, st.(status := DisabledBelow(st.status, st.size)), json);
    }
  }

  lemma EnabledCoherent(st: Stored, i: int, json: Json)
    requires Valid(st, json)
    ensures Coherent(st.status - {i}, st.time - {i}, st.reason - {i})
  {
    assert st.time.Keys - {i} <= st.status.Keys - {i} && st.reason.Keys - {i} <= st.status.Keys - {i};
  }

  lemma CoherentWithout(status: map<int, int>, time: map<int, int>, reason: map<int, string>, i: int)
    requires Coherent(status, time, reason)
    ensures Coherent(status - {i}, time, reason) <==> i !in time && i !in reason
  {
    assert (status - {i}).Keys == status.Keys - {i};
    assert i in time.Keys <==> i in time;
    assert i in reason.Keys <==> i in reason;
  }

  lemma CoherentWith(status: map<int, int>, time: map<int, int>, reason: map<int, string>, i: nat, s: int, now: int, why: string)
    requires Coherent(status, time, reason) && s != ENABLED
    ensures Coherent(status[i := s], time[i := now], reason[i := why])
  {
    assert time[i := now].Keys == time.Keys + {i} && reason[i := why].Keys == reason.Keys + {i};
    assert status[i := s].Keys == status.Keys + {i};
  }

  lemma ListedValid(l: KeyState)
    ensures l.Valid() <==> l.size == |l.keys| && Coherent(l.status, l.time, l.reason) && forall i :: i in l.status ==> i < l.size
  {
  }

  /** The relay's update on a key list. */
  lemma ListStatusValid(l: KeyState, key: string, status: int, why: string, now: int)
    requires l.Valid()
    ensures var i := IndexOf(l.keys, key);
            SetStatus(l, key, status, why, now).Valid() <==> (status == ENABLED ==> i !in l.time && i !in l.reason)
  {
    var i := IndexOf(l.keys, key);
    ListedValid(l);
    ListedValid(SetStatus(l, key, status, why, now));
    CoherentWithout(l.status, l.time, l.reason, i);
    if i >= 0 && status != ENABLED {
      CoherentWith(l.status, l.time, l.reason, i, status, now, why);
    }
  }

  lemma ListedStatus(st: Stored, key: string, status: int, why: string, now: int, json: Json)
    ensures var r := SetStatusAt(st, key, status, why, now, json);
            r.column == st.column && Listed(r, json) == SetStatus(Listed(st, json), key, status, why, now)
  {
  }

  /** Enabling a failed key again keeps its time and reason, so a record without a status is left
      exactly when there was one. */
  lemma StatusValid(st: Stored, key: string, status: int, why: string, now: int, json: Json)
    requires Valid(st, json)
    ensures Valid(SetStatusAt(st, key, status, why, now, json), json) <==> Harmless(st, Status(key, status, why, now), json)
  {
    ListStatusValid(Listed(st, json), key, status, why, now);
    ListedStatus(st, key, status, why, now, json);
  }

  /** Every step keeps the invariant exactly when it is harmless. */
  lemma StepValid(st: Stored, e: Event, json: Json)
    requires Valid(st, json)
    ensures Valid(Step(st, e, json), json) <==> Harmless(st, e, json)
  {
    var l := Listed(st, json);
    match e {
      case Delete(i) =>
        ListLaws.ReindexValid(l, {i});
        ListSavedValid(st, Reindex(l, {i}), json);
      case DeleteFailed =>
        ListLaws.WithoutFailuresValid(l);
        ListSavedValid(st, WithoutFailures(l), json);
      case Append(request) =>
        if st.column == "" {
          SavedValid(st, request.text, json);
        } else if NewKeys(request).Some? {
          SavedValid(st, AppendedText(st.column, NewKeys(request).value, json), json);
        }
      case Replace(text) => SavedValid(st, text, json);
      case Status(key, status, why, now) => StatusValid(st, key, status, why, now, json);
      case _ => ChangeValid(st, e, json);
    }
  }

  /** After every step of any run of actions, appends, replacements and status changes, with every
      column read back as it was written, the invariant holds, exactly when every step of the run
      is harmless. */
  lemma EveryRunValid(st: Stored, events: seq<Event>, json: Json)
    requires Valid(st, json)
    ensures Always(st, events, Stepping(json), Holds(json)) <==> AlwaysHarmless(st, events, Stepping(json), HarmlessFor(json))
  {
    forall s: Stored, e: Event | Holds(json)(s)
      ensures Holds(json)(Stepping(json)(s, e)) <==> HarmlessFor(json)(s, e)
    {
      StepValid(s, e, json);
    }
    InvariantExactly(st, events, Stepping(json), Holds(json), HarmlessFor(json));
  }
}
