/** Multi-key channels as key lists: what the actions of ManageMultiKeys and UpdateChannel
    (controller/channel.go) do to a list of keys and the maps of status, time and reason by index,
    absent meaning enabled, and the loops that do it. */
module MultiKey {
  import opened Text
  import opened Lists
  import opened NameLists

  const ENABLED := 1
  const MANUALLY_DISABLED := 2
  const AUTO_DISABLED := 3

  function StatusOf(status: map<int, int>, i: int): int {
    if i in status then status[i] else ENABLED
  }

  datatype KeyState = KeyState(
    keys: seq<string>,
    size: nat,
    status: map<int, int>,
    time: map<int, int>,
    reason: map<int, string>)
  {
    /** Indices below the size, no stored status "enabled", no record of an enabled key. */
    predicate Valid() {
      && size == |keys|
      && (forall i :: i in status ==> 0 <= i < size && status[i] != ENABLED)
      && time.Keys <= status.Keys && reason.Keys <= status.Keys
    }
  }

  // ----- Re-indexing -----

  /** The indices below n that are not dropped, in order. */
  function Survivors(n: nat, drop: set<int>): seq<int> {
    if n == 0 then [] else Survivors(n - 1, drop) + if n - 1 in drop then [] else [n - 1]
  }

  predicate IndicesBelow(s: seq<int>, n: nat) {
    forall j :: 0 <= j < |s| ==> 0 <= s[j] < n
  }

  function Pick<T>(xs: seq<T>, s: seq<int>): seq<T>
    requires IndicesBelow(s, |xs|)
  {
    seq(|s|, j requires 0 <= j < |s| => xs[s[j]])
  }

  /** The map of the new indices: j stands for the old index s[j]. */
  function Reindexed<V>(m: map<int, V>, s: seq<int>): map<int, V> {
    map j | 0 <= j < |s| && s[j] in m :: m[s[j]]
  }

  lemma {:induction false} SurvivorsMeaning(n: nat, drop: set<int>)
    ensures IndicesBelow(Survivors(n, drop), n)
    ensures forall i, j :: 0 <= i < j < |Survivors(n, drop)| ==> Survivors(n, drop)[i] < Survivors(n, drop)[j]
    ensures forall i :: 0 <= i < n && i !in drop <==> i in Survivors(n, drop)
  {
    if n > 0 {
      SurvivorsMeaning(n - 1, drop);
    }
  }

  lemma {:induction false} SurvivorsCongruent(n: nat, drop: set<int>, drop': set<int>)
    requires forall i :: 0 <= i < n ==> (i in drop <==> i in drop')
    ensures Survivors(n, drop) == Survivors(n, drop')
  {
    if n > 0 {
      SurvivorsCongruent(n - 1, drop, drop');
    }
  }

  lemma {:induction false} SurvivorsOfNone(n: nat, drop: set<int>)
    requires forall i :: 0 <= i < n ==> i !in drop
    ensures |Survivors(n, drop)| == n && forall i :: 0 <= i < n ==> Survivors(n, drop)[i] == i
  {
    if n > 0 {
      SurvivorsOfNone(n - 1, drop);
    }
  }

  lemma ReindexedNext<V>(m: map<int, V>, s: seq<int>, x: int)
    ensures Reindexed(m, s + [x]) == if x in m then Reindexed(m, s)[|s| := m[x]] else Reindexed(m, s)
  {
  }

  lemma PickNext<T>(xs: seq<T>, s: seq<int>, x: int)
    requires IndicesBelow(s, |xs|) && 0 <= x < |xs|
    ensures Pick(xs, s + [x]) == Pick(xs, s) + [xs[x]]
  {
  }

  /** Dropping the p-th survivor drops its old index. */
  lemma {:induction false} DropAgain(n: nat, drop: set<int>, p: nat)
    requires p < |Survivors(n, drop)|
    ensures IndicesBelow(Survivors(|Survivors(n, drop)|, {p}), |Survivors(n, drop)|)
    ensures Pick(Survivors(n, drop), Survivors(|Survivors(n, drop)|, {p})) == Survivors(n, drop + {Survivors(n, drop)[p]})
  {
    SurvivorsMeaning(|Survivors(n, drop)|, {p});
    if n - 1 in drop {
      DropAgain(n - 1, drop, p);
    } else if p == |Survivors(n - 1, drop)| {
      DropLast(n, drop);
    } else {
      DropAgain(n - 1, drop, p);
      DropEarlier(n, drop, p);
    }
  }

  lemma DropLast(n: nat, drop: set<int>)
    requires n > 0 && n - 1 !in drop
    ensures var s, p := Survivors(n, drop), |Survivors(n - 1, drop)|;
            && |s| == p + 1 && s[p] == n - 1 && IndicesBelow(Survivors(|s|, {p}), |s|)
            && Pick(s, Survivors(|s|, {p})) == Survivors(n, drop + {n - 1})
  {
    var front := Survivors(n - 1, drop);
    SurvivorsNext(n - 1, drop);
    WithoutLast(n, drop);
    LastAlone(|front|);
    PickAll(front, Survivors(|front|, {|front|}));
    PickFront(front, n - 1, Survivors(|front|, {|front|}));
  }

  lemma WithoutLast(n: nat, drop: set<int>)
    requires n > 0 && n - 1 !in drop
    ensures Survivors(n, drop + {n - 1}) == Survivors(n - 1, drop)
  {
    SurvivorsNext(n - 1, drop + {n - 1});
    SurvivorsCongruent(n - 1, drop, drop + {n - 1});
  }

  lemma LastAlone(p: nat)
    ensures var t := Survivors(p, {p});
            && Survivors(p + 1, {p}) == t
            && |t| == p && forall i :: 0 <= i < p ==> t[i] == i
  {
    SurvivorsNext(p, {p});
    SurvivorsOfNone(p, {p});
  }

  lemma SurvivorsNext(i: nat, drop: set<int>)
    ensures Survivors(i + 1, drop) == if i in drop then Survivors(i, drop) else Survivors(i, drop) + [i]
  {
    assert Survivors(i, drop) + [] == Survivors(i, drop);
  }

  lemma DropEarlier(n: nat, drop: set<int>, p: nat)
    requires n > 0 && n - 1 !in drop && p < |Survivors(n - 1, drop)|
    requires IndicesBelow(Survivors(|Survivors(n - 1, drop)|, {p}), |Survivors(n - 1, drop)|)
    requires Pick(Survivors(n - 1, drop), Survivors(|Survivors(n - 1, drop)|, {p})) ==
             Survivors(n - 1, drop + {Survivors(n - 1, drop)[p]})
    ensures var s := Survivors(n, drop);
            && |s| == |Survivors(n - 1, drop)| + 1 && IndicesBelow(Survivors(|s|, {p}), |s|)
            && Pick(s, Survivors(|s|, {p})) == Survivors(n, drop + {s[p]})
  {
    var front := Survivors(n - 1, drop);
    var t := Survivors(|front|, {p});
    SurvivorsMeaning(n - 1, drop);
    assert front[p] < n - 1;
    PickFront(front, n - 1, t);
    PickNext(front + [n - 1], t, |front|);
  }

  lemma PickAll<T>(xs: seq<T>, s: seq<int>)
    requires |s| == |xs| && forall i :: 0 <= i < |s| ==> s[i] == i
    ensures IndicesBelow(s, |xs|) && Pick(xs, s) == xs
  {
  }

  lemma PickFront<T>(front: seq<T>, x: T, s: seq<int>)
    requires IndicesBelow(s, |front|)
    ensures IndicesBelow(s, |front + [x]|) && Pick(front + [x], s) == Pick(front, s)
  {
  }

  // ----- What the actions do -----

  /** Entries whose status is not "enabled": only these are carried over. */
  function Recorded(status: map<int, int>): map<int, int> {
    map i | i in status && status[i] != ENABLED :: status[i]
  }

  function OfDisabled<V>(m: map<int, V>, status: map<int, int>): map<int, V> {
    map i | i in m && i in Recorded(status) :: m[i]
  }

  /** The state without the dropped keys. */
  function Reindex(st: KeyState, drop: set<int>): KeyState
  {
    var s := Survivors(|st.keys|, drop);
    SurvivorsMeaning(|st.keys|, drop);
    KeyState(Pick(st.keys, s), |s|, Reindexed(Recorded(st.status), s), Reindexed(st.time, s), Reindexed(st.reason, s))
  }

  function DeleteKey(st: KeyState, i: int): KeyState {
    if !(0 <= i < st.size) || Survivors(|st.keys|, {i}) == [] then st else Reindex(st, {i})
  }

  /** The automatically disabled keys. */
  function FailedIn(n: nat, status: map<int, int>): set<int> {
    set i | 0 <= i < n && StatusOf(status, i) == AUTO_DISABLED
  }

  function Failed(st: KeyState): set<int> {
    FailedIn(|st.keys|, st.status)
  }

  /** The keys that did not fail; records of enabled ones are not carried over. */
  function WithoutFailures(st: KeyState): KeyState {
    Reindex(st.(time := OfDisabled(st.time, st.status), reason := OfDisabled(st.reason, st.status)), Failed(st))
  }

  function DeleteDisabled(st: KeyState): KeyState {
    if Failed(st) == {} then st
    else if Survivors(|st.keys|, Failed(st)) == [] then KeyState(st.keys, |st.keys|, map[], map[], map[])
    else WithoutFailures(st)
  }

  /** Update trims the status map to the key count. */
  function Saved(st: KeyState): KeyState {
    st.(size := |st.keys|, status := map i | i in st.status && i < |st.keys| :: st.status[i])
  }

  function DisableKey(st: KeyState, i: int): KeyState {
    if 0 <= i < st.size then Saved(st.(status := st.status[i := MANUALLY_DISABLED])) else st
  }

  function EnableKey(st: KeyState, i: int): KeyState {
    if 0 <= i < st.size then Saved(st.(status := st.status - {i}, time := st.time - {i}, reason := st.reason - {i}))
    else st
  }

  function EnableAll(st: KeyState): KeyState {
    KeyState(st.keys, |st.keys|, map[], map[], map[])
  }

  /** The statuses with the enabled keys below n disabled. */
  function DisabledBelow(status: map<int, int>, n: nat): map<int, int> {
    status + map i | 0 <= i < n && StatusOf(status, i) == ENABLED :: MANUALLY_DISABLED
  }

  function DisableAll(st: KeyState): KeyState {
    if forall i :: 0 <= i < st.size ==> StatusOf(st.status, i) != ENABLED then st
    else
      Saved(st.(status := DisabledBelow(st.status, st.size)))
  }

  /** What a replace request leaves; without a new key list the old one stays. */
  function ReplaceKeys(st: KeyState, newKeys: seq<string>): KeyState {
    Saved(st.(keys := if newKeys == [] then st.keys else newKeys))
  }

  function EnabledBelow(status: map<int, int>, n: nat): set<int> {
    set i | 0 <= i < n && StatusOf(status, i) == ENABLED
  }

  lemma NoneEnabled(st: KeyState)
    ensures |EnabledBelow(st.status, st.size)| == 0 <==> forall i :: 0 <= i < st.size ==> StatusOf(st.status, i) != ENABLED
  {
    if i :| 0 <= i < st.size && StatusOf(st.status, i) == ENABLED {
      assert i in EnabledBelow(st.status, st.size);
    }
  }

  lemma EnabledBelowNext(status: map<int, int>, i: nat)
    ensures |EnabledBelow(status, i + 1)| == |EnabledBelow(status, i)| + if StatusOf(status, i) == ENABLED then 1 else 0
  {
    var before := EnabledBelow(status, i);
    if StatusOf(status, i) == ENABLED {
      assert EnabledBelow(status, i + 1) == before + {i} && i !in before;
    } else {
      assert EnabledBelow(status, i + 1) == before;
    }
  }

  lemma DisabledBelowNext(status: map<int, int>, i: nat)
    ensures StatusOf(DisabledBelow(status, i), i) == StatusOf(status, i)
    ensures DisabledBelow(status, i + 1) ==
            if StatusOf(status, i) == ENABLED then DisabledBelow(status, i)[i := MANUALLY_DISABLED] else DisabledBelow(status, i)
  {
    var before, after := DisabledBelow(status, i), DisabledBelow(status, i + 1);
    if StatusOf(status, i) == ENABLED {
      assert after == before[i := MANUALLY_DISABLED];
    } else {
      assert after == before;
    }
  }

  /** What an append request leaves: the old keys, then the trimmed new ones they lack. */
  function AppendKeys(st: KeyState, input: seq<string>): KeyState {
    if st.keys == [] then Saved(st.(keys := input))
    else Saved(st.(keys := st.keys + Without(Normalize(input), NameSet(st.keys))))
  }

  /** The first index of a key, or -1. */
  function IndexOf(keys: seq<string>, key: string): (r: int)
    ensures -1 <= r < |keys|
    ensures r < 0 <==> key !in keys
    ensures r >= 0 ==> keys[r] == key && key !in keys[..r]
  {
    if keys == [] then -1
    else if keys[0] == key then 0
    else
      var r := IndexOf(keys[1..], key);
      assert keys == [keys[0]] + keys[1..];
      assert r >= 0 ==> keys[..r + 1] == [keys[0]] + keys[1..][..r];
      if r < 0 then -1 else r + 1
  }

  /** handlerMultiKeyUpdate: the relay disables a failing key, or enables it again. */
  function SetStatus(st: KeyState, key: string, status: int, why: string, now: int): KeyState {
    var i := IndexOf(st.keys, key);
    if i < 0 then st
    else if status == ENABLED then st.(status := st.status - {i})
    else st.(status := st.status[i := status], time := st.time[i := now], reason := st.reason[i := why])
  }

  // ----- The loops -----

  /** The loop that disables every enabled key. */
  method DisableEnabled(status: map<int, int>, size: nat) returns (newStatus: map<int, int>, disabledCount: nat)
    ensures newStatus == DisabledBelow(status, size)
    ensures disabledCount == |EnabledBelow(status, size)|
  {
    newStatus := status;
    disabledCount := 0;
    for i := 0 to size
      invariant newStatus == DisabledBelow(status, i)
      invariant disabledCount == |EnabledBelow(status, i)|
    {
      EnabledBelowNext(status, i);
      DisabledBelowNext(status, i);
      var s := ENABLED;
      if i in newStatus {
        s := newStatus[i];
      }
      if s == ENABLED {
        newStatus := newStatus[i := MANUALLY_DISABLED];
        disabledCount := disabledCount + 1;
      }
    }
  }

  /** One entry of a map carried over to the new index. */
  function CarryEntry<V>(m: map<int, V>, i: int, carried: map<int, V>, newIndex: int): map<int, V> {
    if i in m then carried[newIndex := m[i]] else carried
  }

  /** The loop of delete_key. */
  method WithoutKey(keys: seq<string>, status: map<int, int>, time: map<int, int>, reason: map<int, string>, index: int)
    returns (remaining: seq<string>, newStatus: map<int, int>, newTime: map<int, int>, newReason: map<int, string>)
    ensures Carried(keys, status, time, reason, Survivors(|keys|, {index}), remaining, newStatus, newTime, newReason)
  {
    remaining, newStatus, newTime, newReason := [], map[], map[], map[];
    var newIndex: nat := 0;
    for i := 0 to |keys|
      invariant newIndex == |Survivors(i, {index})|
      invariant Carried(keys, status, time, reason, Survivors(i, {index}), remaining, newStatus, newTime, newReason)
    {
      SurvivorsNext(i, {index});
      if i == index {
        continue;
      }
      CarryNext(keys, status, time, reason, Survivors(i, {index}), i, remaining, newStatus, newTime, newReason);
      remaining := remaining + [keys[i]];
      if i in status && status[i] != ENABLED {
        newStatus := newStatus[newIndex := status[i]];
      }
      if i in time {
        newTime := newTime[newIndex := time[i]];
      }
      if i in reason {
        newReason := newReason[newIndex := reason[i]];
      }
      newIndex := newIndex + 1;
    }
  }

  /** The loop of delete_disabled_keys. */
  method WithoutFailed(keys: seq<string>, status: map<int, int>, time: map<int, int>, reason: map<int, string>)
    returns (remaining: seq<string>, newStatus: map<int, int>, newTime: map<int, int>, newReason: map<int, string>, deletedCount: nat)
    ensures Carried(keys, status, OfDisabled(time, status), OfDisabled(reason, status),
                    Survivors(|keys|, FailedIn(|keys|, status)), remaining, newStatus, newTime, newReason)
    ensures deletedCount == |keys| - |Survivors(|keys|, FailedIn(|keys|, status))|
  {
    ghost var drop := FailedIn(|keys|, status);
    remaining, newStatus, newTime, newReason, deletedCount := [], map[], map[], map[], 0;
    var newIndex: nat := 0;
    for i := 0 to |keys|
      invariant newIndex == |Survivors(i, drop)| && deletedCount == i - newIndex
      invariant Carried(keys, status, OfDisabled(time, status), OfDisabled(reason, status), Survivors(i, drop),
                        remaining, newStatus, newTime, newReason)
    {
      var current := ENABLED;
      if i in status {
        current := status[i];
      }
      assert current == StatusOf(status, i);
      SurvivorsNext(i, drop);
      if current == AUTO_DISABLED {
        deletedCount := deletedCount + 1;
      } else {
        CarryNext(keys, status, OfDisabled(time, status), OfDisabled(reason, status), Survivors(i, drop), i,
                  remaining, newStatus, newTime, newReason);
        remaining := remaining + [keys[i]];
        newStatus, newTime, newReason := CarryRecord(status, time, reason, i, current, newIndex, newStatus, newTime, newReason);
        newIndex := newIndex + 1;
      }
    }
  }

  /** The records of a key that delete_disabled_keys keeps. */
  method CarryRecord(status: map<int, int>, time: map<int, int>, reason: map<int, string>, i: int, current: int, newIndex: int,
                     status0: map<int, int>, time0: map<int, int>, reason0: map<int, string>)
    returns (newStatus: map<int, int>, newTime: map<int, int>, newReason: map<int, string>)
    requires current == StatusOf(status, i)
    ensures newStatus == CarryEntry(Recorded(status), i, status0, newIndex)
    ensures newTime == CarryEntry(OfDisabled(time, status), i, time0, newIndex)
    ensures newReason == CarryEntry(OfDisabled(reason, status), i, reason0, newIndex)
  {
    newStatus, newTime, newReason := status0, time0, reason0;
    if current != ENABLED {
      newStatus := newStatus[newIndex := current];
      if i in time {
        newTime := newTime[newIndex := time[i]];
      }
      if i in reason {
        newReason := newReason[newIndex := reason[i]];
      }
    }
  }

  /** What a deletion loop has built for the survivors s. */
  ghost predicate Carried(keys: seq<string>, status: map<int, int>, time: map<int, int>, reason: map<int, string>, s: seq<int>,
                    remaining: seq<string>, newStatus: map<int, int>, newTime: map<int, int>, newReason: map<int, string>)
  {
    && IndicesBelow(s, |keys|) && remaining == Pick(keys, s)
    && newStatus == Reindexed(Recorded(status), s) && newTime == Reindexed(time, s) && newReason == Reindexed(reason, s)
  }

  lemma CarryNext(keys: seq<string>, status: map<int, int>, time: map<int, int>, reason: map<int, string>, s: seq<int>, i: int,
                  remaining: seq<string>, newStatus: map<int, int>, newTime: map<int, int>, newReason: map<int, string>)
    requires Carried(keys, status, time, reason, s, remaining, newStatus, newTime, newReason) && 0 <= i < |keys|
    ensures Carried(keys, status, time, reason, s + [i], remaining + [keys[i]],
                    CarryEntry(Recorded(status), i, newStatus, |s|), CarryEntry(time, i, newTime, |s|),
                    CarryEntry(reason, i, newReason, |s|))
  {
    PickNext(keys, s, i);
    ReindexedNext(Recorded(status), s, i);
    ReindexedNext(time, s, i);
    ReindexedNext(reason, s, i);
  }

  /** The loop that trims the lines of the request and drops blank ones. */
  method NonBlank(input: seq<string>) returns (newKeys: seq<string>)
    ensures newKeys == TrimNonEmpty(input)
  {
    newKeys := [];
    for i := 0 to |input|
      invariant newKeys == TrimNonEmpty(input[..i])
    {
      NormalizeNext(input, i, {});
      var key := TrimSpace(input[i]);
      if key != "" {
        newKeys := newKeys + [key];
      }
    }
    assert input[..|input|] == input;
  }

  /** The loop that drops what was seen, trimming again. */
  method Unseen(newKeys: seq<string>, known: set<string>) returns (deduped: seq<string>)
    ensures deduped == Without(Normalize(newKeys), known)
  {
    var seen := known;
    deduped := [];
    for i := 0 to |newKeys|
      invariant seen == known + Elems(TrimNonEmpty(newKeys[..i]))
      invariant deduped == Without(Normalize(newKeys[..i]), known)
    {
      NormalizeNext(newKeys, i, known);
      var normalized := TrimSpace(newKeys[i]);
      if normalized == "" {
        continue;
      }
      if normalized in seen {
        continue;
      }
      seen := seen + {normalized};
      deduped := deduped + [normalized];
    }
    assert newKeys[..|newKeys|] == newKeys;
  }

  /** Saving a re-indexed state with a key left changes nothing more; with none left the old
      keys stay and every record is gone. */
  lemma SavedReindex(st: KeyState, drop: set<int>)
    ensures var r := Reindex(st, drop);
            && (r.keys != [] ==> Saved(r) == r)
            && (r.keys == [] ==> Saved(r.(keys := st.keys)) == KeyState(st.keys, |st.keys|, map[], map[], map[]))
            && (r.keys == [] <==> Survivors(|st.keys|, drop) == [])
  {
  }

  lemma NoneFailed(st: KeyState)
    ensures |Survivors(|st.keys|, Failed(st))| == |st.keys| <==> Failed(st) == {}
  {
    var s := Survivors(|st.keys|, Failed(st));
    if Failed(st) == {} {
      SurvivorsOfNone(|st.keys|, Failed(st));
    } else {
      var i :| i in Failed(st);
      FewerSurvivors(|st.keys|, Failed(st), i);
    }
  }

  lemma {:induction false} FewerSurvivors(n: nat, drop: set<int>, i: int)
    ensures |Survivors(n, drop)| <= n
    ensures 0 <= i < n && i in drop ==> |Survivors(n, drop)| < n
  {
    if n > 0 {
      FewerSurvivors(n - 1, drop, i);
    }
  }

  lemma NameSetNext(keys: seq<string>, i: nat)
    requires i < |keys|
    ensures NameSet(keys[..i + 1]) == NameSet(keys[..i]) + if TrimSpace(keys[i]) == "" then {} else {TrimSpace(keys[i])}
  {
    assert keys[..i + 1] == keys[..i] + [keys[i]];
  }

  /** The second trim of the append branch does nothing. */
  lemma TrimNonEmptyTwice(input: seq<string>)
    ensures Normalize(TrimNonEmpty(input)) == Normalize(input)
  {
    TrimNonEmptyElems(input);
    TrimNonEmptyOfNames(TrimNonEmpty(input));
  }

  lemma NormalizeNext(xs: seq<string>, i: nat, known: set<string>)
    requires i < |xs|
    ensures var t, before := TrimSpace(xs[i]), TrimNonEmpty(xs[..i]);
            && TrimNonEmpty(xs[..i + 1]) == before + (if t == "" then [] else [t])
            && Elems(TrimNonEmpty(xs[..i + 1])) == Elems(before) + (if t == "" then {} else {t})
            && Without(Normalize(xs[..i + 1]), known) ==
               Without(Normalize(xs[..i]), known) + if t == "" || t in known + Elems(before) then [] else [t]
  {
    var t, before := TrimSpace(xs[i]), TrimNonEmpty(xs[..i]);
    assert xs[..i + 1] == xs[..i] + [xs[i]];
    FilterMapSnoc(xs[..i], xs[i], TrimSpace, NonBlankName);
    if t != "" {
      UniqNext(before, t, known);
    } else {
      assert before + [] == before;
    }
  }

  lemma UniqNext<T>(before: seq<T>, t: T, known: set<T>)
    ensures Elems(before + [t]) == Elems(before) + {t}
    ensures Without(Uniq(before + [t]), known) == Without(Uniq(before), known) + if t in known + Elems(before) then [] else [t]
  {
    ElemsAppend(before, [t]);
    UniqSnoc(before, t);
    WithoutSnoc(Uniq(before), t, known);
  }
}
