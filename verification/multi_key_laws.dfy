/** Laws of the multi-key actions on key lists: what deletions keep, and when bulk deletion agrees
    with deleting one key at a time. */
module MultiKeyLaws {
  import opened Text
  import opened Lists
  import opened NameLists
  import opened MultiKey

  // ----- Deletions keep every other key -----

  /** A deletion re-indexes: the j-th key left is the j-th of the keys not dropped, in their old
      order, with its own status, time and reason and nothing else recorded. */
  lemma ReindexKeepsKeys(st: KeyState, drop: set<int>)
    ensures var s, r := Survivors(|st.keys|, drop), Reindex(st, drop);
            && (forall i :: 0 <= i < |st.keys| && i !in drop <==> i in s)
            && (forall i, j :: 0 <= i < j < |s| ==> s[i] < s[j])
            && r.size == |r.keys| == |s|
            && (forall j :: 0 <= j < |s| ==>
                  && 0 <= s[j] < |st.keys| && r.keys[j] == st.keys[s[j]]
                  && StatusOf(r.status, j) == StatusOf(st.status, s[j])
                  && (j in r.time <==> s[j] in st.time) && (j in r.time ==> r.time[j] == st.time[s[j]])
                  && (j in r.reason <==> s[j] in st.reason) && (j in r.reason ==> r.reason[j] == st.reason[s[j]]))
            && (forall j :: j in r.status || j in r.time || j in r.reason ==> 0 <= j < |s|)
  {
    SurvivorsMeaning(|st.keys|, drop);
  }

  // ----- The actions as steps -----

  datatype Event =
    | Disable(index: int)
    | Enable(index: int)
    | EnableEvery
    | DisableEvery
    | Delete(index: int)
    | DeleteFailed
    | Append(input: seq<string>)
    | Replace(newKeys: seq<string>)
    | Status(key: string, status: int, why: string, now: int)

  function Step(st: KeyState, e: Event): KeyState {
    match e
    case Disable(i) => DisableKey(st, i)
    case Enable(i) => EnableKey(st, i)
    case EnableEvery => EnableAll(st)
    case DisableEvery => DisableAll(st)
    case Delete(i) => DeleteKey(st, i)
    case DeleteFailed => DeleteDisabled(st)
    case Append(input) => AppendKeys(st, input)
    case Replace(newKeys) => ReplaceKeys(st, newKeys)
    case Status(key, status, why, now) => SetStatus(st, key, status, why, now)
  }

  lemma ReindexValid(st: KeyState, drop: set<int>)
    requires st.Valid()
    ensures Reindex(st, drop).Valid()
  {
    SurvivorsMeaning(|st.keys|, drop);
  }

  lemma WithoutFailuresValid(st: KeyState)
    requires st.Valid()
    ensures WithoutFailures(st).Valid()
  {
    ReindexValid(st.(time := OfDisabled(st.time, st.status), reason := OfDisabled(st.reason, st.status)), Failed(st));
  }

  // ----- Bulk deletion against single deletions -----

  /** delete_key on each failed index from the highest down to k. */
  function DeleteFrom(st: KeyState, k: nat): KeyState
    requires k <= |st.keys|
    decreases |st.keys| - k
  {
    if k == |st.keys| then st
    else if k in Failed(st) then DeleteKey(DeleteFrom(st, k + 1), k)
    else DeleteFrom(st, k + 1)
  }

  function FailedFrom(st: KeyState, k: nat): set<int> {
    set i | i in Failed(st) && i >= k
  }

  lemma PickPick<T>(xs: seq<T>, s: seq<int>, t: seq<int>)
    requires IndicesBelow(s, |xs|) && IndicesBelow(t, |s|)
    ensures IndicesBelow(Pick(s, t), |xs|) && Pick(Pick(xs, s), t) == Pick(xs, Pick(s, t))
  {
  }

  lemma ReindexedTwice<V>(m: map<int, V>, s: seq<int>, t: seq<int>)
    requires IndicesBelow(t, |s|)
    ensures Reindexed(Reindexed(m, s), t) == Reindexed(m, Pick(s, t))
  {
  }

  lemma RecordedReindexed(status: map<int, int>, s: seq<int>)
    ensures Recorded(Reindexed(Recorded(status), s)) == Reindexed(Recorded(status), s)
  {
  }

  /** Deleting the p-th key left is one deletion of both. */
  lemma ReindexTwice(st: KeyState, drop: set<int>, p: nat)
    requires p < |Survivors(|st.keys|, drop)|
    ensures Reindex(Reindex(st, drop), {p}) == Reindex(st, drop + {Survivors(|st.keys|, drop)[p]})
  {
    var n := |st.keys|;
    var s := Survivors(n, drop);
    var t := Survivors(|s|, {p});
    DropAgain(n, drop, p);
    SurvivorsMeaning(n, drop);
    PickPick(st.keys, s, t);
    RecordedReindexed(st.status, s);
    ReindexedTwice(Recorded(st.status), s, t);
    ReindexedTwice(st.time, s, t);
    ReindexedTwice(st.reason, s, t);
  }

  /** When nothing at or below k is dropped, the k-th survivor is k. */
  lemma {:induction false} LowSurvivors(n: nat, drop: set<int>, k: nat)
    requires k < n && forall i :: 0 <= i <= k ==> i !in drop
    ensures k < |Survivors(n, drop)| && Survivors(n, drop)[k] == k
  {
    if n == k + 1 {
      SurvivorsOfNone(n, drop);
    } else {
      LowSurvivors(n - 1, drop, k);
    }
  }

  lemma SurvivorLeft(n: nat, drop: set<int>, less: set<int>)
    requires less <= drop && Survivors(n, drop) != []
    ensures Survivors(n, less) != []
  {
    SurvivorsMeaning(n, drop);
    SurvivorsMeaning(n, less);
    var i := Survivors(n, drop)[0];
    assert i in Survivors(n, drop);
    assert i in Survivors(n, less);
  }

  /** Deleting one key at a time amounts to one deletion of them all, while a key is left. */
  lemma {:induction false} IteratedDeletion(st: KeyState, k: nat)
    requires st.size == |st.keys| && k <= |st.keys|
    requires Survivors(|st.keys|, FailedFrom(st, k)) != []
    ensures DeleteFrom(st, k) == if FailedFrom(st, k) == {} then st else Reindex(st, FailedFrom(st, k))
    decreases |st.keys| - k
  {
    var n := |st.keys|;
    if k < n {
      var above := FailedFrom(st, k + 1);
      FailedFromNext(st, k);
      SurvivorLeft(n, FailedFrom(st, k), above);
      IteratedDeletion(st, k + 1);
      if k in Failed(st) {
        DeleteOneMore(st, k, above);
      } else {
        assert above + {} == above;
      }
    } else {
      assert FailedFrom(st, k) == {};
    }
  }

  lemma FailedFromNext(st: KeyState, k: nat)
    ensures FailedFrom(st, k) == FailedFrom(st, k + 1) + if k in Failed(st) then {k} else {}
  {
  }

  lemma DeleteOneMore(st: KeyState, k: nat, above: set<int>)
    requires st.size == |st.keys| && k < |st.keys| && (forall i :: i in above ==> i > k)
    requires Survivors(|st.keys|, above + {k}) != []
    ensures DeleteKey(if above == {} then st else Reindex(st, above), k) == Reindex(st, above + {k})
  {
    var n := |st.keys|;
    if above == {} {
      assert above + {k} == {k};
    } else {
      var s := Survivors(n, above);
      LowSurvivors(n, above, k);
      DropAgain(n, above, k);
      ReindexTwice(st, above, k);
      assert Pick(s, Survivors(|s|, {k})) == Survivors(n, above + {k});
    }
  }

  /** No key that stays enabled has a time or reason recorded. */
  predicate NoStrayRecords(st: KeyState) {
    forall i :: i in Survivors(|st.keys|, Failed(st)) && (i in st.time || i in st.reason) ==> StatusOf(st.status, i) != ENABLED
  }

  /** delete_disabled_keys leaves exactly what delete_key on every failed index, from the highest
      to the lowest, leaves, if and only if nothing failed, or a key survives and no surviving
      enabled key has a record. */
  lemma BulkEqualsIterated(st: KeyState)
    requires st.size == |st.keys|
    ensures DeleteDisabled(st) == DeleteFrom(st, 0)
            <==> Failed(st) == {} || (Survivors(|st.keys|, Failed(st)) != [] && NoStrayRecords(st))
  {
    var n, failed := |st.keys|, Failed(st);
    assert FailedFrom(st, 0) == failed;
    if failed == {} {
      SurvivorsOfNone(n, failed);
      if n > 0 {
        IteratedDeletion(st, 0);
      }
    } else if Survivors(n, failed) == [] {
      NoneLeft(st);
    } else {
      IteratedDeletion(st, 0);
      KeptRecords(st.time, st.status, Survivors(n, failed));
      KeptRecords(st.reason, st.status, Survivors(n, failed));
    }
  }

  lemma KeptRecords<V>(m: map<int, V>, status: map<int, int>, s: seq<int>)
    ensures Reindexed(OfDisabled(m, status), s) == Reindexed(m, s)
            <==> forall i :: i in s && i in m ==> StatusOf(status, i) != ENABLED
  {
    if i :| i in s && i in m && StatusOf(status, i) == ENABLED {
      var j :| 0 <= j < |s| && s[j] == i;
      assert j in Reindexed(m, s) && j !in Reindexed(OfDisabled(m, status), s);
    } else {
      forall j | 0 <= j < |s|
        ensures s[j] in OfDisabled(m, status) <==> s[j] in m
      {
        assert s[j] in s;
        assert s[j] in m ==> StatusOf(status, s[j]) != ENABLED;
      }
      assert Reindexed(OfDisabled(m, status), s) == Reindexed(m, s);
    }
  }

  /** When every key failed, single deletions stop at the last key and keep its status, while
      bulk deletion keeps every key and forgets that they failed. */
  lemma NoneLeft(st: KeyState)
    requires st.size == |st.keys| && Failed(st) != {} && Survivors(|st.keys|, Failed(st)) == []
    ensures DeleteDisabled(st) != DeleteFrom(st, 0)
    ensures DeleteDisabled(st).keys == st.keys && Failed(DeleteDisabled(st)) == {}
  {
    var n := |st.keys|;
    SurvivorsMeaning(n, Failed(st));
    assert n > 0 && 0 in Failed(st);
    assert forall i :: 0 <= i < n ==> i in Failed(st);
    assert 0 !in FailedFrom(st, 1);
    LowSurvivors(n, FailedFrom(st, 1), 0);
    IteratedDeletion(st, 1);
    var one := DeleteFrom(st, 1);
    SurvivorsMeaning(n, FailedFrom(st, 1));
    OnlyFirst(n, FailedFrom(st, 1));
    assert one.status[0] == AUTO_DISABLED && |one.keys| == 1;
    assert Survivors(1, {0}) == [];
    assert 0 in DeleteFrom(st, 0).status;
  }

  lemma OnlyFirst(n: nat, drop: set<int>)
    requires n > 0 && 0 !in drop && forall i :: 1 <= i < n ==> i in drop
    ensures Survivors(n, drop) == [0]
  {
    SurvivorsMeaning(n, drop);
    var s := Survivors(n, drop);
    assert 0 in s;
    assert forall j :: 0 <= j < |s| ==> s[j] in s;
    assert forall j :: 0 <= j < |s| ==> s[j] == 0;
    assert s[0] == s[|s| - 1];
  }

  // ----- Appending keys -----

  /** Appending keeps every old key at its index and adds trimmed keys that neither repeat nor
      equal an old one; the same request again adds nothing. */
  lemma AppendAddsOnlyNewKeys(st: KeyState, input: seq<string>)
    requires st.Valid() && st.keys != []
    ensures var r := AppendKeys(st, input);
            && r.Valid() && st.keys <= r.keys && r.status == st.status && r.time == st.time && r.reason == st.reason
            && Normal(r.keys[|st.keys|..]) && Elems(r.keys[|st.keys|..]) == NameSet(input) - NameSet(st.keys)
            && AppendKeys(r, input) == r
  {
    var added := Without(Normalize(input), NameSet(st.keys));
    AddedNames(st.keys, added, input);
    AppendedState(st, input, added);
    assert st.keys + added + [] == st.keys + added;
  }

  /** The state after an append, with the list of what was added. */
  lemma AppendedState(st: KeyState, input: seq<string>, added: seq<string>)
    requires st.Valid() && st.keys != [] && added == Without(Normalize(input), NameSet(st.keys))
    ensures var r := AppendKeys(st, input);
            && r == st.(keys := st.keys + added, size := |st.keys + added|) && r.Valid()
            && r.keys[|st.keys|..] == added
  {
  }

  lemma AddedNames(keys: seq<string>, added: seq<string>, input: seq<string>)
    requires added == Without(Normalize(input), NameSet(keys))
    ensures Normal(added) && Elems(added) == NameSet(input) - NameSet(keys)
    ensures Without(Normalize(input), NameSet(keys + added)) == []
  {
    NormalizeIsNormal(input);
    WithoutNormal(Normalize(input), NameSet(keys));
    NameSetOfNormal(added);
    NothingToAdd(keys, added, input);
  }

  lemma NothingToAdd(keys: seq<string>, added: seq<string>, input: seq<string>)
    requires NameSet(input) - NameSet(keys) == NameSet(added)
    ensures Without(Normalize(input), NameSet(keys + added)) == []
  {
    var all := NameSet(keys + added);
    NormalizeIsNormal(input);
    assert all == NameSet(keys) + NameSet(added) by {
      assert forall x :: x in keys + added <==> x in keys || x in added;
    }
    WithoutNormal(Normalize(input), all);
    NoElems(Without(Normalize(input), all));
  }
}
