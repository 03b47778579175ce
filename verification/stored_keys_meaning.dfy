/** What each action does to the keys and records of a stored channel, key by key. */
module StoredKeysMeaning {
  import opened Wrappers
  import opened Text
  import opened Lists
  import opened NameLists
  import opened MultiKey
  import opened KeyColumn
  import opened StoredKeys
  import opened StoredKeysLaws
  import opened CleanKeysLaws
  import ListLaws = MultiKeyLaws

  function Lookup<V>(m: map<int, V>, i: int): Option<V> {
    if i in m then Some(m[i]) else None
  }

  datatype Record = Record(status: int, time: Option<int>, reason: Option<string>)

  const ENABLED_KEY := Record(ENABLED, None, None)

  /** What is recorded of the key at an index. */
  function RecordAt(status: map<int, int>, time: map<int, int>, reason: map<int, string>, i: int): Record {
    Record(StatusOf(status, i), Lookup(time, i), Lookup(reason, i))
  }

  function RecordOf(st: Stored, i: int): Record {
    RecordAt(st.status, st.time, st.reason, i)
  }

  // ----- Actions that keep the keys -----

  /** disable_key marks one key and leaves every other record, and what was recorded of the key. */
  lemma DisableMeans(st: Stored, i: int, json: Json)
    requires Valid(st, json)
    ensures var r := DisableAt(st, i, json);
            && r.column == st.column && r.size == st.size && Valid(r, json)
            && forall j :: RecordOf(r, j) == if j == i && 0 <= i < st.size then RecordOf(st, j).(status := 2) else RecordOf(st, j)
  {
    if 0 <= i < st.size {
      SavedAgain(st, st.status[i := MANUALLY_DISABLED], st.time, st.reason, json);
    }
    ChangeValid(st, Disable(i), json);
  }

  /** enable_key removes everything recorded of one key and nothing else. */
  lemma EnableMeans(st: Stored, i: int, json: Json)
    requires Valid(st, json)
    ensures var r := EnableAt(st, i, json);
            && r.column == st.column && r.size == st.size && Valid(r, json)
            && forall j :: RecordOf(r, j) == if j == i && 0 <= i < st.size then Record(1, None, None) else RecordOf(st, j)
  {
    SavedAgain(st, st.status - {i}, st.time - {i}, st.reason - {i}, json);
    ChangeValid(st, Enable(i), json);
  }

  /** enable_all_keys removes every record. */
  lemma EnableEveryMeans(st: Stored, json: Json)
    requires Valid(st, json)
    ensures var r := EnableEveryAt(st, json);
            && r.column == st.column && r.size == st.size && Valid(r, json)
            && forall j :: RecordOf(r, j) == Record(1, None, None)
  {
    SavedAgain(st, map[], map[], map[], json);
    ChangeValid(st, EnableEvery, json);
  }

  /** disable_all_keys marks the enabled keys and leaves every other record. */
  lemma DisableEveryMeans(st: Stored, json: Json)
    requires Valid(st, json)
    ensures var r := DisableEveryAt(st, json);
            && r.column == st.column && r.size == st.size && Valid(r, json)
            && forall j :: RecordOf(r, j) ==
                 if 0 <= j < st.size && RecordOf(st, j).status == 1 then RecordOf(st, j).(status := 2) else RecordOf(st, j)
  {
    SavedAgain(st, DisabledBelow(st.status, st.size), st.time, st.reason, json);
    ChangeValid(st, DisableEvery, json);
  }

  /** The relay marks the first key equal to the failing one, with time and reason; when it enables
      the key again, time and reason stay. An unknown key changes nothing. */
  lemma StatusMeans(st: Stored, key: string, status: int, why: string, now: int, json: Json)
    ensures var r, keys := SetStatusAt(st, key, status, why, now, json), GetKeys(st.column, json);
            && r.column == st.column && r.size == st.size
            && (key !in keys ==> r == st)
            && (key in keys ==>
                  exists i :: 0 <= i < |keys| && keys[i] == key && key !in keys[..i]
                    && forall j :: RecordOf(r, j) ==
                         if j != i then RecordOf(st, j)
                         else if status == 1 then RecordOf(st, j).(status := 1)
                         else Record(status, Some(now), Some(why)))
  {
    var i := IndexOf(GetKeys(st.column, json), key);
    if i >= 0 {
      RecordSet(st.status, st.time, st.reason, i, status, now, why);
    }
  }

  lemma RecordSet(status: map<int, int>, time: map<int, int>, reason: map<int, string>, i: int, s: int, now: int, why: string)
    ensures forall j :: RecordAt(status - {i}, time, reason, j) ==
                        if j != i then RecordAt(status, time, reason, j) else RecordAt(status, time, reason, j).(status := 1)
    ensures forall j :: RecordAt(status[i := s], time[i := now], reason[i := why], j) ==
                        if j != i then RecordAt(status, time, reason, j) else Record(s, Some(now), Some(why))
  {
    forall j
      ensures RecordAt(status[i := s], time[i := now], reason[i := why], j) ==
              if j != i then RecordAt(status, time, reason, j) else Record(s, Some(now), Some(why))
    {
      assert Lookup(time[i := now], j) == if j != i then Lookup(time, j) else Some(now);
      assert Lookup(reason[i := why], j) == if j != i then Lookup(reason, j) else Some(why);
    }
  }

  // ----- Deletions -----

  lemma {:induction false} SurvivorsOfOne(n: nat, i: int)
    requires 0 <= i < n
    ensures |Survivors(n, {i})| == n - 1
    ensures forall j :: 0 <= j < n - 1 ==> Survivors(n, {i})[j] == if j < i then j else j + 1
  {
    if i == n - 1 {
      SurvivorsOfNone(n - 1, {i});
    } else {
      SurvivorsOfOne(n - 1, i);
    }
  }

  lemma LookupReindexed<V>(m: map<int, V>, s: seq<int>, j: int)
    ensures Lookup(Reindexed(m, s), j) == if 0 <= j < |s| then Lookup(m, s[j]) else None
  {
  }

  lemma StatusReindexed(status: map<int, int>, s: seq<int>, j: int)
    ensures StatusOf(Reindexed(Recorded(status), s), j) == if 0 <= j < |s| then StatusOf(status, s[j]) else ENABLED
  {
  }

  /** Every key left carries the records of its old index. */
  lemma ReindexedRecord(l: KeyState, drop: set<int>, j: int)
    ensures var s, r := Survivors(|l.keys|, drop), Reindex(l, drop);
            RecordAt(r.status, r.time, r.reason, j) ==
            if 0 <= j < |s| then RecordAt(l.status, l.time, l.reason, s[j]) else ENABLED_KEY
  {
    var s := Survivors(|l.keys|, drop);
    LookupReindexed(l.time, s, j);
    LookupReindexed(l.reason, s, j);
    StatusReindexed(l.status, s, j);
  }

  lemma PickWithout<T>(xs: seq<T>, s: seq<int>, i: int)
    requires 0 <= i < |xs| && |s| == |xs| - 1 && forall j :: 0 <= j < |s| ==> s[j] == if j < i then j else j + 1
    ensures IndicesBelow(s, |xs|) && Pick(xs, s) == xs[..i] + xs[i + 1..]
  {
  }

  /** A key list after the deletion of one index. */
  lemma DeleteKeyMeans(l: KeyState, i: int)
    requires l.Valid() && 0 <= i < |l.keys| && |l.keys| > 1
    ensures var r := DeleteKey(l, i);
            && r.keys == l.keys[..i] + l.keys[i + 1..]
            && forall j :: RecordAt(r.status, r.time, r.reason, j) ==
                 if 0 <= j < |l.keys| - 1 then RecordAt(l.status, l.time, l.reason, if j < i then j else j + 1) else ENABLED_KEY
  {
    var s := Survivors(|l.keys|, {i});
    SurvivorsOfOne(|l.keys|, i);
    PickWithout(l.keys, s, i);
    var r := Reindex(l, {i});
    forall j
      ensures RecordAt(r.status, r.time, r.reason, j) ==
              if 0 <= j < |l.keys| - 1 then RecordAt(l.status, l.time, l.reason, if j < i then j else j + 1) else ENABLED_KEY
    {
      ReindexedRecord(l, {i}, j);
    }
  }

  /** delete_key removes one clean key and moves every later key, with its records, one down; the
      last key and an index out of range are refused. */
  lemma DeleteMeans(st: Stored, i: int, json: Json)
    requires CleanColumn(st.column, json) && Valid(st, json)
    ensures var r, keys := DeleteAt(st, i, json), GetKeys(st.column, json);
            if !(0 <= i < |keys|) || |keys| == 1 then r == st
            else
              && GetKeys(r.column, json) == keys[..i] + keys[i + 1..]
              && forall j :: RecordOf(r, j) ==
                   if 0 <= j < |keys| - 1 then RecordOf(st, if j < i then j else j + 1) else Record(1, None, None)
  {
    var keys := GetKeys(st.column, json);
    if 0 <= i < |keys| {
      SurvivorsOfOne(|keys|, i);
      if |keys| > 1 {
        DeleteClean(st, i, json);
        DeleteKeyMeans(Listed(st, json), i);
      }
    }
  }

  /** The channel keeps the keys at the listed indices, in order, with their records. */
  predicate Keeps(st: Stored, r: Stored, s: seq<int>, json: Json) {
    var keys, left := GetKeys(st.column, json), GetKeys(r.column, json);
    && (forall i, j :: 0 <= i < j < |s| ==> s[i] < s[j])
    && |left| == |s|
    && forall j :: 0 <= j < |s| ==> 0 <= s[j] < |keys| && left[j] == keys[s[j]] && RecordOf(r, j) == RecordOf(st, s[j])
  }

  lemma NoStray(l: KeyState)
    requires l.Valid()
    ensures OfDisabled(l.time, l.status) == l.time && OfDisabled(l.reason, l.status) == l.reason
  {
    assert forall i :: i in l.time ==> i in l.time.Keys;
    assert forall i :: i in l.reason ==> i in l.reason.Keys;
    assert forall i :: i in l.status.Keys ==> i in Recorded(l.status);
  }

  /** The survivors of a bulk deletion on a key list. */
  lemma SurvivorsKept(l: KeyState, s: seq<int>)
    requires l.Valid() && s == Survivors(|l.keys|, Failed(l)) && s != []
    ensures var r := DeleteDisabled(l);
            && |r.keys| == |s| && IndicesBelow(s, |l.keys|)
            && forall j :: 0 <= j < |s| ==>
                 r.keys[j] == l.keys[s[j]] && RecordAt(r.status, r.time, r.reason, j) == RecordAt(l.status, l.time, l.reason, s[j])
  {
    SurvivorsMeaning(|l.keys|, Failed(l));
    if Failed(l) == {} {
      SurvivorsOfNone(|l.keys|, Failed(l));
    } else {
      NoStray(l);
      forall j | 0 <= j < |s|
        ensures RecordAt(Reindex(l, Failed(l)).status, Reindex(l, Failed(l)).time, Reindex(l, Failed(l)).reason, j) ==
                RecordAt(l.status, l.time, l.reason, s[j])
      {
        ReindexedRecord(l, Failed(l), j);
      }
    }
  }

  lemma ListedKeeps(st: Stored, r: Stored, s: seq<int>, json: Json)
    requires Listed(st, json).Valid() && Listed(r, json) == DeleteDisabled(Listed(st, json))
    requires s == Survivors(|GetKeys(st.column, json)|, Failed(Listed(st, json))) && s != []
    ensures Keeps(st, r, s, json)
  {
    SurvivorsMeaning(|GetKeys(st.column, json)|, Failed(Listed(st, json)));
    SurvivorsKept(Listed(st, json), s);
  }

  lemma SurvivorsOfValid(l: KeyState, i: int)
    ensures i in Survivors(|l.keys|, Failed(l)) <==> 0 <= i < |l.keys| && StatusOf(l.status, i) != 3
  {
    SurvivorsMeaning(|l.keys|, Failed(l));
  }

  /** When a clean key did not fail, delete_disabled_keys keeps exactly the keys whose status is not
      "automatically disabled", in order and with their records. */
  lemma BulkMeans(st: Stored, k: int, json: Json) returns (s: seq<int>)
    requires CleanColumn(st.column, json) && Valid(st, json)
    requires 0 <= k < |GetKeys(st.column, json)| && RecordOf(st, k).status != 3
    ensures Keeps(st, DeleteFailedAt(st, json), s, json)
    ensures forall i :: i in s <==> 0 <= i < |GetKeys(st.column, json)| && RecordOf(st, i).status != 3
  {
    s := Survivors(|GetKeys(st.column, json)|, Failed(Listed(st, json)));
    forall i
      ensures i in s <==> 0 <= i < |GetKeys(st.column, json)| && RecordOf(st, i).status != 3
    {
      SurvivorsOfValid(Listed(st, json), i);
    }
    DeleteFailedClean(st, json);
    ListedKeeps(st, DeleteFailedAt(st, json), s, json);
  }

  /** A key that disable_key disabled survives a bulk deletion, still disabled. */
  lemma DisabledSurvives(st: Stored, i: int, json: Json)
    requires CleanColumn(st.column, json) && Valid(st, json) && 0 <= i < st.size
    ensures var r := DeleteFailedAt(DisableAt(st, i, json), json);
            exists j :: 0 <= j < |GetKeys(r.column, json)|
              && GetKeys(r.column, json)[j] == GetKeys(st.column, json)[i] && RecordOf(r, j).status == 2
  {
    DisableMeans(st, i, json);
    var s := BulkMeans(DisableAt(st, i, json), i, json);
    var j :| 0 <= j < |s| && s[j] == i;
  }

  /** A key that the relay failed, and that stands in the channel once, does not survive a bulk
      deletion, unless every key failed. */
  lemma FailedGoes(st: Stored, key: string, why: string, now: int, k: int, json: Json)
    requires CleanColumn(st.column, json) && Valid(st, json)
    requires forall i, j :: 0 <= i < j < |GetKeys(st.column, json)| && GetKeys(st.column, json)[i] == key ==> GetKeys(st.column, json)[j] != key
    requires 0 <= k < |GetKeys(st.column, json)| && GetKeys(st.column, json)[k] != key && RecordOf(st, k).status != 3
    ensures key !in GetKeys(DeleteFailedAt(SetStatusAt(st, key, AUTO_DISABLED, why, now, json), json).column, json)
  {
    StatusMeans(st, key, AUTO_DISABLED, why, now, json);
    StatusValid(st, key, AUTO_DISABLED, why, now, json);
    MarkedGoes(SetStatusAt(st, key, AUTO_DISABLED, why, now, json), key, k, json);
  }

  lemma MarkedGoes(st: Stored, key: string, k: int, json: Json)
    requires CleanColumn(st.column, json) && Valid(st, json)
    requires forall i :: 0 <= i < |GetKeys(st.column, json)| && GetKeys(st.column, json)[i] == key ==> RecordOf(st, i).status == 3
    requires 0 <= k < |GetKeys(st.column, json)| && RecordOf(st, k).status != 3
    ensures key !in GetKeys(DeleteFailedAt(st, json).column, json)
  {
    var s := BulkMeans(st, k, json);
    NotKept(GetKeys(st.column, json), GetKeys(DeleteFailedAt(st, json).column, json), s, key);
  }

  lemma NotKept(keys: seq<string>, left: seq<string>, s: seq<int>, key: string)
    requires |left| == |s| && forall j :: 0 <= j < |s| ==> 0 <= s[j] < |keys| && left[j] == keys[s[j]]
    requires forall i :: 0 <= i < |keys| && keys[i] == key ==> i !in s
    ensures key !in left
  {
  }

  // ----- Appending and replacing -----

  /** The names that a request for appending gives: the trimmed lines of a plain text, the one text of
      a Vertex key, the elements of a Vertex array; none when the array is malformed. */
  predicate Gives(request: KeyText, names: set<string>) {
    if !request.vertex then names == NameSet(Split(request.text, '\n'))
    else if Bracketed(request.text) then request.elements.Some? && names == NameSet(request.elements.value)
    else names == NameSet([request.text])
  }

  /** Appending clean keys to a clean channel leaves the old keys at their indices and then exactly
      the names that the request gives and the channel lacked, each once. */
  lemma AppendMeans(st: Stored, request: KeyText, names: set<string>, json: Json)
    requires CleanColumn(st.column, json) && st.column != "" && Gives(request, names)
    requires forall key :: key in names ==> CleanKey(key)
    ensures var old', keys := GetKeys(st.column, json), GetKeys(AppendAt(st, request, json).column, json);
            && old' <= keys && NameSet(keys) == NameSet(old') + names
            && Normal(keys[|old'|..]) && Elems(keys[|old'|..]) == names - NameSet(old')
  {
    var newKeys := NewKeys(request).value;
    assert names == NameSet(newKeys);
    AppendMore(st, request, newKeys, json);
    NoEmptyKeys(st.column, json);
    AddedKeys(GetKeys(st.column, json), newKeys, Deduped(newKeys, GetKeys(st.column, json)));
  }

  lemma AddedKeys(keys: seq<string>, newKeys: seq<string>, added: seq<string>)
    requires added == Without(Normalize(newKeys), NameSet(keys))
    ensures NameSet(keys + added) == NameSet(keys) + NameSet(newKeys)
    ensures Normal(added) && Elems(added) == NameSet(newKeys) - NameSet(keys)
    ensures keys <= keys + added && (keys + added)[|keys|..] == added
  {
    NormalizeIsNormal(newKeys);
    WithoutNormal(Normalize(newKeys), NameSet(keys));
    NameSetOfNormal(added);
    NameSetAppend(keys, added);
  }

  /** A malformed Vertex array changes nothing. */
  lemma MalformedAppend(st: Stored, request: KeyText, json: Json)
    requires st.column != "" && request.vertex && Bracketed(request.text) && request.elements.None?
    ensures AppendAt(st, request, json) == st
  {
  }

  /** Clean keys, one per line, become the keys of a channel that they replace or that has none, and
      the records stay except the statuses beyond them. */
  lemma LinesBecomeKeys(st: Stored, keys: seq<string>, vertex: bool, json: Json)
    requires CleanKeys(keys) && keys != []
    ensures var text := Join(keys, '\n');
            var request := KeyText(text, vertex, None);
            var r := ReplaceAt(st, text, json);
            && GetKeys(r.column, json) == keys && r.size == |keys|
            && (forall i :: RecordOf(r, i) == if i < |keys| then RecordOf(st, i) else RecordOf(st, i).(status := 1))
            && (st.column == "" ==> AppendAt(st, request, json) == r)
  {
    CleanKeysReadBack(keys, json);
  }

  /** The elements of a JSON array are the keys of its column, for every reader. */
  lemma ArrayIsRead(column: string, elements: seq<string>, json: Json)
    requires column != "" && Bracketed(column) && json(TrimSpace(column)) == Some(elements)
    ensures GetKeys(column, json) == elements && ExistingKeys(column, json) == elements
    ensures elements != [] ==> CountKeys(column, json) == |elements|
  {
  }
}
