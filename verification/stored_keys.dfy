/** A multi-key channel as it is stored: the key column and the records by index. Every action reads
    the keys from the column and writes them back joined (controller/channel.go, Channel.Update and
    handlerMultiKeyUpdate of model/channel.go). */
module StoredKeys {
  import opened Wrappers
  import opened Text
  import opened Lists
  import opened NameLists
  import opened MultiKey
  import opened KeyColumn

  datatype Stored = Stored(
    column: string,
    size: nat,
    status: map<int, int>,
    time: map<int, int>,
    reason: map<int, string>)

  /** The stored channel as a key list with records. */
  function Listed(st: Stored, json: Json): KeyState {
    KeyState(GetKeys(st.column, json), st.size, st.status, st.time, st.reason)
  }

  /** The count that Update stores: an array without elements is counted by lines. */
  function CountKeys(column: string, json: Json): nat {
    if column == "" then 0
    else if Bracketed(column) && json(TrimSpace(column)).Some? && json(TrimSpace(column)).value != [] then
      |json(TrimSpace(column)).value|
    else |Lines(column)|
  }

  /** The column after a save: an empty text is not written. */
  function Kept(column: string, text: string): string {
    if text == "" then column else text
  }

  function Save(st: Stored, text: string, json: Json): Stored {
    var column := Kept(st.column, text);
    var size := CountKeys(column, json);
    Stored(column, size, map i | i in st.status && i < size :: st.status[i], st.time, st.reason)
  }

  // ----- What the actions do -----

  function DisableAt(st: Stored, i: int, json: Json): Stored {
    if 0 <= i < st.size then Save(st.(status := st.status[i := MANUALLY_DISABLED]), st.column, json) else st
  }

  function EnableAt(st: Stored, i: int, json: Json): Stored {
    if 0 <= i < st.size then
      Save(st.(status := st.status - {i}, time := st.time - {i}, reason := st.reason - {i}), st.column, json)
    else st
  }

  function EnableEveryAt(st: Stored, json: Json): Stored {
    Save(st.(status := map[], time := map[], reason := map[]), st.column, json)
  }

  function DisableEveryAt(st: Stored, json: Json): Stored {
    if forall i :: 0 <= i < st.size ==> StatusOf(st.status, i) != ENABLED then st
    else Save(st.(status := DisabledBelow(st.status, st.size)), st.column, json)
  }

  /** Stores the keys and records that a deletion left. */
  function SaveList(st: Stored, left: KeyState, json: Json): Stored {
    Save(Stored(st.column, left.size, left.status, left.time, left.reason), Join(left.keys, '\n'), json)
  }

  function DeleteAt(st: Stored, i: int, json: Json): Stored {
    var l := Listed(st, json);
    if !(0 <= i < st.size) || Survivors(|l.keys|, {i}) == [] then st else SaveList(st, Reindex(l, {i}), json)
  }

  function DeleteFailedAt(st: Stored, json: Json): Stored {
    var l := Listed(st, json);
    if Failed(l) == {} then st else SaveList(st, WithoutFailures(l), json)
  }

  /** The key text of an update; a Vertex channel takes one JSON key or an array of them. */
  datatype KeyText = KeyText(text: string, vertex: bool, elements: Option<seq<string>>)

  /** The keys an append request gives, unless its array is malformed. */
  function NewKeys(request: KeyText): Option<seq<string>> {
    if !request.vertex then Some(Split(request.text, '\n'))
    else if Bracketed(request.text) then request.elements
    else Some([request.text])
  }

  function Deduped(newKeys: seq<string>, existing: seq<string>): seq<string> {
    Without(Normalize(newKeys), NameSet(existing))
  }

  function AppendedText(column: string, newKeys: seq<string>, json: Json): string {
    var existing := ExistingKeys(column, json);
    Join(existing + Deduped(newKeys, existing), '\n')
  }

  function AppendAt(st: Stored, request: KeyText, json: Json): Stored {
    if st.column == "" then Save(st, request.text, json)
    else if NewKeys(request).None? then st
    else Save(st, AppendedText(st.column, NewKeys(request).value, json), json)
  }

  function ReplaceAt(st: Stored, text: string, json: Json): Stored {
    Save(st, text, json)
  }

  /** handlerMultiKeyUpdate: the relay disables a failing key, or enables it again. */
  function SetStatusAt(st: Stored, key: string, status: int, why: string, now: int, json: Json): Stored {
    var i := IndexOf(GetKeys(st.column, json), key);
    if i < 0 then st
    else if status == ENABLED then st.(status := st.status - {i})
    else st.(status := st.status[i := status], time := st.time[i := now], reason := st.reason[i := why])
  }

  // ----- The channel -----

  class MultiKeyChannel {
    var column: string
    var size: nat
    var status: map<int, int>
    var time: map<int, int>
    var reason: map<int, string>

    ghost function Value(): Stored
      reads this
    {
      Stored(column, size, status, time, reason)
    }

    /** Channel.Update with the given key text. */
    method Update(text: string, json: Json)
      modifies this
      ensures Value() == Save(old(Value()), text, json)
    {
      if text != "" {
        column := text;
      }
      size := CountedKeys(column, json);
      status := map i | i in status && i < size :: status[i];
    }

    method Disable(index: int, json: Json) returns (ok: bool)
      modifies this
      ensures Value() == DisableAt(old(Value()), index, json)
      ensures ok <==> 0 <= index < old(size)
    {
      if index < 0 || index >= size {
        return false;
      }
      status := status[index := MANUALLY_DISABLED];
      Update(column, json);
      ok := true;
    }

    method Enable(index: int, json: Json) returns (ok: bool)
      modifies this
      ensures Value() == EnableAt(old(Value()), index, json)
      ensures ok <==> 0 <= index < old(size)
    {
      if index < 0 || index >= size {
        return false;
      }
      status := status - {index};
      time := time - {index};
      reason := reason - {index};
      Update(column, json);
      ok := true;
    }

    method EnableAllKeys(json: Json) returns (enabledCount: nat)
      modifies this
      ensures Value() == EnableEveryAt(old(Value()), json)
      ensures enabledCount == |old(status)|
    {
      enabledCount := |status|;
      status, time, reason := map[], map[], map[];
      Update(column, json);
    }

    method DisableAllKeys(json: Json) returns (disabledCount: nat)
      modifies this
      ensures Value() == DisableEveryAt(old(Value()), json)
      ensures disabledCount == |EnabledBelow(old(status), old(size))|
    {
      NoneEnabled(Listed(Value(), json));
      var newStatus;
      newStatus, disabledCount := DisableEnabled(status, size);
      if disabledCount == 0 {
        return;
      }
      status := newStatus;
      Update(column, json);
    }

    /** Stores what a deletion loop left. */
    method Replaced(remaining: seq<string>, newStatus: map<int, int>, newTime: map<int, int>, newReason: map<int, string>, json: Json)
      modifies this
      ensures Value() == SaveList(old(Value()), KeyState(remaining, |remaining|, newStatus, newTime, newReason), json)
    {
      status, time, reason := newStatus, newTime, newReason;
      size := |remaining|;
      Update(Join(remaining, '\n'), json);
    }

    method Delete(index: int, json: Json) returns (ok: bool)
      modifies this
      ensures Value() == DeleteAt(old(Value()), index, json)
      ensures ok <==> 0 <= index < old(size) && Survivors(|GetKeys(old(column), json)|, {index}) != []
    {
      if index < 0 || index >= size {
        return false;
      }
      var keys := GetKeys(column, json);
      var remaining, newStatus, newTime, newReason := WithoutKey(keys, status, time, reason, index);
      LeftByLoop(Listed(Value(), json), {index}, remaining, newStatus, newTime, newReason);
      if |remaining| == 0 {
        return false;
      }
      Replaced(remaining, newStatus, newTime, newReason, json);
      ok := true;
    }

    method DeleteDisabledKeys(json: Json) returns (deletedCount: nat)
      modifies this
      ensures Value() == DeleteFailedAt(old(Value()), json)
      ensures var l := Listed(old(Value()), json); deletedCount == |l.keys| - |Survivors(|l.keys|, Failed(l))|
    {
      ghost var l := Listed(Value(), json);
      var remaining, newStatus, newTime, newReason;
      remaining, newStatus, newTime, newReason, deletedCount := WithoutFailed(GetKeys(column, json), status, time, reason);
      LeftByLoop(l.(time := OfDisabled(l.time, l.status), reason := OfDisabled(l.reason, l.status)), Failed(l),
                 remaining, newStatus, newTime, newReason);
      NoneFailed(l);
      if deletedCount != 0 {
        Replaced(remaining, newStatus, newTime, newReason, json);
      }
    }

    /** The replace mode of UpdateChannel. */
    method Replace(text: string, json: Json)
      modifies this
      ensures Value() == ReplaceAt(old(Value()), text, json)
    {
      Update(text, json);
    }

    /** The append mode of UpdateChannel; a malformed Vertex array is refused. */
    method Append(request: KeyText, json: Json) returns (ok: bool)
      modifies this
      ensures Value() == AppendAt(old(Value()), request, json)
      ensures ok <==> old(column) == "" || !(request.vertex && Bracketed(request.text) && request.elements.None?)
    {
      ok := true;
      if column != "" {
        var existing := ExistingKeys(column, json);
        var newKeys;
        newKeys, ok := RequestedKeys(request);
        if !ok {
          return;
        }
        var seen := SeenKeys(existing);
        var deduped := Unseen(newKeys, seen);
        Update(Join(existing + deduped, '\n'), json);
      } else {
        Update(request.text, json);
      }
    }
  }

  /** How Update counts the keys of a column. */
  method CountedKeys(column: string, json: Json) returns (size: nat)
    ensures size == CountKeys(column, json)
  {
    var keys := [];
    if column != "" {
      var trimmed := TrimSpace(column);
      if "[" <= trimmed {
        var elements := json(trimmed);
        if elements.Some? {
          keys := elements.value;
        }
      }
      if |keys| == 0 {
        keys := Lines(column);
      }
    }
    size := |keys|;
  }

  /** What the append branch takes from the request, lines already trimmed. */
  method RequestedKeys(request: KeyText) returns (newKeys: seq<string>, ok: bool)
    ensures ok <==> NewKeys(request).Some?
    ensures ok ==> Normalize(newKeys) == Normalize(NewKeys(request).value)
  {
    ok := true;
    if request.vertex {
      if Bracketed(request.text) {
        if request.elements.None? {
          return [], false;
        }
        newKeys := request.elements.value;
      } else {
        newKeys := [request.text];
      }
    } else {
      newKeys := NonBlank(Split(request.text, '\n'));
      TrimNonEmptyTwice(Split(request.text, '\n'));
    }
  }

  /** The loop that marks the existing keys as seen. */
  method SeenKeys(existing: seq<string>) returns (seen: set<string>)
    ensures seen == NameSet(existing)
  {
    seen := {};
    for i := 0 to |existing|
      invariant seen == NameSet(existing[..i])
    {
      NameSetNext(existing, i);
      var normalized := TrimSpace(existing[i]);
      if normalized == "" {
        continue;
      }
      seen := seen + {normalized};
    }
    assert existing[..|existing|] == existing;
  }

  /** What the loops carry is the re-indexed list. */
  lemma LeftByLoop(l: KeyState, drop: set<int>, remaining: seq<string>, newStatus: map<int, int>, newTime: map<int, int>,
                   newReason: map<int, string>)
    requires Carried(l.keys, l.status, l.time, l.reason, Survivors(|l.keys|, drop), remaining, newStatus, newTime, newReason)
    ensures KeyState(remaining, |remaining|, newStatus, newTime, newReason) == Reindex(l, drop)
    ensures remaining == [] <==> Survivors(|l.keys|, drop) == []
  {
  }
}
