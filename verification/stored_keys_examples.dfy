/** Other laws of stored channels, and what goes wrong on columns that are not clean. */
module StoredKeysExamples {
  import opened Wrappers
  import opened Text
  import opened Lists
  import opened NameLists
  import opened MultiKey
  import opened KeyColumn
  import opened StoredKeys
  import opened StoredKeysLaws
  import opened CleanKeysLaws

  // ----- Disabling and enabling -----

  /** Enabling a key undoes disabling it, together with whatever was recorded of it before; so the
      pair leaves a valid channel as it was exactly when the key was enabled. */
  lemma EnableUndoesDisable(st: Stored, i: int, json: Json)
    requires Valid(st, json) && 0 <= i < st.size
    ensures EnableAt(DisableAt(st, i, json), i, json) == EnableAt(st, i, json)
    ensures EnableAt(DisableAt(st, i, json), i, json) == st <==> StatusOf(st.status, i) == ENABLED
  {
    SavedAgain(st, st.status[i := MANUALLY_DISABLED], st.time, st.reason, json);
    SavedAgain(st, st.status - {i}, st.time - {i}, st.reason - {i}, json);
    assert st.status[i := MANUALLY_DISABLED] - {i} == st.status - {i};
    if StatusOf(st.status, i) == ENABLED {
      assert i !in st.status.Keys && i !in st.time.Keys && i !in st.reason.Keys;
      assert st.status - {i} == st.status && st.time - {i} == st.time && st.reason - {i} == st.reason;
    } else {
      assert i in st.status.Keys && i !in (st.status - {i}).Keys;
    }
  }

  /** Disabling all keys leaves none enabled and fails none: bulk deletion afterwards leaves the
      keys it would have left before. */
  lemma DisableAllFailsNone(st: Stored, json: Json)
    requires Valid(st, json)
    ensures var r := DisableEveryAt(st, json);
            && r.column == st.column && (forall i :: 0 <= i < r.size ==> StatusOf(r.status, i) != ENABLED)
            && Failed(Listed(r, json)) == Failed(Listed(st, json))
            && DeleteFailedAt(r, json).column == DeleteFailedAt(st, json).column
  {
    SavedAgain(st, DisabledBelow(st.status, st.size), st.time, st.reason, json);
    var r := DisableEveryAt(st, json);
    assert forall i :: 0 <= i < st.size ==>
      StatusOf(r.status, i) == if StatusOf(st.status, i) == ENABLED then MANUALLY_DISABLED else StatusOf(st.status, i);
    assert Failed(Listed(r, json)) == Failed(Listed(st, json));
    assert WithoutFailures(Listed(r, json)).keys == WithoutFailures(Listed(st, json)).keys;
  }

  // ----- Appending again -----

  lemma {:induction false} PiecesHave(xs: seq<string>, x: string, k: string, sep: char)
    requires x in xs && k in NameSet(Split(x, sep))
    ensures k in NameSet(AllPieces(xs, sep))
  {
    NameSetAppend(Split(xs[0], sep), AllPieces(xs[1..], sep));
    if x != xs[0] {
      PiecesHave(xs[1..], x, k, sep);
    }
  }

  lemma {:induction false} PiecesFree(xs: seq<string>, sep: char)
    ensures forall piece :: piece in AllPieces(xs, sep) ==> sep !in piece
  {
    if xs != [] {
      PiecesFree(xs[1..], sep);
    }
  }

  lemma TrimmedFree(xs: seq<string>, k: string, sep: char)
    requires k in NameSet(xs) && forall x :: x in xs ==> sep !in x
    ensures sep !in k
  {
    var x :| x in xs && TrimSpace(x) == k;
    TrimCutsEnds(x, IsSpace);
  }

  /** The names of a saved list as they are read back by lines. */
  lemma LinesArePieces(keys: seq<string>)
    requires keys != []
    ensures NameSet(Lines(Join(keys, '\n'))) == NameSet(AllPieces(keys, '\n'))
  {
    TrimDropsBlanks(Join(keys, '\n'), IsNewline, '\n');
    SplitJoinPieces(keys, '\n');
  }

  lemma AppendedKeyReadBack(existing: seq<string>, newKeys: seq<string>, k: string)
    requires NewlineFree(existing) && k in NameSet(newKeys)
    ensures k in NameSet(AllPieces(existing + Deduped(newKeys, existing), '\n')) <==> '\n' !in k
  {
    var all := existing + Deduped(newKeys, existing);
    if k in NameSet(AllPieces(all, '\n')) {
      PiecesFree(all, '\n');
      TrimmedFree(AllPieces(all, '\n'), k, '\n');
    }
    if '\n' !in k {
      var x := AppendedFrom(existing, newKeys, k);
      SplitWhole(x, '\n');
      assert [x][0] in [x];
      PiecesHave(all, x, k, '\n');
    }
  }

  /** Where a requested key stands in the list that is saved. */
  lemma AppendedFrom(existing: seq<string>, newKeys: seq<string>, k: string) returns (x: string)
    requires NewlineFree(existing) && k in NameSet(newKeys) && '\n' !in k
    ensures x in existing + Deduped(newKeys, existing) && '\n' !in x && TrimSpace(x) == k && k != ""
  {
    NormalizeIsNormal(newKeys);
    NamesAreTrimmed(newKeys, k);
    if k in NameSet(existing) {
      x :| x in existing && TrimSpace(x) == k;
    } else {
      WithoutNormal(Normalize(newKeys), NameSet(existing));
      assert k in Elems(Deduped(newKeys, existing));
      x := k;
      TrimmedName(k);
    }
  }

  /** On a column of lines the same append request finds nothing to add a second time exactly when
      no key of the request holds a newline: such a key is split when it is read back. */
  lemma SecondAppend(column: string, newKeys: seq<string>, json: Json)
    requires !Bracketed(column) && !Bracketed(AppendedText(column, newKeys, json))
    ensures Deduped(newKeys, ExistingKeys(AppendedText(column, newKeys, json), json)) == []
            <==> forall k :: k in NameSet(newKeys) ==> '\n' !in k
  {
    var existing := Lines(column);
    var all := existing + Deduped(newKeys, existing);
    LinesEnds(column);
    LinesArePieces(all);
    NothingNew(newKeys, Lines(Join(all, '\n')));
    forall k | k in NameSet(newKeys)
      ensures k in NameSet(Lines(Join(all, '\n'))) <==> '\n' !in k
    {
      AppendedKeyReadBack(existing, newKeys, k);
    }
  }

  lemma NothingNew(newKeys: seq<string>, existing: seq<string>)
    ensures Deduped(newKeys, existing) == [] <==> forall k :: k in NameSet(newKeys) ==> k in NameSet(existing)
  {
    NormalizeIsNormal(newKeys);
    WithoutNormal(Normalize(newKeys), NameSet(existing));
    NoElems(Deduped(newKeys, existing));
    NoneBeyond(NameSet(newKeys), NameSet(existing));
  }

  lemma NoneBeyond<T>(s: set<T>, t: set<T>)
    ensures s - t == {} <==> forall x :: x in s ==> x in t
  {
    forall x | x in s
      ensures s - t == {} ==> x in t
    {
      assert x !in t ==> x in s - t;
    }
  }

  // ----- Columns that are not clean -----

  /** Appending to a column that starts with a bracket and is no JSON array drops its keys. */
  lemma BracketedKeysDropped(st: Stored, request: KeyText, json: Json)
    requires st.column != "" && Bracketed(st.column) && json(TrimSpace(st.column)).None? && NewKeys(request).Some?
    ensures AppendAt(st, request, json).column == Kept(st.column, Join(Normalize(NewKeys(request).value), '\n'))
  {
    var newKeys := NewKeys(request).value;
    assert NameSet([]) == {};
    WithoutNone(Normalize(newKeys), NameSet([]));
    assert [] + Normalize(newKeys) == Normalize(newKeys);
  }

  /** An array without elements is stored with the size of its lines. */
  lemma EmptyArrayMiscounted(st: Stored, text: string, json: Json)
    requires text != "" && Bracketed(text) && json(TrimSpace(text)) == Some([])
    ensures !Valid(ReplaceAt(st, text, json), json)
  {
    CountedExactly(text, json);
  }

  /** A channel of three keys whose middle one is empty. */
  function Gap(a: string, b: string, status: map<int, int>, time: map<int, int>, reason: map<int, string>): Stored {
    Stored(Join([a, "", b], '\n'), 3, status, time, reason)
  }

  lemma GapKeys(a: string, b: string, json: Json)
    requires CleanKey(a) && CleanKey(b)
    ensures var column := Join([a, "", b], '\n');
            GetKeys(column, json) == [a, "", b] && Counted(column, json)
  {
    assert TrimSpace("") == "";
    BracketedByFirst([a, "", b]);
    EmptyKeyIsLost(a, b);
  }

  /** Reading an empty line before a key. */
  lemma LeadingLine(b: string, json: Json)
    requires CleanKey(b)
    ensures var column := Join(["", b], '\n');
            column != "" && GetKeys(column, json) == [b] && Counted(column, json)
  {
    assert TrimSpace("") == "";
    EmptyKeyIsLost(b, b);
    assert Join(["", b], '\n') == ['\n'] + b;
    TrimLeftNext('\n', b, IsSpace);
  }

  /** A deletion that leaves a time at or above the number of keys that are read back. */
  lemma StatusLost(st: Stored, i: int, j: int, json: Json)
    requires Valid(st, json) && 0 <= i < st.size && Survivors(|GetKeys(st.column, json)|, {i}) != []
    requires var left := Reindex(Listed(st, json), {i});
             j in left.time.Keys && j >= |GetKeys(Kept(st.column, Join(left.keys, '\n')), json)|
    ensures !Harmless(st, Delete(i), json) && !Valid(DeleteAt(st, i, json), json)
  {
    StepValid(st, Delete(i), json);
  }

  lemma GapLeft(a: string, b: string, l: KeyState, t: int)
    requires l.keys == [a, "", b] && l.time == map[2 := t]
    ensures Survivors(|l.keys|, {0}) == [1, 2]
    ensures Reindex(l, {0}).keys == ["", b] && 1 in Reindex(l, {0}).time.Keys
  {
    FirstOfThree();
  }

  lemma GapValid(st: Stored, a: string, b: string, json: Json)
    requires Counted(st.column, json) && GetKeys(st.column, json) == [a, "", b] && st.size == 3
    requires Coherent(st.status, st.time, st.reason) && forall i :: i in st.status ==> i < 3
    ensures Valid(st, json)
  {
    ListedValid(Listed(st, json));
  }

  /** The last key failed and the first is deleted: its record stays without a status. */
  lemma DeletionLosesStatus(a: string, b: string, t: int, why: string, json: Json)
    requires CleanKey(a) && CleanKey(b)
    ensures var st := Gap(a, b, map[2 := AUTO_DISABLED], map[2 := t], map[2 := why]);
            Valid(st, json) && !Harmless(st, Delete(0), json) && !Valid(DeleteAt(st, 0, json), json)
  {
    var st := Gap(a, b, map[2 := AUTO_DISABLED], map[2 := t], map[2 := why]);
    GapKeys(a, b, json);
    GapValid(st, a, b, json);
    GapLeft(a, b, Listed(st, json), t);
    LeadingLine(b, json);
    StatusLost(st, 0, 1, json);
  }

  lemma FirstOfThree()
    ensures Survivors(3, {0}) == [1, 2] && Survivors(3, {2}) == [0, 1] && Survivors(3, {0, 2}) == [1]
  {
    assert Survivors(1, {0}) == [] && Survivors(2, {0}) == [1];
    assert Survivors(1, {2}) == [0] && Survivors(2, {2}) == [0, 1];
    assert Survivors(1, {0, 2}) == [] && Survivors(2, {0, 2}) == [1];
  }

  // ----- An empty key survives alone -----

  /** Bulk deletion that is left with one empty key stores no column: every key stays, and no
      failure is recorded any more. */
  lemma EmptySurvivor(st: Stored, json: Json)
    requires Failed(Listed(st, json)) != {} && WithoutFailures(Listed(st, json)).keys == [""]
    ensures DeleteFailedAt(st, json).column == st.column
  {
  }

  lemma GapFailed(l: KeyState)
    requires |l.keys| == 3 && l.status == map[0 := AUTO_DISABLED, 2 := AUTO_DISABLED]
    ensures Failed(l) == {0, 2}
  {
    assert forall i :: i in Failed(l) <==> i == 0 || i == 2;
  }

  lemma GapKept(a: string, b: string, l: KeyState, drop: set<int>)
    requires l.keys == [a, "", b] && (drop == {2} || drop == {0, 2})
    ensures Reindex(l, drop).keys == if drop == {2} then [a, ""] else [""]
  {
    FirstOfThree();
  }

  lemma TrailingLine(a: string, json: Json)
    requires CleanKey(a)
    ensures GetKeys(Join([a, ""], '\n'), json) == [a]
  {
    var column := Join([a, ""], '\n');
    assert TrimSpace("") == "";
    BracketedByFirst([a, ""]);
    assert column == a + ['\n'];
    assert column[..|a|] == a;
    assert !IsNewline(a[0]) && !IsNewline(a[|a| - 1]) by {
      assert a[0] in a && a[|a| - 1] in a;
    }
    assert TrimLeft(column, IsNewline) == column;
    assert TrimRight(column, IsNewline) == TrimRight(a, IsNewline) == a;
    SplitWhole(a, '\n');
  }

  /** Single deletions stop at the last key. */
  lemma StopsAtOne(st: Stored, json: Json)
    requires |GetKeys(st.column, json)| == 3 && Failed(Listed(st, json)) == {0, 2}
    requires |GetKeys(DeleteAt(st, 2, json).column, json)| == 1
    ensures DeleteEach(st, json) == DeleteAt(st, 2, json)
  {
    assert Survivors(1, {0}) == [];
    assert DeleteDown(st, {0, 2}, 3, 2, json) == DeleteAt(st, 2, json);
    assert DeleteDown(st, {0, 2}, 3, 1, json) == DeleteAt(st, 2, json);
  }

  lemma DeletedColumn(st: Stored, i: int, json: Json)
    requires 0 <= i < st.size && Survivors(|GetKeys(st.column, json)|, {i}) != []
    ensures DeleteAt(st, i, json).column == Kept(st.column, Join(Reindex(Listed(st, json), {i}).keys, '\n'))
  {
  }

  /** The outer keys failed and the middle one is empty: bulk deletion keeps all three keys, while
      deleting the last and then the first leaves another column. */
  lemma BulkDiffersOnEmptyKey(a: string, b: string, json: Json)
    requires CleanKey(a) && CleanKey(b)
    ensures var st := Gap(a, b, map[0 := AUTO_DISABLED, 2 := AUTO_DISABLED], map[], map[]);
            && Valid(st, json) && Survivors(3, Failed(Listed(st, json))) != []
            && DeleteFailedAt(st, json).column == st.column && DeleteEach(st, json).column != st.column
  {
    var st := Gap(a, b, map[0 := AUTO_DISABLED, 2 := AUTO_DISABLED], map[], map[]);
    GapKeys(a, b, json);
    GapValid(st, a, b, json);
    var l := Listed(st, json);
    GapFailed(l);
    GapKept(a, b, l.(time := OfDisabled(l.time, l.status), reason := OfDisabled(l.reason, l.status)), {0, 2});
    GapKept(a, b, l, {2});
    FirstOfThree();
    EmptySurvivor(st, json);
    DeletedColumn(st, 2, json);
    TrailingLine(a, json);
    ShorterColumn(a, b);
    StopsAtOne(st, json);
  }

  lemma ShorterColumn(a: string, b: string)
    ensures 0 < |Join([a, ""], '\n')| < |Join([a, "", b], '\n')|
  {
    assert Join([a, ""], '\n') == a + (['\n'] + "");
    assert Join(["", b], '\n') == "" + (['\n'] + b);
    assert Join([a, "", b], '\n') == a + (['\n'] + Join(["", b], '\n'));
  }
}
