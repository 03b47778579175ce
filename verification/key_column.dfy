/** The key column of a channel and the key list it stands for: GetKeys of model/channel.go and the
    append branch of UpdateChannel in controller/channel.go. */
module KeyColumn {
  import opened Wrappers
  import opened Text
  import opened Lists
  import opened MultiKey

  /** The elements of a JSON array, if the text is one. */
  type Json = string -> Option<seq<string>>

  predicate IsNewline(c: char) {
    c == '\n'
  }

  predicate Bracketed(column: string) {
    "[" <= TrimSpace(column)
  }

  function Lines(column: string): seq<string> {
    Split(Trim(column, IsNewline), '\n')
  }

  function GetKeys(column: string, json: Json): seq<string> {
    if column == "" then []
    else if Bracketed(column) && json(TrimSpace(column)).Some? then json(TrimSpace(column)).value
    else Lines(column)
  }

  /** What the append branch takes for the existing keys. */
  function ExistingKeys(column: string, json: Json): seq<string> {
    if !Bracketed(column) then Lines(column)
    else if json(TrimSpace(column)).Some? then json(TrimSpace(column)).value
    else []
  }

  /** The append branch sees the keys the channel has, except that it drops every key of a column
      that starts with a bracket and is not a JSON array. */
  lemma AppendSeesKeys(column: string, json: Json)
    requires column != ""
    ensures ExistingKeys(column, json) == GetKeys(column, json)
            <==> !(Bracketed(column) && json(TrimSpace(column)).None?)
  {
  }

  predicate NewlineFree(keys: seq<string>) {
    forall key :: key in keys ==> '\n' !in key
  }

  /** Lines hold no newline, and the outer ones are not empty unless there is only one. */
  lemma LinesEnds(column: string)
    ensures NewlineFree(Lines(column))
    ensures var keys := Lines(column); keys == [""] || (keys[0] != "" && keys[|keys| - 1] != "")
  {
    var text := Trim(column, IsNewline);
    TrimCutsEnds(column, IsNewline);
    if text != "" {
      SplitStarts(text, '\n');
      SplitStops(text, '\n');
    }
  }

  lemma JoinedEnds(keys: seq<string>)
    requires keys != [] && NewlineFree(keys) && keys[0] != "" && keys[|keys| - 1] != ""
    ensures Join(keys, '\n') != "" && HasNoEnds(Join(keys, '\n'), IsNewline)
  {
    var first, last := keys[0], keys[|keys| - 1];
    assert '\n' !in first && '\n' !in last;
    JoinEnds(keys, '\n');
    assert first[0] in first && last[|last| - 1] in last;
  }

  /** Keys saved one per line are read back as they were exactly when no key holds a newline and
      neither the first nor the last is empty. */
  lemma LinesReadBack(keys: seq<string>)
    requires keys != [] && Join(keys, '\n') != ""
    ensures Lines(Join(keys, '\n')) == keys <==> NewlineFree(keys) && keys[0] != "" && keys[|keys| - 1] != ""
  {
    if NewlineFree(keys) && keys[0] != "" && keys[|keys| - 1] != "" {
      JoinedEnds(keys);
      TrimCutsEnds(Join(keys, '\n'), IsNewline);
      SplitJoin(keys, '\n');
    } else {
      LinesEnds(Join(keys, '\n'));
    }
  }

  /** The same for the whole column, which is empty for no keys. */
  lemma SavedKeysReadBack(keys: seq<string>, json: Json)
    requires !(Bracketed(Join(keys, '\n')) && json(TrimSpace(Join(keys, '\n'))).Some?)
    ensures GetKeys(Join(keys, '\n'), json) == keys
            <==> keys == [] || (NewlineFree(keys) && keys[0] != "" && keys[|keys| - 1] != "")
  {
    if keys != [] {
      if Join(keys, '\n') != "" {
        LinesReadBack(keys);
      } else if NewlineFree(keys) && keys[0] != "" && keys[|keys| - 1] != "" {
        JoinedEnds(keys);
      }
    }
  }

  /** After a deletion the column is read back as the keys that are left, under their new indices,
      exactly when neither outer one of them is empty. */
  lemma DeletionReadsBack(st: KeyState, drop: set<int>, json: Json)
    requires NewlineFree(st.keys) && Reindex(st, drop).keys != []
    requires var column := Join(Reindex(st, drop).keys, '\n'); !(Bracketed(column) && json(TrimSpace(column)).Some?)
    ensures var keys := Reindex(st, drop).keys;
            GetKeys(Join(keys, '\n'), json) == keys <==> keys[0] != "" && keys[|keys| - 1] != ""
  {
    var keys := Reindex(st, drop).keys;
    SurvivorsMeaning(|st.keys|, drop);
    assert forall j :: 0 <= j < |keys| ==> keys[j] in st.keys;
    SavedKeysReadBack(keys, json);
  }

  /** A key that can be stored on a line of its own, wherever it stands. */
  predicate CleanKey(key: string) {
    '\n' !in key && TrimSpace(key) != "" && !Bracketed(key)
  }

  predicate CleanKeys(keys: seq<string>) {
    forall key :: key in keys ==> CleanKey(key)
  }

  lemma JoinStarts(keys: seq<string>)
    requires keys != []
    ensures exists rest :: Join(keys, '\n') == keys[0] + rest
  {
    if |keys| == 1 {
      assert Join(keys, '\n') == keys[0] + "";
    } else {
      assert Join(keys, '\n') == keys[0] + (['\n'] + Join(keys[1..], '\n'));
    }
  }

  /** A column starts with a bracket exactly when its first key does, if that is not blank. */
  lemma BracketedByFirst(keys: seq<string>)
    requires keys != [] && TrimSpace(keys[0]) != ""
    ensures Join(keys, '\n') != "" && (Bracketed(Join(keys, '\n')) <==> Bracketed(keys[0]))
  {
    JoinStarts(keys);
    var rest :| Join(keys, '\n') == keys[0] + rest;
    TrimmedStart(keys[0], rest);
    assert TrimSpace("") == "";
    assert TrimSpace(Join(keys, '\n')) != "" ==> Join(keys, '\n') != "";
  }

  /** Clean keys, saved one per line, are read back as they were by every reader. */
  lemma CleanKeysReadBack(keys: seq<string>, json: Json)
    requires keys != [] && CleanKeys(keys)
    ensures var column := Join(keys, '\n');
            && column != "" && !Bracketed(column) && Lines(column) == keys
            && GetKeys(column, json) == keys && ExistingKeys(column, json) == keys
  {
    assert CleanKey(keys[0]) && CleanKey(keys[|keys| - 1]);
    assert TrimSpace("") == "";
    BracketedByFirst(keys);
    LinesReadBack(keys);
  }

  /** An empty key between two others: once the first is deleted the empty one is at the start and
      is lost, and the last key moves to its index. */
  lemma EmptyKeyIsLost(first: string, last: string)
    requires first != "" && last != "" && '\n' !in first && '\n' !in last
    ensures Lines(Join([first, "", last], '\n')) == [first, "", last]
    ensures Lines(Join(["", last], '\n')) == [last]
  {
    LinesReadBack([first, "", last]);
    SplitWhole(last, '\n');
    TrimCutsEnds(last, IsNewline);
    assert Join(["", last], '\n')[1..] == last;
  }
}
