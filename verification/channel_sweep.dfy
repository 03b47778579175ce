/** The batch loops over all enabled channels: ApplyAllChannelUpstreamModelUpdates,
    DetectAllChannelUpstreamModelUpdates and runChannelUpstreamModelUpdateTaskOnce. */
module ChannelSweep {
  import opened Lists
  import opened SortedSets
  import opened NameLists
  import opened UpstreamModels
  import opened Reconciliation

  // ----- The ordered query -----

  /** The query of findEnabledChannelsAfterID: a positive last id restricts it to larger ids. */
  function Queried(enabled: set<int>, lastID: int): set<int> {
    if lastID > 0 then Above(enabled, lastID) else enabled
  }

  function EnabledAfter(enabled: set<int>, lastID: int, batchSize: nat): seq<int> {
    Limit(SortedIds(Queried(enabled, lastID)), batchSize)
  }

  function Limit(ids: seq<int>, n: nat): seq<int> {
    if |ids| <= n then ids else ids[..n]
  }

  /** Continuing after the k-th id yields the next batch. */
  lemma NextBatch(enabled: set<int>, k: nat, batchSize: nat)
    requires k <= |SortedIds(enabled)| && (k > 0 ==> SortedIds(enabled)[k - 1] > 0)
    ensures var all, lastID := SortedIds(enabled), if k == 0 then 0 else SortedIds(enabled)[k - 1];
            EnabledAfter(enabled, lastID, batchSize) == all[k..if k + batchSize <= |all| then k + batchSize else |all|]
  {
    NextQuery(enabled, k);
    LimitAt(SortedIds(enabled), k, batchSize);
  }

  lemma NextQuery(enabled: set<int>, k: nat)
    requires k <= |SortedIds(enabled)| && (k > 0 ==> SortedIds(enabled)[k - 1] > 0)
    ensures SortedIds(Queried(enabled, if k == 0 then 0 else SortedIds(enabled)[k - 1])) == SortedIds(enabled)[k..]
  {
    if k > 0 {
      SortedTail(enabled, k);
    }
  }

  lemma LimitAt(ids: seq<int>, k: nat, n: nat)
    requires k <= |ids|
    ensures Limit(ids[k..], n) == ids[k..if k + n <= |ids| then k + n else |ids|]
  {
  }

  // ----- When the loop ends -----

  function NonPositive(enabled: set<int>): set<int> {
    set id | id in enabled && id <= 0
  }

  /** Fewer non-positive ids than a batch holds. */
  predicate Advances(enabled: set<int>, batchSize: nat) {
    |NonPositive(enabled)| < batchSize
  }

  /** The k-th id is positive exactly when fewer than k are not. */
  lemma PositiveAt(enabled: set<int>, k: nat)
    requires 0 < k <= |SortedIds(enabled)|
    ensures SortedIds(enabled)[k - 1] > 0 <==> |NonPositive(enabled)| < k
  {
    var all, low := SortedIds(enabled), NonPositive(enabled);
    SortedIdsAscend(enabled);
    if all[k - 1] > 0 {
      LowBefore(enabled, k - 1);
      AscendingCount(all[..k - 1]);
      SubsetCount(low, Elems(all[..k - 1]));
    } else {
      forall x | x in Elems(all[..k])
        ensures x in low
      {
        assert x in all;
        assert x in Elems(all);
      }
      AscendingCount(all[..k]);
      SubsetCount(Elems(all[..k]), low);
    }
  }

  lemma LowBefore(enabled: set<int>, k: nat)
    requires k < |SortedIds(enabled)| && SortedIds(enabled)[k] > 0
    ensures NonPositive(enabled) <= Elems(SortedIds(enabled)[..k])
  {
    var all := SortedIds(enabled);
    SortedIdsAscend(enabled);
    forall id | id in NonPositive(enabled)
      ensures id in all[..k]
    {
      assert id in Elems(all);
      var i :| 0 <= i < |all| && all[i] == id;
      assert i < k;
      assert all[..k][i] == id;
    }
  }

  /** The n-th batch that the loop reads as long as every batch before it was full. */
  function BatchAt(enabled: set<int>, batchSize: nat, n: nat): seq<int> {
    if n == 0 then EnabledAfter(enabled, 0, batchSize)
    else
      var before := BatchAt(enabled, batchSize, n - 1);
      EnabledAfter(enabled, if before == [] then 0 else before[|before| - 1], batchSize)
  }

  function SliceFrom(ids: seq<int>, k: nat, n: nat): seq<int>
    requires k <= |ids|
  {
    ids[k..if k + n <= |ids| then k + n else |ids|]
  }

  lemma SliceEnds(ids: seq<int>, k: nat, n: nat)
    requires n > 0 && k + n <= |ids|
    ensures SliceFrom(ids, k, n) != [] && SliceFrom(ids, k, n)[|SliceFrom(ids, k, n)| - 1] == ids[k + n - 1]
  {
  }

  lemma NextSlice(enabled: set<int>, batchSize: nat, k: nat)
    requires batchSize > 0 && Advances(enabled, batchSize) && k + batchSize <= |SortedIds(enabled)|
    ensures var before := SliceFrom(SortedIds(enabled), k, batchSize);
            && before != []
            && EnabledAfter(enabled, before[|before| - 1], batchSize) == SliceFrom(SortedIds(enabled), k + batchSize, batchSize)
  {
    SliceEnds(SortedIds(enabled), k, batchSize);
    PositiveAt(enabled, k + batchSize);
    NextBatch(enabled, k + batchSize, batchSize);
  }

  lemma {:induction false} ShortBatch(enabled: set<int>, batchSize: nat, n: nat, k: nat) returns (m: nat)
    requires batchSize > 0 && Advances(enabled, batchSize) && k <= |SortedIds(enabled)|
    requires BatchAt(enabled, batchSize, n) == SliceFrom(SortedIds(enabled), k, batchSize)
    ensures |BatchAt(enabled, batchSize, m)| < batchSize
    decreases |SortedIds(enabled)| - k
  {
    m := n;
    if k + batchSize <= |SortedIds(enabled)| {
      NextSlice(enabled, batchSize, k);
      m := ShortBatch(enabled, batchSize, n + 1, k + batchSize);
    }
  }

  lemma FirstBatchRepeats(enabled: set<int>, batchSize: nat)
    requires batchSize > 0 && !Advances(enabled, batchSize)
    ensures var first := EnabledAfter(enabled, 0, batchSize);
            |first| == batchSize && EnabledAfter(enabled, first[batchSize - 1], batchSize) == first
  {
    var all := SortedIds(enabled);
    SortedIdsAscend(enabled);
    AscendingCount(all);
    SubsetCount(NonPositive(enabled), enabled);
    PositiveAt(enabled, batchSize);
  }

  lemma {:induction false} SameBatchAgain(enabled: set<int>, batchSize: nat, n: nat)
    requires batchSize > 0 && !Advances(enabled, batchSize)
    ensures BatchAt(enabled, batchSize, n) == EnabledAfter(enabled, 0, batchSize)
    ensures |BatchAt(enabled, batchSize, n)| == batchSize
  {
    FirstBatchRepeats(enabled, batchSize);
    if n > 0 {
      SameBatchAgain(enabled, batchSize, n - 1);
    }
  }

  /** The loop reads a short batch, and so ends, exactly when fewer enabled ids than a batch holds
      are not positive; otherwise it reads the same full batch for ever. */
  lemma LoopEnds(enabled: set<int>, batchSize: nat)
    requires batchSize > 0
    ensures (exists n :: |BatchAt(enabled, batchSize, n)| < batchSize) <==> Advances(enabled, batchSize)
    ensures !Advances(enabled, batchSize) ==> forall n :: BatchAt(enabled, batchSize, n) == EnabledAfter(enabled, 0, batchSize)
  {
    if Advances(enabled, batchSize) {
      NextBatch(enabled, 0, batchSize);
      var n := ShortBatch(enabled, batchSize, 0, 0);
    } else {
      forall n: nat
        ensures BatchAt(enabled, batchSize, n) == EnabledAfter(enabled, 0, batchSize)
        ensures |BatchAt(enabled, batchSize, n)| == batchSize
      {
        SameBatchAgain(enabled, batchSize, n);
      }
    }
  }

  // ----- One row of a sweep -----

  predicate Due(row: Row) {
    row.settings.checkEnabled && (Normalize(row.settings.detected) != [] || Normalize(row.settings.removed) != [])
  }

  function ApplyDue(row: Row, now: int, saved: bool): Row {
    if Due(row) then ApplyRow(row, AllPending(row), now, saved) else row
  }

  function ApplySweep(now: int, writable: set<int>): (int, Row) -> Row {
    (id, row) => ApplyDue(row, now, id in writable)
  }

  function CheckSweep(inputs: int -> CheckInput, rx: Regex): (int, Row) -> Row {
    (id, row) => CheckEnabled(row, inputs(id), rx)
  }

  /** The channels with something pending whose write fails. */
  function Failing(rows: map<int, Row>, writable: set<int>): int -> bool {
    id => id in rows && Due(rows[id]) && id !in writable
  }

  function CheckEnabled(row: Row, input: CheckInput, rx: Regex): Row {
    if row.settings.checkEnabled then CheckRow(row, input, rx) else row
  }

  /** What the detect-all endpoint and the periodic task count. */
  datatype Report = Report(failed: seq<int>, checked: nat, changed: nat, adds: nat, removes: nat, autoAdded: nat)

  /** The report after one more checked channel, from what its check left and reports. */
  function CountedAs(report: Report, id: int, failed: bool, pending: Settings, auto: nat): Report {
    if failed then report.(checked := report.checked + 1, failed := report.failed + [id])
    else
      var adds, removes := |Normalize(pending.detected)| + auto, |Normalize(pending.removed)|;
      Report(report.failed, report.checked + 1, report.changed + if adds > 0 || removes > 0 then 1 else 0,
             report.adds + adds, report.removes + removes, report.autoAdded + auto)
  }

  function Counted(report: Report, id: int, row: Row, input: CheckInput, rx: Regex): Report {
    if !row.settings.checkEnabled then report
    else CountedAs(report, id, CheckFails(row, input), CheckRow(row, input, rx).settings, AutoAdded(row, input, rx))
  }

  function Counting(inputs: int -> CheckInput, rx: Regex): (Report, int, Row) -> Report {
    (report, id, row) => Counted(report, id, row, inputs(id), rx)
  }

  /** The report after the listed channels, from the rows before them. */
  function Collected(rows: map<int, Row>, ids: seq<int>, count: (Report, int, Row) -> Report): Report {
    if ids == [] then Report([], 0, 0, 0, 0, 0)
    else
      var before, id := Collected(rows, ids[..|ids| - 1], count), ids[|ids| - 1];
      if id in rows then count(before, id, rows[id]) else before
  }

  lemma CollectNext(rows: map<int, Row>, visited: seq<int>, channels: seq<int>, i: nat, count: (Report, int, Row) -> Report)
    requires i < |channels| && channels[i] in rows
    ensures Collected(rows, visited + channels[..i + 1], count) ==
            count(Collected(rows, visited + channels[..i], count), channels[i], rows[channels[i]])
  {
    var after := visited + channels[..i + 1];
    assert after[..|after| - 1] == visited + channels[..i];
  }

  /** The rows after the listed channels were processed, each once. */
  ghost function After(rows: map<int, Row>, done: seq<int>, step: (int, Row) -> Row): map<int, Row> {
    map id | id in rows :: if id in done then step(id, rows[id]) else rows[id]
  }

  ghost predicate InOrder(rows: map<int, Row>, ids: seq<int>) {
    Ascending(ids) && forall id :: id in ids ==> id in rows
  }

  lemma EnabledInOrder(rows: map<int, Row>, enabled: set<int>)
    requires enabled <= rows.Keys
    ensures InOrder(rows, SortedIds(enabled))
  {
    SortedIdsAscend(enabled);
    assert forall id :: id in SortedIds(enabled) ==> id in Elems(SortedIds(enabled));
  }

  lemma InOrderPrefix(rows: map<int, Row>, ids: seq<int>, all: seq<int>)
    requires InOrder(rows, all) && ids <= all
    ensures InOrder(rows, ids)
  {
    assert forall i :: 0 <= i < |ids| ==> ids[i] == all[i];
  }

  /** Processing the next channel of a batch extends the processed part by it. */
  lemma VisitNext(rows: map<int, Row>, visited: seq<int>, channels: seq<int>, i: nat, step: (int, Row) -> Row, fails: int -> bool)
    requires i < |channels| && InOrder(rows, visited + channels)
    ensures channels[i] in rows
    ensures After(rows, visited + channels[..i], step)[channels[i]] == rows[channels[i]]
    ensures After(rows, visited + channels[..i], step)[channels[i] := step(channels[i], rows[channels[i]])] ==
            After(rows, visited + channels[..i + 1], step)
    ensures Filter(visited + channels[..i + 1], fails) ==
            Filter(visited + channels[..i], fails) + if fails(channels[i]) then [channels[i]] else []
  {
    var before, after := visited + channels[..i], visited + channels[..i + 1];
    assert (visited + channels)[|before|] == channels[i];
    assert after == before + [channels[i]];
    assert after[..|before|] == before;
    assert forall k :: 0 <= k < |before| ==> before[k] == (visited + channels)[k];
  }

  class Database {
    var rows: map<int, Row>
    const enabled: set<int>

    constructor (rows: map<int, Row>, enabled: set<int>)
      ensures this.rows == rows && this.enabled == enabled
    {
      this.rows, this.enabled := rows, enabled;
    }

    ghost predicate Valid()
      reads this
    {
      enabled <= rows.Keys
    }

    /** The query after some channels were visited: the next batch of the order. */
    method FindEnabledAfterID(lastID: int, batchSize: nat, ghost visited: seq<int>) returns (channels: seq<int>)
      requires Valid() && visited <= SortedIds(enabled)
      requires lastID == if visited == [] then 0 else visited[|visited| - 1]
      requires Advances(enabled, batchSize) && (visited != [] ==> lastID > 0)
      ensures visited + channels <= SortedIds(enabled)
      ensures |channels| < batchSize ==> visited + channels == SortedIds(enabled)
      ensures |channels| >= batchSize ==> channels[|channels| - 1] > 0
    {
      if |visited| + batchSize <= |SortedIds(enabled)| {
        PositiveAt(enabled, |visited| + batchSize);
      }
      NextBatch(enabled, |visited|, batchSize);
      channels := EnabledAfter(enabled, lastID, batchSize);
    }

    /** What the apply-all endpoint does with one channel. */
    method ApplyOne(id: int, now: int, writable: set<int>) returns (failed: bool)
      requires id in rows
      modifies this
      ensures rows == old(rows)[id := ApplySweep(now, writable)(id, old(rows)[id])]
      ensures failed <==> Failing(old(rows), writable)(id)
    {
      var row;
      row, failed := ApplyLoaded(rows[id], now, id in writable);
      rows := rows[id := row];
    }

    /** The same on a loaded row, giving the row as it is then stored. */
    static method ApplyLoaded(row: Row, now: int, saved: bool) returns (row': Row, failed: bool)
      ensures row' == ApplyDue(row, now, saved)
      ensures failed <==> Due(row) && !saved
    {
      if !row.settings.checkEnabled {
        return row, false;
      }
      var pendingAdd, pendingRemove := Normalize(row.settings.detected), Normalize(row.settings.removed);
      if pendingAdd == [] && pendingRemove == [] {
        return row, false;
      }
      var channel := new Channel(row);
      var o, modelsChanged, ok := channel.Apply(Selection(pendingAdd, [], pendingRemove), now, saved);
      row', failed := Row(channel.models, channel.settings), !ok;
    }

    /** What the detect-all endpoint and the periodic task do with one channel. */
    method CheckOne(id: int, inputs: int -> CheckInput, rx: Regex, report: Report) returns (report': Report)
      requires id in rows
      modifies this
      ensures rows == old(rows)[id := CheckSweep(inputs, rx)(id, old(rows)[id])]
      ensures report' == Counting(inputs, rx)(report, id, old(rows)[id])
    {
      var row;
      row, report' := CheckLoaded(id, rows[id], inputs(id), rx, report);
      rows := rows[id := row];
    }

    /** The same on a loaded row, giving the row as it is then stored. */
    static method CheckLoaded(id: int, row: Row, input: CheckInput, rx: Regex, report: Report) returns (row': Row, report': Report)
      ensures row' == CheckEnabled(row, input, rx)
      ensures report' == Counted(report, id, row, input, rx)
    {
      if !row.settings.checkEnabled {
        return row, report;
      }
      var channel := new Channel(row);
      var modelsChanged, autoAdded, ok := channel.CheckAndPersist(input, rx);
      row' := Row(channel.models, channel.settings);
      report' := CountChannel(report, id, ok, channel.settings, autoAdded);
    }

    static method CountChannel(report: Report, id: int, ok: bool, settings: Settings, autoAdded: nat) returns (report': Report)
      ensures report' == CountedAs(report, id, !ok, settings, autoAdded)
    {
      var checked := report.checked + 1;
      if !ok {
        return report.(checked := checked, failed := report.failed + [id]);
      }
      var currentAddCount := |Normalize(settings.detected)| + autoAdded;
      var currentRemoveCount := |Normalize(settings.removed)|;
      var changed := report.changed;
      if currentAddCount > 0 || currentRemoveCount > 0 {
        changed := changed + 1;
      }
      report' := Report(report.failed, checked, changed, report.adds + currentAddCount,
                        report.removes + currentRemoveCount, report.autoAdded + autoAdded);
    }

    /** The loop body of the apply-all endpoint, on the next channel of a batch. */
    method ApplyNth(channels: seq<int>, i: nat, now: int, writable: set<int>, ghost was: map<int, Row>, ghost visited: seq<int>)
      returns (failed: bool)
      requires i < |channels| && InOrder(was, visited + channels)
      requires rows == After(was, visited + channels[..i], ApplySweep(now, writable))
      modifies this
      ensures rows == After(was, visited + channels[..i + 1], ApplySweep(now, writable))
      ensures Filter(visited + channels[..i + 1], Failing(was, writable)) ==
              Filter(visited + channels[..i], Failing(was, writable)) + if failed then [channels[i]] else []
    {
      VisitNext(was, visited, channels, i, ApplySweep(now, writable), Failing(was, writable));
      failed := ApplyOne(channels[i], now, writable);
    }

    /** One batch of the apply-all endpoint. */
    method ApplyBatch(channels: seq<int>, now: int, writable: set<int>, ghost was: map<int, Row>, ghost visited: seq<int>)
      returns (failed: seq<int>)
      requires InOrder(was, visited + channels)
      requires rows == After(was, visited, ApplySweep(now, writable))
      modifies this
      ensures rows == After(was, visited + channels, ApplySweep(now, writable))
      ensures Filter(visited + channels, Failing(was, writable)) == Filter(visited, Failing(was, writable)) + failed
    {
      ghost var step, fails := ApplySweep(now, writable), Failing(was, writable);
      failed := [];
      assert visited + channels[..0] == visited;
      for i := 0 to |channels|
        invariant rows == After(was, visited + channels[..i], step)
        invariant Filter(visited + channels[..i], fails) == Filter(visited, fails) + failed
      {
        var error := ApplyNth(channels, i, now, writable, was, visited);
        if error {
          failed := failed + [channels[i]];
          continue;
        }
      }
      assert channels[..|channels|] == channels;
    }

    /** Every enabled channel is processed once, in ascending order of ids, for every batch
        size; `writable` are the channels whose write succeeds. */
    method ApplyAll(batchSize: nat, now: int, writable: set<int>) returns (visited: seq<int>, failed: seq<int>)
      requires Valid() && batchSize > 0 && Advances(enabled, batchSize)
      modifies this
      ensures Valid()
      ensures visited == SortedIds(enabled)
      ensures rows == After(old(rows), visited, ApplySweep(now, writable))
      ensures failed == Filter(visited, Failing(old(rows), writable))
    {
      EnabledInOrder(rows, enabled);
      var lastID := 0;
      visited, failed := [], [];
      while true
        invariant Valid() && visited <= SortedIds(enabled)
        invariant lastID == (if visited == [] then 0 else visited[|visited| - 1]) && (visited != [] ==> lastID > 0)
        invariant rows == After(old(rows), visited, ApplySweep(now, writable))
        invariant failed == Filter(visited, Failing(old(rows), writable))
        decreases |SortedIds(enabled)| - |visited|
      {
        var channels := FindEnabledAfterID(lastID, batchSize, visited);
        if |channels| == 0 {
          break;
        }
        lastID := channels[|channels| - 1];
        InOrderPrefix(old(rows), visited + channels, SortedIds(enabled));
        var errors := ApplyBatch(channels, now, writable, old(rows), visited);
        failed := failed + errors;
        visited := visited + channels;
        if |channels| < batchSize {
          break;
        }
      }
    }

    /** The loop body of a check sweep, on the next channel of a batch. */
    method CheckNth(channels: seq<int>, i: nat, inputs: int -> CheckInput, rx: Regex, report: Report,
                    ghost was: map<int, Row>, ghost visited: seq<int>) returns (report': Report)
      requires i < |channels| && InOrder(was, visited + channels)
      requires rows == After(was, visited + channels[..i], CheckSweep(inputs, rx))
      requires report == Collected(was, visited + channels[..i], Counting(inputs, rx))
      modifies this
      ensures rows == After(was, visited + channels[..i + 1], CheckSweep(inputs, rx))
      ensures report' == Collected(was, visited + channels[..i + 1], Counting(inputs, rx))
    {
      VisitNext(was, visited, channels, i, CheckSweep(inputs, rx), _ => false);
      CollectNext(was, visited, channels, i, Counting(inputs, rx));
      report' := CheckOne(channels[i], inputs, rx, report);
    }

    /** One batch of the detect-all endpoint or of the periodic task. */
    method CheckBatch(channels: seq<int>, inputs: int -> CheckInput, rx: Regex, report: Report,
                      ghost was: map<int, Row>, ghost visited: seq<int>) returns (report': Report)
      requires InOrder(was, visited + channels)
      requires rows == After(was, visited, CheckSweep(inputs, rx))
      requires report == Collected(was, visited, Counting(inputs, rx))
      modifies this
      ensures rows == After(was, visited + channels, CheckSweep(inputs, rx))
      ensures report' == Collected(was, visited + channels, Counting(inputs, rx))
    {
      report' := report;
      assert visited + channels[..0] == visited;
      for i := 0 to |channels|
        invariant rows == After(was, visited + channels[..i], CheckSweep(inputs, rx))
        invariant report' == Collected(was, visited + channels[..i], Counting(inputs, rx))
      {
        report' := CheckNth(channels, i, inputs, rx, report', was, visited);
      }
      assert channels[..|channels|] == channels;
    }

    /** The same sweep with a check of each channel: forced without automatic sync for the
        detect-all endpoint, unforced with it for the periodic task. */
    method CheckAll(batchSize: nat, inputs: int -> CheckInput, rx: Regex) returns (visited: seq<int>, report: Report)
      requires Valid() && batchSize > 0 && Advances(enabled, batchSize)
      modifies this
      ensures Valid()
      ensures visited == SortedIds(enabled)
      ensures rows == After(old(rows), visited, CheckSweep(inputs, rx))
      ensures report == Collected(old(rows), visited, Counting(inputs, rx))
    {
      EnabledInOrder(rows, enabled);
      var lastID := 0;
      visited, report := [], Report([], 0, 0, 0, 0, 0);
      while true
        invariant Valid() && visited <= SortedIds(enabled)
        invariant lastID == (if visited == [] then 0 else visited[|visited| - 1]) && (visited != [] ==> lastID > 0)
        invariant rows == After(old(rows), visited, CheckSweep(inputs, rx))
        invariant report == Collected(old(rows), visited, Counting(inputs, rx))
        decreases |SortedIds(enabled)| - |visited|
      {
        var channels := FindEnabledAfterID(lastID, batchSize, visited);
        if |channels| == 0 {
          break;
        }
        lastID := channels[|channels| - 1];
        InOrderPrefix(old(rows), visited + channels, SortedIds(enabled));
        report := CheckBatch(channels, inputs, rx, report, old(rows), visited);
        visited := visited + channels;
        if |channels| < batchSize {
          break;
        }
      }
    }
  }

  /** The failed channels of a sweep are the checked ones whose fetch or write fails, in order. */
  function CheckFailing(rows: map<int, Row>, inputs: int -> CheckInput): int -> bool {
    id => id in rows && rows[id].settings.checkEnabled && CheckFails(rows[id], inputs(id))
  }

  lemma {:induction false} ReportedFailures(rows: map<int, Row>, ids: seq<int>, inputs: int -> CheckInput, rx: Regex)
    ensures Collected(rows, ids, Counting(inputs, rx)).failed == Filter(ids, CheckFailing(rows, inputs))
  {
    if ids != [] {
      ReportedFailures(rows, ids[..|ids| - 1], inputs, rx);
      var id := ids[|ids| - 1];
      if id in rows {
        CountedFailure(Collected(rows, ids[..|ids| - 1], Counting(inputs, rx)), id, rows, inputs, rx);
      } else {
        assert Filter(ids[..|ids| - 1], CheckFailing(rows, inputs)) + [] == Filter(ids[..|ids| - 1], CheckFailing(rows, inputs));
      }
    }
  }

  lemma CountedFailure(before: Report, id: int, rows: map<int, Row>, inputs: int -> CheckInput, rx: Regex)
    requires id in rows
    ensures Counting(inputs, rx)(before, id, rows[id]).failed ==
            before.failed + if CheckFailing(rows, inputs)(id) then [id] else []
  {
  }

  // ----- What the sweeps report and leave alone -----

  function SumOf(ids: seq<int>, weight: int -> nat): nat {
    if ids == [] then 0 else SumOf(ids[..|ids| - 1], weight) + weight(ids[|ids| - 1])
  }

  predicate IsDue(row: Row, input: CheckInput) {
    input.force || row.settings.lastCheck <= 0 || input.now - row.settings.lastCheck >= input.minInterval
  }

  /** The channel is checked without an error. */
  predicate Succeeds(row: Row, input: CheckInput) {
    row.settings.checkEnabled && (IsDue(row, input) ==> input.fetched.Some? && input.saved)
  }

  /** The names that a check finds to add, or that were pending when it is not due. */
  function NamesToAdd(row: Row, input: CheckInput, rx: Regex): set<string>
    requires Succeeds(row, input)
  {
    if IsDue(row, input) then set x | x in NameSet(input.fetched.value) && Offered(row, input.fetched.value, input.mapping, rx, x)
    else NameSet(row.settings.detected)
  }

  function NamesToRemove(row: Row, input: CheckInput): set<string>
    requires Succeeds(row, input)
  {
    if IsDue(row, input) then NameSet(GetModels(row.models)) - NameSet(input.fetched.value) - input.mapping.Keys
    else NameSet(row.settings.removed)
  }

  function Adds(rows: map<int, Row>, inputs: int -> CheckInput, rx: Regex): int -> nat {
    id => if id in rows && Succeeds(rows[id], inputs(id)) then |NamesToAdd(rows[id], inputs(id), rx)| else 0
  }

  function Removes(rows: map<int, Row>, inputs: int -> CheckInput): int -> nat {
    id => if id in rows && Succeeds(rows[id], inputs(id)) then |NamesToRemove(rows[id], inputs(id))| else 0
  }

  function AutoAdds(rows: map<int, Row>, inputs: int -> CheckInput, rx: Regex): int -> nat {
    id => if id in rows && IsDue(rows[id], inputs(id)) && inputs(id).allowAutoApply && rows[id].settings.autoSync
          then Adds(rows, inputs, rx)(id) else 0
  }

  function One(rows: map<int, Row>): int -> nat {
    id => if id in rows && rows[id].settings.checkEnabled then 1 else 0
  }

  function Changes(rows: map<int, Row>, inputs: int -> CheckInput, rx: Regex): int -> nat {
    id => if Adds(rows, inputs, rx)(id) > 0 || Removes(rows, inputs)(id) > 0 then 1 else 0
  }

  /** The counts of a sweep are sums over the visited channels: of the names each check found,
      whether or not they were added automatically, and of the channels with any. */
  lemma {:induction false} ReportedCounts(rows: map<int, Row>, ids: seq<int>, inputs: int -> CheckInput, rx: Regex)
    ensures var report := Collected(rows, ids, Counting(inputs, rx));
            && report.checked == SumOf(ids, One(rows))
            && report.adds == SumOf(ids, Adds(rows, inputs, rx))
            && report.removes == SumOf(ids, Removes(rows, inputs))
            && report.autoAdded == SumOf(ids, AutoAdds(rows, inputs, rx))
            && report.changed == SumOf(ids, Changes(rows, inputs, rx))
  {
    if ids != [] {
      ReportedCounts(rows, ids[..|ids| - 1], inputs, rx);
      CountedNext(Collected(rows, ids[..|ids| - 1], Counting(inputs, rx)), Collected(rows, ids, Counting(inputs, rx)),
                  rows, ids[|ids| - 1], inputs, rx);
    }
  }

  /** The sums grow by one channel. */
  lemma CountedNext(report: Report, next: Report, rows: map<int, Row>, id: int, inputs: int -> CheckInput, rx: Regex)
    requires next == if id in rows then Counted(report, id, rows[id], inputs(id), rx) else report
    ensures next.checked == report.checked + One(rows)(id)
    ensures next.adds == report.adds + Adds(rows, inputs, rx)(id)
    ensures next.removes == report.removes + Removes(rows, inputs)(id)
    ensures next.autoAdded == report.autoAdded + AutoAdds(rows, inputs, rx)(id)
    ensures next.changed == report.changed + Changes(rows, inputs, rx)(id)
  {
    if id in rows {
      CountedNames(report, id, rows[id], inputs(id), rx);
    }
  }

  /** What one channel adds to the report. */
  lemma CountedNames(report: Report, id: int, row: Row, input: CheckInput, rx: Regex)
    ensures var r, ok := Counted(report, id, row, input, rx), Succeeds(row, input);
            var adds, removes := if ok then |NamesToAdd(row, input, rx)| else 0, if ok then |NamesToRemove(row, input)| else 0;
            && r.checked == report.checked + (if row.settings.checkEnabled then 1 else 0)
            && r.adds == report.adds + adds && r.removes == report.removes + removes
            && r.autoAdded == report.autoAdded + (if ok && IsDue(row, input) && input.allowAutoApply && row.settings.autoSync then adds else 0)
            && r.changed == report.changed + (if adds > 0 || removes > 0 then 1 else 0)
  {
    if Succeeds(row, input) {
      PendingCounts(row, input, rx);
    }
  }

  lemma NameCount(xs: Names)
    ensures |Normalize(xs)| == |NameSet(xs)|
    ensures Normal(xs) ==> Normalize(xs) == xs
  {
    NormalizeIsNormal(xs);
    DistinctCount(Normalize(xs));
  }

  lemma DetectedCounts(row: Row, input: CheckInput, rx: Regex, after: Row, auto: nat)
    requires Succeeds(row, input) && IsDue(row, input) && Detects(row, input, rx, after, auto)
    ensures |Normalize(after.settings.detected)| + auto == |NamesToAdd(row, input, rx)|
    ensures |Normalize(after.settings.removed)| == |NamesToRemove(row, input)|
    ensures auto == if input.allowAutoApply && row.settings.autoSync then |NamesToAdd(row, input, rx)| else 0
  {
    var found: Names :|
      && FoundNames(row, input.fetched.value, input.mapping, rx, found)
      && (if input.allowAutoApply && row.settings.autoSync && found != []
          then after.settings.detected == [] && auto == |found|
          else after.settings.detected == found && auto == 0);
    AddCount(row, input, rx, found);
    RemoveCount(row, input, after.settings.removed);
    NameCount(found);
    NameCount([]);
  }

  lemma AddCount(row: Row, input: CheckInput, rx: Regex, found: Names)
    requires Succeeds(row, input) && IsDue(row, input) && FoundNames(row, input.fetched.value, input.mapping, rx, found)
    ensures |found| == |NamesToAdd(row, input, rx)|
  {
    assert Elems(found) == NamesToAdd(row, input, rx);
    DistinctCount(found);
  }

  lemma RemoveCount(row: Row, input: CheckInput, missing: Names)
    requires Succeeds(row, input) && IsDue(row, input) && MissingNames(row, input.fetched.value, input.mapping, missing)
    ensures |Normalize(missing)| == |NamesToRemove(row, input)|
  {
    assert Elems(missing) == NamesToRemove(row, input);
    DistinctCount(missing);
    NameCount(missing);
  }

  lemma PendingCounts(row: Row, input: CheckInput, rx: Regex)
    requires Succeeds(row, input)
    ensures var after := CheckRow(row, input, rx).settings;
            && |Normalize(after.detected)| + AutoAdded(row, input, rx) == |NamesToAdd(row, input, rx)|
            && |Normalize(after.removed)| == |NamesToRemove(row, input)|
            && AutoAdded(row, input, rx) ==
               if IsDue(row, input) && input.allowAutoApply && row.settings.autoSync then |NamesToAdd(row, input, rx)| else 0
  {
    if IsDue(row, input) {
      CheckDetects(row, input, rx);
      DetectedCounts(row, input, rx, CheckRow(row, input, rx), AutoAdded(row, input, rx));
    } else {
      NameCount(row.settings.detected);
      NameCount(row.settings.removed);
    }
  }

  /** Neither sweep touches a channel that is not enabled or whose checks are switched off. */
  lemma OthersStay(rows: map<int, Row>, enabled: set<int>, inputs: int -> CheckInput, rx: Regex, now: int, writable: set<int>)
    requires enabled <= rows.Keys
    ensures var all := SortedIds(enabled);
            forall id :: id in rows && !(id in enabled && rows[id].settings.checkEnabled) ==>
                           After(rows, all, CheckSweep(inputs, rx))[id] == rows[id] == After(rows, all, ApplySweep(now, writable))[id]
  {
    SortedIdsAscend(enabled);
    assert forall id :: id in SortedIds(enabled) <==> id in Elems(SortedIds(enabled));
  }

  /** apply-all fails exactly on the enabled channels with checks on, something pending and no write. */
  lemma ApplyFailures(rows: map<int, Row>, enabled: set<int>, writable: set<int>, id: int)
    requires enabled <= rows.Keys
    ensures id in Filter(SortedIds(enabled), Failing(rows, writable)) <==>
            && id in enabled && id !in writable && rows[id].settings.checkEnabled
            && NameSet(rows[id].settings.detected) + NameSet(rows[id].settings.removed) != {}
  {
    SortedIdsAscend(enabled);
    FilterElems(SortedIds(enabled), Failing(rows, writable));
    assert id in SortedIds(enabled) <==> id in Elems(SortedIds(enabled));
    if id in enabled {
      var s := rows[id].settings;
      NormalizeIsNormal(s.detected);
      NormalizeIsNormal(s.removed);
      NoElems(Normalize(s.detected));
      NoElems(Normalize(s.removed));
    }
  }

  // ----- A whole fleet -----

  /** Detect all, apply all, detect all again over every channel of a table whose fetches and
      writes succeed: no checked, enabled channel has anything pending. */
  lemma FleetConverges(rows: map<int, Row>, enabled: set<int>, upstream: int -> Names,
                       mapping: int -> map<string, string>, rx: Regex, now: int)
    requires enabled <= rows.Keys
    requires forall id :: id in enabled ==> CommaFree(upstream(id))
    requires forall id, x :: id in enabled && x in NameSet(upstream(id)) ==> !(REGEX_PREFIX <= x)
    ensures var detect := CheckSweep(id => Detect(upstream(id), mapping(id), now), rx);
            var all := SortedIds(enabled);
            var last := After(After(After(rows, all, detect), all, ApplySweep(now, enabled)), all, detect);
            forall id :: id in enabled && rows[id].settings.checkEnabled ==>
                           last[id].settings.detected == [] && last[id].settings.removed == []
  {
    SortedIdsAscend(enabled);
    assert forall id :: id in SortedIds(enabled) <==> id in Elems(SortedIds(enabled));
    forall id | id in enabled && rows[id].settings.checkEnabled
      ensures var input := Detect(upstream(id), mapping(id), now);
              var last := CheckEnabled(ApplyDue(CheckEnabled(rows[id], input, rx), now, true), input, rx);
              last.settings.detected == [] && last.settings.removed == []
    {
      RowConverges(rows[id], upstream(id), mapping(id), rx, now);
    }
  }

  lemma RowConverges(row: Row, upstream: Names, mapping: map<string, string>, rx: Regex, now: int)
    requires row.settings.checkEnabled && CommaFree(upstream)
    requires forall x :: x in NameSet(upstream) ==> !(REGEX_PREFIX <= x)
    ensures var input := Detect(upstream, mapping, now);
            var last := CheckEnabled(ApplyDue(CheckEnabled(row, input, rx), now, true), input, rx);
            last.settings.detected == [] && last.settings.removed == []
  {
    var found := CheckRow(row, Detect(upstream, mapping, now), rx);
    if Due(found) {
      PlainUpstreamConverges(row, upstream, mapping, rx, now);
    } else {
      QuietRow(row, upstream, mapping, rx, now);
    }
  }

  /** A detection that finds nothing finds nothing again. */
  lemma QuietRow(row: Row, upstream: Names, mapping: map<string, string>, rx: Regex, now: int)
    requires row.settings.checkEnabled && !Due(CheckRow(row, Detect(upstream, mapping, now), rx))
    ensures var found := CheckRow(row, Detect(upstream, mapping, now), rx);
            && found.settings.detected == [] && found.settings.removed == []
            && CheckRow(found, Detect(upstream, mapping, now), rx) == found
  {
    DetectedRow(row, upstream, mapping, rx, now);
    CollectPendingMeaning(GetModels(row.models), upstream, row.settings.ignored, mapping, rx);
    QuietPending(row, upstream, mapping, rx, now, CollectPending(GetModels(row.models), upstream, row.settings.ignored, mapping, rx));
  }

  lemma QuietPending(row: Row, upstream: Names, mapping: map<string, string>, rx: Regex, now: int, pending: (Names, Names))
    requires pending == CollectPending(GetModels(row.models), upstream, row.settings.ignored, mapping, rx)
    requires Normal(pending.0) && Normal(pending.1)
    requires row.settings.checkEnabled && !Due(Found(row, pending, now))
    ensures pending.0 == [] && pending.1 == []
    ensures CheckRow(Found(row, pending, now), Detect(upstream, mapping, now), rx) == Found(row, pending, now)
  {
    NameSetOfNormal(pending.0);
    NameSetOfNormal(pending.1);
  }
}
