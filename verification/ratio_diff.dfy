/** buildDifferences of controller/ratio_sync.go: the local prices against those of several
    channels, in a building pass and a pruning pass. */
module RatioDiff {
  import opened Wrappers
  import opened ModelsDev

  datatype Field =
    | ModelRatio | CompletionRatio | CacheRatio | CreateCacheRatio | ImageRatio | AudioRatio
    | AudioCompletionRatio | ModelPrice | BillingMode | BillingExpr

  const FIELDS: seq<Field> := [
    ModelRatio, CompletionRatio, CacheRatio, CreateCacheRatio, ImageRatio, AudioRatio,
    AudioCompletionRatio, ModelPrice, BillingMode, BillingExpr
  ]

  predicate Numeric(f: Field) {
    !f.BillingMode? && !f.BillingExpr?
  }

  /** A JSON value, or nil. */
  datatype Value = Null | Num(num: real) | Int(whole: int) | Text(text: string)

  const SAME: Value := Text("same")

  type PriceData = map<Field, map<string, Value>>

  datatype Channel = Channel(name: string, data: PriceData)

  datatype Item = Item(current: Value, upstreams: map<string, Value>, confidence: map<string, bool>)

  type Differences = map<string, map<Field, Item>>

  function ValueMap(data: PriceData, f: Field): map<string, Value> {
    if f in data then data[f] else map[]
  }

  function AsFloat(v: Value): Option<real> {
    match v
    case Num(r) => Some(r)
    case Int(n) => Some(n as real)
    case _ => None
  }

  function NormalizeSyncValue(f: Field, v: Value): Value {
    if Numeric(f) && AsFloat(v).Some? then Num(AsFloat(v).value) else v
  }

  predicate ValuesEqual(a: Value, b: Value) {
    if a.Num? && b.Num? then NearlyEqual(a.num, b.num) else a == b
  }

  function LocalValue(local: PriceData, f: Field, m: string): Value {
    if m in ValueMap(local, f) then NormalizeSyncValue(f, ValueMap(local, f)[m]) else Null
  }

  function Reported(data: PriceData, f: Field, m: string): Option<Value> {
    if m in ValueMap(data, f) then Some(NormalizeSyncValue(f, ValueMap(data, f)[m])) else None
  }

  // ----- One cell -----

  /** What a channel's column shows: the value, "same", or nil. */
  function Column(local: Value, reported: Option<Value>): Value {
    var upstream := if reported.Some? then reported.value else Null;
    if reported.Some? && ValuesEqual(local, upstream) then SAME
    else if upstream.Null? && local.Null? then SAME
    else upstream
  }

  /** Whether a channel makes the entry differ. */
  predicate Differs(local: Value, reported: Option<Value>) {
    if local.Null? then Column(local, reported) != Null && Column(local, reported) != SAME
    else reported.Some? && !ValuesEqual(local, reported.value)
  }

  /** A column that shows a value. */
  predicate Shows(column: Value) {
    column != Null && column != SAME
  }

  /** Some channel differs from the local value, or reports one that is not set locally. */
  predicate Included(local: PriceData, channels: seq<Channel>, f: Field, m: string) {
    var localValue := LocalValue(local, f, m);
    if localValue.Null? then AnyOf(channels, ReportsTo(f, m)) else AnyOf(channels, DiffersFrom(localValue, f, m))
  }

  /** A channel whose price is the placeholder 37.5 with completion ratio 1 is not trusted. */
  predicate Trusted(data: PriceData, m: string) {
    var ratios, completions := ValueMap(data, ModelRatio), ValueMap(data, CompletionRatio);
    !(m in ratios && m in completions
      && AsFloat(ratios[m]).Some? && AsFloat(completions[m]).Some?
      && NearlyEqual(AsFloat(ratios[m]).value, 37.5) && NearlyEqual(AsFloat(completions[m]).value, 1.0))
  }

  // ----- The building pass -----

  /** One entry per channel name; a later channel with the same name wins. */
  function ByName<V>(channels: seq<Channel>, value: Channel -> V): map<string, V> {
    if channels == [] then map[]
    else ByName(channels[..|channels| - 1], value)[channels[|channels| - 1].name := value(channels[|channels| - 1])]
  }

  function CellOf(localValue: Value, f: Field, m: string): Channel -> Value {
    (c: Channel) => Column(localValue, Reported(c.data, f, m))
  }

  function TrustOf(m: string): Channel -> bool {
    (c: Channel) => Trusted(c.data, m)
  }

  function ItemOf(local: PriceData, channels: seq<Channel>, f: Field, m: string): Item {
    var localValue := LocalValue(local, f, m);
    Item(localValue, ByName(channels, CellOf(localValue, f, m)), ByName(channels, TrustOf(m)))
  }

  function RowOf(local: PriceData, channels: seq<Channel>, m: string, fields: seq<Field>): map<Field, Item> {
    map f | f in fields && Included(local, channels, f, m) :: ItemOf(local, channels, f, m)
  }

  function Models(data: PriceData): set<string> {
    set f, m | f in FIELDS && m in ValueMap(data, f) :: m
  }

  function AllModels(local: PriceData, channels: seq<Channel>): set<string> {
    Models(local) + set i, m | 0 <= i < |channels| && m in Models(channels[i].data) :: m
  }

  function Rows(local: PriceData, channels: seq<Channel>): string -> map<Field, Item> {
    m => RowOf(local, channels, m, FIELDS)
  }

  function NonEmpty(models: set<string>, rows: string -> map<Field, Item>): Differences {
    map m | m in models && rows(m) != map[] :: rows(m)
  }

  function Raw(local: PriceData, channels: seq<Channel>, models: set<string>): Differences {
    NonEmpty(models, Rows(local, channels))
  }

  // ----- The pruning pass -----

  function Differing(d: Differences): set<string> {
    set m, f, name | m in d && f in d[m] && name in d[m][f].upstreams && Shows(d[m][f].upstreams[name]) :: name
  }

  function PruneItem(item: Item, keep: set<string>): Item {
    item.(upstreams := map name | name in item.upstreams && name in keep :: item.upstreams[name],
          confidence := map name | name in item.confidence && (name in keep || name !in item.upstreams) :: item.confidence[name])
  }

  /** Some column is left that is not "same". */
  predicate Informative(item: Item) {
    exists name :: name in item.upstreams && item.upstreams[name] != SAME
  }

  function PruneRow(row: map<Field, Item>, keep: set<string>): map<Field, Item> {
    map f | f in row && Informative(PruneItem(row[f], keep)) :: PruneItem(row[f], keep)
  }

  /** The rows of a difference map after pruning, empty for other models. */
  function PrunedRows(d: Differences, keep: set<string>): string -> map<Field, Item> {
    m => if m in d then PruneRow(d[m], keep) else map[]
  }

  function PruneTo(d: Differences, keep: set<string>): Differences {
    NonEmpty(d.Keys, PrunedRows(d, keep))
  }

  function Prune(d: Differences): Differences {
    PruneTo(d, Differing(d))
  }

  function Build(local: PriceData, channels: seq<Channel>): Differences {
    Prune(Raw(local, channels, AllModels(local, channels)))
  }

  // ----- The loops -----

  /** The loop body for one channel. */
  method BuildColumn(localValue: Value, data: PriceData, f: Field, m: string) returns (column: Value, reported: bool, differs: bool)
    ensures column == Column(localValue, Reported(data, f, m))
    ensures reported <==> Reported(data, f, m).Some?
    ensures differs <==> Differs(localValue, Reported(data, f, m))
  {
    var upstreamValue := Null;
    reported, differs := false, false;
    if m in ValueMap(data, f) {
      upstreamValue := NormalizeSyncValue(f, ValueMap(data, f)[m]);
      reported := true;
      if localValue != Null && !ValuesEqual(localValue, upstreamValue) {
        differs := true;
      } else if ValuesEqual(localValue, upstreamValue) {
        upstreamValue := SAME;
      }
    }
    if upstreamValue == Null && localValue == Null {
      upstreamValue := SAME;
    }
    if localValue == Null && upstreamValue != Null && upstreamValue != SAME {
      differs := true;
    }
    column := upstreamValue;
  }

  predicate AnyOf<T>(xs: seq<T>, p: T -> bool) {
    exists k :: 0 <= k < |xs| && p(xs[k])
  }

  lemma AnyOfNext<T>(xs: seq<T>, i: nat, p: T -> bool)
    requires i < |xs|
    ensures AnyOf(xs[..i + 1], p) <==> AnyOf(xs[..i], p) || p(xs[i])
  {
    assert forall k :: 0 <= k < i ==> xs[..i + 1][k] == xs[..i][k];
    assert xs[..i + 1][i] == xs[i];
  }

  function ReportsTo(f: Field, m: string): Channel -> bool {
    (c: Channel) => Reported(c.data, f, m).Some?
  }

  function DiffersFrom(localValue: Value, f: Field, m: string): Channel -> bool {
    (c: Channel) => Differs(localValue, Reported(c.data, f, m))
  }

  lemma ByNameNext<V>(channels: seq<Channel>, i: nat, value: Channel -> V)
    requires i < |channels|
    ensures ByName(channels[..i + 1], value) == ByName(channels[..i], value)[channels[i].name := value(channels[i])]
  {
    assert channels[..i + 1][..i] == channels[..i];
  }

  /** The loop over the channels for one model and field. */
  method BuildItem(local: PriceData, channels: seq<Channel>, f: Field, m: string) returns (item: Item, shouldInclude: bool)
    ensures item == ItemOf(local, channels, f, m)
    ensures shouldInclude <==> Included(local, channels, f, m)
  {
    var localValue := LocalValue(local, f, m);
    var upstreams: map<string, Value>, confidence: map<string, bool> := map[], map[];
    var hasUpstreamValue, hasDifference := false, false;
    ghost var cells, trusts := CellOf(localValue, f, m), TrustOf(m);
    ghost var reports, differing := ReportsTo(f, m), DiffersFrom(localValue, f, m);
    for i := 0 to |channels|
      invariant upstreams == ByName(channels[..i], cells)
      invariant confidence == ByName(channels[..i], trusts)
      invariant hasUpstreamValue <==> AnyOf(channels[..i], reports)
      invariant hasDifference <==> AnyOf(channels[..i], differing)
    {
      ByNameNext(channels, i, cells);
      ByNameNext(channels, i, trusts);
      AnyOfNext(channels, i, reports);
      AnyOfNext(channels, i, differing);
      var column, reported, differs := BuildColumn(localValue, channels[i].data, f, m);
      hasUpstreamValue := hasUpstreamValue || reported;
      hasDifference := hasDifference || differs;
      upstreams := upstreams[channels[i].name := column];
      confidence := confidence[channels[i].name := Trusted(channels[i].data, m)];
    }
    assert channels[..|channels|] == channels;
    item := Item(localValue, upstreams, confidence);
    shouldInclude := if localValue != Null then hasDifference else hasUpstreamValue;
  }

  /** The loop over the fields for one model. */
  method BuildRow(local: PriceData, channels: seq<Channel>, m: string, fields: seq<Field>) returns (row: map<Field, Item>)
    ensures row == RowOf(local, channels, m, fields)
  {
    row := map[];
    for i := 0 to |fields|
      invariant row == RowOf(local, channels, m, fields[..i])
    {
      RowNext(local, channels, m, fields, i);
      var item, shouldInclude := BuildItem(local, channels, fields[i], m);
      if shouldInclude {
        row := row[fields[i] := item];
      }
    }
    assert fields[..|fields|] == fields;
  }

  lemma RowNext(local: PriceData, channels: seq<Channel>, m: string, fields: seq<Field>, i: nat)
    requires i < |fields|
    ensures RowOf(local, channels, m, fields[..i + 1]) ==
            if Included(local, channels, fields[i], m)
            then RowOf(local, channels, m, fields[..i])[fields[i] := ItemOf(local, channels, fields[i], m)]
            else RowOf(local, channels, m, fields[..i])
  {
    assert fields[..i + 1] == fields[..i] + [fields[i]];
  }

  method BuildDifferences(local: PriceData, channels: seq<Channel>) returns (d: Differences)
    ensures d == Build(local, channels)
  {
    var allModels := AllModels(local, channels);
    var raw := BuildRaw(local, channels, allModels);
    var channelHasDiff := CollectDiffering(raw);
    d := PruneDifferences(raw, channelHasDiff, PrunedRows(raw, channelHasDiff));
  }

  method BuildRaw(local: PriceData, channels: seq<Channel>, models: set<string>) returns (raw: Differences)
    ensures raw == Raw(local, channels, models)
  {
    ghost var rows := Rows(local, channels);
    var todo := models;
    raw := map[];
    while todo != {}
      invariant todo <= models && raw == NonEmpty(models - todo, rows)
      decreases todo
    {
      var m :| m in todo;
      var row := BuildRow(local, channels, m, FIELDS);
      NonEmptyNext(models - todo, rows, m);
      assert models - todo + {m} == models - (todo - {m});
      assert row == rows(m);
      if row != map[] {
        raw := raw[m := row];
      }
      todo := todo - {m};
    }
    assert models - {} == models;
  }

  lemma NonEmptyNext(models: set<string>, rows: string -> map<Field, Item>, m: string)
    requires m !in models
    ensures NonEmpty(models + {m}, rows) ==
            if rows(m) != map[] then NonEmpty(models, rows)[m := rows(m)] else NonEmpty(models, rows)
  {
  }

  method CollectDiffering(d: Differences) returns (names: set<string>)
    ensures names == Differing(d)
  {
    names := {};
    var models := d.Keys;
    while models != {}
      invariant models <= d.Keys
      invariant forall name :: name in names <==> exists m, f :: m in d && m !in models && f in d[m] && ShownBy(d[m][f], name)
      decreases models
    {
      var m :| m in models;
      ghost var before := names;
      var fields := d[m].Keys;
      while fields != {}
        invariant fields <= d[m].Keys
        invariant forall name :: name in names <==> name in before || exists f :: f in d[m] && f !in fields && ShownBy(d[m][f], name)
        decreases fields
      {
        var f :| f in fields;
        var shown := set name | name in d[m][f].upstreams && Shows(d[m][f].upstreams[name]);
        names := names + shown;
        fields := fields - {f};
      }
      models := models - {m};
    }
    assert forall name :: name in names <==> name in Differing(d);
  }

  predicate ShownBy(item: Item, name: string) {
    name in item.upstreams && Shows(item.upstreams[name])
  }

  /** The pruning loop; `rows` are the rows that pruning leaves. */
  method PruneDifferences(raw: Differences, keep: set<string>, ghost rows: string -> map<Field, Item>) returns (d: Differences)
    requires forall m :: m in raw ==> rows(m) == PruneRow(raw[m], keep)
    ensures d == NonEmpty(raw.Keys, rows)
  {
    d := raw;
    var models := raw.Keys;
    while models != {}
      invariant models <= raw.Keys && d.Keys <= raw.Keys
      invariant forall m :: m in models ==> m in d && d[m] == raw[m]
      invariant forall m :: m in raw.Keys - models ==> (m in d <==> rows(m) != map[]) && (m in d ==> d[m] == rows(m))
      decreases models
    {
      var m :| m in models;
      var row := PruneFields(raw[m], keep);
      d := if row == map[] then d - {m} else d[m := row];
      models := models - {m};
    }
    assert raw.Keys - {} == raw.Keys;
  }

  method PruneFields(row: map<Field, Item>, keep: set<string>) returns (pruned: map<Field, Item>)
    ensures pruned == PruneRow(row, keep)
  {
    pruned := row;
    var fields := row.Keys;
    while fields != {}
      invariant fields <= row.Keys && pruned.Keys <= row.Keys
      invariant forall f :: f in fields ==> f in pruned && pruned[f] == row[f]
      invariant forall f :: f in row && f !in fields ==>
                  (f in pruned <==> Informative(PruneItem(row[f], keep))) && (f in pruned ==> pruned[f] == PruneItem(row[f], keep))
      decreases fields
    {
      var f :| f in fields;
      var item := PruneItem(row[f], keep);
      var allSame := forall name | name in item.upstreams :: item.upstreams[name] == SAME;
      if |item.upstreams| == 0 || allSame {
        pruned := pruned - {f};
      } else {
        pruned := pruned[f := item];
      }
      fields := fields - {f};
    }
  }
}
