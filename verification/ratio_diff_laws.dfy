/** What buildDifferences shows, and that adopting what it shows for a channel leaves nothing. */
module RatioDiffLaws {
  import opened Wrappers
  import opened ModelsDev
  import opened RatioDiff
  import opened SortedSets

  predicate DistinctNames(channels: seq<Channel>) {
    forall i, j :: 0 <= i < j < |channels| ==> channels[i].name != channels[j].name
  }

  predicate HasEntry(d: Differences, m: string, f: Field) {
    m in d && f in d[m]
  }

  /** What channel c shows for one model and field. */
  function Cell(local: PriceData, c: Channel, f: Field, m: string): Value {
    Column(LocalValue(local, f, m), Reported(c.data, f, m))
  }

  /** The channel has a real difference somewhere. */
  ghost predicate HasDifference(local: PriceData, c: Channel) {
    exists f: Field, m: string :: Shows(Cell(local, c, f, m))
  }

  lemma EveryField(f: Field)
    ensures f in FIELDS
  {
    var i := match f
      case ModelRatio => 0 case CompletionRatio => 1 case CacheRatio => 2 case CreateCacheRatio => 3 case ImageRatio => 4
      case AudioRatio => 5 case AudioCompletionRatio => 6 case ModelPrice => 7 case BillingMode => 8 case BillingExpr => 9;
    assert FIELDS[i] == f;
  }

  // ----- Maps by channel name -----

  ghost predicate Named(channels: seq<Channel>, name: string) {
    exists i :: 0 <= i < |channels| && channels[i].name == name
  }

  lemma {:induction false} ByNameEntries<V>(channels: seq<Channel>, value: Channel -> V)
    requires DistinctNames(channels)
    ensures forall name :: name in ByName(channels, value) <==> Named(channels, name)
    ensures forall i :: 0 <= i < |channels| ==>
              channels[i].name in ByName(channels, value) && ByName(channels, value)[channels[i].name] == value(channels[i])
  {
    if channels != [] {
      var front, last := channels[..|channels| - 1], channels[|channels| - 1];
      ByNameEntries(front, value);
      forall name
        ensures Named(channels, name) <==> Named(front, name) || name == last.name
      {
        if Named(front, name) {
          var i :| 0 <= i < |front| && front[i].name == name;
          assert channels[i].name == name;
        }
        if i :| 0 <= i < |channels| && channels[i].name == name && i < |front| {
          assert front[i].name == name;
        }
      }
      assert forall i :: 0 <= i < |front| ==> channels[i] == front[i] && front[i].name != last.name;
    }
  }

  /** An item whose columns are exactly the kept channels, each with its cell and its trust. */
  ghost predicate Shown(item: Item, channels: seq<Channel>, cells: Channel -> Value, trusts: Channel -> bool, kept: Channel -> bool) {
    && item.confidence.Keys == item.upstreams.Keys
    && (forall name :: name in item.upstreams ==> Named(channels, name))
    && (forall i :: 0 <= i < |channels| ==> (channels[i].name in item.upstreams <==> kept(channels[i])))
    && (forall i :: 0 <= i < |channels| && kept(channels[i]) ==>
          item.upstreams[channels[i].name] == cells(channels[i]) && item.confidence[channels[i].name] == trusts(channels[i]))
  }

  lemma PrunedByName(current: Value, channels: seq<Channel>, cells: Channel -> Value, trusts: Channel -> bool,
                     kept: Channel -> bool, keep: set<string>)
    requires DistinctNames(channels)
    requires forall i :: 0 <= i < |channels| ==> (channels[i].name in keep <==> kept(channels[i]))
    ensures Shown(PruneItem(Item(current, ByName(channels, cells), ByName(channels, trusts)), keep), channels, cells, trusts, kept)
  {
    ByNameEntries(channels, cells);
    ByNameEntries(channels, trusts);
  }

  lemma ShownInformative(item: Item, channels: seq<Channel>, cells: Channel -> Value, trusts: Channel -> bool, kept: Channel -> bool)
    requires Shown(item, channels, cells, trusts, kept)
    ensures Informative(item) <==> exists i :: 0 <= i < |channels| && kept(channels[i]) && cells(channels[i]) != SAME
  {
    if name :| name in item.upstreams && item.upstreams[name] != SAME {
      assert Named(channels, name);
    }
    if i :| 0 <= i < |channels| && kept(channels[i]) && cells(channels[i]) != SAME {
      assert channels[i].name in item.upstreams;
    }
  }

  // ----- The building pass -----

  lemma NonEmptyEntry(models: set<string>, rows: string -> map<Field, Item>, m: string, f: Field)
    ensures HasEntry(NonEmpty(models, rows), m, f) <==> m in models && f in rows(m)
    ensures m in NonEmpty(models, rows) ==> NonEmpty(models, rows)[m] == rows(m)
  {
    if m in models && f in rows(m) {
      assert rows(m) != map[];
    }
  }

  /** A shown value comes from a report that makes the entry differ. */
  lemma ShownIsIncluded(local: PriceData, channels: seq<Channel>, i: nat, f: Field, m: string)
    requires i < |channels| && Shows(Cell(local, channels[i], f, m))
    ensures Included(local, channels, f, m) && Reported(channels[i].data, f, m).Some?
  {
    if LocalValue(local, f, m).Null? {
      assert ReportsTo(f, m)(channels[i]);
    } else {
      assert DiffersFrom(LocalValue(local, f, m), f, m)(channels[i]);
    }
  }

  lemma IncludedIsKnown(local: PriceData, channels: seq<Channel>, f: Field, m: string)
    requires Included(local, channels, f, m)
    ensures m in AllModels(local, channels)
  {
    var localValue := LocalValue(local, f, m);
    EveryField(f);
    var i: int;
    if localValue.Null? {
      i :| 0 <= i < |channels| && ReportsTo(f, m)(channels[i]);
    } else {
      i :| 0 <= i < |channels| && DiffersFrom(localValue, f, m)(channels[i]);
    }
    assert m in ValueMap(channels[i].data, f);
    assert m in Models(channels[i].data);
  }

  lemma RowEntry(local: PriceData, channels: seq<Channel>, f: Field, m: string)
    ensures var row := Rows(local, channels)(m);
            (f in row <==> Included(local, channels, f, m)) && (f in row ==> row[f] == ItemOf(local, channels, f, m))
  {
    EveryField(f);
  }

  /** Entries of the building pass: exactly the included ones. */
  lemma RawEntries(local: PriceData, channels: seq<Channel>, f: Field, m: string)
    ensures var raw := Raw(local, channels, AllModels(local, channels));
            && (HasEntry(raw, m, f) <==> Included(local, channels, f, m))
            && (HasEntry(raw, m, f) ==> raw[m][f] == ItemOf(local, channels, f, m))
  {
    var models, rows := AllModels(local, channels), Rows(local, channels);
    NonEmptyEntry(models, rows, m, f);
    RowEntry(local, channels, f, m);
    assert Included(local, channels, f, m) ==> m in models by {
      if Included(local, channels, f, m) {
        IncludedIsKnown(local, channels, f, m);
      }
    }
  }

  /** The column of a channel in an entry of the building pass. */
  lemma RawColumn(local: PriceData, channels: seq<Channel>, i: nat, f: Field, m: string)
    requires DistinctNames(channels) && i < |channels|
    ensures channels[i].name in ItemOf(local, channels, f, m).upstreams
    ensures ItemOf(local, channels, f, m).upstreams[channels[i].name] == Cell(local, channels[i], f, m)
  {
    var cells := CellOf(LocalValue(local, f, m), f, m);
    ByNameEntries(channels, cells);
    assert Named(channels, channels[i].name);
    assert cells(channels[i]) == Cell(local, channels[i], f, m);
  }

  // ----- The pruning pass -----

  /** The channels that survive pruning are those with a real difference anywhere. */
  lemma DifferingChannels(local: PriceData, channels: seq<Channel>, i: nat)
    requires DistinctNames(channels) && i < |channels|
    ensures channels[i].name in Differing(Raw(local, channels, AllModels(local, channels))) <==> HasDifference(local, channels[i])
  {
    var raw, name := Raw(local, channels, AllModels(local, channels)), channels[i].name;
    if name in Differing(raw) {
      var m, f :| m in raw && f in raw[m] && name in raw[m][f].upstreams && Shows(raw[m][f].upstreams[name]);
      RawEntries(local, channels, f, m);
      RawColumn(local, channels, i, f, m);
      assert HasEntry(raw, m, f);
      assert Shows(Cell(local, channels[i], f, m));
    }
    if HasDifference(local, channels[i]) {
      var f: Field, m: string :| Shows(Cell(local, channels[i], f, m));
      ShownIsIncluded(local, channels, i, f, m);
      RawEntries(local, channels, f, m);
      RawColumn(local, channels, i, f, m);
      assert HasEntry(raw, m, f);
    }
  }

  lemma PrunedEntries(d: Differences, keep: set<string>, f: Field, m: string)
    ensures HasEntry(PruneTo(d, keep), m, f) <==> HasEntry(d, m, f) && Informative(PruneItem(d[m][f], keep))
    ensures HasEntry(PruneTo(d, keep), m, f) ==> PruneTo(d, keep)[m][f] == PruneItem(d[m][f], keep)
  {
    NonEmptyEntry(d.Keys, PrunedRows(d, keep), m, f);
  }

  // ----- What the result shows -----

  ghost function DiffersSomewhere(local: PriceData): Channel -> bool {
    (c: Channel) => HasDifference(local, c)
  }

  lemma PrunedItem(local: PriceData, channels: seq<Channel>, f: Field, m: string)
    requires DistinctNames(channels)
    ensures var keep := Differing(Raw(local, channels, AllModels(local, channels)));
            Shown(PruneItem(ItemOf(local, channels, f, m), keep), channels,
                  CellOf(LocalValue(local, f, m), f, m), TrustOf(m), DiffersSomewhere(local))
  {
    var keep := Differing(Raw(local, channels, AllModels(local, channels)));
    var kept := DiffersSomewhere(local);
    forall i | 0 <= i < |channels|
      ensures channels[i].name in keep <==> kept(channels[i])
    {
      DifferingChannels(local, channels, i);
    }
    PrunedByName(LocalValue(local, f, m), channels, CellOf(LocalValue(local, f, m), f, m), TrustOf(m), kept, keep);
  }

  /** Any values: an entry survives when it is included and some channel with a real difference
      anywhere shows more than "same" there. */
  lemma SurvivingEntries(local: PriceData, channels: seq<Channel>, f: Field, m: string)
    requires DistinctNames(channels)
    ensures HasEntry(Build(local, channels), m, f) <==>
            Included(local, channels, f, m)
            && (exists i :: 0 <= i < |channels| && HasDifference(local, channels[i]) && Cell(local, channels[i], f, m) != SAME)
  {
    var raw := Raw(local, channels, AllModels(local, channels));
    var cells, kept := CellOf(LocalValue(local, f, m), f, m), DiffersSomewhere(local);
    RawEntries(local, channels, f, m);
    PrunedItem(local, channels, f, m);
    PrunedShown(raw, f, m, Included(local, channels, f, m), ItemOf(local, channels, f, m), channels, cells, TrustOf(m), kept);
    forall i | 0 <= i < |channels|
      ensures cells(channels[i]) == Cell(local, channels[i], f, m) && kept(channels[i]) == HasDifference(local, channels[i])
    {
    }
  }

  /** The columns of a surviving entry are exactly the channels with a real difference anywhere,
      each with its cell and its trust. */
  lemma SurvivingColumns(local: PriceData, channels: seq<Channel>, f: Field, m: string)
    requires DistinctNames(channels) && HasEntry(Build(local, channels), m, f)
    ensures var item := Build(local, channels)[m][f];
            && item.current == LocalValue(local, f, m)
            && Shown(item, channels, CellOf(LocalValue(local, f, m), f, m), TrustOf(m), DiffersSomewhere(local))
  {
    var raw := Raw(local, channels, AllModels(local, channels));
    PrunedEntries(raw, Differing(raw), f, m);
    RawEntries(local, channels, f, m);
    PrunedItem(local, channels, f, m);
  }

  lemma PrunedShown(raw: Differences, f: Field, m: string, included: bool, item: Item, channels: seq<Channel>,
                    cells: Channel -> Value, trusts: Channel -> bool, kept: Channel -> bool)
    requires HasEntry(raw, m, f) <==> included
    requires included ==> raw[m][f] == item
    requires Shown(PruneItem(item, Differing(raw)), channels, cells, trusts, kept)
    ensures HasEntry(Prune(raw), m, f) <==>
            included && (exists i :: 0 <= i < |channels| && kept(channels[i]) && cells(channels[i]) != SAME)
  {
    PrunedEntries(raw, Differing(raw), f, m);
    ShownInformative(PruneItem(item, Differing(raw)), channels, cells, trusts, kept);
  }

  /** Reports are real values: neither nil nor the string that marks equality. */
  ghost predicate Plain(channels: seq<Channel>) {
    forall i, f: Field, m: string :: 0 <= i < |channels| && Reported(channels[i].data, f, m).Some? ==>
      Reported(channels[i].data, f, m).value != Null && Reported(channels[i].data, f, m).value != SAME
  }

  /** The channel reports a value that is not nearly equal to the local one, or there is none. */
  predicate Conflicts(local: PriceData, c: Channel, f: Field, m: string) {
    Reported(c.data, f, m).Some?
    && (LocalValue(local, f, m).Null? || !ValuesEqual(LocalValue(local, f, m), Reported(c.data, f, m).value))
  }

  /** With plain reports an entry survives exactly when some channel reports a value that is not
      nearly equal to the local one, or reports one and there is no local value. */
  lemma PlainEntries(local: PriceData, channels: seq<Channel>, f: Field, m: string)
    requires DistinctNames(channels) && Plain(channels)
    ensures HasEntry(Build(local, channels), m, f) <==> exists i :: 0 <= i < |channels| && Conflicts(local, channels[i], f, m)
  {
    SurvivingEntries(local, channels, f, m);
    forall i | 0 <= i < |channels| && Conflicts(local, channels[i], f, m)
      ensures Included(local, channels, f, m) && HasDifference(local, channels[i]) && Cell(local, channels[i], f, m) != SAME
    {
      ConflictShows(local, channels, i, f, m);
    }
    if Included(local, channels, f, m) {
      IncludedConflicts(local, channels, f, m);
    }
  }

  lemma ConflictShows(local: PriceData, channels: seq<Channel>, i: nat, f: Field, m: string)
    requires Plain(channels) && i < |channels| && Conflicts(local, channels[i], f, m)
    ensures Included(local, channels, f, m) && HasDifference(local, channels[i]) && Cell(local, channels[i], f, m) != SAME
  {
    assert Shows(Cell(local, channels[i], f, m));
    ShownIsIncluded(local, channels, i, f, m);
  }

  lemma IncludedConflicts(local: PriceData, channels: seq<Channel>, f: Field, m: string)
    requires Included(local, channels, f, m)
    ensures exists i :: 0 <= i < |channels| && Conflicts(local, channels[i], f, m)
  {
    var localValue := LocalValue(local, f, m);
    if localValue.Null? {
      var i :| 0 <= i < |channels| && ReportsTo(f, m)(channels[i]);
      assert Conflicts(local, channels[i], f, m);
    } else {
      var i :| 0 <= i < |channels| && DiffersFrom(localValue, f, m)(channels[i]);
      assert Conflicts(local, channels[i], f, m);
    }
  }

  /** A report of nil is never shown as a difference: with one channel that reports nothing
      else, the entry is dropped although the values differ. */
  lemma NilReportIsDropped(local: PriceData, c: Channel, f: Field, m: string)
    requires !LocalValue(local, f, m).Null? && Reported(c.data, f, m) == Some(Null)
    requires forall f': Field, m': string :: Reported(c.data, f', m').Some? ==> Reported(c.data, f', m').value.Null?
    ensures Included(local, [c], f, m) && !HasEntry(Build(local, [c]), m, f)
  {
    assert [c][0] == c;
    assert DiffersFrom(LocalValue(local, f, m), f, m)([c][0]);
    SurvivingEntries(local, [c], f, m);
  }

  // ----- Numbers and trust, as they are reported -----

  /** The price data holds a number, whole or not, for a model. */
  predicate HasNumber(data: PriceData, f: Field, m: string, x: real) {
    f in data && m in data[f] && (data[f][m] == Num(x) || (data[f][m].Int? && data[f][m].whole as real == x))
  }

  predicate HasNothing(data: PriceData, f: Field, m: string) {
    f in data ==> m !in data[f]
  }

  predicate Within(x: real, y: real) {
    -0.000000001 < x - y < 0.000000001
  }

  lemma NumberReported(data: PriceData, f: Field, m: string, x: real)
    requires Numeric(f) && HasNumber(data, f, m, x)
    ensures Reported(data, f, m) == Some(Num(x)) && LocalValue(data, f, m) == Num(x)
  {
  }

  /** Next to a local number a channel shows its own number when it is 1e-9 or more away, "same" when
      it is nearer, and nil when it has none. */
  lemma NumberCell(local: PriceData, c: Channel, f: Field, m: string, x: real, y: Option<real>)
    requires f != BillingMode && f != BillingExpr && HasNumber(local, f, m, x)
    requires if y.Some? then HasNumber(c.data, f, m, y.value) else HasNothing(c.data, f, m)
    ensures Cell(local, c, f, m) == if y.None? then Null else if Within(x, y.value) then Text("same") else Num(y.value)
  {
    NumberReported(local, f, m, x);
    if y.Some? {
      NumberReported(c.data, f, m, y.value);
    }
  }

  /** Every channel has a number or nothing here. */
  ghost predicate OnlyNumbers(channels: seq<Channel>, f: Field, m: string) {
    forall i :: 0 <= i < |channels| ==>
      HasNothing(channels[i].data, f, m) || exists y :: HasNumber(channels[i].data, f, m, y)
  }

  /** The channel whose report makes an entry survive. */
  lemma SurvivorConflicts(local: PriceData, channels: seq<Channel>, f: Field, m: string) returns (i: nat)
    requires DistinctNames(channels) && HasEntry(Build(local, channels), m, f)
    ensures i < |channels| && Conflicts(local, channels[i], f, m)
  {
    SurvivingEntries(local, channels, f, m);
    IncludedConflicts(local, channels, f, m);
    i :| i < |channels| && Conflicts(local, channels[i], f, m);
  }

  lemma NumberConflicts(local: PriceData, c: Channel, f: Field, m: string) returns (y: real)
    requires Numeric(f) && Conflicts(local, c, f, m)
    requires HasNothing(c.data, f, m) || exists y :: HasNumber(c.data, f, m, y)
    ensures HasNumber(c.data, f, m, y) && forall x :: HasNumber(local, f, m, x) ==> !Within(x, y)
  {
    y :| HasNumber(c.data, f, m, y);
    NumberReported(c.data, f, m, y);
    forall x | HasNumber(local, f, m, x)
      ensures !Within(x, y)
    {
      NumberReported(local, f, m, x);
    }
  }

  lemma NumberShows(local: PriceData, channels: seq<Channel>, i: nat, f: Field, m: string, y: real)
    requires DistinctNames(channels) && i < |channels| && Numeric(f) && HasNumber(channels[i].data, f, m, y)
    requires HasNothing(local, f, m) || exists x :: HasNumber(local, f, m, x) && !Within(x, y)
    ensures HasEntry(Build(local, channels), m, f)
  {
    NumberReported(channels[i].data, f, m, y);
    if x :| HasNumber(local, f, m, x) && !Within(x, y) {
      NumberReported(local, f, m, x);
    }
    assert Shows(Cell(local, channels[i], f, m));
    ShownSurvives(local, channels, i, f, m);
  }

  /** A local number and channels that have numbers or nothing: the entry survives exactly when some
      number is 1e-9 or more away. */
  lemma NumberEntries(local: PriceData, channels: seq<Channel>, f: Field, m: string, x: real)
    requires DistinctNames(channels) && f != BillingMode && f != BillingExpr && HasNumber(local, f, m, x) && OnlyNumbers(channels, f, m)
    ensures HasEntry(Build(local, channels), m, f) <==>
            exists i, y :: 0 <= i < |channels| && HasNumber(channels[i].data, f, m, y) && !Within(x, y)
  {
    if i, y :| 0 <= i < |channels| && HasNumber(channels[i].data, f, m, y) && !Within(x, y) {
      NumberShows(local, channels, i, f, m, y);
    }
    if HasEntry(Build(local, channels), m, f) {
      var i := SurvivorConflicts(local, channels, f, m);
      var y := NumberConflicts(local, channels[i], f, m);
      assert HasNumber(channels[i].data, f, m, y) && !Within(x, y);
    }
  }

  /** Where there is no local value an entry survives exactly when some channel has a number. */
  lemma NewNumberEntries(local: PriceData, channels: seq<Channel>, f: Field, m: string)
    requires DistinctNames(channels) && f != BillingMode && f != BillingExpr && HasNothing(local, f, m) && OnlyNumbers(channels, f, m)
    ensures HasEntry(Build(local, channels), m, f) <==>
            exists i, y :: 0 <= i < |channels| && HasNumber(channels[i].data, f, m, y)
  {
    if i, y :| 0 <= i < |channels| && HasNumber(channels[i].data, f, m, y) {
      NumberShows(local, channels, i, f, m, y);
    }
    if HasEntry(Build(local, channels), m, f) {
      var i := SurvivorConflicts(local, channels, f, m);
      var y := NumberConflicts(local, channels[i], f, m);
      assert HasNumber(channels[i].data, f, m, y);
    }
  }

  predicate HasText(data: PriceData, f: Field, m: string, text: string) {
    f in data && m in data[f] && data[f][m] == Text(text)
  }

  /** Every channel has a text other than "same", or nothing, here. */
  ghost predicate OnlyTexts(channels: seq<Channel>, f: Field, m: string) {
    forall i :: 0 <= i < |channels| ==>
      HasNothing(channels[i].data, f, m) || exists text :: HasText(channels[i].data, f, m, text) && text != "same"
  }

  lemma TextReported(data: PriceData, f: Field, m: string, text: string)
    requires HasText(data, f, m, text)
    ensures Reported(data, f, m) == Some(Text(text)) && LocalValue(data, f, m) == Text(text)
  {
  }

  lemma TextConflicts(local: PriceData, c: Channel, f: Field, m: string, t: string) returns (u: string)
    requires HasText(local, f, m, t) && Conflicts(local, c, f, m)
    requires HasNothing(c.data, f, m) || exists text :: HasText(c.data, f, m, text) && text != "same"
    ensures HasText(c.data, f, m, u) && u != "same" && u != t
  {
    u :| HasText(c.data, f, m, u) && u != "same";
    TextReported(c.data, f, m, u);
    TextReported(local, f, m, t);
  }

  lemma TextShows(local: PriceData, channels: seq<Channel>, i: nat, f: Field, m: string, t: string, u: string)
    requires DistinctNames(channels) && i < |channels|
    requires HasText(local, f, m, t) && HasText(channels[i].data, f, m, u) && u != "same" && u != t
    ensures HasEntry(Build(local, channels), m, f)
  {
    TextReported(channels[i].data, f, m, u);
    TextReported(local, f, m, t);
    assert Shows(Cell(local, channels[i], f, m));
    ShownSurvives(local, channels, i, f, m);
  }

  /** A local text and channels that have texts or nothing: the entry survives exactly when some text
      is another one. */
  lemma TextEntries(local: PriceData, channels: seq<Channel>, f: Field, m: string, t: string)
    requires DistinctNames(channels) && HasText(local, f, m, t) && OnlyTexts(channels, f, m)
    ensures HasEntry(Build(local, channels), m, f) <==>
            exists i, u :: 0 <= i < |channels| && HasText(channels[i].data, f, m, u) && u != t
  {
    if i, u :| 0 <= i < |channels| && HasText(channels[i].data, f, m, u) && u != t {
      TextShows(local, channels, i, f, m, t, u);
    }
    if HasEntry(Build(local, channels), m, f) {
      var i := SurvivorConflicts(local, channels, f, m);
      var u := TextConflicts(local, channels[i], f, m, t);
      assert HasText(channels[i].data, f, m, u) && u != t;
    }
  }

  /** A shown channel is marked untrusted exactly when it reports the placeholder: a model ratio within
      1e-9 of 37.5 together with a completion ratio within 1e-9 of 1. */
  lemma UntrustedColumns(local: PriceData, channels: seq<Channel>, i: nat, f: Field, m: string)
    requires DistinctNames(channels) && i < |channels| && HasEntry(Build(local, channels), m, f)
    requires channels[i].name in Build(local, channels)[m][f].upstreams
    ensures channels[i].name in Build(local, channels)[m][f].confidence
    ensures !Build(local, channels)[m][f].confidence[channels[i].name] <==>
            exists x, y :: HasNumber(channels[i].data, ModelRatio, m, x) && Within(x, 37.5)
                      && HasNumber(channels[i].data, CompletionRatio, m, y) && Within(y, 1.0)
  {
    SurvivingColumns(local, channels, f, m);
    assert TrustOf(m)(channels[i]) == Trusted(channels[i].data, m);
    Placeholder(channels[i].data, m);
  }

  lemma Placeholder(data: PriceData, m: string)
    ensures !Trusted(data, m) <==>
            exists x, y :: HasNumber(data, ModelRatio, m, x) && Within(x, 37.5) && HasNumber(data, CompletionRatio, m, y) && Within(y, 1.0)
  {
    if !Trusted(data, m) {
      var x, y := AsFloat(data[ModelRatio][m]).value, AsFloat(data[CompletionRatio][m]).value;
      assert HasNumber(data, ModelRatio, m, x) && Within(x, 37.5) && HasNumber(data, CompletionRatio, m, y) && Within(y, 1.0);
    }
  }

  // ----- A second pruning pass -----

  /** Pruning a pruned result changes nothing, whatever the values are. */
  lemma PruneTwice(d: Differences)
    ensures Prune(Prune(d)) == Prune(d)
  {
    SameDiffering(d);
    PruneToTwice(d, Differing(d));
  }

  lemma PruneToTwice(d: Differences, keep: set<string>)
    ensures PruneTo(PruneTo(d, keep), keep) == PruneTo(d, keep)
  {
    var once := PruneTo(d, keep);
    forall m | m in once
      ensures PruneRow(once[m], keep) == once[m] != map[]
    {
      PruneRowTwice(d[m], keep);
    }
    KeptWhole(once, PrunedRows(once, keep));
  }

  lemma KeptWhole(d: Differences, rows: string -> map<Field, Item>)
    requires forall m :: m in d ==> rows(m) == d[m] != map[]
    ensures NonEmpty(d.Keys, rows) == d
  {
  }

  lemma PruneRowTwice(row: map<Field, Item>, keep: set<string>)
    ensures PruneRow(PruneRow(row, keep), keep) == PruneRow(row, keep)
  {
    forall f | f in row
      ensures PruneItem(PruneItem(row[f], keep), keep) == PruneItem(row[f], keep)
    {
      PruneItemTwice(row[f], keep);
    }
  }

  lemma PruneItemTwice(item: Item, keep: set<string>)
    ensures PruneItem(PruneItem(item, keep), keep) == PruneItem(item, keep)
  {
  }

  lemma SameDiffering(d: Differences)
    ensures Differing(Prune(d)) == Differing(d)
  {
    var keep, once := Differing(d), Prune(d);
    forall name
      ensures name in Differing(once) <==> name in keep
    {
      if name in keep {
        var m, f :| m in d && f in d[m] && name in d[m][f].upstreams && Shows(d[m][f].upstreams[name]);
        assert name in PruneItem(d[m][f], keep).upstreams;
        PrunedEntries(d, keep, f, m);
        assert HasEntry(once, m, f);
      }
      if name in Differing(once) {
        var m, f :| m in once && f in once[m] && name in once[m][f].upstreams && Shows(once[m][f].upstreams[name]);
        PrunedEntries(d, keep, f, m);
        assert HasEntry(once, m, f);
      }
    }
  }

  // ----- Adopting a channel's values -----

  /** The local prices after the value shown for a channel was taken over at every entry. */
  function Adopt(local: PriceData, d: Differences, name: string): PriceData {
    map f | f in FIELDS ::
      ValueMap(local, f)
      + map m | m in d && f in d[m] && name in d[m][f].upstreams && Shows(d[m][f].upstreams[name]) :: d[m][f].upstreams[name]
  }

  lemma AdoptedValue(local: PriceData, d: Differences, name: string, f: Field, m: string)
    ensures var shown := HasEntry(d, m, f) && name in d[m][f].upstreams && Shows(d[m][f].upstreams[name]);
            LocalValue(Adopt(local, d, name), f, m) ==
            if shown then NormalizeSyncValue(f, d[m][f].upstreams[name]) else LocalValue(local, f, m)
  {
    EveryField(f);
  }

  lemma ReportedIsNormal(data: PriceData, f: Field, m: string)
    requires Reported(data, f, m).Some?
    ensures NormalizeSyncValue(f, Reported(data, f, m).value) == Reported(data, f, m).value
    ensures ValuesEqual(Reported(data, f, m).value, Reported(data, f, m).value)
  {
  }

  ghost predicate AllAgree(local: PriceData, channels: seq<Channel>) {
    forall i :: 0 <= i < |channels| ==> !HasDifference(local, channels[i])
  }

  lemma AgreementHasNoEntry(local: PriceData, channels: seq<Channel>, f: Field, m: string)
    requires DistinctNames(channels) && AllAgree(local, channels)
    ensures !HasEntry(Build(local, channels), m, f)
  {
    SurvivingEntries(local, channels, f, m);
  }

  lemma SomeEntry(models: set<string>, rows: string -> map<Field, Item>, m: string) returns (f: Field)
    requires m in NonEmpty(models, rows)
    ensures HasEntry(NonEmpty(models, rows), m, f)
  {
    assert rows(m) != map[];
    f := HasMember(rows(m).Keys);
  }

  /** The result is empty exactly when no channel has a real difference anywhere. */
  lemma EmptyIfAllAgree(local: PriceData, channels: seq<Channel>)
    requires DistinctNames(channels)
    ensures Build(local, channels) == map[] <==> AllAgree(local, channels)
  {
    if AllAgree(local, channels) {
      forall m
        ensures m !in Build(local, channels)
      {
        if m in Build(local, channels) {
          var raw := Raw(local, channels, AllModels(local, channels));
          var f := SomeEntry(raw.Keys, PrunedRows(raw, Differing(raw)), m);
          AgreementHasNoEntry(local, channels, f, m);
        }
      }
    } else {
      var i :| 0 <= i < |channels| && HasDifference(local, channels[i]);
      var f: Field, m: string :| Shows(Cell(local, channels[i], f, m));
      ShownSurvives(local, channels, i, f, m);
    }
  }

  /** After the local prices adopt what is shown for one channel at every entry, comparing with
      that channel alone shows nothing, whatever values are reported. */
  lemma SyncFixpoint(local: PriceData, channels: seq<Channel>, k: nat)
    requires DistinctNames(channels) && k < |channels|
    ensures Build(Adopt(local, Build(local, channels), channels[k].name), [channels[k]]) == map[]
  {
    var c, d := channels[k], Build(local, channels);
    var local' := Adopt(local, d, c.name);
    forall f: Field, m: string
      ensures !Shows(Cell(local', c, f, m))
    {
      AdoptedCell(local, channels, k, f, m);
    }
    EmptyIfAllAgree(local', [c]);
  }

  lemma AdoptedCell(local: PriceData, channels: seq<Channel>, k: nat, f: Field, m: string)
    requires DistinctNames(channels) && k < |channels|
    ensures !Shows(Cell(Adopt(local, Build(local, channels), channels[k].name), channels[k], f, m))
  {
    var c, d := channels[k], Build(local, channels);
    AdoptedValue(local, d, c.name, f, m);
    ColumnOfEntry(local, channels, k, f, m);
    AdoptedColumn(LocalValue(local, f, m), c.data, f, m);
  }

  /** A channel's shown cell is in the result, and what the result shows for it is its cell. */
  lemma ColumnOfEntry(local: PriceData, channels: seq<Channel>, k: nat, f: Field, m: string)
    requires DistinctNames(channels) && k < |channels|
    ensures var c, d := channels[k], Build(local, channels);
            && (Shows(Cell(local, c, f, m)) ==> HasEntry(d, m, f) && c.name in d[m][f].upstreams)
            && (HasEntry(d, m, f) && c.name in d[m][f].upstreams ==> d[m][f].upstreams[c.name] == Cell(local, c, f, m))
  {
    if Shows(Cell(local, channels[k], f, m)) {
      ShownSurvives(local, channels, k, f, m);
    }
    if HasEntry(Build(local, channels), m, f) {
      ColumnOfSurvivor(local, channels, k, f, m);
    }
  }

  lemma ShownSurvives(local: PriceData, channels: seq<Channel>, k: nat, f: Field, m: string)
    requires DistinctNames(channels) && k < |channels| && Shows(Cell(local, channels[k], f, m))
    ensures HasEntry(Build(local, channels), m, f)
  {
    assert HasDifference(local, channels[k]);
    ShownIsIncluded(local, channels, k, f, m);
    SurvivingEntries(local, channels, f, m);
  }

  lemma ColumnOfSurvivor(local: PriceData, channels: seq<Channel>, k: nat, f: Field, m: string)
    requires DistinctNames(channels) && k < |channels| && HasEntry(Build(local, channels), m, f)
    ensures var c, upstreams := channels[k], Build(local, channels)[m][f].upstreams;
            && (c.name in upstreams <==> HasDifference(local, c))
            && (c.name in upstreams ==> upstreams[c.name] == Cell(local, c, f, m))
  {
    var cells, kept := CellOf(LocalValue(local, f, m), f, m), DiffersSomewhere(local);
    SurvivingColumns(local, channels, f, m);
    assert kept(channels[k]) == HasDifference(local, channels[k]);
    assert cells(channels[k]) == Cell(local, channels[k], f, m);
  }

  lemma AdoptedColumn(localValue: Value, data: PriceData, f: Field, m: string)
    ensures var reported := Reported(data, f, m);
            Shows(Column(localValue, reported)) ==>
              !Shows(Column(NormalizeSyncValue(f, Column(localValue, reported)), reported))
  {
    if Reported(data, f, m).Some? {
      ReportedIsNormal(data, f, m);
    }
  }
}
