/** The conversion of models.dev prices into ratios: controller/ratio_sync.go, lines 830-985.
    float64 is modelled by real, so every cost is finite and rounding errors of the machine
    are not part of the model; the rounding to six digits is. */
module ModelsDev {
  import opened Wrappers
  import opened Text
  import opened SortedSets

  const EPSILON: real := 0.000000001
  const USD: real := 500.0
  const INPUT_COST_RATIO_BASE: real := 1000.0

  datatype Cost = Cost(input: Option<real>, output: Option<real>, cacheRead: Option<real>)

  datatype Candidate = Candidate(provider: string, input: real, output: Option<real>, cacheRead: Option<real>)

  function Abs(x: real): real {
    if x < 0.0 then -x else x
  }

  predicate NearlyEqual(a: real, b: real) {
    if a > b then a - b < EPSILON else b - a < EPSILON
  }

  function BuildCandidate(provider: string, cost: Cost): Option<Candidate> {
    if cost.input.None? || cost.input.value < 0.0 then None
    else if cost.output.Some? && cost.output.value < 0.0 then None
    else if cost.input.value == 0.0 && cost.output.Some? && cost.output.value > 0.0 then None
    else
      var cacheRead := if cost.cacheRead.Some? && cost.cacheRead.value >= 0.0 then cost.cacheRead else None;
      Some(Candidate(provider, cost.input.value, cost.output, cacheRead))
  }

  predicate ShouldReplace(current: Candidate, next: Candidate) {
    var currentNonZero, nextNonZero := current.input > 0.0, next.input > 0.0;
    if currentNonZero != nextNonZero then nextNonZero
    else if nextNonZero && !NearlyEqual(next.input, current.input) then next.input < current.input
    else Less(next.provider, current.provider)
  }

  /** The candidate kept after a list of them. */
  function Kept(candidates: seq<Candidate>): Candidate
    requires candidates != []
  {
    var last := candidates[|candidates| - 1];
    if |candidates| == 1 then last
    else
      var current := Kept(candidates[..|candidates| - 1]);
      if ShouldReplace(current, last) then last else current
  }

  /** math.Round: halves go away from zero. */
  function Round(x: real): int {
    if x >= 0.0 then (x + 0.5).Floor else -((-x + 0.5).Floor)
  }

  function RoundRatio(value: real): real {
    Round(value * 1000000.0) as real / 1000000.0
  }

  function ModelRatio(c: Candidate): real {
    if c.input == 0.0 then 0.0 else RoundRatio(c.input * USD / INPUT_COST_RATIO_BASE)
  }

  // ----- The order of the providers -----

  predicate IsLeastName(m: string, names: set<string>) {
    m in names && forall x :: x in names ==> x == m || Less(m, x)
  }

  lemma LeastNameOfRest(names: set<string>, m: string, least: string)
    requires IsLeastName(least, names - {m}) && Less(least, m)
    ensures IsLeastName(least, names)
  {
    forall x | x in names
      ensures x == least || Less(least, x)
    {
      if x != m {
        assert x in names - {m};
      }
    }
  }

  lemma {:induction false} LeastNameBelow(names: set<string>, m: string) returns (least: string)
    requires m in names
    ensures IsLeastName(least, names) && (least == m || Less(least, m))
    decreases |names|
  {
    if x :| x in names && Less(x, m) {
      LessIrreflexive(m);
      least := LeastNameBelow(names - {m}, x);
      if least != x {
        LessTransitive(least, x, m);
      }
      LeastNameOfRest(names, m, least);
    } else {
      least := m;
      forall x | x in names
        ensures x == m || Less(m, x)
      {
        LessTotal(x, m);
      }
    }
  }

  lemma LeastNameExists(names: set<string>)
    requires names != {}
    ensures exists least :: IsLeastName(least, names)
  {
    var x := HasMember(names);
    var least := LeastNameBelow(names, x);
  }

  lemma LeastNameUnique(names: set<string>, a: string, b: string)
    requires IsLeastName(a, names) && IsLeastName(b, names)
    ensures a == b
  {
    if a != b {
      LessTransitive(a, b, a);
      LessIrreflexive(a);
    }
  }

  function LeastName(names: set<string>): (least: string)
    requires names != {}
    ensures IsLeastName(least, names)
  {
    LeastNameExists(names);
    assert forall a, b | IsLeastName(a, names) && IsLeastName(b, names) :: a == b by {
      forall a, b | IsLeastName(a, names) && IsLeastName(b, names)
        ensures a == b
      {
        LeastNameUnique(names, a, b);
      }
    }
    var least :| IsLeastName(least, names);
    least
  }

  /** sort.Strings of distinct names. */
  function SortedNames(names: set<string>): seq<string> {
    if names == {} then [] else [LeastName(names)] + SortedNames(names - {LeastName(names)})
  }

  predicate AscendingNames(names: seq<string>) {
    forall i, j :: 0 <= i < j < |names| ==> Less(names[i], names[j])
  }

  lemma {:induction false} SortedNamesAscend(names: set<string>)
    ensures AscendingNames(SortedNames(names))
    ensures forall x :: x in SortedNames(names) <==> x in names
  {
    if names != {} {
      var m, rest := LeastName(names), SortedNames(names - {LeastName(names)});
      SortedNamesAscend(names - {m});
      assert forall j :: 0 <= j < |rest| ==> rest[j] in rest;
    }
  }

  // ----- Cheapest non-zero, in provider order -----

  predicate ByProvider(candidates: seq<Candidate>) {
    forall i, j :: 0 <= i < j < |candidates| ==> Less(candidates[i].provider, candidates[j].provider)
  }

  /** Over candidates in provider order the kept one is positive whenever one is, and cheaper
      than every positive candidate's price plus the tolerance. */
  lemma {:induction false} KeptIsCheapest(candidates: seq<Candidate>)
    requires candidates != [] && ByProvider(candidates)
    ensures Kept(candidates) in candidates
    ensures forall i :: 0 <= i < |candidates| && candidates[i].input > 0.0 ==>
                          0.0 < Kept(candidates).input < candidates[i].input + EPSILON
  {
    var n := |candidates| - 1;
    if n > 0 {
      var front, last := candidates[..n], candidates[n];
      KeptIsCheapest(front);
      var current := Kept(front);
      var k :| 0 <= k < n && front[k] == current;
      assert Less(candidates[k].provider, candidates[n].provider);
      NotBefore(candidates[k].provider, last.provider);
    }
  }

  lemma NotBefore(a: string, b: string)
    requires Less(a, b)
    ensures !Less(b, a)
  {
    if Less(b, a) {
      LessTransitive(a, b, a);
      LessIrreflexive(a);
    }
  }

  // ----- The order of the candidates does not matter when prices are apart -----

  /** The documented policy: non-zero first, then the lower price, then the earlier provider. */
  predicate Better(a: Candidate, b: Candidate) {
    if (a.input > 0.0) != (b.input > 0.0) then a.input > 0.0
    else if a.input > 0.0 && a.input != b.input then a.input < b.input
    else Less(a.provider, b.provider)
  }

  /** Positive prices are equal or at least the tolerance apart, and providers differ. */
  predicate Apart(candidates: seq<Candidate>) {
    forall i, j :: 0 <= i < j < |candidates| ==>
      && candidates[i].provider != candidates[j].provider
      && (candidates[i].input > 0.0 && candidates[j].input > 0.0 ==>
            candidates[i].input == candidates[j].input || Abs(candidates[i].input - candidates[j].input) >= EPSILON)
  }

  lemma BetterTransitive(a: Candidate, b: Candidate, c: Candidate)
    requires Better(a, b) && Better(b, c)
    ensures Better(a, c)
  {
    if Less(a.provider, b.provider) && Less(b.provider, c.provider) {
      LessTransitive(a.provider, b.provider, c.provider);
    }
  }

  predicate Best(c: Candidate, candidates: seq<Candidate>) {
    c in candidates && forall i :: 0 <= i < |candidates| ==> candidates[i] == c || Better(c, candidates[i])
  }

  lemma {:induction false} KeptIsBest(candidates: seq<Candidate>)
    requires candidates != [] && Apart(candidates)
    ensures Best(Kept(candidates), candidates)
  {
    var n := |candidates| - 1;
    if n > 0 {
      var front, last := candidates[..n], candidates[n];
      KeptIsBest(front);
      var current := Kept(front);
      var k :| 0 <= k < n && front[k] == current;
      assert candidates[k] == current;
      ReplaceWhenBetter(current, last);
      if ShouldReplace(current, last) {
        forall i | 0 <= i <= n
          ensures candidates[i] == last || Better(last, candidates[i])
        {
          if i < n {
            assert front[i] == current || Better(current, front[i]);
            if front[i] != current {
              BetterTransitive(last, current, front[i]);
            }
          }
        }
      } else {
        forall i | 0 <= i <= n
          ensures candidates[i] == current || Better(current, candidates[i])
        {
          if i < n {
            assert candidates[i] == front[i];
          }
        }
      }
    }
  }

  /** On prices that are apart, the code replaces exactly by the better candidate. */
  lemma ReplaceWhenBetter(current: Candidate, next: Candidate)
    requires current.provider != next.provider
    requires current.input > 0.0 && next.input > 0.0 ==>
               current.input == next.input || Abs(current.input - next.input) >= EPSILON
    ensures ShouldReplace(current, next) <==> Better(next, current)
    ensures ShouldReplace(current, next) || Better(current, next)
  {
    LessTotal(current.provider, next.provider);
  }

  lemma BestIsUnique(a: Candidate, b: Candidate, candidates: seq<Candidate>)
    requires Best(a, candidates) && Best(b, candidates)
    ensures a == b
  {
    var i :| 0 <= i < |candidates| && candidates[i] == a;
    var j :| 0 <= j < |candidates| && candidates[j] == b;
    if a != b {
      BetterTransitive(a, b, a);
      LessIrreflexive(a.provider);
    }
  }

  /** Candidates that are apart give the same result in any order: the best of them. */
  lemma OrderDoesNotMatter(candidates: seq<Candidate>, others: seq<Candidate>)
    requires candidates != [] && Apart(candidates) && Apart(others)
    requires forall c :: c in candidates <==> c in others
    ensures others != [] && Kept(candidates) == Kept(others)
  {
    assert candidates[0] in others;
    KeptIsBest(candidates);
    KeptIsBest(others);
    var c := Kept(others);
    assert Best(c, candidates) by {
      forall i | 0 <= i < |candidates|
        ensures candidates[i] == c || Better(c, candidates[i])
      {
        assert candidates[i] in others;
      }
    }
    BestIsUnique(Kept(candidates), c, candidates);
  }

  // ----- When the order matters -----

  predicate DistinctProviders(candidates: seq<Candidate>) {
    forall i, j :: 0 <= i < j < |candidates| ==> candidates[i].provider != candidates[j].provider
  }

  lemma ReplaceAsymmetric(a: Candidate, b: Candidate)
    requires a.provider != b.provider
    ensures ShouldReplace(a, b) <==> !ShouldReplace(b, a)
  {
    LessTotal(a.provider, b.provider);
    if Less(a.provider, b.provider) {
      NotBefore(a.provider, b.provider);
    } else {
      NotBefore(b.provider, a.provider);
    }
  }

  /** The candidate replaces every other one. */
  predicate Beats(c: Candidate, candidates: seq<Candidate>) {
    c in candidates && forall x :: x in candidates && x != c ==> ShouldReplace(x, c)
  }

  lemma {:induction false} KeptIsMember(candidates: seq<Candidate>)
    requires candidates != []
    ensures Kept(candidates) in candidates
  {
    if |candidates| > 1 {
      KeptIsMember(candidates[..|candidates| - 1]);
    }
  }

  lemma {:induction false} BeaterIsKept(candidates: seq<Candidate>, c: Candidate)
    requires c in candidates
    requires forall x :: x in candidates && x != c ==> ShouldReplace(x, c) && !ShouldReplace(c, x)
    ensures Kept(candidates) == c
  {
    var n := |candidates| - 1;
    if n > 0 {
      var front, last := candidates[..n], candidates[n];
      LessIrreflexive(c.provider);
      if c in front {
        BeaterIsKept(front, c);
      } else {
        assert last == c;
        KeptIsMember(front);
      }
    }
  }

  lemma BeatsInEveryOrder(candidates: seq<Candidate>, others: seq<Candidate>, c: Candidate)
    requires DistinctProviders(candidates) && Beats(c, candidates) && multiset(others) == multiset(candidates)
    ensures others != [] && Kept(others) == c
  {
    assert forall x :: x in others <==> x in multiset(others);
    assert forall x :: x in candidates <==> x in multiset(candidates);
    forall x | x in others && x != c
      ensures ShouldReplace(x, c) && !ShouldReplace(c, x)
    {
      ReplaceAsymmetric(x, c);
    }
    BeaterIsKept(others, c);
  }

  /** The i-th candidate moved to the end. */
  function Last(candidates: seq<Candidate>, i: nat): seq<Candidate>
    requires i < |candidates|
  {
    candidates[..i] + candidates[i + 1..] + [candidates[i]]
  }

  lemma SameMembers<T>(xs: seq<T>, i: nat)
    requires i < |xs|
    ensures multiset(xs[..i] + xs[i + 1..] + [xs[i]]) == multiset(xs)
  {
    assert xs == xs[..i] + [xs[i]] + xs[i + 1..];
  }

  lemma UnbeatenComesLast(front: seq<Candidate>, x: Candidate, r: Candidate)
    requires front != [] && r != x && ShouldReplace(r, x)
    ensures Kept(front + [x]) != r
  {
    KeptNext(front, x);
  }

  /** A candidate that the kept one does not beat, moved to the end, changes the result. */
  lemma UnbeatenLast(candidates: seq<Candidate>, i: nat)
    requires DistinctProviders(candidates) && i < |candidates|
    requires candidates[i] != Kept(candidates) && !ShouldReplace(candidates[i], Kept(candidates))
    ensures Last(candidates, i) != [] && multiset(Last(candidates, i)) == multiset(candidates)
    ensures Kept(Last(candidates, i)) != Kept(candidates)
  {
    SameMembers(candidates, i);
    KeptIsMember(candidates);
    var k :| 0 <= k < |candidates| && candidates[k] == Kept(candidates);
    ReplaceAsymmetric(candidates[i], candidates[k]);
    UnbeatenComesLast(candidates[..i] + candidates[i + 1..], candidates[i], Kept(candidates));
  }

  ghost predicate OrderFree(candidates: seq<Candidate>)
    requires candidates != []
  {
    forall others :: multiset(others) == multiset(candidates) && others != [] ==> Kept(others) == Kept(candidates)
  }

  /** The exact condition: candidates of distinct providers give the same result in every order if
      and only if one of them replaces every other one. */
  lemma SameInEveryOrder(candidates: seq<Candidate>)
    requires candidates != [] && DistinctProviders(candidates)
    ensures OrderFree(candidates) <==> exists c :: Beats(c, candidates)
  {
    if c :| Beats(c, candidates) {
      BeatsInEveryOrder(candidates, candidates, c);
      forall others | multiset(others) == multiset(candidates) && others != []
        ensures Kept(others) == Kept(candidates)
      {
        BeatsInEveryOrder(candidates, others, c);
      }
    } else {
      KeptIsMember(candidates);
      assert !Beats(Kept(candidates), candidates);
      var i :| 0 <= i < |candidates| && candidates[i] != Kept(candidates) && !ShouldReplace(candidates[i], Kept(candidates));
      UnbeatenLast(candidates, i);
    }
  }

  /** Three prices each close to the next, and none replaces both others: near equality is not
      transitive. */
  lemma CloseOrderMatters(x: Candidate, y: Candidate, z: Candidate)
    requires Less(x.provider, y.provider) && Less(y.provider, z.provider)
    requires 0.0 < z.input < y.input < x.input
    requires y.input - z.input < EPSILON && x.input - y.input < EPSILON <= x.input - z.input
    ensures Kept([z, y, x]) == x && Kept([x, y, z]) == z
  {
    NotBefore(x.provider, y.provider);
    KeptNext([z], y);
    KeptNext([z] + [y], x);
    KeptNext([x], y);
    KeptNext([x] + [y], z);
    assert [z, y, x] == [z] + [y] + [x] && [x, y, z] == [x] + [y] + [z];
  }

  lemma KeptNext(candidates: seq<Candidate>, next: Candidate)
    requires candidates != []
    ensures Kept(candidates + [next]) == if ShouldReplace(Kept(candidates), next) then next else Kept(candidates)
  {
    assert (candidates + [next])[..|candidates|] == candidates;
  }

  // ----- Rounding -----

  lemma RoundIsNear(x: real)
    ensures -0.5 <= Round(x) as real - x <= 0.5
  {
  }

  lemma RoundRatioIsNear(value: real)
    ensures Abs(RoundRatio(value) - value) <= 0.0000005
  {
    RoundIsNear(value * 1000000.0);
    var r := Round(value * 1000000.0) as real;
    assert RoundRatio(value) * 1000000.0 == r;
  }

  /** The input price of a million tokens is recovered from the stored ratio within the rounding. */
  lemma InputRecovery(c: Candidate)
    requires c.input > 0.0
    ensures Abs(2.0 * ModelRatio(c) - c.input) <= 0.000001
  {
    RoundRatioIsNear(c.input * USD / INPUT_COST_RATIO_BASE);
    assert c.input * USD / INPUT_COST_RATIO_BASE == c.input / 2.0;
  }

  /** Within half a millionth of a value. */
  predicate Rounds(rounded: real, value: real) {
    Abs(rounded - value) <= 0.0000005
  }

  lemma RoundedPrice(c: Candidate, ratio: real, completion: real)
    requires c.input > 0.0 && c.output.Some? && c.output.value >= 0.0
    requires Rounds(ratio, c.input / 2.0) && Rounds(completion, c.output.value / c.input)
    ensures Abs(2.0 * ratio * completion - c.output.value) <= 0.000001 * (c.output.value / c.input + 0.0000005) + 0.0000005 * c.input
  {
    var q := c.output.value / c.input;
    QuotientTimes(c.output.value, c.input);
    ProductError(c.input, q, 2.0 * ratio, completion);
  }

  /** Both prices of a candidate with an output price are recovered from its stored ratios. */
  lemma PriceRecovery(c: Candidate, ratio: real, completion: real)
    requires c.input > 0.0 && c.output.Some? && c.output.value >= 0.0
    requires ratio == ModelRatio(c) && completion == RoundRatio(c.output.value / c.input)
    ensures Abs(2.0 * ratio - c.input) <= 0.000001
    ensures Abs(2.0 * ratio * completion - c.output.value) <= 0.000001 * (c.output.value / c.input + 0.0000005) + 0.0000005 * c.input
  {
    InputRecovery(c);
    RoundRatioIsNear(c.output.value / c.input);
    RoundedPrice(c, ratio, completion);
  }

  lemma QuotientTimes(x: real, y: real)
    requires x >= 0.0 && y > 0.0
    ensures x / y >= 0.0 && x / y * y == x
  {
  }

  const HALF_DIGIT: real := 0.0000005

  /** The error of a product of two approximations, one of them doubled. */
  lemma ProductError(a: real, q: real, x: real, y: real)
    requires a > 0.0 && q >= 0.0 && Abs(x - a) <= 2.0 * HALF_DIGIT && Abs(y - q) <= HALF_DIGIT
    ensures Abs(x * y - q * a) <= 2.0 * HALF_DIGIT * (q + HALF_DIGIT) + HALF_DIGIT * a
  {
    var e, f := x - a, y - q;
    Distribute(a, q, e, f, x, y);
    Scaled(e, y, 2.0 * HALF_DIGIT, q + HALF_DIGIT);
    Scaled(f, a, HALF_DIGIT, a);
    WithinSum(x * y - q * a, e * y, f * a, 2.0 * HALF_DIGIT * (q + HALF_DIGIT), HALF_DIGIT * a);
  }

  lemma WithinSum(whole: real, x: real, y: real, b: real, c: real)
    requires whole == x + y && Abs(x) <= b && Abs(y) <= c
    ensures Abs(whole) <= b + c
  {
  }

  lemma Distribute(a: real, q: real, e: real, f: real, x: real, y: real)
    requires x == a + e && y == q + f
    ensures x * y - q * a == e * y + f * a
  {
    assert x * y == a * y + e * y;
    assert a * y == a * q + a * f;
  }

  lemma Scaled(x: real, y: real, bound: real, most: real)
    requires Abs(x) <= bound && Abs(y) <= most
    ensures Abs(x * y) <= bound * most
  {
    var u, v := Abs(x), Abs(y);
    AbsProduct(x, y);
    calc {
      Abs(x * y);
    ==
      u * v;
    <= { Monotone(u, bound, v); }
      bound * v;
    ==
      v * bound;
    <= { Monotone(v, most, bound); }
      most * bound;
    ==
      bound * most;
    }
  }

  lemma AbsProduct(x: real, y: real)
    ensures Abs(x * y) == Abs(x) * Abs(y)
  {
    if x >= 0.0 && y >= 0.0 {
    } else if x >= 0.0 {
      assert x * y == -(x * (-y));
    } else if y >= 0.0 {
      assert x * y == -((-x) * y);
    } else {
      assert x * y == (-x) * (-y);
    }
  }

  lemma Monotone(x: real, y: real, z: real)
    requires 0.0 <= x <= y && z >= 0.0
    ensures 0.0 <= x * z <= y * z
  {
  }

  /** A positive price is stored as free exactly when it is below a millionth. */
  lemma FreeWhenTiny(c: Candidate)
    requires c.input > 0.0
    ensures ModelRatio(c) == 0.0 <==> c.input < 0.000001
  {
    var x := c.input * USD / INPUT_COST_RATIO_BASE * 1000000.0;
    assert x == c.input * 500000.0;
    assert Round(x) == (x + 0.5).Floor;
    assert ModelRatio(c) == 0.0 <==> Round(x) == 0;
  }

  // ----- The whole conversion -----

  type Prices = map<string, map<string, Cost>>

  function Offer(data: Prices, provider: string, model: string): Option<Candidate> {
    if provider in data && model in data[provider] then BuildCandidate(provider, data[provider][model]) else None
  }

  /** The valid candidates of a model, in the order of the given providers. */
  function CandidatesOf(data: Prices, providers: seq<string>, model: string): seq<Candidate> {
    if providers == [] then []
    else
      var offer := Offer(data, providers[|providers| - 1], model);
      CandidatesOf(data, providers[..|providers| - 1], model) + if offer.Some? then [offer.value] else []
  }

  function SelectedFrom(data: Prices, providers: seq<string>, model: string): Option<Candidate> {
    var candidates := CandidatesOf(data, providers, model);
    if candidates == [] then None else Some(Kept(candidates))
  }

  function Selected(data: Prices, model: string): Option<Candidate> {
    SelectedFrom(data, SortedNames(data.Keys), model)
  }

  function Lookup(selected: map<string, Candidate>, model: string): Option<Candidate> {
    if model in selected then Some(selected[model]) else None
  }

  /** What one more offer makes of the candidate selected so far. */
  function Consider(current: Option<Candidate>, offer: Option<Candidate>): Option<Candidate> {
    if offer.Some? && (current.None? || ShouldReplace(current.value, offer.value)) then offer else current
  }

  lemma SelectedNext(data: Prices, providers: seq<string>, provider: string, model: string)
    ensures SelectedFrom(data, providers + [provider], model) ==
            Consider(SelectedFrom(data, providers, model), Offer(data, provider, model))
  {
    var candidates, offer := CandidatesOf(data, providers, model), Offer(data, provider, model);
    assert (providers + [provider])[..|providers|] == providers;
    if offer.Some? {
      if candidates == [] {
        assert [] + [offer.value] == [offer.value];
      } else {
        KeptNext(candidates, offer.value);
      }
    } else {
      assert candidates + [] == candidates;
    }
  }

  /** The inner loop: one provider's models in sorted order. */
  method SelectFromProvider(before: map<string, Candidate>, data: Prices, provider: string) returns (selected: map<string, Candidate>)
    requires provider in data
    ensures forall model :: Lookup(selected, model) == Consider(Lookup(before, model), Offer(data, provider, model))
  {
    var names := SortedNames(data[provider].Keys);
    SortedNamesAscend(data[provider].Keys);
    selected := before;
    for j := 0 to |names|
      invariant forall model :: Lookup(selected, model) ==
                  if model in names[..j] then Consider(Lookup(before, model), Offer(data, provider, model)) else Lookup(before, model)
    {
      var model := names[j];
      NotEarlier(names, j);
      assert model in data[provider];
      var candidate := BuildCandidate(provider, data[provider][model]);
      assert Lookup(selected, model) == Lookup(before, model);
      if candidate.None? {
        continue;
      }
      if model !in selected || ShouldReplace(selected[model], candidate.value) {
        selected := selected[model := candidate.value];
      }
    }
    assert names[..|names|] == names;
  }

  lemma NotEarlier(names: seq<string>, j: nat)
    requires AscendingNames(names) && j < |names|
    ensures names[j] !in names[..j] && names[..j + 1] == names[..j] + [names[j]]
    ensures forall name :: name in names[..j + 1] <==> name in names[..j] || name == names[j]
  {
    LessIrreflexive(names[j]);
    assert names[..j + 1] == names[..j] + [names[j]];
  }

  /** The outer loop over the sorted providers. */
  method SelectCandidates(data: Prices) returns (selected: map<string, Candidate>)
    ensures forall model :: Lookup(selected, model) == Selected(data, model)
  {
    var providers := SortedNames(data.Keys);
    SortedNamesAscend(data.Keys);
    selected := map[];
    for i := 0 to |providers|
      invariant forall model :: Lookup(selected, model) == SelectedFrom(data, providers[..i], model)
    {
      var provider := providers[i];
      assert provider in data.Keys;
      ghost var before := selected;
      selected := SelectFromProvider(selected, data, provider);
      assert providers[..i + 1] == providers[..i] + [provider];
      forall model: string
        ensures Lookup(selected, model) == SelectedFrom(data, providers[..i + 1], model)
      {
        SelectedNext(data, providers[..i], provider, model);
      }
    }
    assert providers[..|providers|] == providers;
  }

  datatype Ratios = Ratios(model: map<string, real>, completion: map<string, real>, cache: map<string, real>)

  /** The three ratios of a selected candidate. */
  predicate RatiosOf(r: Ratios, name: string, c: Candidate) {
    && name in r.model && r.model[name] == ModelRatio(c)
    && (name in r.completion <==> c.input != 0.0 && c.output.Some?)
    && (name in r.completion ==> r.completion[name] == RoundRatio(c.output.value / c.input))
    && (name in r.cache <==> c.input != 0.0 && c.cacheRead.Some?)
    && (name in r.cache ==> r.cache[name] == RoundRatio(c.cacheRead.value / c.input))
  }

  /** Every model with a valid price gets the ratios of its selected candidate; no other model
      gets any. Without a valid price there is an error. */
  method ConvertModelsDevToRatioData(data: Prices) returns (r: Option<Ratios>)
    ensures r.None? <==> forall model :: Selected(data, model).None?
    ensures r.Some? ==> forall name: string ::
              if Selected(data, name).Some? then RatiosOf(r.value, name, Selected(data, name).value)
              else name !in r.value.model && name !in r.value.completion && name !in r.value.cache
    ensures r.None? <==> forall provider, model :: !Quotes(data, provider, model)
    ensures r.Some? ==> forall model: string :: Converted(data, r.value, model)
  {
    NoneSelected(data);
    if |data| == 0 {
      assert SortedNames(data.Keys) == [];
      assert forall model :: SelectedFrom(data, [], model).None?;
      return None;
    }
    var selected := SelectCandidates(data);
    if |selected| == 0 {
      assert forall model :: Lookup(selected, model).None?;
      return None;
    }
    AnyMember(selected);
    var ratios := ConvertSelected(selected);
    assert forall name :: Lookup(selected, name) == Selected(data, name);
    r := Some(ratios);
    forall model: string
      ensures Converted(data, ratios, model)
    {
      ModelConverted(data, ratios, model);
    }
  }

  lemma AnyMember(selected: map<string, Candidate>)
    requires |selected| > 0
    ensures exists model :: Lookup(selected, model).Some?
  {
    var model := HasMember(selected.Keys);
    assert Lookup(selected, model).Some?;
  }

  method ConvertSelected(selected: map<string, Candidate>) returns (r: Ratios)
    ensures forall name ::
              if name in selected then RatiosOf(r, name, selected[name])
              else name !in r.model && name !in r.completion && name !in r.cache
  {
    var modelRatio: map<string, real>, completionRatio: map<string, real>, cacheRatio: map<string, real> := map[], map[], map[];
    var todo := selected.Keys;
    while todo != {}
      invariant todo <= selected.Keys
      invariant forall name ::
                  if name in selected && name !in todo then RatiosOf(Ratios(modelRatio, completionRatio, cacheRatio), name, selected[name])
                  else name !in modelRatio && name !in completionRatio && name !in cacheRatio
      decreases todo
    {
      var name :| name in todo;
      todo := todo - {name};
      var candidate := selected[name];
      if candidate.input == 0.0 {
        modelRatio := modelRatio[name := 0.0];
        continue;
      }
      modelRatio := modelRatio[name := RoundRatio(candidate.input * USD / INPUT_COST_RATIO_BASE)];
      if candidate.output.Some? {
        completionRatio := completionRatio[name := RoundRatio(candidate.output.value / candidate.input)];
      }
      if candidate.cacheRead.Some? {
        cacheRatio := cacheRatio[name := RoundRatio(candidate.cacheRead.value / candidate.input)];
      }
    }
    r := Ratios(modelRatio, completionRatio, cacheRatio);
  }

  /** The candidates of a model, in provider order, are the valid quotes of the providers, with the
      quoted prices. */
  lemma {:induction false} CandidatesAreOffers(data: Prices, providers: seq<string>, model: string)
    requires AscendingNames(providers)
    ensures var cs := CandidatesOf(data, providers, model);
            && ByProvider(cs)
            && (forall c :: c in cs <==> exists p :: p in providers && Offer(data, p, model) == Some(c))
            && (forall i :: 0 <= i < |cs| ==> cs[i].provider in providers && IsQuote(data, cs[i], model))
            && (forall p :: p in providers && Quotes(data, p, model) ==> exists c :: c in cs && c.provider == p)
  {
    if providers != [] {
      var front, last := providers[..|providers| - 1], providers[|providers| - 1];
      CandidatesAreOffers(data, front, model);
      OfferIsQuote(data, last, model);
      assert providers == front + [last];
      assert forall p :: p in front ==> Less(p, last);
    }
  }

  /** For every model and every provider with a positive price for it, the selected candidate is
      a real offer with a positive price below that price plus the tolerance. */
  lemma SelectedIsCheapest(data: Prices, provider: string, model: string)
    requires Offer(data, provider, model).Some? && Offer(data, provider, model).value.input > 0.0
    ensures var s := Selected(data, model);
            && s.Some? && 0.0 < s.value.input < Offer(data, provider, model).value.input + EPSILON
            && Offer(data, s.value.provider, model) == s
  {
    var providers := SortedNames(data.Keys);
    SortedNamesAscend(data.Keys);
    CandidatesAreOffers(data, providers, model);
    var cs := CandidatesOf(data, providers, model);
    var c := Offer(data, provider, model).value;
    assert c in cs;
    KeptIsCheapest(cs);
    var i :| 0 <= i < |cs| && cs[i] == c;
  }

  // ----- From the quoted costs to the ratios -----

  /** A cost that a ratio can be made of: no negative price, and nothing charged for output alone. */
  predicate ValidCost(cost: Cost) {
    && cost.input.Some? && cost.input.value >= 0.0
    && (cost.output.Some? ==> cost.output.value >= 0.0)
    && (cost.input.value == 0.0 && cost.output.Some? ==> cost.output.value == 0.0)
  }

  predicate Quotes(data: Prices, provider: string, model: string) {
    provider in data && model in data[provider] && ValidCost(data[provider][model])
  }

  /** No other provider quotes a positive input price lower by the tolerance or more. */
  ghost predicate Cheapest(data: Prices, provider: string, model: string)
    requires Quotes(data, provider, model)
  {
    forall p :: Quotes(data, p, model) && data[p][model].input.value > 0.0 ==>
      0.0 < data[provider][model].input.value < data[p][model].input.value + 0.000000001
  }

  /** A price is what its two stored ratios give, up to their rounding. */
  predicate Recovers(ratio: real, factor: real, input: real, price: real)
    requires input > 0.0
  {
    Abs(2.0 * ratio * factor - price) <= 0.000001 * (price / input + 0.0000005) + 0.0000005 * input
  }

  /** The stored ratios give back the quoted prices, and there is one for every quoted price. */
  predicate Recovered(r: Ratios, model: string, cost: Cost)
    requires ValidCost(cost)
  {
    var input := cost.input.value;
    && model in r.model && Abs(2.0 * r.model[model] - input) <= 0.000001
    && (model in r.completion <==> input > 0.0 && cost.output.Some?)
    && (model in r.completion ==> Recovers(r.model[model], r.completion[model], input, cost.output.value))
    && (model in r.cache <==> input > 0.0 && cost.cacheRead.Some? && cost.cacheRead.value >= 0.0)
    && (model in r.cache ==> Recovers(r.model[model], r.cache[model], input, cost.cacheRead.value))
  }

  /** A model has ratios exactly when some provider quotes a valid cost for it, and they are those of
      such a provider, of the cheapest ones with a positive price. */
  ghost predicate Converted(data: Prices, r: Ratios, model: string) {
    && (model in r.model <==> exists p :: Quotes(data, p, model))
    && (model in r.completion || model in r.cache ==> model in r.model)
    && (model in r.model ==> exists p :: Quotes(data, p, model) && Cheapest(data, p, model) && Recovered(r, model, data[p][model]))
  }

  /** The candidate has the prices that its provider quotes; a negative cache-read price counts as
      none. */
  predicate IsQuote(data: Prices, c: Candidate, model: string) {
    && Quotes(data, c.provider, model)
    && var cost := data[c.provider][model];
       && c.input == cost.input.value && c.output == cost.output
       && (c.cacheRead.Some? <==> cost.cacheRead.Some? && cost.cacheRead.value >= 0.0)
       && (c.cacheRead.Some? ==> c.cacheRead == cost.cacheRead)
  }

  lemma OfferIsQuote(data: Prices, provider: string, model: string)
    ensures Offer(data, provider, model).Some? <==> Quotes(data, provider, model)
    ensures Quotes(data, provider, model) ==>
              Offer(data, provider, model).value.provider == provider && IsQuote(data, Offer(data, provider, model).value, model)
  {
  }

  lemma RatioRecovers(c: Candidate, price: real)
    requires c.input > 0.0 && price >= 0.0
    ensures Abs(2.0 * ModelRatio(c) - c.input) <= 0.000001
    ensures Recovers(ModelRatio(c), RoundRatio(price / c.input), c.input, price)
  {
    PriceRecovery(c.(output := Some(price)), ModelRatio(c), RoundRatio(price / c.input));
  }

  lemma CandidateRecovered(r: Ratios, model: string, c: Candidate, cost: Cost)
    requires RatiosOf(r, model, c) && ValidCost(cost)
    requires c.input == cost.input.value && c.output == cost.output
    requires c.cacheRead.Some? <==> cost.cacheRead.Some? && cost.cacheRead.value >= 0.0
    requires c.cacheRead.Some? ==> c.cacheRead == cost.cacheRead
    ensures Recovered(r, model, cost)
  {
    if c.input > 0.0 {
      InputRecovery(c);
      if c.output.Some? {
        RatioRecovers(c, c.output.value);
      }
      if c.cacheRead.Some? {
        RatioRecovers(c, c.cacheRead.value);
      }
    }
  }

  /** The selected candidate is the offer of some provider, unless there is none. */
  lemma SelectedIsOffer(data: Prices, model: string)
    ensures Selected(data, model).Some? <==> exists p :: Quotes(data, p, model)
    ensures Selected(data, model).Some? ==> Offer(data, Selected(data, model).value.provider, model) == Selected(data, model)
  {
    var providers := SortedNames(data.Keys);
    SortedNamesAscend(data.Keys);
    CandidatesAreOffers(data, providers, model);
    var cs := CandidatesOf(data, providers, model);
    if p :| Quotes(data, p, model) {
      OfferIsQuote(data, p, model);
      assert p in data.Keys;
      assert Offer(data, p, model).value in cs;
    }
    if cs != [] {
      KeptIsCheapest(cs);
      var p :| p in providers && Offer(data, p, model) == Some(Kept(cs));
      OfferIsQuote(data, p, model);
    }
  }

  lemma NoneSelected(data: Prices)
    ensures (forall model :: Selected(data, model).None?) <==> forall provider, model :: !Quotes(data, provider, model)
  {
    forall model: string
      ensures Selected(data, model).Some? <==> exists provider :: Quotes(data, provider, model)
    {
      SelectedIsOffer(data, model);
    }
    if provider, model :| Quotes(data, provider, model) {
      assert Selected(data, model).Some?;
    }
    if model :| Selected(data, model).Some? {
      var provider :| Quotes(data, provider, model);
    }
  }

  lemma ModelConverted(data: Prices, r: Ratios, model: string)
    requires if Selected(data, model).Some? then RatiosOf(r, model, Selected(data, model).value)
             else model !in r.model && model !in r.completion && model !in r.cache
    ensures Converted(data, r, model)
  {
    SelectedIsOffer(data, model);
    if Selected(data, model).Some? {
      var c := Selected(data, model).value;
      OfferIsQuote(data, c.provider, model);
      CandidateRecovered(r, model, c, data[c.provider][model]);
      forall p | Quotes(data, p, model) && data[p][model].input.value > 0.0
        ensures 0.0 < c.input < data[p][model].input.value + 0.000000001
      {
        OfferIsQuote(data, p, model);
        SelectedIsCheapest(data, p, model);
      }
    }
  }
}
