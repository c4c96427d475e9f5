/** Price selection from models.dev: several providers may price the same model, one candidate
    per model is kept by a fold whose comparison treats prices closer than an epsilon as
    equal (and so is not transitive), and the kept price becomes ratios rounded to six
    decimals. Floating-point numbers are reals here. */
module ModelsDev {
  import opened Wrappers

  const EPSILON := 0.000000001
  const USD := 500.0
  const INPUT_COST_RATIO_BASE := 1000.0
  const HALF_STEP := 0.0000005

  datatype Cost = Cost(input: Option<real>, output: Option<real>, cacheRead: Option<real>)
  datatype Candidate = Candidate(provider: string, input: real, output: Option<real>, cacheRead: Option<real>)

  const OFFICIAL_IDS: seq<string> := [
    "anthropic", "openai", "google", "deepseek", "xai", "moonshotai", "zhipuai", "alibaba"
  ]

  // A provider of the feed: its key there, its own id in lower case, and whether its endpoint
  // is the expected host.
  datatype Provider = Provider(key: string, id: string, hostMatches: bool, models: map<string, Cost>)

  predicate Official(p: Provider) {
    p.id in OFFICIAL_IDS && p.hostMatches
  }

  predicate NearlyEqual(a: real, b: real) {
    if a > b then a - b < EPSILON else b - a < EPSILON
  }

  // Go's string comparison.
  predicate Less(a: string, b: string) {
    if b == [] then false
    else if a == [] then true
    else if a[0] != b[0] then a[0] < b[0]
    else Less(a[1..], b[1..])
  }

  function BuildCandidate(provider: string, cost: Cost): Option<Candidate> {
    if cost.input.None? || cost.input.value < 0.0 then None
    else if cost.output.Some? && cost.output.value < 0.0 then None
    else if cost.input.value == 0.0 && cost.output.Some? && cost.output.value > 0.0 then None
    else
      var cacheRead := if cost.cacheRead.Some? && cost.cacheRead.value >= 0.0 then cost.cacheRead else None;
      Some(Candidate(provider, cost.input.value, cost.output, cacheRead))
  }

  predicate ShouldReplace(current: Candidate, next: Candidate) {
    if (current.input > 0.0) != (next.input > 0.0) then next.input > 0.0
    else if next.input > 0.0 && !NearlyEqual(next.input, current.input) then next.input < current.input
    else Less(next.provider, current.provider)
  }

  // A candidate that can be turned into ratios: no negative price, and no free input with
  // paid output.
  predicate Valid(c: Candidate) {
    && c.input >= 0.0
    && (c.output.Some? ==> c.output.value >= 0.0)
    && (c.cacheRead.Some? ==> c.cacheRead.value >= 0.0)
    && (c.input == 0.0 && c.output.Some? ==> c.output.value == 0.0)
  }

  lemma BuiltCandidatesAreValid(provider: string, cost: Cost)
    ensures BuildCandidate(provider, cost).Some? ==> Valid(BuildCandidate(provider, cost).value)
    ensures BuildCandidate(provider, cost).Some?
      <==> cost.input.Some? && Valid(Candidate(provider, cost.input.value, cost.output, None))
  {}

  // The candidates for one model, in iteration order.
  function CandidatesFor(model: string, providers: seq<Provider>): seq<Candidate> {
    if providers == [] then []
    else
      var p := providers[|providers| - 1];
      CandidatesFor(model, providers[..|providers| - 1]) + Offer(model, p)
  }

  function Offer(model: string, p: Provider): seq<Candidate> {
    if !Official(p) || model !in p.models then []
    else
      var c := BuildCandidate(p.id, p.models[model]);
      if c.None? then [] else [c.value]
  }

  // The candidate the fold keeps.
  function Select(cs: seq<Candidate>): Candidate
    requires cs != []
  {
    if |cs| == 1 then cs[0]
    else Better(Select(cs[..|cs| - 1]), cs[|cs| - 1])
  }

  function Better(current: Candidate, next: Candidate): Candidate {
    if ShouldReplace(current, next) then next else current
  }

  predicate Selected(selected: map<string, Candidate>, model: string, cs: seq<Candidate>) {
    if cs == [] then model !in selected else model in selected && selected[model] == Select(cs)
  }

  // What one provider's offer does to the kept candidate of a model.
  predicate Considered(before: map<string, Candidate>, after: map<string, Candidate>, model: string, offer: seq<Candidate>) {
    if offer == [] then (model in after <==> model in before) && (model in before ==> after[model] == before[model])
    else model in after && after[model] == if model in before then Better(before[model], offer[0]) else offer[0]
  }

  method ConsiderProvider(p: Provider, before: map<string, Candidate>) returns (selected: map<string, Candidate>)
    ensures forall model :: Considered(before, selected, model, Offer(model, p))
  {
    selected := before;
    if !Official(p) {
      return;
    }
    var todo := p.models.Keys;
    while todo != {}
      invariant todo <= p.models.Keys
      invariant forall model :: if model in p.models && model !in todo
                  then Considered(before, selected, model, Offer(model, p))
                  else Considered(before, selected, model, [])
      decreases |todo|
    {
      var model :| model in todo;
      assert Considered(before, selected, model, []);
      var candidate := BuildCandidate(p.id, p.models[model]);
      if candidate.Some? {
        if model !in selected || ShouldReplace(selected[model], candidate.value) {
          selected := selected[model := candidate.value];
        }
      }
      todo := todo - {model};
    }
  }

  method SelectCandidates(providers: seq<Provider>) returns (selected: map<string, Candidate>)
    ensures forall model :: Selected(selected, model, CandidatesFor(model, providers))
  {
    selected := map[];
    for n := 0 to |providers|
      invariant forall model :: Selected(selected, model, CandidatesFor(model, providers[..n]))
    {
      ghost var before := selected;
      selected := ConsiderProvider(providers[n], selected);
      ghost var considered := providers[..n + 1];
      assert considered[..n] == providers[..n];
      forall model ensures Selected(selected, model, CandidatesFor(model, considered)) {
        assert Considered(before, selected, model, Offer(model, providers[n]));
        SelectSnoc(CandidatesFor(model, providers[..n]), Offer(model, providers[n]));
      }
    }
    assert providers[..|providers|] == providers;
  }

  lemma SelectSnoc(cs: seq<Candidate>, offer: seq<Candidate>)
    requires |offer| <= 1
    ensures offer == [] ==> cs + offer == cs
    ensures offer != [] ==> Select(cs + offer) == if cs == [] then offer[0] else Better(Select(cs), offer[0])
  {
    assert (cs + offer)[..|cs|] == cs;
  }

  // ---------- what the fold keeps ----------

  lemma {:induction false} SelectedIsACandidate(cs: seq<Candidate>)
    requires cs != []
    ensures Select(cs) in cs
  {
    if |cs| > 1 {
      SelectedIsACandidate(cs[..|cs| - 1]);
    }
  }

  // A non-zero price is kept exactly when some candidate has one.
  lemma {:induction false} NonZeroWins(cs: seq<Candidate>)
    requires cs != []
    ensures Select(cs).input > 0.0 <==> exists i :: 0 <= i < |cs| && cs[i].input > 0.0
  {
    var n := |cs| - 1;
    if n > 0 {
      NonZeroWins(cs[..n]);
      if exists i :: 0 <= i < |cs| && cs[i].input > 0.0 {
        var i :| 0 <= i < |cs| && cs[i].input > 0.0;
        assert i < n ==> cs[..n][i].input > 0.0;
      }
    } else {
      assert cs[0].input > 0.0 <==> Select(cs).input > 0.0;
    }
  }

  predicate ProvidersInOrder(cs: seq<Candidate>) {
    forall i, j :: 0 <= i < j < |cs| ==> !Less(cs[j].provider, cs[i].provider)
  }

  // When the providers come in order the tie-break never fires, and what is kept costs less
  // than any non-zero price plus the epsilon.
  lemma {:induction false} CheapestUpToEpsilon(cs: seq<Candidate>, i: nat)
    requires i < |cs| && cs[i].input > 0.0 && ProvidersInOrder(cs)
    ensures 0.0 < Select(cs).input < cs[i].input + EPSILON
    decreases |cs|
  {
    NonZeroWins(cs);
    var n := |cs| - 1;
    if n > 0 {
      var init := cs[..n];
      assert ProvidersInOrder(init);
      SelectedIsACandidate(init);
      var k :| 0 <= k < n && init[k] == Select(init);
      assert !Less(cs[n].provider, cs[k].provider);
      if i < n {
        assert init[i].input > 0.0;
        CheapestUpToEpsilon(init, i);
      }
    }
  }

  predicate FeedInOrder(providers: seq<Provider>) {
    forall i, j :: 0 <= i < j < |providers| ==> !Less(providers[j].id, providers[i].id)
  }

  lemma {:induction false} CandidateHasSource(model: string, providers: seq<Provider>, i: nat) returns (k: nat)
    requires i < |CandidatesFor(model, providers)|
    ensures k < |providers| && CandidatesFor(model, providers)[i].provider == providers[k].id
  {
    var n := |providers| - 1;
    var cs := CandidatesFor(model, providers[..n]);
    if i < |cs| {
      k := CandidateHasSource(model, providers[..n], i);
    } else {
      k := n;
    }
  }

  lemma {:induction false} CandidatesKeepOrder(model: string, providers: seq<Provider>)
    requires FeedInOrder(providers)
    ensures ProvidersInOrder(CandidatesFor(model, providers))
  {
    if providers != [] {
      var n := |providers| - 1;
      CandidatesKeepOrder(model, providers[..n]);
      var before, cs := CandidatesFor(model, providers[..n]), CandidatesFor(model, providers);
      forall i, j | 0 <= i < j < |cs| ensures !Less(cs[j].provider, cs[i].provider) {
        if j == |before| {
          var k := CandidateHasSource(model, providers[..n], i);
          assert !Less(providers[n].id, providers[k].id);
        } else {
          assert !Less(before[j].provider, before[i].provider);
        }
      }
    }
  }

  lemma {:induction false} OfferIsCandidate(model: string, providers: seq<Provider>, k: nat)
    requires k < |providers| && Offer(model, providers[k]) != []
    ensures Offer(model, providers[k])[0] in CandidatesFor(model, providers)
  {
    var n := |providers| - 1;
    if k < n {
      OfferIsCandidate(model, providers[..n], k);
    }
  }

  // For a whole feed in provider order: every model with a usable non-zero price gets one
  // that is below each such price plus the epsilon.
  lemma FeedKeepsCheapest(model: string, providers: seq<Provider>, k: nat)
    requires FeedInOrder(providers)
    requires k < |providers| && Offer(model, providers[k]) != [] && Offer(model, providers[k])[0].input > 0.0
    ensures CandidatesFor(model, providers) != []
    ensures 0.0 < Select(CandidatesFor(model, providers)).input < Offer(model, providers[k])[0].input + EPSILON
  {
    OfferIsCandidate(model, providers, k);
    CandidatesKeepOrder(model, providers);
    var cs := CandidatesFor(model, providers);
    var i :| 0 <= i < |cs| && cs[i] == Offer(model, providers[k])[0];
    CheapestUpToEpsilon(cs, i);
  }

  // Without any order, each later candidate can raise the kept price by less than one epsilon.
  lemma {:induction false} DriftIsBounded(cs: seq<Candidate>, i: nat)
    requires i < |cs| && cs[i].input > 0.0
    ensures 0.0 < Select(cs).input < cs[i].input + (|cs| - i) as real * EPSILON
    decreases |cs|
  {
    NonZeroWins(cs);
    var n := |cs| - 1;
    if i < n {
      var init := cs[..n];
      assert init[i].input > 0.0;
      DriftIsBounded(init, i);
      assert (|cs| - i) as real * EPSILON == (n - i) as real * EPSILON + EPSILON;
    } else if n > 0 {
      assert (|cs| - i) as real * EPSILON == EPSILON;
    }
  }

  // Two non-zero prices are equal or at least an epsilon apart.
  predicate Separated(cs: seq<Candidate>) {
    forall i, j :: 0 <= i < |cs| && 0 <= j < |cs| ==>
      cs[i].input > 0.0 && cs[j].input > 0.0 && NearlyEqual(cs[i].input, cs[j].input) ==> cs[i].input == cs[j].input
  }

  lemma SeparatedPrefix(cs: seq<Candidate>, n: nat)
    requires n <= |cs| && Separated(cs)
    ensures Separated(cs[..n])
  {}

  // With separated prices the comparison is an order, and the cheapest non-zero price is
  // kept whatever the order of the candidates.
  lemma {:induction false} CheapestWhenSeparated(cs: seq<Candidate>, i: nat)
    requires i < |cs| && cs[i].input > 0.0 && Separated(cs)
    ensures 0.0 < Select(cs).input <= cs[i].input
    decreases |cs|
  {
    NonZeroWins(cs);
    var n := |cs| - 1;
    if n > 0 {
      var init := cs[..n];
      SelectedIsACandidate(init);
      var k :| 0 <= k < n && init[k] == Select(init);
      assert cs[k] == init[k];
      assert cs[k].input > 0.0 && cs[n].input > 0.0 && NearlyEqual(cs[n].input, cs[k].input) ==> cs[k].input == cs[n].input;
      if i < n {
        SeparatedPrefix(cs, n);
        assert init[i] == cs[i];
        CheapestWhenSeparated(init, i);
      }
    }
  }

  // ---------- ratios ----------

  // math.Round: to the nearest integer, halves away from zero.
  function Round(x: real): int {
    if x >= 0.0 then (x + 0.5).Floor else -((-x + 0.5).Floor)
  }

  function RoundRatio(x: real): real {
    Round(x * 1000000.0) as real / 1000000.0
  }

  function Abs(x: real): real {
    if x < 0.0 then -x else x
  }

  lemma RoundingError(x: real)
    ensures Abs(RoundRatio(x) - x) <= HALF_STEP
  {
    var y := x * 1000000.0;
    var n := Round(y) as real;
    assert Abs(n - y) <= 0.5;
    assert RoundRatio(x) - x == (n - y) / 1000000.0;
  }

  function ModelRatio(c: Candidate): real {
    if c.input == 0.0 then 0.0 else RoundRatio(c.input * USD / INPUT_COST_RATIO_BASE)
  }

  // The ratio of another price to the input price, for a candidate that has both.
  function RelativeRatio(price: real, c: Candidate): real
    requires c.input != 0.0
  {
    RoundRatio(price / c.input)
  }

  datatype Ratios = Ratios(model: map<string, real>, completion: map<string, real>, cache: map<string, real>)

  predicate Converted(r: Ratios, name: string, c: Candidate) {
    && name in r.model && r.model[name] == ModelRatio(c)
    && (if c.input != 0.0 && c.output.Some?
        then name in r.completion && r.completion[name] == RelativeRatio(c.output.value, c)
        else name !in r.completion)
    && (if c.input != 0.0 && c.cacheRead.Some?
        then name in r.cache && r.cache[name] == RelativeRatio(c.cacheRead.value, c)
        else name !in r.cache)
  }

  predicate Untouched(r: Ratios, name: string) {
    name !in r.model && name !in r.completion && name !in r.cache
  }

  method Convert(selected: map<string, Candidate>) returns (r: Option<Ratios>)
    ensures r.None? <==> selected == map[]
    ensures r.Some? ==> forall name :: if name in selected then Converted(r.value, name, selected[name]) else Untouched(r.value, name)
  {
    if |selected| == 0 {
      return None;
    }
    var ratios := Ratios(map[], map[], map[]);
    var todo := selected.Keys;
    while todo != {}
      invariant todo <= selected.Keys
      invariant forall name :: if name in selected && name !in todo
                  then Converted(ratios, name, selected[name]) else Untouched(ratios, name)
      decreases |todo|
    {
      var name :| name in todo;
      var c := selected[name];
      if c.input == 0.0 {
        ratios := ratios.(model := ratios.model[name := 0.0]);
      } else {
        ratios := ratios.(model := ratios.model[name := RoundRatio(c.input * USD / INPUT_COST_RATIO_BASE)]);
        if c.output.Some? {
          ratios := ratios.(completion := ratios.completion[name := RoundRatio(c.output.value / c.input)]);
        }
        if c.cacheRead.Some? {
          ratios := ratios.(cache := ratios.cache[name := RoundRatio(c.cacheRead.value / c.input)]);
        }
      }
      todo := todo - {name};
    }
    r := Some(ratios);
  }

  lemma Product(x: real, y: real)
    requires x >= 0.0 && y >= 0.0
    ensures x * y >= 0.0
  {}

  lemma Scaled(a: real, f: real, h: real)
    requires a >= 0.0 && -h <= f <= h
    ensures -(a * h) <= a * f <= a * h
  {
    Product(a, h - f);
    Product(a, h + f);
  }

  lemma SmallProduct(e: real, f: real, h: real)
    requires -h <= e <= h && -h <= f <= h
    ensures -(h * h) <= e * f <= h * h
  {
    Product(h - e, h + f);
    Product(h + e, h - f);
    assert (h - e) * (h + f) + (h + e) * (h - f) == 2.0 * (h * h) - 2.0 * (e * f);
    Product(h - e, h - f);
    Product(h + e, h + f);
    assert (h - e) * (h - f) + (h + e) * (h + f) == 2.0 * (h * h) + 2.0 * (e * f);
  }

  lemma Expanded(a: real, b: real, e: real, f: real)
    ensures (a + e) * (b + f) == a * b + a * f + b * e + e * f
  {}

  lemma ProductError(a: real, b: real, e: real, f: real, h: real)
    requires a >= 0.0 && b >= 0.0 && -h <= e <= h && -h <= f <= h
    ensures Abs((a + e) * (b + f) - a * b) <= h * (a + b + h)
  {
    Expanded(a, b, e, f);
    Scaled(a, f, h);
    Scaled(b, e, h);
    SmallProduct(e, f, h);
    assert h * (a + b + h) == a * h + b * h + h * h;
  }

  // The output price that the two rounded ratios stand for is off by at most half a step
  // times the sum of the exact ratios.
  lemma OutputPriceSurvives(c: Candidate)
    requires Valid(c) && c.input > 0.0 && c.output.Some?
    ensures var (i, o) := (c.input, c.output.value);
      Abs(ModelRatio(c) * RelativeRatio(o, c) - o / 2.0) <= HALF_STEP * (i / 2.0 + o / i + HALF_STEP)
  {
    var i, o := c.input, c.output.value;
    assert i * USD / INPUT_COST_RATIO_BASE == i / 2.0;
    RoundedRatios(i / 2.0, o / i);
    HalfOfOutput(i, o);
  }

  lemma RoundedRatios(a: real, b: real)
    requires a >= 0.0 && b >= 0.0
    ensures Abs(RoundRatio(a) * RoundRatio(b) - a * b) <= HALF_STEP * (a + b + HALF_STEP)
  {
    RoundingError(a);
    RoundingError(b);
    var e, f := RoundRatio(a) - a, RoundRatio(b) - b;
    ProductError(a, b, e, f, HALF_STEP);
  }

  lemma HalfOfOutput(i: real, o: real)
    requires i > 0.0
    ensures (i / 2.0) * (o / i) == o / 2.0
  {
    assert i * (o / i) == o;
  }
}
