/** Candidates and ratios of the models.dev feed, told on the numbers. */
module CandidateLaws {
  import opened Wrappers
  import opened ModelsDev

  // ---------- which candidates there are ----------

  // Costs that can be used: an input price that is not negative, no negative output price, and no
  // paid output for free input.
  predicate Usable(cost: Cost) {
    && cost.input.Some? && cost.input.value >= 0.0
    && (cost.output.Some? ==> cost.output.value >= 0.0)
    && (cost.output.Some? && cost.output.value > 0.0 ==> cost.input.value > 0.0)
  }

  // An official provider on the expected host offers exactly its usable costs, under its id, with
  // the prices as they are and a negative cache price left out.
  lemma OfferLaw(model: string, p: Provider)
    ensures var offer := Offer(model, p);
      var official := p.id in {"anthropic", "openai", "google", "deepseek", "xai", "moonshotai", "zhipuai", "alibaba"};
      && |offer| == (if official && p.hostMatches && model in p.models && Usable(p.models[model]) then 1 else 0)
      && (offer != [] ==>
            var cost := p.models[model];
            && offer[0].provider == p.id && offer[0].input == cost.input.value && offer[0].output == cost.output
            && offer[0].cacheRead == (if cost.cacheRead.Some? && cost.cacheRead.value < 0.0 then None else cost.cacheRead))
  {
    OfficialLaw(p.id);
  }

  lemma OfficialLaw(id: string)
    ensures id in OFFICIAL_IDS
      <==> id in {"anthropic", "openai", "google", "deepseek", "xai", "moonshotai", "zhipuai", "alibaba"}
  {
    assert OFFICIAL_IDS[0] == "anthropic" && OFFICIAL_IDS[1] == "openai" && OFFICIAL_IDS[2] == "google";
    assert OFFICIAL_IDS[3] == "deepseek" && OFFICIAL_IDS[4] == "xai" && OFFICIAL_IDS[5] == "moonshotai";
    assert OFFICIAL_IDS[6] == "zhipuai" && OFFICIAL_IDS[7] == "alibaba" && |OFFICIAL_IDS| == 8;
  }

  // ---------- which candidate is kept ----------

  // The strings agree up to k, and there the first one ends or is smaller.
  predicate Before(a: string, b: string, k: int) {
    0 <= k <= |a| && k < |b| && a[..k] == b[..k] && (k == |a| || a[k] < b[k])
  }

  // The order of strings: the first difference decides, and a prefix comes first.
  lemma {:induction false} LessLaw(a: string, b: string)
    ensures Less(a, b) <==> exists k :: Before(a, b, k)
    decreases |a|, 1
  {
    if a == [] || b == [] {
      if a == [] && b != [] {
        assert Before(a, b, 0);
      }
    } else if a[0] != b[0] {
      if Less(a, b) {
        assert Before(a, b, 0);
      } else {
        forall k ensures !Before(a, b, k) {
          DifferAtOnce(a, b, k);
        }
      }
    } else {
      LessTail(a, b);
    }
  }

  lemma DifferAtOnce(a: string, b: string, k: int)
    requires a != [] && b != [] && a[0] != b[0] && !(a[0] < b[0])
    ensures !Before(a, b, k)
  {
    if 0 < k <= |a| && k < |b| {
      assert a[..k][0] == a[0] && b[..k][0] == b[0];
    }
  }

  lemma {:induction false} LessTail(a: string, b: string)
    requires a != [] && b != [] && a[0] == b[0]
    ensures Less(a, b) <==> exists k :: Before(a, b, k)
    decreases |a|, 0
  {
    LessLaw(a[1..], b[1..]);
    if Less(a[1..], b[1..]) {
      var k :| Before(a[1..], b[1..], k);
      assert a[..k + 1] == [a[0]] + a[1..][..k] && b[..k + 1] == [b[0]] + b[1..][..k];
      assert Before(a, b, k + 1);
    }
    if k :| Before(a, b, k) {
      assert k > 0;
      assert a[1..][..k - 1] == a[..k][1..] && b[1..][..k - 1] == b[..k][1..];
      assert Before(a[1..], b[1..], k - 1);
    }
  }

  // A price beats no price; of two prices at least a billionth apart the lower one wins; otherwise
  // the provider that comes first.
  lemma ReplaceLaw(current: Candidate, next: Candidate)
    ensures current.input > 0.0 && next.input <= 0.0 ==> !ShouldReplace(current, next)
    ensures current.input <= 0.0 && next.input > 0.0 ==> ShouldReplace(current, next)
    ensures current.input > 0.0 && next.input > 0.0 && current.input - next.input >= 0.000000001 ==> ShouldReplace(current, next)
    ensures current.input > 0.0 && next.input > 0.0 && next.input - current.input >= 0.000000001 ==> !ShouldReplace(current, next)
    ensures current.input > 0.0 && next.input > 0.0 && -0.000000001 < next.input - current.input < 0.000000001 ==>
      (ShouldReplace(current, next) <==> Less(next.provider, current.provider))
    ensures current.input <= 0.0 && next.input <= 0.0 ==> (ShouldReplace(current, next) <==> Less(next.provider, current.provider))
  {}

  // ---------- ratios ----------

  // Rounding gives the nearest millionth, and of two the one further from zero.
  lemma RoundLaw(x: real) returns (n: int)
    ensures RoundRatio(x) == n as real / 1000000.0
    ensures x >= 0.0 ==> -0.5 <= x * 1000000.0 - n as real < 0.5
    ensures x < 0.0 ==> -0.5 < x * 1000000.0 - n as real <= 0.5
  {
    n := Round(x * 1000000.0);
  }

  // The model ratio is half the input price, rounded; the other ratios are shares of the input
  // price, rounded; free input gives ratio 0 and no other.
  lemma RatioLaw(r: Ratios, name: string, c: Candidate)
    requires Converted(r, name, c)
    ensures name in r.model && r.model[name] == (if c.input == 0.0 then 0.0 else RoundRatio(c.input / 2.0))
    ensures name in r.completion <==> c.input != 0.0 && c.output.Some?
    ensures name in r.completion ==> r.completion[name] == RoundRatio(c.output.value / c.input)
    ensures name in r.cache <==> c.input != 0.0 && c.cacheRead.Some?
    ensures name in r.cache ==> r.cache[name] == RoundRatio(c.cacheRead.value / c.input)
  {
    assert c.input * 500.0 / 1000.0 == c.input / 2.0;
  }
}
