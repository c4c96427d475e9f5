/** Exactly which orders of providers keep a price within the epsilon of the cheapest. */
module PriceOrder {
  import opened Wrappers
  import opened ModelsDev

  // ---------- the order of strings ----------

  // What is below a string is below everything not below it.
  lemma {:induction false} LessOver(c: string, b: string, a: string)
    requires Less(c, b) && !Less(a, b)
    ensures Less(c, a)
  {
    if a != [] && c != [] && a[0] == b[0] && c[0] == b[0] {
      LessOver(c[1..], b[1..], a[1..]);
    }
  }

  lemma {:induction false} LessTransitive(c: string, b: string, a: string)
    requires Less(c, b) && Less(b, a)
    ensures Less(c, a)
  {
    if c != [] && a[0] == b[0] && c[0] == b[0] {
      LessTransitive(c[1..], b[1..], a[1..]);
    }
  }

  // ---------- the condition ----------

  function Providers(cs: seq<Candidate>): seq<string> {
    seq(|cs|, i requires 0 <= i < |cs| => cs[i].provider)
  }

  // No provider comes behind two that are greater.
  predicate NoTwoAbove(ps: seq<string>) {
    forall x, y, z :: 0 <= x < y < z < |ps| ==> !(Less(ps[z], ps[x]) && Less(ps[z], ps[y]))
  }

  // The kept price is below every non-zero price plus the epsilon.
  predicate WithinEpsilon(cs: seq<Candidate>) {
    forall i :: 0 <= i < |cs| && cs[i].input > 0.0 ==> Select(cs).input < cs[i].input + EPSILON
  }

  predicate AllValid(cs: seq<Candidate>) {
    forall i :: 0 <= i < |cs| ==> Valid(cs[i])
  }

  // ---------- the condition suffices ----------

  // What the fold keeps to: candidate k is kept, within the epsilon; and unless k itself
  // came in below an earlier provider, no cheaper candidate has a lesser provider.
  ghost predicate Kept(cs: seq<Candidate>, k: nat) {
    && k < |cs| && Select(cs) == cs[k] && cs[k].input > 0.0 && WithinEpsilon(cs)
    && (|| (exists j :: 0 <= j < |cs| && j != k && Less(cs[k].provider, cs[j].provider))
        || (forall i :: 0 <= i < |cs| && 0.0 < cs[i].input < cs[k].input ==> !Less(cs[i].provider, cs[k].provider)))
  }

  lemma OnlyOneAbove(ps: seq<string>, a: nat, b: nat)
    requires NoTwoAbove(ps) && a < |ps| - 1 && b < |ps| - 1 && a != b
    ensures !(Less(ps[|ps| - 1], ps[a]) && Less(ps[|ps| - 1], ps[b]))
  {
    var x, y := if a < b then a else b, if a < b then b else a;
    assert !(Less(ps[|ps| - 1], ps[x]) && Less(ps[|ps| - 1], ps[y]));
  }

  // The tie-break takes a dearer candidate only below the one kept; a second greater provider
  // before it is ruled out.
  lemma TieStaysWithin(cs: seq<Candidate>, k: nat, i: nat)
    requires |cs| > 1 && Kept(cs[..|cs| - 1], k) && NoTwoAbove(Providers(cs))
    requires var next := cs[|cs| - 1];
      next.input > 0.0 && NearlyEqual(next.input, cs[k].input) && Less(next.provider, cs[k].provider)
    requires i < |cs| - 1 && cs[i].input > 0.0
    ensures cs[|cs| - 1].input < cs[i].input + EPSILON
  {
    var n := |cs| - 1;
    var ps, init := Providers(cs), cs[..n];
    if cs[i].input < cs[k].input {
      if j :| 0 <= j < n && j != k && Less(init[k].provider, init[j].provider) {
        OnlyOneAbove(ps, j, k);
        LessTransitive(ps[n], ps[k], ps[j]);
      } else {
        OnlyOneAbove(ps, i, k);
        LessOver(ps[n], ps[k], ps[i]);
      }
    }
  }

  lemma PrefixNoTwoAbove(cs: seq<Candidate>, n: nat)
    requires n <= |cs| && NoTwoAbove(Providers(cs))
    ensures NoTwoAbove(Providers(cs[..n]))
  {
    var ps, qs := Providers(cs), Providers(cs[..n]);
    forall x, y, z | 0 <= x < y < z < |qs| ensures !(Less(qs[z], qs[x]) && Less(qs[z], qs[y])) {
      assert qs[x] == ps[x] && qs[y] == ps[y] && qs[z] == ps[z];
    }
  }

  lemma StillKept(cs: seq<Candidate>, k: nat)
    requires |cs| > 1 && Kept(cs[..|cs| - 1], k) && !ShouldReplace(cs[k], cs[|cs| - 1])
    ensures Kept(cs, k)
  {
    var n := |cs| - 1;
    var init := cs[..n];
    assert Select(cs) == cs[k];
    forall i | 0 <= i < |cs| && cs[i].input > 0.0 ensures Select(cs).input < cs[i].input + EPSILON {
      assert i < n ==> init[i] == cs[i];
    }
    if j :| 0 <= j < n && j != k && Less(init[k].provider, init[j].provider) {
      assert Less(cs[k].provider, cs[j].provider);
    } else {
      forall i | 0 <= i < |cs| && 0.0 < cs[i].input < cs[k].input ensures !Less(cs[i].provider, cs[k].provider) {
        assert i < n ==> init[i] == cs[i];
      }
    }
  }

  // A price lower by at least the epsilon is lower than every earlier one.
  lemma LowerIsKept(cs: seq<Candidate>, k: nat)
    requires |cs| > 1 && Kept(cs[..|cs| - 1], k)
    requires var next := cs[|cs| - 1];
      next.input > 0.0 && !NearlyEqual(next.input, cs[k].input) && next.input < cs[k].input
    ensures Kept(cs, |cs| - 1)
  {
    var n := |cs| - 1;
    var init := cs[..n];
    assert Select(cs) == cs[n];
    forall i | 0 <= i < n && cs[i].input > 0.0 ensures cs[n].input < cs[i].input {
      assert init[i] == cs[i];
    }
  }

  lemma TieIsKept(cs: seq<Candidate>, k: nat)
    requires |cs| > 1 && Kept(cs[..|cs| - 1], k) && NoTwoAbove(Providers(cs))
    requires var next := cs[|cs| - 1];
      next.input > 0.0 && NearlyEqual(next.input, cs[k].input) && Less(next.provider, cs[k].provider)
    ensures Kept(cs, |cs| - 1)
  {
    var n := |cs| - 1;
    assert Select(cs) == cs[n];
    forall i | 0 <= i < n && cs[i].input > 0.0 ensures cs[n].input < cs[i].input + EPSILON {
      TieStaysWithin(cs, k, i);
    }
    assert Less(cs[n].provider, cs[k].provider);
  }

  lemma FirstNonZeroIsKept(cs: seq<Candidate>)
    requires cs != [] && cs[|cs| - 1].input > 0.0
    requires forall i :: 0 <= i < |cs| - 1 ==> cs[i].input <= 0.0
    ensures Kept(cs, |cs| - 1)
  {
    var n := |cs| - 1;
    if n > 0 {
      NonZeroWins(cs[..n]);
      assert forall i :: 0 <= i < n ==> cs[..n][i] == cs[i];
    }
    assert Select(cs) == cs[n];
  }

  lemma {:induction false} SomeIsKept(cs: seq<Candidate>) returns (k: nat)
    requires NoTwoAbove(Providers(cs)) && exists i :: 0 <= i < |cs| && cs[i].input > 0.0
    ensures Kept(cs, k)
  {
    var n := |cs| - 1;
    var init, next := cs[..n], cs[n];
    PrefixNoTwoAbove(cs, n);
    if exists i :: 0 <= i < n && init[i].input > 0.0 {
      var j := SomeIsKept(init);
      if !ShouldReplace(cs[j], next) {
        StillKept(cs, j);
        k := j;
      } else if NearlyEqual(next.input, cs[j].input) {
        TieIsKept(cs, j);
        k := n;
      } else {
        LowerIsKept(cs, j);
        k := n;
      }
    } else {
      assert forall i :: 0 <= i < n ==> init[i] == cs[i];
      FirstNonZeroIsKept(cs);
      k := n;
    }
  }

  lemma OrderSuffices(cs: seq<Candidate>)
    requires NoTwoAbove(Providers(cs))
    ensures WithinEpsilon(cs)
  {
    if exists i :: 0 <= i < |cs| && cs[i].input > 0.0 {
      var k := SomeIsKept(cs);
    }
  }

  // ---------- the condition is needed ----------

  const LOW := 1.0
  const MIDDLE := 1.0000000009
  const HIGH := 1.0000000018
  const FAR := 10.0

  // Three prices less than an epsilon apart, the first two in the order that the tie-break
  // does not correct, and far higher prices everywhere else.
  function PriceAt(ps: seq<string>, x: nat, y: nat, z: nat, i: nat): real
    requires x < y < z < |ps|
  {
    var swapped := Less(ps[y], ps[x]);
    if i == x then (if swapped then LOW else MIDDLE)
    else if i == y then (if swapped then MIDDLE else LOW)
    else if i == z then HIGH
    else FAR
  }

  function Priced(ps: seq<string>, x: nat, y: nat, z: nat): seq<Candidate>
    requires x < y < z < |ps|
  {
    seq(|ps|, i requires 0 <= i < |ps| => Candidate(ps[i], PriceAt(ps, x, y, z, i), None, None))
  }

  // Which candidate is kept after the first n.
  function KeptAt(ps: seq<string>, x: nat, y: nat, z: nat, n: nat): nat
    requires x < y < z < |ps| && x < n
  {
    if n <= y then x else if n <= z then (if Less(ps[y], ps[x]) then y else x) else z
  }

  lemma {:induction false} BeforeTheFirst(ps: seq<string>, x: nat, y: nat, z: nat, n: nat)
    requires x < y < z < |ps| && 0 < n <= x
    ensures Select(Priced(ps, x, y, z)[..n]).input == FAR
  {
    var cs := Priced(ps, x, y, z);
    if n > 1 {
      BeforeTheFirst(ps, x, y, z, n - 1);
      assert cs[..n][..n - 1] == cs[..n - 1];
    }
  }

  lemma {:induction false} DriftAt(ps: seq<string>, x: nat, y: nat, z: nat, n: nat)
    requires x < y < z < |ps| && x < n <= |ps| && Less(ps[z], ps[x]) && Less(ps[z], ps[y])
    ensures var cs := Priced(ps, x, y, z); Select(cs[..n]) == cs[KeptAt(ps, x, y, z, n)]
    decreases n
  {
    var cs := Priced(ps, x, y, z);
    assert n > 1 ==> cs[..n][..n - 1] == cs[..n - 1];
    if n - 1 > x {
      DriftAt(ps, x, y, z, n - 1);
    } else if n > 1 {
      BeforeTheFirst(ps, x, y, z, n - 1);
    }
  }

  // Behind two greater providers, prices can be set so that the bound fails.
  lemma TwoAboveBreak(ps: seq<string>, x: nat, y: nat, z: nat)
    requires x < y < z < |ps| && Less(ps[z], ps[x]) && Less(ps[z], ps[y])
    ensures var cs := Priced(ps, x, y, z); Providers(cs) == ps && AllValid(cs) && !WithinEpsilon(cs)
  {
    var cs := Priced(ps, x, y, z);
    DriftAt(ps, x, y, z, |ps|);
    assert cs[..|ps|] == cs;
    var low := if Less(ps[y], ps[x]) then x else y;
    assert cs[low].input == LOW && !(Select(cs).input < cs[low].input + EPSILON);
  }

  // For an order of providers, the kept price is within the epsilon of the cheapest for all
  // prices exactly when no provider comes behind two that are greater.
  lemma WithinEpsilonExactly(ps: seq<string>)
    ensures NoTwoAbove(ps) <==> forall cs :: Providers(cs) == ps && AllValid(cs) ==> WithinEpsilon(cs)
  {
    if NoTwoAbove(ps) {
      forall cs | Providers(cs) == ps && AllValid(cs) ensures WithinEpsilon(cs) {
        OrderSuffices(cs);
      }
    } else {
      var x, y, z :| 0 <= x < y < z < |ps| && Less(ps[z], ps[x]) && Less(ps[z], ps[y]);
      TwoAboveBreak(ps, x, y, z);
    }
  }

  // ---------- whole feeds ----------

  // The feed is walked by its keys, which are distinct and sorted; ids may come in any order.
  predicate Receivable(feed: seq<Provider>) {
    forall i, j :: 0 <= i < j < |feed| ==> Less(feed[i].key, feed[j].key)
  }

  // The ids of the official providers, as they are walked.
  function OfficialIds(feed: seq<Provider>): seq<string> {
    if feed == [] then []
    else
      var p := feed[|feed| - 1];
      OfficialIds(feed[..|feed| - 1]) + if Official(p) then [p.id] else []
  }

  ghost predicate Ascending(at: seq<nat>) {
    forall i, j :: 0 <= i < j < |at| ==> at[i] < at[j]
  }

  // The candidates for a model come from official providers, in their order.
  lemma {:induction false} Sources(model: string, feed: seq<Provider>) returns (at: seq<nat>)
    ensures var cs, ids := CandidatesFor(model, feed), OfficialIds(feed);
      && |at| == |cs| && Ascending(at)
      && forall i :: 0 <= i < |cs| ==> at[i] < |ids| && ids[at[i]] == cs[i].provider
  {
    if feed == [] {
      at := [];
    } else {
      var n := |feed| - 1;
      at := Sources(model, feed[..n]);
      if Offer(model, feed[n]) != [] {
        at := at + [|OfficialIds(feed[..n])|];
      }
    }
  }

  lemma CandidatesNoTwoAbove(model: string, feed: seq<Provider>)
    requires NoTwoAbove(OfficialIds(feed))
    ensures NoTwoAbove(Providers(CandidatesFor(model, feed)))
  {
    var at := Sources(model, feed);
    var ids, ps := OfficialIds(feed), Providers(CandidatesFor(model, feed));
    forall x, y, z | 0 <= x < y < z < |ps| ensures !(Less(ps[z], ps[x]) && Less(ps[z], ps[y])) {
      assert at[x] < at[y] < at[z];
      assert ids[at[x]] == ps[x] && ids[at[y]] == ps[y] && ids[at[z]] == ps[z];
    }
  }

  function KeyAt(i: nat): string {
    seq(i, _ => 'k')
  }

  lemma {:induction false} KeysAscend(i: nat, j: nat)
    requires i < j
    ensures Less(KeyAt(i), KeyAt(j))
  {
    if i > 0 {
      KeysAscend(i - 1, j - 1);
      assert KeyAt(i)[1..] == KeyAt(i - 1) && KeyAt(j)[1..] == KeyAt(j - 1);
    }
  }

  // The provider that offers a candidate for one model.
  function Offering(c: Candidate, i: nat, model: string): Provider {
    Provider(KeyAt(i), c.provider, true, map[model := Cost(Some(c.input), c.output, c.cacheRead)])
  }

  lemma OfferingOffers(c: Candidate, i: nat, model: string)
    requires Valid(c) && c.provider in OFFICIAL_IDS
    ensures Official(Offering(c, i, model)) && Offer(model, Offering(c, i, model)) == [c]
  {}

  // A feed in which every provider prices one model.
  function Feed(cs: seq<Candidate>, model: string): seq<Provider> {
    seq(|cs|, i requires 0 <= i < |cs| => Offering(cs[i], i, model))
  }

  predicate Usable(cs: seq<Candidate>) {
    forall i :: 0 <= i < |cs| ==> Valid(cs[i]) && cs[i].provider in OFFICIAL_IDS
  }

  // Where every provider offers one candidate, these are the candidates.
  lemma {:induction false} OneOfferEach(model: string, feed: seq<Provider>, cs: seq<Candidate>)
    requires |feed| == |cs| && forall i :: 0 <= i < |feed| ==> Offer(model, feed[i]) == [cs[i]]
    ensures CandidatesFor(model, feed) == cs
  {
    if feed != [] {
      var n := |feed| - 1;
      OneOfferEach(model, feed[..n], cs[..n]);
      assert cs == cs[..n] + [cs[n]];
    }
  }

  lemma {:induction false} AllOfficial(feed: seq<Provider>, ids: seq<string>)
    requires |feed| == |ids| && forall i :: 0 <= i < |feed| ==> Official(feed[i]) && feed[i].id == ids[i]
    ensures OfficialIds(feed) == ids
  {
    if feed != [] {
      var n := |feed| - 1;
      AllOfficial(feed[..n], ids[..n]);
      assert ids == ids[..n] + [ids[n]];
    }
  }

  lemma WholeFeed(cs: seq<Candidate>, model: string)
    requires Usable(cs)
    ensures CandidatesFor(model, Feed(cs, model)) == cs && OfficialIds(Feed(cs, model)) == Providers(cs)
  {
    var feed := Feed(cs, model);
    forall i | 0 <= i < |feed| ensures Official(feed[i]) && Offer(model, feed[i]) == [cs[i]] {
      OfferingOffers(cs[i], i, model);
    }
    OneOfferEach(model, feed, cs);
    AllOfficial(feed, Providers(cs));
  }

  lemma FeedIsReceivable(cs: seq<Candidate>, model: string)
    ensures Receivable(Feed(cs, model))
  {
    var feed := Feed(cs, model);
    forall i, j | 0 <= i < j < |feed| ensures Less(feed[i].key, feed[j].key) {
      KeysAscend(i, j);
    }
  }

  ghost predicate FeedWithinEpsilon(feed: seq<Provider>) {
    forall model :: WithinEpsilon(CandidatesFor(model, feed))
  }

  // For the official ids in the order in which a feed lists them, every feed keeps every
  // price within the epsilon of the cheapest exactly when no id comes behind two greater ones.
  lemma FeedWithinEpsilonExactly(ids: seq<string>)
    requires forall i :: 0 <= i < |ids| ==> ids[i] in OFFICIAL_IDS
    ensures NoTwoAbove(ids)
      <==> forall feed :: Receivable(feed) && OfficialIds(feed) == ids ==> FeedWithinEpsilon(feed)
  {
    if NoTwoAbove(ids) {
      forall feed | Receivable(feed) && OfficialIds(feed) == ids ensures FeedWithinEpsilon(feed) {
        forall model ensures WithinEpsilon(CandidatesFor(model, feed)) {
          CandidatesNoTwoAbove(model, feed);
          OrderSuffices(CandidatesFor(model, feed));
        }
      }
    } else {
      var x, y, z :| 0 <= x < y < z < |ids| && Less(ids[z], ids[x]) && Less(ids[z], ids[y]);
      var feed := BreakingFeed(ids, x, y, z, "m");
    }
  }

  lemma BreakingFeed(ids: seq<string>, x: nat, y: nat, z: nat, model: string) returns (feed: seq<Provider>)
    requires forall i :: 0 <= i < |ids| ==> ids[i] in OFFICIAL_IDS
    requires x < y < z < |ids| && Less(ids[z], ids[x]) && Less(ids[z], ids[y])
    ensures Receivable(feed) && OfficialIds(feed) == ids && !WithinEpsilon(CandidatesFor(model, feed))
    ensures !FeedWithinEpsilon(feed)
  {
    var cs := Priced(ids, x, y, z);
    TwoAboveBreak(ids, x, y, z);
    assert Usable(cs) by {
      forall i | 0 <= i < |cs| ensures cs[i].provider in OFFICIAL_IDS {
        assert cs[i].provider == ids[i];
      }
    }
    WholeFeed(cs, model);
    FeedIsReceivable(cs, model);
    feed := Feed(cs, model);
  }

  // A feed of three official providers whose ids fall: the kept price is too high.
  lemma OrderMatters(model: string) returns (feed: seq<Provider>)
    ensures Receivable(feed) && OfficialIds(feed) == ["openai", "google", "anthropic"]
    ensures !WithinEpsilon(CandidatesFor(model, feed))
  {
    var ids := ["openai", "google", "anthropic"];
    assert OFFICIAL_IDS[1] == ids[0] && OFFICIAL_IDS[2] == ids[1] && OFFICIAL_IDS[0] == ids[2];
    feed := BreakingFeed(ids, 0, 1, 2, model);
  }
}
