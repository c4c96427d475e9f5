/** The key listing and the choice of the next key, told on the records alone. */
module KeyListLaws {
  import opened Wrappers
  import opened MultiKey
  import opened KeyPages
  import KeyPolling

  // ---------- the listing ----------

  // The line of one key: its place, its status, time and reason only if it is not enabled, and the
  // key itself, cut behind ten characters.
  predicate LineOf(r: Rec, i: int, line: KeyStatus) {
    && line.index == i && line.status == r.status
    && (r.status == 1 ==> line.time == 0 && line.reason == "")
    && (r.status != 1 ==> line.time == (match r.time case Some(t) => t case None => 0))
    && (r.status != 1 ==> line.reason == (match r.reason case Some(why) => why case None => ""))
    && (|r.key| <= 10 ==> line.preview == r.key)
    && (|r.key| > 10 ==> line.preview == r.key[..10] + "...")
  }

  // Every key has its line, in order.
  lemma ListingLaw(recs: seq<Rec>)
    ensures |Listing(recs)| == |recs| && forall i :: 0 <= i < |recs| ==> LineOf(recs[i], i, Listing(recs)[i])
  {}

  predicate Ascending(at: seq<int>) {
    forall a, b :: 0 <= a < b < |at| ==> at[a] < at[b]
  }

  // The lines that are asked for are exactly those with the status, in order.
  lemma {:induction false} FilterLaw(list: seq<KeyStatus>, want: Option<int>) returns (at: seq<int>)
    ensures Ascending(at) && |at| == |Matching(list, want)|
    ensures forall j :: 0 <= j < |at| ==> 0 <= at[j] < |list| && Matching(list, want)[j] == list[at[j]]
    ensures forall i :: 0 <= i < |list| ==> (i in at <==> want == None || want == Some(list[i].status))
  {
    if list == [] {
      at := [];
    } else {
      var n := |list| - 1;
      at := FilterLaw(list[..n], want);
      if want == None || want == Some(list[n].status) {
        at := at + [n];
      }
    }
  }

  // Page p holds the lines from (p - 1) * size up to p * size, as far as there are any.
  lemma SliceLaw(list: seq<KeyStatus>, p: nat, size: nat)
    requires p >= 1
    ensures var shown := Slice(list, p, size);
      && (forall k :: 0 <= k < |shown| ==> (p - 1) * size + k < |list| && shown[k] == list[(p - 1) * size + k])
      && |shown| <= size
      && (|shown| < size ==> (p - 1) * size + |shown| >= |list|)
  {
    assert (p - 1) * size >= 0;
    assert p * size == (p - 1) * size + size;
  }

  // Without a page size there are fifty lines to a page, without a page number it is the first.
  method DefaultPage(keys: seq<string>, m: Marks) returns (p: Page)
    ensures p.page == 1 && p.pageSize == 50 && p.total == |keys| && |p.keys| == if |keys| < 50 then |keys| else 50
  {
    p := GetKeyStatus(keys, m, 0, 0, None);
    MatchingAll(Listing(RecsOf(keys, m)));
    SliceLaw(Listing(RecsOf(keys, m)), 1, 50);
  }

  // ---------- the next key ----------

  // The place so many steps behind another, round the end.
  function Around(begin: nat, steps: nat, n: nat): int {
    if begin + steps >= n then begin + steps - n else begin + steps
  }

  // Polling takes the first enabled key from the stored place on, round the end of the list; a
  // stored place that is no place counts as the first.
  lemma PickLaw(recs: seq<Rec>, stored: int) returns (steps: nat)
    requires exists i :: 0 <= i < |recs| && recs[i].status == 1
    ensures var begin := if 0 <= stored < |recs| then stored else 0;
      && steps < |recs|
      && KeyPolling.Pick(recs, stored) == Around(begin, steps, |recs|)
      && recs[Around(begin, steps, |recs|)].status == 1
      && forall k :: 0 <= k < steps ==> recs[Around(begin, k, |recs|)].status != 1
  {
    var begin := if 0 <= stored < |recs| then stored else 0;
    var i :| 0 <= i < |recs| && recs[i].status == 1;
    KeyPolling.RoundHasAll(recs, stored);
    assert KeyPolling.IsEnabled(recs, i);
    steps := FirstStep(recs, begin, 0);
  }

  lemma {:induction false} FirstStep(recs: seq<Rec>, begin: nat, k: nat) returns (steps: nat)
    requires begin < |recs| && k <= |recs|
    requires KeyPolling.EnabledFrom(recs, KeyPolling.Along(begin, k, |recs|), |recs| - k) != []
    ensures k <= steps < |recs|
    ensures KeyPolling.EnabledFrom(recs, KeyPolling.Along(begin, k, |recs|), |recs| - k)[0] == Around(begin, steps, |recs|)
    ensures recs[Around(begin, steps, |recs|)].status == 1
    ensures forall j :: k <= j < steps ==> recs[Around(begin, j, |recs|)].status != 1
    decreases |recs| - k
  {
    var n := |recs|;
    var here := KeyPolling.Along(begin, k, n);
    assert here == Around(begin, k, n);
    if recs[here].status == 1 {
      steps := k;
    } else {
      assert KeyPolling.Next(here, n) == KeyPolling.Along(begin, k + 1, n);
      steps := FirstStep(recs, begin, k + 1);
    }
  }

  // ---------- runs ----------

  // A run of actions is its first action and then the rest.
  lemma {:induction false} RunFromTheFront(ring: Ring, actions: seq<Action>)
    ensures Run(ring, actions) == if actions == [] then ring else Run(Act(ring, actions[0]).0, actions[1..])
  {
    if |actions| > 1 {
      var n := |actions| - 1;
      RunFromTheFront(ring, actions[..n]);
      assert actions[..n][1..] == actions[1..][..n - 1];
    } else if |actions| == 1 {
      assert actions[..0] == [] && actions[1..] == [];
    }
  }
}
