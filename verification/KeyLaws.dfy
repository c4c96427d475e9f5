/** What the actions on a multi-key channel do, told on the records alone: statuses are the
    numbers the source stores, 1 for enabled, 2 for disabled by hand, 3 for disabled by the
    system. */
module KeyLaws {
  import opened Wrappers
  import opened MultiKey
  import KeyAppend

  // ---------- counting ----------

  // The places of a status.
  ghost function Places(recs: seq<Rec>, status: int): set<int> {
    set i | 0 <= i < |recs| && recs[i].status == status
  }

  lemma {:induction false} CountIsPlaces(recs: seq<Rec>, status: int)
    ensures Count(recs, status) == |Places(recs, status)|
  {
    if recs != [] {
      var n := |recs| - 1;
      CountIsPlaces(recs[..n], status);
      if recs[n].status == status {
        assert Places(recs, status) == Places(recs[..n], status) + {n};
      } else {
        assert Places(recs, status) == Places(recs[..n], status);
      }
    }
  }

  // ---------- disabling and enabling ----------

  // A record with another status and nothing else changed.
  predicate OnlyStatus(r: Rec, r': Rec, status: int) {
    r'.key == r.key && r'.time == r.time && r'.reason == r.reason && r'.status == status
  }

  // An enabled record with the key and nothing else left.
  predicate Cleared(r: Rec, r': Rec) {
    r'.key == r.key && r'.status == 1 && r'.time.None? && r'.reason.None?
  }

  // Disabling all keys turns every 1 into 2 and changes nothing else. It reports by how many the
  // keys disabled by hand have grown; those disabled by the system are as many as before.
  lemma DisableAllLaw(ring: Ring)
    ensures var (next, o) := Act(ring, DisableAll);
      && |next.recs| == |ring.recs| && next.state == ring.state
      && (forall i :: 0 <= i < |ring.recs| ==>
            OnlyStatus(ring.recs[i], next.recs[i], if ring.recs[i].status == 1 then 2 else ring.recs[i].status))
      && |Places(next.recs, 2)| == |Places(ring.recs, 2)| + |Places(ring.recs, 1)|
      && |Places(next.recs, 3)| == |Places(ring.recs, 3)|
      && o == (if Places(ring.recs, 1) == {} then NothingToDisable else Done(|Places(next.recs, 2)| - |Places(ring.recs, 2)|))
  {
    var recs := ring.recs;
    CountIsPlaces(recs, 1);
    if Places(recs, 1) == {} {
      NoneEnabledStays(recs);
    }
    PlacesMove(recs, Act(ring, DisableAll).0.recs);
  }

  // Where every 1 becomes a 2, the places of 1 go to 2.
  lemma PlacesMove(recs: seq<Rec>, next: seq<Rec>)
    requires |next| == |recs|
    requires forall i :: 0 <= i < |recs| ==> next[i].status == if recs[i].status == 1 then 2 else recs[i].status
    ensures |Places(next, 2)| == |Places(recs, 2)| + |Places(recs, 1)| && |Places(next, 3)| == |Places(recs, 3)|
  {
    assert Places(next, 2) == Places(recs, 2) + Places(recs, 1);
    assert Places(next, 3) == Places(recs, 3);
  }

  lemma NoneEnabledStays(recs: seq<Rec>)
    requires Places(recs, 1) == {}
    ensures forall i :: 0 <= i < |recs| ==> recs[i].status != 1
  {
    forall i | 0 <= i < |recs| ensures recs[i].status != 1 {
      assert i !in Places(recs, 1);
    }
  }

  // The three ways in which an index is wrong or right.
  predicate InRange(ring: Ring, index: Option<int>) {
    index.Some? && index.value >= 0 && index.value < |ring.recs|
  }

  predicate Refused(ring: Ring, index: Option<int>, next: Ring, o: Outcome) {
    && next == ring
    && (index.None? ==> o == MissingIndex)
    && (index.Some? && (index.value < 0 || index.value >= |ring.recs|) ==> o == OutOfRange)
  }

  // Everything but one record is as before.
  predicate OthersSame(ring: Ring, next: Ring, i: int) {
    && next.state == ring.state && |next.recs| == |ring.recs|
    && forall j :: 0 <= j < |ring.recs| && j != i ==> next.recs[j] == ring.recs[j]
  }

  lemma DisableKeyLaw(ring: Ring, index: Option<int>)
    ensures var (next, o) := Act(ring, DisableKey(index));
      && (!InRange(ring, index) ==> Refused(ring, index, next, o))
      && (InRange(ring, index) ==>
            && o == Done(1) && OthersSame(ring, next, index.value)
            && OnlyStatus(ring.recs[index.value], next.recs[index.value], 2))
  {}

  lemma EnableKeyLaw(ring: Ring, index: Option<int>)
    ensures var (next, o) := Act(ring, EnableKey(index));
      && (!InRange(ring, index) ==> Refused(ring, index, next, o))
      && (InRange(ring, index) ==>
            && o == Done(1) && OthersSame(ring, next, index.value)
            && Cleared(ring.recs[index.value], next.recs[index.value]))
  {}

  // Enabling all keys clears every record and reports how many were not enabled.
  lemma EnableAllLaw(ring: Ring)
    ensures var (next, o) := Act(ring, EnableAll);
      && next.state == ring.state && |next.recs| == |ring.recs|
      && (forall i :: 0 <= i < |ring.recs| ==> Cleared(ring.recs[i], next.recs[i]))
      && o == Done(|ring.recs| - Count(ring.recs, 1)) && Count(ring.recs, 1) == |Places(ring.recs, 1)|
  {
    CountIsPlaces(ring.recs, 1);
  }

  // Disabling one key and enabling it again clears its record; so does disabling and enabling all.
  lemma EnableUndoesDisable(ring: Ring, i: int)
    requires 0 <= i < |ring.recs| && Cleared(ring.recs[i], ring.recs[i])
    ensures Act(Act(ring, DisableKey(Some(i))).0, EnableKey(Some(i))).0 == ring
  {
    var once := Act(ring, DisableKey(Some(i))).0;
    DisableKeyLaw(ring, Some(i));
    EnableKeyLaw(once, Some(i));
    assert Act(once, EnableKey(Some(i))).0.recs == ring.recs;
  }

  // ---------- deleting ----------

  // Deleting one key closes the gap: later records move down by one place.
  lemma DeleteKeyLaw(ring: Ring, index: Option<int>)
    ensures var (next, o) := Act(ring, DeleteKey(index));
      && (!InRange(ring, index) ==> Refused(ring, index, next, o))
      && (InRange(ring, index) && |ring.recs| == 1 ==> next == ring && o == LastKey)
      && (InRange(ring, index) && |ring.recs| > 1 ==>
            && o == Done(1) && next.state == ring.state && |next.recs| == |ring.recs| - 1
            && forall j :: 0 <= j < |next.recs| ==> next.recs[j] == ring.recs[if j < index.value then j else j + 1])
  {}

  // The record of a key that survives the deletion of disabled keys.
  predicate Carried(r: Rec, r': Rec) {
    && r'.key == r.key && r'.status == r.status
    && r'.time == (if r.status == 1 then None else r.time) && r'.reason == (if r.status == 1 then None else r.reason)
  }

  predicate Ascending(at: seq<int>) {
    forall a, b :: 0 <= a < b < |at| ==> at[a] < at[b]
  }

  // The records without status 3, in order, and the places they come from.
  ghost predicate KeptAt(recs: seq<Rec>, kept: seq<Rec>, at: seq<int>) {
    && |at| == |kept| && Ascending(at)
    && (forall j :: 0 <= j < |at| ==> 0 <= at[j] < |recs| && recs[at[j]].status != 3 && Carried(recs[at[j]], kept[j]))
    && (forall i :: 0 <= i < |recs| && recs[i].status != 3 ==> i in at)
  }

  lemma OneMoreKept(recs: seq<Rec>, kept: seq<Rec>, at: seq<int>, r: Rec, r': Rec)
    requires KeptAt(recs, kept, at)
    ensures r.status == 3 ==> KeptAt(recs + [r], kept, at)
    ensures r.status != 3 && Carried(r, r') ==> KeptAt(recs + [r], kept + [r'], at + [|recs|])
  {}

  lemma {:induction false} KeptPlaces(recs: seq<Rec>) returns (at: seq<int>)
    ensures KeptAt(recs, Kept(recs), at)
  {
    if recs == [] {
      at := [];
    } else {
      var n := |recs| - 1;
      at := KeptPlaces(recs[..n]);
      OneMoreKept(recs[..n], Kept(recs[..n]), at, recs[n], Tidied(recs[n]));
      assert recs == recs[..n] + [recs[n]];
      if recs[n].status != 3 {
        at := at + [n];
      }
    }
  }

  // Deleting the keys disabled by the system: nothing to do without such keys; with nothing but
  // such keys all of them stay and are enabled; otherwise exactly the others stay, in order.
  lemma DeleteDisabledLaw(ring: Ring) returns (at: seq<int>)
    ensures var (next, o) := Act(ring, DeleteDisabled);
      var gone := |Places(ring.recs, 3)|;
      && next.state == ring.state
      && (gone == 0 ==> next == ring && o == NothingToDelete)
      && (gone > 0 ==> o == Done(gone))
      && (gone > 0 && gone == |ring.recs| ==>
            |next.recs| == |ring.recs| && forall i :: 0 <= i < |ring.recs| ==> Cleared(ring.recs[i], next.recs[i]))
      && (0 < gone < |ring.recs| ==>
            |next.recs| == |ring.recs| - gone && KeptAt(ring.recs, next.recs, at))
  {
    CountIsPlaces(ring.recs, 3);
    KeptAndGone(ring.recs);
    FreshIsCleared(ring.recs);
    at := KeptPlaces(ring.recs);
    assert Act(ring, DeleteDisabled).0.recs
      == if Count(ring.recs, 3) == 0 then ring.recs else if Kept(ring.recs) == [] then AllFresh(KeysOf(ring.recs)) else Kept(ring.recs);
  }

  lemma FreshIsCleared(recs: seq<Rec>)
    ensures var cleared := AllFresh(KeysOf(recs));
      |cleared| == |recs| && forall i :: 0 <= i < |recs| ==> Cleared(recs[i], cleared[i])
  {}

  // Keys disabled by hand survive the deletion of disabled keys.
  lemma DisabledByHandSurvive(ring: Ring, i: int) returns (j: int)
    requires 0 <= i < |ring.recs| && ring.recs[i].status == 1
    ensures var next := Act(Act(ring, DisableAll).0, DeleteDisabled).0;
      0 <= j < |next.recs| && next.recs[j].key == ring.recs[i].key && next.recs[j].status == 2
  {
    var mid := Act(ring, DisableAll).0;
    DisableAllLaw(ring);
    var at := DeleteDisabledLaw(mid);
    if Places(mid.recs, 3) == {} {
      j := i;
    } else {
      StillSome(mid.recs, i);
      var k :| 0 <= k < |at| && at[k] == i;
      j := k;
    }
  }

  lemma StillSome(recs: seq<Rec>, i: int)
    requires 0 <= i < |recs| && recs[i].status != 3
    ensures |Places(recs, 3)| < |recs|
  {
    CountIsPlaces(recs, 3);
    KeptAndGone(recs);
    var at := KeptPlaces(recs);
    assert i in at;
  }

  // ---------- status reports ----------

  // The place a report is about: the first record with its key, or the first of all.
  predicate Hit(recs: seq<Rec>, key: string, i: int) {
    && 0 <= i < |recs|
    && (forall j :: 0 <= j < i ==> recs[j].key != key)
    && (recs[i].key == key || (i == 0 && forall j :: 0 <= j < |recs| ==> recs[j].key != key))
  }

  // A report changes one record. An enabling report sets its status alone; any other also
  // leaves time and reason. The channel is disabled by the system when no key is left enabled.
  lemma ReportLaw(ring: Ring, key: string, status: int, reason: string, now: int) returns (i: int)
    ensures var (next, o) := Act(ring, Report(key, status, reason, now));
      && o == Done(1)
      && (ring.state == status ==> next == ring)
      && (ring.state != status && ring.recs == [] ==> next == Ring([], status))
      && (ring.state != status && ring.recs != [] ==>
            && Hit(ring.recs, key, i) && |next.recs| == |ring.recs|
            && (forall j :: 0 <= j < |ring.recs| && j != i ==> next.recs[j] == ring.recs[j])
            && (status == 1 ==> OnlyStatus(ring.recs[i], next.recs[i], 1))
            && (status != 1 ==> next.recs[i] == Rec(ring.recs[i].key, status, Some(now), Some(reason)))
            && next.state == if Places(next.recs, 1) == {} then 3 else ring.state)
  {
    i := 0;
    if ring.recs != [] && ring.state != status {
      i := Find(ring.recs, key);
      var next := Reported(ring, key, status, reason, now);
      NoneEnabled(next.recs);
      CountIsPlaces(next.recs, 1);
    }
  }

  // ---------- appending ----------

  // Appending puts one enabled record behind the others for each added key.
  lemma AppendLaw(ring: Ring, raw: string)
    ensures var (next, o) := Act(ring, Append(raw));
      var added := KeyAppend.Added(KeysOf(ring.recs), raw);
      && o == Done(1) && next.state == ring.state && |next.recs| == |ring.recs| + |added|
      && next.recs[..|ring.recs|] == ring.recs
      && forall j :: 0 <= j < |added| ==> next.recs[|ring.recs| + j] == Rec(added[j], 1, None, None)
  {}
}
