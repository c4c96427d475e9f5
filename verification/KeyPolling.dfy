/** Choosing the next key of a multi-key channel in polling mode: the first enabled key at or
    after the stored index, round the end of the list. */
module KeyPolling {
  import opened Wrappers
  import opened MultiKey

  predicate IsEnabled(recs: seq<Rec>, i: int) {
    0 <= i < |recs| && recs[i].status == ENABLED
  }

  // The position after i, round the end.
  function Next(i: nat, n: nat): nat
    requires i < n
  {
    if i + 1 == n then 0 else i + 1
  }

  // The position i steps after start.
  function Along(start: nat, i: nat, n: nat): nat
    requires start < n && i <= n
  {
    if start + i < n then start + i else start + i - n
  }

  lemma AlongIsMod(start: nat, i: nat, n: nat)
    requires start < n && i <= n
    ensures (start + i) % n == Along(start, i, n)
  {
    var a := start + i;
    if a >= n {
      assert (a - n) % n == a - n;
      assert a == n * 1 + (a - n);
    }
  }

  // The enabled indices among the next `left` positions, in the order they are reached.
  function EnabledFrom(recs: seq<Rec>, start: nat, left: nat): seq<nat>
    requires start < |recs|
    decreases left
  {
    if left == 0 then []
    else (if IsEnabled(recs, start) then [start] else []) + EnabledFrom(recs, Next(start, |recs|), left - 1)
  }

  // The stored index, put back to 0 when it is out of range.
  function Begin(recs: seq<Rec>, stored: int): nat
    requires recs != []
  {
    if 0 <= stored < |recs| then stored else 0
  }

  function Round(recs: seq<Rec>, stored: int): seq<nat>
    requires recs != []
  {
    EnabledFrom(recs, Begin(recs, stored), |recs|)
  }

  // How the next key is chosen: at random, in turn, or always the first enabled one.
  datatype Mode = Random(choice: nat) | Polling | Unknown

  // The index of the key to use, or none, and the index to store for the next call.
  method ChooseKey(keys: seq<string>, status: map<int, int>, mode: Mode, stored: int) returns (r: Option<nat>, next: int)
    ensures var recs := RecsOf(keys, Marks(status, map[], map[]));
      && (r.None? <==> forall i :: 0 <= i < |recs| ==> !IsEnabled(recs, i))
      && (r.None? || !mode.Polling? ==> next == stored)
      && (r.Some? ==> keys != [] && IsEnabled(recs, r.value))
      && (r.Some? && mode.Polling? ==> r.value == Pick(recs, stored) && next == Next(r.value, |keys|))
      && (r.Some? && mode.Unknown? ==> forall i :: 0 <= i < r.value ==> !IsEnabled(recs, i))
      && (r.Some? && mode.Random? ==>
            var all := Below(recs, |recs|); all != [] && r.value == all[mode.choice % |all|])
  {
    ghost var recs := RecsOf(keys, Marks(status, map[], map[]));
    next := stored;
    var enabled := EnabledIndices(keys, status);
    if |enabled| == 0 {
      return None, next;
    }
    assert enabled[0] in enabled;
    match mode
    case Polling =>
      r, next := NextKey(keys, status, stored);
    case Random(choice) =>
      assert enabled[choice % |enabled|] in enabled;
      r := Some(enabled[choice % |enabled|]);
    case Unknown =>
      forall i | 0 <= i < enabled[0] ensures !IsEnabled(recs, i) {
        NoneBelowFirst(recs, |recs|, i);
      }
      r := Some(enabled[0]);
  }

  method EnabledIndices(keys: seq<string>, status: map<int, int>) returns (enabled: seq<nat>)
    ensures var recs := RecsOf(keys, Marks(status, map[], map[]));
      && enabled == Below(recs, |recs|)
      && (forall i: nat :: i in enabled <==> IsEnabled(recs, i))
  {
    ghost var recs := RecsOf(keys, Marks(status, map[], map[]));
    enabled := [];
    for i := 0 to |keys|
      invariant enabled == Below(recs, i)
    {
      if StatusAt(status, i) == ENABLED {
        enabled := enabled + [i];
      }
    }
    forall i: nat ensures i in enabled <==> IsEnabled(recs, i) {
      BelowMembers(recs, |keys|, i);
    }
  }

  // The enabled indices below n, ascending.
  ghost function Below(recs: seq<Rec>, n: nat): seq<nat> {
    if n == 0 then [] else Below(recs, n - 1) + if IsEnabled(recs, n - 1) then [n - 1] else []
  }

  lemma {:induction false} BelowMembers(recs: seq<Rec>, n: nat, i: nat)
    ensures i in Below(recs, n) <==> i < n && IsEnabled(recs, i)
  {
    if n > 0 {
      BelowMembers(recs, n - 1, i);
    }
  }

  lemma {:induction false} NoneBelowFirst(recs: seq<Rec>, n: nat, i: nat)
    requires Below(recs, n) != [] && i < Below(recs, n)[0]
    ensures !IsEnabled(recs, i)
  {
    if Below(recs, n - 1) != [] {
      NoneBelowFirst(recs, n - 1, i);
    } else {
      BelowMembers(recs, n - 1, i);
    }
  }

  // Answers the index of the key to use and the index to store for the next call.
  method NextKey(keys: seq<string>, status: map<int, int>, stored: int) returns (r: Option<nat>, next: int)
    ensures var recs := RecsOf(keys, Marks(status, map[], map[]));
      && (r.None? <==> forall i :: 0 <= i < |recs| ==> !IsEnabled(recs, i))
      && (r.None? ==> next == stored)
      && (r.Some? ==> keys != [] && r.value == Pick(recs, stored) && IsEnabled(recs, r.value)
                      && next == Next(r.value, |keys|))
  {
    ghost var recs := RecsOf(keys, Marks(status, map[], map[]));
    next := stored;
    var some := AnyEnabled(keys, status);
    if !some {
      return None, next;
    }
    var n := |keys|;
    var start := if stored < 0 || stored >= n then 0 else stored;
    var index := Search(keys, status, start);
    AlongIsMod(index, 1, n);
    return Some(index), (index + 1) % n;
  }

  method Search(keys: seq<string>, status: map<int, int>, start: nat) returns (index: nat)
    requires start < |keys| && exists i :: 0 <= i < |keys| && StatusAt(status, i) == ENABLED
    ensures var recs := RecsOf(keys, Marks(status, map[], map[]));
      index == Pick(recs, start) && IsEnabled(recs, index)
  {
    ghost var recs := RecsOf(keys, Marks(status, map[], map[]));
    var n := |keys|;
    for i := 0 to n
      invariant Round(recs, start) == EnabledFrom(recs, Along(start, i, n), n - i)
    {
      AlongIsMod(start, i, n);
      index := (start + i) % n;
      if StatusAt(status, index) == ENABLED {
        return;
      }
    }
    RoundHasAll(recs, start);
    ghost var i :| 0 <= i < |keys| && StatusAt(status, i) == ENABLED;
    assert IsEnabled(recs, i);
    assert false;
  }

  method AnyEnabled(keys: seq<string>, status: map<int, int>) returns (some: bool)
    ensures some <==> exists i :: 0 <= i < |keys| && StatusAt(status, i) == ENABLED
  {
    some := false;
    for i := 0 to |keys|
      invariant some <==> exists j :: 0 <= j < i && StatusAt(status, j) == ENABLED
    {
      if StatusAt(status, i) == ENABLED {
        some := true;
      }
    }
  }

  // ---------- fairness ----------

  // How many steps ahead of `start` index i is reached.
  function Ahead(start: nat, i: nat, n: nat): int {
    if i >= start then i - start else i + n - start
  }

  lemma {:induction false} Reached(recs: seq<Rec>, start: nat, left: nat, i: nat)
    requires start < |recs| && left <= |recs|
    ensures i in EnabledFrom(recs, start, left) <==> IsEnabled(recs, i) && Ahead(start, i, |recs|) < left
    decreases left
  {
    if left > 0 {
      Reached(recs, Next(start, |recs|), left - 1, i);
    }
  }

  lemma {:induction false} ReachedOnce(recs: seq<Rec>, start: nat, left: nat, a: nat, b: nat)
    requires start < |recs| && left <= |recs| && a < b < |EnabledFrom(recs, start, left)|
    ensures EnabledFrom(recs, start, left)[a] != EnabledFrom(recs, start, left)[b]
    decreases left
  {
    var next := Next(start, |recs|);
    var rest := EnabledFrom(recs, next, left - 1);
    if !IsEnabled(recs, start) {
      ReachedOnce(recs, next, left - 1, a, b);
    } else if a > 0 {
      ReachedOnce(recs, next, left - 1, a - 1, b - 1);
    } else {
      Reached(recs, next, left - 1, start);
      assert rest[b - 1] in rest;
    }
  }

  // A round lists every enabled key once.
  lemma RoundHasAll(recs: seq<Rec>, stored: int)
    requires recs != []
    ensures forall i: nat :: i in Round(recs, stored) <==> IsEnabled(recs, i)
    ensures forall a, b :: 0 <= a < b < |Round(recs, stored)| ==> Round(recs, stored)[a] != Round(recs, stored)[b]
  {
    var start := Begin(recs, stored);
    forall i: nat ensures i in Round(recs, stored) <==> IsEnabled(recs, i) {
      Reached(recs, start, |recs|, i);
    }
    forall a, b | 0 <= a < b < |Round(recs, stored)| ensures Round(recs, stored)[a] != Round(recs, stored)[b] {
      ReachedOnce(recs, start, |recs|, a, b);
    }
  }

  lemma {:induction false} MoreIsPrefix(recs: seq<Rec>, start: nat, a: nat, b: nat)
    requires start < |recs| && a <= b
    ensures EnabledFrom(recs, start, a) <= EnabledFrom(recs, start, b)
    decreases a
  {
    if a > 0 {
      MoreIsPrefix(recs, Next(start, |recs|), a - 1, b - 1);
    }
  }

  // The key that one call chooses.
  function Pick(recs: seq<Rec>, stored: int): (p: nat)
    requires recs != []
    ensures p < |recs|
  {
    var round := Round(recs, stored);
    if round == [] then 0
    else
      assert round[0] in round && IsEnabled(recs, round[0]) by { RoundHasAll(recs, stored); }
      round[0]
  }

  // The keys that consecutive calls choose while no status changes.
  function Picks(recs: seq<Rec>, stored: int, calls: nat): seq<nat>
    requires recs != []
    decreases calls
  {
    if calls == 0 then []
    else
      var p := Pick(recs, stored);
      [p] + Picks(recs, Next(p, |recs|), calls - 1)
  }

  lemma {:induction false} PicksFollow(recs: seq<Rec>, start: nat, left: nat)
    requires start < |recs| && left <= |recs|
    ensures Picks(recs, start, |EnabledFrom(recs, start, left)|) == EnabledFrom(recs, start, left)
    decreases left
  {
    if left > 0 {
      var next := Next(start, |recs|);
      var rest := EnabledFrom(recs, next, left - 1);
      PicksFollow(recs, next, left - 1);
      if IsEnabled(recs, start) {
        assert Pick(recs, start) == start;
      } else if rest != [] {
        MoreIsPrefix(recs, next, left - 1, |recs| - 1);
        MoreIsPrefix(recs, next, |recs| - 1, |recs|);
        assert Pick(recs, start) == Pick(recs, next);
      }
    }
  }

  // From any stored index, as many calls as there are enabled keys use each of them once.
  lemma PollingIsFair(recs: seq<Rec>, stored: int)
    requires recs != []
    ensures Picks(recs, stored, |Round(recs, stored)|) == Round(recs, stored)
    ensures forall i: nat :: i in Round(recs, stored) <==> IsEnabled(recs, i)
    ensures forall a, b :: 0 <= a < b < |Round(recs, stored)| ==> Round(recs, stored)[a] != Round(recs, stored)[b]
  {
    RoundHasAll(recs, stored);
    PicksFollow(recs, Begin(recs, stored), |recs|);
    assert Pick(recs, stored) == Pick(recs, Begin(recs, stored));
  }
}
