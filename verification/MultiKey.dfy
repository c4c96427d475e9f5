/** A multi-key channel stores its keys in one text and three sparse maps from key index to
    status, disabled time and disabled reason. The management actions update, renumber and
    rebuild those maps. This module shows that they act as updates on a plain list of records. */
module MultiKey {
  import opened Wrappers
  import opened KeyText
  import KeyAppend
  import Text

  const ENABLED: int := 1
  const MANUALLY_DISABLED: int := 2
  const AUTO_DISABLED: int := 3

  // ---------- the list of records ----------

  datatype Rec = Rec(key: string, status: int, time: Option<int>, reason: Option<string>)

  // What the channel is, seen from outside: its records and its own status.
  datatype Ring = Ring(recs: seq<Rec>, state: int)

  datatype Action =
    | DisableKey(index: Option<int>)
    | EnableKey(index: Option<int>)
    | EnableAll
    | DisableAll
    | DeleteKey(index: Option<int>)
    | DeleteDisabled
    | Report(usingKey: string, status: int, reason: string, now: int)
    | Append(raw: string)

  datatype Outcome = Done(count: nat) | MissingIndex | OutOfRange | NothingToDisable | LastKey | NothingToDelete

  function Fresh(key: string): Rec {
    Rec(key, ENABLED, None, None)
  }

  function AllFresh(keys: seq<string>): seq<Rec> {
    seq(|keys|, i requires 0 <= i < |keys| => Fresh(keys[i]))
  }

  function KeysOf(recs: seq<Rec>): seq<string> {
    seq(|recs|, i requires 0 <= i < |recs| => recs[i].key)
  }

  function Count(recs: seq<Rec>, status: int): (n: nat)
    ensures n <= |recs|
  {
    if recs == [] then 0
    else Count(recs[..|recs| - 1], status) + if recs[|recs| - 1].status == status then 1 else 0
  }

  function Disabled(recs: seq<Rec>): nat {
    |recs| - Count(recs, ENABLED)
  }

  // Manual disabling sets the status alone.
  function ManuallyDisabled(r: Rec): Rec {
    r.(status := MANUALLY_DISABLED)
  }

  function DisableEnabled(recs: seq<Rec>): seq<Rec> {
    seq(|recs|, i requires 0 <= i < |recs| => if recs[i].status == ENABLED then ManuallyDisabled(recs[i]) else recs[i])
  }

  function Without(recs: seq<Rec>, i: nat): seq<Rec>
    requires i < |recs|
  {
    recs[..i] + recs[i + 1..]
  }

  // An enabled key carries neither a time nor a reason.
  predicate Tidy(r: Rec) {
    r.status == ENABLED ==> r.time.None? && r.reason.None?
  }

  predicate AllTidy(recs: seq<Rec>) {
    forall i :: 0 <= i < |recs| ==> Tidy(recs[i])
  }

  function Tidied(r: Rec): Rec {
    if r.status == ENABLED then Fresh(r.key) else r
  }

  // The keys that were not disabled automatically.
  function Kept(recs: seq<Rec>): seq<Rec> {
    if recs == [] then []
    else
      var last := recs[|recs| - 1];
      Kept(recs[..|recs| - 1]) + if last.status == AUTO_DISABLED then [] else [Tidied(last)]
  }

  // The first record with the key, or the first record of all.
  function Find(recs: seq<Rec>, key: string): nat
    requires recs != []
    ensures Find(recs, key) < |recs|
  {
    if exists i :: 0 <= i < |recs| && recs[i].key == key then First(recs, key) else 0
  }

  function First(recs: seq<Rec>, key: string): (i: nat)
    requires exists j :: 0 <= j < |recs| && recs[j].key == key
    ensures i < |recs| && recs[i].key == key
    ensures forall j :: 0 <= j < i ==> recs[j].key != key
  {
    if recs[0].key == key then 0
    else
      assert exists j :: 0 <= j < |recs[1..]| && recs[1..][j].key == key by {
        var j :| 0 <= j < |recs| && recs[j].key == key;
        assert recs[1..][j - 1] == recs[j];
      }
      First(recs[1..], key) + 1
  }

  function Marked(r: Rec, status: int, reason: string, now: int): Rec {
    if status == ENABLED then r.(status := ENABLED) else Rec(r.key, status, Some(now), Some(reason))
  }

  // A status report about one key: nothing happens when the channel already has that status.
  function Reported(ring: Ring, usingKey: string, status: int, reason: string, now: int): Ring {
    if ring.state == status then ring
    else if ring.recs == [] then ring.(state := status)
    else
      var i := Find(ring.recs, usingKey);
      var recs := ring.recs[i := Marked(ring.recs[i], status, reason, now)];
      Ring(recs, if Disabled(recs) >= |recs| then AUTO_DISABLED else ring.state)
  }

  // Deleting the automatically disabled keys; if that is all of them, the key column keeps
  // its text and only the marks are dropped.
  function Purged(recs: seq<Rec>): seq<Rec> {
    if Kept(recs) == [] then AllFresh(KeysOf(recs)) else Kept(recs)
  }

  predicate HasKey(ring: Ring, index: Option<int>) {
    index.Some? && 0 <= index.value < |ring.recs|
  }

  function IndexError(index: Option<int>): Outcome {
    if index.None? then MissingIndex else OutOfRange
  }

  // The action on records.
  function Act(ring: Ring, a: Action): (Ring, Outcome) {
    var recs := ring.recs;
    match a
    case DisableKey(index) =>
      if !HasKey(ring, index) then (ring, IndexError(index))
      else (ring.(recs := recs[index.value := ManuallyDisabled(recs[index.value])]), Done(1))
    case EnableKey(index) =>
      if !HasKey(ring, index) then (ring, IndexError(index))
      else (ring.(recs := recs[index.value := Fresh(recs[index.value].key)]), Done(1))
    case EnableAll =>
      (ring.(recs := AllFresh(KeysOf(recs))), Done(Disabled(recs)))
    case DisableAll =>
      if Count(recs, ENABLED) == 0 then (ring, NothingToDisable)
      else (ring.(recs := DisableEnabled(recs)), Done(Count(recs, ENABLED)))
    case DeleteKey(index) =>
      if !HasKey(ring, index) then (ring, IndexError(index))
      else if |recs| == 1 then (ring, LastKey)
      else (ring.(recs := Without(recs, index.value)), Done(1))
    case DeleteDisabled =>
      if Count(recs, AUTO_DISABLED) == 0 then (ring, NothingToDelete)
      else (ring.(recs := Purged(recs)), Done(Count(recs, AUTO_DISABLED)))
    case Report(usingKey, status, reason, now) =>
      (Reported(ring, usingKey, status, reason, now), Done(1))
    case Append(raw) =>
      (ring.(recs := recs + AllFresh(KeyAppend.Added(KeysOf(recs), raw))), Done(1))
  }

  function Run(ring: Ring, actions: seq<Action>): Ring {
    if actions == [] then ring
    else Act(Run(ring, actions[..|actions| - 1]), actions[|actions| - 1]).0
  }

  // ---------- the sparse maps ----------

  datatype Marks = Marks(status: map<int, int>, time: map<int, int>, reason: map<int, string>)

  const NO_MARKS := Marks(map[], map[], map[])

  function Lookup<V>(m: map<int, V>, i: int): Option<V> {
    if i in m then Some(m[i]) else None
  }

  function StatusAt(m: map<int, int>, i: int): int {
    if i in m then m[i] else ENABLED
  }

  function At(m: Marks, key: string, i: int): Rec {
    Rec(key, StatusAt(m.status, i), Lookup(m.time, i), Lookup(m.reason, i))
  }

  function RecsOf(keys: seq<string>, m: Marks): seq<Rec> {
    seq(|keys|, i requires 0 <= i < |keys| => At(m, keys[i], i))
  }

  // Every index is the index of a key, and no entry says "enabled".
  ghost predicate Within(m: Marks, n: nat) {
    && (forall i :: i in m.status ==> 0 <= i < n && m.status[i] != ENABLED)
    && (forall i :: i in m.time ==> 0 <= i < n)
    && (forall i :: i in m.reason ==> 0 <= i < n)
  }

  function Put<V>(m: map<int, V>, i: int, v: Option<V>): map<int, V> {
    if v.Some? then m[i := v.value] else m
  }

  // The marks with those of one more record behind the others.
  function Push(m: Marks, n: nat, r: Rec): Marks {
    Marks(if r.status != ENABLED then m.status[n := r.status] else m.status, Put(m.time, n, r.time), Put(m.reason, n, r.reason))
  }

  lemma PushAppends(keys: seq<string>, m: Marks, r: Rec)
    requires Within(m, |keys|)
    ensures RecsOf(keys + [r.key], Push(m, |keys|, r)) == RecsOf(keys, m) + [r]
    ensures Within(Push(m, |keys|, r), |keys| + 1)
  {
    var n, p := |keys|, Push(m, |keys|, r);
    assert At(p, r.key, n) == r;
    forall i | 0 <= i < n ensures At(p, keys[i], i) == At(m, keys[i], i) {}
  }

  lemma KeysOfRecs(keys: seq<string>, m: Marks)
    ensures KeysOf(RecsOf(keys, m)) == keys
  {}

  // Different marks make different records.
  lemma MarksAreDetermined(keys: seq<string>, m: Marks, other: Marks)
    requires Within(m, |keys|) && Within(other, |keys|)
    requires RecsOf(keys, m) == RecsOf(keys, other)
    ensures m == other
  {
    forall i
      ensures Lookup(m.status, i) == Lookup(other.status, i)
      ensures Lookup(m.time, i) == Lookup(other.time, i)
      ensures Lookup(m.reason, i) == Lookup(other.reason, i)
    {
      if 0 <= i < |keys| {
        assert RecsOf(keys, m)[i] == RecsOf(keys, other)[i];
      }
    }
    LookupDecides(m.status, other.status);
    LookupDecides(m.time, other.time);
    LookupDecides(m.reason, other.reason);
  }

  lemma LookupDecides<V>(a: map<int, V>, b: map<int, V>)
    requires forall i :: Lookup(a, i) == Lookup(b, i)
    ensures a == b
  {
    forall i ensures i in a <==> i in b {
      assert Lookup(a, i) == Lookup(b, i);
    }
    forall i | i in a ensures a[i] == b[i] {
      assert Lookup(a, i) == Lookup(b, i);
    }
  }

  // ---------- the loops ----------

  // Collects every key but one, with its marks under the new index.
  method Renumber(keys: seq<string>, m: Marks, index: nat) returns (remaining: seq<string>, marks: Marks)
    requires index < |keys| && Within(m, |keys|)
    ensures RecsOf(remaining, marks) == Without(RecsOf(keys, m), index)
    ensures Within(marks, |remaining|)
  {
    ghost var recs := RecsOf(keys, m);
    remaining, marks := [], NO_MARKS;
    var newIndex := 0;
    for i := 0 to |keys|
      invariant newIndex == |remaining| && Within(marks, newIndex)
      invariant RecsOf(remaining, marks) == Skipping(recs, index, i)
    {
      if i != index {
        PushAppends(remaining, marks, recs[i]);
        remaining := remaining + [keys[i]];
        if i in m.status && m.status[i] != ENABLED {
          marks := marks.(status := marks.status[newIndex := m.status[i]]);
        }
        if i in m.time {
          marks := marks.(time := marks.time[newIndex := m.time[i]]);
        }
        if i in m.reason {
          marks := marks.(reason := marks.reason[newIndex := m.reason[i]]);
        }
        newIndex := newIndex + 1;
      }
    }
    SkippingAll(recs, index, |keys|);
  }

  // The first n records except the one at the index.
  ghost function Skipping(recs: seq<Rec>, index: nat, n: nat): seq<Rec>
    requires n <= |recs|
  {
    if n == 0 then [] else Skipping(recs, index, n - 1) + if n - 1 == index then [] else [recs[n - 1]]
  }

  lemma {:induction false} SkippingAll(recs: seq<Rec>, index: nat, n: nat)
    requires n <= |recs|
    ensures Skipping(recs, index, n) == if n <= index then recs[..n] else recs[..index] + recs[index + 1..n]
  {
    if n > 0 {
      SkippingAll(recs, index, n - 1);
    }
  }

  // Collects the keys that were not disabled automatically.
  method Purge(keys: seq<string>, m: Marks) returns (remaining: seq<string>, marks: Marks, deleted: nat)
    requires Within(m, |keys|)
    ensures RecsOf(remaining, marks) == Kept(RecsOf(keys, m))
    ensures Within(marks, |remaining|)
    ensures deleted == Count(RecsOf(keys, m), AUTO_DISABLED)
  {
    ghost var recs := RecsOf(keys, m);
    remaining, marks, deleted := [], NO_MARKS, 0;
    var newIndex := 0;
    for i := 0 to |keys|
      invariant newIndex == |remaining| && Within(marks, newIndex)
      invariant RecsOf(remaining, marks) == Kept(recs[..i])
      invariant deleted == Count(recs[..i], AUTO_DISABLED)
    {
      assert recs[..i + 1][..i] == recs[..i];
      var status := StatusAt(m.status, i);
      if status == AUTO_DISABLED {
        deleted := deleted + 1;
      } else {
        PushAppends(remaining, marks, Tidied(recs[i]));
        remaining := remaining + [keys[i]];
        if status != ENABLED {
          marks := marks.(status := marks.status[newIndex := status]);
          if i in m.time {
            marks := marks.(time := marks.time[newIndex := m.time[i]]);
          }
          if i in m.reason {
            marks := marks.(reason := marks.reason[newIndex := m.reason[i]]);
          }
        }
        newIndex := newIndex + 1;
      }
    }
    assert recs[..|keys|] == recs;
  }

  // Disables every key that is enabled.
  method MarkAll(ghost keys: seq<string>, size: nat, m: Marks) returns (status: map<int, int>, disabled: nat)
    requires size == |keys| && Within(m, size)
    ensures RecsOf(keys, m.(status := status)) == DisableEnabled(RecsOf(keys, m))
    ensures Within(m.(status := status), size)
    ensures disabled == Count(RecsOf(keys, m), ENABLED)
  {
    ghost var recs := RecsOf(keys, m);
    status, disabled := m.status, 0;
    for i := 0 to size
      invariant forall j :: j in status <==> j in m.status || 0 <= j < i
      invariant forall j :: j in status ==> status[j] == if j in m.status then m.status[j] else MANUALLY_DISABLED
      invariant disabled == Count(recs[..i], ENABLED)
    {
      assert recs[..i + 1][..i] == recs[..i];
      if StatusAt(status, i) == ENABLED {
        status := status[i := MANUALLY_DISABLED];
        disabled := disabled + 1;
      }
    }
    assert recs[..size] == recs;
  }

  method FindKey(keys: seq<string>, usingKey: string) returns (index: nat)
    requires keys != []
    ensures forall m :: index == Find(RecsOf(keys, m), usingKey)
  {
    index := 0;
    for i := 0 to |keys|
      invariant index == 0
      invariant forall j :: 0 <= j < i ==> keys[j] != usingKey
    {
      if keys[i] == usingKey {
        index := i;
        forall m ensures index == Find(RecsOf(keys, m), usingKey) {
          assert RecsOf(keys, m)[i].key == usingKey;
        }
        return;
      }
    }
  }

  // The number of status entries is the number of keys that are not enabled.
  lemma {:induction false} EntriesAreDisabled(keys: seq<string>, m: Marks)
    requires Within(m, |keys|)
    ensures |m.status| == Disabled(RecsOf(keys, m))
  {
    var recs := RecsOf(keys, m);
    DisabledSetSize(recs);
    assert m.status.Keys == DisabledSet(recs);
  }

  ghost function DisabledSet(recs: seq<Rec>): set<int> {
    set i | 0 <= i < |recs| && recs[i].status != ENABLED
  }

  lemma {:induction false} DisabledSetSize(recs: seq<Rec>)
    ensures |DisabledSet(recs)| == Disabled(recs)
  {
    if recs != [] {
      var n := |recs| - 1;
      DisabledSetSize(recs[..n]);
      if recs[n].status != ENABLED {
        assert DisabledSet(recs) == DisabledSet(recs[..n]) + {n};
      } else {
        assert DisabledSet(recs) == DisabledSet(recs[..n]);
      }
    }
  }

  // ---------- what holds over runs of actions ----------

  // No action takes the last key away, not even deleting all automatically disabled keys.
  lemma {:induction false} KeysRemain(ring: Ring, actions: seq<Action>)
    requires ring.recs != []
    ensures Run(ring, actions).recs != []
  {
    if actions != [] {
      KeysRemain(ring, actions[..|actions| - 1]);
    }
  }

  // A report that enables a key which still carries a time or a reason.
  predicate StaleEnable(ring: Ring, a: Action) {
    && a.Report? && a.status == ENABLED && ring.state != ENABLED && ring.recs != []
    && var r := ring.recs[Find(ring.recs, a.usingKey)]; r.time.Some? || r.reason.Some?
  }

  // Times and reasons stay on disabled keys only, except through such a report.
  lemma TidyExactly(ring: Ring, a: Action)
    requires AllTidy(ring.recs)
    ensures AllTidy(Act(ring, a).0.recs) <==> !StaleEnable(ring, a)
  {
    var next := Act(ring, a).0.recs;
    match a
    case DeleteDisabled => KeptIsTidy(ring.recs);
    case Report(usingKey, status, _, _) =>
      if ring.state != status && ring.recs != [] {
        var i := Find(ring.recs, usingKey);
        assert Tidy(next[i]) <==> !StaleEnable(ring, a);
      }
    case _ =>
  }

  lemma {:induction false} KeptIsTidy(recs: seq<Rec>)
    ensures AllTidy(Kept(recs))
  {
    if recs != [] {
      KeptIsTidy(recs[..|recs| - 1]);
    }
  }

  lemma {:induction false} TidyOverRuns(ring: Ring, actions: seq<Action>)
    requires AllTidy(ring.recs)
    requires forall n :: 0 <= n < |actions| ==> !(actions[n].Report? && actions[n].status == ENABLED)
    ensures AllTidy(Run(ring, actions).recs)
  {
    if actions != [] {
      var n := |actions| - 1;
      assert forall k :: 0 <= k < n ==> actions[..n][k] == actions[k];
      TidyOverRuns(ring, actions[..n]);
      TidyExactly(Run(ring, actions[..n]), actions[n]);
    }
  }

  // After an enabling report the old reason comes back with the next manual disabling.
  lemma StaleReasonReturns(key: string, why: string, t: int)
    ensures
      var start := Ring([Rec(key, AUTO_DISABLED, Some(t), Some(why))], AUTO_DISABLED);
      var enabled := Act(start, Report(key, ENABLED, "", 0)).0;
      && !AllTidy(enabled.recs)
      && Act(enabled, DisableKey(Some(0))).0.recs == [Rec(key, MANUALLY_DISABLED, Some(t), Some(why))]
  {
    var r := Rec(key, AUTO_DISABLED, Some(t), Some(why));
    assert [r][0].key == key;
    var enabled := Act(Ring([r], AUTO_DISABLED), Report(key, ENABLED, "", 0)).0;
    assert enabled.recs == [r.(status := ENABLED)];
    assert !Tidy(enabled.recs[0]);
  }

  // Deleting automatically disabled keys is the filter on the list exactly when some key stays
  // and, if none is to be deleted, no enabled key carries an old time or reason. Otherwise every
  // key stays, enabled again or as it was.
  lemma PurgeIsFilterExactly(ring: Ring)
    ensures Act(ring, DeleteDisabled).0.recs == Kept(ring.recs)
      <==> ring.recs == [] || (SomeStays(ring.recs) && (SomeGoes(ring.recs) || AllTidy(ring.recs)))
  {
    var recs := ring.recs;
    KeptIsEmpty(recs);
    KeptAndGone(recs);
    NoneGone(recs);
    if Count(recs, AUTO_DISABLED) == 0 {
      if AllTidy(recs) {
        KeptIsAll(recs);
      } else {
        KeptIsTidy(recs);
      }
    }
  }

  predicate SomeStays(recs: seq<Rec>) {
    exists i :: 0 <= i < |recs| && recs[i].status != AUTO_DISABLED
  }

  predicate SomeGoes(recs: seq<Rec>) {
    exists i :: 0 <= i < |recs| && recs[i].status == AUTO_DISABLED
  }

  lemma {:induction false} NoneGone(recs: seq<Rec>)
    ensures Count(recs, AUTO_DISABLED) == 0 <==> !SomeGoes(recs)
  {
    if recs != [] {
      var n := |recs| - 1;
      NoneGone(recs[..n]);
      if SomeGoes(recs) && recs[n].status != AUTO_DISABLED {
        var i :| 0 <= i < |recs| && recs[i].status == AUTO_DISABLED;
        assert recs[..n][i].status == AUTO_DISABLED;
      }
    }
  }

  lemma {:induction false} KeptIsEmpty(recs: seq<Rec>)
    ensures Kept(recs) != [] <==> exists i :: 0 <= i < |recs| && recs[i].status != AUTO_DISABLED
  {
    if recs != [] {
      var n := |recs| - 1;
      KeptIsEmpty(recs[..n]);
      if exists i :: 0 <= i < |recs| && recs[i].status != AUTO_DISABLED {
        var i :| 0 <= i < |recs| && recs[i].status != AUTO_DISABLED;
        assert i < n ==> recs[..n][i] == recs[i];
      }
      if exists i :: 0 <= i < n && recs[..n][i].status != AUTO_DISABLED {
        var i :| 0 <= i < n && recs[..n][i].status != AUTO_DISABLED;
        assert recs[i].status != AUTO_DISABLED;
      }
    }
  }

  lemma {:induction false} KeptAndGone(recs: seq<Rec>)
    ensures |Kept(recs)| + Count(recs, AUTO_DISABLED) == |recs|
  {
    if recs != [] {
      KeptAndGone(recs[..|recs| - 1]);
    }
  }

  lemma {:induction false} KeptIsAll(recs: seq<Rec>)
    requires AllTidy(recs) && Count(recs, AUTO_DISABLED) == 0
    ensures Kept(recs) == recs
  {
    if recs != [] {
      var n := |recs| - 1;
      assert AllTidy(recs[..n]) && Tidy(recs[n]);
      KeptIsAll(recs[..n]);
      assert recs == recs[..n] + [recs[n]];
    }
  }

  // When all keys are automatically disabled, deleting them keeps and enables them all.
  lemma PurgingEverythingEnables(recs: seq<Rec>, state: int)
    requires recs != [] && forall i :: 0 <= i < |recs| ==> recs[i].status == AUTO_DISABLED
    ensures Act(Ring(recs, state), DeleteDisabled) == (Ring(AllFresh(KeysOf(recs)), state), Done(|recs|))
  {
    KeptIsEmpty(recs);
    KeptAndGone(recs);
  }

  // A kept record is an old one, in the old order, seen as before.
  lemma {:induction false} KeptInOrder(recs: seq<Rec>, j: nat, k: nat) returns (a: nat, b: nat)
    requires j < k < |Kept(recs)|
    ensures a < b < |recs|
    ensures Kept(recs)[j] == Tidied(recs[a]) && Kept(recs)[k] == Tidied(recs[b])
    ensures recs[a].status != AUTO_DISABLED && recs[b].status != AUTO_DISABLED
  {
    var n := |recs| - 1;
    if k < |Kept(recs[..n])| {
      a, b := KeptInOrder(recs[..n], j, k);
    } else {
      a := KeptOne(recs[..n], j);
      b := n;
    }
  }

  lemma {:induction false} KeptOne(recs: seq<Rec>, j: nat) returns (a: nat)
    requires j < |Kept(recs)|
    ensures a < |recs| && Kept(recs)[j] == Tidied(recs[a]) && recs[a].status != AUTO_DISABLED
  {
    var n := |recs| - 1;
    if j < |Kept(recs[..n])| {
      a := KeptOne(recs[..n], j);
    } else {
      a := n;
    }
  }

  ghost predicate Listed(recs: seq<Rec>, key: string) {
    exists i :: 0 <= i < |recs| && recs[i].key == key
  }

  // A report changes only records with the reported key, exactly when the key is listed or
  // the report has nothing to change: for an unlisted key it is the first record that changes.
  lemma ReportHitsItsKeyExactly(ring: Ring, usingKey: string, status: int, reason: string, now: int)
    ensures var next := Reported(ring, usingKey, status, reason, now);
      && |next.recs| == |ring.recs|
      && ((forall i :: 0 <= i < |ring.recs| && next.recs[i] != ring.recs[i] ==> ring.recs[i].key == usingKey)
          <==> (|| Listed(ring.recs, usingKey) || ring.recs == [] || ring.state == status
                || Marked(ring.recs[0], status, reason, now) == ring.recs[0]))
  {
    var recs, next := ring.recs, Reported(ring, usingKey, status, reason, now);
    if recs != [] && ring.state != status {
      var i := Find(recs, usingKey);
      assert next.recs[i] == Marked(recs[i], status, reason, now);
      if !Listed(recs, usingKey) {
        assert i == 0 && recs[0].key != usingKey;
      } else {
        assert recs[i].key == usingKey;
      }
    }
  }

  // A report that names no key marks the first one, as every report for an unlisted key does.
  lemma UnnamedReportDisablesFirst(ring: Ring, why: string, now: int)
    requires ring.recs != [] && !Listed(ring.recs, "") && ring.state != MANUALLY_DISABLED
    ensures Reported(ring, "", MANUALLY_DISABLED, why, now).recs
      == ring.recs[0 := Rec(ring.recs[0].key, MANUALLY_DISABLED, Some(now), Some(why))]
  {}

  // ---------- automatically disabled channels ----------

  // No run of actions takes a channel with keys out of the automatically disabled state.
  lemma {:induction false} DisabledForGood(ring: Ring, actions: seq<Action>)
    requires ring.recs != [] && ring.state == AUTO_DISABLED
    ensures Run(ring, actions).state == AUTO_DISABLED
  {
    if actions != [] {
      var n := |actions| - 1;
      DisabledForGood(ring, actions[..n]);
      KeysRemain(ring, actions[..n]);
    }
  }

  // Not even a report that enables one of its keys.
  lemma EnabledKeyInDisabledChannel(ring: Ring, key: string, actions: seq<Action>)
    requires Listed(ring.recs, key) && ring.state == AUTO_DISABLED
    ensures var enabled := Reported(ring, key, ENABLED, "", 0);
      && enabled.recs[Find(ring.recs, key)] == ring.recs[Find(ring.recs, key)].(status := ENABLED)
      && Run(enabled, actions).state == AUTO_DISABLED
  {
    DisabledForGood(Reported(ring, key, ENABLED, "", 0), actions);
  }

  // A channel is marked as automatically disabled by the report that leaves no key enabled.
  lemma LastReportDisables(ring: Ring, usingKey: string, status: int, reason: string, now: int)
    requires ring.recs != [] && ring.state != status
    ensures var next := Reported(ring, usingKey, status, reason, now);
      next.state == AUTO_DISABLED
      <==> (ring.state == AUTO_DISABLED || forall i :: 0 <= i < |next.recs| ==> next.recs[i].status != ENABLED)
  {
    var next := Reported(ring, usingKey, status, reason, now);
    NoneEnabled(next.recs);
  }

  lemma {:induction false} NoneEnabled(recs: seq<Rec>)
    ensures Disabled(recs) >= |recs| <==> forall i :: 0 <= i < |recs| ==> recs[i].status != ENABLED
  {
    if recs != [] {
      var n := |recs| - 1;
      NoneEnabled(recs[..n]);
      assert recs == recs[..n] + [recs[n]];
      if Disabled(recs) >= |recs| {
        forall i | 0 <= i < |recs| ensures recs[i].status != ENABLED {
          assert i < n ==> recs[..n][i] == recs[i];
        }
      }
    }
  }
}
