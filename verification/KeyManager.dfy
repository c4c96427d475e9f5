/** The stored channel and the management actions on it. */
module KeyManager {
  import opened Wrappers
  import opened KeyText
  import opened MultiKey
  import KeyAppend
  import Text

  // The status entries whose index is below the number of keys.
  function Below(status: map<int, int>, size: nat): map<int, int> {
    map i | i in status && i < size :: status[i]
  }

  lemma BelowKeeps(keys: seq<string>, m: Marks)
    requires Within(m, |keys|)
    ensures RecsOf(keys, m.(status := Below(m.status, |keys|))) == RecsOf(keys, m)
    ensures Within(m.(status := Below(m.status, |keys|)), |keys|)
  {}

  class MultiKeyChannel {
    const decode: string -> Option<seq<string>>
    var text: string
    var size: nat
    var status: map<int, int>
    var time: map<int, int>
    var reason: map<int, string>
    var state: int

    function GetKeys(): seq<string>
      reads this
    {
      Keys(decode, text)
    }

    function Info(): Marks
      reads this
    {
      Marks(status, time, reason)
    }

    // The number of keys is the stored size, keys are plain, and marks belong to keys.
    ghost predicate Valid()
      reads this
    {
      && AllPlain(GetKeys())
      && size == |GetKeys()|
      && (GetKeys() == [] ==> text == "")
      && Within(Info(), size)
    }

    ghost function View(): Ring
      reads this
    {
      Ring(RecsOf(GetKeys(), Info()), state)
    }

    // Stores key text and marks. An empty key text leaves the stored one in place.
    method Update(key: string, m: Marks, ghost keys: seq<string>)
      modifies this
      ensures text == KeyAppend.Stored(old(text), key) && state == old(state)
      ensures size == |CountedKeys(decode, text)|
      ensures status == Below(m.status, size) && time == m.time && reason == m.reason
      ensures forall i :: i in status <==> i in m.status && i < size
      ensures forall i :: i in status ==> status[i] == m.status[i]
      ensures GetKeys() == keys && AllPlain(keys) && (keys == [] ==> text == "") && Within(m, |keys|)
        ==> Valid() && View() == Ring(RecsOf(keys, m), old(state))
    {
      var keyText := if key != "" then key else text;
      size := |CountedKeys(decode, keyText)|;
      status, time, reason := Below(m.status, size), m.time, m.reason;
      text := keyText;
      if Within(m, |keys|) {
        BelowKeeps(keys, m);
      }
    }

    method DisableKey(index: Option<int>) returns (o: Outcome)
      requires Valid()
      modifies this
      ensures Valid() && (View(), o) == Act(old(View()), Action.DisableKey(index))
    {
      if index.None? {
        return MissingIndex;
      }
      var i := index.value;
      if i < 0 || i >= size {
        return OutOfRange;
      }
      ghost var recs := View().recs;
      var m := Info().(status := status[i := MANUALLY_DISABLED]);
      assert RecsOf(GetKeys(), m) == recs[i := ManuallyDisabled(recs[i])];
      Update(text, m, GetKeys());
      return Done(1);
    }

    method EnableKey(index: Option<int>) returns (o: Outcome)
      requires Valid()
      modifies this
      ensures Valid() && (View(), o) == Act(old(View()), Action.EnableKey(index))
    {
      if index.None? {
        return MissingIndex;
      }
      var i := index.value;
      if i < 0 || i >= size {
        return OutOfRange;
      }
      ghost var recs := View().recs;
      var m := Marks(status - {i}, time - {i}, reason - {i});
      assert RecsOf(GetKeys(), m) == recs[i := Fresh(recs[i].key)];
      Update(text, m, GetKeys());
      return Done(1);
    }

    method EnableAll() returns (o: Outcome)
      requires Valid()
      modifies this
      ensures Valid() && (View(), o) == Act(old(View()), Action.EnableAll)
    {
      EntriesAreDisabled(GetKeys(), Info());
      var enabled := |status|;
      assert RecsOf(GetKeys(), NO_MARKS) == AllFresh(KeysOf(View().recs));
      Update(text, NO_MARKS, GetKeys());
      return Done(enabled);
    }

    method DisableAll() returns (o: Outcome)
      requires Valid()
      modifies this
      ensures Valid() && (View(), o) == Act(old(View()), Action.DisableAll)
    {
      var marked, disabled := MarkAll(GetKeys(), size, Info());
      if disabled == 0 {
        return NothingToDisable;
      }
      Update(text, Info().(status := marked), GetKeys());
      return Done(disabled);
    }

    method DeleteKey(index: Option<int>) returns (o: Outcome)
      requires Valid()
      modifies this
      ensures Valid() && (View(), o) == Act(old(View()), Action.DeleteKey(index))
    {
      if index.None? {
        return MissingIndex;
      }
      var i := index.value;
      if i < 0 || i >= size {
        return OutOfRange;
      }
      var keys := GetKeys();
      var remaining, m := Renumber(keys, Info(), i);
      RemainingArePlain(keys, Info(), remaining, m, i);
      if |remaining| == 0 {
        return LastKey;
      }
      KeysRoundTrip(decode, remaining);
      Update(Text.Join(remaining, '\n'), m, remaining);
      return Done(1);
    }

    method DeleteDisabled() returns (o: Outcome)
      requires Valid()
      modifies this
      ensures Valid() && (View(), o) == Act(old(View()), Action.DeleteDisabled)
    {
      var keys := GetKeys();
      var remaining, m, deleted := Purge(keys, Info());
      if deleted == 0 {
        return NothingToDelete;
      }
      KeptArePlain(keys, Info(), remaining, m);
      if remaining == [] {
        // nothing is left to join, so the key text is empty and Update keeps the old one
        NothingLeft(keys, Info(), m);
        Update(Text.Join(remaining, '\n'), m, keys);
      } else {
        KeysRoundTrip(decode, remaining);
        Update(Text.Join(remaining, '\n'), m, remaining);
      }
      return Done(deleted);
    }

    // The handler of status reports; it saves everything but the key text.
    method Report(usingKey: string, newStatus: int, why: string, now: int)
      requires Valid()
      modifies this
      ensures Valid() && View() == Reported(old(View()), usingKey, newStatus, why, now)
    {
      if state == newStatus {
        return;
      }
      var keys := GetKeys();
      if |keys| == 0 {
        state := newStatus;
        return;
      }
      var i := FindKey(keys, usingKey);
      ghost var found := Find(RecsOf(keys, Info()), usingKey);
      assert i == found;
      MarkOne(keys, Info(), i, newStatus, why, now);
      ghost var marked := MarkAt(Info(), i, newStatus, why, now);
      EntriesAreDisabled(keys, marked);
      if newStatus == ENABLED {
        status := status - {i};
      } else {
        status := status[i := newStatus];
        reason := reason[i := why];
        time := time[i := now];
      }
      assert Info() == marked;
      if |status| >= size {
        state := AUTO_DISABLED;
      }
    }

    // Appending takes the input as it is when the key column is empty.
    method Append(raw: string)
      requires Valid()
      modifies this
      ensures text == KeyAppend.Stored(old(text), KeyAppend.AppendedText(decode, old(text), raw))
      ensures Acceptable(old(View()), Action.Append(raw)) ==> Valid() && View() == Act(old(View()), Action.Append(raw)).0
    {
      var key := KeyAppend.AppendToText(decode, text, raw);
      ghost var keys := GetKeys();
      ghost var all := keys + KeyAppend.Added(keys, raw);
      if Acceptable(View(), Action.Append(raw)) {
        KeysOfRecs(keys, Info());
        ColumnAfterAppend(decode, text, raw);
        RecordsAfterAppend(keys, Info(), state, raw);
      }
      Update(key, Info(), all);
    }

    // The actions that change marks alone.
    method PerformMarking(a: Action) returns (o: Outcome)
      requires Valid() && (a.DisableKey? || a.EnableKey? || a.EnableAll? || a.DisableAll?)
      modifies this
      ensures Valid() && (View(), o) == Act(old(View()), a)
    {
      match a
      case DisableKey(index) => o := DisableKey(index);
      case EnableKey(index) => o := EnableKey(index);
      case EnableAll => o := EnableAll();
      case DisableAll => o := DisableAll();
    }

    method PerformDeleting(a: Action) returns (o: Outcome)
      requires Valid() && (a.DeleteKey? || a.DeleteDisabled?)
      modifies this
      ensures Valid() && (View(), o) == Act(old(View()), a)
    {
      match a
      case DeleteKey(index) => o := DeleteKey(index);
      case DeleteDisabled => o := DeleteDisabled();
    }

    method Perform(a: Action) returns (o: Outcome)
      requires Valid() && Acceptable(View(), a)
      modifies this
      ensures Valid() && (View(), o) == Act(old(View()), a)
    {
      match a
      case Report(usingKey, status, reason, now) =>
        Report(usingKey, status, reason, now);
        o := Done(1);
      case Append(raw) =>
        Append(raw);
        o := Done(1);
      case DeleteKey(_) => o := PerformDeleting(a);
      case DeleteDisabled => o := PerformDeleting(a);
      case _ => o := PerformMarking(a);
    }

    // Every run of actions on the stored channel is the same run on the list of records.
    method PerformAll(actions: seq<Action>)
      requires Valid() && AllAcceptable(View(), actions)
      modifies this
      ensures Valid() && View() == Run(old(View()), actions)
    {
      ghost var start := View();
      for n := 0 to |actions|
        invariant Valid() && View() == Run(start, actions[..n])
      {
        assert actions[..n + 1][..n] == actions[..n];
        var _ := Perform(actions[n]);
      }
      assert actions[..|actions|] == actions;
    }
  }

  ghost predicate AllAcceptable(ring: Ring, actions: seq<Action>) {
    forall n :: 0 <= n < |actions| ==> Acceptable(Run(ring, actions[..n]), actions[n])
  }

  // Keys appended to a channel that has keys must not look like the start of an array.
  ghost predicate Acceptable(ring: Ring, a: Action) {
    a.Append? ==> ring.recs != [] && forall x :: x in KeyAppend.Added(KeysOf(ring.recs), a.raw) ==> !Bracketed(x)
  }

  lemma RemainingArePlain(keys: seq<string>, m: Marks, remaining: seq<string>, marks: Marks, i: nat)
    requires AllPlain(keys) && i < |keys| && RecsOf(remaining, marks) == Without(RecsOf(keys, m), i)
    ensures AllPlain(remaining) && |remaining| == |keys| - 1
  {
    var recs := RecsOf(keys, m);
    forall j | 0 <= j < |remaining| ensures Plain(remaining[j]) {
      assert RecsOf(remaining, marks)[j].key == remaining[j];
      assert j < i ==> recs[j].key == keys[j];
      assert j >= i ==> recs[j + 1].key == keys[j + 1];
    }
  }

  lemma KeptArePlain(keys: seq<string>, m: Marks, remaining: seq<string>, marks: Marks)
    requires AllPlain(keys) && RecsOf(remaining, marks) == Kept(RecsOf(keys, m))
    ensures AllPlain(remaining)
  {
    forall j | 0 <= j < |remaining| ensures Plain(remaining[j]) {
      assert RecsOf(remaining, marks)[j].key == remaining[j];
      KeptHasItsKey(RecsOf(keys, m), j);
    }
  }

  lemma {:induction false} KeptHasItsKey(recs: seq<Rec>, j: nat)
    requires j < |Kept(recs)|
    ensures exists i :: 0 <= i < |recs| && recs[i].key == Kept(recs)[j].key
  {
    var n := |recs| - 1;
    if j < |Kept(recs[..n])| {
      KeptHasItsKey(recs[..n], j);
    } else {
      assert recs[n].key == Kept(recs)[j].key;
    }
  }

  lemma NothingLeft(keys: seq<string>, m: Marks, marks: Marks)
    requires Within(marks, 0)
    ensures RecsOf(keys, marks) == AllFresh(KeysOf(RecsOf(keys, m)))
    ensures Within(marks, |keys|)
  {
    forall i | 0 <= i < |keys| ensures At(marks, keys[i], i) == Fresh(keys[i]) {}
  }

  function MarkAt(m: Marks, i: nat, newStatus: int, why: string, now: int): Marks {
    if newStatus == ENABLED then m.(status := m.status - {i})
    else Marks(m.status[i := newStatus], m.time[i := now], m.reason[i := why])
  }

  lemma MarkOne(keys: seq<string>, m: Marks, i: nat, newStatus: int, why: string, now: int)
    requires i < |keys| && Within(m, |keys|)
    ensures var recs := RecsOf(keys, m);
      RecsOf(keys, MarkAt(m, i, newStatus, why, now)) == recs[i := Marked(recs[i], newStatus, why, now)]
    ensures Within(MarkAt(m, i, newStatus, why, now), |keys|)
  {}

  // The appended text reads as the old keys and the added ones.
  lemma ColumnAfterAppend(decode: string -> Option<seq<string>>, text: string, raw: string)
    requires Keys(decode, text) != [] && AllPlain(Keys(decode, text))
    requires forall x :: x in KeyAppend.Added(Keys(decode, text), raw) ==> !Bracketed(x)
    ensures var all := Keys(decode, text) + KeyAppend.Added(Keys(decode, text), raw);
      && Keys(decode, KeyAppend.Stored(text, KeyAppend.AppendedText(decode, text, raw))) == all
      && AllPlain(all) && all != []
  {
    KeyAppend.AppendKeepsKeys(decode, text, raw);
    KeysRoundTrip(decode, Keys(decode, text) + KeyAppend.Added(Keys(decode, text), raw));
  }

  // The added keys are enabled, the old ones keep their marks.
  lemma RecordsAfterAppend(keys: seq<string>, m: Marks, state: int, raw: string)
    requires Within(m, |keys|)
    ensures var all := keys + KeyAppend.Added(keys, raw);
      && Act(Ring(RecsOf(keys, m), state), Action.Append(raw)).0 == Ring(RecsOf(all, m), state)
      && Within(m, |all|)
  {
    KeysOfRecs(keys, m);
    FreshBehind(keys, m, KeyAppend.Added(keys, raw));
  }

  // Keys behind the marked ones are enabled.
  lemma FreshBehind(keys: seq<string>, m: Marks, added: seq<string>)
    requires Within(m, |keys|)
    ensures RecsOf(keys + added, m) == RecsOf(keys, m) + AllFresh(added)
    ensures Within(m, |keys + added|)
  {}
}
