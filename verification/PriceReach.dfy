/** Where the prices of an import go, told on the rows of the channel table. */
module PriceReach {
  import opened Wrappers
  import opened PriceTransfer
  import opened PriceExport
  import Text

  // ---------- finding channels by name ----------

  predicate Ascending(at: seq<int>) {
    forall a, b :: 0 <= a < b < |at| ==> at[a] < at[b]
  }

  // The ids of the rows with a name are those rows' ids, in the order of the rows and each once.
  lemma {:induction false} NamedRows(dir: seq<Row>, name: string) returns (at: seq<int>)
    ensures Ascending(at) && |at| == |IdsNamed(dir, name)|
    ensures forall j :: 0 <= j < |at| ==> 0 <= at[j] < |dir| && dir[at[j]] == Row(IdsNamed(dir, name)[j], name)
    ensures forall i :: 0 <= i < |dir| && dir[i].name == name ==> i in at
  {
    if dir == [] {
      at := [];
    } else {
      var n := |dir| - 1;
      at := NamedRows(dir[..n], name);
      if dir[n].name == name {
        at := at + [n];
      }
    }
  }

  lemma NamedExactly(dir: seq<Row>, name: string, id: string)
    ensures id in IdsNamed(dir, name) <==> Row(id, name) in dir
  {
    var at := NamedRows(dir, name);
    if id in IdsNamed(dir, name) {
      var j :| 0 <= j < |at| && IdsNamed(dir, name)[j] == id;
      assert dir[at[j]] == Row(id, name);
    }
    if Row(id, name) in dir {
      var i :| 0 <= i < |dir| && dir[i] == Row(id, name);
      var j :| 0 <= j < |at| && at[j] == i;
    }
  }

  predicate DistinctRows(dir: seq<Row>) {
    forall i, j :: 0 <= i < j < |dir| ==> dir[i].id != dir[j].id
  }

  // The name of a channel is that of its row; a channel without a row has none.
  lemma {:induction false} NameOfExactly(dir: seq<Row>, id: string)
    ensures NameOf(dir, id).None? <==> forall i :: 0 <= i < |dir| ==> dir[i].id != id
    ensures NameOf(dir, id).Some? ==> Row(id, NameOf(dir, id).value) in dir
    ensures DistinctRows(dir) ==> forall name :: NameOf(dir, id) == Some(name) <==> Row(id, name) in dir
  {
    if dir != [] {
      var n := |dir| - 1;
      NameOfExactly(dir[..n], id);
      assert dir == dir[..n] + [dir[n]];
    }
  }

  // An exported channel arrives at exactly the channels of the target that carry its trimmed name,
  // if it has a row and the name is neither blank nor the mark of a deleted channel.
  lemma TargetsExactly(from: seq<Row>, to: seq<Row>, id: string, t: string)
    requires DistinctRows(from)
    ensures t in Targets(from, to, id) <==>
      exists name :: Row(id, name) in from && Text.TrimSpace(name) != ""
        && !("__deleted__channel_id_" <= Text.TrimSpace(name)) && Row(t, Text.TrimSpace(name)) in to
  {
    NameOfExactly(from, id);
    if NameOf(from, id).None? {
      DeletedArrivesNowhere(from, to, id);
    } else {
      NamedExactly(to, Text.TrimSpace(NameOf(from, id).value), t);
    }
  }

  // Exactly the channels with stored prices for some field are exported.
  lemma ExportedExactly(fields: seq<Field>, o: Options, id: string)
    ensures id in ExportedIds(fields, o) <==> exists f :: f in fields && Slot(Channel(id), f) in o
  {
    if id in ExportedIds(fields, o) {
      var s :| s in o.Keys && s.owner.Channel? && s.field in fields && s.owner.id == id;
      assert s == Slot(Channel(id), s.field);
    }
    if f :| f in fields && Slot(Channel(id), f) in o {
      assert Slot(Channel(id), f) in o.Keys;
    }
  }

  // ---------- which slots an import writes ----------

  predicate Touches(p: Plan, s: Slot) {
    p.Then? && (p.w.slot == s || Touches(p.before, s))
  }

  lemma {:induction false} TouchesConcat(a: Plan, b: Plan, s: Slot)
    ensures Touches(Concat(a, b), s) <==> Touches(a, s) || Touches(b, s)
  {
    if b.Then? {
      TouchesConcat(a, b.before, s);
    }
  }

  // The maps bring a price for the field.
  predicate Priced(m: ModelMaps, f: Field) {
    f in m && m[f] != map[]
  }

  lemma {:induction false} SyncTouches(owner: Owner, m: ModelMaps, fields: seq<Field>, s: Slot)
    ensures Touches(SyncPlan(owner, m, fields), s) <==> s.owner == owner && s.field in fields && Priced(m, s.field)
  {
    if fields != [] {
      var n := |fields| - 1;
      SyncTouches(owner, m, fields[..n], s);
      assert fields == fields[..n] + [fields[n]];
    }
  }

  lemma {:induction false} FanOutTouches(fields: seq<Field>, ids: seq<string>, m: ModelMaps, s: Slot)
    ensures Touches(FanOut(fields, ids, m), s)
      <==> s.owner.Channel? && s.owner.id in ids && s.field in fields && Priced(m, s.field)
  {
    if ids != [] {
      var n := |ids| - 1;
      FanOutTouches(fields, ids[..n], m, s);
      SyncTouches(Channel(ids[n]), m, fields, s);
      TouchesConcat(FanOut(fields, ids[..n], m), SyncPlan(Channel(ids[n]), m, fields), s);
      assert ids == ids[..n] + [ids[n]];
    }
  }

  // The entry is meant for this channel: its trimmed name is neither blank nor the mark of a
  // deleted channel, and the channel's row carries it.
  predicate MeantFor(dir: seq<Row>, e: Entry, id: string) {
    var name := Text.TrimSpace(e.name);
    name != "" && !("__deleted__channel_id_" <= name) && Row(id, name) in dir
  }

  lemma EntryTouches(fields: seq<Field>, dir: seq<Row>, e: Entry, s: Slot)
    ensures Touches(EntryPlan(fields, dir, e), s)
      <==> s.owner.Channel? && MeantFor(dir, e, s.owner.id) && s.field in fields && Priced(e.models, s.field)
  {
    var name := Text.TrimSpace(e.name);
    if s.owner.Channel? {
      NamedExactly(dir, name, s.owner.id);
    }
    FanOutTouches(fields, IdsNamed(dir, name), e.models, s);
  }

  ghost predicate SomeEntry(fields: seq<Field>, dir: seq<Row>, entries: seq<Entry>, s: Slot) {
    exists i :: 0 <= i < |entries| && s.owner.Channel? && MeantFor(dir, entries[i], s.owner.id)
      && s.field in fields && Priced(entries[i].models, s.field)
  }

  lemma {:induction false} EntriesTouch(fields: seq<Field>, dir: seq<Row>, entries: seq<Entry>, s: Slot)
    ensures Touches(EntriesPlan(fields, dir, entries), s) <==> SomeEntry(fields, dir, entries, s)
  {
    if entries != [] {
      var n := |entries| - 1;
      EntriesTouch(fields, dir, entries[..n], s);
      EntryTouches(fields, dir, entries[n], s);
      TouchesConcat(EntriesPlan(fields, dir, entries[..n]), EntryPlan(fields, dir, entries[n]), s);
      SomeEntryOneMore(fields, dir, entries, s);
    }
  }

  lemma SomeEntryOneMore(fields: seq<Field>, dir: seq<Row>, entries: seq<Entry>, s: Slot)
    requires entries != []
    ensures var n := |entries| - 1;
      SomeEntry(fields, dir, entries, s) <==>
        || SomeEntry(fields, dir, entries[..n], s)
        || (s.owner.Channel? && MeantFor(dir, entries[n], s.owner.id) && s.field in fields && Priced(entries[n].models, s.field))
  {
    var n := |entries| - 1;
    if SomeEntry(fields, dir, entries, s) {
      var i :| 0 <= i < |entries| && s.owner.Channel? && MeantFor(dir, entries[i], s.owner.id)
        && s.field in fields && Priced(entries[i].models, s.field);
      assert i < n ==> entries[..n][i] == entries[i];
    }
    if SomeEntry(fields, dir, entries[..n], s) {
      var i :| 0 <= i < n && s.owner.Channel? && MeantFor(dir, entries[..n][i], s.owner.id)
        && s.field in fields && Priced(entries[..n][i].models, s.field);
      assert entries[i] == entries[..n][i];
    }
  }

  // An import writes a field of a channel exactly when some entry with prices for it is meant for
  // the channel, and a global field exactly when the payload has global prices for it.
  lemma ImportTouchesExactly(fields: seq<Field>, dir: seq<Row>, p: Payload, s: Slot)
    ensures Touches(PayloadPlan(fields, dir, p), s) <==>
      if s.owner.Global? then s.field in fields && Priced(p.global, s.field) else SomeEntry(fields, dir, p.channels, s)
  {
    SyncTouches(Global, p.global, fields, s);
    EntriesTouch(fields, dir, p.channels, s);
    TouchesConcat(SyncPlan(Global, p.global, fields), EntriesPlan(fields, dir, p.channels), s);
  }

  // ---------- nothing else changes ----------

  lemma {:induction false} UntouchedStays(o: Options, p: Plan, s: Slot)
    requires !Touches(p, s)
    ensures Get(Apply(o, p), s) == Get(o, s)
  {
    if p.Then? {
      UntouchedStays(o, p.before, s);
    }
  }

  lemma {:induction false} UntouchedByCarry(accepts: Accepts, o: Options, p: Plan, s: Slot)
    requires !Touches(p, s)
    ensures Get(Carry(accepts, o, p), s) == Get(o, s)
  {
    if p.Then? {
      UntouchedByCarry(accepts, o, p.before, s);
      UntouchedStays(o, p, s);
    }
  }

  // Whether the import succeeds or fails: a channel's prices change only if an entry is meant for
  // it.
  lemma OnlyMeantChannelsChange(accepts: Accepts, fields: seq<Field>, dir: seq<Row>, p: Payload, o: Options, id: string, f: Field)
    requires Get(Carry(accepts, o, PayloadPlan(fields, dir, p)), Slot(Channel(id), f)) != Get(o, Slot(Channel(id), f))
    ensures exists i :: 0 <= i < |p.channels| && MeantFor(dir, p.channels[i], id) && f in fields && Priced(p.channels[i].models, f)
  {
    var s := Slot(Channel(id), f);
    ImportTouchesExactly(fields, dir, p, s);
    if !Touches(PayloadPlan(fields, dir, p), s) {
      UntouchedByCarry(accepts, o, PayloadPlan(fields, dir, p), s);
    }
  }

  // ---------- every channel that is meant gets them ----------

  lemma CargoOfMeant(fields: seq<Field>, dir: seq<Row>, e: Entry, s: Slot)
    ensures Cargo(EntryPlan(fields, dir, e), s)
      == if s.owner.Channel? && MeantFor(dir, e, s.owner.id) && s.field in fields && Priced(e.models, s.field)
         then e.models[s.field] else map[]
  {
    var name := Text.TrimSpace(e.name);
    if s.owner.Channel? {
      NamedExactly(dir, name, s.owner.id);
    }
    CargoOfFanOut(fields, IdsNamed(dir, name), e.models, s);
    if IsEmpty(fields, e.models) && s.field in fields {
      assert In(e.models, s.field) == map[];
    }
  }

  // No entry behind the first n has its own price for the model.
  ghost predicate NoneLater(dir: seq<Row>, entries: seq<Entry>, n: nat, id: string, f: Field, m: string) {
    forall j :: n <= j < |entries| && MeantFor(dir, entries[j], id) && Priced(entries[j].models, f) ==> m !in entries[j].models[f]
  }

  lemma {:induction false} LastEntryWins(fields: seq<Field>, dir: seq<Row>, entries: seq<Entry>, i: nat, id: string, f: Field, m: string)
    requires i < |entries| && MeantFor(dir, entries[i], id) && f in fields && Priced(entries[i].models, f) && m in entries[i].models[f]
    requires NoneLater(dir, entries, i + 1, id, f, m)
    ensures var cargo := Cargo(EntriesPlan(fields, dir, entries), Slot(Channel(id), f));
      m in cargo && cargo[m] == entries[i].models[f][m]
    decreases |entries|
  {
    var n := |entries| - 1;
    var s := Slot(Channel(id), f);
    CargoOfMeant(fields, dir, entries[n], s);
    CargoConcat(EntriesPlan(fields, dir, entries[..n]), EntryPlan(fields, dir, entries[n]), s);
    if i < n {
      assert entries[..n][i] == entries[i];
      assert NoneLater(dir, entries[..n], i + 1, id, f, m) by {
        assert forall j :: 0 <= j < n ==> entries[..n][j] == entries[j];
      }
      LastEntryWins(fields, dir, entries[..n], i, id, f, m);
    }
  }

  // After an accepted import every channel whose row carries the trimmed name of an entry has the
  // entry's prices, unless a later entry for it has its own.
  lemma EveryMeantChannelGetsThem(accepts: Accepts, fields: seq<Field>, dir: seq<Row>, p: Payload, o: Options,
                                  i: nat, id: string, f: Field, m: string)
    requires Accepted(accepts, o, PayloadPlan(fields, dir, p))
    requires i < |p.channels| && MeantFor(dir, p.channels[i], id) && f in fields
    requires Priced(p.channels[i].models, f) && m in p.channels[i].models[f] && NoneLater(dir, p.channels, i + 1, id, f, m)
    ensures var prices := Get(Carry(accepts, o, PayloadPlan(fields, dir, p)), Slot(Channel(id), f));
      m in prices && prices[m] == p.channels[i].models[f][m]
  {
    var s := Slot(Channel(id), f);
    var plan := PayloadPlan(fields, dir, p);
    CarryAccepted(accepts, o, plan);
    LastEntryWins(fields, dir, p.channels, i, id, f, m);
    CargoConcat(SyncPlan(Global, p.global, fields), EntriesPlan(fields, dir, p.channels), s);
    ApplyCargo(o, plan, s);
  }

  // And every global price of the payload holds.
  lemma GlobalPricesHold(accepts: Accepts, fields: seq<Field>, dir: seq<Row>, p: Payload, o: Options, f: Field, m: string)
    requires Accepted(accepts, o, PayloadPlan(fields, dir, p)) && f in fields && Priced(p.global, f) && m in p.global[f]
    ensures var prices := Get(Carry(accepts, o, PayloadPlan(fields, dir, p)), Slot(Global, f));
      m in prices && prices[m] == p.global[f][m]
  {
    var s := Slot(Global, f);
    var plan := PayloadPlan(fields, dir, p);
    CarryAccepted(accepts, o, plan);
    CargoOfSync(Global, p.global, fields, s);
    EntriesTouch(fields, dir, p.channels, s);
    UntouchedCargo(EntriesPlan(fields, dir, p.channels), s);
    CargoConcat(SyncPlan(Global, p.global, fields), EntriesPlan(fields, dir, p.channels), s);
    ApplyCargo(o, plan, s);
  }

  lemma {:induction false} UntouchedCargo(p: Plan, s: Slot)
    requires !Touches(p, s)
    ensures Cargo(p, s) == map[]
  {
    if p.Then? {
      UntouchedCargo(p.before, s);
    }
  }

  // Channels 1 named "a" and 2 named "b", and an entry for "a": it is meant for 1 alone.
  lemma OneOfTwo(dir: seq<Row>, e: Entry, a: string, b: string)
    requires a == "a" && b == "b" && dir == [Row("1", a), Row("2", b)] && e.name == a
    ensures IdsNamed(dir, Text.TrimSpace(e.name)) == ["1"]
  {
    Text.VisibleIsNoSpace(a[0]);
    Text.TrimmedIsFixed(a, Text.SPACES);
    assert dir[..1] == [Row("1", a)] && [Row("1", a)][..0] == [];
    assert IdsNamed(dir[..1], a) == ["1"];
  }
}
