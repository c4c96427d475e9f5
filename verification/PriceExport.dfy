/** Exporting prices from one site and importing them at another, where channels are found
    again by name. */
module PriceExport {
  import opened Wrappers
  import opened PriceTransfer
  import Text

  // ---------- export, then import elsewhere ----------

  function NameOf(dir: seq<Row>, id: string): Option<string> {
    if dir == [] then None
    else if dir[|dir| - 1].id == id then Some(dir[|dir| - 1].name)
    else NameOf(dir[..|dir| - 1], id)
  }

  function ExportName(dir: seq<Row>, id: string): string {
    if NameOf(dir, id).Some? then NameOf(dir, id).value else DELETED + id
  }

  // All price fields of one owner.
  function Extract(fields: seq<Field>, o: Options, owner: Owner): ModelMaps {
    map f | f in fields :: Get(o, Slot(owner, f))
  }

  function ExportedIds(fields: seq<Field>, o: Options): set<string> {
    set s | s in o.Keys && s.owner.Channel? && s.field in fields :: s.owner.id
  }

  function Entries(fields: seq<Field>, o: Options, dir: seq<Row>, ids: seq<string>): seq<Entry> {
    if ids == [] then []
    else
      var id := ids[|ids| - 1];
      Entries(fields, o, dir, ids[..|ids| - 1]) + [Entry(ExportName(dir, id), Extract(fields, o, Channel(id)))]
  }

  predicate Distinct(ids: seq<string>) {
    forall i, j :: 0 <= i < j < |ids| ==> ids[i] != ids[j]
  }

  // The order of the entries is the iteration order of a Go map, which is any order.
  method ExportPrices(site: Site) returns (payload: Payload, ids: seq<string>)
    ensures Distinct(ids) && (set id | id in ids) == ExportedIds(site.fields, site.options)
    ensures payload == Payload(Extract(site.fields, site.options, Global), Entries(site.fields, site.options, site.directory, ids))
  {
    var entries: seq<Entry> := [];
    ids := [];
    var all := ExportedIds(site.fields, site.options);
    var todo := all;
    while todo != {}
      invariant todo <= all && Distinct(ids)
      invariant forall id :: id in ids <==> id in all && id !in todo
      invariant entries == Entries(site.fields, site.options, site.directory, ids)
      decreases |todo|
    {
      var id :| id in todo;
      entries := entries + [Entry(ExportName(site.directory, id), Extract(site.fields, site.options, Channel(id)))];
      assert (ids + [id])[..|ids|] == ids;
      ids := ids + [id];
      todo := todo - {id};
    }
    payload := Payload(Extract(site.fields, site.options, Global), entries);
  }

  predicate NoRepeats(fields: seq<Field>) {
    forall i, j :: 0 <= i < j < |fields| ==> fields[i] != fields[j]
  }

  // The source's own table of fields has no repeats and leaves out no field.
  lemma FieldTable()
    ensures NoRepeats(FIELDS) && forall f: Field :: f in FIELDS
  {
    forall f: Field ensures f in FIELDS {
      assert FIELDS[FieldIndex(f)] == f;
    }
    forall i | 0 <= i < |FIELDS| ensures FieldIndex(FIELDS[i]) == i {}
    forall i, j | 0 <= i < j < |FIELDS| ensures FIELDS[i] != FIELDS[j] {
      assert FieldIndex(FIELDS[i]) != FieldIndex(FIELDS[j]);
    }
  }

  function FieldIndex(f: Field): nat {
    match f
    case ModelPrice => 0 case ModelRatio => 1 case CompletionRatio => 2 case CacheRatio => 3
    case CreateCacheRatio => 4 case ImageRatio => 5 case AudioRatio => 6 case AudioCompletionRatio => 7
    case VideoRatio => 8 case VideoCompletionRatio => 9 case VideoPrice => 10 case ImagePrice => 11
    case VideoPricingRules => 12 case ImagePricingRules => 13 case ModelTierRatio => 14
    case CompletionTierRatio => 15 case CacheTierRatio => 16 case CreateCacheTierRatio => 17
  }

  // ---------- what a plan brings to one slot ----------

  function Cargo(p: Plan, s: Slot): Prices {
    match p
    case Empty => map[]
    case Then(before, w) => if w.slot == s then Cargo(before, s) + w.src else Cargo(before, s)
  }

  lemma MergeAssoc(a: Prices, b: Prices, c: Prices)
    ensures (a + b) + c == a + (b + c)
  {}

  // A plan merges into each slot what it brings for it, whatever else it does.
  lemma {:induction false} ApplyCargo(o: Options, p: Plan, s: Slot)
    ensures Get(Apply(o, p), s) == Get(o, s) + Cargo(p, s)
  {
    match p
    case Empty =>
    case Then(before, w) =>
      ApplyCargo(o, before, s);
      MergeAssoc(Get(o, s), Cargo(before, s), w.src);
  }

  lemma {:induction false} CargoConcat(a: Plan, b: Plan, s: Slot)
    ensures Cargo(Concat(a, b), s) == Cargo(a, s) + Cargo(b, s)
  {
    match b
    case Empty =>
    case Then(before, w) =>
      CargoConcat(a, before, s);
      MergeAssoc(Cargo(a, s), Cargo(before, s), w.src);
  }

  lemma {:induction false} CargoOfSync(owner: Owner, m: ModelMaps, fields: seq<Field>, s: Slot)
    ensures Cargo(SyncPlan(owner, m, fields), s) == if s.owner == owner && s.field in fields then In(m, s.field) else map[]
  {
    if fields != [] {
      var n := |fields| - 1;
      CargoOfSync(owner, m, fields[..n], s);
      assert fields == fields[..n] + [fields[n]];
    }
  }

  lemma {:induction false} CargoOfFanOut(fields: seq<Field>, ids: seq<string>, m: ModelMaps, s: Slot)
    ensures Cargo(FanOut(fields, ids, m), s)
      == if s.owner.Channel? && s.owner.id in ids && s.field in fields then In(m, s.field) else map[]
  {
    if ids != [] {
      var n := |ids| - 1;
      CargoOfFanOut(fields, ids[..n], m, s);
      CargoOfSync(Channel(ids[n]), m, fields, s);
      CargoConcat(FanOut(fields, ids[..n], m), SyncPlan(Channel(ids[n]), m, fields), s);
      assert ids == ids[..n] + [ids[n]];
    }
  }

  // ---------- where an exported channel arrives ----------

  // The channels of the target that get the prices of an exported channel: those with its name.
  // A deleted, blank or unknown channel arrives nowhere.
  function Targets(from: seq<Row>, to: seq<Row>, id: string): seq<string> {
    var name := Text.TrimSpace(ExportName(from, id));
    if name == "" || DELETED <= name then [] else IdsNamed(to, name)
  }

  function PricesOf(o: Options, id: string, f: Field): Prices {
    Get(o, Slot(Channel(id), f))
  }

  // What several channels bring, later ones over earlier ones.
  function Fold(ids: seq<string>, brought: string -> Prices): Prices {
    if ids == [] then map[] else Fold(ids[..|ids| - 1], brought) + brought(ids[|ids| - 1])
  }

  // What each exported channel brings for one field of one channel of the target.
  function Share(o: Options, from: seq<Row>, to: seq<Row>, b: string, f: Field): string -> Prices {
    id => if b in Targets(from, to, id) then PricesOf(o, id, f) else map[]
  }

  function Arriving(o: Options, from: seq<Row>, to: seq<Row>, ids: seq<string>, b: string, f: Field): Prices {
    Fold(ids, Share(o, from, to, b, f))
  }

  function Delivered(fields: seq<Field>, o: Options, from: seq<Row>, to: seq<Row>, ids: seq<string>, s: Slot): Prices {
    if s.field !in fields then map[]
    else if s.owner.Global? then Get(o, s)
    else Arriving(o, from, to, ids, s.owner.id, s.field)
  }

  lemma CargoOfEntry(fields: seq<Field>, o: Options, from: seq<Row>, to: seq<Row>, id: string, s: Slot)
    ensures Cargo(EntryPlan(fields, to, Entry(ExportName(from, id), Extract(fields, o, Channel(id)))), s)
      == if s.owner.Channel? && s.owner.id in Targets(from, to, id) && s.field in fields then PricesOf(o, id, s.field) else map[]
  {
    var m := Extract(fields, o, Channel(id));
    var e := Entry(ExportName(from, id), m);
    if !Passed(fields, e) {
      CargoOfFanOut(fields, IdsNamed(to, Text.TrimSpace(e.name)), m, s);
    } else if IsEmpty(fields, m) && s.field in fields {
      assert In(m, s.field) == map[];
    }
  }

  lemma EntriesSnoc(fields: seq<Field>, o: Options, from: seq<Row>, ids: seq<string>)
    requires ids != []
    ensures var n := |ids| - 1;
      var entries := Entries(fields, o, from, ids);
      && |entries| == n + 1
      && entries[..n] == Entries(fields, o, from, ids[..n])
      && entries[n] == Entry(ExportName(from, ids[n]), Extract(fields, o, Channel(ids[n])))
  {
    EntriesLength(fields, o, from, ids[..|ids| - 1]);
  }

  lemma {:induction false} EntriesLength(fields: seq<Field>, o: Options, from: seq<Row>, ids: seq<string>)
    ensures |Entries(fields, o, from, ids)| == |ids|
  {
    if ids != [] {
      EntriesLength(fields, o, from, ids[..|ids| - 1]);
    }
  }

  lemma {:induction false} CargoOfEntries(fields: seq<Field>, o: Options, from: seq<Row>, to: seq<Row>, ids: seq<string>, s: Slot)
    ensures Cargo(EntriesPlan(fields, to, Entries(fields, o, from, ids)), s)
      == if s.owner.Channel? && s.field in fields then Arriving(o, from, to, ids, s.owner.id, s.field) else map[]
  {
    if ids != [] {
      var n := |ids| - 1;
      CargoOfEntries(fields, o, from, to, ids[..n], s);
      EntriesSnoc(fields, o, from, ids);
      CargoOfEntry(fields, o, from, to, ids[n], s);
      CargoConcat(EntriesPlan(fields, to, Entries(fields, o, from, ids[..n])),
                  EntryPlan(fields, to, Entry(ExportName(from, ids[n]), Extract(fields, o, Channel(ids[n])))), s);
    }
  }

  function Exported(fields: seq<Field>, o: Options, from: seq<Row>, ids: seq<string>): Payload {
    Payload(Extract(fields, o, Global), Entries(fields, o, from, ids))
  }

  function ImportOf(fields: seq<Field>, o: Options, from: seq<Row>, to: seq<Row>, ids: seq<string>): Plan {
    PayloadPlan(fields, to, Exported(fields, o, from, ids))
  }

  lemma CargoOfImport(fields: seq<Field>, o: Options, from: seq<Row>, to: seq<Row>, ids: seq<string>, s: Slot)
    ensures Cargo(ImportOf(fields, o, from, to, ids), s) == Delivered(fields, o, from, to, ids, s)
  {
    var global := Extract(fields, o, Global);
    CargoOfSync(Global, global, fields, s);
    CargoOfEntries(fields, o, from, to, ids, s);
    CargoConcat(SyncPlan(Global, global, fields), EntriesPlan(fields, to, Entries(fields, o, from, ids)), s);
  }

  // ---------- export, then import ----------

  // Exporting from one site and importing into another, whatever channels either has: every slot
  // of the target ends up as what it was, overridden by what arrives for it.
  lemma ExportThenImport(fields: seq<Field>, source: Options, from: seq<Row>, ids: seq<string>, target: Options, to: seq<Row>,
                         s: Slot)
    ensures Get(Apply(target, ImportOf(fields, source, from, to, ids)), s)
      == Get(target, s) + Delivered(fields, source, from, to, ids, s)
  {
    CargoOfImport(fields, source, from, to, ids, s);
    ApplyCargo(target, ImportOf(fields, source, from, to, ids), s);
  }

  lemma FoldOneMore(ids: seq<string>, id: string, brought: string -> Prices)
    ensures Fold(ids + [id], brought) == Fold(ids, brought) + brought(id)
  {
    assert (ids + [id])[..|ids|] == ids;
  }

  lemma {:induction false} FoldSkips(a: seq<string>, lost: string, b: seq<string>, brought: string -> Prices)
    requires brought(lost) == map[]
    ensures Fold(a + [lost] + b, brought) == Fold(a + b, brought)
  {
    if b == [] {
      assert a + [lost] + b == a + [lost] && a + b == a;
      FoldOneMore(a, lost, brought);
    } else {
      var n := |b| - 1;
      FoldSkips(a, lost, b[..n], brought);
      assert a + [lost] + b == (a + [lost] + b[..n]) + [b[n]];
      assert a + b == (a + b[..n]) + [b[n]];
      FoldOneMore(a + [lost] + b[..n], b[n], brought);
      FoldOneMore(a + b[..n], b[n], brought);
    }
  }

  // Channels that arrive nowhere deliver nothing, and leave what the others deliver alone.
  lemma OthersUnaffected(o: Options, from: seq<Row>, to: seq<Row>, a: seq<string>, lost: string, b: seq<string>, t: string, f: Field)
    requires Targets(from, to, lost) == []
    ensures Arriving(o, from, to, a + [lost] + b, t, f) == Arriving(o, from, to, a + b, t, f)
  {
    FoldSkips(a, lost, b, Share(o, from, to, t, f));
  }

  // The name under which a deleted channel is exported is never matched.
  lemma DeletedArrivesNowhere(from: seq<Row>, to: seq<Row>, id: string)
    requires NameOf(from, id).None?
    ensures Targets(from, to, id) == []
  {
    PlaceholderStays(DELETED, id);
  }

  lemma PlaceholderStays(prefix: string, id: string)
    requires prefix != "" && prefix[0] == '_' && prefix[|prefix| - 1] == '_'
    ensures prefix <= Text.TrimSpace(prefix + id)
  {
    Text.VisibleIsNoSpace('_');
    assert Text.TrimLeft(prefix + id, Text.SPACES) == prefix + id;
    Text.TrimRightKeeps(prefix + id, |prefix|, Text.SPACES);
    assert (prefix + id)[..|prefix|] == prefix;
  }

  // ---------- every exported price holds ----------

  // Two exported channels arrive at the same channel.
  predicate Meet(from: seq<Row>, to: seq<Row>, a: string, b: string) {
    exists t :: t in Targets(from, to, a) && t in Targets(from, to, b)
  }

  // They have the same price wherever both have one.
  ghost predicate SamePrices(fields: seq<Field>, o: Options, a: string, b: string) {
    forall f, m :: f in fields && m in PricesOf(o, a, f) && m in PricesOf(o, b, f) ==> PricesOf(o, a, f)[m] == PricesOf(o, b, f)[m]
  }

  ghost predicate Compatible(fields: seq<Field>, o: Options, from: seq<Row>, to: seq<Row>, ids: seq<string>) {
    forall a, b :: a in ids && b in ids && Meet(from, to, a, b) ==> SamePrices(fields, o, a, b)
  }

  // The channel carries this price to the channel t of the target.
  predicate Brings(o: Options, from: seq<Row>, to: seq<Row>, id: string, t: string, f: Field, m: string) {
    t in Targets(from, to, id) && m in PricesOf(o, id, f)
  }

  function LastOf(ids: seq<string>, q: string -> bool): Option<string> {
    if ids == [] then None
    else if q(ids[|ids| - 1]) then Some(ids[|ids| - 1])
    else LastOf(ids[..|ids| - 1], q)
  }

  lemma {:induction false} LastOfFacts(ids: seq<string>, q: string -> bool)
    ensures var id := LastOf(ids, q);
      && (id.Some? ==> id.value in ids && q(id.value))
      && (id.None? ==> forall i :: 0 <= i < |ids| ==> !q(ids[i]))
  {
    if ids != [] {
      LastOfFacts(ids[..|ids| - 1], q);
    }
  }

  function Has(brought: string -> Prices, m: string): string -> bool {
    id => m in brought(id)
  }

  lemma {:induction false} FoldIsLast(ids: seq<string>, brought: string -> Prices, m: string)
    ensures var id := LastOf(ids, Has(brought, m));
      && (m in Fold(ids, brought) <==> id.Some?)
      && (id.Some? ==> m in brought(id.value) && Fold(ids, brought)[m] == brought(id.value)[m])
  {
    if ids != [] {
      FoldIsLast(ids[..|ids| - 1], brought, m);
    }
  }

  // The last exported channel that brings this price.
  function Bringer(o: Options, from: seq<Row>, to: seq<Row>, ids: seq<string>, t: string, f: Field, m: string): Option<string> {
    LastOf(ids, Has(Share(o, from, to, t, f), m))
  }

  lemma BringerFacts(o: Options, from: seq<Row>, to: seq<Row>, ids: seq<string>, t: string, f: Field, m: string)
    ensures var id := Bringer(o, from, to, ids, t, f, m);
      && (id.Some? ==> id.value in ids && Brings(o, from, to, id.value, t, f, m))
      && (id.None? ==> forall i :: 0 <= i < |ids| ==> !Brings(o, from, to, ids[i], t, f, m))
  {
    var q := Has(Share(o, from, to, t, f), m);
    LastOfFacts(ids, q);
    if LastOf(ids, q).None? {
      forall i | 0 <= i < |ids| ensures !Brings(o, from, to, ids[i], t, f, m) {
        assert !q(ids[i]);
      }
    }
  }

  lemma ArrivingIsBrought(o: Options, from: seq<Row>, to: seq<Row>, ids: seq<string>, t: string, f: Field, m: string)
    ensures var id := Bringer(o, from, to, ids, t, f, m);
      && (m in Arriving(o, from, to, ids, t, f) <==> id.Some?)
      && (id.Some? ==> m in PricesOf(o, id.value, f) && Arriving(o, from, to, ids, t, f)[m] == PricesOf(o, id.value, f)[m])
  {
    FoldIsLast(ids, Share(o, from, to, t, f), m);
  }

  lemma ArrivingPrice(fields: seq<Field>, o: Options, from: seq<Row>, to: seq<Row>, ids: seq<string>, id: string, t: string, f: Field, m: string)
    requires Compatible(fields, o, from, to, ids) && id in ids && f in fields && Brings(o, from, to, id, t, f, m)
    ensures m in Arriving(o, from, to, ids, t, f) && Arriving(o, from, to, ids, t, f)[m] == PricesOf(o, id, f)[m]
  {
    BringerFacts(o, from, to, ids, t, f, m);
    ArrivingIsBrought(o, from, to, ids, t, f, m);
    var i :| 0 <= i < |ids| && ids[i] == id;
    var last := Bringer(o, from, to, ids, t, f, m);
    assert last.Some? && Meet(from, to, last.value, id);
  }

  predicate Holds(after: Options, o: Options, id: string, t: string, f: Field, m: string) {
    m in PricesOf(after, t, f) && m in PricesOf(o, id, f) && PricesOf(after, t, f)[m] == PricesOf(o, id, f)[m]
  }

  // Every exported price holds at every channel it arrives at.
  ghost predicate AllHold(fields: seq<Field>, o: Options, from: seq<Row>, to: seq<Row>, ids: seq<string>, after: Options) {
    forall id, t, f, m :: id in ids && f in fields && Brings(o, from, to, id, t, f, m) ==> Holds(after, o, id, t, f, m)
  }

  lemma PriceHolds(fields: seq<Field>, o: Options, from: seq<Row>, ids: seq<string>, target: Options, to: seq<Row>,
                   id: string, t: string, f: Field, m: string)
    requires Compatible(fields, o, from, to, ids) && id in ids && f in fields && Brings(o, from, to, id, t, f, m)
    ensures Holds(Apply(target, ImportOf(fields, o, from, to, ids)), o, id, t, f, m)
  {
    ExportThenImport(fields, o, from, ids, target, to, Slot(Channel(t), f));
    ArrivingPrice(fields, o, from, to, ids, id, t, f, m);
  }

  // All exported prices hold exactly when exported channels that arrive at the same channel agree
  // wherever both have a price.
  lemma EveryPriceHoldsExactly(fields: seq<Field>, o: Options, from: seq<Row>, ids: seq<string>, target: Options, to: seq<Row>)
    ensures AllHold(fields, o, from, to, ids, Apply(target, ImportOf(fields, o, from, to, ids)))
      <==> Compatible(fields, o, from, to, ids)
  {
    var after := Apply(target, ImportOf(fields, o, from, to, ids));
    if Compatible(fields, o, from, to, ids) {
      forall id, t, f, m | id in ids && f in fields && Brings(o, from, to, id, t, f, m) ensures Holds(after, o, id, t, f, m) {
        PriceHolds(fields, o, from, ids, target, to, id, t, f, m);
      }
    } else {
      var a, b :| a in ids && b in ids && Meet(from, to, a, b) && !SamePrices(fields, o, a, b);
      var t :| t in Targets(from, to, a) && t in Targets(from, to, b);
      var f, m :| f in fields && m in PricesOf(o, a, f) && m in PricesOf(o, b, f) && PricesOf(o, a, f)[m] != PricesOf(o, b, f)[m];
      assert Brings(o, from, to, a, t, f, m) && Brings(o, from, to, b, t, f, m);
      assert !(Holds(after, o, a, t, f, m) && Holds(after, o, b, t, f, m));
    }
  }

  // ---------- the order of an export ----------

  // No write of a plan is empty.
  predicate NoBlanks(p: Plan) {
    p.Then? ==> NoBlanks(p.before) && p.w.src != map[]
  }

  lemma {:induction false} NoBlanksConcat(a: Plan, b: Plan)
    requires NoBlanks(a) && NoBlanks(b)
    ensures NoBlanks(Concat(a, b))
  {
    if b.Then? {
      NoBlanksConcat(a, b.before);
    }
  }

  lemma {:induction false} SyncNoBlanks(owner: Owner, m: ModelMaps, fields: seq<Field>)
    ensures NoBlanks(SyncPlan(owner, m, fields))
  {
    if fields != [] {
      SyncNoBlanks(owner, m, fields[..|fields| - 1]);
    }
  }

  lemma {:induction false} FanOutNoBlanks(fields: seq<Field>, ids: seq<string>, m: ModelMaps)
    ensures NoBlanks(FanOut(fields, ids, m))
  {
    if ids != [] {
      FanOutNoBlanks(fields, ids[..|ids| - 1], m);
      SyncNoBlanks(Channel(ids[|ids| - 1]), m, fields);
      NoBlanksConcat(FanOut(fields, ids[..|ids| - 1], m), SyncPlan(Channel(ids[|ids| - 1]), m, fields));
    }
  }

  lemma {:induction false} EntriesNoBlanks(fields: seq<Field>, dir: seq<Row>, entries: seq<Entry>)
    ensures NoBlanks(EntriesPlan(fields, dir, entries))
  {
    if entries != [] {
      var init, e := entries[..|entries| - 1], entries[|entries| - 1];
      EntriesNoBlanks(fields, dir, init);
      FanOutNoBlanks(fields, IdsNamed(dir, Text.TrimSpace(e.name)), e.models);
      NoBlanksConcat(EntriesPlan(fields, dir, init), EntryPlan(fields, dir, e));
    }
  }

  lemma MergeIsNotEmpty(a: Prices, b: Prices)
    requires b != map[]
    ensures a + b != map[]
  {
    var k :| k in b;
    assert k in a + b;
  }

  lemma {:induction false} PresentExactly(o: Options, p: Plan, s: Slot)
    requires NoBlanks(p)
    ensures s in Apply(o, p) <==> s in o || Cargo(p, s) != map[]
  {
    match p
    case Empty =>
    case Then(before, w) =>
      PresentExactly(o, before, s);
      MergeIsNotEmpty(Cargo(before, s), w.src);
  }

  // Plans that bring the same to every slot have the same effect.
  lemma SameCargoSameEffect(o: Options, p: Plan, q: Plan)
    requires NoBlanks(p) && NoBlanks(q) && forall s :: Cargo(p, s) == Cargo(q, s)
    ensures Apply(o, p) == Apply(o, q)
  {
    forall s ensures SameAt(Apply(o, p), Apply(o, q), s) {
      PresentExactly(o, p, s);
      PresentExactly(o, q, s);
      ApplyCargo(o, p, s);
      ApplyCargo(o, q, s);
    }
    SameEverywhere(Apply(o, p), Apply(o, q));
  }

  lemma PayloadNoBlanks(fields: seq<Field>, source: Options, from: seq<Row>, ids: seq<string>, to: seq<Row>)
    ensures NoBlanks(ImportOf(fields, source, from, to, ids))
  {
    SyncNoBlanks(Global, Extract(fields, source, Global), fields);
    EntriesNoBlanks(fields, to, Entries(fields, source, from, ids));
    NoBlanksConcat(SyncPlan(Global, Extract(fields, source, Global), fields), EntriesPlan(fields, to, Entries(fields, source, from, ids)));
  }

  // The same channels in another order.
  ghost predicate Reordered(ids: seq<string>, ids': seq<string>) {
    Distinct(ids') && forall id :: id in ids <==> id in ids'
  }

  lemma SameArriving(fields: seq<Field>, o: Options, from: seq<Row>, to: seq<Row>, ids: seq<string>, ids': seq<string>, t: string, f: Field)
    requires Compatible(fields, o, from, to, ids) && Reordered(ids, ids') && f in fields
    ensures Arriving(o, from, to, ids, t, f) == Arriving(o, from, to, ids', t, f)
  {
    var x, y := Arriving(o, from, to, ids, t, f), Arriving(o, from, to, ids', t, f);
    forall m ensures m in x <==> m in y {
      SameBrought(fields, o, from, to, ids, ids', t, f, m);
    }
    forall m | m in x ensures x[m] == y[m] {
      SameBrought(fields, o, from, to, ids, ids', t, f, m);
    }
    assert x.Keys == y.Keys;
  }

  lemma SameBrought(fields: seq<Field>, o: Options, from: seq<Row>, to: seq<Row>, ids: seq<string>, ids': seq<string>,
                    t: string, f: Field, m: string)
    requires Compatible(fields, o, from, to, ids) && Reordered(ids, ids') && f in fields
    ensures var x, y := Arriving(o, from, to, ids, t, f), Arriving(o, from, to, ids', t, f);
      (m in x <==> m in y) && (m in x ==> x[m] == y[m])
  {
    BringerFacts(o, from, to, ids, t, f, m);
    BringerFacts(o, from, to, ids', t, f, m);
    ArrivingIsBrought(o, from, to, ids, t, f, m);
    ArrivingIsBrought(o, from, to, ids', t, f, m);
    var a, b := Bringer(o, from, to, ids, t, f, m), Bringer(o, from, to, ids', t, f, m);
    if a.Some? {
      var i :| 0 <= i < |ids'| && ids'[i] == a.value;
    }
    if b.Some? {
      ArrivingPrice(fields, o, from, to, ids, b.value, t, f, m);
    }
  }

  lemma SameEffect(fields: seq<Field>, o: Options, from: seq<Row>, ids: seq<string>, ids': seq<string>, target: Options, to: seq<Row>)
    requires Compatible(fields, o, from, to, ids) && Reordered(ids, ids')
    ensures Apply(target, ImportOf(fields, o, from, to, ids)) == Apply(target, ImportOf(fields, o, from, to, ids'))
  {
    var p, q := ImportOf(fields, o, from, to, ids), ImportOf(fields, o, from, to, ids');
    PayloadNoBlanks(fields, o, from, ids, to);
    PayloadNoBlanks(fields, o, from, ids', to);
    forall s ensures Cargo(p, s) == Cargo(q, s) {
      CargoOfImport(fields, o, from, to, ids, s);
      CargoOfImport(fields, o, from, to, ids', s);
      if s.owner.Channel? && s.field in fields {
        SameArriving(fields, o, from, to, ids, ids', s.owner.id, s.field);
      }
    }
    SameCargoSameEffect(target, p, q);
  }

  function Without(ids: seq<string>, a: string): seq<string> {
    if ids == [] then []
    else Without(ids[..|ids| - 1], a) + if ids[|ids| - 1] == a then [] else [ids[|ids| - 1]]
  }

  lemma {:induction false} WithoutMembers(ids: seq<string>, a: string, id: string)
    ensures id in Without(ids, a) <==> id in ids && id != a
  {
    if ids != [] {
      var n := |ids| - 1;
      WithoutMembers(ids[..n], a, id);
      assert ids == ids[..n] + [ids[n]];
    }
  }

  lemma {:induction false} WithoutDistinct(ids: seq<string>, a: string)
    requires Distinct(ids)
    ensures Distinct(Without(ids, a))
  {
    if ids != [] {
      var n := |ids| - 1;
      WithoutDistinct(ids[..n], a);
      WithoutMembers(ids[..n], a, ids[n]);
      DistinctSnoc(Without(ids[..n], a), ids[n]);
    }
  }

  lemma DistinctSnoc(ids: seq<string>, id: string)
    requires Distinct(ids)
    ensures id !in ids ==> Distinct(ids + [id])
  {}

  // The order in which one channel comes last.
  function Last(ids: seq<string>, a: string): seq<string> {
    Without(ids, a) + [a]
  }

  lemma LastIsReordered(ids: seq<string>, a: string)
    requires Distinct(ids) && a in ids
    ensures Reordered(ids, Last(ids, a))
  {
    forall id ensures id in ids <==> id in Last(ids, a) {
      WithoutMembers(ids, a, id);
    }
    WithoutMembers(ids, a, a);
    WithoutDistinct(ids, a);
    DistinctSnoc(Without(ids, a), a);
  }

  lemma LastWins(fields: seq<Field>, o: Options, from: seq<Row>, ids: seq<string>, target: Options, to: seq<Row>,
                 a: string, t: string, f: Field, m: string)
    requires f in fields && Brings(o, from, to, a, t, f, m)
    ensures Holds(Apply(target, ImportOf(fields, o, from, to, Last(ids, a))), o, a, t, f, m)
  {
    assert Last(ids, a)[..|Last(ids, a)| - 1] == Without(ids, a);
    ExportThenImport(fields, o, from, Last(ids, a), target, to, Slot(Channel(t), f));
  }

  // The order in which an export lists its channels, which is that of a Go map, makes no
  // difference at the target.
  ghost predicate OrderIsIrrelevant(fields: seq<Field>, o: Options, from: seq<Row>, ids: seq<string>, target: Options, to: seq<Row>) {
    forall ids' :: Reordered(ids, ids') ==>
      Apply(target, ImportOf(fields, o, from, to, ids')) == Apply(target, ImportOf(fields, o, from, to, ids))
  }

  // It makes no difference exactly when exported channels that arrive at the same channel agree.
  lemma OrderIsIrrelevantExactly(fields: seq<Field>, o: Options, from: seq<Row>, ids: seq<string>, target: Options, to: seq<Row>)
    requires Distinct(ids)
    ensures OrderIsIrrelevant(fields, o, from, ids, target, to) <==> Compatible(fields, o, from, to, ids)
  {
    if Compatible(fields, o, from, to, ids) {
      forall ids' | Reordered(ids, ids')
        ensures Apply(target, ImportOf(fields, o, from, to, ids')) == Apply(target, ImportOf(fields, o, from, to, ids))
      {
        SameEffect(fields, o, from, ids, ids', target, to);
      }
    } else {
      var a, b :| a in ids && b in ids && Meet(from, to, a, b) && !SamePrices(fields, o, a, b);
      var t :| t in Targets(from, to, a) && t in Targets(from, to, b);
      var f, m :| f in fields && m in PricesOf(o, a, f) && m in PricesOf(o, b, f) && PricesOf(o, a, f)[m] != PricesOf(o, b, f)[m];
      LastIsReordered(ids, a);
      LastIsReordered(ids, b);
      LastWins(fields, o, from, ids, target, to, a, t, f, m);
      LastWins(fields, o, from, ids, target, to, b, t, f, m);
    }
  }
}
