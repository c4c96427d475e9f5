/** Importing prices: incoming maps are merged into what a site already has, field by field, and
    nothing is ever removed. Options are stored as JSON; a map is taken to survive being stored
    and loaded. */
module PriceTransfer {
  import opened Wrappers
  import Text

  // The scalar price fields, then the fields holding nested rules, in the order in which the
  // source processes them.
  datatype Field =
    | ModelPrice | ModelRatio | CompletionRatio | CacheRatio | CreateCacheRatio | ImageRatio
    | AudioRatio | AudioCompletionRatio | VideoRatio | VideoCompletionRatio | VideoPrice | ImagePrice
    | VideoPricingRules | ImagePricingRules | ModelTierRatio | CompletionTierRatio | CacheTierRatio | CreateCacheTierRatio

  const FIELDS: seq<Field> := [
    ModelPrice, ModelRatio, CompletionRatio, CacheRatio, CreateCacheRatio, ImageRatio,
    AudioRatio, AudioCompletionRatio, VideoRatio, VideoCompletionRatio, VideoPrice, ImagePrice,
    VideoPricingRules, ImagePricingRules, ModelTierRatio, CompletionTierRatio, CacheTierRatio, CreateCacheTierRatio]

  datatype Price = Number(value: real) | Rules(json: string)
  type Prices = map<string, Price>
  type ModelMaps = map<Field, Prices>

  // A field of the global options, or of one channel's part of the channel options.
  datatype Owner = Global | Channel(id: string)
  datatype Slot = Slot(owner: Owner, field: Field)
  type Options = map<Slot, Prices>

  datatype Entry = Entry(name: string, models: ModelMaps)
  datatype Payload = Payload(global: ModelMaps, channels: seq<Entry>)
  datatype Row = Row(id: string, name: string)

  datatype Stat = Stat(name: string, added: int, updated: int)
  datatype ImportResult = ImportResult(globalAdded: int, globalUpdated: int, stats: seq<Stat>, skipped: seq<string>)

  const DELETED := "__deleted__channel_id_"

  function In(m: ModelMaps, f: Field): Prices {
    if f in m then m[f] else map[]
  }

  function Get(o: Options, s: Slot): Prices {
    if s in o then o[s] else map[]
  }

  predicate IsEmpty(fields: seq<Field>, m: ModelMaps) {
    forall f :: f in fields ==> In(m, f) == map[]
  }

  // ---------- merging one map ----------

  // How many keys of src are new to dst, as the growth of the map.
  function Growth(dst: Prices, src: Prices): int {
    |dst + src| - |dst|
  }

  lemma UnionSize(a: set<string>, b: set<string>)
    ensures |a + b| - |a| == |b - a|
    ensures |b| - |b - a| == |b * a|
  {
    assert a + b == a + (b - a);
    assert b == (b - a) + (b * a);
  }

  // The growth is the number of new keys, and what is left over the number of known ones.
  lemma GrowthCountsNewKeys(dst: Prices, src: Prices)
    ensures Growth(dst, src) == |src.Keys - dst.Keys|
    ensures |src| - Growth(dst, src) == |src.Keys * dst.Keys|
  {
    UnionSize(dst.Keys, src.Keys);
    assert (dst + src).Keys == dst.Keys + src.Keys;
    assert |dst + src| == |(dst + src).Keys| && |dst| == |dst.Keys| && |src| == |src.Keys|;
  }

  // The keys in todo are still to be merged.
  ghost predicate Merged(dst: Prices, src: Prices, todo: set<string>, merged: Prices) {
    && (forall k :: k in merged <==> k in dst || (k in src && k !in todo))
    && (forall k :: k in merged ==> merged[k] == if k in src && k !in todo then src[k] else dst[k])
  }

  lemma MergedAll(dst: Prices, src: Prices, merged: Prices)
    requires Merged(dst, src, {}, merged)
    ensures merged == dst + src
  {}

  method MergeCounting(dst: Prices, src: Prices) returns (merged: Prices, added: nat, updated: nat)
    ensures merged == dst + src
    ensures added == Growth(dst, src) && updated == |src| - Growth(dst, src)
  {
    merged, added, updated := dst, 0, 0;
    var todo := src.Keys;
    while todo != {}
      invariant todo <= src.Keys
      invariant Merged(dst, src, todo, merged)
      invariant |merged| == |dst| + added
      invariant added + updated + |todo| == |src|
      decreases |todo|
    {
      var k :| k in todo;
      if k in merged {
        updated := updated + 1;
      } else {
        added := added + 1;
      }
      merged := merged[k := src[k]];
      todo := todo - {k};
    }
    MergedAll(dst, src, merged);
  }

  // ---------- imports as plans of writes ----------

  datatype Write = Write(slot: Slot, src: Prices)

  // The writes of an import, in order.
  datatype Plan = Empty | Then(before: Plan, w: Write)

  function Concat(a: Plan, b: Plan): Plan {
    match b
    case Empty => a
    case Then(before, w) => Then(Concat(a, before), w)
  }

  function Do(o: Options, w: Write): Options {
    o[w.slot := Get(o, w.slot) + w.src]
  }

  function Apply(o: Options, p: Plan): Options {
    match p
    case Empty => o
    case Then(before, w) => Do(Apply(o, before), w)
  }

  function Added(o: Options, p: Plan): int {
    match p
    case Empty => 0
    case Then(before, w) => Added(o, before) + Growth(Get(Apply(o, before), w.slot), w.src)
  }

  function Size(p: Plan): nat {
    match p
    case Empty => 0
    case Then(before, w) => Size(before) + |w.src|
  }

  lemma {:induction false} ConcatAssoc(a: Plan, b: Plan, c: Plan)
    ensures Concat(Concat(a, b), c) == Concat(a, Concat(b, c))
  {
    if c.Then? {
      ConcatAssoc(a, b, c.before);
    }
  }

  // Every incoming price is counted once: what does not add, updates.
  function Updated(o: Options, p: Plan): int {
    Size(p) - Added(o, p)
  }

  lemma {:induction false} ApplyConcat(o: Options, a: Plan, b: Plan)
    ensures Apply(o, Concat(a, b)) == Apply(Apply(o, a), b)
  {
    if b.Then? {
      ApplyConcat(o, a, b.before);
    }
  }

  lemma {:induction false} CountsConcat(o: Options, a: Plan, b: Plan)
    ensures Added(o, Concat(a, b)) == Added(o, a) + Added(Apply(o, a), b)
    ensures Size(Concat(a, b)) == Size(a) + Size(b)
  {
    if b.Then? {
      CountsConcat(o, a, b.before);
      ApplyConcat(o, a, b.before);
    }
  }

  // ---------- writes that are stored and then rejected ----------

  // The option that holds a slot: one for each global field, and one for each channel field
  // with the prices of all channels.
  datatype OptionKey = OptionKey(global: bool, field: Field)

  function KeyOf(s: Slot): OptionKey {
    OptionKey(s.owner.Global?, s.field)
  }

  function Stored(o: Options, key: OptionKey): Options {
    map s | s in o && KeyOf(s) == key :: o[s]
  }

  // Whether the rest of the program can read an option, which is found out after it has been
  // stored.
  type Accepts = (OptionKey, Options) -> bool

  predicate Readable(accepts: Accepts, o: Options, s: Slot) {
    accepts(KeyOf(s), Stored(o, KeyOf(s)))
  }

  // Every write of the plan leaves a readable option.
  predicate Accepted(accepts: Accepts, o: Options, p: Plan) {
    match p
    case Empty => true
    case Then(before, w) => Accepted(accepts, o, before) && Readable(accepts, Apply(o, p), w.slot)
  }

  // The options after a plan that ends with its first rejected write, which is stored.
  function Carry(accepts: Accepts, o: Options, p: Plan): Options {
    match p
    case Empty => o
    case Then(before, w) => if Accepted(accepts, o, before) then Apply(o, p) else Carry(accepts, o, before)
  }

  lemma CarryAccepted(accepts: Accepts, o: Options, p: Plan)
    ensures Accepted(accepts, o, p) ==> Carry(accepts, o, p) == Apply(o, p)
  {}

  lemma {:induction false} AcceptedConcat(accepts: Accepts, o: Options, a: Plan, b: Plan)
    ensures Accepted(accepts, o, Concat(a, b)) <==> Accepted(accepts, o, a) && Accepted(accepts, Apply(o, a), b)
    ensures Accepted(accepts, o, a) ==> Carry(accepts, o, Concat(a, b)) == Carry(accepts, Apply(o, a), b)
    ensures !Accepted(accepts, o, a) ==> Carry(accepts, o, Concat(a, b)) == Carry(accepts, o, a)
  {
    if b.Then? {
      AcceptedConcat(accepts, o, a, b.before);
      ApplyConcat(o, a, b);
    }
  }

  // The counters never go down, and never exceed what comes in.
  lemma {:induction false} CountsInRange(o: Options, p: Plan)
    ensures 0 <= Added(o, p) <= Size(p)
  {
    if p.Then? {
      CountsInRange(o, p.before);
      GrowthCountsNewKeys(Get(Apply(o, p.before), p.w.slot), p.w.src);
    }
  }

  ghost predicate Keeps(o: Options, o': Options) {
    forall s, m :: m in Get(o, s) ==> m in Get(o', s)
  }

  // No import removes a price.
  lemma {:induction false} ApplyKeepsKeys(o: Options, p: Plan)
    ensures Keeps(o, Apply(o, p))
  {
    if p.Then? {
      ApplyKeepsKeys(o, p.before);
    }
  }

  // Every price the plan writes is there already.
  predicate Covered(o: Options, p: Plan) {
    p.Then? ==> Covered(o, p.before) && p.w.src.Keys <= Get(o, p.w.slot).Keys
  }

  lemma {:induction false} CoveredLater(o: Options, o': Options, p: Plan)
    requires Covered(o, p) && Keeps(o, o')
    ensures Covered(o', p)
  {
    if p.Then? {
      CoveredLater(o, o', p.before);
    }
  }

  lemma {:induction false} ApplyCovers(o: Options, p: Plan)
    ensures Covered(Apply(o, p), p)
  {
    if p.Then? {
      ApplyCovers(o, p.before);
      ApplyKeepsKeys(Apply(o, p.before), Then(Empty, p.w));
      CoveredLater(Apply(o, p.before), Apply(o, p), p.before);
    }
  }

  // Two states that differ only where a write is about to go.
  ghost predicate SameAfter(a: Options, b: Options, w: Write) {
    && (forall s :: s != w.slot ==> SameAt(a, b, s))
    && Get(a, w.slot) + w.src == Get(b, w.slot) + w.src
  }

  predicate SameAt(a: Options, b: Options, s: Slot) {
    (s in a <==> s in b) && (s in a ==> a[s] == b[s])
  }

  lemma SameAfterDo(a: Options, b: Options, w: Write)
    requires SameAfter(a, b, w)
    ensures Do(a, w) == Do(b, w)
  {
    var x, y := Do(a, w), Do(b, w);
    forall s ensures SameAt(x, y, s) {
      assert s != w.slot ==> SameAt(a, b, s);
    }
    SameEverywhere(x, y);
  }

  lemma SameEverywhere(x: Options, y: Options)
    requires forall s :: SameAt(x, y, s)
    ensures x == y
  {
    assert x.Keys == y.Keys by {
      forall s ensures s in x <==> s in y {
        assert SameAt(x, y, s);
      }
    }
    forall s | s in x ensures x[s] == y[s] {
      assert SameAt(x, y, s);
    }
  }

  lemma DoKeepsSameAfter(a: Options, b: Options, w: Write, v: Write)
    requires SameAfter(a, b, w)
    ensures SameAfter(Do(a, v), Do(b, v), w)
  {
    forall s | s != w.slot ensures SameAt(Do(a, v), Do(b, v), s) {
      assert SameAt(a, b, s);
    }
    if v.slot == w.slot {
      MergeForgets(Get(a, w.slot), Get(b, w.slot), v.src, w.src);
    }
  }

  lemma MergeForgets(a: Prices, b: Prices, v: Prices, w: Prices)
    requires a + w == b + w
    ensures (a + v) + w == (b + v) + w
  {
    var x, y := (a + v) + w, (b + v) + w;
    forall k | k !in w ensures k in a <==> k in b {
      assert k in a <==> k in a + w;
      assert k in b <==> k in b + w;
    }
    forall k | k !in w && k in a ensures a[k] == b[k] {
      assert a[k] == (a + w)[k] && b[k] == (b + w)[k];
    }
    assert x.Keys == y.Keys;
  }

  lemma {:induction false} ApplyKeepsSameAfter(a: Options, b: Options, w: Write, p: Plan)
    requires SameAfter(a, b, w)
    ensures SameAfter(Apply(a, p), Apply(b, p), w)
  {
    if p.Then? {
      ApplyKeepsSameAfter(a, b, w, p.before);
      DoKeepsSameAfter(Apply(a, p.before), Apply(b, p.before), w, p.w);
    }
  }

  // Carrying out the same plan again changes nothing, even when its writes overlap.
  lemma {:induction false} ApplyTwice(o: Options, p: Plan)
    ensures Apply(Apply(o, p), p) == Apply(o, p)
  {
    if p.Then? {
      var mid := Apply(o, p.before);
      ApplyTwice(o, p.before);
      assert SameAfter(Do(mid, p.w), mid, p.w) by {
        assert (Get(mid, p.w.slot) + p.w.src) + p.w.src == Get(mid, p.w.slot) + p.w.src;
      }
      ApplyKeepsSameAfter(Do(mid, p.w), mid, p.w, p.before);
      SameAfterDo(Apply(Do(mid, p.w), p.before), Apply(mid, p.before), p.w);
    }
  }

  // And it adds nothing.
  lemma {:induction false} NothingNew(o: Options, p: Plan)
    requires Covered(o, p)
    ensures Added(o, p) == 0
  {
    if p.Then? {
      NothingNew(o, p.before);
      ApplyKeepsKeys(o, p.before);
      GrowthCountsNewKeys(Get(Apply(o, p.before), p.w.slot), p.w.src);
      assert p.w.src.Keys - Get(Apply(o, p.before), p.w.slot).Keys == {};
    }
  }

  // ---------- which writes a payload stands for ----------

  function SyncPlan(owner: Owner, m: ModelMaps, fields: seq<Field>): Plan {
    if fields == [] then Empty
    else
      var f := fields[|fields| - 1];
      var before := SyncPlan(owner, m, fields[..|fields| - 1]);
      if In(m, f) == map[] then before else Then(before, Write(Slot(owner, f), In(m, f)))
  }

  lemma SyncOneMore(owner: Owner, m: ModelMaps, fields: seq<Field>, n: nat)
    requires n < |fields|
    ensures SyncPlan(owner, m, fields[..n + 1])
      == var before := SyncPlan(owner, m, fields[..n]);
         var src := In(m, fields[n]);
         if |src| == 0 then before else Then(before, Write(Slot(owner, fields[n]), src))
  {
    assert fields[..n + 1][..n] == fields[..n];
  }

  function FanOut(fields: seq<Field>, ids: seq<string>, m: ModelMaps): Plan {
    if ids == [] then Empty
    else Concat(FanOut(fields, ids[..|ids| - 1], m), SyncPlan(Channel(ids[|ids| - 1]), m, fields))
  }

  function IdsNamed(dir: seq<Row>, name: string): seq<string> {
    if dir == [] then []
    else IdsNamed(dir[..|dir| - 1], name) + if dir[|dir| - 1].name == name then [dir[|dir| - 1].id] else []
  }

  // An entry is passed over when its name is blank, stands for a deleted channel or is
  // unknown at the target, or when it carries no price.
  predicate Passed(fields: seq<Field>, e: Entry) {
    Text.TrimSpace(e.name) == "" || DELETED <= Text.TrimSpace(e.name) || IsEmpty(fields, e.models)
  }

  function EntryPlan(fields: seq<Field>, dir: seq<Row>, e: Entry): Plan {
    if Passed(fields, e) then Empty else FanOut(fields, IdsNamed(dir, Text.TrimSpace(e.name)), e.models)
  }

  function EntriesPlan(fields: seq<Field>, dir: seq<Row>, entries: seq<Entry>): Plan {
    if entries == [] then Empty
    else Concat(EntriesPlan(fields, dir, entries[..|entries| - 1]), EntryPlan(fields, dir, entries[|entries| - 1]))
  }

  function PayloadPlan(fields: seq<Field>, dir: seq<Row>, p: Payload): Plan {
    Concat(SyncPlan(Global, p.global, fields), EntriesPlan(fields, dir, p.channels))
  }

  predicate Rejected(fields: seq<Field>, p: Payload) {
    IsEmpty(fields, p.global) && p.channels == []
  }

  // ---------- what an import reports ----------

  predicate Reaches(fields: seq<Field>, dir: seq<Row>, e: Entry) {
    !Passed(fields, e) && IdsNamed(dir, Text.TrimSpace(e.name)) != []
  }

  // One line of statistics for an entry that reaches a channel.
  function EntryStats(o: Options, fields: seq<Field>, dir: seq<Row>, e: Entry): seq<Stat> {
    if !Reaches(fields, dir, e) then []
    else
      var plan := EntryPlan(fields, dir, e);
      [Stat(Text.TrimSpace(e.name), Added(o, plan), Updated(o, plan))]
  }

  function EntrySkips(fields: seq<Field>, dir: seq<Row>, e: Entry): seq<string> {
    var name := Text.TrimSpace(e.name);
    if name != "" && (DELETED <= name || (!IsEmpty(fields, e.models) && IdsNamed(dir, name) == [])) then [name] else []
  }

  function Stats(o: Options, fields: seq<Field>, dir: seq<Row>, entries: seq<Entry>): seq<Stat> {
    if entries == [] then []
    else
      var init := entries[..|entries| - 1];
      Stats(o, fields, dir, init)
        + EntryStats(Apply(o, EntriesPlan(fields, dir, init)), fields, dir, entries[|entries| - 1])
  }

  function Skipped(fields: seq<Field>, dir: seq<Row>, entries: seq<Entry>): seq<string> {
    if entries == [] then []
    else Skipped(fields, dir, entries[..|entries| - 1]) + EntrySkips(fields, dir, entries[|entries| - 1])
  }

  predicate Reported(o: Options, fields: seq<Field>, dir: seq<Row>, p: Payload, r: ImportResult) {
    var global := SyncPlan(Global, p.global, fields);
    && r.globalAdded == Added(o, global) && r.globalUpdated == Updated(o, global)
    && r.stats == Stats(Apply(o, global), fields, dir, p.channels)
    && r.skipped == Skipped(fields, dir, p.channels)
  }

  // ---------- the site ----------

  lemma {:induction false} SyncSplit(owner: Owner, m: ModelMaps, fields: seq<Field>, n: nat) returns (rest: Plan)
    requires n <= |fields|
    ensures SyncPlan(owner, m, fields) == Concat(SyncPlan(owner, m, fields[..n]), rest)
  {
    if n == |fields| {
      assert fields[..n] == fields;
      rest := Empty;
    } else {
      var last := |fields| - 1;
      var r := SyncSplit(owner, m, fields[..last], n);
      assert fields[..last][..n] == fields[..n];
      rest := if In(m, fields[last]) == map[] then r else Then(r, Write(Slot(owner, fields[last]), In(m, fields[last])));
    }
  }

  lemma {:induction false} FanOutSplit(fields: seq<Field>, ids: seq<string>, m: ModelMaps, n: nat) returns (rest: Plan)
    requires n <= |ids|
    ensures FanOut(fields, ids, m) == Concat(FanOut(fields, ids[..n], m), rest)
  {
    if n == |ids| {
      assert ids[..n] == ids;
      rest := Empty;
    } else {
      var last := |ids| - 1;
      var r := FanOutSplit(fields, ids[..last], m, n);
      assert ids[..last][..n] == ids[..n];
      var more := SyncPlan(Channel(ids[last]), m, fields);
      ConcatAssoc(FanOut(fields, ids[..n], m), r, more);
      rest := Concat(r, more);
    }
  }

  lemma {:induction false} EntriesSplit(fields: seq<Field>, dir: seq<Row>, entries: seq<Entry>, n: nat) returns (rest: Plan)
    requires n <= |entries|
    ensures EntriesPlan(fields, dir, entries) == Concat(EntriesPlan(fields, dir, entries[..n]), rest)
  {
    if n == |entries| {
      assert entries[..n] == entries;
      rest := Empty;
    } else {
      var last := |entries| - 1;
      var r := EntriesSplit(fields, dir, entries[..last], n);
      assert entries[..last][..n] == entries[..n];
      var more := EntryPlan(fields, dir, entries[last]);
      ConcatAssoc(EntriesPlan(fields, dir, entries[..n]), r, more);
      rest := Concat(r, more);
    }
  }

  // What a plan has led to, and whether it was carried out whole.
  ghost predicate Carried(accepts: Accepts, before: Options, plan: Plan, after: Options, ok: bool) {
    after == Carry(accepts, before, plan) && (ok <==> Accepted(accepts, before, plan))
  }

  // A failure inside one part of a plan leaves the plan cut short there.
  lemma CarriedCut(accepts: Accepts, o: Options, before: Plan, mid: Options, more: Plan, rest: Plan, after: Options)
    requires Carried(accepts, o, before, mid, true) && Carried(accepts, mid, more, after, false)
    ensures Carried(accepts, o, Concat(Concat(before, more), rest), after, false)
  {
    CarryAccepted(accepts, o, before);
    AcceptedConcat(accepts, o, before, more);
    AcceptedConcat(accepts, o, Concat(before, more), rest);
  }

  lemma CarriedOn(accepts: Accepts, o: Options, before: Plan, mid: Options, more: Plan, after: Options)
    requires Carried(accepts, o, before, mid, true) && Carried(accepts, mid, more, after, true)
    ensures Carried(accepts, o, Concat(before, more), after, true)
    ensures Added(o, Concat(before, more)) == Added(o, before) + Added(mid, more)
    ensures Updated(o, Concat(before, more)) == Updated(o, before) + Updated(mid, more)
  {
    CarryAccepted(accepts, o, before);
    AcceptedConcat(accepts, o, before, more);
    CountsConcat(o, before, more);
  }

  lemma CarriedWrite(accepts: Accepts, o: Options, before: Plan, mid: Options, w: Write)
    requires Carried(accepts, o, before, mid, true)
    ensures Carried(accepts, o, Then(before, w), Do(mid, w), Readable(accepts, Do(mid, w), w.slot))
    ensures Added(o, Then(before, w)) == Added(o, before) + Growth(Get(mid, w.slot), w.src)
    ensures Updated(o, Then(before, w)) == Updated(o, before) + |w.src| - Growth(Get(mid, w.slot), w.src)
  {
    CarryAccepted(accepts, o, before);
  }

  lemma FirstPartFailed(accepts: Accepts, o: Options, first: Plan, second: Plan, after: Options)
    requires Carried(accepts, o, first, after, false)
    ensures Carried(accepts, o, Concat(first, second), after, false)
  {
    AcceptedConcat(accepts, o, first, second);
  }

  lemma OneMoreEntry(o: Options, fields: seq<Field>, dir: seq<Row>, entries: seq<Entry>, n: nat)
    requires n < |entries|
    ensures var before, e := entries[..n], entries[n];
      && EntriesPlan(fields, dir, entries[..n + 1]) == Concat(EntriesPlan(fields, dir, before), EntryPlan(fields, dir, e))
      && Stats(o, fields, dir, entries[..n + 1])
        == Stats(o, fields, dir, before) + EntryStats(Apply(o, EntriesPlan(fields, dir, before)), fields, dir, e)
      && Skipped(fields, dir, entries[..n + 1]) == Skipped(fields, dir, before) + EntrySkips(fields, dir, e)
  {
    assert entries[..n + 1][..n] == entries[..n];
  }

  class Site {
    var options: Options
    const accepts: Accepts
    const directory: seq<Row>
    const fields: seq<Field>

    constructor (options: Options, accepts: Accepts, directory: seq<Row>)
      ensures this.options == options && this.accepts == accepts && this.directory == directory && fields == FIELDS
    {
      this.options := options;
      this.accepts := accepts;
      this.directory := directory;
      this.fields := FIELDS;
    }

    // Reads one option, merges into it and writes it back. An option that cannot be read
    // afterwards is an error and stays stored.
    method MergeInto(slot: Slot, src: Prices) returns (ok: bool, added: int, updated: int)
      modifies this`options
      ensures options == Do(old(options), Write(slot, src))
      ensures ok <==> Readable(accepts, options, slot)
      ensures added == Growth(Get(old(options), slot), src) && updated == |src| - added
    {
      var current := Get(options, slot);
      var merged;
      merged, added, updated := MergeCounting(current, src);
      options := options[slot := merged];
      ok := accepts(KeyOf(slot), Stored(options, KeyOf(slot)));
    }

    // doSyncGlobalPrices and doSyncChannelPrices: field by field, read, merge, write back,
    // until a write fails.
    method SyncPrices(owner: Owner, incoming: ModelMaps) returns (ok: bool, totalAdded: int, totalUpdated: int)
      modifies this`options
      ensures var plan := SyncPlan(owner, incoming, fields);
        && Carried(accepts, old(options), plan, options, ok)
        && (ok ==> totalAdded == Added(old(options), plan) && totalUpdated == Updated(old(options), plan))
    {
      totalAdded, totalUpdated := 0, 0;
      ghost var o, plan := options, Empty;
      for n := 0 to |fields|
        invariant plan == SyncPlan(owner, incoming, fields[..n])
        invariant Carried(accepts, o, plan, options, true)
        invariant totalAdded == Added(o, plan) && totalUpdated == Updated(o, plan)
      {
        SyncOneMore(owner, incoming, fields, n);
        var src := In(incoming, fields[n]);
        if |src| != 0 {
          var slot := Slot(owner, fields[n]);
          ghost var mid := options;
          var done, added, updated := MergeInto(slot, src);
          CarriedWrite(accepts, o, plan, mid, Write(slot, src));
          if !done {
            ghost var rest := SyncSplit(owner, incoming, fields, n + 1);
            FirstPartFailed(accepts, o, Then(plan, Write(slot, src)), rest, options);
            return false, totalAdded, totalUpdated;
          }
          totalAdded := totalAdded + added;
          totalUpdated := totalUpdated + updated;
          plan := Then(plan, Write(slot, src));
        }
      }
      assert fields[..|fields|] == fields;
      ok := true;
    }

    method SyncChannels(ids: seq<string>, incoming: ModelMaps) returns (ok: bool, totalAdded: int, totalUpdated: int)
      modifies this`options
      ensures var plan := FanOut(fields, ids, incoming);
        && Carried(accepts, old(options), plan, options, ok)
        && (ok ==> totalAdded == Added(old(options), plan) && totalUpdated == Updated(old(options), plan))
    {
      totalAdded, totalUpdated := 0, 0;
      ghost var o, before := options, Empty;
      for n := 0 to |ids|
        invariant before == FanOut(fields, ids[..n], incoming)
        invariant Carried(accepts, o, before, options, true)
        invariant totalAdded == Added(o, before) && totalUpdated == Updated(o, before)
      {
        ghost var mid := options;
        var done, added, updated := SyncPrices(Channel(ids[n]), incoming);
        ghost var more := SyncPlan(Channel(ids[n]), incoming, fields);
        assert ids[..n + 1][..n] == ids[..n];
        if !done {
          ghost var rest := FanOutSplit(fields, ids, incoming, n + 1);
          CarriedCut(accepts, o, before, mid, more, rest, options);
          return false, totalAdded, totalUpdated;
        }
        totalAdded := totalAdded + added;
        totalUpdated := totalUpdated + updated;
        CarriedOn(accepts, o, before, mid, more, options);
        before := Concat(before, more);
      }
      assert ids[..|ids|] == ids;
      ok := true;
    }

    // One turn of the loop over the payload's channel entries.
    method ImportEntry(e: Entry) returns (ok: bool, stats: seq<Stat>, skipped: seq<string>)
      modifies this`options
      ensures Carried(accepts, old(options), EntryPlan(fields, directory, e), options, ok)
      ensures ok ==> stats == EntryStats(old(options), fields, directory, e)
      ensures ok ==> skipped == EntrySkips(fields, directory, e)
    {
      ok, stats, skipped := true, [], [];
      var name := Text.TrimSpace(e.name);
      if name == "" {
        return;
      }
      if DELETED <= name {
        skipped := [name];
        return;
      }
      if IsEmpty(fields, e.models) {
        return;
      }
      var ids := IdsNamed(directory, name);
      if |ids| == 0 {
        skipped := [name];
        return;
      }
      var added, updated;
      ok, added, updated := SyncChannels(ids, e.models);
      if ok {
        stats := [Stat(name, added, updated)];
      }
    }

    // The same turn, seen as the next part of a plan that began at o.
    method ImportNext(ghost o: Options, ghost before: Plan, e: Entry) returns (ok: bool, stats: seq<Stat>, skipped: seq<string>)
      requires Carried(accepts, o, before, options, true)
      modifies this`options
      ensures var more := EntryPlan(fields, directory, e);
        && (ok ==> Carried(accepts, o, Concat(before, more), options, true))
        && (!ok ==> forall rest :: Carried(accepts, o, Concat(Concat(before, more), rest), options, false))
      ensures ok ==> stats == EntryStats(Apply(o, before), fields, directory, e)
      ensures ok ==> skipped == EntrySkips(fields, directory, e)
    {
      ghost var mid := options;
      ok, stats, skipped := ImportEntry(e);
      ghost var more := EntryPlan(fields, directory, e);
      if ok {
        CarriedOn(accepts, o, before, mid, more, options);
      } else {
        forall rest ensures Carried(accepts, o, Concat(Concat(before, more), rest), options, false) {
          CarriedCut(accepts, o, before, mid, more, rest, options);
        }
      }
    }

    method ImportEntries(entries: seq<Entry>) returns (ok: bool, stats: seq<Stat>, skipped: seq<string>)
      modifies this`options
      ensures Carried(accepts, old(options), EntriesPlan(fields, directory, entries), options, ok)
      ensures ok ==> stats == Stats(old(options), fields, directory, entries)
      ensures ok ==> skipped == Skipped(fields, directory, entries)
    {
      stats, skipped := [], [];
      ghost var o, before := options, Empty;
      for n := 0 to |entries|
        invariant before == EntriesPlan(fields, directory, entries[..n])
        invariant Carried(accepts, o, before, options, true)
        invariant stats == Stats(o, fields, directory, entries[..n])
        invariant skipped == Skipped(fields, directory, entries[..n])
      {
        OneMoreEntry(o, fields, directory, entries, n);
        var done, stat, skip := ImportNext(o, before, entries[n]);
        before := EntriesPlan(fields, directory, entries[..n + 1]);
        if !done {
          ghost var rest := EntriesSplit(fields, directory, entries, n + 1);
          return false, stats, skipped;
        }
        stats, skipped := stats + stat, skipped + skip;
      }
      assert entries[..|entries|] == entries;
      ok := true;
    }

    method ImportGlobal(incoming: ModelMaps) returns (ok: bool, added: int, updated: int)
      modifies this`options
      ensures var plan := SyncPlan(Global, incoming, fields);
        && Carried(accepts, old(options), plan, options, ok)
        && (ok ==> added == Added(old(options), plan) && updated == Updated(old(options), plan))
    {
      ok, added, updated := true, 0, 0;
      if !IsEmpty(fields, incoming) {
        ok, added, updated := SyncPrices(Global, incoming);
      } else {
        EmptySyncsNothing(Global, incoming, fields);
      }
    }

    method ImportParts(payload: Payload) returns (r: Option<ImportResult>)
      modifies this`options
      ensures Carried(accepts, old(options), PayloadPlan(fields, directory, payload), options, r.Some?)
      ensures r.Some? ==> Reported(old(options), fields, directory, payload, r.value)
    {
      ghost var o := options;
      ghost var global := SyncPlan(Global, payload.global, fields);
      ghost var channels := EntriesPlan(fields, directory, payload.channels);
      var ok, added, updated := ImportGlobal(payload.global);
      ghost var mid := options;
      if !ok {
        FirstPartFailed(accepts, o, global, channels, options);
        return None;
      }
      var stats, skipped;
      ok, stats, skipped := ImportEntries(payload.channels);
      if !ok {
        CarriedCut(accepts, o, global, mid, channels, Empty, options);
        return None;
      }
      CarriedOn(accepts, o, global, mid, channels, options);
      var result := ImportResult(added, updated, stats, skipped);
      PartsReported(accepts, o, fields, directory, payload, mid, result);
      r := Some(result);
    }

    // A write that cannot be read afterwards ends the import with an error; it and what was
    // written before it stay.
    method ImportPrices(payload: Payload) returns (r: Result<ImportResult, string>)
      modifies this`options
      ensures Rejected(fields, payload) ==> r.Err? && options == old(options)
      ensures !Rejected(fields, payload) ==>
        Carried(accepts, old(options), PayloadPlan(fields, directory, payload), options, r.Ok?)
      ensures r.Ok? ==> Reported(old(options), fields, directory, payload, r.value)
    {
      if IsEmpty(fields, payload.global) && |payload.channels| == 0 {
        return Err("no price data");
      }
      var result := ImportParts(payload);
      r := if result.Some? then Ok(result.value) else Err("prices not written");
    }
  }

  lemma PartsReported(accepts: Accepts, o: Options, fields: seq<Field>, dir: seq<Row>, p: Payload, mid: Options, r: ImportResult)
    requires Carried(accepts, o, SyncPlan(Global, p.global, fields), mid, true)
    requires r.globalAdded == Added(o, SyncPlan(Global, p.global, fields))
    requires r.globalUpdated == Updated(o, SyncPlan(Global, p.global, fields))
    requires r.stats == Stats(mid, fields, dir, p.channels) && r.skipped == Skipped(fields, dir, p.channels)
    ensures Reported(o, fields, dir, p, r)
  {
    CarryAccepted(accepts, o, SyncPlan(Global, p.global, fields));
  }

  lemma {:induction false} EmptySyncsNothing(owner: Owner, m: ModelMaps, fields: seq<Field>)
    requires IsEmpty(fields, m)
    ensures SyncPlan(owner, m, fields) == Empty
  {
    if fields != [] {
      EmptySyncsNothing(owner, m, fields[..|fields| - 1]);
    }
  }

  // ---------- counting ----------

  function SumAdded(stats: seq<Stat>): int {
    if stats == [] then 0 else SumAdded(stats[..|stats| - 1]) + stats[|stats| - 1].added
  }

  function SumUpdated(stats: seq<Stat>): int {
    if stats == [] then 0 else SumUpdated(stats[..|stats| - 1]) + stats[|stats| - 1].updated
  }

  lemma {:induction false} StatsAddUp(o: Options, fields: seq<Field>, dir: seq<Row>, entries: seq<Entry>)
    ensures SumAdded(Stats(o, fields, dir, entries)) == Added(o, EntriesPlan(fields, dir, entries))
    ensures SumUpdated(Stats(o, fields, dir, entries)) == Updated(o, EntriesPlan(fields, dir, entries))
  {
    if entries != [] {
      var init, e := entries[..|entries| - 1], entries[|entries| - 1];
      var done := EntriesPlan(fields, dir, init);
      StatsAddUp(o, fields, dir, init);
      SumOneEntry(Stats(o, fields, dir, init), Apply(o, done), fields, dir, e);
      CountsConcat(o, done, EntryPlan(fields, dir, e));
    }
  }

  lemma SumOneEntry(stats: seq<Stat>, o: Options, fields: seq<Field>, dir: seq<Row>, e: Entry)
    ensures var plan := EntryPlan(fields, dir, e);
      && SumAdded(stats + EntryStats(o, fields, dir, e)) == SumAdded(stats) + Added(o, plan)
      && SumUpdated(stats + EntryStats(o, fields, dir, e)) == SumUpdated(stats) + Updated(o, plan)
  {
    var more := EntryStats(o, fields, dir, e);
    if more == [] {
      assert stats + more == stats;
      assert EntryPlan(fields, dir, e) == Empty;
    } else {
      assert (stats + more)[..|stats|] == stats;
    }
  }

  // How many prices a set of model maps holds.
  function PriceCount(fields: seq<Field>, m: ModelMaps): nat {
    if fields == [] then 0
    else PriceCount(fields[..|fields| - 1], m) + |In(m, fields[|fields| - 1])|
  }

  lemma {:induction false} SyncSize(owner: Owner, m: ModelMaps, fields: seq<Field>)
    ensures Size(SyncPlan(owner, m, fields)) == PriceCount(fields, m)
  {
    if fields != [] {
      SyncSize(owner, m, fields[..|fields| - 1]);
    }
  }

  lemma OneMoreTimes(n: nat, count: nat)
    ensures (n + 1) * count == n * count + count
  {}

  lemma {:induction false} FanOutSize(fields: seq<Field>, ids: seq<string>, m: ModelMaps)
    ensures Size(FanOut(fields, ids, m)) == |ids| * PriceCount(fields, m)
  {
    if ids != [] {
      var n := |ids| - 1;
      FanOutSize(fields, ids[..n], m);
      CountsConcat(map[], FanOut(fields, ids[..n], m), SyncPlan(Channel(ids[n]), m, fields));
      SyncSize(Channel(ids[n]), m, fields);
      OneMoreTimes(n, PriceCount(fields, m));
    }
  }

  // For one entry, added plus updated is its number of prices times the number of channels
  // that carry its name.
  lemma EntryCounts(o: Options, fields: seq<Field>, dir: seq<Row>, e: Entry)
    requires !Passed(fields, e)
    ensures var plan := EntryPlan(fields, dir, e);
      Added(o, plan) + Updated(o, plan) == |IdsNamed(dir, Text.TrimSpace(e.name))| * PriceCount(fields, e.models)
  {
    FanOutSize(fields, IdsNamed(dir, Text.TrimSpace(e.name)), e.models);
  }

  // Importing the same payload twice, whatever duplicate names it holds: the second import
  // leaves the options as they are and reports nothing added, anywhere.
  lemma SecondImportChangesNothing(o: Options, fields: seq<Field>, dir: seq<Row>, p: Payload, r: ImportResult)
    requires Reported(Apply(o, PayloadPlan(fields, dir, p)), fields, dir, p, r)
    ensures var plan := PayloadPlan(fields, dir, p);
      Apply(Apply(o, plan), plan) == Apply(o, plan) && Keeps(o, Apply(o, plan))
    ensures r.globalAdded == 0 && forall i :: 0 <= i < |r.stats| ==> r.stats[i].added == 0
  {
    var plan := PayloadPlan(fields, dir, p);
    var global, channels := SyncPlan(Global, p.global, fields), EntriesPlan(fields, dir, p.channels);
    var o' := Apply(o, plan);
    ApplyTwice(o, plan);
    ApplyKeepsKeys(o, plan);
    ApplyCovers(o, plan);
    NothingNew(o', plan);
    CountsConcat(o', global, channels);
    CountsInRange(o', global);
    CountsInRange(Apply(o', global), channels);
    StatsAddUp(Apply(o', global), fields, dir, p.channels);
    StatsAreCounts(Apply(o', global), fields, dir, p.channels);
    SumOfNothing(r.stats);
  }

  lemma {:induction false} StatsAreCounts(o: Options, fields: seq<Field>, dir: seq<Row>, entries: seq<Entry>)
    ensures forall i :: 0 <= i < |Stats(o, fields, dir, entries)| ==> Stats(o, fields, dir, entries)[i].added >= 0
  {
    if entries != [] {
      var init, e := entries[..|entries| - 1], entries[|entries| - 1];
      StatsAreCounts(o, fields, dir, init);
      CountsInRange(Apply(o, EntriesPlan(fields, dir, init)), EntryPlan(fields, dir, e));
    }
  }

  lemma {:induction false} SumOfNothing(stats: seq<Stat>)
    requires forall i :: 0 <= i < |stats| ==> stats[i].added >= 0
    ensures SumAdded(stats) >= 0
    ensures SumAdded(stats) == 0 ==> forall i :: 0 <= i < |stats| ==> stats[i].added == 0
  {
    if stats != [] {
      var n := |stats| - 1;
      SumOfNothing(stats[..n]);
      assert forall i :: 0 <= i < n ==> stats[..n][i] == stats[i];
    }
  }
}
