/** The table of price differences between this site and its upstream sources: a cell for
    every model and kind of price, with one column per source. The table is filled, sources
    that differ anywhere are marked, and cells and columns that do not matter are pruned. */
module Differences {
  import opened Wrappers
  import ModelsDev

  // A price as it came out of JSON: absent, a number, or anything else.
  datatype Value = Nil | Num(value: real) | Other(json: string)

  const RATIO_TYPES: seq<string> := [
    "model_ratio", "completion_ratio", "cache_ratio", "create_cache_ratio", "model_price",
    "model_tier_ratio", "completion_tier_ratio", "cache_tier_ratio", "create_cache_tier_ratio"
  ]

  type Prices = map<string, map<string, Value>>

  datatype Source = Source(name: string, channelID: int, data: Prices, localModels: set<string>)

  // before answers the price in force for a channel before the synchronisation; owned is the
  // set of models of a supplier, None for an administrator; matching is the name rewriting.
  datatype Inputs = Inputs(local: Prices, sources: seq<Source>, before: (int, string, string) -> Value,
                           owned: Option<set<string>>, matching: string -> string)

  datatype Item = Item(current: Value, olds: map<string, Value>, upstreams: map<string, Value>, confidence: map<string, bool>)

  type Row = map<string, Item>

  type Table = map<string, Row>

  predicate ValuesEqual(a: Value, b: Value) {
    if a.Num? && b.Num? then ModelsDev.NearlyEqual(a.value, b.value) else a == b
  }

  function Lookup(prices: Prices, kind: string, name: string): Option<Value> {
    if kind in prices && name in prices[kind] then Some(prices[kind][name]) else None
  }

  // ---------- one cell ----------

  // The source has a column in the cell: it reports a price, or lists the model.
  predicate Provides(s: Source, kind: string, name: string) {
    Lookup(s.data, kind, name).Some? || name in s.localModels
  }

  function Offered(s: Source, kind: string, name: string): Value {
    var v := Lookup(s.data, kind, name);
    if v.Some? then v.value else Nil
  }

  // A model ratio of 37.5 with a completion ratio of 1 is a default nobody priced.
  predicate Trusted(s: Source, name: string) {
    !(Lookup(s.data, "model_ratio", name) == Some(Num(37.5)) && Lookup(s.data, "completion_ratio", name) == Some(Num(1.0)))
  }

  // A cell while its columns are filled.
  datatype Cell = Cell(item: Item, hasValue: bool)

  // The cell with the column of one more source.
  function Extended(c: Cell, s: Source, oldValue: Value, kind: string, name: string): Cell {
    var item := c.item.(confidence := c.item.confidence[s.name := Trusted(s, name)]);
    if Provides(s, kind, name) then
      Cell(item.(olds := item.olds[s.name := oldValue], upstreams := item.upstreams[s.name := Offered(s, kind, name)]), true)
    else Cell(item, c.hasValue)
  }

  function Current(inp: Inputs, name: string, kind: string): Value {
    var v := Lookup(inp.local, kind, name);
    if v.Some? then v.value else Nil
  }

  // The cell with the columns of the first n sources.
  function CellOf(inp: Inputs, n: nat, name: string, kind: string): Cell
    requires n <= |inp.sources|
  {
    if n == 0 then Cell(Item(Current(inp, name, kind), map[], map[], map[]), false)
    else
      var s := inp.sources[n - 1];
      Extended(CellOf(inp, n - 1, name, kind), s, inp.before(s.channelID, kind, name), kind, name)
  }

  function FullCell(inp: Inputs, name: string, kind: string): Cell {
    CellOf(inp, |inp.sources|, name, kind)
  }

  function ItemOf(inp: Inputs, name: string, kind: string): Item {
    FullCell(inp, name, kind).item
  }

  method CheckTrust(s: Source, name: string) returns (trusted: bool)
    ensures trusted == Trusted(s, name)
  {
    trusted := true;
    if "model_ratio" in s.data && "completion_ratio" in s.data {
      var modelRatios, completionRatios := s.data["model_ratio"], s.data["completion_ratio"];
      if name in modelRatios && name in completionRatios {
        var modelRatio, completionRatio := modelRatios[name], completionRatios[name];
        if modelRatio.Num? && completionRatio.Num? && modelRatio.value == 37.5 && completionRatio.value == 1.0 {
          trusted := false;
        }
      }
    }
  }

  method AddColumn(c: Cell, s: Source, oldValue: Value, kind: string, name: string) returns (r: Cell)
    ensures r == Extended(c, s, oldValue, kind, name)
  {
    var olds, upstreams, hasValue, got := c.item.olds, c.item.upstreams, c.hasValue, false;
    if kind in s.data && name in s.data[kind] {
      hasValue, got := true, true;
      upstreams := upstreams[s.name := s.data[kind][name]];
      olds := olds[s.name := oldValue];
    }
    if !got && name in s.localModels {
      hasValue := true;
      upstreams := upstreams[s.name := Nil];
      olds := olds[s.name := oldValue];
    }
    var trusted := CheckTrust(s, name);
    r := Cell(Item(c.item.current, olds, upstreams, c.item.confidence[s.name := trusted]), hasValue);
  }

  method BuildCell(inp: Inputs, name: string, kind: string) returns (cell: Cell)
    ensures cell == FullCell(inp, name, kind)
  {
    var current := Nil;
    if kind in inp.local && name in inp.local[kind] {
      current := inp.local[kind][name];
    }
    cell := Cell(Item(current, map[], map[], map[]), false);
    for n := 0 to |inp.sources|
      invariant cell == CellOf(inp, n, name, kind)
    {
      var s := inp.sources[n];
      cell := AddColumn(cell, s, inp.before(s.channelID, kind, name), kind, name);
    }
  }

  // ---------- filling the table ----------

  // The kinds among the first n, as a row.
  function RowOf(inp: Inputs, name: string, n: nat): Row
    requires n <= |RATIO_TYPES|
  {
    if n == 0 then map[]
    else
      var kind := RATIO_TYPES[n - 1];
      var r := RowOf(inp, name, n - 1);
      if FullCell(inp, name, kind).hasValue then r[kind := ItemOf(inp, name, kind)] else r
  }

  method BuildRow(inp: Inputs, name: string) returns (row: Row)
    ensures row == RowOf(inp, name, |RATIO_TYPES|)
  {
    row := map[];
    for n := 0 to |RATIO_TYPES|
      invariant row == RowOf(inp, name, n)
    {
      var cell := BuildCell(inp, name, RATIO_TYPES[n]);
      if cell.hasValue {
        row := row[RATIO_TYPES[n] := cell.item];
      }
    }
  }

  function FullRow(inp: Inputs, name: string): Row {
    RowOf(inp, name, |RATIO_TYPES|)
  }

  // The models that take part: for a supplier only owned ones.
  predicate Visible(inp: Inputs, name: string) {
    inp.owned.Some? ==> name in inp.owned.value || inp.matching(name) in inp.owned.value
  }

  // The names that some list of prices mentions.
  function Named(prices: Prices): set<string> {
    set kind, name | kind in prices && kind in RATIO_TYPES && name in prices[kind] :: name
  }

  function AllNames(inp: Inputs, n: nat): set<string>
    requires n <= |inp.sources|
  {
    if n == 0 then Named(inp.local)
    else AllNames(inp, n - 1) + Named(inp.sources[n - 1].data) + inp.sources[n - 1].localModels
  }

  function Models(inp: Inputs): set<string> {
    set name | name in AllNames(inp, |inp.sources|) && Visible(inp, name)
  }

  method NamesIn(prices: Prices, before: set<string>) returns (names: set<string>)
    ensures names == before + Named(prices)
  {
    names := before;
    for n := 0 to |RATIO_TYPES|
      invariant forall x :: x in names <==>
        x in before || exists i :: 0 <= i < n && RATIO_TYPES[i] in prices && x in prices[RATIO_TYPES[i]]
    {
      if RATIO_TYPES[n] in prices {
        names := names + prices[RATIO_TYPES[n]].Keys;
      }
    }
  }

  method CollectModels(inp: Inputs) returns (names: set<string>)
    ensures names == Models(inp)
  {
    names := NamesIn(inp.local, {});
    for n := 0 to |inp.sources|
      invariant names == AllNames(inp, n)
    {
      names := NamesIn(inp.sources[n].data, names);
      names := names + inp.sources[n].localModels;
    }
    names := set name | name in names && Visible(inp, name);
  }

  function Filled(inp: Inputs): Table {
    map name | name in Models(inp) && FullRow(inp, name) != map[] :: FullRow(inp, name)
  }

  method Fill(inp: Inputs) returns (table: Table)
    ensures table == Filled(inp)
  {
    var names := CollectModels(inp);
    var todo := names;
    table := map[];
    while todo != {}
      invariant todo <= names
      invariant table == map name | name in names - todo && FullRow(inp, name) != map[] :: FullRow(inp, name)
      decreases |todo|
    {
      var name :| name in todo;
      todo := todo - {name};
      var row := BuildRow(inp, name);
      if row != map[] {
        table := table[name := row];
      }
    }
  }

  // ---------- marking the sources that differ ----------

  function OldOf(item: Item, ch: string): Value {
    if ch in item.olds then item.olds[ch] else Nil
  }

  // The column reports a price that is not the one in force.
  predicate DiffersIn(item: Item, ch: string) {
    ch in item.upstreams && item.upstreams[ch] != Nil && !ValuesEqual(OldOf(item, ch), item.upstreams[ch])
  }

  function MarkedInRow(row: Row): set<string> {
    set kind, ch | kind in row && ch in row[kind].upstreams && DiffersIn(row[kind], ch) :: ch
  }

  function Marked(table: Table): set<string> {
    set name, ch | name in table && ch in MarkedInRow(table[name]) :: ch
  }

  method MarkItem(item: Item, before: set<string>) returns (marked: set<string>)
    ensures forall ch :: ch in marked <==> ch in before || DiffersIn(item, ch)
  {
    marked := before;
    var todo := item.upstreams.Keys;
    while todo != {}
      invariant todo <= item.upstreams.Keys
      invariant forall ch :: ch in marked <==> ch in before || (ch !in todo && DiffersIn(item, ch))
      decreases |todo|
    {
      var ch :| ch in todo;
      todo := todo - {ch};
      if item.upstreams[ch] != Nil && !ValuesEqual(OldOf(item, ch), item.upstreams[ch]) {
        marked := marked + {ch};
      }
    }
  }

  method MarkRow(row: Row, before: set<string>) returns (marked: set<string>)
    ensures marked == before + MarkedInRow(row)
  {
    marked := before;
    var todo := row.Keys;
    while todo != {}
      invariant todo <= row.Keys
      invariant forall ch :: ch in marked <==> ch in before || exists kind :: kind in row && kind !in todo && DiffersIn(row[kind], ch)
      decreases |todo|
    {
      var kind :| kind in todo;
      todo := todo - {kind};
      marked := MarkItem(row[kind], marked);
    }
  }

  method Mark(table: Table) returns (marked: set<string>)
    ensures marked == Marked(table)
  {
    marked := {};
    var todo := table.Keys;
    while todo != {}
      invariant todo <= table.Keys
      invariant forall ch :: ch in marked <==> exists name :: name in table && name !in todo && ch in MarkedInRow(table[name])
      decreases |todo|
    {
      var name :| name in todo;
      todo := todo - {name};
      marked := MarkRow(table[name], marked);
    }
  }

  // ---------- pruning ----------

  // The columns that go: not marked, and not kept because aligned columns are shown.
  function Dropped(item: Item, marked: set<string>, shown: set<string>): set<string> {
    set ch | ch in item.upstreams && ch !in marked && ch !in shown
  }

  function PrunedItem(item: Item, marked: set<string>, shown: set<string>): Item {
    var gone := Dropped(item, marked, shown);
    Item(item.current, item.olds - gone, item.upstreams - gone, item.confidence - gone)
  }

  predicate Aligned(item: Item) {
    forall ch :: ch in item.upstreams ==> !DiffersIn(item, ch)
  }

  predicate Survives(item: Item, includeAligned: bool) {
    item.upstreams != map[] && (includeAligned || !Aligned(item))
  }

  // What pruning makes of a cell: a smaller cell, or nothing.
  function CellRule(marked: set<string>, shown: set<string>, includeAligned: bool): Item -> Option<Item> {
    item =>
      var p := PrunedItem(item, marked, shown);
      if Survives(p, includeAligned) then Some(p) else None
  }

  function RowRule(rule: Item -> Option<Item>): Row -> Option<Row> {
    row =>
      var p := Kept(row, rule);
      if p != map[] then Some(p) else None
  }

  // The entries that a rule keeps, as it leaves them.
  function Kept<V>(m: map<string, V>, rule: V -> Option<V>): map<string, V> {
    map k | k in m && rule(m[k]).Some? :: rule(m[k]).value
  }

  function Pruned(table: Table, marked: set<string>, shown: set<string>, includeAligned: bool): Table {
    Kept(table, RowRule(CellRule(marked, shown, includeAligned)))
  }

  function Get<V>(m: map<string, V>, k: string): Option<V> {
    if k in m then Some(m[k]) else None
  }

  function Ruled<V>(m: map<string, V>, k: string, rule: V -> Option<V>): Option<V> {
    if k in m then rule(m[k]) else None
  }

  lemma AllRuled<V>(r: map<string, V>, m: map<string, V>, rule: V -> Option<V>)
    requires forall k :: Get(r, k) == Ruled(m, k, rule)
    ensures r == Kept(m, rule)
  {
    forall k ensures k in r <==> k in Kept(m, rule) {
      assert Get(r, k) == Ruled(m, k, rule);
    }
    forall k | k in r ensures r[k] == Kept(m, rule)[k] {
      assert Get(r, k) == Ruled(m, k, rule);
    }
  }

  // Visits every entry and replaces or deletes it in place.
  method Sweep<V>(m: map<string, V>, rule: V -> Option<V>) returns (r: map<string, V>)
    ensures r == Kept(m, rule)
  {
    r := m;
    var todo := m.Keys;
    while todo != {}
      invariant todo <= m.Keys
      invariant forall k :: Get(r, k) == if k in todo then Get(m, k) else Ruled(m, k, rule)
      decreases |todo|
    {
      var k :| k in todo;
      todo := todo - {k};
      var v := rule(m[k]);
      if v.None? {
        r := r - {k};
      } else {
        r := r[k := v.value];
      }
    }
    AllRuled(r, m, rule);
  }

  // The loop over models, each with the loop over its kinds of price; a row that is left
  // empty goes as well.
  method PruneRows(table: Table, rule: Item -> Option<Item>) returns (r: Table)
    ensures r == Kept(table, RowRule(rule))
  {
    ghost var rowRule := RowRule(rule);
    r := table;
    var todo := table.Keys;
    while todo != {}
      invariant todo <= table.Keys
      invariant forall k :: Get(r, k) == if k in todo then Get(table, k) else Ruled(table, k, rowRule)
      decreases |todo|
    {
      var name :| name in todo;
      todo := todo - {name};
      var row := Sweep(table[name], rule);
      if |row| == 0 {
        r := r - {name};
      } else {
        r := r[name := row];
      }
    }
    AllRuled(r, table, rowRule);
  }

  function SourceNames(sources: seq<Source>): set<string> {
    set i | 0 <= i < |sources| :: sources[i].name
  }

  function Result(inp: Inputs, includeAligned: bool): Table {
    var table := Filled(inp);
    Pruned(table, Marked(table), if includeAligned then SourceNames(inp.sources) else {}, includeAligned)
  }

  method BuildDifferences(inp: Inputs, includeAligned: bool) returns (table: Table)
    ensures table == Result(inp, includeAligned)
  {
    table := Fill(inp);
    var marked := Mark(table);
    var shown := if includeAligned then SourceNames(inp.sources) else {};
    table := PruneRows(table, CellRule(marked, shown, includeAligned));
  }

  // ---------- what the table shows ----------

  predicate DistinctNames(sources: seq<Source>) {
    forall i, j :: 0 <= i < j < |sources| ==> sources[i].name != sources[j].name
  }

  // The source reports a price for the model that differs from the one in force.
  predicate Differs(inp: Inputs, s: Source, name: string, kind: string) {
    && Lookup(s.data, kind, name).Some? && Offered(s, kind, name) != Nil
    && !ValuesEqual(inp.before(s.channelID, kind, name), Offered(s, kind, name))
  }

  // The column of source i: there exactly when the source provides, with its prices.
  ghost predicate Column(inp: Inputs, i: nat, name: string, kind: string, c: Item)
    requires i < |inp.sources|
  {
    var s := inp.sources[i];
    && (s.name in c.upstreams <==> Provides(s, kind, name))
    && (s.name in c.olds <==> Provides(s, kind, name))
    && (s.name in c.upstreams ==> c.upstreams[s.name] == Offered(s, kind, name))
    && (s.name in c.olds ==> c.olds[s.name] == inp.before(s.channelID, kind, name))
    && s.name in c.confidence && c.confidence[s.name] == Trusted(s, name)
  }

  lemma {:induction false} ColumnNames(inp: Inputs, n: nat, name: string, kind: string, ch: string)
    requires n <= |inp.sources|
    requires var c := CellOf(inp, n, name, kind).item; ch in c.upstreams || ch in c.olds || ch in c.confidence
    ensures exists i :: 0 <= i < n && inp.sources[i].name == ch
  {
    if inp.sources[n - 1].name != ch {
      ColumnNames(inp, n - 1, name, kind, ch);
    }
  }

  lemma {:induction false} ColumnAt(inp: Inputs, n: nat, i: nat, name: string, kind: string)
    requires DistinctNames(inp.sources) && i < n <= |inp.sources|
    ensures Column(inp, i, name, kind, CellOf(inp, n, name, kind).item)
    decreases n
  {
    if i == n - 1 {
      var c, ch := CellOf(inp, i, name, kind).item, inp.sources[i].name;
      if ch in c.upstreams || ch in c.olds {
        ColumnNames(inp, i, name, kind, ch);
      }
    } else {
      ColumnAt(inp, n - 1, i, name, kind);
    }
  }

  lemma {:induction false} HasValueIff(inp: Inputs, n: nat, name: string, kind: string)
    requires n <= |inp.sources|
    ensures CellOf(inp, n, name, kind).hasValue <==> exists i :: 0 <= i < n && Provides(inp.sources[i], kind, name)
  {
    if n > 0 {
      HasValueIff(inp, n - 1, name, kind);
    }
  }

  ghost predicate HasCell(table: Table, name: string, kind: string) {
    name in table && kind in table[name]
  }

  // Some source has a column for a model that takes part.
  ghost predicate Covered(inp: Inputs, name: string, kind: string) {
    && kind in RATIO_TYPES && Visible(inp, name)
    && exists i :: 0 <= i < |inp.sources| && Provides(inp.sources[i], kind, name)
  }

  lemma {:induction false} RowAt(inp: Inputs, name: string, n: nat, kind: string)
    requires n <= |RATIO_TYPES|
    ensures var row := RowOf(inp, name, n);
      && (kind in row <==> kind in RATIO_TYPES[..n] && FullCell(inp, name, kind).hasValue)
      && (kind in row ==> row[kind] == ItemOf(inp, name, kind))
  {
    if n > 0 {
      RowAt(inp, name, n - 1, kind);
      assert RATIO_TYPES[..n] == RATIO_TYPES[..n - 1] + [RATIO_TYPES[n - 1]];
    }
  }

  lemma FullRowAt(inp: Inputs, name: string, kind: string)
    ensures var row := FullRow(inp, name);
      && (kind in row <==> kind in RATIO_TYPES && FullCell(inp, name, kind).hasValue)
      && (kind in row ==> row[kind] == ItemOf(inp, name, kind))
  {
    RowAt(inp, name, |RATIO_TYPES|, kind);
    assert RATIO_TYPES[..|RATIO_TYPES|] == RATIO_TYPES;
  }

  lemma {:induction false} ProvidedIsNamed(inp: Inputs, n: nat, i: nat, name: string, kind: string)
    requires i < n <= |inp.sources| && kind in RATIO_TYPES && Provides(inp.sources[i], kind, name)
    ensures name in AllNames(inp, n)
    decreases n
  {
    if i < n - 1 {
      ProvidedIsNamed(inp, n - 1, i, name, kind);
    }
  }

  // The filled table has exactly the covered cells.
  lemma FilledExactly(inp: Inputs, name: string, kind: string)
    ensures HasCell(Filled(inp), name, kind) <==> Covered(inp, name, kind)
    ensures HasCell(Filled(inp), name, kind) ==> Filled(inp)[name][kind] == ItemOf(inp, name, kind)
  {
    FullRowAt(inp, name, kind);
    HasValueIff(inp, |inp.sources|, name, kind);
    if Covered(inp, name, kind) {
      var i :| 0 <= i < |inp.sources| && Provides(inp.sources[i], kind, name);
      ProvidedIsNamed(inp, |inp.sources|, i, name, kind);
      assert kind in FullRow(inp, name);
    }
  }

  lemma {:induction false} ValueMeansColumn(inp: Inputs, n: nat, name: string, kind: string)
    requires n <= |inp.sources| && CellOf(inp, n, name, kind).hasValue
    ensures CellOf(inp, n, name, kind).item.upstreams != map[]
  {
    var s := inp.sources[n - 1];
    if Provides(s, kind, name) {
      assert s.name in CellOf(inp, n, name, kind).item.upstreams;
    } else {
      ValueMeansColumn(inp, n - 1, name, kind);
    }
  }

  lemma MinusNothing<V>(m: map<string, V>, gone: set<string>)
    requires gone == {}
    ensures m - gone == m
  {}

  // With aligned columns shown, pruning changes nothing.
  lemma CellStays(inp: Inputs, name: string, kind: string, marked: set<string>)
    requires FullCell(inp, name, kind).hasValue
    ensures CellRule(marked, SourceNames(inp.sources), true)(ItemOf(inp, name, kind)) == Some(ItemOf(inp, name, kind))
  {
    var item := ItemOf(inp, name, kind);
    var gone := Dropped(item, marked, SourceNames(inp.sources));
    forall ch | ch in item.upstreams ensures ch in SourceNames(inp.sources) {
      ColumnNames(inp, |inp.sources|, name, kind, ch);
    }
    assert gone == {};
    MinusNothing(item.olds, gone);
    MinusNothing(item.upstreams, gone);
    MinusNothing(item.confidence, gone);
    ValueMeansColumn(inp, |inp.sources|, name, kind);
  }

  lemma RowStays(inp: Inputs, name: string, marked: set<string>)
    ensures Kept(FullRow(inp, name), CellRule(marked, SourceNames(inp.sources), true)) == FullRow(inp, name)
  {
    var row, rule := FullRow(inp, name), CellRule(marked, SourceNames(inp.sources), true);
    forall kind | kind in row ensures rule(row[kind]) == Some(row[kind]) {
      FullRowAt(inp, name, kind);
      CellStays(inp, name, kind, marked);
    }
    KeepsAll(row, rule);
  }

  lemma KeepsAll<V>(m: map<string, V>, rule: V -> Option<V>)
    requires forall k :: k in m ==> rule(m[k]) == Some(m[k])
    ensures Kept(m, rule) == m
  {}

  lemma AlignedKeepsAll(inp: Inputs)
    ensures Result(inp, true) == Filled(inp)
  {
    var table := Filled(inp);
    var cellRule := CellRule(Marked(table), SourceNames(inp.sources), true);
    var rule := RowRule(cellRule);
    forall name | name in table ensures rule(table[name]) == Some(table[name]) {
      RowStays(inp, name, Marked(table));
    }
    KeepsAll(table, rule);
  }

  // The columns are exactly those of the providing sources, with their prices.
  ghost predicate Columns(inp: Inputs, name: string, kind: string, item: Item) {
    && (forall i :: 0 <= i < |inp.sources| ==> Column(inp, i, name, kind, item))
    && (forall ch :: ch in item.upstreams ==> ch in SourceNames(inp.sources))
  }

  lemma ItemColumns(inp: Inputs, name: string, kind: string)
    requires DistinctNames(inp.sources)
    ensures Columns(inp, name, kind, ItemOf(inp, name, kind))
  {
    var item := ItemOf(inp, name, kind);
    forall i | 0 <= i < |inp.sources| ensures Column(inp, i, name, kind, item) {
      ColumnAt(inp, |inp.sources|, i, name, kind);
    }
    forall ch | ch in item.upstreams ensures ch in SourceNames(inp.sources) {
      ColumnNames(inp, |inp.sources|, name, kind, ch);
    }
  }

  // With aligned columns: a cell is there exactly when some source reports a price or lists
  // the model, and its columns are exactly those sources.
  lemma WithAligned(inp: Inputs, name: string, kind: string)
    requires DistinctNames(inp.sources)
    ensures HasCell(Result(inp, true), name, kind) <==> Covered(inp, name, kind)
    ensures HasCell(Result(inp, true), name, kind) ==> Columns(inp, name, kind, Result(inp, true)[name][kind])
  {
    AlignedKeepsAll(inp);
    FilledExactly(inp, name, kind);
    ItemColumns(inp, name, kind);
  }

  lemma ItemDiffers(inp: Inputs, i: nat, name: string, kind: string)
    requires DistinctNames(inp.sources) && i < |inp.sources|
    ensures DiffersIn(ItemOf(inp, name, kind), inp.sources[i].name) <==> Differs(inp, inp.sources[i], name, kind)
  {
    ColumnAt(inp, |inp.sources|, i, name, kind);
  }

  // The source differs for some model that takes part and some kind of price.
  ghost predicate Changes(inp: Inputs, s: Source) {
    exists name, kind :: kind in RATIO_TYPES && Visible(inp, name) && Differs(inp, s, name, kind)
  }

  lemma MarkedInTable(table: Table, ch: string)
    ensures ch in Marked(table) <==> exists name, kind :: HasCell(table, name, kind) && DiffersIn(table[name][kind], ch)
  {
    if ch in Marked(table) {
      var name :| name in table && ch in MarkedInRow(table[name]);
      var kind :| kind in table[name] && DiffersIn(table[name][kind], ch);
      assert HasCell(table, name, kind);
    }
    if name, kind :| HasCell(table, name, kind) && DiffersIn(table[name][kind], ch) {
      assert ch in MarkedInRow(table[name]);
    }
  }

  // A source is marked exactly when it differs somewhere.
  lemma MarkedExactly(inp: Inputs, i: nat)
    requires DistinctNames(inp.sources) && i < |inp.sources|
    ensures inp.sources[i].name in Marked(Filled(inp)) <==> Changes(inp, inp.sources[i])
  {
    var s, table := inp.sources[i], Filled(inp);
    MarkedInTable(table, s.name);
    if s.name in Marked(table) {
      var name, kind :| HasCell(table, name, kind) && DiffersIn(table[name][kind], s.name);
      FilledExactly(inp, name, kind);
      ItemDiffers(inp, i, name, kind);
    }
    if Changes(inp, s) {
      var name, kind :| kind in RATIO_TYPES && Visible(inp, name) && Differs(inp, s, name, kind);
      assert Provides(s, kind, name);
      FilledExactly(inp, name, kind);
      ItemDiffers(inp, i, name, kind);
    }
  }

  function CellAt(table: Table, name: string, kind: string): Option<Item> {
    if name in table && kind in table[name] then Some(table[name][kind]) else None
  }

  lemma KeptCell(table: Table, rule: Item -> Option<Item>, name: string, kind: string)
    ensures CellAt(Kept(table, RowRule(rule)), name, kind)
      == if HasCell(table, name, kind) then rule(table[name][kind]) else None
  {
    if HasCell(table, name, kind) && rule(table[name][kind]).Some? {
      assert kind in Kept(table[name], rule);
    }
  }

  // Without aligned columns a cell stays exactly when some column differs, and keeps its
  // marked columns.
  lemma CellPruned(item: Item, marked: set<string>)
    requires forall ch :: DiffersIn(item, ch) ==> ch in marked
    ensures var r := CellRule(marked, {}, false)(item);
      && (r.Some? <==> exists ch :: DiffersIn(item, ch))
      && (r.Some? ==> r.value == PrunedItem(item, marked, {}))
  {
    var p := PrunedItem(item, marked, {});
    forall ch ensures DiffersIn(p, ch) <==> DiffersIn(item, ch) {
      PrunedColumn(item, marked, ch);
    }
  }

  lemma PrunedColumn(item: Item, marked: set<string>, ch: string)
    ensures var p := PrunedItem(item, marked, {});
      && (ch in p.upstreams <==> ch in item.upstreams && ch in marked)
      && (ch in p.upstreams ==> p.upstreams[ch] == item.upstreams[ch] && OldOf(p, ch) == OldOf(item, ch))
      && (ch in p.confidence <==> ch in item.confidence && (ch in item.upstreams ==> ch in marked))
      && (ch in p.confidence ==> p.confidence[ch] == item.confidence[ch])
  {}

  lemma DiffersIsMarked(inp: Inputs, name: string, kind: string, ch: string)
    requires HasCell(Filled(inp), name, kind) && DiffersIn(ItemOf(inp, name, kind), ch)
    ensures ch in Marked(Filled(inp))
  {
    FilledExactly(inp, name, kind);
    MarkedInTable(Filled(inp), ch);
  }

  lemma SomeColumnDiffers(inp: Inputs, name: string, kind: string)
    requires DistinctNames(inp.sources)
    ensures (exists ch :: DiffersIn(ItemOf(inp, name, kind), ch))
      <==> exists i :: 0 <= i < |inp.sources| && Differs(inp, inp.sources[i], name, kind)
  {
    var item := ItemOf(inp, name, kind);
    if exists ch :: DiffersIn(item, ch) {
      var ch :| DiffersIn(item, ch);
      ColumnNames(inp, |inp.sources|, name, kind, ch);
      var i :| 0 <= i < |inp.sources| && inp.sources[i].name == ch;
      ItemDiffers(inp, i, name, kind);
    }
    if i :| 0 <= i < |inp.sources| && Differs(inp, inp.sources[i], name, kind) {
      ItemDiffers(inp, i, name, kind);
    }
  }

  lemma RuleOfCell(inp: Inputs, name: string, kind: string)
    requires HasCell(Filled(inp), name, kind)
    ensures var item := ItemOf(inp, name, kind);
      var marked := Marked(Filled(inp));
      CellRule(marked, {}, false)(item)
        == if exists ch :: DiffersIn(item, ch) then Some(PrunedItem(item, marked, {})) else None
  {
    var marked := Marked(Filled(inp));
    forall ch | DiffersIn(ItemOf(inp, name, kind), ch) ensures ch in marked {
      DiffersIsMarked(inp, name, kind, ch);
    }
    CellPruned(ItemOf(inp, name, kind), marked);
  }

  lemma PlainCell(inp: Inputs, name: string, kind: string)
    ensures var item := ItemOf(inp, name, kind);
      CellAt(Result(inp, false), name, kind)
        == if Covered(inp, name, kind) && exists ch :: DiffersIn(item, ch)
           then Some(PrunedItem(item, Marked(Filled(inp)), {})) else None
  {
    KeptCell(Filled(inp), CellRule(Marked(Filled(inp)), {}, false), name, kind);
    FilledExactly(inp, name, kind);
    if Covered(inp, name, kind) {
      RuleOfCell(inp, name, kind);
    }
  }

  // Without aligned columns: a cell is there exactly when some source reports a price for it
  // that differs from the one in force.
  lemma WithoutAligned(inp: Inputs, name: string, kind: string)
    requires DistinctNames(inp.sources)
    ensures CellAt(Result(inp, false), name, kind).Some? <==>
      && kind in RATIO_TYPES && Visible(inp, name)
      && exists i :: 0 <= i < |inp.sources| && Differs(inp, inp.sources[i], name, kind)
  {
    PlainCell(inp, name, kind);
    SomeColumnDiffers(inp, name, kind);
    if i :| 0 <= i < |inp.sources| && Differs(inp, inp.sources[i], name, kind) {
      assert Provides(inp.sources[i], kind, name);
    }
  }

  // The column of a source in a cell that stays: there exactly when the source provides
  // and is marked.
  ghost predicate PlainColumn(inp: Inputs, s: Source, changes: bool, name: string, kind: string, item: Item) {
    && (s.name in item.upstreams <==> Provides(s, kind, name) && changes)
    && (s.name in item.upstreams ==>
          && item.upstreams[s.name] == Offered(s, kind, name)
          && OldOf(item, s.name) == inp.before(s.channelID, kind, name))
    && (s.name in item.confidence <==> (Provides(s, kind, name) ==> changes))
    && (s.name in item.confidence ==> item.confidence[s.name] == Trusted(s, name))
  }

  lemma PrunedSource(inp: Inputs, i: nat, name: string, kind: string, marked: set<string>)
    requires DistinctNames(inp.sources) && i < |inp.sources|
    ensures var s := inp.sources[i];
      PlainColumn(inp, s, s.name in marked, name, kind, PrunedItem(ItemOf(inp, name, kind), marked, {}))
  {
    ColumnAt(inp, |inp.sources|, i, name, kind);
    PrunedColumn(ItemOf(inp, name, kind), marked, inp.sources[i].name);
  }

  // Its columns are exactly the providing sources that differ somewhere, with their prices.
  lemma WithoutAlignedColumns(inp: Inputs, name: string, kind: string, item: Item, i: nat)
    requires DistinctNames(inp.sources) && i < |inp.sources| && CellAt(Result(inp, false), name, kind) == Some(item)
    ensures PlainColumn(inp, inp.sources[i], Changes(inp, inp.sources[i]), name, kind, item)
  {
    PlainCell(inp, name, kind);
    MarkedExactly(inp, i);
    PrunedSource(inp, i, name, kind, Marked(Filled(inp)));
  }

  lemma NoOtherColumns(inp: Inputs, name: string, kind: string, item: Item, ch: string)
    requires CellAt(Result(inp, false), name, kind) == Some(item) && ch in item.upstreams
    ensures ch in SourceNames(inp.sources)
  {
    PlainCell(inp, name, kind);
    PrunedNames(inp, name, kind, Marked(Filled(inp)), ch);
  }

  lemma PrunedNames(inp: Inputs, name: string, kind: string, marked: set<string>, ch: string)
    requires ch in PrunedItem(ItemOf(inp, name, kind), marked, {}).upstreams
    ensures ch in SourceNames(inp.sources)
  {
    PrunedColumn(ItemOf(inp, name, kind), marked, ch);
    ColumnNames(inp, |inp.sources|, name, kind, ch);
  }

  // No model is left with an empty row.
  lemma NoEmptyRows(inp: Inputs, includeAligned: bool, name: string)
    requires name in Result(inp, includeAligned)
    ensures Result(inp, includeAligned)[name] != map[]
  {}
}
