/** The table of price differences, told on the prices themselves. */
module DifferenceLaws {
  import opened Wrappers
  import opened Differences

  // ---------- in the words of the input ----------

  const KINDS: set<string> := {
    "model_ratio", "completion_ratio", "cache_ratio", "create_cache_ratio", "model_price",
    "model_tier_ratio", "completion_tier_ratio", "cache_tier_ratio", "create_cache_tier_ratio"
  }

  lemma KindsExactly(kind: string)
    ensures kind in RATIO_TYPES <==> kind in KINDS
  {
    assert RATIO_TYPES[0] == "model_ratio" && RATIO_TYPES[1] == "completion_ratio" && RATIO_TYPES[2] == "cache_ratio";
    assert RATIO_TYPES[3] == "create_cache_ratio" && RATIO_TYPES[4] == "model_price" && RATIO_TYPES[5] == "model_tier_ratio";
    assert RATIO_TYPES[6] == "completion_tier_ratio" && RATIO_TYPES[7] == "cache_tier_ratio";
    assert RATIO_TYPES[8] == "create_cache_tier_ratio" && |RATIO_TYPES| == 9;
  }

  // Two numbers at least a billionth apart, or two values of which not both are numbers and that
  // are not the same.
  predicate Unlike(a: Value, b: Value) {
    if a.Num? && b.Num? then a.value - b.value >= 0.000000001 || b.value - a.value >= 0.000000001
    else a != b
  }

  lemma UnlikeExactly(a: Value, b: Value)
    ensures Unlike(a, b) <==> !ValuesEqual(a, b)
  {}

  predicate HasPrice(prices: Prices, kind: string, name: string, v: Value) {
    kind in prices && name in prices[kind] && prices[kind][name] == v
  }

  // Everybody sees every model, a supplier only owned ones, under their own or the rewritten name.
  predicate TakesPart(inp: Inputs, name: string) {
    inp.owned.None? || name in inp.owned.value || inp.matching(name) in inp.owned.value
  }

  // The source reports a price that is not nil and unlike the one in force for its channel.
  ghost predicate Deviates(inp: Inputs, s: Source, kind: string, name: string) {
    exists v :: HasPrice(s.data, kind, name, v) && v != Nil && Unlike(inp.before(s.channelID, kind, name), v)
  }

  lemma DeviatesExactly(inp: Inputs, s: Source, kind: string, name: string)
    ensures Deviates(inp, s, kind, name) <==> Differs(inp, s, name, kind)
  {
    if Differs(inp, s, name, kind) {
      var v := s.data[kind][name];
      UnlikeExactly(inp.before(s.channelID, kind, name), v);
      assert HasPrice(s.data, kind, name, v);
    }
    if v :| HasPrice(s.data, kind, name, v) && v != Nil && Unlike(inp.before(s.channelID, kind, name), v) {
      UnlikeExactly(inp.before(s.channelID, kind, name), v);
    }
  }

  // The source reports a price or lists the model.
  ghost predicate Speaks(s: Source, kind: string, name: string) {
    (exists v :: HasPrice(s.data, kind, name, v)) || name in s.localModels
  }

  lemma SpeaksExactly(s: Source, kind: string, name: string)
    ensures Speaks(s, kind, name) <==> Provides(s, kind, name)
  {
    if Lookup(s.data, kind, name).Some? {
      assert HasPrice(s.data, kind, name, s.data[kind][name]);
    }
  }

  // ---------- which cells there are ----------

  lemma TakesPartExactly(inp: Inputs, name: string)
    ensures TakesPart(inp, name) <==> Visible(inp, name)
  {}

  // Without aligned columns a cell is there exactly when some source deviates for it.
  lemma PlainCellExactly(inp: Inputs, name: string, kind: string)
    requires DistinctNames(inp.sources)
    ensures CellAt(Differences.Result(inp, false), name, kind).Some? <==>
      && kind in KINDS && TakesPart(inp, name)
      && exists i :: 0 <= i < |inp.sources| && Deviates(inp, inp.sources[i], kind, name)
  {
    WithoutAligned(inp, name, kind);
    KindsExactly(kind);
    TakesPartExactly(inp, name);
    forall i | 0 <= i < |inp.sources|
      ensures Deviates(inp, inp.sources[i], kind, name) <==> Differs(inp, inp.sources[i], name, kind)
    {
      DeviatesExactly(inp, inp.sources[i], kind, name);
    }
  }

  // With aligned columns a cell is there exactly when some source speaks of it.
  lemma AlignedCellExactly(inp: Inputs, name: string, kind: string)
    requires DistinctNames(inp.sources)
    ensures CellAt(Differences.Result(inp, true), name, kind).Some? <==>
      && kind in KINDS && TakesPart(inp, name)
      && exists i :: 0 <= i < |inp.sources| && Speaks(inp.sources[i], kind, name)
  {
    WithAligned(inp, name, kind);
    CoveredExactly(inp, name, kind);
  }

  lemma CoveredExactly(inp: Inputs, name: string, kind: string)
    ensures Covered(inp, name, kind) <==>
      && kind in KINDS && TakesPart(inp, name)
      && exists i :: 0 <= i < |inp.sources| && Speaks(inp.sources[i], kind, name)
  {
    KindsExactly(kind);
    TakesPartExactly(inp, name);
    if i :| 0 <= i < |inp.sources| && Provides(inp.sources[i], kind, name) {
      SpeaksExactly(inp.sources[i], kind, name);
    }
    if i :| 0 <= i < |inp.sources| && Speaks(inp.sources[i], kind, name) {
      SpeaksExactly(inp.sources[i], kind, name);
    }
  }

  // ---------- which sources are marked ----------

  ghost predicate DeviatesSomewhere(inp: Inputs, s: Source) {
    exists name, kind :: kind in KINDS && TakesPart(inp, name) && Deviates(inp, s, kind, name)
  }

  lemma DeviatesSomewhereExactly(inp: Inputs, s: Source)
    ensures DeviatesSomewhere(inp, s) <==> Changes(inp, s)
  {
    if Changes(inp, s) {
      var name, kind :| kind in RATIO_TYPES && Visible(inp, name) && Differs(inp, s, name, kind);
      KindsExactly(kind);
      DeviatesExactly(inp, s, kind, name);
      assert TakesPart(inp, name);
    }
    if name, kind :| kind in KINDS && TakesPart(inp, name) && Deviates(inp, s, kind, name) {
      KindsExactly(kind);
      DeviatesExactly(inp, s, kind, name);
    }
  }

  // A source is marked exactly when it deviates for some model that takes part.
  lemma MarkedOnPrices(inp: Inputs, i: nat)
    requires DistinctNames(inp.sources) && i < |inp.sources|
    ensures inp.sources[i].name in Marked(Filled(inp)) <==> DeviatesSomewhere(inp, inp.sources[i])
  {
    MarkedExactly(inp, i);
    DeviatesSomewhereExactly(inp, inp.sources[i]);
  }

  // ---------- what a cell holds ----------

  // The entry of one source in a cell that shows it: the reported price or nil, the price in force
  // before, and a warning exactly for 37.5 with a completion ratio of 1.
  ghost predicate Entry(inp: Inputs, s: Source, kind: string, name: string, item: Item) {
    && s.name in item.upstreams && s.name in item.olds && s.name in item.confidence
    && (forall v :: HasPrice(s.data, kind, name, v) ==> item.upstreams[s.name] == v)
    && ((forall v :: !HasPrice(s.data, kind, name, v)) ==> item.upstreams[s.name] == Nil)
    && item.olds[s.name] == inp.before(s.channelID, kind, name)
    && (item.confidence[s.name] <==>
          !(HasPrice(s.data, "model_ratio", name, Num(37.5)) && HasPrice(s.data, "completion_ratio", name, Num(1.0))))
  }

  lemma OfferedExactly(s: Source, kind: string, name: string)
    ensures forall v :: HasPrice(s.data, kind, name, v) ==> Offered(s, kind, name) == v
    ensures (forall v :: !HasPrice(s.data, kind, name, v)) ==> Offered(s, kind, name) == Nil
  {
    if Lookup(s.data, kind, name).Some? {
      assert HasPrice(s.data, kind, name, s.data[kind][name]);
    }
  }

  lemma TrustedExactly(s: Source, name: string)
    ensures Trusted(s, name) <==>
      !(HasPrice(s.data, "model_ratio", name, Num(37.5)) && HasPrice(s.data, "completion_ratio", name, Num(1.0)))
  {}

  // With aligned columns every source that speaks has its entry, and no other column is there.
  lemma AlignedEntries(inp: Inputs, name: string, kind: string, item: Item, i: nat)
    requires DistinctNames(inp.sources) && i < |inp.sources| && CellAt(Differences.Result(inp, true), name, kind) == Some(item)
    ensures var s := inp.sources[i];
      && (Speaks(s, kind, name) ==> Entry(inp, s, kind, name, item))
      && (!Speaks(s, kind, name) ==> s.name !in item.upstreams && s.name !in item.olds)
      && forall ch :: ch in item.upstreams ==> exists j :: 0 <= j < |inp.sources| && inp.sources[j].name == ch
  {
    var s := inp.sources[i];
    WithAligned(inp, name, kind);
    assert Column(inp, i, name, kind, item);
    SpeaksExactly(s, kind, name);
    OfferedExactly(s, kind, name);
    TrustedExactly(s, name);
  }

  lemma PlainEntry(inp: Inputs, s: Source, changes: bool, name: string, kind: string, item: Item)
    requires PlainColumn(inp, s, changes, name, kind, item) && s.name in item.upstreams && s.name in item.olds
    ensures Entry(inp, s, kind, name, item)
  {
    OfferedExactly(s, kind, name);
    TrustedExactly(s, name);
  }

  // Without them the sources that speak and deviate somewhere have their entry.
  lemma PlainEntries(inp: Inputs, name: string, kind: string, item: Item, i: nat)
    requires DistinctNames(inp.sources) && i < |inp.sources| && CellAt(Differences.Result(inp, false), name, kind) == Some(item)
    ensures var s := inp.sources[i];
      && (s.name in item.upstreams <==> Speaks(s, kind, name) && DeviatesSomewhere(inp, s))
      && (s.name in item.upstreams ==> Entry(inp, s, kind, name, item))
  {
    var s := inp.sources[i];
    WithoutAlignedColumns(inp, name, kind, item, i);
    DeviatesSomewhereExactly(inp, s);
    SpeaksExactly(s, kind, name);
    if s.name in item.upstreams {
      PlainOlds(inp, name, kind, item, i);
      PlainEntry(inp, s, Changes(inp, s), name, kind, item);
    }
  }

  lemma PlainOlds(inp: Inputs, name: string, kind: string, item: Item, i: nat)
    requires DistinctNames(inp.sources) && i < |inp.sources| && CellAt(Differences.Result(inp, false), name, kind) == Some(item)
    requires inp.sources[i].name in item.upstreams
    ensures inp.sources[i].name in item.olds
  {
    PlainCell(inp, name, kind);
    ColumnAt(inp, |inp.sources|, i, name, kind);
  }

  // Every cell shows this site's own price beside them, or nil.
  lemma OwnPrice(inp: Inputs, includeAligned: bool, name: string, kind: string, item: Item)
    requires CellAt(Differences.Result(inp, includeAligned), name, kind) == Some(item)
    ensures forall v :: HasPrice(inp.local, kind, name, v) ==> item.current == v
    ensures (forall v :: !HasPrice(inp.local, kind, name, v)) ==> item.current == Nil
  {
    CurrentOfCell(inp, includeAligned, name, kind, item);
    CurrentExactly(inp, name, kind);
  }

  lemma CurrentExactly(inp: Inputs, name: string, kind: string)
    ensures forall v :: HasPrice(inp.local, kind, name, v) ==> Current(inp, name, kind) == v
    ensures (forall v :: !HasPrice(inp.local, kind, name, v)) ==> Current(inp, name, kind) == Nil
  {
    if Lookup(inp.local, kind, name).Some? {
      assert HasPrice(inp.local, kind, name, inp.local[kind][name]);
    }
  }

  lemma CurrentOfCell(inp: Inputs, includeAligned: bool, name: string, kind: string, item: Item)
    requires CellAt(Differences.Result(inp, includeAligned), name, kind) == Some(item)
    ensures item.current == Current(inp, name, kind)
  {
    CurrentStays(inp, |inp.sources|, name, kind);
    if includeAligned {
      AlignedKeepsAll(inp);
      FilledExactly(inp, name, kind);
    } else {
      PlainCell(inp, name, kind);
    }
  }

  lemma {:induction false} CurrentStays(inp: Inputs, n: nat, name: string, kind: string)
    requires n <= |inp.sources|
    ensures CellOf(inp, n, name, kind).item.current == Current(inp, name, kind)
  {
    if n > 0 {
      CurrentStays(inp, n - 1, name, kind);
    }
  }
}
