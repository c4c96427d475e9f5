/** What an import reports, told on the entries of the payload. */
module ImportReport {
  import opened Wrappers
  import opened PriceTransfer
  import opened PriceReach
  import PriceExport
  import Text

  // A payload is refused exactly when no field has a global price and there is no channel entry.
  lemma RefusedExactly(p: Payload)
    ensures Rejected(FIELDS, p) <==> p.channels == [] && forall f: Field :: !Priced(p.global, f)
  {
    PriceExport.FieldTable();
    if forall f: Field :: !Priced(p.global, f) {
      forall f | f in FIELDS ensures In(p.global, f) == map[] {
        assert !Priced(p.global, f);
      }
    }
    if f: Field :| Priced(p.global, f) {
      assert f in FIELDS && In(p.global, f) != map[];
    }
  }

  // ---------- names that are skipped ----------

  // The entry is named in the list of skipped channels: it is marked as deleted, or it has prices and
  // no row carries its name.
  ghost predicate Skips(fields: seq<Field>, dir: seq<Row>, e: Entry) {
    var name := Text.TrimSpace(e.name);
    && name != ""
    && ("__deleted__channel_id_" <= name
        || ((exists f :: f in fields && Priced(e.models, f)) && forall i :: 0 <= i < |dir| ==> dir[i].name != name))
  }

  lemma EmptyExactly(fields: seq<Field>, m: ModelMaps)
    ensures IsEmpty(fields, m) <==> !exists f :: f in fields && Priced(m, f)
  {
    if !IsEmpty(fields, m) {
      var f :| f in fields && In(m, f) != map[];
      assert Priced(m, f);
    }
  }

  lemma NobodyNamed(dir: seq<Row>, name: string)
    ensures IdsNamed(dir, name) == [] <==> forall i :: 0 <= i < |dir| ==> dir[i].name != name
  {
    var at := NamedRows(dir, name);
    if IdsNamed(dir, name) != [] {
      assert dir[at[0]].name == name;
    }
  }

  lemma SkipsExactly(fields: seq<Field>, dir: seq<Row>, e: Entry)
    ensures EntrySkips(fields, dir, e) == if Skips(fields, dir, e) then [Text.TrimSpace(e.name)] else []
  {
    EmptyExactly(fields, e.models);
    NobodyNamed(dir, Text.TrimSpace(e.name));
  }

  // The names of the entries, trimmed.
  function Names(entries: seq<Entry>): seq<string> {
    seq(|entries|, i requires 0 <= i < |entries| => Text.TrimSpace(entries[i].name))
  }

  // Some of the names, in order, and the places they come from.
  predicate Picked(names: seq<string>, at: seq<int>, all: seq<string>) {
    && |at| == |names| && Ascending(at)
    && forall j :: 0 <= j < |at| ==> 0 <= at[j] < |all| && names[j] == all[at[j]]
  }

  // Exactly the flagged places.
  predicate Flagged(at: seq<int>, flags: seq<bool>) {
    forall i :: 0 <= i < |flags| ==> (i in at <==> flags[i])
  }

  lemma OneMorePicked(names: seq<string>, at: seq<int>, all: seq<string>, name: string)
    requires Picked(names, at, all)
    ensures Picked(names, at, all + [name]) && Picked(names + [name], at + [|all|], all + [name])
    ensures |all| !in at
  {}

  lemma OneMoreFlag(at: seq<int>, flags: seq<bool>)
    requires Flagged(at, flags) && |flags| !in at
    ensures Flagged(at, flags + [false]) && Flagged(at + [|flags|], flags + [true])
  {}

  // The names whose flag is set.
  function Choose(all: seq<string>, flags: seq<bool>): seq<string>
    requires |all| == |flags|
  {
    if all == [] then []
    else
      var n := |all| - 1;
      Choose(all[..n], flags[..n]) + if flags[n] then [all[n]] else []
  }

  lemma {:induction false} ChooseLaw(all: seq<string>, flags: seq<bool>) returns (at: seq<int>)
    requires |all| == |flags|
    ensures Picked(Choose(all, flags), at, all) && Flagged(at, flags)
  {
    if all == [] {
      at := [];
    } else {
      var n := |all| - 1;
      at := ChooseLaw(all[..n], flags[..n]);
      OneMorePicked(Choose(all[..n], flags[..n]), at, all[..n], all[n]);
      OneMoreFlag(at, flags[..n]);
      assert all == all[..n] + [all[n]] && flags == flags[..n] + [flags[n]];
      if flags[n] {
        at := at + [n];
      }
    }
  }

  function Gather(entries: seq<Entry>, f: Entry -> seq<string>): seq<string> {
    if entries == [] then [] else Gather(entries[..|entries| - 1], f) + f(entries[|entries| - 1])
  }

  lemma {:induction false} GatherIsChoose(entries: seq<Entry>, f: Entry -> seq<string>, all: seq<string>, flags: seq<bool>)
    requires |all| == |flags| == |entries|
    requires forall i :: 0 <= i < |entries| ==> f(entries[i]) == if flags[i] then [all[i]] else []
    ensures Gather(entries, f) == Choose(all, flags)
  {
    if entries != [] {
      var n := |entries| - 1;
      GatherIsChoose(entries[..n], f, all[..n], flags[..n]);
    }
  }

  function SkipsOf(fields: seq<Field>, dir: seq<Row>): Entry -> seq<string> {
    e => EntrySkips(fields, dir, e)
  }

  lemma {:induction false} SkippedIsGathered(fields: seq<Field>, dir: seq<Row>, entries: seq<Entry>)
    ensures Skipped(fields, dir, entries) == Gather(entries, SkipsOf(fields, dir))
  {
    if entries != [] {
      SkippedIsGathered(fields, dir, entries[..|entries| - 1]);
    }
  }

  // The skipped names are those of the skipped entries, all of them and in order.
  lemma SkippedLaw(fields: seq<Field>, dir: seq<Row>, entries: seq<Entry>) returns (at: seq<int>)
    ensures Picked(Skipped(fields, dir, entries), at, Names(entries))
    ensures forall i :: 0 <= i < |entries| ==> (i in at <==> Skips(fields, dir, entries[i]))
  {
    var f := SkipsOf(fields, dir);
    ghost var flags := seq(|entries|, i requires 0 <= i < |entries| => Skips(fields, dir, entries[i]));
    forall i | 0 <= i < |entries|
      ensures f(entries[i]) == if Skips(fields, dir, entries[i]) then [Text.TrimSpace(entries[i].name)] else []
    {
      SkipsExactly(fields, dir, entries[i]);
    }
    SkippedIsGathered(fields, dir, entries);
    GatherIsChoose(entries, f, Names(entries), flags);
    at := ChooseLaw(Names(entries), flags);
    assert forall i :: 0 <= i < |entries| ==> (i in at <==> flags[i]);
  }

  // ---------- lines of statistics ----------

  // The entry has a line of its own: it is meant for some channel and has a price.
  ghost predicate Counted(fields: seq<Field>, dir: seq<Row>, e: Entry) {
    (exists id :: MeantFor(dir, e, id)) && exists f :: f in fields && Priced(e.models, f)
  }

  lemma CountedExactly(fields: seq<Field>, dir: seq<Row>, e: Entry)
    ensures Counted(fields, dir, e) <==> Reaches(fields, dir, e)
  {
    var name := Text.TrimSpace(e.name);
    EmptyExactly(fields, e.models);
    NobodyNamed(dir, name);
    if Reaches(fields, dir, e) {
      var i :| 0 <= i < |dir| && dir[i].name == name;
      assert dir[i] == Row(dir[i].id, name);
      assert MeantFor(dir, e, dir[i].id);
    }
    if id :| MeantFor(dir, e, id) {
      var i :| 0 <= i < |dir| && dir[i] == Row(id, name);
    }
  }

  function NamesIn(stats: seq<Stat>): seq<string> {
    seq(|stats|, i requires 0 <= i < |stats| => stats[i].name)
  }

  function LineOf(fields: seq<Field>, dir: seq<Row>): Entry -> seq<string> {
    e => if Reaches(fields, dir, e) then [Text.TrimSpace(e.name)] else []
  }

  lemma {:induction false} StatsAreGathered(o: Options, fields: seq<Field>, dir: seq<Row>, entries: seq<Entry>)
    ensures NamesIn(Stats(o, fields, dir, entries)) == Gather(entries, LineOf(fields, dir))
  {
    if entries != [] {
      StatsAreGathered(o, fields, dir, entries[..|entries| - 1]);
    }
  }

  // The lines are those of the counted entries, all of them and in order.
  lemma StatsLaw(o: Options, fields: seq<Field>, dir: seq<Row>, entries: seq<Entry>) returns (at: seq<int>)
    ensures Picked(NamesIn(Stats(o, fields, dir, entries)), at, Names(entries))
    ensures forall i :: 0 <= i < |entries| ==> (i in at <==> Counted(fields, dir, entries[i]))
  {
    var f := LineOf(fields, dir);
    ghost var flags := seq(|entries|, i requires 0 <= i < |entries| => Counted(fields, dir, entries[i]));
    forall i | 0 <= i < |entries|
      ensures f(entries[i]) == if Counted(fields, dir, entries[i]) then [Text.TrimSpace(entries[i].name)] else []
    {
      CountedExactly(fields, dir, entries[i]);
    }
    StatsAreGathered(o, fields, dir, entries);
    GatherIsChoose(entries, f, Names(entries), flags);
    at := ChooseLaw(Names(entries), flags);
    assert forall i :: 0 <= i < |entries| ==> (i in at <==> flags[i]);
  }
}
