/** The periodic check of all channels, and what holds over any sequence of passes. */
module SyncTask {
  import opened Wrappers
  import opened ModelNames
  import opened UpstreamSync
  import opened UpstreamRuns
  import opened Batches
  import opened SyncAll
  import Text

  datatype Entry =
    | Seen(id: int, adds: nat, removes: nat, autoAdded: nat, modelsChanged: bool)
    | Missed(id: int)

  predicate Due(c: Channel, now: int, minInterval: int) {
    !(c.lastCheck > 0 && now - c.lastCheck < minInterval)
  }

  // The check of a row before the database is asked: not forced, with automatic application.
  function Intended(row: Row, w: World, minInterval: int, matches: Matcher): CheckOutcome {
    var now := w.clock(row.id);
    Checked(row.channel, row.setup, w.fetched(row.id), Due(row.channel, now, minInterval), true, now, matches)
  }

  function TaskOutcome(row: Row, w: World, minInterval: int, matches: Matcher): CheckOutcome {
    var now := w.clock(row.id);
    CheckedWith(row.channel, row.setup, w.fetched(row.id), Due(row.channel, now, minInterval), true, now, matches, w.fault(row.id))
  }

  function TaskRow(row: Row, w: World, minInterval: int, matches: Matcher): (Channel, Option<Entry>) {
    if !row.checks then (row.channel, None)
    else
      var out := TaskOutcome(row, w, minInterval, matches);
      if out.failed then (out.channel, Some(Missed(row.id)))
      else
        (out.channel, Some(Seen(row.id, |Normalize(out.channel.detected)| + out.autoAdded,
                                |Normalize(out.channel.removed)|, out.autoAdded, out.modelsChanged)))
  }

  function Tasking(w: World, minInterval: int, matches: Matcher): Handler<Entry> {
    row => TaskRow(Loaded(row), w, minInterval, matches)
  }

  // The totals that the periodic check reports.
  datatype Totals = Totals(checked: nat, changed: nat, adds: nat, removes: nat, autoAdded: nat, failed: seq<int>)

  function Plus(t: Totals, e: Entry): Totals {
    match e
    case Missed(id) => t.(checked := t.checked + 1, failed := t.failed + [id])
    case Seen(_, adds, removes, autoAdded, _) =>
      t.(checked := t.checked + 1, changed := t.changed + if adds > 0 || removes > 0 then 1 else 0,
         adds := t.adds + adds, removes := t.removes + removes, autoAdded := t.autoAdded + autoAdded)
  }

  function Total(entries: seq<Entry>): Totals {
    if entries == [] then Totals(0, 0, 0, 0, 0, []) else Plus(Total(entries[..|entries| - 1]), entries[|entries| - 1])
  }

  // A failing query ends the pass; what was checked before it is reported.
  method RunTask(table: Table, queryFails: nat -> bool, w: World, minInterval: int, matches: Matcher)
    returns (t: Totals, refresh: bool, ghost done: nat)
    requires Ordered(table.rows)
    modifies table
    ensures done <= |old(table.rows)| && ((forall b :: !queryFails(b)) ==> done == |old(table.rows)|)
    ensures table.rows == Partly(old(table.rows), done, Tasking(w, minInterval, matches))
    ensures var entries := Reports(old(table.rows), done, Tasking(w, minInterval, matches));
      && t == Total(entries)
      && (refresh <==> exists n :: 0 <= n < |entries| && entries[n].Seen? && entries[n].modelsChanged)
  {
    var entries, complete;
    entries, complete, done := table.Walk(BATCH_SIZE, queryFails, Tasking(w, minInterval, matches));
    t, refresh := Tally(entries);
  }

  method Tally(entries: seq<Entry>) returns (t: Totals, refresh: bool)
    ensures t == Total(entries)
    ensures refresh <==> exists n :: 0 <= n < |entries| && entries[n].Seen? && entries[n].modelsChanged
  {
    t, refresh := Totals(0, 0, 0, 0, 0, []), false;
    for n := 0 to |entries|
      invariant t == Total(entries[..n])
      invariant refresh <==> exists i :: 0 <= i < n && entries[i].Seen? && entries[i].modelsChanged
    {
      assert entries[..n + 1][..n] == entries[..n];
      t := t.(checked := t.checked + 1);
      match entries[n]
      case Missed(id) =>
        t := t.(failed := t.failed + [id]);
      case Seen(_, adds, removes, autoAdded, modelsChanged) =>
        t := t.(adds := t.adds + adds, removes := t.removes + removes);
        if adds > 0 || removes > 0 {
          t := t.(changed := t.changed + 1);
        }
        if modelsChanged {
          refresh := true;
        }
        t := t.(autoAdded := t.autoAdded + autoAdded);
    }
    assert entries[..|entries|] == entries;
  }

  // ---------- what the periodic check adds, and what it says it adds ----------

  ghost predicate PlainAnswers(w: World) {
    forall id :: w.fetched(id).Some? ==> NoComma(w.fetched(id).value)
  }

  // The check, if it is stored, makes the model list longer by the number it added.
  lemma IntendedGrowth(row: Row, w: World, minInterval: int, matches: Matcher)
    requires PlainAnswers(w)
    ensures var out := Intended(row, w, minInterval, matches);
      && |Local(out.channel.models)| == |Local(row.channel.models)| + out.autoAdded
      && Local(row.channel.models) <= Local(out.channel.models)
      && (out.modelsChanged <==> out.autoAdded > 0)
  {
    var fetched := w.fetched(row.id);
    if fetched.Some? {
      DetectFacts(row.channel, row.setup, fetched.value, matches);
      NormalizeNoComma(fetched.value);
      AutoAppends(row.channel, row.setup, fetched.value, matches);
    }
  }

  // A row whose longer model list is stored although the check is reported as failed.
  predicate HalfChecked(row: Row, w: World, minInterval: int, matches: Matcher) {
    row.enabled && row.checks && w.fault(row.id) == AbilitiesFail && Intended(row, w, minInterval, matches).modelsChanged
  }

  function Hidden(row: Row, w: World, minInterval: int, matches: Matcher): nat {
    if HalfChecked(row, w, minInterval, matches) then Intended(row, w, minInterval, matches).autoAdded else 0
  }

  // What the check of a row adds without reporting it.
  function Hiding(w: World, minInterval: int, matches: Matcher): Row -> nat {
    row => Hidden(Loaded(row), w, minInterval, matches)
  }

  function Shown(r: Option<Entry>): nat {
    if r.Some? && r.value.Seen? then r.value.autoAdded else 0
  }

  lemma TaskRowGrows(row: Row, w: World, minInterval: int, matches: Matcher)
    requires PlainAnswers(w) && row.enabled
    ensures var (c, r) := TaskRow(row, w, minInterval, matches);
      |Local(c.models)| == |Local(row.channel.models)| + Shown(r) + Hidden(row, w, minInterval, matches)
  {
    IntendedGrowth(row, w, minInterval, matches);
  }

  lemma AutoAddedOfNoted(entries: seq<Entry>, r: Option<Entry>)
    ensures Total(Noted(entries, r)).autoAdded == Total(entries).autoAdded + Shown(r)
  {
    if r.Some? {
      assert (entries + [r.value])[..|entries|] == entries;
    }
  }

  // The number of models reported as added for the first n rows.
  function ShownIn(rows: seq<Row>, n: nat, task: Handler<Entry>): nat
    requires n <= |rows|
  {
    Total(Reports(rows, n, task)).autoAdded
  }

  lemma ShownOneMore(rows: seq<Row>, n: nat, task: Handler<Entry>)
    requires n < |rows|
    ensures ShownIn(rows, n + 1, task) == ShownIn(rows, n, task) + if rows[n].enabled then Shown(task(rows[n]).1) else 0
  {
    AutoAddedOfNoted(Reports(rows, n, task), task(rows[n]).1);
  }

  // The size of a row grows by what the row reports and by what it hides.
  predicate GrowsBy(row: Row, size: Row -> nat, task: Handler<Entry>, hidden: Row -> nat) {
    size(Handled(row, task)) == size(row) + (if row.enabled then Shown(task(row).1) else 0) + hidden(row)
  }

  lemma {:induction false} RowsGrow(rows: seq<Row>, n: nat, size: Row -> nat, task: Handler<Entry>, hidden: Row -> nat)
    requires n <= |rows| && forall i :: 0 <= i < |rows| ==> GrowsBy(rows[i], size, task, hidden)
    ensures SumOver(HandledAll(rows, task), n, size)
      == SumOver(rows, n, size) + ShownIn(rows, n, task) + SumOver(rows, n, hidden)
  {
    if n > 0 {
      RowsGrow(rows, n - 1, size, task, hidden);
      assert GrowsBy(rows[n - 1], size, task, hidden);
      ShownOneMore(rows, n - 1, task);
    }
  }

  lemma RowGrows(row: Row, w: World, minInterval: int, matches: Matcher)
    requires PlainAnswers(w)
    ensures GrowsBy(row, Listing(), Tasking(w, minInterval, matches), Hiding(w, minInterval, matches))
  {
    if row.enabled {
      TaskRowGrows(Loaded(row), w, minInterval, matches);
    }
  }

  // Over one pass the models listed grow by the reported number and by what was added in
  // channels whose abilities failed.
  lemma TaskGrowth(rows: seq<Row>, w: World, minInterval: int, matches: Matcher)
    requires PlainAnswers(w)
    ensures var task := Tasking(w, minInterval, matches);
      ModelsIn(HandledAll(rows, task), |rows|)
        == ModelsIn(rows, |rows|) + ShownIn(rows, |rows|, task) + SumOver(rows, |rows|, Hiding(w, minInterval, matches))
  {
    forall i | 0 <= i < |rows| ensures GrowsBy(rows[i], Listing(), Tasking(w, minInterval, matches), Hiding(w, minInterval, matches)) {
      RowGrows(rows[i], w, minInterval, matches);
    }
    RowsGrow(rows, |rows|, Listing(), Tasking(w, minInterval, matches), Hiding(w, minInterval, matches));
  }

  lemma HiddenMeansHalf(row: Row, w: World, minInterval: int, matches: Matcher)
    requires PlainAnswers(w)
    ensures Hidden(row, w, minInterval, matches) == 0 <==> !HalfChecked(row, w, minInterval, matches)
  {
    IntendedGrowth(row, w, minInterval, matches);
  }

  lemma NothingHidden(rows: seq<Row>, w: World, minInterval: int, matches: Matcher)
    requires PlainAnswers(w)
    ensures SumOver(rows, |rows|, Hiding(w, minInterval, matches)) == 0
      <==> forall i :: 0 <= i < |rows| ==> !HalfChecked(Loaded(rows[i]), w, minInterval, matches)
  {
    var hidden := Hiding(w, minInterval, matches);
    SumIsZero(rows, |rows|, hidden);
    forall i | 0 <= i < |rows| ensures hidden(rows[i]) == 0 <==> !HalfChecked(Loaded(rows[i]), w, minInterval, matches) {
      HiddenMeansHalf(Loaded(rows[i]), w, minInterval, matches);
    }
  }

  // The reported number is the growth exactly when no channel that grew failed to rebuild its
  // abilities.
  lemma TaskCountsBalance(rows: seq<Row>, w: World, minInterval: int, matches: Matcher)
    requires PlainAnswers(w)
    ensures var task := Tasking(w, minInterval, matches);
      ModelsIn(HandledAll(rows, task), |rows|) == ModelsIn(rows, |rows|) + ShownIn(rows, |rows|, task)
      <==> forall i :: 0 <= i < |rows| ==> !HalfChecked(Loaded(rows[i]), w, minInterval, matches)
  {
    TaskGrowth(rows, w, minInterval, matches);
    NothingHidden(rows, w, minInterval, matches);
  }

  lemma NewRowIsHalfChecked(row: Row, w: World, name: string, matches: Matcher)
    requires row == Row(1, true, true, Setup(true, map[]), Channel("", [], [], [], 0)) && name == "m"
    requires w.fetched(1) == Some([name]) && w.fault(1) == AbilitiesFail
    ensures HalfChecked(Loaded(row), w, 0, matches)
  {
    Text.VisibleIsNoSpace(name[0]);
    Text.TrimmedIsFixed(name, Text.SPACES);
    NewNameIsFound(row, name, matches);
    AutoAppends(row.channel, row.setup, [name], matches);
  }

  // One new channel, one upstream name, abilities that fail: a model is added and none is
  // reported.
  lemma GrowthIsHidden(row: Row, w: World, name: string, matches: Matcher)
    requires row == Row(1, true, true, Setup(true, map[]), Channel("", [], [], [], 0)) && name == "m"
    requires w.fetched(1) == Some([name]) && w.fault(1) == AbilitiesFail && PlainAnswers(w)
    ensures var task := Tasking(w, 0, matches);
      ModelsIn(HandledAll([row], task), 1) != ModelsIn([row], 1) + ShownIn([row], 1, task)
  {
    NewRowIsHalfChecked(row, w, name, matches);
    TaskCountsBalance([row], w, 0, matches);
    assert HalfChecked(Loaded([row][0]), w, 0, matches);
  }

  lemma NewNameIsFound(row: Row, name: string, matches: Matcher)
    requires row.channel == Channel("", [], [], [], 0) && row.setup == Setup(true, map[]) && Proper(name)
    ensures DetectFor(row.channel, row.setup, [name], matches).0 != []
  {
    OneName(name);
    LocalOfNothing(row.channel.models);
    DetectFacts(row.channel, row.setup, [name], matches);
    assert !Ignored(row.channel.ignored, name, matches);
    assert name in DetectFor(row.channel, row.setup, [name], matches).0;
  }

  // ---------- any sequence of passes ----------

  // A pass ends behind the first `upto` rows when a query fails.
  datatype Pass =
    | DetectPass(world: World, upto: nat)
    | ApplyPass(fault: int -> Fault, clock: int -> int, upto: nat)
    | TaskPass(world: World, minInterval: int, upto: nat)

  function Cut(rows: seq<Row>, upto: nat): nat {
    if upto < |rows| then upto else |rows|
  }

  function AfterPass(rows: seq<Row>, p: Pass, matches: Matcher): seq<Row> {
    match p
    case DetectPass(w, upto) => Partly(rows, Cut(rows, upto), Detecting(w, matches))
    case ApplyPass(fault, clock, upto) => Partly(rows, Cut(rows, upto), Applying(fault, clock))
    case TaskPass(w, minInterval, upto) => Partly(rows, Cut(rows, upto), Tasking(w, minInterval, matches))
  }

  function AfterPasses(rows: seq<Row>, passes: seq<Pass>, matches: Matcher): seq<Row> {
    if passes == [] then rows
    else AfterPass(AfterPasses(rows, passes[..|passes| - 1], matches), passes[|passes| - 1], matches)
  }

  lemma CheckedRowConsistent(row: Row, w: World, due: bool, auto: bool, matches: Matcher)
    requires Consistent(row.channel)
    ensures Consistent(CheckedWith(row.channel, row.setup, w.fetched(row.id), due, auto, w.clock(row.id), matches, w.fault(row.id)).channel)
  {
    CheckKeepsConsistent(row.channel, row.setup, Check(w.fetched(row.id), due, auto, w.clock(row.id), w.fault(row.id)), matches);
  }

  lemma DetectKeepsConsistent(row: Row, w: World, matches: Matcher)
    requires Consistent(row.channel)
    ensures Consistent(Handled(row, Detecting(w, matches)).channel)
  {
    CheckedRowConsistent(Loaded(row), w, true, false, matches);
  }

  lemma TaskKeepsConsistent(row: Row, w: World, minInterval: int, matches: Matcher)
    requires Consistent(row.channel)
    ensures Consistent(Handled(row, Tasking(w, minInterval, matches)).channel)
  {
    CheckedRowConsistent(Loaded(row), w, Due(row.channel, w.clock(row.id), minInterval), true, matches);
  }

  lemma NothingPendingIsConsistent(c: Channel)
    requires c.detected == [] && c.removed == []
    ensures Consistent(c)
  {}

  lemma FullyAppliedConsistent(c: Channel, now: int)
    requires Consistent(c)
    ensures Consistent(AppliedFully(c, now).channel)
  {
    FullyApplied(c, now);
    NothingPendingIsConsistent(AppliedFully(c, now).channel);
  }

  lemma ApplyKeepsConsistent(row: Row, fault: int -> Fault, clock: int -> int)
    requires Consistent(row.channel)
    ensures Consistent(Handled(row, Applying(fault, clock)).channel)
  {
    FullyAppliedConsistent(row.channel, clock(row.id));
    if Eligible(row) {
      ApplyRowCases(row, fault, clock);
    }
  }

  lemma PartlyConsistent<E>(rows: seq<Row>, n: nat, handle: Handler<E>)
    requires AllConsistent(rows) && n <= |rows|
    requires forall i :: 0 <= i < |rows| ==> Consistent(Handled(rows[i], handle).channel)
    ensures AllConsistent(Partly(rows, n, handle))
  {
    PartlyAt(rows, n, handle);
  }

  lemma PassKeepsConsistent(rows: seq<Row>, p: Pass, matches: Matcher)
    requires AllConsistent(rows)
    ensures AllConsistent(AfterPass(rows, p, matches))
  {
    match p
    case DetectPass(w, upto) =>
      forall i | 0 <= i < |rows| ensures Consistent(Handled(rows[i], Detecting(w, matches)).channel) {
        DetectKeepsConsistent(rows[i], w, matches);
      }
      PartlyConsistent(rows, Cut(rows, upto), Detecting(w, matches));
    case ApplyPass(fault, clock, upto) =>
      forall i | 0 <= i < |rows| ensures Consistent(Handled(rows[i], Applying(fault, clock)).channel) {
        ApplyKeepsConsistent(rows[i], fault, clock);
      }
      PartlyConsistent(rows, Cut(rows, upto), Applying(fault, clock));
    case TaskPass(w, minInterval, upto) =>
      forall i | 0 <= i < |rows| ensures Consistent(Handled(rows[i], Tasking(w, minInterval, matches)).channel) {
        TaskKeepsConsistent(rows[i], w, minInterval, matches);
      }
      PartlyConsistent(rows, Cut(rows, upto), Tasking(w, minInterval, matches));
  }

  // Over every sequence of passes, with any names upstream, failing upstreams, failing queries,
  // refused writes and failing abilities: in every channel pending additions are not local and
  // pending removals are.
  lemma {:induction false} PassesStayConsistent(rows: seq<Row>, passes: seq<Pass>, matches: Matcher)
    requires AllConsistent(rows)
    ensures AllConsistent(AfterPasses(rows, passes, matches))
  {
    if passes != [] {
      var n := |passes| - 1;
      PassesStayConsistent(rows, passes[..n], matches);
      PassKeepsConsistent(AfterPasses(rows, passes[..n], matches), passes[n], matches);
    }
  }
}
