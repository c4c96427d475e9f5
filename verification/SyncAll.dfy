/** Detecting and applying for all channels at once. */
module SyncAll {
  import opened Wrappers
  import opened ModelNames
  import opened UpstreamSync
  import opened UpstreamRuns
  import opened Batches

  datatype Entry =
    | Done(id: int, added: seq<string>, removed: seq<string>, remaining: seq<string>, remainingRemove: seq<string>, changed: bool)
    | Failed(id: int)

  predicate Pending(c: Channel) {
    Normalize(c.detected) != [] || Normalize(c.removed) != []
  }

  // Applies everything that is pending.
  function AppliedFully(c: Channel, now: int): ApplyOutcome {
    Applied(c, Normalize(c.detected), [], Normalize(c.removed), now)
  }

  function ApplyRow(row: Row, fault: int -> Fault, clock: int -> int): (Channel, Option<Entry>) {
    if !row.checks || !Pending(row.channel) then (row.channel, None)
    else
      var c := row.channel;
      var out := AppliedWith(c, Normalize(c.detected), [], Normalize(c.removed), clock(row.id), fault(row.id));
      if out.failed then (out.channel, Some(Failed(row.id)))
      else (out.channel, Some(Done(row.id, out.added, out.removed, out.remaining, out.remainingRemove, out.modelsChanged)))
  }

  function Applying(fault: int -> Fault, clock: int -> int): Handler<Entry> {
    row => ApplyRow(row, fault, clock)
  }

  function AddedBy(e: Entry): nat {
    if e.Done? then |e.added| else 0
  }

  function RemovedBy(e: Entry): nat {
    if e.Done? then |e.removed| else 0
  }

  function AddedIn(entries: seq<Entry>): nat {
    if entries == [] then 0 else AddedIn(entries[..|entries| - 1]) + AddedBy(entries[|entries| - 1])
  }

  function RemovedIn(entries: seq<Entry>): nat {
    if entries == [] then 0 else RemovedIn(entries[..|entries| - 1]) + RemovedBy(entries[|entries| - 1])
  }

  function FailedIn(entries: seq<Entry>): seq<int> {
    if entries == [] then []
    else
      var e := entries[|entries| - 1];
      FailedIn(entries[..|entries| - 1]) + if e.Failed? then [e.id] else []
  }

  function DoneIn(entries: seq<Entry>): seq<Entry> {
    if entries == [] then []
    else
      var e := entries[|entries| - 1];
      DoneIn(entries[..|entries| - 1]) + if e.Done? then [e] else []
  }

  datatype Report = Report(results: seq<Entry>, failed: seq<int>, added: nat, removed: nat)

  // A failing query is answered with an error; what was applied before it stays applied.
  method ApplyAll(table: Table, queryFails: nat -> bool, fault: int -> Fault, clock: int -> int)
    returns (report: Option<Report>, ghost done: nat)
    requires Ordered(table.rows)
    modifies table
    ensures done <= |old(table.rows)| && table.rows == Partly(old(table.rows), done, Applying(fault, clock))
    ensures (forall b :: !queryFails(b)) ==> report.Some?
    ensures report.Some? ==> done == |old(table.rows)|
    ensures report.Some? ==>
      var entries := Reports(old(table.rows), done, Applying(fault, clock));
      report.value == Report(DoneIn(entries), FailedIn(entries), AddedIn(entries), RemovedIn(entries))
  {
    var entries, complete;
    entries, complete, done := table.Walk(BATCH_SIZE, queryFails, Applying(fault, clock));
    if !complete {
      return None, done;
    }
    var results, failed, added, removed := Tally(entries);
    report := Some(Report(results, failed, added, removed));
  }

  method Tally(entries: seq<Entry>) returns (results: seq<Entry>, failed: seq<int>, added: nat, removed: nat)
    ensures results == DoneIn(entries) && failed == FailedIn(entries)
    ensures added == AddedIn(entries) && removed == RemovedIn(entries)
  {
    results, failed, added, removed := [], [], 0, 0;
    for n := 0 to |entries|
      invariant results == DoneIn(entries[..n]) && failed == FailedIn(entries[..n])
      invariant added == AddedIn(entries[..n]) && removed == RemovedIn(entries[..n])
    {
      assert entries[..n + 1][..n] == entries[..n];
      var e := entries[n];
      if e.Failed? {
        failed := failed + [e.id];
      } else {
        added := added + |e.added|;
        removed := removed + |e.removed|;
        results := results + [e];
      }
    }
    assert entries[..|entries|] == entries;
  }

  // ---------- each channel once, in order ----------

  predicate Eligible(row: Row) {
    row.enabled && row.checks && Pending(row.channel)
  }

  // The ids of the eligible rows among the first n.
  function EligibleIds(rows: seq<Row>, n: nat): seq<int>
    requires n <= |rows|
  {
    if n == 0 then [] else EligibleIds(rows, n - 1) + if Eligible(rows[n - 1]) then [rows[n - 1].id] else []
  }

  function IdsOf(entries: seq<Entry>): seq<int> {
    seq(|entries|, i requires 0 <= i < |entries| => entries[i].id)
  }

  predicate Ascending(ids: seq<int>) {
    forall a, b :: 0 <= a < b < |ids| ==> ids[a] < ids[b]
  }

  lemma {:induction false} OneEntryEach(rows: seq<Row>, n: nat, fault: int -> Fault, clock: int -> int)
    requires n <= |rows|
    ensures IdsOf(Reports(rows, n, Applying(fault, clock))) == EligibleIds(rows, n)
  {
    if n > 0 {
      OneEntryEach(rows, n - 1, fault, clock);
    }
  }

  lemma {:induction false} EligibleIdsAscend(rows: seq<Row>, n: nat)
    requires Ordered(rows) && n <= |rows|
    ensures forall x :: x in EligibleIds(rows, n) ==> n > 0 && x <= rows[n - 1].id
    ensures Ascending(EligibleIds(rows, n))
  {
    if n > 0 {
      EligibleIdsAscend(rows, n - 1);
      IdsAscend(rows);
      var before := EligibleIds(rows, n - 1);
      assert forall a :: 0 <= a < |before| ==> before[a] in before;
    }
  }

  // There is one entry for each eligible row, whatever the batches were, and in id order.
  lemma EachEligibleOnce(rows: seq<Row>, n: nat, fault: int -> Fault, clock: int -> int)
    requires n <= |rows|
    ensures IdsOf(Reports(rows, n, Applying(fault, clock))) == EligibleIds(rows, n)
    ensures Ordered(rows) ==> Ascending(IdsOf(Reports(rows, n, Applying(fault, clock))))
  {
    OneEntryEach(rows, n, fault, clock);
    if Ordered(rows) {
      EligibleIdsAscend(rows, n);
    }
  }

  // ---------- nothing stays pending ----------

  lemma FullyApplied(c: Channel, now: int)
    requires Consistent(c)
    ensures var out := AppliedFully(c, now);
      && out.added == c.detected && out.removed == c.removed
      && out.channel.detected == [] && out.channel.removed == []
      && (NoComma(c.detected) ==>
            forall x :: x in Local(out.channel.models) <==> x in c.detected || (x in Local(c.models) && x !in c.removed))
  {
    NormalIsFixed(c.detected);
    NormalIsFixed(c.removed);
    RemainingFacts(c, c.detected, [], c.removed, now);
    SelectAll(c);
    if NoComma(c.detected) {
      LocalAfterSelectAll(c, now);
    }
    FirstIsMember(AppliedFully(c, now).remaining);
    FirstIsMember(AppliedFully(c, now).remainingRemove);
    WholeSelection(c);
  }

  lemma WholeSelection(c: Channel)
    requires Consistent(c)
    ensures var sel := Selected(c, c.detected, [], c.removed); sel.adds == c.detected && sel.removes == c.removed
  {
    NormalIsFixed(c.detected);
    NormalIsFixed(c.removed);
    KeepAll(c.detected, Members(c.detected));
    KeepAll(c.removed, Members(c.removed));
    KeepAll(c.removed, Members(c.removed) - Members(c.detected));
  }

  ghost predicate AllConsistent(rows: seq<Row>) {
    forall i :: 0 <= i < |rows| ==> Consistent(rows[i].channel)
  }

  // No pending addition has a comma.
  predicate AllPlain(rows: seq<Row>) {
    forall i :: 0 <= i < |rows| ==> NoComma(rows[i].channel.detected)
  }

  // When no write is refused, one pass leaves nothing pending in any enabled channel that
  // takes part, even where abilities fail; a second pass changes nothing and reports nothing.
  lemma ApplyAllTwice(rows: seq<Row>, fault: int -> Fault, clock: int -> int, fault': int -> Fault, clock': int -> int)
    requires AllConsistent(rows) && forall i :: 0 <= i < |rows| ==> fault(rows[i].id) != WriteFails
    ensures var once := HandledAll(rows, Applying(fault, clock));
      && (forall i :: 0 <= i < |rows| ==> !Eligible(once[i]))
      && HandledAll(once, Applying(fault', clock')) == once
      && Reports(once, |once|, Applying(fault', clock')) == []
  {
    var once := HandledAll(rows, Applying(fault, clock));
    forall i | 0 <= i < |rows| ensures !Eligible(once[i]) {
      FullyApplied(rows[i].channel, clock(rows[i].id));
    }
    NoneEligible(once, |once|, fault', clock');
    assert forall i :: 0 <= i < |once| ==> Handled(once[i], Applying(fault', clock')) == once[i];
  }

  lemma {:induction false} NoneEligible(rows: seq<Row>, n: nat, fault: int -> Fault, clock: int -> int)
    requires n <= |rows| && forall i :: 0 <= i < |rows| ==> !Eligible(rows[i])
    ensures Reports(rows, n, Applying(fault, clock)) == []
  {
    if n > 0 {
      NoneEligible(rows, n - 1, fault, clock);
    }
  }

  // ---------- the counts balance ----------

  // The number of models that a channel lists, and the first n channels together.
  function Listing(): Row -> nat {
    (row: Row) => |Local(row.channel.models)|
  }

  function ModelsIn(rows: seq<Row>, n: nat): nat
    requires n <= |rows|
  {
    SumOver(rows, n, Listing())
  }

  lemma {:induction false} SizeOfMembers(names: seq<string>)
    requires Distinct(names)
    ensures |Members(names)| == |names|
  {
    if names != [] {
      var n := |names| - 1;
      SizeOfMembers(names[..n]);
      assert Members(names) == Members(names[..n]) + {names[n]};
    }
  }

  lemma NamesBalance(after: seq<string>, before: seq<string>, added: seq<string>, removed: seq<string>)
    requires Distinct(after) && Distinct(before) && Distinct(added) && Distinct(removed)
    requires forall x :: x in added ==> x !in before
    requires forall x :: x in removed ==> x in before
    requires forall x :: x in after <==> x in added || (x in before && x !in removed)
    ensures |after| + |removed| == |before| + |added|
  {
    SizeOfMembers(after);
    SizeOfMembers(before);
    SizeOfMembers(added);
    SizeOfMembers(removed);
    assert Members(after) == Members(added) + (Members(before) - Members(removed));
    SetsBalance(Members(after), Members(before), Members(added), Members(removed));
  }

  // A full application adds what was pending and removes what was pending, no more.
  lemma ModelsBalance(c: Channel, now: int)
    requires Consistent(c) && NoComma(c.detected)
    ensures |Local(AppliedFully(c, now).channel.models)| + |c.removed| == |Local(c.models)| + |c.detected|
  {
    FullyApplied(c, now);
    LocalNoComma(c.models);
    LocalNoComma(AppliedFully(c, now).channel.models);
    NamesBalance(Local(AppliedFully(c, now).channel.models), Local(c.models), c.detected, c.removed);
  }

  lemma SetsBalance(after: set<string>, before: set<string>, added: set<string>, removed: set<string>)
    requires added !! before && removed <= before && after == added + (before - removed)
    ensures |after| + |removed| == |before| + |added|
  {
    assert before == (before - removed) + removed;
  }

  // A row whose application is stored although it is reported as failed.
  predicate HalfDone(row: Row, fault: int -> Fault, clock: int -> int) {
    Eligible(row) && fault(row.id) == AbilitiesFail && AppliedFully(row.channel, clock(row.id)).modelsChanged
  }

  // What the application of a row adds and removes without reporting it.
  function HiddenAdds(fault: int -> Fault, clock: int -> int): Row -> nat {
    row => if HalfDone(row, fault, clock) then |row.channel.detected| else 0
  }

  function HiddenRemoves(fault: int -> Fault, clock: int -> int): Row -> nat {
    row => if HalfDone(row, fault, clock) then |row.channel.removed| else 0
  }

  // One pass over all channels, whatever the database does: the models listed afterwards,
  // plus the removed ones, are the models listed before, plus the added ones, where channels
  // whose abilities failed count although they are not in the report.
  lemma CountsBalance(rows: seq<Row>, n: nat, fault: int -> Fault, clock: int -> int)
    requires AllConsistent(rows) && AllPlain(rows) && n <= |rows|
    ensures var apply := Applying(fault, clock);
      var entries := Reports(rows, n, apply);
      ModelsIn(HandledAll(rows, apply), n) + RemovedIn(entries) + SumOver(rows, n, HiddenRemoves(fault, clock))
        == ModelsIn(rows, n) + AddedIn(entries) + SumOver(rows, n, HiddenAdds(fault, clock))
  {
    forall i | 0 <= i < |rows|
      ensures RowBalanced(rows[i], Listing(), Applying(fault, clock), HiddenAdds(fault, clock), HiddenRemoves(fault, clock))
    {
      RowBalances(rows[i], fault, clock);
    }
    RowsBalance(rows, n, Listing(), Applying(fault, clock), HiddenAdds(fault, clock), HiddenRemoves(fault, clock));
  }

  // The size of a row changes by what the row reports and by what it hides.
  predicate RowBalanced(row: Row, size: Row -> nat, apply: Handler<Entry>, adds: Row -> nat, removes: Row -> nat) {
    Balanced(size(row), size(Handled(row, apply)), if row.enabled then apply(row).1 else None, adds(row), removes(row))
  }

  lemma {:induction false} RowsBalance(rows: seq<Row>, n: nat, size: Row -> nat, apply: Handler<Entry>, adds: Row -> nat, removes: Row -> nat)
    requires n <= |rows| && forall i :: 0 <= i < |rows| ==> RowBalanced(rows[i], size, apply, adds, removes)
    ensures SumOver(HandledAll(rows, apply), n, size) + RemovedIn(Reports(rows, n, apply)) + SumOver(rows, n, removes)
      == SumOver(rows, n, size) + AddedIn(Reports(rows, n, apply)) + SumOver(rows, n, adds)
  {
    if n > 0 {
      RowsBalance(rows, n - 1, size, apply, adds, removes);
      var row := rows[n - 1];
      assert RowBalanced(row, size, apply, adds, removes);
      if row.enabled && apply(row).1.Some? {
        NotedCounts(Reports(rows, n - 1, apply), apply(row).1.value);
      }
    }
  }

  lemma NotedCounts(entries: seq<Entry>, e: Entry)
    ensures AddedIn(entries + [e]) == AddedIn(entries) + AddedBy(e)
    ensures RemovedIn(entries + [e]) == RemovedIn(entries) + RemovedBy(e)
  {
    assert (entries + [e])[..|entries|] == entries;
  }

  // What the application of a row comes to, by what the database does.
  lemma ApplyRowCases(row: Row, fault: int -> Fault, clock: int -> int)
    requires Eligible(row)
    ensures var out := AppliedFully(row.channel, clock(row.id));
      ApplyRow(row, fault, clock)
        == if fault(row.id) == WriteFails then (row.channel, Some(Failed(row.id)))
           else if HalfDone(row, fault, clock) then (out.channel, Some(Failed(row.id)))
           else (out.channel, Some(Done(row.id, out.added, out.removed, out.remaining, out.remainingRemove, out.modelsChanged)))
  {}

  lemma FullSizes(c: Channel, now: int)
    requires Consistent(c) && NoComma(c.detected)
    ensures var out := AppliedFully(c, now);
      && |out.added| == |c.detected| && |out.removed| == |c.removed|
      && |Local(out.channel.models)| + |out.removed| == |Local(c.models)| + |out.added|
  {
    ModelsBalance(c, now);
    FullyApplied(c, now);
  }

  // The models of a row after its application, with what the report says and what it hides.
  predicate Balanced(before: nat, after: nat, r: Option<Entry>, hiddenAdds: nat, hiddenRemoves: nat) {
    after + (if r.Some? then RemovedBy(r.value) else 0) + hiddenRemoves
      == before + (if r.Some? then AddedBy(r.value) else 0) + hiddenAdds
  }

  lemma ApplyRowBalance(row: Row, fault: int -> Fault, clock: int -> int)
    requires Consistent(row.channel) && NoComma(row.channel.detected) && row.enabled
    ensures var (c, r) := ApplyRow(row, fault, clock);
      var hidden := HalfDone(row, fault, clock);
      Balanced(|Local(row.channel.models)|, |Local(c.models)|, r,
               if hidden then |row.channel.detected| else 0, if hidden then |row.channel.removed| else 0)
  {
    if Eligible(row) {
      ApplyRowCases(row, fault, clock);
      FullSizes(row.channel, clock(row.id));
    }
  }

  lemma RowBalances(row: Row, fault: int -> Fault, clock: int -> int)
    requires Consistent(row.channel) && NoComma(row.channel.detected)
    ensures RowBalanced(row, Listing(), Applying(fault, clock), HiddenAdds(fault, clock), HiddenRemoves(fault, clock))
  {
    if row.enabled {
      ApplyRowBalance(row, fault, clock);
    }
  }

  // ---------- detecting for all channels ----------

  datatype Found =
    | Found(id: int, adds: seq<string>, removes: seq<string>, lastCheck: int, autoAdded: nat)
    | Unread(id: int)

  // What the upstreams answer, the clock shows and the database does, by channel id, during
  // one pass.
  datatype World = World(fetched: int -> Option<seq<string>>, clock: int -> int, fault: int -> Fault)

  // A row as the queries of the passes load it: the model mapping is not among the columns
  // they select.
  function Loaded(row: Row): Row {
    row.(setup := Queried(row.setup))
  }

  function Queried(setup: Setup): Setup {
    setup.(mapping := map[])
  }

  function DetectRow(row: Row, w: World, matches: Matcher): (Channel, Option<Found>) {
    if !row.checks then (row.channel, None)
    else
      var out := CheckedWith(row.channel, row.setup, w.fetched(row.id), true, false, w.clock(row.id), matches, w.fault(row.id));
      if out.failed then (out.channel, Some(Unread(row.id)))
      else
        (out.channel, Some(Found.Found(row.id, Normalize(out.channel.detected), Normalize(out.channel.removed),
                                       out.channel.lastCheck, out.autoAdded)))
  }

  function Detecting(w: World, matches: Matcher): Handler<Found> {
    row => DetectRow(Loaded(row), w, matches)
  }

  function AddsFound(entries: seq<Found>): nat {
    if entries == [] then 0
    else
      var e := entries[|entries| - 1];
      AddsFound(entries[..|entries| - 1]) + if e.Found? then |e.adds| else 0
  }

  function RemovesFound(entries: seq<Found>): nat {
    if entries == [] then 0
    else
      var e := entries[|entries| - 1];
      RemovesFound(entries[..|entries| - 1]) + if e.Found? then |e.removes| else 0
  }

  datatype Findings = Findings(entries: seq<Found>, adds: nat, removes: nat)

  method DetectAll(table: Table, queryFails: nat -> bool, w: World, matches: Matcher)
    returns (report: Option<Findings>, ghost done: nat)
    requires Ordered(table.rows)
    modifies table
    ensures done <= |old(table.rows)| && table.rows == Partly(old(table.rows), done, Detecting(w, matches))
    ensures (forall b :: !queryFails(b)) ==> report.Some?
    ensures report.Some? ==> done == |old(table.rows)|
    ensures report.Some? ==>
      var entries := Reports(old(table.rows), done, Detecting(w, matches));
      report.value == Findings(entries, AddsFound(entries), RemovesFound(entries))
  {
    var entries, complete;
    entries, complete, done := table.Walk(BATCH_SIZE, queryFails, Detecting(w, matches));
    if !complete {
      return None, done;
    }
    var adds, removes := CountFound(entries);
    report := Some(Findings(entries, adds, removes));
  }

  method CountFound(entries: seq<Found>) returns (adds: nat, removes: nat)
    ensures adds == AddsFound(entries) && removes == RemovesFound(entries)
  {
    adds, removes := 0, 0;
    for n := 0 to |entries|
      invariant adds == AddsFound(entries[..n]) && removes == RemovesFound(entries[..n])
    {
      assert entries[..n + 1][..n] == entries[..n];
      if entries[n].Found? {
        adds := adds + |entries[n].adds|;
        removes := removes + |entries[n].removes|;
      }
    }
    assert entries[..|entries|] == entries;
  }

  // The writes of the row are not refused in a pass, and its upstream gives this answer.
  ghost predicate Answers(w: World, id: int, upstream: seq<string>) {
    w.fetched(id) == Some(upstream) && w.fault(id) != WriteFails
  }

  // Detect for all, apply for all, detect for all again with the same answer: in an enabled
  // channel that takes part and whose writes are not refused nothing is pending, exactly when
  // the names that a pass finds can be stored and take no rule away that is still needed.
  lemma DetectApplyDetectExactly(rows: seq<Row>, i: nat, w: World, fault: int -> Fault, clock: int -> int, w': World,
                                 upstream: seq<string>, matches: Matcher)
    requires i < |rows| && rows[i].enabled && rows[i].checks
    requires Answers(w, rows[i].id, upstream) && fault(rows[i].id) != WriteFails && Answers(w', rows[i].id, upstream)
    ensures var end := HandledAll(HandledAll(HandledAll(rows, Detecting(w, matches)), Applying(fault, clock)), Detecting(w', matches));
      end[i].channel.detected == [] && end[i].channel.removed == []
      <==> Settles(rows[i].channel, Queried(rows[i].setup), upstream, matches)
  {
    ThreeHandlers(rows, i, Detecting(w, matches), Applying(fault, clock), Detecting(w', matches));
    ThreePasses(rows[i], w, fault, clock, w', upstream, matches);
  }

  lemma ThreeHandlers(rows: seq<Row>, i: nat, detect: Handler<Found>, apply: Handler<Entry>, again: Handler<Found>)
    requires i < |rows|
    ensures HandledAll(HandledAll(HandledAll(rows, detect), apply), again)[i]
      == Handled(Handled(Handled(rows[i], detect), apply), again)
  {}

  lemma ThreePasses(row: Row, w: World, fault: int -> Fault, clock: int -> int, w': World, upstream: seq<string>, matches: Matcher)
    requires row.enabled && row.checks
    requires Answers(w, row.id, upstream) && fault(row.id) != WriteFails && Answers(w', row.id, upstream)
    ensures var end := Handled(Handled(Handled(row, Detecting(w, matches)), Applying(fault, clock)), Detecting(w', matches)).channel;
      end.detected == [] && end.removed == [] <==> Settles(row.channel, Queried(row.setup), upstream, matches)
  {
    TwoPasses(row, w, fault, clock, upstream, matches);
    var applied := Handled(Handled(row, Detecting(w, matches)), Applying(fault, clock));
    RowSettles(row.channel, Queried(row.setup), upstream, w.clock(row.id), clock(row.id), matches);
    DetectedRow(applied, w', upstream, matches);
  }

  // The channel after detecting for all and applying for all.
  function Detected(c: Channel, setup: Setup, upstream: seq<string>, now: int, matches: Matcher): Channel {
    Checked(c, setup, Some(upstream), true, false, now, matches).channel
  }

  function Updated(c: Channel, setup: Setup, upstream: seq<string>, now: int, later: int, matches: Matcher): Channel {
    var found := Detected(c, setup, upstream, now, matches);
    if Pending(found) then AppliedFully(found, later).channel else found
  }

  lemma TwoPasses(row: Row, w: World, fault: int -> Fault, clock: int -> int, upstream: seq<string>, matches: Matcher)
    requires row.enabled && row.checks && Answers(w, row.id, upstream) && fault(row.id) != WriteFails
    ensures Handled(Handled(row, Detecting(w, matches)), Applying(fault, clock))
      == row.(channel := Updated(row.channel, Queried(row.setup), upstream, w.clock(row.id), clock(row.id), matches))
  {
    DetectedRow(row, w, upstream, matches);
  }

  // A detection that is stored puts down what it finds.
  lemma DetectedRow(row: Row, w: World, upstream: seq<string>, matches: Matcher)
    requires row.enabled && row.checks && Answers(w, row.id, upstream)
    ensures var c := Handled(row, Detecting(w, matches)).channel;
      && c == Detected(row.channel, Queried(row.setup), upstream, w.clock(row.id), matches)
      && (c.detected, c.removed) == DetectFor(row.channel, Queried(row.setup), upstream, matches)
  {}

  lemma RowSettles(c: Channel, setup: Setup, upstream: seq<string>, now: int, later: int, matches: Matcher)
    ensures DetectFor(Updated(c, setup, upstream, now, later, matches), setup, upstream, matches) == ([], [])
      <==> Settles(c, setup, upstream, matches)
  {
    var found := Detected(c, setup, upstream, now, matches);
    DetectFacts(c, setup, upstream, matches);
    NormalIsFixed(found.detected);
    NormalIsFixed(found.removed);
    if Pending(found) {
      ApplyAllSettles(c, setup, upstream, now, later, matches);
    } else {
      NothingToSettle(c, setup, upstream, matches);
    }
  }

  lemma NothingToSettle(c: Channel, setup: Setup, upstream: seq<string>, matches: Matcher)
    requires DetectFor(c, setup, upstream, matches).0 == []
    ensures Settles(c, setup, upstream, matches)
  {
    forall x ensures Ignored(Subtract(c.ignored, []), x, matches) <==> Ignored(c.ignored, x, matches) {
      RulesWithout(c.ignored, [], x, matches);
    }
  }
}
