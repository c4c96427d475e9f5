/** The passes over all channels, told row by row and entry by entry. */
module SyncLaws {
  import opened Wrappers
  import opened ModelNames
  import opened UpstreamSync
  import opened Batches
  import SyncAll
  import SyncTask
  import UpstreamRules

  // ---------- one row ----------

  // Applying: a channel that does not take part or has nothing pending is left alone. A refused write
  // leaves it alone and counts as failed; failing abilities count as failed although everything is
  // stored; otherwise all results are reported.
  lemma ApplyRowLaw(row: Row, fault: int -> Fault, clock: int -> int)
    ensures var (c, r) := SyncAll.ApplyRow(row, fault, clock);
      var adds, removes := Normalize(row.channel.detected), Normalize(row.channel.removed);
      var out := Applied(row.channel, adds, [], removes, clock(row.id));
      && (!row.checks || (adds == [] && removes == []) ==> c == row.channel && r == None)
      && (row.checks && (adds != [] || removes != []) ==> AppliedTo(row, fault(row.id), out, c, r))
  {
    var adds, removes := Normalize(row.channel.detected), Normalize(row.channel.removed);
    if row.checks && (adds != [] || removes != []) {
      UpstreamRules.SelectionFaultLaw(row.channel, adds, [], removes, clock(row.id), fault(row.id));
    }
  }

  // What becomes of a row and its entry when this is to be applied.
  predicate AppliedTo(row: Row, fault: Fault, out: ApplyOutcome, c: Channel, r: Option<SyncAll.Entry>) {
    && (fault == WriteFails ==> c == row.channel && r == Some(SyncAll.Failed(row.id)))
    && (fault != WriteFails ==> c == out.channel)
    && (fault == AbilitiesFail && out.modelsChanged ==> r == Some(SyncAll.Failed(row.id)))
    && (fault == Fine || (fault == AbilitiesFail && !out.modelsChanged) ==>
          r == Some(SyncAll.Done(row.id, out.added, out.removed, out.remaining, out.remainingRemove, out.modelsChanged)))
  }

  // Detecting: a forced check without automatic application and without the model mapping.
  lemma DetectRowLaw(row: Row, w: SyncAll.World, matches: Matcher)
    ensures var (c, r) := SyncAll.Detecting(w, matches)(row);
      && (!row.checks ==> c == row.channel && r == None)
      && (row.checks ==>
            var out := CheckedWith(row.channel, Setup(row.setup.autoSync, map[]), w.fetched(row.id), true, false,
                                   w.clock(row.id), matches, w.fault(row.id));
            && c == out.channel
            && r == Some(if out.failed then SyncAll.Unread(row.id)
                         else SyncAll.Found.Found(row.id, Normalize(c.detected), Normalize(c.removed), c.lastCheck, out.autoAdded)))
  {}

  // The periodic check: with automatic application, and only when the last check is not more recent
  // than the interval.
  lemma TaskRowLaw(row: Row, w: SyncAll.World, minInterval: int, matches: Matcher)
    ensures var (c, r) := SyncTask.Tasking(w, minInterval, matches)(row);
      var now := w.clock(row.id);
      && (!row.checks ==> c == row.channel && r == None)
      && (row.checks ==>
            var due := row.channel.lastCheck <= 0 || now - row.channel.lastCheck >= minInterval;
            var out := CheckedWith(row.channel, Setup(row.setup.autoSync, map[]), w.fetched(row.id), due, true, now, matches, w.fault(row.id));
            && c == out.channel
            && r == Some(if out.failed then SyncTask.Missed(row.id)
                         else SyncTask.Seen(row.id, |Normalize(c.detected)| + out.autoAdded, |Normalize(c.removed)|,
                                            out.autoAdded, out.modelsChanged)))
  {}

  // Only enabled rows are handled, and only their channel changes.
  lemma HandledLaw<E>(row: Row, handle: Handler<E>)
    ensures var next := Handled(row, handle);
      && next.id == row.id && next.enabled == row.enabled && next.checks == row.checks && next.setup == row.setup
      && next.channel == if row.enabled then handle(row).0 else row.channel
  {}

  // ---------- counts ----------

  // The report of an application pass adds up over its entries.
  lemma {:induction false} CountsLaw(a: seq<SyncAll.Entry>, b: seq<SyncAll.Entry>)
    ensures SyncAll.AddedIn(a + b) == SyncAll.AddedIn(a) + SyncAll.AddedIn(b)
    ensures SyncAll.RemovedIn(a + b) == SyncAll.RemovedIn(a) + SyncAll.RemovedIn(b)
  {
    if b == [] {
      assert a + b == a;
    } else {
      var n := |b| - 1;
      CountsLaw(a, b[..n]);
      assert (a + b)[..|a + b| - 1] == a + b[..n];
    }
  }

  lemma {:induction false} ListsLaw(a: seq<SyncAll.Entry>, b: seq<SyncAll.Entry>)
    ensures SyncAll.DoneIn(a + b) == SyncAll.DoneIn(a) + SyncAll.DoneIn(b)
    ensures SyncAll.FailedIn(a + b) == SyncAll.FailedIn(a) + SyncAll.FailedIn(b)
  {
    if b == [] {
      assert a + b == a;
    } else {
      var n := |b| - 1;
      ListsLaw(a, b[..n]);
      assert (a + b)[..|a + b| - 1] == a + b[..n];
    }
  }

  lemma OneEntryLaw(e: SyncAll.Entry)
    ensures SyncAll.DoneIn([e]) == if e.Done? then [e] else []
    ensures SyncAll.FailedIn([e]) == if e.Done? then [] else [e.id]
    ensures SyncAll.AddedIn([e]) == if e.Done? then |e.added| else 0
    ensures SyncAll.RemovedIn([e]) == if e.Done? then |e.removed| else 0
  {
    assert [e][..0] == [];
  }

  // So do the counts of a detection pass.
  lemma {:induction false} FindingsLaw(a: seq<SyncAll.Found>, b: seq<SyncAll.Found>)
    ensures SyncAll.AddsFound(a + b) == SyncAll.AddsFound(a) + SyncAll.AddsFound(b)
    ensures SyncAll.RemovesFound(a + b) == SyncAll.RemovesFound(a) + SyncAll.RemovesFound(b)
    ensures |b| == 1 ==> SyncAll.AddsFound(b) == if b[0].Unread? then 0 else |b[0].adds|
    ensures |b| == 1 ==> SyncAll.RemovesFound(b) == if b[0].Unread? then 0 else |b[0].removes|
  {
    if b == [] {
      assert a + b == a;
    } else {
      var n := |b| - 1;
      FindingsLaw(a, b[..n]);
      assert (a + b)[..|a + b| - 1] == a + b[..n];
      assert n == 0 ==> b[..n] == [];
    }
  }

  // And the totals of the periodic check.
  lemma {:induction false} TotalsLaw(a: seq<SyncTask.Entry>, b: seq<SyncTask.Entry>)
    ensures var x, y, z := SyncTask.Total(a), SyncTask.Total(b), SyncTask.Total(a + b);
      && z.checked == x.checked + y.checked && z.changed == x.changed + y.changed
      && z.adds == x.adds + y.adds && z.removes == x.removes + y.removes
      && z.autoAdded == x.autoAdded + y.autoAdded && z.failed == x.failed + y.failed
  {
    if b == [] {
      assert a + b == a;
    } else {
      var n := |b| - 1;
      TotalsLaw(a, b[..n]);
      assert (a + b)[..|a + b| - 1] == a + b[..n];
    }
  }

  // One channel counts as checked; as changed if something is to be added or removed; a channel that
  // could not be checked counts as failed and nothing else.
  lemma OneTotalLaw(e: SyncTask.Entry)
    ensures e.Missed? ==> SyncTask.Total([e]) == SyncTask.Totals(1, 0, 0, 0, 0, [e.id])
    ensures e.Seen? ==>
      SyncTask.Total([e]) == SyncTask.Totals(1, if e.adds == 0 && e.removes == 0 then 0 else 1, e.adds, e.removes, e.autoAdded, [])
  {
    assert [e][..0] == [];
  }
}
