/** Runs of checks and applications on one channel, and what is pending in between. */
module UpstreamRuns {
  import opened Wrappers
  import opened ModelNames
  import opened UpstreamSync
  import Text

  datatype Event =
    | Check(fetched: Option<seq<string>>, due: bool, allowAutoApply: bool, now: int, fault: Fault)
    | Choose(adds: seq<string>, ignores: seq<string>, removes: seq<string>, now: int, fault: Fault)

  function Next(c: Channel, setup: Setup, e: Event, matches: Matcher): Channel {
    match e
    case Check(fetched, due, allowAutoApply, now, fault) =>
      CheckedWith(c, setup, fetched, due, allowAutoApply, now, matches, fault).channel
    case Choose(adds, ignores, removes, now, fault) => AppliedWith(c, adds, ignores, removes, now, fault).channel
  }

  function After(c: Channel, setup: Setup, events: seq<Event>, matches: Matcher): Channel {
    if events == [] then c
    else Next(After(c, setup, events[..|events| - 1], matches), setup, events[|events| - 1], matches)
  }

  // Pending additions: no repeats, none of them local. Pending removals: all of them local.
  predicate Consistent(c: Channel) {
    && Normal(c.detected) && Normal(c.removed)
    && (forall x :: x in c.detected ==> x !in Local(c.models))
    && (forall x :: x in c.removed ==> x in Local(c.models))
  }

  // ---------- one step ----------

  // No name that stays pending is a part, between commas, of a name that is added.
  predicate Apart(c: Channel, sel: Selection) {
    forall x :: x in StillToAdd(c.detected, sel) ==> !PartOf(x, sel.adds)
  }

  // A selection leaves a consistent channel exactly when what it adds and what it leaves
  // pending are apart.
  lemma ChooseKeepsExactly(c: Channel, adds: seq<string>, ignores: seq<string>, removes: seq<string>, now: int)
    requires Consistent(c)
    ensures Consistent(Applied(c, adds, ignores, removes, now).channel) <==> Apart(c, Selected(c, adds, ignores, removes))
  {
    var sel := Selected(c, adds, ignores, removes);
    var next := Applied(c, adds, ignores, removes, now).channel;
    NormalIsFixed(c.detected);
    NormalIsFixed(c.removed);
    SelectedFacts(c, adds, ignores, removes);
    RemainingFacts(c, adds, ignores, removes, now);
    forall x ensures x in Local(next.models) <==> (x in Local(c.models) && x !in sel.removes) || PartOf(x, sel.adds) {
      AppliedParts(c, adds, ignores, removes, now, x);
    }
  }

  lemma FoundIsConsistent(c: Channel, setup: Setup, upstream: seq<string>, matches: Matcher, next: Channel)
    requires next.models == c.models && (next.detected, next.removed) == DetectFor(c, setup, upstream, matches)
    ensures Consistent(next)
  {
    DetectFacts(c, setup, upstream, matches);
  }

  lemma StaysLocal(models: string, adds: seq<string>, x: string)
    requires x in Local(models)
    ensures x in Local(Text.Join(Local(models) + adds, ','))
  {
    LocalNoComma(models);
    PlainIsStored(x);
    PartsAreStored(Local(models) + adds, x);
    assert x in Local(models) + adds;
  }

  lemma GrownIsConsistent(c: Channel, setup: Setup, upstream: seq<string>, matches: Matcher, next: Channel)
    requires next.models == Text.Join(Local(c.models) + DetectFor(c, setup, upstream, matches).0, ',')
    requires next.detected == [] && next.removed == DetectFor(c, setup, upstream, matches).1
    ensures Consistent(next)
  {
    DetectFacts(c, setup, upstream, matches);
    forall x | x in next.removed ensures x in Local(next.models) {
      StaysLocal(c.models, DetectFor(c, setup, upstream, matches).0, x);
    }
  }

  // A check keeps the channel consistent, whatever the upstream lists.
  lemma CheckKeepsConsistent(c: Channel, setup: Setup, e: Event, matches: Matcher)
    requires Consistent(c) && e.Check?
    ensures Consistent(Next(c, setup, e, matches))
  {
    if e.due && e.fetched.Some? && !e.fault.WriteFails? {
      var adds := DetectFor(c, setup, e.fetched.value, matches).0;
      var next := Next(c, setup, e, matches);
      if e.allowAutoApply && setup.autoSync && |adds| > 0 {
        AutoAppends(c, setup, e.fetched.value, matches);
        GrownIsConsistent(c, setup, e.fetched.value, matches, next);
      } else {
        FoundIsConsistent(c, setup, e.fetched.value, matches, next);
      }
    }
  }

  // ---------- runs ----------

  predicate StepApart(c: Channel, e: Event) {
    e.Choose? && !e.fault.WriteFails? ==> Apart(c, Selected(c, e.adds, e.ignores, e.removes))
  }

  lemma StepKeepsExactly(c: Channel, setup: Setup, e: Event, matches: Matcher)
    requires Consistent(c)
    ensures Consistent(Next(c, setup, e, matches)) <==> StepApart(c, e)
  {
    match e
    case Check(_, _, _, _, _) => CheckKeepsConsistent(c, setup, e, matches);
    case Choose(adds, ignores, removes, now, _) => ChooseKeepsExactly(c, adds, ignores, removes, now);
  }

  // The channel is consistent at every point of the run.
  predicate Throughout(c: Channel, setup: Setup, events: seq<Event>, matches: Matcher) {
    && Consistent(After(c, setup, events, matches))
    && (events != [] ==> Throughout(c, setup, events[..|events| - 1], matches))
  }

  // Every selection of the run adds names apart from those it leaves pending.
  predicate RunApart(c: Channel, setup: Setup, events: seq<Event>, matches: Matcher) {
    events != [] ==>
      var before := events[..|events| - 1];
      StepApart(After(c, setup, before, matches), events[|events| - 1]) && RunApart(c, setup, before, matches)
  }

  // In every state of every run of checks, failed checks, automatic and partial applications,
  // with writes that are refused or only half done, and whatever names the upstream lists:
  // consistent throughout exactly when every selection is apart from what it leaves pending.
  lemma {:induction false} RunsStayConsistentExactly(c: Channel, setup: Setup, events: seq<Event>, matches: Matcher)
    requires Consistent(c)
    ensures Throughout(c, setup, events, matches) <==> RunApart(c, setup, events, matches)
  {
    if events != [] {
      var n := |events| - 1;
      RunsStayConsistentExactly(c, setup, events[..n], matches);
      if Throughout(c, setup, events[..n], matches) {
        StepKeepsExactly(After(c, setup, events[..n], matches), setup, events[n], matches);
      }
    }
  }

  // ---------- names without commas ----------

  // The upstream lists no name with a comma.
  predicate PlainNames(e: Event) {
    e.Check? && e.fetched.Some? ==> NoComma(e.fetched.value)
  }

  lemma PlainIsApart(c: Channel, adds: seq<string>, ignores: seq<string>, removes: seq<string>, now: int)
    requires Consistent(c) && NoComma(c.detected)
    ensures Apart(c, Selected(c, adds, ignores, removes))
    ensures NoComma(Applied(c, adds, ignores, removes, now).channel.detected)
  {
    var sel := Selected(c, adds, ignores, removes);
    NormalIsFixed(c.detected);
    SelectedFacts(c, adds, ignores, removes);
    RemainingFacts(c, adds, ignores, removes, now);
    forall name | name in sel.adds ensures Local(name) == [name] {
      PlainIsStored(name);
    }
  }

  lemma CheckKeepsPlain(c: Channel, setup: Setup, e: Event, matches: Matcher)
    requires NoComma(c.detected) && e.Check? && PlainNames(e)
    ensures NoComma(Next(c, setup, e, matches).detected)
  {
    if e.fetched.Some? {
      DetectFacts(c, setup, e.fetched.value, matches);
      NormalizeNoComma(e.fetched.value);
    }
  }

  // While no upstream name has a comma, every run stays consistent.
  lemma {:induction false} RunsStayConsistent(c: Channel, setup: Setup, events: seq<Event>, matches: Matcher)
    requires Consistent(c) && NoComma(c.detected) && forall i :: 0 <= i < |events| ==> PlainNames(events[i])
    ensures Consistent(After(c, setup, events, matches)) && NoComma(After(c, setup, events, matches).detected)
  {
    if events != [] {
      var n := |events| - 1;
      RunsStayConsistent(c, setup, events[..n], matches);
      var before := After(c, setup, events[..n], matches);
      StepKeepsExactly(before, setup, events[n], matches);
      match events[n]
      case Check(_, _, _, _, _) => CheckKeepsPlain(before, setup, events[n], matches);
      case Choose(adds, ignores, removes, now, _) => PlainIsApart(before, adds, ignores, removes, now);
    }
  }

  // Whenever a name is chosen and a part of it stays pending, the part is pending and local.
  lemma PartStaysPending(c: Channel, adds: seq<string>, ignores: seq<string>, removes: seq<string>, now: int,
                         whole: string, part: string)
    requires Consistent(c) && whole in c.detected && part in c.detected && part in Local(whole)
    requires whole in Normalize(adds) && part !in Normalize(adds) && part !in Normalize(ignores)
    ensures !Consistent(Applied(c, adds, ignores, removes, now).channel)
  {
    NormalIsFixed(c.detected);
    SelectedFacts(c, adds, ignores, removes);
    RemainingFacts(c, adds, ignores, removes, now);
    assert PartOf(part, Selected(c, adds, ignores, removes).adds);
    ChooseKeepsExactly(c, adds, ignores, removes, now);
  }

  lemma PartOfPair(whole: string, part: string, rest: string)
    requires part == "a" && rest == "b" && whole == part + [','] + rest
    ensures Proper(whole) && Proper(part) && part in Local(whole) && whole != part
  {
    Text.VisibleIsNoSpace(part[0]);
    Text.VisibleIsNoSpace(rest[0]);
    Text.TrimmedIsFixed(whole, Text.SPACES);
    Text.TrimmedIsFixed(part, Text.SPACES);
    PlainIsStored(part);
    LocalOfPair(part, rest);
  }

  lemma TwoPending(c: Channel, whole: string, part: string)
    requires Proper(whole) && Proper(part) && whole != part
    requires c.models == "" && c.detected == [whole, part] && c.removed == []
    ensures Consistent(c) && whole in c.detected && part in c.detected
  {
    LocalOfNothing(c.models);
  }

  // For example: the names "a,b" and "a" are pending and only the first is chosen.
  lemma PendingAndLocal(c: Channel, adds: seq<string>, ignores: seq<string>, removes: seq<string>, now: int,
                        whole: string, part: string, rest: string)
    requires part == "a" && rest == "b" && whole == part + [','] + rest
    requires c == Channel("", [whole, part], [], [], 0) && adds == [whole] && ignores == []
    ensures Consistent(c) && !Consistent(Applied(c, adds, ignores, removes, now).channel)
  {
    PartOfPair(whole, part, rest);
    TwoPending(c, whole, part);
    OnlyName(whole, part);
    PartStaysPending(c, adds, ignores, removes, now, whole, part);
  }

  lemma OnlyName(name: string, other: string)
    requires Proper(name) && name != other
    ensures Normalize([name]) == [name] && other !in Normalize([name]) && Normalize([]) == []
  {
    NormalIsFixed([name]);
  }
}
