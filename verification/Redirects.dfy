/** The passes over all channels load every column of a channel but its model mapping, so they
    detect without redirects. The detection for a single channel knows them. */
module Redirects {
  import opened Wrappers
  import opened ModelNames
  import opened UpstreamSync
  import opened UpstreamRuns
  import opened Batches
  import opened SyncAll
  import Text

  // ---------- when a pass finds what a single detection finds ----------

  // No redirect target is new upstream.
  ghost predicate TargetsCovered(c: Channel, setup: Setup, upstream: seq<string>, matches: Matcher) {
    forall x :: x in setup.mapping.Values && x in Normalize(upstream) ==> x in Local(c.models) || Ignored(c.ignored, x, matches)
  }

  // Every redirect source that the channel lists is served upstream under its own name.
  predicate SourcesServed(c: Channel, setup: Setup, upstream: seq<string>) {
    forall x :: x in setup.mapping && x in Local(c.models) ==> x in Normalize(upstream)
  }

  ghost predicate Agrees(c: Channel, setup: Setup, upstream: seq<string>, matches: Matcher) {
    TargetsCovered(c, setup, upstream, matches) && SourcesServed(c, setup, upstream)
  }

  lemma SameDetection(c: Channel, setup: Setup, upstream: seq<string>, matches: Matcher)
    requires Agrees(c, setup, upstream, matches)
    ensures DetectFor(c, Queried(setup), upstream, matches) == DetectFor(c, setup, upstream, matches)
  {
    var local, up, bare := Local(c.models), Normalize(upstream), Queried(setup);
    assert Missing(local, up, c.ignored, bare.mapping, matches) == Missing(local, up, c.ignored, setup.mapping, matches);
    assert Extinct(local, up, bare.mapping) == Extinct(local, up, setup.mapping);
  }

  // A pass and a single detection find the same, exactly when no redirect target is new
  // upstream and every listed redirect source is served upstream.
  lemma PassAgreesExactly(c: Channel, setup: Setup, upstream: seq<string>, matches: Matcher)
    ensures DetectFor(c, Queried(setup), upstream, matches) == DetectFor(c, setup, upstream, matches)
      <==> Agrees(c, setup, upstream, matches)
  {
    var bare, full := DetectFor(c, Queried(setup), upstream, matches), DetectFor(c, setup, upstream, matches);
    DetectFacts(c, Queried(setup), upstream, matches);
    DetectFacts(c, setup, upstream, matches);
    if Agrees(c, setup, upstream, matches) {
      SameDetection(c, setup, upstream, matches);
    } else if !TargetsCovered(c, setup, upstream, matches) {
      var x :| x in setup.mapping.Values && x in Normalize(upstream) && x !in Local(c.models) && !Ignored(c.ignored, x, matches);
      assert x in bare.0 && x !in full.0;
    } else {
      var x :| x in setup.mapping && x in Local(c.models) && x !in Normalize(upstream);
      assert x in bare.1 && x !in full.1;
    }
  }

  // The channel after a detection that knows the mapping.
  function Single(row: Row, w: World, matches: Matcher): Channel {
    CheckedWith(row.channel, row.setup, w.fetched(row.id), true, false, w.clock(row.id), matches, w.fault(row.id)).channel
  }

  // The same for what is stored: a pass leaves the channel as a single detection would, exactly
  // when nothing could be read or stored, or both find the same.
  lemma PassStoresTheSameExactly(row: Row, w: World, matches: Matcher)
    requires row.enabled && row.checks
    ensures Handled(row, Detecting(w, matches)).channel == Single(row, w, matches)
      <==> w.fetched(row.id).None? || w.fault(row.id) == WriteFails || Agrees(row.channel, row.setup, w.fetched(row.id).value, matches)
  {
    if w.fetched(row.id).Some? {
      PassAgreesExactly(row.channel, row.setup, w.fetched(row.id).value, matches);
    }
  }

  // ---------- redirect sources are taken away ----------

  lemma LocalAfterUpdate(c: Channel, setup: Setup, upstream: seq<string>, now: int, later: int, matches: Matcher, x: string)
    ensures var (adds, removes) := DetectFor(c, setup, upstream, matches);
      x in Local(Updated(c, setup, upstream, now, later, matches).models)
      <==> (x in Local(c.models) && x !in removes) || PartOf(x, adds)
  {
    var found := Detected(c, setup, upstream, now, matches);
    FoundIsConsistent(c, setup, upstream, matches, found);
    NormalIsFixed(found.detected);
    NormalIsFixed(found.removed);
    if Pending(found) {
      WholeSelection(found);
      AppliedParts(found, found.detected, [], found.removed, later, x);
    }
  }

  // A redirect source that the channel lists is still listed after detecting for all and
  // applying for all, exactly when the upstream serves it or a new name has it as a part.
  lemma SourceStaysExactly(row: Row, w: World, fault: int -> Fault, clock: int -> int, upstream: seq<string>, matches: Matcher, x: string)
    requires row.enabled && row.checks && Answers(w, row.id, upstream) && fault(row.id) != WriteFails
    requires x in row.setup.mapping && x in Local(row.channel.models)
    ensures var after := Handled(Handled(row, Detecting(w, matches)), Applying(fault, clock)).channel;
      x in Local(after.models)
      <==> x in Normalize(upstream) || PartOf(x, DetectFor(row.channel, Queried(row.setup), upstream, matches).0)
  {
    TwoPasses(row, w, fault, clock, upstream, matches);
    DetectFacts(row.channel, Queried(row.setup), upstream, matches);
    LocalAfterUpdate(row.channel, Queried(row.setup), upstream, w.clock(row.id), clock(row.id), matches, x);
  }

  // For example a channel that lists the alias "a" for the upstream's one model "x": a single
  // detection finds nothing to do, and the two passes take the alias away.
  lemma AliasVanishes(row: Row, w: World, fault: int -> Fault, clock: int -> int, matches: Matcher, alias: string, target: string,
                      upstream: seq<string>)
    requires alias == "a" && target == "x" && upstream == [target]
    requires row == Row(1, true, true, Setup(false, map[alias := target]), Channel(alias, [], [], [], 0))
    requires Answers(w, 1, upstream) && fault(1) != WriteFails
    ensures DetectFor(row.channel, row.setup, upstream, matches) == ([], [])
    ensures alias in Local(row.channel.models)
    ensures alias !in Local(Handled(Handled(row, Detecting(w, matches)), Applying(fault, clock)).channel.models)
  {
    Letters(alias, target);
    OnlyName(target, alias);
    PlainIsStored(alias);
    PlainIsStored(target);
    NothingToDo(row.channel, row.setup, upstream, matches, alias, target);
    OnlyTargetIsNew(row.channel, Queried(row.setup), upstream, matches, alias, target);
    SourceStaysExactly(row, w, fault, clock, upstream, matches, alias);
  }

  lemma Letters(alias: string, target: string)
    requires alias == "a" && target == "x"
    ensures Proper(alias) && Proper(target) && ',' !in alias && ',' !in target && alias != target
  {
    Text.VisibleIsNoSpace(alias[0]);
    Text.VisibleIsNoSpace(target[0]);
    Text.TrimmedIsFixed(alias, Text.SPACES);
    Text.TrimmedIsFixed(target, Text.SPACES);
  }

  lemma NothingToDo(c: Channel, setup: Setup, upstream: seq<string>, matches: Matcher, alias: string, target: string)
    requires Local(c.models) == [alias] && Normalize(upstream) == [target]
    requires alias in setup.mapping && target in setup.mapping.Values
    ensures DetectFor(c, setup, upstream, matches) == ([], [])
  {
    var (adds, removes) := DetectFor(c, setup, upstream, matches);
    DetectFacts(c, setup, upstream, matches);
    FirstIsMember(adds);
    FirstIsMember(removes);
  }

  lemma OnlyTargetIsNew(c: Channel, setup: Setup, upstream: seq<string>, matches: Matcher, alias: string, target: string)
    requires Normalize(upstream) == [target] && Local(target) == [target] && alias != target
    ensures !PartOf(alias, DetectFor(c, setup, upstream, matches).0)
  {
    DetectFacts(c, setup, upstream, matches);
  }
}
