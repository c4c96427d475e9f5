/** Ignore rules: what they keep out of the additions, told on the rules themselves, and that an
    ignored name stays out over every later run. */
module UpstreamRules {
  import opened Wrappers
  import opened ModelNames
  import opened UpstreamSync
  import opened UpstreamRuns
  import Text

  // ---------- which names are found ----------

  // A rule that starts with "regex:" is a pattern, any other is a name.
  predicate IsPattern(rule: string) {
    |rule| >= 6 && rule[..6] == "regex:"
  }

  // No rule is the name, and no pattern matches it.
  ghost predicate Unruled(rules: seq<string>, x: string, matches: Matcher) {
    forall r :: r in Normalize(rules) ==>
      (!IsPattern(r) ==> r != x) && (IsPattern(r) ==> !matches(Text.TrimSpace(r[6..]), x))
  }

  lemma UnruledExactly(rules: seq<string>, x: string, matches: Matcher)
    ensures Unruled(rules, x, matches) <==> !Ignored(rules, x, matches)
  {
    forall r ensures IsPattern(r) <==> REGEX <= r {
      PatternPrefix(r);
    }
  }

  lemma PatternPrefix(r: string)
    ensures IsPattern(r) <==> REGEX <= r
  {
    if REGEX <= r {
      assert r[..6] == REGEX;
    }
  }

  // The additions are exactly the upstream names that are not local, not the target of a redirect
  // and kept out by no rule; the removals are the local names that are not upstream and not the
  // source of a redirect.
  lemma FoundExactly(c: Channel, setup: Setup, upstream: seq<string>, matches: Matcher, x: string)
    ensures var (adds, removes) := DetectFor(c, setup, upstream, matches);
      && (x in adds <==>
            && x in Normalize(upstream) && x !in Local(c.models)
            && (forall source :: source in setup.mapping ==> setup.mapping[source] != x)
            && Unruled(c.ignored, x, matches))
      && (x in removes <==> x in Local(c.models) && x !in Normalize(upstream) && x !in setup.mapping)
  {
    DetectFacts(c, setup, upstream, matches);
    UnruledExactly(c.ignored, x, matches);
  }

  // Both lists keep the order of the list they come from.
  lemma FoundInOrder(c: Channel, setup: Setup, upstream: seq<string>, matches: Matcher)
    ensures var (adds, removes) := DetectFor(c, setup, upstream, matches);
      adds == Keep(Normalize(upstream), Members(adds)) && removes == Keep(Local(c.models), Members(removes))
  {
    var local, up := Local(c.models), Normalize(upstream);
    var missing, extinct := Missing(local, up, c.ignored, setup.mapping, matches), Extinct(local, up, setup.mapping);
    DetectFacts(c, setup, upstream, matches);
    NormalizeIsNormal(Text.ParseList(c.models, ','));
    NormalizeIsNormal(upstream);
    KeepIsNormal(up, missing);
    KeepIsNormal(local, extinct);
    NormalIsFixed(Keep(up, missing));
    NormalIsFixed(Keep(local, extinct));
    KeepSame(up, missing, Members(DetectFor(c, setup, upstream, matches).0));
    KeepSame(local, extinct, Members(DetectFor(c, setup, upstream, matches).1));
  }

  // ---------- what a check stores ----------

  // A check that is not due does nothing, and a refused write stores nothing. An upstream that
  // cannot be read leaves only the time. Otherwise the findings are stored; if additions are applied
  // automatically they go behind the model list and nothing of them stays pending.
  lemma CheckLaw(c: Channel, setup: Setup, fetched: Option<seq<string>>, due: bool, auto: bool, now: int, matches: Matcher, fault: Fault)
    ensures var out := CheckedWith(c, setup, fetched, due, auto, now, matches, fault);
      && (!due ==> out == CheckOutcome(c, false, 0, false))
      && (due && fault == WriteFails ==> out.channel == c && out.failed && !out.modelsChanged)
      && (due && fault != WriteFails && fetched.None? ==> out == CheckOutcome(c.(lastCheck := now), false, 0, true))
      && (due && fault != WriteFails && fetched.Some? ==>
            var (adds, removes) := DetectFor(c, setup, fetched.value, matches);
            if auto && setup.autoSync && adds != [] then
              out == CheckOutcome(Channel(Text.Join(Local(c.models) + adds, ','), [], removes, c.ignored, now),
                                  true, |adds|, fault == AbilitiesFail)
            else out == CheckOutcome(Channel(c.models, adds, removes, c.ignored, now), false, 0, false))
  {
    if due && fetched.Some? {
      AutoAppends(c, setup, fetched.value, matches);
    }
  }

  // ---------- what a selection stores ----------

  // Of what is pending a selection adds what is chosen, removes what is chosen and not added, and
  // leaves the rest pending; rules are the old ones and the ignored names, without added names.
  lemma SelectionLaw(c: Channel, adds: seq<string>, ignores: seq<string>, removes: seq<string>, now: int, x: string)
    ensures var out := Applied(c, adds, ignores, removes, now);
      && (x in out.added <==> x in Normalize(c.detected) && x in Normalize(adds))
      && (x in out.removed <==> x in Normalize(c.removed) && x in Normalize(removes) && !(x in out.added))
      && (x in out.remaining <==> x in Normalize(c.detected) && x !in Normalize(adds) && x !in Normalize(ignores))
      && (x in out.remainingRemove <==> x in Normalize(c.removed) && x !in out.removed)
      && (x in Normalize(out.channel.ignored) <==>
            (x in Normalize(c.ignored) || (x in Normalize(c.detected) && x in Normalize(ignores))) && x !in out.added)
      && (x in Local(out.channel.models) <==> (x in Local(c.models) && x !in out.removed) || PartOf(x, out.added))
      && out.channel.detected == out.remaining && out.channel.removed == out.remainingRemove
      && out.channel.lastCheck == now && (!out.modelsChanged ==> out.channel.models == c.models)
  {
    var sel := Selected(c, adds, ignores, removes);
    SelectedFacts(c, adds, ignores, removes);
    RemainingFacts(c, adds, ignores, removes, now);
    NewRulesFacts(c.ignored, sel);
    NormalIsFixed(NewRules(c.ignored, sel));
    AppliedParts(c, adds, ignores, removes, now, x);
  }

  // The model list is written exactly when the selection changes it; a refused write stores nothing,
  // and abilities matter only when the list was written.
  lemma SelectionFaultLaw(c: Channel, adds: seq<string>, ignores: seq<string>, removes: seq<string>, now: int, fault: Fault)
    ensures var fine, out := Applied(c, adds, ignores, removes, now), AppliedWith(c, adds, ignores, removes, now, fault);
      && (fault == WriteFails ==> out == ApplyOutcome(c, [], [], [], [], false, true))
      && (fault != WriteFails ==> out == fine.(failed := fault == AbilitiesFail && fine.modelsChanged))
      && (fine.modelsChanged <==>
            ApplySelected(Local(c.models), fine.added, fine.removed) != Local(c.models))
      && (fine.modelsChanged ==>
            fine.channel.models == Text.Join(ApplySelected(Local(c.models), fine.added, fine.removed), ','))
  {}

  // ---------- an ignored name stays out ----------

  // The name is a rule, and it is not pending.
  predicate Banned(c: Channel, x: string) {
    x in Normalize(c.ignored) && x !in Normalize(c.detected)
  }

  lemma BannedIsNotFound(c: Channel, setup: Setup, upstream: seq<string>, matches: Matcher, x: string)
    requires Banned(c, x) && !IsPattern(x)
    ensures x !in DetectFor(c, setup, upstream, matches).0
  {
    FoundExactly(c, setup, upstream, matches, x);
  }

  lemma CheckKeepsBanned(c: Channel, setup: Setup, e: Event, matches: Matcher, x: string)
    requires Banned(c, x) && !IsPattern(x) && e.Check?
    ensures Banned(Next(c, setup, e, matches), x)
  {
    if e.due && e.fetched.Some? {
      BannedIsNotFound(c, setup, e.fetched.value, matches, x);
      DetectFacts(c, setup, e.fetched.value, matches);
      NormalIsFixed(DetectFor(c, setup, e.fetched.value, matches).0);
    }
  }

  lemma ChooseKeepsBanned(c: Channel, adds: seq<string>, ignores: seq<string>, removes: seq<string>, now: int, x: string)
    requires Banned(c, x)
    ensures Banned(Applied(c, adds, ignores, removes, now).channel, x)
  {
    var sel := Selected(c, adds, ignores, removes);
    SelectedFacts(c, adds, ignores, removes);
    RemainingFacts(c, adds, ignores, removes, now);
    NewRulesFacts(c.ignored, sel);
    NormalIsFixed(NewRules(c.ignored, sel));
    NormalIsFixed(Applied(c, adds, ignores, removes, now).remaining);
  }

  lemma StepKeepsBanned(c: Channel, setup: Setup, e: Event, matches: Matcher, x: string)
    requires Banned(c, x) && !IsPattern(x)
    ensures Banned(Next(c, setup, e, matches), x)
  {
    match e
    case Check(_, _, _, _, _) => CheckKeepsBanned(c, setup, e, matches, x);
    case Choose(adds, ignores, removes, now, _) => ChooseKeepsBanned(c, adds, ignores, removes, now, x);
  }

  lemma {:induction false} BannedForGood(c: Channel, setup: Setup, events: seq<Event>, matches: Matcher, x: string)
    requires Banned(c, x) && !IsPattern(x)
    ensures Banned(After(c, setup, events, matches), x)
  {
    if events != [] {
      var n := |events| - 1;
      BannedForGood(c, setup, events[..n], matches, x);
      StepKeepsBanned(After(c, setup, events[..n], matches), setup, events[n], matches, x);
    }
  }

  // A selection that ignores a pending name and does not add it bans the name.
  lemma IgnoringBans(c: Channel, adds: seq<string>, ignores: seq<string>, removes: seq<string>, now: int, x: string)
    requires x in Normalize(c.detected) && x in Normalize(ignores) && x !in Normalize(adds)
    ensures Banned(Applied(c, adds, ignores, removes, now).channel, x)
  {
    var sel := Selected(c, adds, ignores, removes);
    SelectedFacts(c, adds, ignores, removes);
    RemainingFacts(c, adds, ignores, removes, now);
    NewRulesFacts(c.ignored, sel);
    NormalIsFixed(NewRules(c.ignored, sel));
    NormalIsFixed(Applied(c, adds, ignores, removes, now).remaining);
  }

  // A name that is not written like a pattern and was ignored stays out: in no run of checks and
  // selections after it, with any upstream, is it found, pending or added.
  lemma IgnoredForGood(c: Channel, setup: Setup, adds: seq<string>, ignores: seq<string>, removes: seq<string>, now: int,
                       events: seq<Event>, upstream: seq<string>, matches: Matcher, x: string)
    requires x in Normalize(c.detected) && x in Normalize(ignores) && x !in Normalize(adds) && !IsPattern(x)
    ensures var later := After(Applied(c, adds, ignores, removes, now).channel, setup, events, matches);
      && x in Normalize(later.ignored) && x !in Normalize(later.detected)
      && x !in DetectFor(later, setup, upstream, matches).0
      && forall a, i, r, t :: x !in Applied(later, a, i, r, t).added
  {
    var first := Applied(c, adds, ignores, removes, now).channel;
    IgnoringBans(c, adds, ignores, removes, now, x);
    BannedForGood(first, setup, events, matches, x);
    var later := After(first, setup, events, matches);
    BannedIsNotFound(later, setup, upstream, matches, x);
    forall a, i, r, t ensures x !in Applied(later, a, i, r, t).added {
      SelectedFacts(later, a, i, r);
    }
  }

  lemma OwnRuleKeepsOut(c: Channel, setup: Setup, upstream: seq<string>, matches: Matcher, name: string)
    requires Normalize(upstream) == [name] && Normalize(c.ignored) == [name] && Local(c.models) == [] && !IsPattern(name)
    ensures DetectFor(c, setup, upstream, matches) == ([], [])
  {
    var (adds, removes) := DetectFor(c, setup, upstream, matches);
    FirstIsMember(adds);
    FirstIsMember(removes);
    forall x ensures x !in adds && x !in removes {
      FoundExactly(c, setup, upstream, matches, x);
    }
  }

  // For example the rule "m" keeps the upstream's "m" out of a channel without models.
  lemma RuleKeepsOut(c: Channel, setup: Setup, upstream: seq<string>, matches: Matcher, name: string)
    requires name == "m" && c == Channel("", [], [], [name], 0) && upstream == [name]
    ensures DetectFor(c, setup, upstream, matches) == ([], [])
  {
    Text.VisibleIsNoSpace(name[0]);
    Text.TrimmedIsFixed(name, Text.SPACES);
    NormalIsFixed(upstream);
    LocalOfNothing(c.models);
    OwnRuleKeepsOut(c, setup, upstream, matches, name);
  }
}
