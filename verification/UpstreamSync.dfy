/** Keeping a channel's model list in step with its upstream: detection of names to add and to
    remove, application of an administrator's choice, automatic application of additions. */
module UpstreamSync {
  import opened Wrappers
  import opened ModelNames
  import Text

  const REGEX := "regex:"

  // The columns of a channel that take part. The model list is one text with commas.
  datatype Channel = Channel(models: string, detected: seq<string>, removed: seq<string>,
                             ignored: seq<string>, lastCheck: int)

  // What does not change: automatic application, and the normalised model mapping.
  datatype Setup = Setup(autoSync: bool, mapping: map<string, string>)

  // Regular expression matching, as a parameter: pattern and name.
  type Matcher = (string, string) -> bool

  // GetModels, normalised as every reader does.
  function Local(models: string): seq<string> {
    Normalize(Text.ParseList(models, ','))
  }

  predicate IgnoredBy(rule: string, name: string, matches: Matcher) {
    if REGEX <= rule then matches(Text.TrimSpace(rule[|REGEX|..]), name) else rule == name
  }

  predicate Ignored(rules: seq<string>, name: string, matches: Matcher) {
    exists r :: r in Normalize(rules) && IgnoredBy(r, name, matches)
  }

  // Which upstream names are to be added: not local, not the target of a redirect, not ignored.
  function Missing(local: seq<string>, upstream: seq<string>, ignored: seq<string>, mapping: map<string, string>,
                   matches: Matcher): set<string>
  {
    set x | x in upstream && x !in local && x !in mapping.Values && !Ignored(ignored, x, matches)
  }

  // Which local names are to be removed: gone upstream and not the source of a redirect.
  function Extinct(local: seq<string>, upstream: seq<string>, mapping: map<string, string>): set<string> {
    set x | x in local && x !in mapping && x !in upstream
  }

  function Detect(localModels: seq<string>, upstreamModels: seq<string>, ignored: seq<string>, mapping: map<string, string>,
                  matches: Matcher): (seq<string>, seq<string>)
  {
    var local := Normalize(localModels);
    var upstream := Normalize(upstreamModels);
    (Normalize(Keep(upstream, Missing(local, upstream, ignored, mapping, matches))),
     Normalize(Keep(local, Extinct(local, upstream, mapping))))
  }

  function DetectFor(c: Channel, setup: Setup, upstream: seq<string>, matches: Matcher): (seq<string>, seq<string>) {
    Detect(Text.ParseList(c.models, ','), upstream, c.ignored, setup.mapping, matches)
  }

  // ---------- the two operations on a channel ----------

  // The outcome of a check: the new channel, whether the model list changed, how many names
  // were added automatically, and whether the upstream could not be read.
  datatype CheckOutcome = CheckOutcome(channel: Channel, modelsChanged: bool, autoAdded: nat, failed: bool)

  function Checked(c: Channel, setup: Setup, fetched: Option<seq<string>>, due: bool, allowAutoApply: bool, now: int,
                   matches: Matcher): CheckOutcome
  {
    if !due then CheckOutcome(c, false, 0, false)
    else if fetched.None? then CheckOutcome(c.(lastCheck := now), false, 0, true)
    else
      var (adds, removes) := DetectFor(c, setup, fetched.value, matches);
      if allowAutoApply && setup.autoSync && |adds| > 0 then
        var origin := Local(c.models);
        var merged := Merge(origin, adds);
        var grown := |merged| > |origin|;
        CheckOutcome(c.(models := if grown then Text.Join(merged, ',') else c.models,
                        detected := [], removed := removes, lastCheck := now),
                     grown, if grown then |merged| - |origin| else 0, false)
      else
        CheckOutcome(c.(detected := adds, removed := removes, lastCheck := now), false, 0, false)
  }

  // What the database does with one write: store it, refuse it, or store it and then fail to
  // rebuild the abilities, which happens only when the model list changed.
  datatype Fault = Fine | WriteFails | AbilitiesFail

  // A check as it ends in the database.
  function CheckedWith(c: Channel, setup: Setup, fetched: Option<seq<string>>, due: bool, allowAutoApply: bool, now: int,
                       matches: Matcher, fault: Fault): CheckOutcome
  {
    var out := Checked(c, setup, fetched, due, allowAutoApply, now, matches);
    if !due then out
    else if fault.WriteFails? then CheckOutcome(c, false, out.autoAdded, true)
    else if fault.AbilitiesFail? && out.modelsChanged then out.(failed := true)
    else out
  }

  // The outcome of applying a selection.
  datatype ApplyOutcome = ApplyOutcome(channel: Channel, added: seq<string>, removed: seq<string>,
                                       remaining: seq<string>, remainingRemove: seq<string>, modelsChanged: bool, failed: bool)

  // The part of a selection that is pending; adding wins over removing.
  datatype Selection = Selection(adds: seq<string>, ignores: seq<string>, removes: seq<string>)

  function Selected(c: Channel, addInput: seq<string>, ignoreInput: seq<string>, removeInput: seq<string>): Selection {
    var adds := Intersect(addInput, Normalize(c.detected));
    Selection(adds, Intersect(ignoreInput, Normalize(c.detected)),
              Subtract(Intersect(removeInput, Normalize(c.removed)), adds))
  }

  // The ignore rules after a selection: ignoring adds rules, adding takes them away.
  function NewRules(rules: seq<string>, sel: Selection): seq<string> {
    var merged := Merge(rules, sel.ignores);
    if |sel.adds| > 0 then Subtract(merged, sel.adds) else merged
  }

  // What is still pending after a selection.
  function StillToAdd(detected: seq<string>, sel: Selection): seq<string> {
    Subtract(Normalize(detected), sel.adds + sel.ignores)
  }

  function StillToRemove(removed: seq<string>, sel: Selection): seq<string> {
    Subtract(Normalize(removed), sel.removes)
  }

  // The model list after a selection, and the text that stores it.
  function NextModels(models: string, sel: Selection): seq<string> {
    ApplySelected(Local(models), sel.adds, sel.removes)
  }

  function NewModels(models: string, sel: Selection): string {
    if NextModels(models, sel) != Local(models) then Text.Join(NextModels(models, sel), ',') else models
  }

  function Applied(c: Channel, addInput: seq<string>, ignoreInput: seq<string>, removeInput: seq<string>, now: int): ApplyOutcome {
    var sel := Selected(c, addInput, ignoreInput, removeInput);
    ApplyOutcome(Channel(NewModels(c.models, sel), StillToAdd(c.detected, sel), StillToRemove(c.removed, sel),
                         NewRules(c.ignored, sel), now),
                 sel.adds, sel.removes, StillToAdd(c.detected, sel), StillToRemove(c.removed, sel),
                 NextModels(c.models, sel) != Local(c.models), false)
  }

  // An application as it ends in the database.
  function AppliedWith(c: Channel, addInput: seq<string>, ignoreInput: seq<string>, removeInput: seq<string>, now: int,
                       fault: Fault): ApplyOutcome
  {
    var out := Applied(c, addInput, ignoreInput, removeInput, now);
    if fault.WriteFails? then ApplyOutcome(c, [], [], [], [], false, true)
    else if fault.AbilitiesFail? && out.modelsChanged then out.(failed := true)
    else out
  }

  class UpstreamChannel {
    var models: string
    var detected: seq<string>
    var removed: seq<string>
    var ignored: seq<string>
    var lastCheck: int
    const setup: Setup

    constructor (c: Channel, setup: Setup)
      ensures Snapshot() == c && this.setup == setup
    {
      models, detected, removed, ignored, lastCheck := c.models, c.detected, c.removed, c.ignored, c.lastCheck;
      this.setup := setup;
    }

    function Snapshot(): Channel
      reads this
    {
      Channel(models, detected, removed, ignored, lastCheck)
    }

    // fetched is what reading the upstream yields, None for an error. The fields are the
    // stored row, so a refused write leaves them alone.
    method Check(fetched: Option<seq<string>>, force: bool, allowAutoApply: bool, now: int, minInterval: int, matches: Matcher,
                 fault: Fault)
      returns (modelsChanged: bool, autoAdded: nat, failed: bool)
      modifies this
      ensures var due := force || !(old(lastCheck) > 0 && now - old(lastCheck) < minInterval);
        CheckOutcome(Snapshot(), modelsChanged, autoAdded, failed)
          == CheckedWith(old(Snapshot()), setup, fetched, due, allowAutoApply, now, matches, fault)
    {
      modelsChanged, autoAdded, failed := false, 0, false;
      if !force {
        if lastCheck > 0 && now - lastCheck < minInterval {
          return;
        }
      }
      if fetched.None? {
        failed := true;
        if !fault.WriteFails? {
          lastCheck := now;
        }
        return;
      }
      var (pendingAdd, pendingRemove) := Detect(Text.ParseList(models, ','), fetched.value, ignored, setup.mapping, matches);
      var newModels, newDetected := models, pendingAdd;
      if allowAutoApply && setup.autoSync && |pendingAdd| > 0 {
        var origin := Normalize(Text.ParseList(models, ','));
        var merged := MergeModelNames(origin, pendingAdd);
        if |merged| > |origin| {
          newModels := Text.Join(merged, ',');
          autoAdded := |merged| - |origin|;
          modelsChanged := true;
        }
        newDetected := [];
      }
      if fault.WriteFails? {
        modelsChanged, failed := false, true;
        return;
      }
      models, detected, removed, lastCheck := newModels, newDetected, pendingRemove, now;
      failed := modelsChanged && fault.AbilitiesFail?;
    }

    method Apply(addInput: seq<string>, ignoreInput: seq<string>, removeInput: seq<string>, now: int, fault: Fault)
      returns (added: seq<string>, removals: seq<string>, remaining: seq<string>, remainingRemove: seq<string>,
               modelsChanged: bool, failed: bool)
      modifies this
      ensures var out := AppliedWith(old(Snapshot()), addInput, ignoreInput, removeInput, now, fault);
        && Snapshot() == out.channel
        && added == out.added && removals == out.removed
        && remaining == out.remaining && remainingRemove == out.remainingRemove
        && modelsChanged == out.modelsChanged && failed == out.failed
    {
      var sel := Selected(Snapshot(), addInput, ignoreInput, removeInput);
      var newRules := UpdateRules(ignored, sel);
      if fault.WriteFails? {
        return [], [], [], [], false, true;
      }
      added, removals := sel.adds, sel.removes;
      remaining := StillToAdd(detected, sel);
      remainingRemove := StillToRemove(removed, sel);
      modelsChanged := NextModels(models, sel) != Local(models);
      if modelsChanged {
        models := Text.Join(NextModels(models, sel), ',');
      }
      ignored := newRules;
      detected := remaining;
      removed := remainingRemove;
      lastCheck := now;
      failed := modelsChanged && fault.AbilitiesFail?;
    }
  }

  method UpdateRules(rules: seq<string>, sel: Selection) returns (r: seq<string>)
    ensures r == NewRules(rules, sel)
  {
    r := MergeModelNames(rules, sel.ignores);
    if |sel.adds| > 0 {
      r := Subtract(r, sel.adds);
    }
  }

  // ---------- storing the model list ----------

  predicate NoComma(names: seq<string>) {
    forall x :: x in names ==> ',' !in x
  }

  lemma LocalOfJoin(names: seq<string>)
    requires Normal(names) && NoComma(names)
    ensures Local(Text.Join(names, ',')) == names
  {
    assert Text.AllFree(names, ',') by {
      forall i | 0 <= i < |names| ensures Text.Free(names[i], ',') {
        assert names[i] in names;
      }
    }
    if names != [] {
      assert names[0] in names && names[|names| - 1] in names;
    }
    Text.RoundTrip(names, ',');
    NormalIsFixed(names);
  }

  lemma {:induction false} CleanNoComma(names: seq<string>)
    requires NoComma(names)
    ensures NoComma(Clean(names))
  {
    if names != [] {
      var n := |names| - 1;
      assert names[n] in names;
      CleanNoComma(names[..n]);
      Text.TrimSpaceWithin(names[n]);
    }
  }

  // A stored list never holds a name with a comma.
  lemma LocalNoComma(models: string)
    ensures NoComma(Local(models)) && Normal(Local(models))
  {
    var parts := Text.ParseList(models, ',');
    if models != "" {
      Text.SplitFree(Text.Trim(models, {','}), ',');
      forall x | x in parts ensures ',' !in x {
        var i :| 0 <= i < |parts| && parts[i] == x;
        assert Text.Free(parts[i], ',');
      }
    }
    CleanNoComma(parts);
    UniqFacts(Clean(parts));
    NormalizeIsNormal(parts);
  }

  // Dropping separators at the ends of a text drops no name.
  lemma {:induction false} TrimLeftKeepsNames(text: string, sep: char)
    ensures Clean(Text.Split(Text.TrimLeft(text, {sep}), sep)) == Clean(Text.Split(text, sep))
  {
    if text != [] && text[0] == sep {
      TrimLeftKeepsNames(text[1..], sep);
      CleanConcat([""], Text.Split(text[1..], sep));
    }
  }

  lemma SeparatorAtEnd(front: string, none: string, sep: char)
    requires none == ""
    ensures Clean(Text.Split(front + [sep], sep)) == Clean(Text.Split(front, sep))
  {
    assert front + [sep] == front + [sep] + none;
    Text.SplitPair(front, none, sep);
    CleanConcat(Text.Split(front, sep), Text.Split(none, sep));
  }

  lemma TrimRightStep(front: string, sep: char)
    ensures Text.TrimRight(front + [sep], {sep}) == Text.TrimRight(front, {sep})
  {
    assert (front + [sep])[..|front|] == front;
  }

  lemma {:induction false} TrimRightKeepsNames(text: string, sep: char)
    ensures Clean(Text.Split(Text.TrimRight(text, {sep}), sep)) == Clean(Text.Split(text, sep))
  {
    if text != [] && text[|text| - 1] == sep {
      var front := text[..|text| - 1];
      assert text == front + [sep];
      TrimRightStep(front, sep);
      SeparatorAtEnd(front, "", sep);
      TrimRightKeepsNames(front, sep);
    } else {
      assert Text.TrimRight(text, {sep}) == text;
    }
  }

  lemma LocalIsClean(text: string)
    ensures forall x :: x in Local(text) <==> x in Clean(Text.Split(text, ','))
  {
    TrimLeftKeepsNames(text, ',');
    TrimRightKeepsNames(Text.TrimLeft(text, {','}), ',');
    UniqFacts(Clean(Text.ParseList(text, ',')));
  }

  lemma LocalOfPair(s: string, t: string)
    ensures forall x :: x in Local(s + [','] + t) <==> x in Local(s) || x in Local(t)
  {
    LocalIsClean(s);
    LocalIsClean(t);
    LocalIsClean(s + [','] + t);
    Text.SplitPair(s, t, ',');
    CleanConcat(Text.Split(s, ','), Text.Split(t, ','));
  }

  // A part of one of the names, as it is read between commas.
  predicate PartOf(x: string, names: seq<string>) {
    exists name :: name in names && x in Local(name)
  }

  // Any list of names, with commas or without, is read back as the parts of its names.
  lemma {:induction false} PartsAreStored(names: seq<string>, x: string)
    ensures x in Local(Text.Join(names, ',')) <==> PartOf(x, names)
  {
    if |names| > 1 {
      PartsAreStored(names[1..], x);
      LocalOfPair(names[0], Text.Join(names[1..], ','));
      assert forall name :: name in names <==> name == names[0] || name in names[1..];
    }
  }

  // A name without a comma is its own only part.
  lemma PlainIsStored(x: string)
    requires Proper(x) && ',' !in x
    ensures Local(x) == [x]
  {
    LocalOfJoin([x]);
  }

  // ---------- what detection finds ----------

  lemma DetectFacts(c: Channel, setup: Setup, upstream: seq<string>, matches: Matcher)
    ensures var (adds, removes) := DetectFor(c, setup, upstream, matches);
      && Normal(adds) && Normal(removes)
      && (forall x :: x in adds <==>
            x in Normalize(upstream) && x !in Local(c.models) && x !in setup.mapping.Values && !Ignored(c.ignored, x, matches))
      && (forall x :: x in removes <==>
            x in Local(c.models) && x !in setup.mapping && x !in Normalize(upstream))
  {
    var local, up := Local(c.models), Normalize(upstream);
    var missing := Missing(local, up, c.ignored, setup.mapping, matches);
    var extinct := Extinct(local, up, setup.mapping);
    NormalizeIsNormal(Text.ParseList(c.models, ','));
    NormalizeIsNormal(upstream);
    KeepIsNormal(up, missing);
    KeepIsNormal(local, extinct);
    NormalIsFixed(Keep(up, missing));
    NormalIsFixed(Keep(local, extinct));
  }

  // ---------- what an application does ----------

  lemma SelectedFacts(c: Channel, addInput: seq<string>, ignoreInput: seq<string>, removeInput: seq<string>)
    ensures var sel := Selected(c, addInput, ignoreInput, removeInput);
      && Normal(sel.adds) && Normal(sel.ignores) && Normal(sel.removes)
      && (forall x :: x in sel.adds <==> x in Normalize(addInput) && x in Normalize(c.detected))
      && (forall x :: x in sel.ignores <==> x in Normalize(ignoreInput) && x in Normalize(c.detected))
      && (forall x :: x in sel.removes <==> x in Normalize(removeInput) && x in Normalize(c.removed) && x !in sel.adds)
  {
    NormalizeIsNormal(c.detected);
    NormalizeIsNormal(c.removed);
    NormalIsFixed(Normalize(c.detected));
    NormalIsFixed(Normalize(c.removed));
    IntersectFacts(addInput, Normalize(c.detected));
    IntersectFacts(ignoreInput, Normalize(c.detected));
    var removable := Intersect(removeInput, Normalize(c.removed));
    IntersectFacts(removeInput, Normalize(c.removed));
    NormalIsFixed(removable);
    var adds := Intersect(addInput, Normalize(c.detected));
    NormalIsFixed(adds);
    SubtractFacts(removable, adds);
  }

  lemma NewRulesFacts(rules: seq<string>, sel: Selection)
    requires Normal(sel.adds) && Normal(sel.ignores)
    ensures Normal(NewRules(rules, sel))
    ensures forall x :: x in NewRules(rules, sel) <==> (x in Normalize(rules) || x in sel.ignores) && x !in sel.adds
  {
    var merged := Merge(rules, sel.ignores);
    NormalIsFixed(sel.ignores);
    NormalIsFixed(sel.adds);
    MergeFacts(rules, sel.ignores);
    NormalIsFixed(merged);
    SubtractFacts(merged, sel.adds);
  }

  lemma NextFacts(models: string, sel: Selection)
    requires Normal(sel.adds) && Normal(sel.removes)
    ensures var next := ApplySelected(Local(models), sel.adds, sel.removes);
      && Normal(next)
      && (forall x :: x in next <==> x in sel.adds || (x in Local(models) && x !in sel.removes))
  {
    LocalNoComma(models);
    NormalIsFixed(Local(models));
    NormalIsFixed(sel.adds);
    NormalIsFixed(sel.removes);
    AddWins(Local(models), sel.adds, sel.removes);
  }

  // With names free of commas the stored list is the intended one.
  lemma AppliedLocal(c: Channel, addInput: seq<string>, ignoreInput: seq<string>, removeInput: seq<string>, now: int)
    requires NoComma(Selected(c, addInput, ignoreInput, removeInput).adds)
    ensures var sel := Selected(c, addInput, ignoreInput, removeInput);
      Local(Applied(c, addInput, ignoreInput, removeInput, now).channel.models)
        == ApplySelected(Local(c.models), sel.adds, sel.removes)
  {
    var sel := Selected(c, addInput, ignoreInput, removeInput);
    SelectedFacts(c, addInput, ignoreInput, removeInput);
    NextFacts(c.models, sel);
    LocalNoComma(c.models);
    LocalOfJoin(ApplySelected(Local(c.models), sel.adds, sel.removes));
  }

  lemma RemainingFacts(c: Channel, addInput: seq<string>, ignoreInput: seq<string>, removeInput: seq<string>, now: int)
    ensures var sel := Selected(c, addInput, ignoreInput, removeInput);
      var out := Applied(c, addInput, ignoreInput, removeInput, now);
      && Normal(out.remaining) && Normal(out.remainingRemove)
      && (forall x :: x in out.remaining <==> x in Normalize(c.detected) && x !in sel.adds && x !in sel.ignores)
      && (forall x :: x in out.remainingRemove <==> x in Normalize(c.removed) && x !in sel.removes)
  {
    var sel := Selected(c, addInput, ignoreInput, removeInput);
    SelectedFacts(c, addInput, ignoreInput, removeInput);
    var pendingAdd, pendingRemove := Normalize(c.detected), Normalize(c.removed);
    NormalizeIsNormal(c.detected);
    NormalizeIsNormal(c.removed);
    NormalIsFixed(pendingAdd);
    NormalIsFixed(pendingRemove);
    NormalIsFixed(sel.removes);
    SubtractFacts(pendingAdd, sel.adds + sel.ignores);
    SubtractFacts(pendingRemove, sel.removes);
    forall x ensures x in Normalize(sel.adds + sel.ignores) <==> x in sel.adds || x in sel.ignores {
      ConcatMembers(sel.adds, sel.ignores, x);
    }
  }

  lemma ConcatMembers(a: seq<string>, b: seq<string>, x: string)
    requires Normal(a) && Normal(b)
    ensures x in Normalize(a + b) <==> x in a || x in b
  {
    CleanConcat(a, b);
    NormalIsFixed(a);
    NormalIsFixed(b);
    UniqFacts(a + b);
  }

  lemma {:induction false} CleanConcat(a: seq<string>, b: seq<string>)
    ensures Clean(a + b) == Clean(a) + Clean(b)
  {
    if b == [] {
      assert a + b == a;
    } else {
      var n := |b| - 1;
      CleanConcat(a, b[..n]);
      assert (a + b)[..|a + b| - 1] == a + b[..n];
    }
  }

  // Every pending addition is added, or ignored without being added, or still pending, and
  // only one of these; what is still pending keeps its order.
  lemma ApplySplitsPending(c: Channel, addInput: seq<string>, ignoreInput: seq<string>, removeInput: seq<string>, now: int)
    ensures var ignores := Selected(c, addInput, ignoreInput, removeInput).ignores;
      var out := Applied(c, addInput, ignoreInput, removeInput, now);
      && (forall x :: x in Normalize(c.detected) <==> x in out.added || (x in ignores && x !in out.added) || x in out.remaining)
      && (forall x :: x in out.remaining ==> x !in out.added && x !in ignores)
      && out.remaining == Keep(Normalize(c.detected), Members(out.remaining))
  {
    SelectedFacts(c, addInput, ignoreInput, removeInput);
    RemainingFacts(c, addInput, ignoreInput, removeInput, now);
    var sel := Selected(c, addInput, ignoreInput, removeInput);
    NormalizeIsNormal(c.detected);
    SubtractKeepsOrder(Normalize(c.detected), sel.adds + sel.ignores);
  }

  lemma SubtractKeepsOrder(names: seq<string>, removed: seq<string>)
    requires Normal(names)
    ensures Subtract(names, removed) == Keep(names, Members(Subtract(names, removed)))
  {
    NormalIsFixed(names);
    SubtractFacts(names, removed);
    KeepSame(names, Members(Subtract(names, removed)), Members(names) - Members(Normalize(removed)));
  }

  // The text stored by a selection is read back as the parts of the intended names.
  lemma AppliedParts(c: Channel, addInput: seq<string>, ignoreInput: seq<string>, removeInput: seq<string>, now: int, x: string)
    ensures var sel := Selected(c, addInput, ignoreInput, removeInput);
      x in Local(Applied(c, addInput, ignoreInput, removeInput, now).channel.models)
      <==> (x in Local(c.models) && x !in sel.removes) || PartOf(x, sel.adds)
  {
    var sel := Selected(c, addInput, ignoreInput, removeInput);
    SelectedFacts(c, addInput, ignoreInput, removeInput);
    NextFacts(c.models, sel);
    LocalNoComma(c.models);
    var next := NextModels(c.models, sel);
    forall name | name in Local(c.models) ensures Local(name) == [name] {
      PlainIsStored(name);
    }
    LocalOfJoin(Local(c.models));
    PartsAreStored(next, x);
  }

  // Adding wins: an added name is in the model list, unless it has a comma, is not removed and
  // is no ignore rule, even when the same selection ignores or removes it; the other ignored
  // names are rules.
  lemma AddingWins(c: Channel, addInput: seq<string>, ignoreInput: seq<string>, removeInput: seq<string>, now: int)
    ensures var ignores := Selected(c, addInput, ignoreInput, removeInput).ignores;
      var out := Applied(c, addInput, ignoreInput, removeInput, now);
      && (forall x :: x in out.added ==>
            (x in Local(out.channel.models) <==> ',' !in x) && x !in out.removed && x !in out.channel.ignored)
      && (forall x :: x in ignores && x !in out.added ==> x in out.channel.ignored)
  {
    var sel := Selected(c, addInput, ignoreInput, removeInput);
    var out := Applied(c, addInput, ignoreInput, removeInput, now);
    SelectedFacts(c, addInput, ignoreInput, removeInput);
    NewRulesFacts(c.ignored, sel);
    LocalNoComma(out.channel.models);
    forall x | x in out.added && ',' !in x ensures x in Local(out.channel.models) {
      AppliedParts(c, addInput, ignoreInput, removeInput, now, x);
      PlainIsStored(x);
    }
  }

  // ---------- automatic application ----------

  lemma NormalizeNoComma(names: seq<string>)
    requires NoComma(names)
    ensures NoComma(Normalize(names))
  {
    CleanNoComma(names);
    UniqFacts(Clean(names));
  }

  // Automatic application appends the pending additions to the local list.
  lemma AutoAppends(c: Channel, setup: Setup, upstream: seq<string>, matches: Matcher)
    ensures var adds := DetectFor(c, setup, upstream, matches).0;
      && Merge(Local(c.models), adds) == Local(c.models) + adds
      && (NoComma(adds) ==> Local(Text.Join(Local(c.models) + adds, ',')) == Local(c.models) + adds)
  {
    var local, adds := Local(c.models), DetectFor(c, setup, upstream, matches).0;
    DetectFacts(c, setup, upstream, matches);
    LocalNoComma(c.models);
    NormalIsFixed(local);
    NormalIsFixed(adds);
    KeepAll(adds, Members(adds) - Members(local));
    NormalConcat(local, adds);
    if NoComma(adds) {
      LocalOfJoin(local + adds);
    }
  }

  // ---------- detecting again ----------

  lemma AutoSyncOutcome(c: Channel, setup: Setup, upstream: seq<string>, now: int, matches: Matcher)
    requires setup.autoSync
    ensures var (adds, removes) := DetectFor(c, setup, upstream, matches);
      var out := Checked(c, setup, Some(upstream), true, true, now, matches);
      && out.autoAdded == |adds| && out.channel.detected == [] && out.channel.removed == removes
      && out.channel.ignored == c.ignored
      && (NoComma(adds) ==> Local(out.channel.models) == Local(c.models) + adds)
  {
    AutoAppends(c, setup, upstream, matches);
    var adds := DetectFor(c, setup, upstream, matches).0;
    if adds == [] {
      assert Local(c.models) + adds == Local(c.models);
    }
  }

  lemma DetectAfterAppend(c: Channel, c': Channel, setup: Setup, upstream: seq<string>, matches: Matcher)
    requires c'.ignored == c.ignored
    requires Local(c'.models) == Local(c.models) + DetectFor(c, setup, upstream, matches).0
    ensures DetectFor(c', setup, upstream, matches) == ([], DetectFor(c, setup, upstream, matches).1)
  {
    DetectFacts(c, setup, upstream, matches);
    DetectFacts(c', setup, upstream, matches);
    var adds, again := DetectFor(c, setup, upstream, matches).0, DetectFor(c', setup, upstream, matches).0;
    assert forall x :: x !in again;
    FirstIsMember(again);
    RemovalsUnchanged(Local(c.models), adds, Normalize(upstream), setup.mapping);
  }

  // With automatic application the reported count is the number of names added; detecting
  // again finds nothing to add and the same names to remove, exactly when no name added
  // contains a comma.
  lemma AutoSyncSettles(c: Channel, setup: Setup, upstream: seq<string>, now: int, matches: Matcher)
    requires setup.autoSync
    ensures var (adds, removes) := DetectFor(c, setup, upstream, matches);
      var out := Checked(c, setup, Some(upstream), true, true, now, matches);
      && out.autoAdded == |adds| && out.channel.detected == [] && out.channel.removed == removes
      && (DetectFor(out.channel, setup, upstream, matches) == ([], removes) <==> NoComma(adds))
  {
    var adds := DetectFor(c, setup, upstream, matches).0;
    var done := Checked(c, setup, Some(upstream), true, true, now, matches).channel;
    AutoSyncOutcome(c, setup, upstream, now, matches);
    if NoComma(adds) {
      DetectAfterAppend(c, done, setup, upstream, matches);
    } else {
      var x :| x in adds && ',' in x;
      CommaIsFoundAgain(c, done, setup, upstream, matches, x);
    }
  }

  lemma RemovalsUnchanged(local: seq<string>, adds: seq<string>, up: seq<string>, mapping: map<string, string>)
    requires forall x :: x in adds ==> x in up
    ensures Keep(local + adds, Extinct(local + adds, up, mapping)) == Keep(local, Extinct(local, up, mapping))
  {
    var extinct := Extinct(local + adds, up, mapping);
    KeepConcat(local, adds, extinct);
    KeepNone(adds, extinct);
    KeepSame(local, extinct, Extinct(local, up, mapping));
    assert Keep(local, extinct) + [] == Keep(local, extinct);
  }

  // The rules left when names are taken away.
  lemma RulesWithout(rules: seq<string>, names: seq<string>, x: string, matches: Matcher)
    requires Normal(names)
    ensures forall r :: r in Normalize(Subtract(rules, names)) <==> r in Normalize(rules) && r !in names
    ensures Ignored(Subtract(rules, names), x, matches) ==> Ignored(rules, x, matches)
    ensures names == [] ==> (Ignored(Subtract(rules, names), x, matches) <==> Ignored(rules, x, matches))
  {
    NormalIsFixed(names);
    SubtractFacts(rules, names);
    NormalIsFixed(Subtract(rules, names));
  }

  // Every upstream name that is neither local nor a redirect target and was ignored is still
  // ignored without the rules that are spelled like a name to be added.
  ghost predicate StillIgnored(c: Channel, setup: Setup, upstream: seq<string>, matches: Matcher) {
    var adds := DetectFor(c, setup, upstream, matches).0;
    forall x :: x in Normalize(upstream) && x !in Local(c.models) && x !in setup.mapping.Values && Ignored(c.ignored, x, matches)
      ==> Ignored(Subtract(c.ignored, adds), x, matches)
  }

  // Nothing is left to find after an application exactly under this condition: the names to be
  // added can be stored, and adding them takes no rule away that is needed.
  ghost predicate Settles(c: Channel, setup: Setup, upstream: seq<string>, matches: Matcher) {
    NoComma(DetectFor(c, setup, upstream, matches).0) && StillIgnored(c, setup, upstream, matches)
  }

  // A pending addition with a comma cannot be stored and is found again.
  lemma CommaIsFoundAgain(c: Channel, c': Channel, setup: Setup, upstream: seq<string>, matches: Matcher, x: string)
    requires x in DetectFor(c, setup, upstream, matches).0 && ',' in x
    requires Ignored(c'.ignored, x, matches) ==> Ignored(c.ignored, x, matches)
    ensures x in DetectFor(c', setup, upstream, matches).0
  {
    DetectFacts(c, setup, upstream, matches);
    DetectFacts(c', setup, upstream, matches);
    LocalNoComma(c'.models);
  }

  // Selecting everything that is pending selects everything.
  lemma SelectAll(c: Channel)
    requires Normal(c.detected) && Normal(c.removed) && forall x :: x in c.detected ==> x !in c.removed
    ensures var sel := Selected(c, c.detected, [], c.removed);
      && Normal(sel.adds) && Normal(sel.removes) && sel.ignores == []
      && (forall x :: x in sel.adds <==> x in c.detected)
      && (forall x :: x in sel.removes <==> x in c.removed)
  {
    NormalIsFixed(c.detected);
    NormalIsFixed(c.removed);
    SelectedFacts(c, c.detected, [], c.removed);
    FirstIsMember(Selected(c, c.detected, [], c.removed).ignores);
  }

  lemma RulesAfterSelectAll(c: Channel, now: int, x: string, matches: Matcher)
    requires Normal(c.detected) && Normal(c.removed) && forall x :: x in c.detected ==> x !in c.removed
    ensures Ignored(Applied(c, c.detected, [], c.removed, now).channel.ignored, x, matches)
      <==> Ignored(Subtract(c.ignored, c.detected), x, matches)
  {
    var sel := Selected(c, c.detected, [], c.removed);
    SelectAll(c);
    NewRulesFacts(c.ignored, sel);
    NormalIsFixed(NewRules(c.ignored, sel));
    RulesWithout(c.ignored, c.detected, x, matches);
    assert forall r :: r in Normalize(NewRules(c.ignored, sel)) <==> r in Normalize(Subtract(c.ignored, c.detected));
  }

  lemma LocalAfterSelectAll(c: Channel, now: int)
    requires Normal(c.detected) && Normal(c.removed) && forall x :: x in c.detected ==> x !in c.removed
    requires NoComma(c.detected)
    ensures var next := Local(Applied(c, c.detected, [], c.removed, now).channel.models);
      forall x :: x in next <==> x in c.detected || (x in Local(c.models) && x !in c.removed)
  {
    SelectAll(c);
    AppliedLocal(c, c.detected, [], c.removed, now);
    NextFacts(c.models, Selected(c, c.detected, [], c.removed));
  }

  // What a detection finds once the additions are local, the removals are gone and the rules
  // spelled like an addition are taken away.
  lemma LeftAfterwards(c: Channel, c': Channel, setup: Setup, upstream: seq<string>, matches: Matcher)
    requires var (adds, removes) := DetectFor(c, setup, upstream, matches);
      && (forall x :: x in Local(c'.models) <==> x in adds || (x in Local(c.models) && x !in removes))
      && (forall x :: Ignored(c'.ignored, x, matches) <==> Ignored(Subtract(c.ignored, adds), x, matches))
    ensures DetectFor(c', setup, upstream, matches) == ([], []) <==> StillIgnored(c, setup, upstream, matches)
  {
    var (adds, removes) := DetectFor(c, setup, upstream, matches);
    var again := DetectFor(c', setup, upstream, matches);
    DetectFacts(c, setup, upstream, matches);
    DetectFacts(c', setup, upstream, matches);
    FirstIsMember(again.0);
    FirstIsMember(again.1);
    if !StillIgnored(c, setup, upstream, matches) {
      var x :| x in Normalize(upstream) && x !in Local(c.models) && x !in setup.mapping.Values
        && Ignored(c.ignored, x, matches) && !Ignored(Subtract(c.ignored, adds), x, matches);
      assert x in again.0;
    }
  }

  // Detecting, applying everything that is pending and detecting again finds nothing, exactly
  // when no name added contains a comma or takes a rule away that is still needed.
  lemma ApplyAllSettles(c: Channel, setup: Setup, upstream: seq<string>, now: int, later: int, matches: Matcher)
    ensures var found := Checked(c, setup, Some(upstream), true, false, now, matches).channel;
      var out := Applied(found, found.detected, [], found.removed, later);
      DetectFor(out.channel, setup, upstream, matches) == ([], []) <==> Settles(c, setup, upstream, matches)
  {
    var found := Checked(c, setup, Some(upstream), true, false, now, matches).channel;
    var done := Applied(found, found.detected, [], found.removed, later).channel;
    DetectFacts(c, setup, upstream, matches);
    forall x ensures Ignored(done.ignored, x, matches) <==> Ignored(Subtract(c.ignored, found.detected), x, matches) {
      RulesAfterSelectAll(found, later, x, matches);
    }
    if NoComma(found.detected) {
      LocalAfterSelectAll(found, later);
      LeftAfterwards(c, done, setup, upstream, matches);
    } else {
      var x :| x in found.detected && ',' in x;
      RulesWithout(c.ignored, found.detected, x, matches);
      CommaIsFoundAgain(c, done, setup, upstream, matches, x);
    }
  }

  // A rule that is taken away because a new name is spelled like it: a name that only this rule
  // ignores is found afterwards.
  lemma RuleIsTakenAway(c: Channel, setup: Setup, upstream: seq<string>, matches: Matcher, rule: string, x: string)
    requires Normalize(c.ignored) == [rule] && rule in Normalize(upstream) && x in Normalize(upstream)
    requires rule !in Local(c.models) && x !in Local(c.models) && setup.mapping == map[]
    requires IgnoredBy(rule, x, matches) && !IgnoredBy(rule, rule, matches)
    ensures !Settles(c, setup, upstream, matches)
  {
    var adds := DetectFor(c, setup, upstream, matches).0;
    DetectFacts(c, setup, upstream, matches);
    assert rule in adds;
    RulesWithout(c.ignored, adds, x, matches);
    assert Ignored(c.ignored, x, matches) && !Ignored(Subtract(c.ignored, adds), x, matches);
  }

  // For example the rule "regex:^q$" and an upstream that lists a model of this name and "q".
  lemma RuleSpelledLikeModel(c: Channel, setup: Setup, upstream: seq<string>, matches: Matcher, rule: string, x: string, pattern: string)
    requires pattern == "^q$" && x == "q" && rule == REGEX + pattern
    requires c == Channel("", [], [], [rule], 0) && setup == Setup(false, map[]) && upstream == [rule, x]
    requires matches(pattern, x) && !matches(pattern, rule)
    ensures !Settles(c, setup, upstream, matches)
  {
    RuleAndName(rule, x, pattern);
    LocalOfNothing(c.models);
    NormalIsFixed(upstream);
    NormalIsFixed(c.ignored);
    RuleIsTakenAway(c, setup, upstream, matches, rule, x);
  }

  lemma RuleAndName(rule: string, x: string, pattern: string)
    requires pattern == "^q$" && x == "q" && rule == REGEX + pattern
    ensures Proper(rule) && Proper(x) && rule != x && REGEX <= rule && Text.TrimSpace(rule[|REGEX|..]) == pattern
  {
    assert rule[|REGEX|..] == pattern;
    Text.VisibleIsNoSpace(rule[0]);
    Text.VisibleIsNoSpace(pattern[0]);
    Text.VisibleIsNoSpace(pattern[2]);
    Text.VisibleIsNoSpace(x[0]);
    Text.TrimmedIsFixed(rule, Text.SPACES);
    Text.TrimmedIsFixed(pattern, Text.SPACES);
    Text.TrimmedIsFixed(x, Text.SPACES);
  }

  // A new channel with automatic application whose upstream lists one name with a comma: the
  // name is found, added, and found again.
  lemma CommaForever(c: Channel, setup: Setup, name: string, now: int, matches: Matcher)
    requires c == Channel("", [], [], [], 0) && setup == Setup(true, map[]) && name == "a,b"
    ensures name in DetectFor(c, setup, [name], matches).0
    ensures name in DetectFor(Checked(c, setup, Some([name]), true, true, now, matches).channel, setup, [name], matches).0
  {
    Text.VisibleIsNoSpace(name[0]);
    Text.VisibleIsNoSpace(name[2]);
    Text.TrimmedIsFixed(name, Text.SPACES);
    OneName(name);
    LocalOfNothing(c.models);
    DetectFacts(c, setup, [name], matches);
    assert !Ignored(c.ignored, name, matches);
    CommaIsFoundAgain(c, Checked(c, setup, Some([name]), true, true, now, matches).channel, setup, [name], matches, name);
  }

  lemma OneName(name: string)
    requires Proper(name)
    ensures name in Normalize([name])
  {
    NormalizeMembers([name], name);
    assert [name][0] == name;
  }

  lemma LocalOfNothing(models: string)
    requires models == ""
    ensures Local(models) == []
  {}
}
