/** Bodies that are longer than they declare. A compressed request declares its compressed
    length and is stored uncompressed, so the check before admission goes by the wrong length;
    only the size limit of a request holds. */
module BodyLengths {
  import opened BodyAccounting
  import opened BodyBounds

  // Every state has at most k creations in flight, and no body is longer than maxBytes.
  predicate Limited(cfg: Config, s: State, steps: seq<Step>, k: nat, maxBytes: nat)
    requires Legal(cfg, s, steps)
    decreases |steps|
  {
    && Total(InFlight, s.storages) <= k
    && (steps != [] ==>
          && (steps[0].AddCount? ==> steps[0].written <= maxBytes)
          && Limited(cfg, Apply(cfg, s, steps[0]), steps[1..], k, maxBytes))
  }

  // The shortest length that can be declared by a streamed body.
  function Least(cfg: Config): nat {
    if cfg.threshold > 1 then cfg.threshold else 1
  }

  // How far the usage can go.
  function Ceiling(cfg: Config, k: nat, maxBytes: nat): int {
    if cfg.enabled && Least(cfg) <= cfg.cap && maxBytes >= 1 then cfg.cap - Least(cfg) + k * maxBytes else 0
  }

  // ---------- the bound ----------

  // What is about to be added was reserved.
  predicate WithinReserve(ss: seq<Storage>, maxBytes: nat) {
    forall i :: 0 <= i < |ss| ==> ss[i].making == Counted && ss[i].kind == Disk ==> ss[i].size <= Weight(Reserve(maxBytes), ss[i])
  }

  predicate Roofed(cfg: Config, s: State, k: nat, maxBytes: nat) {
    s.diskBytes + Total(Reserve(maxBytes), s.storages) <= Ceiling(cfg, k, maxBytes)
  }

  lemma OneMore(n: nat, more: nat, maxBytes: nat)
    requires more <= 1
    ensures (n + more) * maxBytes == n * maxBytes + (if more == 1 then maxBytes else 0)
  {}

  lemma {:induction false} ReserveAtMost(ss: seq<Storage>, maxBytes: nat)
    ensures Total(Reserve(maxBytes), ss) <= Total(InFlight, ss) * maxBytes
  {
    if ss != [] {
      var n := Total(InFlight, ss[..|ss| - 1]);
      ReserveAtMost(ss[..|ss| - 1], maxBytes);
      OneMore(n, Weight(InFlight, ss[|ss| - 1]), maxBytes);
    }
  }

  // Outside admission, bytes in use and reserved bytes together do not grow.
  lemma OnlyAdmissionReserves(cfg: Config, s: State, step: Step, maxBytes: nat)
    requires Enabled(cfg, s, step) && !step.Admit?
    requires Touched(s, step) < |s.storages| ==> StorageOk(s, Touched(s, step))
    requires ByCloser(step) ==> CloserOk(s, step.c)
    requires WithinReserve(s.storages, maxBytes)
    ensures var s' := Apply(cfg, s, step);
      s'.diskBytes + WeightAt(Reserve(maxBytes), s'.storages, Touched(s, step))
        <= s.diskBytes + WeightAt(Reserve(maxBytes), s.storages, Touched(s, step))
  {}

  // An admission finds room for what it declares, and at most k - 1 others have reserved.
  lemma AdmissionKeepsRoof(cfg: Config, s: State, step: Step, k: nat, maxBytes: nat)
    requires step.Admit? && Enabled(cfg, s, step) && Roofed(cfg, s, k, maxBytes) && s.diskBytes >= 0
    requires Total(InFlight, s.storages) + 1 <= k
    ensures s.diskBytes + Total(Reserve(maxBytes), s.storages) + Weight(Reserve(maxBytes), NewStorage(Disk, step.streamed, step.declared))
      <= Ceiling(cfg, k, maxBytes)
  {
    var others := Total(Reserve(maxBytes), s.storages);
    ReserveAtMost(s.storages, maxBytes);
    Scale(Total(InFlight, s.storages), k - 1, maxBytes);
    assert k * maxBytes == (k - 1) * maxBytes + maxBytes;
  }

  lemma StepKeepsRoof(cfg: Config, s: State, step: Step, k: nat, maxBytes: nat)
    requires Inv(s) && Enabled(cfg, s, step) && Roofed(cfg, s, k, maxBytes) && WithinReserve(s.storages, maxBytes)
    requires Total(InFlight, Apply(cfg, s, step).storages) <= k
    ensures Roofed(cfg, Apply(cfg, s, step), k, maxBytes)
  {
    StepTotal(cfg, s, step, Reserve(maxBytes));
    if step.Admit? {
      StepTotal(cfg, s, step, InFlight);
      AdmissionKeepsRoof(cfg, s, step, k, maxBytes);
    } else {
      Local(cfg, s, step);
      OnlyAdmissionReserves(cfg, s, step, maxBytes);
    }
  }

  lemma StepKeepsWithinReserve(cfg: Config, s: State, step: Step, maxBytes: nat)
    requires Enabled(cfg, s, step) && WithinReserve(s.storages, maxBytes)
    requires step.AddCount? ==> step.written <= maxBytes
    ensures WithinReserve(Apply(cfg, s, step).storages, maxBytes)
  {}

  // ---------- room for the bodies not in flight ----------

  predicate Roomy(cfg: Config, s: State, k: nat, maxBytes: nat) {
    s.diskBytes + Total(InFlight, s.storages) * maxBytes <= cfg.cap + k * maxBytes
  }

  // Outside admission, bytes in use grow only as a creation leaves the flight.
  lemma OnlyLandingRaises(cfg: Config, s: State, step: Step, maxBytes: nat)
    requires Enabled(cfg, s, step) && !step.Admit?
    requires Touched(s, step) < |s.storages| ==> StorageOk(s, Touched(s, step))
    requires ByCloser(step) ==> CloserOk(s, step.c)
    requires WithinReserve(s.storages, maxBytes)
    ensures var s' := Apply(cfg, s, step);
      var w, w' := WeightAt(InFlight, s.storages, Touched(s, step)), WeightAt(InFlight, s'.storages, Touched(s, step));
      && w' <= w <= 1
      && s'.diskBytes <= s.diskBytes + (if w' < w then maxBytes else 0)
  {}

  lemma Landing(before: nat, after: nat, maxBytes: nat)
    requires before - 1 <= after <= before
    ensures after * maxBytes == before * maxBytes - (if after < before then maxBytes else 0)
  {
    if after < before {
      assert before * maxBytes == after * maxBytes + maxBytes;
    }
  }

  lemma StepKeepsRoom(cfg: Config, s: State, step: Step, k: nat, maxBytes: nat)
    requires Inv(s) && Enabled(cfg, s, step) && Roomy(cfg, s, k, maxBytes) && WithinReserve(s.storages, maxBytes)
    requires Total(InFlight, Apply(cfg, s, step).storages) <= k
    ensures Roomy(cfg, Apply(cfg, s, step), k, maxBytes)
  {
    var s' := Apply(cfg, s, step);
    StepTotal(cfg, s, step, InFlight);
    if step.Admit? {
      Scale(Total(InFlight, s'.storages), k, maxBytes);
    } else {
      Local(cfg, s, step);
      OnlyLandingRaises(cfg, s, step, maxBytes);
      Landing(Total(InFlight, s.storages), Total(InFlight, s'.storages), maxBytes);
    }
  }

  // ---------- over every run ----------

  lemma {:induction false} RunKeepsBounds(cfg: Config, s: State, steps: seq<Step>, k: nat, maxBytes: nat)
    requires Inv(s) && WithinReserve(s.storages, maxBytes) && Roofed(cfg, s, k, maxBytes)
    requires Legal(cfg, s, steps) && Limited(cfg, s, steps, k, maxBytes)
    ensures Roofed(cfg, After(cfg, s, steps), k, maxBytes)
    ensures Roomy(cfg, s, k, maxBytes) ==> Roomy(cfg, After(cfg, s, steps), k, maxBytes)
    decreases |steps|
  {
    if steps != [] {
      StepKeepsRoof(cfg, s, steps[0], k, maxBytes);
      if Roomy(cfg, s, k, maxBytes) {
        StepKeepsRoom(cfg, s, steps[0], k, maxBytes);
      }
      StepKeepsWithinReserve(cfg, s, steps[0], maxBytes);
      StepKeepsInv(cfg, s, steps[0]);
      RunKeepsBounds(cfg, Apply(cfg, s, steps[0]), steps[1..], k, maxBytes);
    }
  }

  // Whatever bodies declare: with at most k of them in flight and none longer than the size
  // limit of a request, usage and reserved bytes stay below the ceiling, and usage leaves room
  // for as many bodies as are in flight below the maximum plus k bodies.
  lemma UsageIsBoundedByLength(cfg: Config, steps: seq<Step>, k: nat, maxBytes: nat)
    requires Legal(cfg, EMPTY, steps) && Limited(cfg, EMPTY, steps, k, maxBytes)
    ensures var s := After(cfg, EMPTY, steps);
      && s.diskBytes + Total(Reserve(maxBytes), s.storages) <= Ceiling(cfg, k, maxBytes)
      && (cfg.cap >= 0 ==> s.diskBytes + Total(InFlight, s.storages) * maxBytes <= cfg.cap + k * maxBytes)
  {
    assert k * maxBytes >= 0;
    RunKeepsBounds(cfg, EMPTY, steps, k, maxBytes);
  }

  // ---------- the bound is attained ----------

  lemma {:induction false} LeadsWithin(cfg: Config, s: State, steps: seq<Step>, lim: Limits, t: State)
    requires Leads(cfg, s, steps, lim, t)
    ensures Legal(cfg, s, steps) && Limited(cfg, s, steps, lim.k, lim.body) && After(cfg, s, steps) == t
    decreases |steps|
  {
    if steps != [] {
      assert Goes(cfg, s, steps, lim, t);
      LeadsWithin(cfg, Apply(cfg, s, steps[0]), steps[1..], lim, t);
    }
  }

  // Bodies that declare the least possible length and are as long as a request may be.
  lemma CeilingIsReached(cfg: Config, k: nat, maxBytes: nat) returns (steps: seq<Step>)
    requires cfg.enabled && Least(cfg) <= cfg.cap && k >= 1 && maxBytes >= 1
    ensures Legal(cfg, EMPTY, steps) && Limited(cfg, EMPTY, steps, k, maxBytes)
    ensures After(cfg, EMPTY, steps).diskBytes == Ceiling(cfg, k, maxBytes)
  {
    var lim := Limits(k, Least(cfg), maxBytes);
    var run, t := FillThenBurst(cfg, lim);
    LeadsWithin(cfg, EMPTY, run, lim, t);
    steps := run;
  }

  const MB: nat := 0x10_0000

  // With the default sizes (threshold 10 MB, maximum 1024 MB, requests up to 128 MB) and one
  // creation at a time the usage can be 118 MB above the maximum.
  lemma DefaultsExceed() returns (steps: seq<Step>)
    ensures var cfg := Config(true, 10 * MB, 1024 * MB);
      Legal(cfg, EMPTY, steps) && Limited(cfg, EMPTY, steps, 1, 128 * MB)
      && After(cfg, EMPTY, steps).diskBytes == cfg.cap + 118 * MB
  {
    steps := CeilingIsReached(Config(true, 10 * MB, 1024 * MB), 1, 128 * MB);
  }

  // ---------- when the maximum is kept ----------

  // No run with at most k creations in flight and bodies up to maxBytes exceeds the maximum.
  ghost predicate MaximumHolds(cfg: Config, k: nat, maxBytes: nat) {
    forall steps :: Legal(cfg, EMPTY, steps) && Limited(cfg, EMPTY, steps, k, maxBytes) ==>
      After(cfg, EMPTY, steps).diskBytes <= cfg.cap
  }

  // The maximum holds exactly when nothing is streamed to disk, or k requests of the greatest
  // size are no longer than the shortest length that a streamed body can declare.
  lemma MaximumHoldsExactly(cfg: Config, k: nat, maxBytes: nat)
    ensures MaximumHolds(cfg, k, maxBytes)
      <==> cfg.cap >= 0 && (!cfg.enabled || cfg.cap < Least(cfg) || k * maxBytes <= Least(cfg))
  {
    if cfg.cap < 0 {
      EmptyRun(cfg, k, maxBytes);
    } else if !cfg.enabled || cfg.cap < Least(cfg) || k * maxBytes <= Least(cfg) {
      forall steps | Legal(cfg, EMPTY, steps) && Limited(cfg, EMPTY, steps, k, maxBytes)
        ensures After(cfg, EMPTY, steps).diskBytes <= cfg.cap
      {
        UsageIsBoundedByLength(cfg, steps, k, maxBytes);
      }
    } else {
      Positive(k, maxBytes);
      var steps := CeilingIsReached(cfg, k, maxBytes);
    }
  }

  lemma Positive(k: nat, maxBytes: nat)
    requires k * maxBytes > 0
    ensures k >= 1 && maxBytes >= 1
  {}

  lemma EmptyRun(cfg: Config, k: nat, maxBytes: nat)
    requires cfg.cap < 0
    ensures !MaximumHolds(cfg, k, maxBytes)
  {
    var steps: seq<Step> := [];
    assert Legal(cfg, EMPTY, steps) && Limited(cfg, EMPTY, steps, k, maxBytes);
    assert After(cfg, EMPTY, steps) == EMPTY;
  }
}
