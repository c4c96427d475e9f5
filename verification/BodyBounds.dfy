/** Runs that drive the disk usage as far above its maximum as they can. The bound for bodies
    that keep to their declared length is attained. */
module BodyBounds {
  import opened BodyAccounting

  // ---------- the bound cannot be improved ----------

  // At most k creations in flight, each declaring at most `declared` and storing at most
  // `body` bytes. Bodies that are not longer than that keep to their declared length.
  datatype Limits = Limits(k: nat, declared: nat, body: nat)

  predicate Fits(s: State, step: Step, lim: Limits) {
    && (step.AddCount? ==> step.written <= lim.body)
    && (lim.body <= lim.declared ==> Honest(s, step))
  }

  // A legal run within the limits that leads from s to t.
  predicate Leads(cfg: Config, s: State, steps: seq<Step>, lim: Limits, t: State)
    decreases |steps|, 1
  {
    if steps == [] then s == t && Crowd(s, lim.k, lim.declared) else Goes(cfg, s, steps, lim, t)
  }

  predicate Goes(cfg: Config, s: State, steps: seq<Step>, lim: Limits, t: State)
    requires steps != []
    decreases |steps|, 0
  {
    && Crowd(s, lim.k, lim.declared) && Enabled(cfg, s, steps[0]) && Fits(s, steps[0], lim)
    && Leads(cfg, Apply(cfg, s, steps[0]), steps[1..], lim, t)
  }

  lemma {:induction false} LeadsHonestly(cfg: Config, s: State, steps: seq<Step>, lim: Limits, t: State)
    requires Leads(cfg, s, steps, lim, t) && lim.body <= lim.declared
    ensures Legal(cfg, s, steps) && Bounded(cfg, s, steps, lim.k, lim.declared) && After(cfg, s, steps) == t
    decreases |steps|
  {
    if steps != [] {
      assert Goes(cfg, s, steps, lim, t);
      LeadsHonestly(cfg, Apply(cfg, s, steps[0]), steps[1..], lim, t);
    }
  }

  lemma {:induction false} LeadsOn(cfg: Config, s: State, a: seq<Step>, t: State, b: seq<Step>, u: State, lim: Limits)
    requires Leads(cfg, s, a, lim, t) && Leads(cfg, t, b, lim, u)
    ensures Leads(cfg, s, a + b, lim, u)
    decreases |a|
  {
    if a == [] {
      assert a + b == b;
    } else {
      assert Goes(cfg, s, a, lim, t);
      LeadsOn(cfg, Apply(cfg, s, a[0]), a[1..], t, b, u, lim);
      assert (a + b)[1..] == a[1..] + b && (a + b)[0] == a[0];
      assert Goes(cfg, s, a + b, lim, u);
    }
  }

  // One run after another.
  lemma Chain(cfg: Config, s: State, a: seq<Step>, t: State, b: seq<Step>, u: State, lim: Limits) returns (steps: seq<Step>)
    requires Leads(cfg, s, a, lim, t) && Leads(cfg, t, b, lim, u)
    ensures Leads(cfg, s, steps, lim, u)
  {
    LeadsOn(cfg, s, a, t, b, u, lim);
    steps := a + b;
  }

  lemma OneStep(cfg: Config, s: State, step: Step, lim: Limits) returns (steps: seq<Step>)
    requires Enabled(cfg, s, step) && Fits(s, step, lim)
    requires Crowd(s, lim.k, lim.declared) && Crowd(Apply(cfg, s, step), lim.k, lim.declared)
    ensures Leads(cfg, s, steps, lim, Apply(cfg, s, step))
  {
    steps := [step];
    assert [step][1..] == [];
    assert Goes(cfg, s, steps, lim, Apply(cfg, s, step));
  }

  // Everything before position m is done, everything from m on is admitted and unwritten.
  predicate Pending(s: State, m: nat, limit: nat) {
    m <= |s.storages| && Total(InFlight, s.storages) == |s.storages| - m && Unwritten(s.storages, m, limit)
  }

  predicate Unwritten(ss: seq<Storage>, m: nat, limit: nat) {
    if ss == [] then true
    else
      var n := |ss| - 1;
      && (ss[n].declared <= limit || ss[n].kind == Memory)
      && (n >= m ==> ss[n] == NewStorage(Disk, true, limit))
      && Unwritten(ss[..n], m, limit)
  }

  lemma {:induction false} UnwrittenAt(ss: seq<Storage>, m: nat, limit: nat)
    requires Unwritten(ss, m, limit)
    ensures forall i :: 0 <= i < |ss| ==> ss[i].declared <= limit || ss[i].kind == Memory
    ensures forall i :: m <= i < |ss| ==> ss[i] == NewStorage(Disk, true, limit)
  {
    if ss != [] {
      var n := |ss| - 1;
      UnwrittenAt(ss[..n], m, limit);
      assert forall i :: 0 <= i < n ==> ss[..n][i] == ss[i];
    }
  }

  lemma {:induction false} MakeUnwritten(ss: seq<Storage>, m: nat, limit: nat)
    requires forall i :: 0 <= i < |ss| ==> ss[i].declared <= limit || ss[i].kind == Memory
    requires forall i :: m <= i < |ss| ==> ss[i] == NewStorage(Disk, true, limit)
    ensures Unwritten(ss, m, limit)
  {
    if ss != [] {
      MakeUnwritten(ss[..|ss| - 1], m, limit);
    }
  }

  // The run without steps.
  lemma Stay(cfg: Config, s: State, m: nat, lim: Limits) returns (steps: seq<Step>)
    requires Pending(s, m, lim.declared) && |s.storages| - m <= lim.k
    ensures Leads(cfg, s, steps, lim, s)
  {
    UnwrittenAt(s.storages, m, lim.declared);
    steps := [];
  }

  function Landed(s: State, m: nat, written: nat): State
    requires m < |s.storages|
  {
    s.(files := s.files + 1, diskBytes := s.diskBytes + written,
       storages := s.storages[m := s.storages[m].(size := written, making := Made)])
  }

  // An admitted streamed storage is written, with no more than the limits allow, and counted.
  lemma Land(cfg: Config, s: State, m: nat, written: nat, lim: Limits) returns (steps: seq<Step>)
    requires m < |s.storages| && Crowd(s, lim.k, lim.declared)
    requires s.storages[m] == NewStorage(Disk, true, lim.declared) && written <= lim.body
    ensures Leads(cfg, s, steps, lim, Landed(s, m, written))
    ensures Total(InFlight, Landed(s, m, written).storages) == Total(InFlight, s.storages) - 1
  {
    var s1 := Apply(cfg, s, AddCount(m, written));
    StepTotal(cfg, s, AddCount(m, written), InFlight);
    var a := OneStep(cfg, s, AddCount(m, written), lim);
    assert s1.storages[m] == s.storages[m].(size := written, making := Counted);
    StepTotal(cfg, s1, AddBytes(m), InFlight);
    assert Apply(cfg, s1, AddBytes(m)) == Landed(s, m, written);
    var b := OneStep(cfg, s1, AddBytes(m), lim);
    steps := Chain(cfg, s, a, s1, b, Landed(s, m, written), lim);
  }

  function Times(n: nat, size: nat): nat {
    if n == 0 then 0 else size + Times(n - 1, size)
  }

  lemma {:induction false} TimesIsProduct(n: nat, size: nat)
    ensures Times(n, size) == n * size
  {
    if n > 0 {
      TimesIsProduct(n - 1, size);
      assert n * size == size + (n - 1) * size;
    }
  }

  lemma LandFirst(cfg: Config, s: State, m: nat, lim: Limits) returns (steps: seq<Step>, t: State)
    requires Pending(s, m, lim.declared) && m < |s.storages| <= m + lim.k
    ensures Leads(cfg, s, steps, lim, t) && Pending(t, m + 1, lim.declared)
    ensures |t.storages| == |s.storages| && t.diskBytes == s.diskBytes + lim.body
  {
    UnwrittenAt(s.storages, m, lim.declared);
    steps := Land(cfg, s, m, lim.body, lim);
    t := Landed(s, m, lim.body);
    MakeUnwritten(t.storages, m + 1, lim.declared);
  }

  lemma {:induction false} LandAll(cfg: Config, s: State, m: nat, n: nat, lim: Limits) returns (steps: seq<Step>, t: State)
    requires Pending(s, m, lim.declared) && |s.storages| == m + n && n <= lim.k
    ensures Leads(cfg, s, steps, lim, t) && t.diskBytes == s.diskBytes + Times(n, lim.body)
    decreases n
  {
    if n == 0 {
      steps := Stay(cfg, s, m, lim);
      t := s;
    } else {
      var first, s1 := LandFirst(cfg, s, m, lim);
      var rest;
      rest, t := LandAll(cfg, s1, m + 1, n - 1, lim);
      steps := Chain(cfg, s, first, s1, rest, t, lim);
    }
  }

  lemma AdmitOne(cfg: Config, s: State, m: nat, lim: Limits) returns (steps: seq<Step>, t: State)
    requires Pending(s, m, lim.declared) && |s.storages| - m < lim.k && Enabled(cfg, s, Admit(true, lim.declared))
    ensures Leads(cfg, s, steps, lim, t) && Pending(t, m, lim.declared) && Enabled(cfg, t, Admit(true, lim.declared))
    ensures |t.storages| == |s.storages| + 1 && t.diskBytes == s.diskBytes
  {
    UnwrittenAt(s.storages, m, lim.declared);
    TotalAppend(InFlight, s.storages, NewStorage(Disk, true, lim.declared));
    steps := OneStep(cfg, s, Admit(true, lim.declared), lim);
    t := Apply(cfg, s, Admit(true, lim.declared));
    MakeUnwritten(t.storages, m, lim.declared);
  }

  // n creations pass the check before any of them has added to the usage.
  lemma {:induction false} AdmitAll(cfg: Config, s: State, m: nat, n: nat, lim: Limits) returns (steps: seq<Step>, t: State)
    requires Pending(s, m, lim.declared) && |s.storages| - m + n <= lim.k && Enabled(cfg, s, Admit(true, lim.declared))
    ensures Leads(cfg, s, steps, lim, t)
    ensures Pending(t, m, lim.declared) && |t.storages| == |s.storages| + n && t.diskBytes == s.diskBytes
    decreases n
  {
    if n == 0 {
      steps := Stay(cfg, s, m, lim);
      t := s;
    } else {
      var first, s1 := AdmitOne(cfg, s, m, lim);
      var rest, u := AdmitAll(cfg, s1, m, n - 1, lim);
      steps := Chain(cfg, s, first, s1, rest, u, lim);
      t := u;
    }
  }

  // One creation while no other is in flight; its body is as long as the limits allow or
  // shorter.
  lemma CreateOne(cfg: Config, s: State, written: nat, lim: Limits) returns (steps: seq<Step>, t: State)
    requires Enabled(cfg, s, Admit(true, lim.declared)) && written <= lim.body && lim.k >= 1
    requires Pending(s, |s.storages|, lim.declared)
    ensures Leads(cfg, s, steps, lim, t)
    ensures Pending(t, |t.storages|, lim.declared) && t.diskBytes == s.diskBytes + written
  {
    var s1 := Apply(cfg, s, Admit(true, lim.declared));
    UnwrittenAt(s.storages, |s.storages|, lim.declared);
    TotalAppend(InFlight, s.storages, NewStorage(Disk, true, lim.declared));
    var admitting := OneStep(cfg, s, Admit(true, lim.declared), lim);
    var landing := Land(cfg, s1, |s.storages|, written, lim);
    t := Landed(s1, |s.storages|, written);
    MakeUnwritten(t.storages, |t.storages|, lim.declared);
    steps := Chain(cfg, s, admitting, s1, landing, t, lim);
  }

  // n creations of one byte one after the other.
  lemma {:induction false} Fill(cfg: Config, s: State, n: nat, lim: Limits) returns (steps: seq<Step>, t: State)
    requires cfg.enabled && cfg.threshold <= lim.declared && lim.declared >= 1 && lim.body >= 1 && lim.k >= 1
    requires Pending(s, |s.storages|, lim.declared) && s.diskBytes + n <= cfg.cap - lim.declared
    ensures Leads(cfg, s, steps, lim, t)
    ensures Pending(t, |t.storages|, lim.declared) && t.diskBytes == s.diskBytes + n
    decreases n
  {
    if n == 0 {
      steps := Stay(cfg, s, |s.storages|, lim);
      t := s;
    } else {
      var first, s1 := CreateOne(cfg, s, 1, lim);
      var rest, u := Fill(cfg, s1, n - 1, lim);
      steps := Chain(cfg, s, first, s1, rest, u, lim);
      t := u;
    }
  }

  // k creations are admitted together and then all write as much as the limits allow.
  lemma Burst(cfg: Config, s: State, lim: Limits) returns (steps: seq<Step>, t: State)
    requires Pending(s, |s.storages|, lim.declared) && Enabled(cfg, s, Admit(true, lim.declared))
    ensures Leads(cfg, s, steps, lim, t) && t.diskBytes == s.diskBytes + Times(lim.k, lim.body)
  {
    var admitting, s1 := AdmitAll(cfg, s, |s.storages|, lim.k, lim);
    var landing, u := LandAll(cfg, s1, |s.storages|, lim.k, lim);
    steps := Chain(cfg, s, admitting, s1, landing, u, lim);
    t := u;
  }

  // The usage is filled up to the point at which one more body is admitted, and then k are.
  lemma FillThenBurst(cfg: Config, lim: Limits) returns (steps: seq<Step>, t: State)
    requires cfg.enabled && lim.k >= 1 && lim.body >= 1
    requires 1 <= lim.declared <= cfg.cap && cfg.threshold <= lim.declared
    ensures Leads(cfg, EMPTY, steps, lim, t) && t.diskBytes == cfg.cap - lim.declared + lim.k * lim.body
  {
    var a, s1 := Fill(cfg, EMPTY, cfg.cap - lim.declared, lim);
    var b, u := Burst(cfg, s1, lim);
    TimesIsProduct(lim.k, lim.body);
    steps := Chain(cfg, EMPTY, a, s1, b, u, lim);
    t := u;
  }

  // For every k there is a run within the same limits whose disk usage ends exactly k - 1
  // declared sizes above the configured maximum.
  lemma BoundIsAttained(cfg: Config, k: nat, limit: nat) returns (steps: seq<Step>)
    requires cfg.enabled && k >= 1 && 1 <= limit <= cfg.cap && cfg.threshold <= limit
    ensures Legal(cfg, EMPTY, steps) && Bounded(cfg, EMPTY, steps, k, limit)
    ensures After(cfg, EMPTY, steps).diskBytes == cfg.cap + (k - 1) * limit
  {
    var lim := Limits(k, limit, limit);
    var run, t := FillThenBurst(cfg, lim);
    LeadsHonestly(cfg, EMPTY, run, lim, t);
    assert k * limit == (k - 1) * limit + limit;
    steps := run;
  }
}
