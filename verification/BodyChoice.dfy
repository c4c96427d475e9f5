/** Which bodies go to disk, told on the settings and the counters, and that the lifecycle of one
    request and the accounting of all requests choose alike. */
module BodyChoice {
  import opened Wrappers
  import opened BodyLifecycle
  import BodyAccounting

  // ---------- bytes in hand ----------

  // A body put in place goes to disk exactly when the cache is on, it is not below the threshold,
  // the disk works, and it fits below the maximum beside what is used without the old body.
  lemma ReplacedOnDiskExactly(v: View, bytes: Bytes, env: Env)
    ensures var b := Replace(v, bytes, env).open;
      && b.Some? && b.value.bytes == bytes && b.value.pos == 0
      && (b.value.onDisk <==>
            && env.cfg.enabled && |bytes| >= env.cfg.threshold && !env.diskFails
            && Cleanup(v).usage.diskBytes + |bytes| <= env.cfg.cap)
  {}

  // A body that is got from the cached bytes goes to disk under the same condition.
  lemma CachedOnDiskExactly(v: View, env: Env)
    requires v.open.None? && v.cached.Some?
    ensures var (next, error) := Get(v, env);
      && error.None? && next.open.Some? && next.open.value.bytes == v.cached.value
      && (next.open.value.onDisk <==>
            && env.cfg.enabled && |v.cached.value| >= env.cfg.threshold && !env.diskFails
            && v.usage.diskBytes + |v.cached.value| <= env.cfg.cap)
  {}

  // Over every run: whatever was made on disk from bytes in hand leaves the usage within the
  // maximum of that moment.
  lemma MaximumIsKept(v: View, ops: seq<Op>, op: Op)
    requires Arrived(v)
    ensures var before, after := Run(v, ops), Run(v, ops + [op]);
      after.open.Some? && after.open.value.onDisk ==>
        && (op.DoReplace? ==> after.usage.diskBytes <= op.env.cfg.cap)
        && (op.DoGet? && before.open.None? && before.cached.Some? ==> after.usage.diskBytes <= op.env.cfg.cap)
  {
    assert (ops + [op])[..|ops|] == ops;
    RunKeepsSound(v, ops);
  }

  // ---------- bodies that are streamed ----------

  // A body read from the request is streamed to disk exactly when its declared length is positive
  // and passes the same test; the disk must then work, for nothing else is tried.
  predicate Streams(v: View, env: Env) {
    env.cfg.enabled && v.contentLength > 0 && v.contentLength >= env.cfg.threshold && v.usage.diskBytes + v.contentLength <= env.cfg.cap
  }

  lemma StreamedExactly(v: View, env: Env)
    requires v.open.None? && v.cached.None?
    ensures var (next, error) := Get(v, env);
      && (Streams(v, env) && env.diskFails ==> error == Some(DiskFailed))
      && (error.None? && Streams(v, env) ==> next.open.value.onDisk)
      && (error.None? && !Streams(v, env) ==>
            var n := |next.open.value.bytes|;
            next.open.value.onDisk <==>
              env.cfg.enabled && n >= env.cfg.threshold && !env.diskFails && v.usage.diskBytes + n <= env.cfg.cap)
  {}

  // ---------- both models choose alike ----------

  // With the same counters, bytes in hand go to a working disk exactly when the accounting admits
  // them, and a declared length is streamed exactly when the accounting admits it.
  lemma AccountingAgrees(s: BodyAccounting.State, u: Usage, cfg: BodyAccounting.Config, bytes: Bytes)
    requires s.diskBytes == u.diskBytes
    ensures Create(cfg, u, bytes, false).onDisk <==> BodyAccounting.Enabled(cfg, s, BodyAccounting.Admit(false, |bytes|))
  {}

  lemma StreamingAgrees(s: BodyAccounting.State, v: View, env: Env)
    requires s.diskBytes == v.usage.diskBytes && v.contentLength >= 0
    ensures Streams(v, env) <==> BodyAccounting.Enabled(env.cfg, s, BodyAccounting.Admit(true, v.contentLength))
  {}

  // Charging and releasing move the counters as the accounting does.
  lemma ChargingAgrees(s: BodyAccounting.State, u: Usage, onDisk: bool, size: nat)
    requires u == Usage(s.files, s.diskBytes, s.buffers, s.memoryBytes)
    ensures var kind := if onDisk then BodyAccounting.Disk else BodyAccounting.Memory;
      var s' := BodyAccounting.AddToBytes(BodyAccounting.AddToCount(s, kind, 1), kind, size);
      Charged(u, onDisk, size) == Usage(s'.files, s'.diskBytes, s'.buffers, s'.memoryBytes)
  {}
}
