/** The body of one request: read on demand, replaced by middleware, released at the end.
    This module describes the three operations on values. */
module BodyLifecycle {
  import opened Wrappers
  import opened BodyAccounting

  type Bytes = seq<bv8>

  const DEFAULT_MAX_MB: int := 128
  const DEFAULT_WRAPPED_MB: int := 32

  // An open storage: where it lives, what it holds and where reading goes on.
  datatype Body = Body(onDisk: bool, bytes: Bytes, pos: nat)

  // The body of the HTTP request. The content of an unread body is what arrives before its end,
  // or before the connection breaks. On relay routes the body is wrapped in a reader that limits
  // its size and repeats how it ended: read to the end it is Drained and reads as empty, after an
  // error it is Stuck. Any other body cannot be read once it is Closed.
  datatype Reader = Unread(content: Bytes, broken: bool, wrapped: bool) | Drained | Stuck(error: Error) | Closed | Replaced

  datatype Usage = Usage(files: int, diskBytes: int, buffers: int, memoryBytes: int)

  datatype Error = TooLarge | DiskFailed | ReadFailed | BodyClosed

  // The two context entries, the request's own body and the shared usage counters.
  datatype View = View(open: Option<Body>, cached: Option<Bytes>, reader: Reader, contentLength: int, usage: Usage)

  function Charged(u: Usage, onDisk: bool, size: nat): Usage {
    if onDisk then u.(files := u.files + 1, diskBytes := u.diskBytes + size)
    else u.(buffers := u.buffers + 1, memoryBytes := u.memoryBytes + size)
  }

  function AtLeastZero(n: int): int {
    if n < 0 then 0 else n
  }

  // Closing a storage; only the disk counters are kept from going below zero.
  function Released(u: Usage, onDisk: bool, size: nat): Usage {
    if onDisk then u.(files := AtLeastZero(u.files - 1), diskBytes := AtLeastZero(u.diskBytes - size))
    else u.(buffers := u.buffers - 1, memoryBytes := u.memoryBytes - size)
  }

  predicate FitsOnDisk(cfg: Config, u: Usage, size: int) {
    cfg.enabled && size >= cfg.threshold && u.diskBytes + size <= cfg.cap
  }

  // A storage for bytes in hand; a disk that fails falls back to memory.
  function Create(cfg: Config, u: Usage, bytes: Bytes, diskFails: bool): Body {
    Body(FitsOnDisk(cfg, u, |bytes|) && !diskFails, bytes, 0)
  }

  // A storage for a body that is still to be read: some content, and an error behind it if it does
  // not end there. Streaming to disk does not fall back.
  function FromReader(cfg: Config, u: Usage, content: Bytes, failure: Option<Error>, contentLength: int, maxBytes: nat,
                      diskFails: bool): Result<Body, Error>
  {
    var onDisk := contentLength > 0 && FitsOnDisk(cfg, u, contentLength);
    if onDisk && diskFails then Err(DiskFailed)
    else if |content| > maxBytes then Err(TooLarge)
    else if failure.Some? then Err(failure.value)
    else if onDisk then Ok(Body(true, content, 0))
    else Ok(Create(cfg, u, content, diskFails))
  }

  function MaxBytes(maxMB: int): nat {
    (if maxMB <= 0 then DEFAULT_MAX_MB else maxMB) * 0x10_0000
  }

  function WrappedBytes(maxMB: int): nat {
    (if maxMB <= 0 then DEFAULT_WRAPPED_MB else maxMB) * 0x10_0000
  }

  // What reading the request's body gives: content, and an error behind it or the end.
  function Reading(r: Reader, maxMB: int): (Bytes, Option<Error>) {
    match r
    case Unread(content, broken, wrapped) =>
      if wrapped && |content| > WrappedBytes(maxMB) then (content[..WrappedBytes(maxMB)], Some(TooLarge))
      else (content, if broken then Some(ReadFailed) else None)
    case Drained => ([], None)
    case Stuck(error) => ([], Some(error))
    case Closed => ([], Some(BodyClosed))
    case Replaced => ([], Some(BodyClosed))
  }

  // The request's body after it was read and closed. A disk that fails is found out before
  // anything is read.
  function Finished(r: Reader, failure: Option<Error>): Reader {
    if !r.Unread? then r
    else if !r.wrapped || failure == Some(DiskFailed) then Closed
    else if failure.Some? then Stuck(failure.value)
    else Drained
  }

  function Opened(v: View, b: Body): View {
    v.(open := Some(b), usage := Charged(v.usage, b.onDisk, |b.bytes|))
  }

  // What the settings and the disk are at the time of one operation.
  datatype Env = Env(cfg: Config, maxMB: int, diskFails: bool)

  function Get(v: View, env: Env): (View, Option<Error>) {
    if v.open.Some? then (v.(open := Some(v.open.value.(pos := 0))), None)
    else if v.cached.Some? then (Opened(v, Create(env.cfg, v.usage, v.cached.value, env.diskFails)), None)
    else
      var (content, failure) := Reading(v.reader, env.maxMB);
      var r := FromReader(env.cfg, v.usage, content, failure, v.contentLength, MaxBytes(env.maxMB), env.diskFails);
      if r.Ok? then (Opened(v.(reader := Finished(v.reader, None)), r.value), None)
      else (v.(reader := Finished(v.reader, Some(r.error))), Some(r.error))
  }

  function Cleanup(v: View): View {
    if v.open.Some? then v.(open := None, usage := Released(v.usage, v.open.value.onDisk, |v.open.value.bytes|)) else v
  }

  function Replace(v: View, bytes: Bytes, env: Env): View {
    var clean := Cleanup(v);
    Opened(clean, Create(env.cfg, clean.usage, bytes, env.diskFails))
      .(cached := Some(bytes), reader := Replaced, contentLength := |bytes|)
  }

  function Min(a: int, b: int): int {
    if a < b then a else b
  }

  // Reading up to n bytes where reading goes on.
  function Read(v: View, n: nat): (View, Bytes)
    requires v.open.Some? && v.open.value.pos <= |v.open.value.bytes|
  {
    var b := v.open.value;
    var end := Min(b.pos + n, |b.bytes|);
    (v.(open := Some(b.(pos := end))), b.bytes[b.pos..end])
  }

  datatype Op = DoGet(env: Env) | DoReplace(bytes: Bytes, env: Env) | DoCleanup | DoRead(n: nat)

  function Step(v: View, op: Op): View {
    match op
    case DoGet(env) => Get(v, env).0
    case DoReplace(bytes, env) => Replace(v, bytes, env)
    case DoCleanup => Cleanup(v)
    case DoRead(n) => if v.open.Some? && v.open.value.pos <= |v.open.value.bytes| then Read(v, n).0 else v
  }

  function Run(v: View, ops: seq<Op>): View {
    if ops == [] then v else Step(Run(v, ops[..|ops| - 1]), ops[|ops| - 1])
  }

  // A request as it arrives: nothing is open; an older cache of the body may be set.
  predicate Arrived(v: View) {
    && v.open.None? && (v.cached.Some? || v.reader.Unread?) && !v.reader.Replaced?
    && v.usage.files >= 0 && v.usage.diskBytes >= 0
  }

  function Original(v: View): Bytes
    requires Arrived(v)
  {
    if v.cached.Some? then v.cached.value else v.reader.content
  }

  // The last body put in place, or the original one.
  function Latest(v: View, ops: seq<Op>): Bytes
    requires Arrived(v)
  {
    if ops == [] then Original(v)
    else
      var last := ops[|ops| - 1];
      if last.DoReplace? then last.bytes else Latest(v, ops[..|ops| - 1])
  }

  // Nothing is left of the body but a reader that was read to its end.
  predicate Lost(v: View) {
    v.open.None? && v.cached.None? && v.reader.Drained?
  }

  // Since the last replacement a lost body has been got again.
  predicate Drains(v: View, ops: seq<Op>) {
    ops != [] &&
      var init, last := ops[..|ops| - 1], ops[|ops| - 1];
      !last.DoReplace? && (Drains(v, init) || (last.DoGet? && Lost(Run(v, init))))
  }

  // The body that the request has at the end of a run.
  function Current(v: View, ops: seq<Op>): Bytes
    requires Arrived(v)
  {
    if Drains(v, ops) then [] else Latest(v, ops)
  }

  // What holds between operations: the context entries agree with the current body, and the
  // counters are those at arrival plus the open storage.
  ghost predicate Sound(start: Usage, current: Bytes, v: View) {
    && start.files >= 0 && start.diskBytes >= 0
    && (v.open.Some? ==> v.open.value.bytes == current && v.open.value.pos <= |current|)
    && (v.cached.Some? ==> v.cached.value == current)
    && (v.reader.Replaced? ==> v.cached.Some?)
    && (v.reader.Unread? && v.cached.None? ==> v.open.None? && v.reader.content == current)
    && v.usage == if v.open.Some? then Charged(start, v.open.value.onDisk, |v.open.value.bytes|) else start
  }

  function NextBody(v: View, current: Bytes, op: Op): Bytes {
    if op.DoReplace? then op.bytes else if op.DoGet? && Lost(v) then [] else current
  }

  lemma StepKeepsSound(start: Usage, current: Bytes, v: View, op: Op)
    requires Sound(start, current, v)
    ensures Sound(start, NextBody(v, current, op), Step(v, op))
  {}

  lemma {:induction false} RunKeepsSound(v: View, ops: seq<Op>)
    requires Arrived(v)
    ensures Sound(v.usage, Current(v, ops), Run(v, ops))
  {
    if ops != [] {
      var n := |ops| - 1;
      RunKeepsSound(v, ops[..n]);
      StepKeepsSound(v.usage, Current(v, ops[..n]), Run(v, ops[..n]), ops[n]);
    }
  }

  // A get that succeeds, at any point of any run, gives a body from its start. It is the latest one
  // exactly when that is empty or no lost body was got since it was put in place, now included.
  lemma GetGivesLatestExactly(v: View, ops: seq<Op>, env: Env)
    requires Arrived(v) && Get(Run(v, ops), env).1.None?
    ensures var b := Get(Run(v, ops), env).0.open;
      && b.Some? && b.value.pos == 0
      && (b.value.bytes == Latest(v, ops) <==> Latest(v, ops) == [] || !Drains(v, ops + [DoGet(env)]))
  {
    var all := ops + [DoGet(env)];
    assert all[..|ops|] == ops;
    RunKeepsSound(v, all);
  }

  // A body is lost only when it came through the wrapped reader, was not cached and was cleaned
  // up; other successful gets give the latest body.
  lemma {:induction false} NotLost(v: View, ops: seq<Op>)
    requires Arrived(v) && (v.cached.Some? || !v.reader.wrapped || forall i :: 0 <= i < |ops| ==> !ops[i].DoCleanup?)
    ensures !Drains(v, ops) && !Lost(Run(v, ops))
    ensures v.cached.Some? ==> Run(v, ops).cached.Some?
    ensures v.cached.None? && !v.reader.wrapped ==>
      var r := Run(v, ops).reader; !r.Drained? && (r.Unread? ==> !r.wrapped)
    ensures v.cached.None? && v.reader.wrapped ==>
      Run(v, ops).open.Some? || Run(v, ops).cached.Some? || !Run(v, ops).reader.Drained?
  {
    if ops != [] {
      var n := |ops| - 1;
      assert forall i :: 0 <= i < n ==> ops[..n][i] == ops[i];
      NotLost(v, ops[..n]);
    }
  }

  lemma GetGivesLatest(v: View, ops: seq<Op>, env: Env)
    requires Arrived(v) && Get(Run(v, ops), env).1.None?
    requires v.cached.Some? || !v.reader.wrapped || forall i :: 0 <= i < |ops| ==> !ops[i].DoCleanup?
    ensures var b := Get(Run(v, ops), env).0.open; b.Some? && b.value.bytes == Latest(v, ops) && b.value.pos == 0
  {
    var all := ops + [DoGet(env)];
    assert all[..|ops|] == ops;
    NotLost(v, ops);
    GetGivesLatestExactly(v, ops, env);
  }

  lemma GetThenCleanup(v: View, env: Env)
    ensures Run(v, [DoGet(env), DoCleanup]) == Cleanup(Get(v, env).0)
    ensures Arrived(v) ==> Latest(v, [DoGet(env), DoCleanup]) == Original(v)
  {
    var ops := [DoGet(env), DoCleanup];
    assert ops[..1] == [DoGet(env)] && [DoGet(env)][..0] == [];
    assert Run(v, [DoGet(env)]) == Step(Run(v, []), DoGet(env));
    if Arrived(v) {
      assert Latest(v, [DoGet(env)]) == Latest(v, []);
    }
  }

  // A relay body kept in memory that was read whole, and then cleaned up.
  lemma CleanedUpIsLost(v: View, env: Env, content: Bytes)
    requires v.open.None? && v.cached.None? && v.reader == Unread(content, false, true)
    requires !env.cfg.enabled && |content| <= WrappedBytes(env.maxMB)
    ensures Lost(Cleanup(Get(v, env).0))
  {}

  lemma LostReadsEmpty(v: View, env: Env)
    requires Lost(v) && !env.cfg.enabled
    ensures Get(v, env).1.None? && Get(v, env).0.open == Some(Body(false, [], 0))
  {}

  // Whatever a relay route's request contains: got, cleaned up and got again it is empty.
  lemma CleanedUpReadsEmpty(v: View, env: Env, content: Bytes)
    requires Arrived(v) && v.cached.None? && v.reader == Unread(content, false, true)
    requires !env.cfg.enabled && |content| <= WrappedBytes(env.maxMB)
    ensures var ops := [DoGet(env), DoCleanup];
      && Latest(v, ops) == content
      && Get(Run(v, ops), env).1.None? && Get(Run(v, ops), env).0.open == Some(Body(false, [], 0))
  {
    GetThenCleanup(v, env);
    CleanedUpIsLost(v, env, content);
    LostReadsEmpty(Cleanup(Get(v, env).0), env);
  }

  // When a get succeeds: something is open or cached, or reading the request's body gives content
  // that ends, is not too large, and is not to be streamed to a failing disk.
  lemma GetSucceedsExactly(v: View, env: Env)
    ensures Get(v, env).1.None? <==>
      || v.open.Some? || v.cached.Some?
      || (var (content, failure) := Reading(v.reader, env.maxMB);
          failure.None? && |content| <= MaxBytes(env.maxMB)
          && !(env.diskFails && v.contentLength > 0 && FitsOnDisk(env.cfg, v.usage, v.contentLength)))
  {}

  // Once a body was replaced it stays available through every run, cleanups included.
  lemma {:induction false} ReplacedStaysAvailable(v: View, ops: seq<Op>, env: Env)
    requires v.cached.Some?
    ensures Run(v, ops).cached.Some? && Get(Run(v, ops), env).1.None?
  {
    if ops != [] {
      ReplacedStaysAvailable(v, ops[..|ops| - 1], env);
    }
    GetSucceedsExactly(Run(v, ops), env);
  }

  // Once a body was got or replaced it stays available until it is cleaned up.
  lemma {:induction false} StaysAvailable(v: View, ops: seq<Op>, env: Env)
    requires v.open.Some? && forall i :: 0 <= i < |ops| ==> !ops[i].DoCleanup?
    ensures Run(v, ops).open.Some? && Get(Run(v, ops), env).1.None?
  {
    if ops != [] {
      var n := |ops| - 1;
      assert forall i :: 0 <= i < n ==> ops[..n][i] == ops[i];
      StaysAvailable(v, ops[..n], env);
    }
  }

  // Cleanup at the end of any run leaves the counters as they were at arrival.
  lemma {:induction false} NoNetUse(v: View, ops: seq<Op>)
    requires Arrived(v)
    ensures Cleanup(Run(v, ops)).usage == v.usage && Cleanup(Run(v, ops)).open.None?
  {
    RunKeepsSound(v, ops);
  }

  // ---------- disk or memory ----------

  // The same operation, with other settings of the disk and other disk failures.
  predicate SameOp(a: Op, b: Op) {
    match a
    case DoGet(env) => b.DoGet? && b.env.maxMB == env.maxMB
    case DoReplace(bytes, _) => b.DoReplace? && b.bytes == bytes
    case DoCleanup => b.DoCleanup?
    case DoRead(n) => b.DoRead? && b.n == n
  }

  // Two contexts that nobody can tell apart by reading.
  ghost predicate Alike(a: View, b: View) {
    && a.cached == b.cached && a.reader == b.reader && a.contentLength == b.contentLength
    && (a.open.Some? <==> b.open.Some?)
    && (a.open.Some? ==> a.open.value.bytes == b.open.value.bytes && a.open.value.pos == b.open.value.pos)
  }

  predicate StreamFails(v: View, op: Op) {
    op.DoGet? && Get(v, op.env).1 == Some(DiskFailed)
  }

  lemma StepKeepsAlike(a: View, b: View, op: Op, op': Op)
    requires Alike(a, b) && SameOp(op, op') && !StreamFails(a, op) && !StreamFails(b, op')
    ensures Alike(Step(a, op), Step(b, op'))
  {}

  // Whatever was kept on disk or in memory, two runs of the same operations stay alike as
  // long as no body is lost while it is streamed to disk.
  lemma {:induction false} DiskIsInvisible(a: View, b: View, ops: seq<Op>, ops': seq<Op>)
    requires Alike(a, b) && |ops| == |ops'|
    requires forall i :: 0 <= i < |ops| ==>
      SameOp(ops[i], ops'[i]) && !StreamFails(Run(a, ops[..i]), ops[i]) && !StreamFails(Run(b, ops'[..i]), ops'[i])
    ensures Alike(Run(a, ops), Run(b, ops'))
  {
    if ops != [] {
      var n := |ops| - 1;
      forall i | 0 <= i < n
        ensures SameOp(ops[..n][i], ops'[..n][i])
        ensures !StreamFails(Run(a, ops[..n][..i]), ops[..n][i]) && !StreamFails(Run(b, ops'[..n][..i]), ops'[..n][i])
      {
        assert ops[..n][..i] == ops[..i] && ops'[..n][..i] == ops'[..i];
      }
      DiskIsInvisible(a, b, ops[..n], ops'[..n]);
      StepKeepsAlike(Run(a, ops[..n]), Run(b, ops'[..n]), ops[n], ops'[n]);
    }
  }
}
