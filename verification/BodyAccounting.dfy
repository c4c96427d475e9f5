/** Request bodies are created and closed by many goroutines at once, and the shared usage
    counters change by single atomic additions. Every atomic load, add, compare-and-swap,
    store, lock and unlock is one step here; a run is any legal sequence of steps. */
module BodyAccounting {
  import opened Wrappers

  datatype Kind = Memory | Disk

  // How far the creation of a storage has come. A disk storage is Admitted by the usage
  // check, Counted after the first atomic add and Made after the second.
  datatype Making = Admitted | Counted | Made | Abandoned

  // Which of the two subtractions of Close have been carried out.
  datatype Unmaking = Intact | Uncounted | Gone

  // A streamed storage is written from a request that only declares its length; any other is
  // written from bytes in hand.
  datatype Storage = Storage(kind: Kind, streamed: bool, declared: nat, size: nat, making: Making,
                             closed: bool, unmaking: Unmaking, holder: Option<nat>)

  // The program counter of one call of Close. The Zero points are the stores that clamp a
  // counter found negative; only disk storages have them.
  datatype Point = AtLock | AtCas | AtSubCount | AtZeroCount | AtSubBytes | AtZeroBytes | AtUnlock | Returned

  datatype Closer = Closer(target: nat, point: Point)

  datatype State = State(files: int, diskBytes: int, buffers: int, memoryBytes: int,
                         storages: seq<Storage>, closers: seq<Closer>)

  datatype Config = Config(enabled: bool, threshold: int, cap: int)

  datatype Step =
    | Admit(streamed: bool, declared: nat)
    | Abandon(id: nat)
    | StartMemory(bytes: nat)
    | AddCount(id: nat, written: nat)
    | AddBytes(id: nat)
    | CallClose(id: nat)
    | Lock(c: nat)
    | Cas(c: nat)
    | SubCount(c: nat)
    | ZeroCount(c: nat)
    | SubBytes(c: nat)
    | ZeroBytes(c: nat)
    | Unlock(c: nat)

  const EMPTY := State(0, 0, 0, 0, [], [])

  predicate At(s: State, c: nat, p: Point) {
    c < |s.closers| && s.closers[c].target < |s.storages| && s.closers[c].point == p
  }

  predicate Enabled(cfg: Config, s: State, step: Step) {
    match step
    case Admit(streamed, declared) =>
      cfg.enabled && declared >= cfg.threshold && s.diskBytes + declared <= cfg.cap && (streamed ==> declared > 0)
    case Abandon(id) => id < |s.storages| && s.storages[id].making == Admitted && s.storages[id].kind == Disk
    case StartMemory(_) => true
    case AddCount(id, written) =>
      id < |s.storages| && s.storages[id].making == Admitted
      && (!s.storages[id].streamed ==> written == s.storages[id].declared)
    case AddBytes(id) => id < |s.storages| && s.storages[id].making == Counted
    case CallClose(id) => id < |s.storages| && s.storages[id].making == Made
    case Lock(c) => At(s, c, AtLock) && s.storages[s.closers[c].target].holder == None
    case Cas(c) => At(s, c, AtCas)
    case SubCount(c) => At(s, c, AtSubCount)
    case ZeroCount(c) => At(s, c, AtZeroCount)
    case SubBytes(c) => At(s, c, AtSubBytes)
    case ZeroBytes(c) => At(s, c, AtZeroBytes)
    case Unlock(c) => At(s, c, AtUnlock)
  }

  function NewStorage(k: Kind, streamed: bool, declared: nat): Storage {
    Storage(k, streamed, declared, 0, Admitted, false, Intact, None)
  }

  function Put(s: State, id: nat, st: Storage): State
    requires id < |s.storages|
  {
    s.(storages := s.storages[id := st])
  }

  function Move(s: State, c: nat, p: Point): State
    requires c < |s.closers|
  {
    s.(closers := s.closers[c := s.closers[c].(point := p)])
  }

  function AddToCount(s: State, k: Kind, n: int): State {
    if k.Disk? then s.(files := s.files + n) else s.(buffers := s.buffers + n)
  }

  function AddToBytes(s: State, k: Kind, n: int): State {
    if k.Disk? then s.(diskBytes := s.diskBytes + n) else s.(memoryBytes := s.memoryBytes + n)
  }

  function Apply(cfg: Config, s: State, step: Step): State
    requires Enabled(cfg, s, step)
  {
    match step
    case Admit(streamed, declared) =>
      s.(storages := s.storages + [NewStorage(Disk, streamed, declared)])
    case Abandon(id) => Put(s, id, s.storages[id].(making := Abandoned))
    case StartMemory(bytes) =>
      s.(storages := s.storages + [NewStorage(Memory, false, bytes)])
    case AddCount(id, written) =>
      var st := s.storages[id];
      Put(AddToCount(s, st.kind, 1), id, st.(size := written, making := Counted))
    case AddBytes(id) =>
      var st := s.storages[id];
      Put(AddToBytes(s, st.kind, st.size), id, st.(making := Made))
    case CallClose(id) => s.(closers := s.closers + [Closer(id, AtLock)])
    case Lock(c) =>
      var id := s.closers[c].target;
      Move(Put(s, id, s.storages[id].(holder := Some(c))), c, AtCas)
    case Cas(c) =>
      var id := s.closers[c].target;
      if s.storages[id].closed then Move(s, c, AtUnlock)
      else Move(Put(s, id, s.storages[id].(closed := true)), c, AtSubCount)
    case SubCount(c) =>
      var id := s.closers[c].target;
      var st := s.storages[id];
      var s1 := Put(AddToCount(s, st.kind, -1), id, st.(unmaking := Uncounted));
      Move(s1, c, if st.kind.Disk? && s1.files < 0 then AtZeroCount else AtSubBytes)
    case ZeroCount(c) => Move(s.(files := 0), c, AtSubBytes)
    case SubBytes(c) =>
      var id := s.closers[c].target;
      var st := s.storages[id];
      var s1 := Put(AddToBytes(s, st.kind, -(st.size as int)), id, st.(unmaking := Gone));
      Move(s1, c, if st.kind.Disk? && s1.diskBytes < 0 then AtZeroBytes else AtUnlock)
    case ZeroBytes(c) => Move(s.(diskBytes := 0), c, AtUnlock)
    case Unlock(c) =>
      var id := s.closers[c].target;
      Move(Put(s, id, s.storages[id].(holder := None)), c, Returned)
  }

  // A run is a sequence of steps each of which is enabled when its turn comes.
  predicate Legal(cfg: Config, s: State, steps: seq<Step>)
    decreases |steps|
  {
    steps != [] ==> Enabled(cfg, s, steps[0]) && Legal(cfg, Apply(cfg, s, steps[0]), steps[1..])
  }

  function After(cfg: Config, s: State, steps: seq<Step>): State
    requires Legal(cfg, s, steps)
    decreases |steps|
  {
    if steps == [] then s else After(cfg, Apply(cfg, s, steps[0]), steps[1..])
  }

  // ---------- totals over all storages ever created ----------

  datatype Measure =
    | Count(k: Kind) | Bytes(k: Kind) | OpenCount(k: Kind) | OpenBytes(k: Kind) | InFlight | InFlightBytes
    | Reserve(maxBytes: nat)

  function Weight(m: Measure, st: Storage): nat {
    match m
    case Count(k) => if st.kind == k && (st.making == Counted || st.making == Made) && st.unmaking == Intact then 1 else 0
    case Bytes(k) => if st.kind == k && st.making == Made && st.unmaking != Gone then st.size else 0
    case OpenCount(k) => if st.kind == k && st.making == Made && !st.closed then 1 else 0
    case OpenBytes(k) => if st.kind == k && st.making == Made && !st.closed then st.size else 0
    case InFlight => if st.kind == Disk && (st.making == Admitted || st.making == Counted) then 1 else 0
    case InFlightBytes => if st.kind == Disk && (st.making == Admitted || st.making == Counted) then st.declared else 0
    // What a creation in flight can still add when no body is longer than maxBytes.
    case Reserve(maxBytes) =>
      if st.kind == Disk && (st.making == Admitted || st.making == Counted) then
        if st.streamed || st.declared > maxBytes then maxBytes else st.declared
      else 0
  }

  function Total(m: Measure, ss: seq<Storage>): nat {
    if ss == [] then 0 else Total(m, ss[..|ss| - 1]) + Weight(m, ss[|ss| - 1])
  }

  lemma TotalAppend(m: Measure, ss: seq<Storage>, st: Storage)
    ensures Total(m, ss + [st]) == Total(m, ss) + Weight(m, st)
  {
    assert (ss + [st])[..|ss|] == ss;
  }

  lemma {:induction false} TotalUpdate(m: Measure, ss: seq<Storage>, i: nat, st: Storage)
    requires i < |ss|
    ensures Total(m, ss[i := st]) == Total(m, ss) - Weight(m, ss[i]) + Weight(m, st)
  {
    var n := |ss| - 1;
    if i == n {
      assert ss[i := st][..n] == ss[..n];
    } else {
      assert ss[i := st][..n] == ss[..n][i := st];
      TotalUpdate(m, ss[..n], i, st);
    }
  }

  lemma {:induction false} TotalAtLeast(m: Measure, ss: seq<Storage>, i: nat)
    requires i < |ss|
    ensures Total(m, ss) >= Weight(m, ss[i])
  {
    if i < |ss| - 1 {
      TotalAtLeast(m, ss[..|ss| - 1], i);
    }
  }

  lemma {:induction false} TotalSame(m: Measure, n: Measure, ss: seq<Storage>)
    requires forall i :: 0 <= i < |ss| ==> Weight(m, ss[i]) == Weight(n, ss[i])
    ensures Total(m, ss) == Total(n, ss)
  {
    if ss != [] {
      TotalSame(m, n, ss[..|ss| - 1]);
    }
  }

  // ---------- exact accounting ----------

  predicate Holding(p: Point) {
    p == AtCas || p == AtSubCount || p == AtSubBytes || p == AtUnlock
  }

  // What holds of one storage: nothing is subtracted before the flag is set, and once the
  // mutex is free again a closed storage has been subtracted completely.
  predicate StorageOk(s: State, i: nat)
    requires i < |s.storages|
  {
    var st := s.storages[i];
    && (st.closed ==> st.making == Made)
    && (!st.closed ==> st.unmaking == Intact)
    && (st.holder == None && st.closed ==> st.unmaking == Gone)
    && (st.holder.Some? ==>
          && st.holder.value < |s.closers|
          && s.closers[st.holder.value].target == i
          && Holding(s.closers[st.holder.value].point))
  }

  // What holds of one call of Close: it is never at a clamping store, and where it stands
  // says exactly how much of its storage has been subtracted.
  predicate CloserOk(s: State, c: nat)
    requires c < |s.closers|
  {
    var cl := s.closers[c];
    && cl.target < |s.storages|
    && cl.point != AtZeroCount && cl.point != AtZeroBytes
    && var st := s.storages[cl.target];
    && st.making == Made
    && (Holding(cl.point) ==> st.holder == Some(c))
    && (cl.point == AtCas ==> (st.closed ==> st.unmaking == Gone))
    && (cl.point == AtSubCount ==> st.closed && st.unmaking == Intact)
    && (cl.point == AtSubBytes ==> st.closed && st.unmaking == Uncounted)
    && (cl.point == AtUnlock ==> st.closed && st.unmaking == Gone)
  }

  function Counter(s: State, m: Measure): int
    requires m.Count? || m.Bytes?
  {
    match m
    case Count(k) => if k.Disk? then s.files else s.buffers
    case Bytes(k) => if k.Disk? then s.diskBytes else s.memoryBytes
  }

  predicate Exact(s: State) {
    && Counter(s, Count(Disk)) == Total(Count(Disk), s.storages)
    && Counter(s, Bytes(Disk)) == Total(Bytes(Disk), s.storages)
    && Counter(s, Count(Memory)) == Total(Count(Memory), s.storages)
    && Counter(s, Bytes(Memory)) == Total(Bytes(Memory), s.storages)
  }

  predicate Inv(s: State) {
    && Exact(s)
    && (forall i :: 0 <= i < |s.storages| ==> StorageOk(s, i))
    && (forall c :: 0 <= c < |s.closers| ==> CloserOk(s, c))
  }

  // The storage a step acts on; a creation acts on the storage it is about to append.
  function Touched(s: State, step: Step): nat {
    match step
    case Admit(_, _) => |s.storages|
    case StartMemory(_) => |s.storages|
    case CallClose(id) => id
    case Abandon(id) => id
    case AddCount(id, _) => id
    case AddBytes(id) => id
    case _ => if step.c < |s.closers| then s.closers[step.c].target else 0
  }

  function WeightAt(m: Measure, ss: seq<Storage>, i: nat): nat {
    if i < |ss| then Weight(m, ss[i]) else 0
  }

  // A step appends one storage or changes the one it acts on.
  lemma StepShape(cfg: Config, s: State, step: Step)
    requires Enabled(cfg, s, step)
    ensures var ss, ss' := s.storages, Apply(cfg, s, step).storages;
      var i := Touched(s, step);
      && i <= |ss| && i < |ss'|
      && ss' == if i == |ss| then ss + [ss'[i]] else ss[i := ss'[i]]
  {}

  lemma ShapeTotal(m: Measure, ss: seq<Storage>, ss': seq<Storage>, i: nat)
    requires i <= |ss| && i < |ss'|
    requires ss' == if i == |ss| then ss + [ss'[i]] else ss[i := ss'[i]]
    ensures Total(m, ss') == Total(m, ss) - WeightAt(m, ss, i) + WeightAt(m, ss', i)
  {
    if i == |ss| {
      TotalAppend(m, ss, ss'[i]);
    } else {
      TotalUpdate(m, ss, i, ss'[i]);
    }
  }

  // One step changes a total by the change in weight of the storage it acts on.
  lemma StepTotal(cfg: Config, s: State, step: Step, m: Measure)
    requires Enabled(cfg, s, step)
    ensures var s' := Apply(cfg, s, step);
      var i := Touched(s, step);
      Total(m, s'.storages) == Total(m, s.storages) - WeightAt(m, s.storages, i) + WeightAt(m, s'.storages, i)
  {
    StepShape(cfg, s, step);
    ShapeTotal(m, s.storages, Apply(cfg, s, step).storages, Touched(s, step));
  }

  predicate ByCloser(step: Step) {
    !step.Admit? && !step.StartMemory? && !step.CallClose? && !step.Abandon? && !step.AddCount? && !step.AddBytes?
  }

  // The part of the invariant that speaks of the storage and the call a step acts on.
  lemma Local(cfg: Config, s: State, step: Step)
    requires Inv(s) && Enabled(cfg, s, step)
    ensures Touched(s, step) < |s.storages| ==> StorageOk(s, Touched(s, step))
    ensures ByCloser(step) ==> Touched(s, step) < |s.storages| && CloserOk(s, step.c)
  {}

  // One step changes a counter by the change in weight of the storage it acts on.
  lemma StepCounter(cfg: Config, s: State, step: Step, m: Measure)
    requires Enabled(cfg, s, step) && (m.Count? || m.Bytes?)
    requires Touched(s, step) < |s.storages| ==> StorageOk(s, Touched(s, step))
    requires ByCloser(step) ==> CloserOk(s, step.c)
    ensures var s' := Apply(cfg, s, step);
      var i := Touched(s, step);
      Counter(s', m) == Counter(s, m) - WeightAt(m, s.storages, i) + WeightAt(m, s'.storages, i)
  {}

  lemma StepKeepsExact(cfg: Config, s: State, step: Step)
    requires Inv(s) && Enabled(cfg, s, step)
    ensures Exact(Apply(cfg, s, step))
  {
    Local(cfg, s, step);
    StepKeepsMeasure(cfg, s, step, Count(Disk));
    StepKeepsMeasure(cfg, s, step, Bytes(Disk));
    StepKeepsMeasure(cfg, s, step, Count(Memory));
    StepKeepsMeasure(cfg, s, step, Bytes(Memory));
  }

  lemma StepKeepsMeasure(cfg: Config, s: State, step: Step, m: Measure)
    requires Enabled(cfg, s, step) && (m.Count? || m.Bytes?)
    requires Touched(s, step) < |s.storages| ==> StorageOk(s, Touched(s, step))
    requires ByCloser(step) ==> CloserOk(s, step.c)
    requires Counter(s, m) == Total(m, s.storages)
    ensures Counter(Apply(cfg, s, step), m) == Total(m, Apply(cfg, s, step).storages)
  {
    StepCounter(cfg, s, step, m);
    StepTotal(cfg, s, step, m);
  }

  // A subtraction never leaves a counter negative, because the storage subtracted is part
  // of the total.
  lemma NeverClamps(cfg: Config, s: State, step: Step)
    requires Inv(s) && Enabled(cfg, s, step)
    requires step.SubCount? || step.SubBytes?
    ensures Apply(cfg, s, step).closers[step.c].point == if step.SubCount? then AtSubBytes else AtUnlock
  {
    Local(cfg, s, step);
    TotalAtLeast(Count(Disk), s.storages, Touched(s, step));
    TotalAtLeast(Bytes(Disk), s.storages, Touched(s, step));
  }

  lemma StepKeepsStorage(cfg: Config, s: State, step: Step, i: nat)
    requires Inv(s) && Enabled(cfg, s, step) && i < |Apply(cfg, s, step).storages|
    ensures StorageOk(Apply(cfg, s, step), i)
  {
    Local(cfg, s, step);
    if step.SubCount? || step.SubBytes? {
      NeverClamps(cfg, s, step);
    }
    if i < |s.storages| {
      assert StorageOk(s, i);
    }
  }

  lemma StepKeepsCloser(cfg: Config, s: State, step: Step, c: nat)
    requires Inv(s) && Enabled(cfg, s, step) && c < |Apply(cfg, s, step).closers|
    ensures CloserOk(Apply(cfg, s, step), c)
  {
    Local(cfg, s, step);
    if step.SubCount? || step.SubBytes? {
      NeverClamps(cfg, s, step);
    }
    if c < |s.closers| {
      assert CloserOk(s, c);
      assert StorageOk(s, s.closers[c].target);
    }
  }

  lemma StepKeepsInv(cfg: Config, s: State, step: Step)
    requires Inv(s) && Enabled(cfg, s, step)
    ensures Inv(Apply(cfg, s, step))
  {
    StepKeepsExact(cfg, s, step);
    var s' := Apply(cfg, s, step);
    forall i | 0 <= i < |s'.storages| ensures StorageOk(s', i) {
      StepKeepsStorage(cfg, s, step, i);
    }
    forall c | 0 <= c < |s'.closers| ensures CloserOk(s', c) {
      StepKeepsCloser(cfg, s, step, c);
    }
  }

  lemma {:induction false} RunKeepsInv(cfg: Config, s: State, steps: seq<Step>)
    requires Inv(s) && Legal(cfg, s, steps)
    ensures Inv(After(cfg, s, steps))
    decreases |steps|
  {
    if steps != [] {
      StepKeepsInv(cfg, s, steps[0]);
      RunKeepsInv(cfg, Apply(cfg, s, steps[0]), steps[1..]);
    }
  }

  // In every state of every interleaving, each counter is the total over the storages that
  // have been counted in and not yet counted out, and no call of Close ever reaches a
  // clamping store.
  lemma AccountingIsExact(cfg: Config, steps: seq<Step>)
    requires Legal(cfg, EMPTY, steps)
    ensures var s := After(cfg, EMPTY, steps);
      && s.files == Total(Count(Disk), s.storages)
      && s.diskBytes == Total(Bytes(Disk), s.storages)
      && s.buffers == Total(Count(Memory), s.storages)
      && s.memoryBytes == Total(Bytes(Memory), s.storages)
      && forall c :: 0 <= c < |s.closers| ==> s.closers[c].point != AtZeroCount && s.closers[c].point != AtZeroBytes
  {
    RunKeepsInv(cfg, EMPTY, steps);
    var s := After(cfg, EMPTY, steps);
    forall c | 0 <= c < |s.closers| ensures s.closers[c].point != AtZeroCount && s.closers[c].point != AtZeroBytes {
      assert CloserOk(s, c);
    }
  }

  // Nothing is half created and no call of Close is between its lock and its unlock.
  predicate Quiescent(s: State) {
    && (forall i :: 0 <= i < |s.storages| ==> s.storages[i].making == Made || s.storages[i].making == Abandoned)
    && (forall c :: 0 <= c < |s.closers| ==> s.closers[c].point == AtLock || s.closers[c].point == Returned)
  }

  // Between bursts of activity the counters are exactly the number and the bytes of the
  // storages whose closed flag is clear, however often each of them was closed.
  lemma QuiescentCountersAreOpenStorages(cfg: Config, steps: seq<Step>)
    requires Legal(cfg, EMPTY, steps)
    requires Quiescent(After(cfg, EMPTY, steps))
    ensures var s := After(cfg, EMPTY, steps);
      && s.files == Total(OpenCount(Disk), s.storages)
      && s.diskBytes == Total(OpenBytes(Disk), s.storages)
      && s.buffers == Total(OpenCount(Memory), s.storages)
      && s.memoryBytes == Total(OpenBytes(Memory), s.storages)
  {
    RunKeepsInv(cfg, EMPTY, steps);
    var s := After(cfg, EMPTY, steps);
    forall k: Kind, i | 0 <= i < |s.storages|
      ensures Weight(Count(k), s.storages[i]) == Weight(OpenCount(k), s.storages[i])
      ensures Weight(Bytes(k), s.storages[i]) == Weight(OpenBytes(k), s.storages[i])
    {
      assert StorageOk(s, i);
    }
    TotalSame(Count(Disk), OpenCount(Disk), s.storages);
    TotalSame(Bytes(Disk), OpenBytes(Disk), s.storages);
    TotalSame(Count(Memory), OpenCount(Memory), s.storages);
    TotalSame(Bytes(Memory), OpenBytes(Memory), s.storages);
  }

  // ---------- the disk cap under unlocked admission ----------

  // At most k creations are between the usage check and the usage increment, every
  // declared size is at most limit.
  predicate Crowd(s: State, k: nat, limit: nat) {
    && Total(InFlight, s.storages) <= k
    && forall i :: 0 <= i < |s.storages| ==> s.storages[i].declared <= limit || s.storages[i].kind == Memory
  }

  // A creation writes no more than it declared.
  predicate Honest(s: State, step: Step) {
    step.AddCount? && step.id < |s.storages| ==> step.written <= s.storages[step.id].declared
  }

  // Every state of the run is so crowded at most, and every write is honest.
  predicate Bounded(cfg: Config, s: State, steps: seq<Step>, k: nat, limit: nat)
    requires Legal(cfg, s, steps)
    decreases |steps|
  {
    && Crowd(s, k, limit)
    && (steps != [] ==> Honest(s, steps[0]) && Bounded(cfg, Apply(cfg, s, steps[0]), steps[1..], k, limit))
  }

  predicate WithinDeclared(ss: seq<Storage>) {
    forall i :: 0 <= i < |ss| ==> ss[i].making == Counted && ss[i].kind == Disk ==> ss[i].size <= ss[i].declared
  }

  lemma {:induction false} InFlightAtMost(ss: seq<Storage>, limit: nat)
    requires forall i :: 0 <= i < |ss| ==> ss[i].declared <= limit || ss[i].kind == Memory
    ensures Total(InFlightBytes, ss) <= Total(InFlight, ss) * limit
  {
    if ss != [] {
      var init := ss[..|ss| - 1];
      InFlightAtMost(init, limit);
      var last := ss[|ss| - 1];
      assert last.declared <= limit || last.kind == Memory;
      assert (Total(InFlight, init) + 1) * limit == Total(InFlight, init) * limit + limit;
    }
  }

  predicate Capped(cfg: Config, s: State, k: nat, limit: nat) {
    s.diskBytes + Total(InFlightBytes, s.storages) <= cfg.cap + (k - 1) * limit
  }

  // Admission is the only step that can raise usage plus in-flight bytes: every other step
  // moves bytes from in flight to used, or lets go of them.
  lemma OnlyAdmissionRaises(cfg: Config, s: State, step: Step)
    requires Enabled(cfg, s, step) && Honest(s, step) && !step.Admit?
    requires Touched(s, step) < |s.storages| ==> StorageOk(s, Touched(s, step))
    requires ByCloser(step) ==> CloserOk(s, step.c)
    requires WithinDeclared(s.storages)
    ensures var s' := Apply(cfg, s, step);
      var i := Touched(s, step);
      s'.diskBytes + WeightAt(InFlightBytes, s'.storages, i) <= s.diskBytes + WeightAt(InFlightBytes, s.storages, i)
  {}

  // When the check lets a creation in, the others in flight are at most k - 1.
  lemma AdmissionKeepsCap(cfg: Config, s: State, step: Step, k: nat, limit: nat)
    requires k >= 1 && step.Admit? && Enabled(cfg, s, step)
    requires Crowd(s, k, limit) && Crowd(Apply(cfg, s, step), k, limit)
    ensures Capped(cfg, Apply(cfg, s, step), k, limit)
  {
    var st := NewStorage(Disk, step.streamed, step.declared);
    TotalAppend(InFlight, s.storages, st);
    TotalAppend(InFlightBytes, s.storages, st);
    InFlightAtMost(s.storages, limit);
    Scale(Total(InFlight, s.storages), k - 1, limit);
  }

  lemma Scale(n: nat, m: nat, limit: nat)
    requires n <= m
    ensures n * limit <= m * limit
  {}

  lemma StepKeepsCap(cfg: Config, s: State, step: Step, k: nat, limit: nat)
    requires k >= 1 && Inv(s) && Enabled(cfg, s, step) && Honest(s, step)
    requires Crowd(s, k, limit) && Crowd(Apply(cfg, s, step), k, limit)
    requires WithinDeclared(s.storages) && Capped(cfg, s, k, limit)
    ensures Capped(cfg, Apply(cfg, s, step), k, limit)
  {
    if step.Admit? {
      AdmissionKeepsCap(cfg, s, step, k, limit);
    } else {
      StepTotal(cfg, s, step, InFlightBytes);
      Local(cfg, s, step);
      OnlyAdmissionRaises(cfg, s, step);
    }
  }

  lemma StepKeepsWithinDeclared(cfg: Config, s: State, step: Step)
    requires Enabled(cfg, s, step) && Honest(s, step) && WithinDeclared(s.storages)
    ensures WithinDeclared(Apply(cfg, s, step).storages)
  {}

  lemma {:induction false} RunKeepsCap(cfg: Config, s: State, steps: seq<Step>, k: nat, limit: nat)
    requires k >= 1 && Inv(s) && WithinDeclared(s.storages) && Capped(cfg, s, k, limit)
    requires Legal(cfg, s, steps) && Bounded(cfg, s, steps, k, limit)
    ensures Capped(cfg, After(cfg, s, steps), k, limit)
    decreases |steps|
  {
    if steps != [] {
      StepKeepsCap(cfg, s, steps[0], k, limit);
      StepKeepsWithinDeclared(cfg, s, steps[0]);
      StepKeepsInv(cfg, s, steps[0]);
      RunKeepsCap(cfg, Apply(cfg, s, steps[0]), steps[1..], k, limit);
    }
  }

  // With at most k creations between check and increment, disk usage together with what is
  // still in flight exceeds the configured maximum by at most k - 1 declared sizes.
  lemma DiskUsageIsBounded(cfg: Config, steps: seq<Step>, k: nat, limit: nat)
    requires k >= 1 && cfg.cap >= 0
    requires Legal(cfg, EMPTY, steps) && Bounded(cfg, EMPTY, steps, k, limit)
    ensures var s := After(cfg, EMPTY, steps);
      s.diskBytes + Total(InFlightBytes, s.storages) <= cfg.cap + (k - 1) * limit
  {
    assert (k - 1) * limit >= 0;
    RunKeepsCap(cfg, EMPTY, steps, k, limit);
  }

  // One creation at a time never exceeds the configured maximum.
  lemma SoleCreatorRespectsCap(cfg: Config, steps: seq<Step>, limit: nat)
    requires cfg.cap >= 0
    requires Legal(cfg, EMPTY, steps) && Bounded(cfg, EMPTY, steps, 1, limit)
    ensures After(cfg, EMPTY, steps).diskBytes <= cfg.cap
  {
    DiskUsageIsBounded(cfg, steps, 1, limit);
  }
}
