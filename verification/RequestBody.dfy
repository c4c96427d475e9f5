/** The objects behind one request: the shared counters, the storages and the context. */
module RequestBody {
  import opened Wrappers
  import opened BodyLifecycle
  import BodyAccounting

  class Counters {
    var files: int
    var diskBytes: int
    var buffers: int
    var memoryBytes: int

    function Value(): Usage
      reads this
    {
      Usage(files, diskBytes, buffers, memoryBytes)
    }

    method Increment(onDisk: bool, size: nat)
      modifies this
      ensures Value() == Charged(old(Value()), onDisk, size)
    {
      if onDisk {
        files := files + 1;
        diskBytes := diskBytes + size;
      } else {
        buffers := buffers + 1;
        memoryBytes := memoryBytes + size;
      }
    }

    method Decrement(onDisk: bool, size: nat)
      modifies this
      ensures Value() == Released(old(Value()), onDisk, size)
    {
      if onDisk {
        files := files - 1;
        if files < 0 {
          files := 0;
        }
        diskBytes := diskBytes - size;
        if diskBytes < 0 {
          diskBytes := 0;
        }
      } else {
        buffers := buffers - 1;
        memoryBytes := memoryBytes - size;
      }
    }
  }

  // A body in memory or in a temporary file, with a reading position.
  class BodyStorage {
    const onDisk: bool
    const data: Bytes
    var pos: nat
    var closed: bool

    constructor (onDisk: bool, data: Bytes)
      ensures this.onDisk == onDisk && this.data == data && pos == 0 && !closed
    {
      this.onDisk, this.data, pos, closed := onDisk, data, 0, false;
    }

    function AsBody(): Body
      reads this
    {
      Body(onDisk, data, pos)
    }

    // Closing again does nothing.
    method Close(counters: Counters)
      modifies this, counters
      ensures closed && pos == old(pos)
      ensures counters.Value() == if old(closed) then old(counters.Value()) else Released(old(counters.Value()), onDisk, |data|)
    {
      if !closed {
        closed := true;
        counters.Decrement(onDisk, |data|);
      }
    }

    method Rewind() returns (ok: bool)
      modifies this
      ensures ok == !old(closed) && closed == old(closed)
      ensures pos == if ok then 0 else old(pos)
    {
      ok := !closed;
      if ok {
        pos := 0;
      }
    }

    method Read(n: nat) returns (chunk: Option<Bytes>)
      requires pos <= |data|
      modifies this
      ensures closed == old(closed) && old(pos) <= pos <= |data|
      ensures chunk.None? <==> old(closed)
      ensures chunk.Some? ==> pos == Min(old(pos) + n, |data|) && chunk.value == data[old(pos)..pos]
      ensures chunk.None? ==> pos == old(pos)
    {
      if closed {
        return None;
      }
      var end := Min(pos + n, |data|);
      chunk := Some(data[pos..end]);
      pos := end;
    }

    // All bytes. A file is read from its start and its position is put back.
    method All() returns (all: Option<Bytes>)
      requires pos <= |data|
      modifies this
      ensures closed == old(closed) && pos == old(pos)
      ensures all == if closed then None else Some(data)
    {
      if closed {
        return None;
      }
      if !onDisk {
        return Some(data);
      }
      var current := pos;
      pos := 0;
      all := Read(|data|);
      assert data[0..|data|] == data;
      pos := current;
    }
  }

  method CreateBodyStorage(cfg: BodyAccounting.Config, counters: Counters, bytes: Bytes, diskFails: bool) returns (s: BodyStorage)
    modifies counters
    ensures fresh(s) && !s.closed
    ensures s.AsBody() == Create(cfg, old(counters.Value()), bytes, diskFails)
    ensures counters.Value() == Charged(old(counters.Value()), s.onDisk, |s.data|)
  {
    if cfg.enabled && |bytes| >= cfg.threshold && counters.diskBytes + |bytes| <= cfg.cap {
      if !diskFails {
        counters.Increment(true, |bytes|);
        s := new BodyStorage(true, bytes);
        return;
      }
    }
    counters.Increment(false, |bytes|);
    s := new BodyStorage(false, bytes);
  }

  // At most one byte more than allowed is read.
  function Limited(content: Bytes, maxBytes: nat): Bytes {
    content[..Min(|content|, maxBytes + 1)]
  }

  method CreateFromReader(cfg: BodyAccounting.Config, counters: Counters, content: Bytes, failure: Option<Error>, contentLength: int,
                          maxBytes: nat, diskFails: bool)
    returns (s: BodyStorage?, r: Result<Body, Error>)
    modifies counters
    ensures r == FromReader(cfg, old(counters.Value()), content, failure, contentLength, maxBytes, diskFails)
    ensures r.Ok? ==> s != null && fresh(s) && !s.closed && s.AsBody() == r.value
    ensures r.Ok? ==> counters.Value() == Charged(old(counters.Value()), s.onDisk, |s.data|)
    ensures r.Err? ==> s == null && counters.Value() == old(counters.Value())
  {
    var data := Limited(content, maxBytes);
    s := null;
    if cfg.enabled && contentLength > 0 && contentLength >= cfg.threshold && counters.diskBytes + contentLength <= cfg.cap {
      if diskFails {
        return null, Err(DiskFailed);
      }
      if |data| > maxBytes {
        return null, Err(TooLarge);
      }
      if failure.Some? {
        return null, Err(failure.value);
      }
      assert data == content;
      counters.Increment(true, |data|);
      s := new BodyStorage(true, data);
      return s, Ok(s.AsBody());
    }
    if |data| > maxBytes {
      return null, Err(TooLarge);
    }
    if failure.Some? {
      return null, Err(failure.value);
    }
    assert data == content;
    var made := CreateBodyStorage(cfg, counters, data, diskFails);
    return made, Ok(made.AsBody());
  }

  class RequestContext {
    var storage: BodyStorage?
    var cached: Option<Bytes>
    var reader: Reader
    var contentLength: int
    const counters: Counters
    ghost var made: set<BodyStorage>

    constructor (cached: Option<Bytes>, content: Bytes, broken: bool, wrapped: bool, contentLength: int, counters: Counters)
      ensures Valid() && made == {} && this.counters == counters
      ensures Snapshot() == View(None, cached, Unread(content, broken, wrapped), contentLength, counters.Value())
    {
      storage, this.cached, reader, this.contentLength := null, cached, Unread(content, broken, wrapped), contentLength;
      this.counters, made := counters, {};
    }

    // Of all storages made for the request only the one in the context is open.
    ghost predicate Valid()
      reads this, made
    {
      && (storage != null ==> storage in made)
      && (forall s :: s in made ==> s.pos <= |s.data| && (!s.closed <==> s == storage))
      && (reader.Replaced? ==> cached.Some?)
    }

    ghost function Snapshot(): View
      reads this, storage, counters
    {
      View(if storage == null then None else Some(storage.AsBody()), cached, reader, contentLength, counters.Value())
    }

    method GetRequestBody(env: Env) returns (body: BodyStorage?, error: Option<Error>)
      requires Valid()
      modifies this, made, counters
      ensures Valid() && fresh(made - old(made)) && old(made) <= made
      ensures (Snapshot(), error) == Get(old(Snapshot()), env)
      ensures body == (if error.None? then storage else null) && (error.None? ==> body != null)
    {
      if storage != null {
        var ok := storage.Rewind();
        return storage, None;
      }
      if cached.Some? {
        var s := CreateBodyStorage(env.cfg, counters, cached.value, env.diskFails);
        storage, made := s, made + {s};
        return s, None;
      }
      var maxMB := if env.maxMB <= 0 then DEFAULT_MAX_MB else env.maxMB;
      var (content, failure) := Reading(reader, env.maxMB);
      var s, r := CreateFromReader(env.cfg, counters, content, failure, contentLength, maxMB * 0x10_0000, env.diskFails);
      reader := Finished(reader, if r.Err? then Some(r.error) else None);
      if r.Err? {
        return null, Some(r.error);
      }
      storage, made := s, made + {s};
      return s, None;
    }

    method CleanupBodyStorage()
      requires Valid()
      modifies this, made, counters
      ensures Valid() && made == old(made) && storage == null
      ensures Snapshot() == Cleanup(old(Snapshot()))
    {
      if storage != null {
        storage.Close(counters);
        storage := null;
      }
    }

    method ReplaceRequestBody(newBody: Bytes, env: Env)
      requires Valid()
      modifies this, made, counters
      ensures Valid() && fresh(made - old(made)) && old(made) <= made && storage != null
      ensures Snapshot() == Replace(old(Snapshot()), newBody, env)
    {
      if storage != null {
        storage.Close(counters);
        storage := null;
      }
      cached := None;
      var s := CreateBodyStorage(env.cfg, counters, newBody, env.diskFails);
      storage, made := s, made + {s};
      cached := Some(newBody);
      var _ := s.Rewind();
      reader := Replaced;
      contentLength := |newBody|;
    }

    method Perform(op: Op)
      requires Valid()
      modifies this, made, counters
      ensures Valid() && fresh(made - old(made)) && old(made) <= made
      ensures Snapshot() == Step(old(Snapshot()), op)
    {
      match op
      case DoGet(env) =>
        var _, _ := GetRequestBody(env);
      case DoReplace(bytes, env) =>
        ReplaceRequestBody(bytes, env);
      case DoCleanup =>
        CleanupBodyStorage();
      case DoRead(n) =>
        if storage != null {
          var _ := storage.Read(n);
        }
    }

    // Every run on the objects is the run on values, and leaves at most one storage open.
    method PerformAll(ops: seq<Op>)
      requires Valid()
      modifies this, made, counters
      ensures Valid() && fresh(made - old(made))
      ensures Snapshot() == Run(old(Snapshot()), ops)
    {
      ghost var start := Snapshot();
      for n := 0 to |ops|
        invariant Valid() && fresh(made - old(made)) && old(made) <= made
        invariant Snapshot() == Run(start, ops[..n])
      {
        assert ops[..n + 1][..n] == ops[..n];
        Perform(ops[n]);
      }
      assert ops[..|ops|] == ops;
    }
  }
}
