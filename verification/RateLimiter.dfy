/** The in-memory rate limiter: one bounded queue of accepted times per key, and a
    background sweep that drops queues nobody used for a while. The claim is that queue and
    sweep together decide exactly as a full log with a sliding-window count would. */
module RateLimiter {

  // What the callers of Request fix for a key: the limit and the window in seconds.
  datatype Rule = Rule(limit: nat, duration: int)

  type Store = map<string, seq<int>>

  function Max(a: int, b: int): int {
    if a < b then b else a
  }

  // The limit that is really enforced: the first request of a key is accepted unseen.
  function Effective(rule: Rule): nat {
    Max(rule.limit, 1)
  }

  predicate NoEmptyQueue(store: Store) {
    forall k :: k in store ==> store[k] != []
  }

  // Answer to one request, and the store it leaves behind.
  function Serve(store: Store, key: string, rule: Rule, now: int): (Store, bool)
    requires NoEmptyQueue(store)
  {
    if key !in store then (store[key := [now]], true)
    else if |store[key]| < rule.limit then (store[key := store[key] + [now]], true)
    else if now - store[key][0] >= rule.duration then (store[key := store[key][1..] + [now]], true)
    else (store, false)
  }

  predicate Stale(queue: seq<int>, expiration: int, now: int) {
    |queue| == 0 || now - queue[|queue| - 1] > expiration
  }

  function Swept(store: Store, expiration: int, now: int): Store {
    map k | k in store && !Stale(store[k], expiration, now) :: store[k]
  }

  class InMemoryRateLimiter {
    var store: Store
    const expiration: int

    constructor (expiration: int)
      ensures store == map[] && this.expiration == expiration
    {
      store := map[];
      this.expiration := expiration;
    }

    method Request(key: string, maxRequestNum: nat, duration: int, now: int) returns (ok: bool)
      requires NoEmptyQueue(store)
      modifies this`store
      ensures (store, ok) == Serve(old(store), key, Rule(maxRequestNum, duration), now)
      ensures NoEmptyQueue(store)
    {
      if key in store {
        var queue := store[key];
        if |queue| < maxRequestNum {
          store := store[key := queue + [now]];
          return true;
        } else if now - queue[0] >= duration {
          queue := queue[1..];
          store := store[key := queue + [now]];
          return true;
        } else {
          return false;
        }
      } else {
        var queue: seq<int> := [];
        queue := queue + [now];
        store := store[key := queue];
        assert queue == [now];
      }
      return true;
    }

    method ClearExpiredItems(now: int)
      requires NoEmptyQueue(store)
      modifies this`store
      ensures store == Swept(old(store), expiration, now)
      ensures NoEmptyQueue(store)
    {
      ghost var was := store;
      var todo := store.Keys;
      while todo != {}
        invariant todo <= was.Keys
        invariant store.Keys <= was.Keys
        invariant forall k :: k in store ==> store[k] == was[k]
        invariant forall k :: k in todo ==> k in store
        invariant forall k :: k in was && k !in todo ==> (k in store <==> !Stale(was[k], expiration, now))
        decreases |todo|
      {
        var key :| key in todo;
        if Stale(store[key], expiration, now) {
          store := store - {key};
        }
        todo := todo - {key};
      }
    }
  }

  // ---------- runs ----------

  datatype Event = Request(key: string, now: int) | Sweep(now: int)

  predicate Monotone(events: seq<Event>) {
    forall i, j :: 0 <= i < j < |events| ==> events[i].now <= events[j].now
  }

  // What one event does; a sweep gives no answer, which counts as false.
  function Handle(rules: string -> Rule, expiration: int, store: Store, event: Event): (r: (Store, bool))
    requires NoEmptyQueue(store)
    ensures NoEmptyQueue(r.0)
  {
    match event
    case Request(key, now) => Serve(store, key, rules(key), now)
    case Sweep(now) => (Swept(store, expiration, now), false)
  }

  // The store after a run and the verdict of each event.
  function Run(rules: string -> Rule, expiration: int, events: seq<Event>): (r: (Store, seq<bool>))
    ensures NoEmptyQueue(r.0) && |r.1| == |events|
  {
    if events == [] then (map[], [])
    else
      var (store, verdicts) := Run(rules, expiration, events[..|events| - 1]);
      var (store', ok) := Handle(rules, expiration, store, events[|events| - 1]);
      (store', verdicts + [ok])
  }

  // The full log of a key: the times of all its accepted requests, in order.
  function Accepted(key: string, events: seq<Event>, verdicts: seq<bool>): seq<int>
    requires |events| == |verdicts|
  {
    if events == [] then []
    else
      var n := |events| - 1;
      Extended(Accepted(key, events[..n], verdicts[..n]), key, events[n], verdicts[n])
  }

  function Extended(log: seq<int>, key: string, event: Event, verdict: bool): seq<int> {
    if event.Request? && event.key == key && verdict then log + [event.now] else log
  }

  function Log(rules: string -> Rule, expiration: int, events: seq<Event>, key: string): seq<int> {
    Accepted(key, events, Run(rules, expiration, events).1)
  }

  // How many of the logged times lie less than duration seconds before now.
  function Recent(log: seq<int>, now: int, duration: int): (count: nat)
    ensures count <= |log|
  {
    if log == [] then 0
    else Recent(log[..|log| - 1], now, duration) + if now - log[|log| - 1] < duration then 1 else 0
  }

  predicate Sorted(log: seq<int>) {
    forall i, j :: 0 <= i < j < |log| ==> log[i] <= log[j]
  }

  lemma {:induction false} NoneRecent(log: seq<int>, now: int, duration: int)
    requires forall i :: 0 <= i < |log| ==> now - log[i] >= duration
    ensures Recent(log, now, duration) == 0
  {
    if log != [] {
      NoneRecent(log[..|log| - 1], now, duration);
    }
  }

  // In a sorted log the recent times are the last ones.
  lemma {:induction false} RecentFrom(log: seq<int>, now: int, duration: int, n: nat)
    requires Sorted(log) && n < |log|
    ensures now - log[n] < duration ==> Recent(log, now, duration) >= |log| - n
    ensures now - log[n] >= duration ==> Recent(log, now, duration) <= |log| - n - 1
  {
    var init := log[..|log| - 1];
    if n == |log| - 1 {
      if now - log[n] >= duration {
        NoneRecent(log, now, duration);
      }
    } else {
      assert Sorted(init);
      RecentFrom(init, now, duration, n);
    }
  }

  // The queue is a tail of the full log, no longer than the limit; when it is shorter, what
  // it lacks is out of the window. A key without a queue has nothing in its window.
  predicate TailOf(queue: seq<int>, rule: Rule, log: seq<int>, clock: int) {
    && 1 <= |queue| <= |log| && |queue| <= Effective(rule)
    && queue == log[|log| - |queue|..]
    && (|queue| < Effective(rule) ==> OutOfWindow(log[..|log| - |queue|], rule, clock))
  }

  predicate OutOfWindow(log: seq<int>, rule: Rule, clock: int) {
    forall i :: 0 <= i < |log| ==> clock - log[i] >= rule.duration
  }

  predicate Agrees(store: Store, key: string, rule: Rule, log: seq<int>, clock: int) {
    && Sorted(log)
    && (forall i :: 0 <= i < |log| ==> log[i] <= clock)
    && if key in store then TailOf(store[key], rule, log, clock) else OutOfWindow(log, rule, clock)
  }

  // Queue and log give the same answer.
  lemma SameVerdict(store: Store, key: string, rule: Rule, log: seq<int>, clock: int, now: int)
    requires NoEmptyQueue(store) && Agrees(store, key, rule, log, clock) && clock <= now
    ensures Serve(store, key, rule, now).1 == (Recent(log, now, rule.duration) < Effective(rule))
  {
    if key !in store {
      NoneRecent(log, now, rule.duration);
    } else {
      var m := |log| - |store[key]|;
      assert store[key][0] == log[m];
      RecentFrom(log, now, rule.duration, m);
      if m > 0 && |store[key]| < Effective(rule) {
        assert log[m - 1] == log[..m][m - 1];
        RecentFrom(log, now, rule.duration, m - 1);
      }
    }
  }

  lemma TailStarts(rule: Rule, log: seq<int>, clock: int, now: int)
    requires OutOfWindow(log, rule, clock) && clock <= now
    ensures TailOf([now], rule, log + [now], now)
  {
    assert (log + [now])[..|log|] == log;
  }

  lemma TailGrows(queue: seq<int>, rule: Rule, log: seq<int>, clock: int, now: int)
    requires TailOf(queue, rule, log, clock) && |queue| < rule.limit && clock <= now
    ensures TailOf(queue + [now], rule, log + [now], now)
  {
    var m := |log| - |queue|;
    assert (log + [now])[..m] == log[..m];
  }

  lemma TailShifts(queue: seq<int>, rule: Rule, log: seq<int>, clock: int, now: int)
    requires TailOf(queue, rule, log, clock) && |queue| >= rule.limit && clock <= now
    ensures TailOf(queue[1..] + [now], rule, log + [now], now)
  {}

  // They agree again afterwards.
  lemma ServeAgrees(store: Store, key: string, rule: Rule, log: seq<int>, clock: int, now: int)
    requires NoEmptyQueue(store) && Agrees(store, key, rule, log, clock) && clock <= now
    ensures var (store', ok) := Serve(store, key, rule, now);
      Agrees(store', key, rule, if ok then log + [now] else log, now)
  {
    if key !in store {
      TailStarts(rule, log, clock, now);
    } else if |store[key]| < rule.limit {
      TailGrows(store[key], rule, log, clock, now);
    } else if now - store[key][0] >= rule.duration {
      TailShifts(store[key], rule, log, clock, now);
    }
  }

  lemma SweepAgrees(store: Store, expiration: int, key: string, rule: Rule, log: seq<int>, clock: int, now: int)
    requires NoEmptyQueue(store) && Agrees(store, key, rule, log, clock) && clock <= now
    requires rule.duration <= expiration + 1
    ensures Agrees(Swept(store, expiration, now), key, rule, log, now)
  {
    if key in store && Stale(store[key], expiration, now) {
      assert store[key][|store[key]| - 1] == log[|log| - 1];
    }
  }

  lemma HandleAgrees(rules: string -> Rule, expiration: int, store: Store, event: Event, key: string, log: seq<int>, clock: int)
    requires NoEmptyQueue(store) && Agrees(store, key, rules(key), log, clock) && clock <= event.now
    requires rules(key).duration <= expiration + 1
    ensures var (store', ok) := Handle(rules, expiration, store, event);
      Agrees(store', key, rules(key), Extended(log, key, event, ok), event.now)
  {
    if event.Sweep? {
      SweepAgrees(store, expiration, key, rules(key), log, clock, event.now);
    } else if event.key == key {
      ServeAgrees(store, key, rules(key), log, clock, event.now);
    }
  }

  function Clock(events: seq<Event>): int {
    if events == [] then 0 else events[|events| - 1].now
  }

  // A run extended by one event.
  lemma RunSnoc(rules: string -> Rule, expiration: int, events: seq<Event>, event: Event, key: string)
    ensures var (store, verdicts) := Run(rules, expiration, events);
      var (store', ok) := Handle(rules, expiration, store, event);
      && Run(rules, expiration, events + [event]) == (store', verdicts + [ok])
      && Log(rules, expiration, events + [event], key) == Extended(Log(rules, expiration, events, key), key, event, ok)
  {
    var longer := events + [event];
    assert longer[..|events|] == events;
    assert Run(rules, expiration, longer).1[..|events|] == Run(rules, expiration, events).1;
  }

  lemma {:induction false} RunAgrees(rules: string -> Rule, expiration: int, events: seq<Event>, key: string)
    requires Monotone(events) && rules(key).duration <= expiration + 1
    ensures events != [] ==> Agrees(Run(rules, expiration, events).0, key, rules(key), Log(rules, expiration, events, key), Clock(events))
    ensures events == [] ==> Log(rules, expiration, events, key) == []
  {
    if events != [] {
      var n := |events| - 1;
      var before, event := events[..n], events[n];
      RunAgrees(rules, expiration, before, key);
      var clock := if n == 0 then event.now else Clock(before);
      HandleAgrees(rules, expiration, Run(rules, expiration, before).0, event, key, Log(rules, expiration, before, key), clock);
      RunSnoc(rules, expiration, before, event, key);
      assert before + [event] == events;
    }
  }

  // What a sliding window over the full log would answer to the last event.
  predicate SlidingWindow(rules: string -> Rule, expiration: int, events: seq<Event>) {
    events != [] && events[|events| - 1].Request? ==>
      var n := |events| - 1;
      var key := events[n].key;
      Run(rules, expiration, events).1[n]
        == (Recent(Log(rules, expiration, events[..n], key), events[n].now, rules(key).duration) < Effective(rules(key)))
  }

  // A request is accepted exactly when fewer than the limit of the earlier accepted requests
  // of its key lie within the last duration seconds, wherever sweeps fall in between.
  lemma VerdictIsSlidingWindow(rules: string -> Rule, expiration: int, events: seq<Event>)
    requires Monotone(events)
    requires forall k :: rules(k).duration <= expiration + 1
    ensures SlidingWindow(rules, expiration, events)
  {
    if events != [] && events[|events| - 1].Request? {
      var n := |events| - 1;
      var key := events[n].key;
      var before := events[..n];
      RunAgrees(rules, expiration, before, key);
      var clock := if n == 0 then events[n].now else Clock(before);
      SameVerdict(Run(rules, expiration, before).0, key, rules(key), Log(rules, expiration, before, key), clock, events[n].now);
    }
  }

  // Among the accepted requests of a key, any limit + 1 in a row span at least the window:
  // no window ever holds more than the limit.
  lemma {:induction false} RateIsBounded(rules: string -> Rule, expiration: int, events: seq<Event>, key: string, i: nat)
    requires Monotone(events) && rules(key).duration <= expiration + 1
    requires i + Effective(rules(key)) < |Log(rules, expiration, events, key)|
    ensures var log := Log(rules, expiration, events, key);
      log[i + Effective(rules(key))] - log[i] >= rules(key).duration
  {
    if events != [] {
      var n := |events| - 1;
      var before := events[..n];
      var limit := Effective(rules(key));
      var log := Log(rules, expiration, before, key);
      assert Run(rules, expiration, events).1[..n] == Run(rules, expiration, before).1;
      if i + limit < |log| {
        RateIsBounded(rules, expiration, before, key, i);
      } else {
        RunAgrees(rules, expiration, before, key);
        SameVerdict(Run(rules, expiration, before).0, key, rules(key), log, Clock(before), events[n].now);
        RecentFrom(log, events[n].now, rules(key).duration, i);
      }
    }
  }

  // ---------- sweeps are invisible ----------

  function WithoutSweeps(events: seq<Event>): seq<Event> {
    if events == [] then []
    else
      var rest := WithoutSweeps(events[..|events| - 1]);
      if events[|events| - 1].Sweep? then rest else rest + [events[|events| - 1]]
  }

  // The verdicts of the requests alone, in order.
  function Answers(events: seq<Event>, verdicts: seq<bool>): seq<bool>
    requires |events| == |verdicts|
  {
    if events == [] then []
    else
      var n := |events| - 1;
      var rest := Answers(events[..n], verdicts[..n]);
      if events[n].Sweep? then rest else rest + [verdicts[n]]
  }

  lemma {:induction false} WithoutSweepsMonotone(events: seq<Event>)
    requires Monotone(events)
    ensures Monotone(WithoutSweeps(events))
    ensures WithoutSweeps(events) != [] ==> Clock(WithoutSweeps(events)) <= Clock(events)
  {
    if events != [] {
      var before := events[..|events| - 1];
      WithoutSweepsMonotone(before);
      var ws := WithoutSweeps(before);
      if ws != [] && events[|events| - 1].Request? {
        forall i | 0 <= i < |ws| ensures ws[i].now <= events[|events| - 1].now {
          assert i < |ws| - 1 ==> ws[i].now <= ws[|ws| - 1].now;
        }
      }
    }
  }

  // The requests among the events, all of them and in order, and the places they come from.
  ghost predicate RequestsAt(events: seq<Event>, requests: seq<Event>, at: seq<int>) {
    && |at| == |requests|
    && (forall a, b :: 0 <= a < b < |at| ==> at[a] < at[b])
    && (forall j :: 0 <= j < |at| ==> 0 <= at[j] < |events| && events[at[j]] == requests[j])
    && (forall j :: 0 <= j < |at| ==> requests[j].Request?)
    && (forall i :: 0 <= i < |events| && events[i].Request? ==> i in at)
  }

  lemma OneMoreRequest(events: seq<Event>, requests: seq<Event>, at: seq<int>, e: Event)
    requires RequestsAt(events, requests, at)
    ensures e.Request? ==> RequestsAt(events + [e], requests + [e], at + [|events|])
    ensures !e.Request? ==> RequestsAt(events + [e], requests, at)
  {}

  lemma {:induction false} WithoutSweepsLaw(events: seq<Event>) returns (at: seq<int>)
    ensures RequestsAt(events, WithoutSweeps(events), at)
  {
    if events == [] {
      at := [];
    } else {
      var n := |events| - 1;
      at := WithoutSweepsLaw(events[..n]);
      OneMoreRequest(events[..n], WithoutSweeps(events[..n]), at, events[n]);
      assert events == events[..n] + [events[n]];
      if events[n].Request? {
        at := at + [n];
      }
    }
  }

  // The accepted requests of a key among the events, by their times, and the places they come from.
  ghost predicate AcceptedAt(key: string, events: seq<Event>, verdicts: seq<bool>, log: seq<int>, at: seq<int>)
    requires |events| == |verdicts|
  {
    && |at| == |log|
    && (forall a, b :: 0 <= a < b < |at| ==> at[a] < at[b])
    && (forall j :: 0 <= j < |at| ==> 0 <= at[j] < |events| && events[at[j]] == Request(key, log[j]) && verdicts[at[j]])
    && (forall i :: 0 <= i < |events| && events[i].Request? && events[i].key == key && verdicts[i] ==> i in at)
  }

  lemma OneMoreAccepted(key: string, events: seq<Event>, verdicts: seq<bool>, log: seq<int>, at: seq<int>, e: Event, ok: bool)
    requires |events| == |verdicts| && AcceptedAt(key, events, verdicts, log, at)
    ensures var counts := e.Request? && e.key == key && ok;
      && (counts ==> AcceptedAt(key, events + [e], verdicts + [ok], log + [e.now], at + [|events|]))
      && (!counts ==> AcceptedAt(key, events + [e], verdicts + [ok], log, at))
  {}

  // The log of a key: the times of its accepted requests, all of them and in order.
  lemma {:induction false} LogLaw(key: string, events: seq<Event>, verdicts: seq<bool>) returns (at: seq<int>)
    requires |events| == |verdicts|
    ensures AcceptedAt(key, events, verdicts, Accepted(key, events, verdicts), at)
  {
    if events == [] {
      at := [];
    } else {
      var n := |events| - 1;
      at := LogLaw(key, events[..n], verdicts[..n]);
      OneMoreAccepted(key, events[..n], verdicts[..n], Accepted(key, events[..n], verdicts[..n]), at, events[n], verdicts[n]);
      assert events == events[..n] + [events[n]] && verdicts == verdicts[..n] + [verdicts[n]];
      if events[n].Request? && events[n].key == key && verdicts[n] {
        at := at + [n];
      }
    }
  }

  // Removing every sweep from a run changes neither an answer nor a log.
  lemma {:induction false} SweepsAreInvisible(rules: string -> Rule, expiration: int, events: seq<Event>, key: string)
    requires Monotone(events)
    requires forall k :: rules(k).duration <= expiration + 1
    ensures var bare := WithoutSweeps(events);
      && Answers(events, Run(rules, expiration, events).1) == Answers(bare, Run(rules, expiration, bare).1)
      && Log(rules, expiration, events, key) == Log(rules, expiration, bare, key)
  {
    if events != [] {
      var n := |events| - 1;
      var before := events[..n];
      var bare := WithoutSweeps(events);
      SweepsAreInvisible(rules, expiration, before, key);
      assert Run(rules, expiration, events).1[..n] == Run(rules, expiration, before).1;
      if events[n].Request? {
        SweepsAreInvisible(rules, expiration, before, events[n].key);
        VerdictIsSlidingWindow(rules, expiration, events);
        WithoutSweepsMonotone(events);
        VerdictIsSlidingWindow(rules, expiration, bare);
        var m := |bare| - 1;
        assert bare[..m] == WithoutSweeps(before);
        assert Run(rules, expiration, bare).1[..m] == Run(rules, expiration, bare[..m]).1;
      }
    }
  }

  // ---------- the condition on the expiration is exact ----------

  function Burst(key: string, n: nat): (events: seq<Event>)
    ensures |events| == n && forall i :: 0 <= i < n ==> events[i] == Request(key, 0)
  {
    if n == 0 then [] else Burst(key, n - 1) + [Request(key, 0)]
  }

  function Zeros(n: nat): (zeros: seq<int>)
    ensures |zeros| == n && forall i :: 0 <= i < n ==> zeros[i] == 0
  {
    if n == 0 then [] else Zeros(n - 1) + [0]
  }

  lemma {:induction false} BurstFillsQueue(rules: string -> Rule, expiration: int, key: string, n: nat)
    requires n <= Effective(rules(key))
    ensures Run(rules, expiration, Burst(key, n)).0 == if n == 0 then map[] else map[key := Zeros(n)]
    ensures Log(rules, expiration, Burst(key, n), key) == Zeros(n)
  {
    if n > 0 {
      BurstFillsQueue(rules, expiration, key, n - 1);
      BurstStep(rules, expiration, key, Burst(key, n - 1), Zeros(n - 1));
    }
  }

  lemma BurstStep(rules: string -> Rule, expiration: int, key: string, events: seq<Event>, queue: seq<int>)
    requires |queue| < Effective(rules(key))
    requires Run(rules, expiration, events).0 == if queue == [] then map[] else map[key := queue]
    requires Log(rules, expiration, events, key) == queue
    ensures Run(rules, expiration, events + [Request(key, 0)]).0 == map[key := queue + [0]]
    ensures Log(rules, expiration, events + [Request(key, 0)], key) == queue + [0]
  {
    RunSnoc(rules, expiration, events, Request(key, 0), key);
    assert queue == [] ==> queue + [0] == [0];
  }

  lemma SweepForgetsBurst(rules: string -> Rule, expiration: nat, key: string)
    ensures var swept := Burst(key, Effective(rules(key))) + [Sweep(expiration + 1)];
      && key !in Run(rules, expiration, swept).0
      && Log(rules, expiration, swept, key) == Zeros(Effective(rules(key)))
  {
    var limit := Effective(rules(key));
    BurstFillsQueue(rules, expiration, key, limit);
    RunSnoc(rules, expiration, Burst(key, limit), Sweep(expiration + 1), key);
  }

  function LateRun(key: string, limit: nat, expiration: nat): seq<Event> {
    Burst(key, limit) + [Sweep(expiration + 1)] + [Request(key, expiration + 1)]
  }

  lemma LateRunMonotone(key: string, limit: nat, expiration: nat)
    ensures Monotone(LateRun(key, limit, expiration))
  {}

  // With a window longer than the expiration plus one second, a burst, a sweep and one more
  // request are accepted although the window is full.
  lemma LateSweepBreaksWindow(rules: string -> Rule, expiration: nat, key: string)
    requires rules(key).duration > expiration + 1
    ensures var events := LateRun(key, Effective(rules(key)), expiration);
      Monotone(events) && !SlidingWindow(rules, expiration, events)
  {
    var limit := Effective(rules(key));
    LateRunMonotone(key, limit, expiration);
    SweepForgetsBurst(rules, expiration, key);
    RecentFrom(Zeros(limit), expiration + 1, rules(key).duration, 0);
    ForgottenKeyIsAccepted(rules, expiration, Burst(key, limit) + [Sweep(expiration + 1)], key, expiration + 1);
  }

  lemma ForgottenKeyIsAccepted(rules: string -> Rule, expiration: int, events: seq<Event>, key: string, now: int)
    requires key !in Run(rules, expiration, events).0
    requires Recent(Log(rules, expiration, events, key), now, rules(key).duration) >= Effective(rules(key))
    ensures !SlidingWindow(rules, expiration, events + [Request(key, now)])
  {
    RunSnoc(rules, expiration, events, Request(key, now), key);
    assert (events + [Request(key, now)])[..|events|] == events;
  }

  // The limiter is a sliding window on every run exactly when no window is longer than the
  // expiration plus one second.
  lemma SlidingWindowExactly(rules: string -> Rule, expiration: nat)
    ensures (forall k :: rules(k).duration <= expiration + 1)
      <==> (forall events :: Monotone(events) ==> SlidingWindow(rules, expiration, events))
  {
    if forall k :: rules(k).duration <= expiration + 1 {
      forall events | Monotone(events) ensures SlidingWindow(rules, expiration, events) {
        VerdictIsSlidingWindow(rules, expiration, events);
      }
    } else {
      var key :| rules(key).duration > expiration + 1;
      LateSweepBreaksWindow(rules, expiration, key);
    }
  }
}
