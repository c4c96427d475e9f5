/** A channel may redirect model names; the redirects are followed until a name has no further
    target. The map is administrator input and may contain cycles. */
module ModelMapping {

  type Redirects = map<string, string>

  // A name at which the walk has nowhere to go: no entry, an empty target, or itself.
  predicate Terminal(m: Redirects, name: string) {
    name !in m || m[name] == "" || m[name] == name
  }

  // A list of distinct names, each redirecting to the next.
  predicate IsChain(m: Redirects, path: seq<string>) {
    && path != []
    && (forall i, j :: 0 <= i < j < |path| ==> path[i] != path[j])
    && (forall i :: 0 <= i < |path| - 1 ==> !Terminal(m, path[i]) && path[i + 1] == m[path[i]])
  }

  function Last(path: seq<string>): string
    requires path != []
  {
    path[|path| - 1]
  }

  // The chain cannot be extended: its last name is terminal or leads back into it.
  predicate Stuck(m: Redirects, path: seq<string>)
    requires path != []
  {
    Terminal(m, Last(path)) || m[Last(path)] in path
  }

  ghost function Unvisited(m: Redirects, path: seq<string>): set<string> {
    m.Values - set x | x in path
  }

  // The longest chain that extends the given one.
  function Walk(m: Redirects, path: seq<string>): (whole: seq<string>)
    requires IsChain(m, path)
    ensures IsChain(m, whole) && path <= whole && Stuck(m, whole)
    decreases |Unvisited(m, path)|
  {
    if Stuck(m, path) then path
    else
      Extend(m, path);
      Walk(m, path + [m[Last(path)]])
  }

  lemma Extend(m: Redirects, path: seq<string>)
    requires IsChain(m, path) && !Stuck(m, path)
    ensures var longer := path + [m[Last(path)]];
      IsChain(m, longer) && |Unvisited(m, longer)| < |Unvisited(m, path)|
  {
    var next := m[Last(path)];
    var longer := path + [next];
    var before, after := Unvisited(m, path), Unvisited(m, longer);
    assert next in m.Values && next in before;
    assert after == before - {next};
    forall i | 0 <= i < |longer| - 1 ensures !Terminal(m, longer[i]) && longer[i + 1] == m[longer[i]] {
      if i < |path| - 1 {
        assert longer[i] == path[i] && longer[i + 1] == path[i + 1];
      }
    }
  }

  function Resolve(m: Redirects, start: string): string {
    Last(Walk(m, [start]))
  }

  // The walk as the source performs it, with a set of visited names; it ends on every map.
  method ResolveModel(m: Redirects, start: string) returns (current: string)
    ensures current == Resolve(m, start)
  {
    current := start;
    var visited := {current};
    ghost var path := [current];
    while true
      invariant IsChain(m, path) && Last(path) == current
      invariant forall x :: x in visited <==> x in path
      invariant Walk(m, path) == Walk(m, [start])
      decreases |Unvisited(m, path)|
    {
      if current !in m || m[current] == "" || m[current] == current {
        break;
      }
      var next := m[current];
      if next in visited {
        break;
      }
      Extend(m, path);
      visited := visited + {next};
      current := next;
      path := path + [next];
    }
  }

  // ---------- what the walk arrives at ----------

  // The n-th redirect, staying put at a terminal name.
  function Follow(m: Redirects, name: string, n: nat): string {
    if n == 0 then name
    else
      var before := Follow(m, name, n - 1);
      if Terminal(m, before) then before else m[before]
  }

  // Following redirects from a name ends somewhere.
  ghost predicate Ends(m: Redirects, name: string) {
    exists n: nat :: Terminal(m, Follow(m, name, n))
  }

  lemma {:induction false} ChainIsFollow(m: Redirects, path: seq<string>, n: nat)
    requires IsChain(m, path) && n < |path|
    ensures path[n] == Follow(m, path[0], n)
  {
    if n > 0 {
      ChainIsFollow(m, path, n - 1);
    }
  }

  // From a chain that runs back into itself no redirect leads out.
  lemma {:induction false} CycleIsClosed(m: Redirects, path: seq<string>, n: nat)
    requires IsChain(m, path) && Stuck(m, path) && !Terminal(m, Last(path))
    ensures Follow(m, path[0], n) in path && !Terminal(m, Follow(m, path[0], n))
  {
    if n > 0 {
      CycleIsClosed(m, path, n - 1);
      var i :| 0 <= i < |path| && path[i] == Follow(m, path[0], n - 1);
      if i < |path| - 1 {
        assert path[i + 1] == Follow(m, path[0], n);
      }
      var k :| 0 <= k < |path| && path[k] == Follow(m, path[0], n);
      assert k == |path| - 1 || !Terminal(m, path[k]);
    }
  }

  // On every map the result is reached from the start over distinct names; it is terminal
  // exactly when the redirects from the start end at all.
  lemma ResolveArrives(m: Redirects, start: string)
    ensures exists n: nat :: Resolve(m, start) == Follow(m, start, n)
    ensures Terminal(m, Resolve(m, start)) <==> Ends(m, start)
  {
    var path := Walk(m, [start]);
    assert path[0] == start;
    ChainIsFollow(m, path, |path| - 1);
    if !Terminal(m, Last(path)) {
      forall n: nat ensures !Terminal(m, Follow(m, start, n)) {
        CycleIsClosed(m, path, n);
      }
    }
  }

  // Where the redirects end, they end at the result, however far they are followed.
  lemma {:induction false} ResolveIsTheEnd(m: Redirects, start: string, n: nat)
    requires Terminal(m, Follow(m, start, n))
    ensures Resolve(m, start) == Follow(m, start, n)
  {
    var path := Walk(m, [start]);
    var k := |path| - 1;
    assert path[0] == start;
    ChainIsFollow(m, path, k);
    ResolveArrives(m, start);
    if n < k {
      ChainIsFollow(m, path, n);
    } else {
      StaysPut(m, start, k, n);
    }
  }

  lemma {:induction false} StaysPut(m: Redirects, start: string, k: nat, n: nat)
    requires k <= n && Terminal(m, Follow(m, start, k))
    ensures Follow(m, start, n) == Follow(m, start, k)
  {
    if k < n {
      StaysPut(m, start, k, n - 1);
    }
  }

  // Resolving the result again changes nothing exactly when the redirects end.
  lemma ResolveAgain(m: Redirects, start: string)
    ensures Resolve(m, Resolve(m, start)) == Resolve(m, start) <==> Ends(m, start)
  {
    ResolveArrives(m, start);
    var r := Resolve(m, start);
    if !Terminal(m, r) {
      var path := Walk(m, [r]);
      assert path[0] == r && |path| > 1;
    }
  }

  // The entry of one name leads to another one.
  predicate Entry(m: Redirects, name: string, target: string) {
    name in m && m[name] == target && target != "" && target != name
  }

  // A name without such an entry is where the walk has nowhere to go.
  lemma NoEntryExactly(m: Redirects, name: string)
    ensures (forall target :: !Entry(m, name, target)) <==> Terminal(m, name)
  {
    if !Terminal(m, name) {
      assert Entry(m, name, m[name]);
    }
  }

  // Each name of the path leads to the next.
  predicate Linked(m: Redirects, path: seq<string>) {
    forall i, j :: 0 <= i < |path| && 0 <= j < |path| && j == i + 1 ==> Entry(m, path[i], path[j])
  }

  // The walk told on the entries of the map: a path of different names from the start, each leading
  // to the next, whose last name leads nowhere or back into the path.
  lemma ResolveLaw(m: Redirects, start: string) returns (path: seq<string>)
    ensures path != [] && path[0] == start && path[|path| - 1] == Resolve(m, start)
    ensures (forall i, j :: 0 <= i < j < |path| ==> path[i] != path[j]) && Linked(m, path)
    ensures forall target :: Entry(m, Resolve(m, start), target) ==> target in path
  {
    path := Walk(m, [start]);
    forall i, j | 0 <= i < |path| && 0 <= j < |path| && j == i + 1 ensures Entry(m, path[i], path[j]) {
      assert !Terminal(m, path[i]) && path[i + 1] == m[path[i]];
    }
    NoEntryExactly(m, Resolve(m, start));
  }
}
