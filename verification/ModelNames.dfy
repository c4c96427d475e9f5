/** Lists of model names treated as ordered sets: trimmed, without blanks, without repeats. */
module ModelNames {
  import Text

  // A name as the normalisation leaves it.
  predicate Proper(name: string) {
    name != "" && Text.TrimSpace(name) == name
  }

  predicate Distinct(names: seq<string>) {
    forall i, j :: 0 <= i < j < |names| ==> names[i] != names[j]
  }

  predicate Normal(names: seq<string>) {
    Distinct(names) && forall x :: x in names ==> Proper(x)
  }

  lemma FirstIsMember(names: seq<string>)
    ensures names == [] || names[0] in names
  {}

  function Members(names: seq<string>): set<string> {
    set x | x in names
  }

  // Trims every name and drops the blank ones.
  function Clean(names: seq<string>): seq<string> {
    if names == [] then []
    else
      var t := Text.TrimSpace(names[|names| - 1]);
      Clean(names[..|names| - 1]) + if t != "" then [t] else []
  }

  // Keeps the first occurrence of each name.
  function Uniq(names: seq<string>): seq<string> {
    if names == [] then []
    else
      var r := Uniq(names[..|names| - 1]);
      if names[|names| - 1] in r then r else r + [names[|names| - 1]]
  }

  lemma {:induction false} UniqFacts(names: seq<string>)
    ensures Distinct(Uniq(names))
    ensures forall x :: x in Uniq(names) <==> x in names
  {
    if names != [] {
      var n := |names| - 1;
      UniqFacts(names[..n]);
      assert names == names[..n] + [names[n]];
    }
  }

  function Normalize(names: seq<string>): seq<string> {
    Uniq(Clean(names))
  }

  lemma {:induction false} CleanIsProper(names: seq<string>)
    ensures forall x :: x in Clean(names) ==> Proper(x)
  {
    if names != [] {
      CleanIsProper(names[..|names| - 1]);
      Text.TrimSpaceIdempotent(names[|names| - 1]);
    }
  }

  lemma NormalizeIsNormal(names: seq<string>)
    ensures Normal(Normalize(names))
  {
    CleanIsProper(names);
    UniqFacts(Clean(names));
  }

  // A name survives exactly when some listed text trims to it and it is not blank.
  lemma NormalizeMembers(names: seq<string>, x: string)
    ensures x in Normalize(names) <==> x != "" && exists i :: 0 <= i < |names| && Text.TrimSpace(names[i]) == x
  {
    CleanMembers(names, x);
    UniqFacts(Clean(names));
  }

  lemma {:induction false} CleanMembers(names: seq<string>, x: string)
    ensures x in Clean(names) <==> x != "" && exists i :: 0 <= i < |names| && Text.TrimSpace(names[i]) == x
  {
    if names != [] {
      var n := |names| - 1;
      CleanMembers(names[..n], x);
      if x in Clean(names[..n]) {
        var i :| 0 <= i < n && Text.TrimSpace(names[..n][i]) == x;
        assert names[i] == names[..n][i];
      }
      if x != "" && exists i :: 0 <= i < |names| && Text.TrimSpace(names[i]) == x {
        var i :| 0 <= i < |names| && Text.TrimSpace(names[i]) == x;
        assert i < n ==> names[..n][i] == names[i];
      }
    }
  }

  // Names keep the place of their first occurrence: a longer list only adds at the end.
  lemma {:induction false} NormalizeGrowsAtTheEnd(names: seq<string>, k: nat)
    requires k <= |names|
    ensures Normalize(names[..k]) <= Normalize(names)
    decreases |names|
  {
    if k < |names| {
      var n := |names| - 1;
      NormalizeGrowsAtTheEnd(names[..n], k);
      assert names[..n][..k] == names[..k];
      var c, t := Clean(names[..n]), Text.TrimSpace(names[n]);
      if t != "" {
        assert (c + [t])[..|c|] == c;
      } else {
        assert c + [] == c;
      }
    } else {
      assert names[..k] == names;
    }
  }

  lemma {:induction false} NormalIsFixed(names: seq<string>)
    requires Normal(names)
    ensures Clean(names) == names && Normalize(names) == names
  {
    if names != [] {
      var n := |names| - 1;
      assert Normal(names[..n]) && Proper(names[n]);
      NormalIsFixed(names[..n]);
      assert names[..n] + [names[n]] == names;
      assert names[n] !in names[..n];
    }
  }

  // The members of s, in the order of the list.
  function Keep(names: seq<string>, s: set<string>): seq<string> {
    if names == [] then []
    else Keep(names[..|names| - 1], s) + if names[|names| - 1] in s then [names[|names| - 1]] else []
  }

  lemma KeepSnoc(names: seq<string>, x: string, s: set<string>)
    ensures Keep(names + [x], s) == Keep(names, s) + if x in s then [x] else []
  {
    assert (names + [x])[..|names|] == names;
  }

  lemma {:induction false} KeepMembers(names: seq<string>, s: set<string>)
    ensures forall x :: x in Keep(names, s) <==> x in names && x in s
  {
    if names != [] {
      var n := |names| - 1;
      KeepMembers(names[..n], s);
      assert names == names[..n] + [names[n]];
    }
  }

  lemma {:induction false} KeepDistinct(names: seq<string>, s: set<string>)
    requires Distinct(names)
    ensures Distinct(Keep(names, s))
  {
    if names != [] {
      var n := |names| - 1;
      KeepDistinct(names[..n], s);
      KeepMembers(names[..n], s);
      assert names[n] !in names[..n];
    }
  }

  lemma KeepIsNormal(names: seq<string>, s: set<string>)
    requires Normal(names)
    ensures Normal(Keep(names, s))
    ensures forall x :: x in Keep(names, s) <==> x in names && x in s
  {
    KeepMembers(names, s);
    KeepDistinct(names, s);
  }

  function Drop(names: seq<string>, s: set<string>): seq<string> {
    Keep(names, Members(names) - s)
  }

  lemma {:induction false} KeepConcat(a: seq<string>, b: seq<string>, s: set<string>)
    ensures Keep(a + b, s) == Keep(a, s) + Keep(b, s)
  {
    if b == [] {
      assert a + b == a;
    } else {
      var n := |b| - 1;
      KeepConcat(a, b[..n], s);
      assert a + b == (a + b[..n]) + [b[n]];
      KeepSnoc(a + b[..n], b[n], s);
    }
  }

  // Only the members of the list matter.
  lemma {:induction false} KeepSame(names: seq<string>, s: set<string>, t: set<string>)
    requires forall x :: x in names ==> (x in s <==> x in t)
    ensures Keep(names, s) == Keep(names, t)
  {
    if names != [] {
      KeepSame(names[..|names| - 1], s, t);
    }
  }

  lemma {:induction false} KeepAll(names: seq<string>, s: set<string>)
    requires forall x :: x in names ==> x in s
    ensures Keep(names, s) == names
  {
    if names != [] {
      var n := |names| - 1;
      KeepAll(names[..n], s);
      assert names == names[..n] + [names[n]];
    }
  }

  lemma {:induction false} KeepNone(names: seq<string>, s: set<string>)
    requires forall x :: x in names ==> x !in s
    ensures Keep(names, s) == []
  {
    if names != [] {
      KeepNone(names[..|names| - 1], s);
    }
  }

  lemma NormalConcat(a: seq<string>, b: seq<string>)
    requires Normal(a) && Normal(b) && forall x :: x in b ==> x !in a
    ensures Normal(a + b)
  {
    forall i, j | 0 <= i < j < |a + b| ensures (a + b)[i] != (a + b)[j] {
      if i < |a| <= j {
        assert b[j - |a|] in b;
      }
    }
  }

  // ---------- the list operations of the source ----------

  function Merge(base: seq<string>, appended: seq<string>): seq<string> {
    Normalize(base) + Drop(Normalize(appended), Members(Normalize(base)))
  }

  function Subtract(base: seq<string>, removed: seq<string>): seq<string> {
    Drop(Normalize(base), Members(Normalize(removed)))
  }

  function Intersect(base: seq<string>, allowed: seq<string>): seq<string> {
    Keep(Normalize(base), Members(Normalize(allowed)))
  }

  function ApplySelected(origin: seq<string>, adds: seq<string>, removes: seq<string>): seq<string> {
    var normalizedAdd := Normalize(adds);
    Subtract(Merge(origin, normalizedAdd), Subtract(Normalize(removes), normalizedAdd))
  }

  // The loop with its set of names seen so far.
  method MergeModelNames(base: seq<string>, appended: seq<string>) returns (merged: seq<string>)
    ensures merged == Merge(base, appended)
  {
    merged := Normalize(base);
    var seen := Members(merged);
    var more := Normalize(appended);
    NormalizeIsNormal(appended);
    ghost var origin := merged;
    ghost var added := Members(more) - Members(origin);
    for n := 0 to |more|
      invariant merged == origin + Keep(more[..n], added)
      invariant forall x :: x in seen <==> x in origin || x in more[..n]
    {
      KeepSnoc(more[..n], more[n], added);
      assert more[..n + 1] == more[..n] + [more[n]];
      assert more[n] !in more[..n];
      if more[n] !in seen {
        seen := seen + {more[n]};
        merged := merged + [more[n]];
      }
    }
    assert more[..|more|] == more;
  }

  lemma MergeFacts(base: seq<string>, appended: seq<string>)
    ensures Normal(Merge(base, appended))
    ensures forall x :: x in Merge(base, appended) <==> x in Normalize(base) || x in Normalize(appended)
  {
    var a, b := Normalize(base), Normalize(appended);
    NormalizeIsNormal(base);
    NormalizeIsNormal(appended);
    KeepIsNormal(b, Members(b) - Members(a));
    NormalConcat(a, Drop(b, Members(a)));
  }

  lemma SubtractFacts(base: seq<string>, removed: seq<string>)
    ensures Normal(Subtract(base, removed))
    ensures forall x :: x in Subtract(base, removed) <==> x in Normalize(base) && x !in Normalize(removed)
  {
    NormalizeIsNormal(base);
    KeepIsNormal(Normalize(base), Members(Normalize(base)) - Members(Normalize(removed)));
  }

  lemma IntersectFacts(base: seq<string>, allowed: seq<string>)
    ensures Normal(Intersect(base, allowed))
    ensures forall x :: x in Intersect(base, allowed) <==> x in Normalize(base) && x in Normalize(allowed)
  {
    NormalizeIsNormal(base);
    KeepIsNormal(Normalize(base), Members(Normalize(allowed)));
  }

  // An added name is always present afterwards, even if it was selected for removal too.
  lemma AddWins(origin: seq<string>, adds: seq<string>, removes: seq<string>)
    ensures Normal(ApplySelected(origin, adds, removes))
    ensures forall x ::
      x in ApplySelected(origin, adds, removes) <==> x in Normalize(adds) || (x in Normalize(origin) && x !in Normalize(removes))
  {
    var a, r := Normalize(adds), Normalize(removes);
    NormalizeIsNormal(adds);
    NormalizeIsNormal(removes);
    NormalIsFixed(a);
    NormalIsFixed(r);
    MergeFacts(origin, a);
    NormalIsFixed(Merge(origin, a));
    SubtractFacts(r, a);
    NormalIsFixed(Subtract(r, a));
    SubtractFacts(Merge(origin, a), Subtract(r, a));
  }
}
