/** The string operations that the controllers use to store lists inside one text column:
    strings.Split, strings.Join, strings.Trim and strings.TrimSpace. */
module Text {

  // The code points for which Go's unicode.IsSpace answers true.
  const SPACES: set<char> := {
    '\t', '\n', '\U{0B}', '\U{0C}', '\r', ' ', '\U{85}', '\U{A0}', '\U{1680}',
    '\U{2000}', '\U{2001}', '\U{2002}', '\U{2003}', '\U{2004}', '\U{2005}', '\U{2006}',
    '\U{2007}', '\U{2008}', '\U{2009}', '\U{200A}', '\U{2028}', '\U{2029}', '\U{202F}',
    '\U{205F}', '\U{3000}'
  }

  function TrimLeft(s: string, cut: set<char>): string {
    if s != [] && s[0] in cut then TrimLeft(s[1..], cut) else s
  }

  function TrimRight(s: string, cut: set<char>): string {
    if s != [] && s[|s| - 1] in cut then TrimRight(s[..|s| - 1], cut) else s
  }

  function Trim(s: string, cut: set<char>): string {
    TrimRight(TrimLeft(s, cut), cut)
  }

  function TrimSpace(s: string): string {
    Trim(s, SPACES)
  }

  // The visible characters of ASCII.
  lemma VisibleIsNoSpace(c: char)
    requires '!' <= c <= '~'
    ensures c !in SPACES
  {}

  // A text neither of whose ends is in the cut set.
  predicate Trimmed(s: string, cut: set<char>) {
    s != [] ==> s[0] !in cut && s[|s| - 1] !in cut
  }

  lemma {:induction false} TrimLeftEnds(s: string, cut: set<char>)
    ensures TrimLeft(s, cut) != [] ==> TrimLeft(s, cut)[0] !in cut
  {
    if s != [] && s[0] in cut {
      TrimLeftEnds(s[1..], cut);
    }
  }

  lemma {:induction false} TrimRightEnds(s: string, cut: set<char>)
    ensures var r := TrimRight(s, cut); r <= s && (r != [] ==> r[|r| - 1] !in cut)
  {
    if s != [] && s[|s| - 1] in cut {
      TrimRightEnds(s[..|s| - 1], cut);
    }
  }

  // Trimming at the end stops at the last character that is not in the cut set.
  lemma {:induction false} TrimRightKeeps(s: string, n: nat, cut: set<char>)
    requires 0 < n <= |s| && s[n - 1] !in cut
    ensures s[..n] <= TrimRight(s, cut)
  {
    if s[|s| - 1] in cut {
      TrimRightKeeps(s[..|s| - 1], n, cut);
      assert s[..|s| - 1][..n] == s[..n];
    }
  }

  lemma TrimIsTrimmed(s: string, cut: set<char>)
    ensures Trimmed(Trim(s, cut), cut)
  {
    TrimLeftEnds(s, cut);
    TrimRightEnds(TrimLeft(s, cut), cut);
  }

  lemma TrimmedIsFixed(s: string, cut: set<char>)
    requires Trimmed(s, cut)
    ensures Trim(s, cut) == s
  {}

  // Trimming a trimmed text changes nothing.
  lemma TrimSpaceIdempotent(s: string)
    ensures TrimSpace(TrimSpace(s)) == TrimSpace(s)
  {
    TrimIsTrimmed(s, SPACES);
    TrimmedIsFixed(TrimSpace(s), SPACES);
  }

  lemma {:induction false} TrimLeftWithin(s: string, cut: set<char>)
    ensures forall c :: c in TrimLeft(s, cut) ==> c in s
  {
    if s != [] && s[0] in cut {
      TrimLeftWithin(s[1..], cut);
    }
  }

  lemma TrimSpaceWithin(s: string)
    ensures forall c :: c in TrimSpace(s) ==> c in s
  {
    TrimLeftWithin(s, SPACES);
    TrimRightEnds(TrimLeft(s, SPACES), SPACES);
    var t, r := TrimLeft(s, SPACES), TrimSpace(s);
    forall c | c in r ensures c in t {
      var i :| 0 <= i < |r| && r[i] == c;
      assert t[i] == c;
    }
  }

  function Split(s: string, sep: char): (parts: seq<string>)
    ensures |parts| >= 1
  {
    if s == [] then [""]
    else
      var rest := Split(s[1..], sep);
      if s[0] == sep then [""] + rest else [[s[0]] + rest[0]] + rest[1..]
  }

  function Join(parts: seq<string>, sep: char): string {
    if |parts| == 0 then ""
    else if |parts| == 1 then parts[0]
    else parts[0] + [sep] + Join(parts[1..], sep)
  }

  predicate Free(s: string, sep: char) {
    sep !in s
  }

  predicate AllFree(parts: seq<string>, sep: char) {
    forall i :: 0 <= i < |parts| ==> Free(parts[i], sep)
  }

  lemma {:induction false} SplitFree(s: string, sep: char)
    ensures AllFree(Split(s, sep), sep)
  {
    if s != [] {
      SplitFree(s[1..], sep);
    }
  }

  // Splitting one part followed by a separator yields the part, then the split of the rest.
  lemma {:induction false} SplitPart(p: string, rest: string, sep: char)
    requires Free(p, sep)
    ensures Split(p + [sep] + rest, sep) == [p] + Split(rest, sep)
  {
    var s := p + [sep] + rest;
    if p == [] {
      assert s[1..] == rest;
    } else {
      assert s[1..] == p[1..] + [sep] + rest;
      SplitPart(p[1..], rest, sep);
      assert [s[0]] + p[1..] == p;
    }
  }

  lemma {:induction false} SplitPair(s: string, t: string, sep: char)
    ensures Split(s + [sep] + t, sep) == Split(s, sep) + Split(t, sep)
  {
    var whole := s + [sep] + t;
    if s == [] {
      assert whole[1..] == t;
    } else {
      assert whole[1..] == s[1..] + [sep] + t;
      SplitPair(s[1..], t, sep);
    }
  }

  lemma {:induction false} SplitWhole(p: string, sep: char)
    requires Free(p, sep)
    ensures Split(p, sep) == [p]
  {
    if p != [] {
      SplitWhole(p[1..], sep);
      assert [p[0]] + p[1..] == p;
    }
  }

  // Splitting undoes joining, for parts that do not contain the separator.
  lemma {:induction false} SplitJoin(parts: seq<string>, sep: char)
    requires parts != [] && AllFree(parts, sep)
    ensures Split(Join(parts, sep), sep) == parts
  {
    assert Free(parts[0], sep);
    if |parts| == 1 {
      SplitWhole(parts[0], sep);
    } else {
      assert AllFree(parts[1..], sep);
      SplitJoin(parts[1..], sep);
      SplitPart(parts[0], Join(parts[1..], sep), sep);
    }
  }

  // The list a text column stands for: "" is the empty list, anything else is split
  // after separators at both ends are dropped.
  function ParseList(text: string, sep: char): seq<string> {
    if text == "" then [] else Split(Trim(text, {sep}), sep)
  }

  predicate Storable(parts: seq<string>) {
    parts != [] ==> parts[0] != "" && parts[|parts| - 1] != ""
  }

  lemma {:induction false} JoinEnds(parts: seq<string>, sep: char)
    requires parts != [] && Storable(parts)
    ensures var t := Join(parts, sep);
      t != [] && t[0] == parts[0][0]
      && t[|t| - 1] == parts[|parts| - 1][|parts[|parts| - 1]| - 1]
  {
    if |parts| > 1 {
      JoinLast(parts, sep);
    }
  }

  lemma {:induction false} JoinLast(parts: seq<string>, sep: char)
    requires parts != [] && parts[|parts| - 1] != ""
    ensures var t := Join(parts, sep);
      t != [] && t[|t| - 1] == parts[|parts| - 1][|parts[|parts| - 1]| - 1]
  {
    if |parts| > 1 {
      JoinLast(parts[1..], sep);
    }
  }

  lemma {:induction false} SplitEnds(s: string, sep: char)
    requires s != [] && s[0] != sep && s[|s| - 1] != sep
    ensures Storable(Split(s, sep))
  {
    SplitLast(s, sep);
  }

  lemma {:induction false} SplitLast(s: string, sep: char)
    requires s != [] && s[|s| - 1] != sep
    ensures var r := Split(s, sep); r[|r| - 1] != ""
  {
    if |s| > 1 {
      SplitLast(s[1..], sep);
    }
  }

  // Storing a list and reading it back gives the same list exactly when neither end of
  // the list is an empty part.
  lemma RoundTripExactly(parts: seq<string>, sep: char)
    requires AllFree(parts, sep)
    ensures ParseList(Join(parts, sep), sep) == parts <==> Storable(parts)
  {
    var t := Join(parts, sep);
    if parts != [] && Storable(parts) {
      JoinEnds(parts, sep);
      FreeEnds(parts, sep);
      TrimmedIsFixed(t, {sep});
      SplitJoin(parts, sep);
    } else if parts != [] && t != "" {
      TrimIsTrimmed(t, {sep});
      var u := Trim(t, {sep});
      if u != [] {
        SplitEnds(u, sep);
      }
    }
  }

  lemma FreeEnds(parts: seq<string>, sep: char)
    requires parts != [] && AllFree(parts, sep) && Storable(parts)
    ensures parts[0][0] != sep
    ensures var p := parts[|parts| - 1]; p[|p| - 1] != sep
  {
    var p := parts[|parts| - 1];
    assert Free(parts[0], sep) && Free(p, sep);
    assert parts[0][0] in parts[0] && p[|p| - 1] in p;
  }

  lemma RoundTrip(parts: seq<string>, sep: char)
    requires AllFree(parts, sep) && Storable(parts)
    ensures ParseList(Join(parts, sep), sep) == parts
  {
    RoundTripExactly(parts, sep);
  }
}
