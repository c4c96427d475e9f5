/** Appending keys to a multi-key channel: the new lines are trimmed, blanks and keys
    already present are skipped, and the rest is joined behind the existing keys. */
module KeyAppend {
  import opened Wrappers
  import opened KeyText
  import opened ModelNames
  import Text

  // The existing keys as the append branch reads them.
  function Existing(decode: string -> Option<seq<string>>, text: string): seq<string> {
    if Bracketed(text) then
      var r := Decoded(decode, text);
      if r.Some? then r.value else []
    else Text.Split(Text.Trim(text, {'\n'}), '\n')
  }

  // The keys that an input text contributes.
  function Added(existing: seq<string>, raw: string): seq<string> {
    Subtract(Clean(Text.Split(raw, '\n')), existing)
  }

  // The key text handed to Update; an empty column takes the input as it is.
  function AppendedText(decode: string -> Option<seq<string>>, origin: string, raw: string): string {
    if origin == "" then raw
    else Text.Join(Existing(decode, origin) + Added(Existing(decode, origin), raw), '\n')
  }

  lemma CleanSnoc(names: seq<string>, x: string)
    ensures var t := Text.TrimSpace(x);
      Clean(names + [x]) == if t == "" then Clean(names) else Clean(names) + [t]
  {
    assert (names + [x])[..|names|] == names;
  }

  method InputKeys(raw: string) returns (newKeys: seq<string>)
    ensures newKeys == Clean(Text.Split(raw, '\n'))
  {
    var lines := Text.Split(raw, '\n');
    newKeys := [];
    for n := 0 to |lines|
      invariant newKeys == Clean(lines[..n])
    {
      assert lines[..n + 1] == lines[..n] + [lines[n]];
      CleanSnoc(lines[..n], lines[n]);
      var key := Text.TrimSpace(lines[n]);
      if key != "" {
        newKeys := newKeys + [key];
      }
    }
    assert lines[..|lines|] == lines;
  }

  lemma DropSnoc(names: seq<string>, x: string, s: set<string>)
    ensures Drop(names + [x], s) == Drop(names, s) + if x in s then [] else [x]
  {
    var after := Members(names + [x]) - s;
    KeepSnoc(names, x, after);
    KeepSame(names, after, Members(names) - s);
    assert x in names + [x];
  }

  lemma NormalizeSnoc(names: seq<string>, x: string)
    ensures var t, before := Text.TrimSpace(x), Normalize(names);
      Normalize(names + [x]) == if t == "" || t in before then before else before + [t]
  {
    var t := Text.TrimSpace(x);
    CleanSnoc(names, x);
    assert (Clean(names) + [t])[..|Clean(names)|] == Clean(names);
  }

  lemma MembersSnoc(names: seq<string>, x: string)
    ensures Members(names + [x]) == Members(names) + {x}
  {}

  method SeenKeys(existing: seq<string>) returns (seen: set<string>)
    ensures seen == Members(Clean(existing))
  {
    seen := {};
    for n := 0 to |existing|
      invariant seen == Members(Clean(existing[..n]))
    {
      assert existing[..n + 1] == existing[..n] + [existing[n]];
      CleanSnoc(existing[..n], existing[n]);
      var normalized := Text.TrimSpace(existing[n]);
      if normalized != "" {
        MembersSnoc(Clean(existing[..n]), normalized);
        seen := seen + {normalized};
      }
    }
    assert existing[..|existing|] == existing;
  }

  // One more input key: it is new unless it is blank, repeated or listed before.
  lemma OneMoreKey(names: seq<string>, x: string, before: set<string>)
    ensures var t, had := Text.TrimSpace(x), Normalize(names);
      var more := t != "" && t !in had;
      && Drop(Normalize(names + [x]), before) == Drop(had, before) + (if more && t !in before then [t] else [])
      && (forall y :: y in Normalize(names + [x]) <==> y in had || (more && y == t))
  {
    NormalizeSnoc(names, x);
    DropSnoc(Normalize(names), Text.TrimSpace(x), before);
  }

  // The two loops over the set of keys seen so far.
  method AppendKeys(existing: seq<string>, newKeys: seq<string>) returns (allKeys: seq<string>)
    ensures allKeys == existing + Subtract(newKeys, existing)
  {
    var seen := SeenKeys(existing);
    ghost var before := Members(Normalize(existing));
    UniqFacts(Clean(existing));
    var deduped := [];
    for n := 0 to |newKeys|
      invariant deduped == Drop(Normalize(newKeys[..n]), before)
      invariant forall x :: x in seen <==> x in before || x in Normalize(newKeys[..n])
    {
      assert newKeys[..n + 1] == newKeys[..n] + [newKeys[n]];
      OneMoreKey(newKeys[..n], newKeys[n], before);
      var normalized := Text.TrimSpace(newKeys[n]);
      if normalized != "" && normalized !in seen {
        seen := seen + {normalized};
        deduped := deduped + [normalized];
      }
    }
    assert newKeys[..|newKeys|] == newKeys;
    allKeys := existing + deduped;
  }

  method AppendToText(decode: string -> Option<seq<string>>, origin: string, raw: string) returns (text: string)
    ensures text == AppendedText(decode, origin, raw)
  {
    text := raw;
    if origin != "" {
      var newKeys := InputKeys(raw);
      var allKeys := AppendKeys(Existing(decode, origin), newKeys);
      text := Text.Join(allKeys, '\n');
    }
  }

  // ---------- what appending promises ----------

  // Added keys are trimmed, not blank, pairwise different and different from every
  // existing key; and every non-blank input line is covered.
  lemma AddedFacts(existing: seq<string>, raw: string)
    ensures Normal(Added(existing, raw))
    ensures forall x :: x in Added(existing, raw) <==> Offered(raw, x) && !Listed(existing, x)
  {
    var lines := Text.Split(raw, '\n');
    SubtractFacts(Clean(lines), existing);
    forall x ensures x in Normalize(Clean(lines)) <==> Offered(raw, x) {
      CleanIsProper(lines);
      CleanTwice(lines, x);
      CleanMembers(lines, x);
    }
    forall x ensures x in Normalize(existing) && x != "" <==> Listed(existing, x) && x != "" {
      NormalizeMembers(existing, x);
    }
  }

  // Some line of the input trims to the key.
  ghost predicate Offered(raw: string, key: string) {
    var lines := Text.Split(raw, '\n');
    key != "" && exists i :: 0 <= i < |lines| && Text.TrimSpace(lines[i]) == key
  }

  ghost predicate Listed(existing: seq<string>, key: string) {
    exists i :: 0 <= i < |existing| && Text.TrimSpace(existing[i]) == key
  }

  lemma CleanTwice(lines: seq<string>, x: string)
    ensures x in Normalize(Clean(lines)) <==> x in Clean(lines)
  {
    CleanIsProper(lines);
    NormalizeMembers(Clean(lines), x);
    var c := Clean(lines);
    if x in c {
      var i :| 0 <= i < |c| && c[i] == x;
      assert Text.TrimSpace(c[i]) == x;
    }
    if x != "" && exists i :: 0 <= i < |c| && Text.TrimSpace(c[i]) == x {
      var i :| 0 <= i < |c| && Text.TrimSpace(c[i]) == x;
      assert c[i] in c;
    }
  }

  // Every offered key is in the list after one append.
  lemma CoversInput(existing: seq<string>, raw: string, key: string)
    requires Offered(raw, key)
    ensures Listed(existing + Added(existing, raw), key)
  {
    var added := Added(existing, raw);
    var all := existing + added;
    AddedFacts(existing, raw);
    if Listed(existing, key) {
      var i :| 0 <= i < |existing| && Text.TrimSpace(existing[i]) == key;
      assert all[i] == existing[i];
    } else {
      var j :| 0 <= j < |added| && added[j] == key;
      assert Proper(key) && all[|existing| + j] == key;
    }
  }

  // A second append of the same input finds nothing left to add.
  lemma AppendTwice(existing: seq<string>, raw: string)
    ensures Added(existing + Added(existing, raw), raw) == []
  {
    var again := Added(existing + Added(existing, raw), raw);
    AddedFacts(existing + Added(existing, raw), raw);
    if again != [] {
      assert again[0] in again;
      CoversInput(existing, raw, again[0]);
    }
  }

  lemma AddedHasNoNewline(existing: seq<string>, raw: string)
    ensures Text.AllFree(Added(existing, raw), '\n')
  {
    var added, lines := Added(existing, raw), Text.Split(raw, '\n');
    AddedFacts(existing, raw);
    Text.SplitFree(raw, '\n');
    forall j | 0 <= j < |added| ensures Text.Free(added[j], '\n') {
      assert added[j] in added;
      var i :| 0 <= i < |lines| && Text.TrimSpace(lines[i]) == added[j];
      Text.TrimSpaceWithin(lines[i]);
      assert Text.Free(lines[i], '\n');
    }
  }

  // The column after Update, which keeps the stored text when the new one is empty.
  function Stored(origin: string, text: string): string {
    if text == "" then origin else text
  }

  // For any channel whose keys are plain: the column read back holds the old keys at
  // their old indices, then the added ones.
  lemma AppendKeepsKeys(decode: string -> Option<seq<string>>, origin: string, raw: string)
    requires origin != "" && Keys(decode, origin) != [] && AllPlain(Keys(decode, origin))
    requires forall x :: x in Added(Keys(decode, origin), raw) ==> !Bracketed(x)
    ensures Existing(decode, origin) == Keys(decode, origin)
    ensures var all := Keys(decode, origin) + Added(Keys(decode, origin), raw);
      && AppendedText(decode, origin, raw) == Text.Join(all, '\n')
      && AllPlain(all)
      && Keys(decode, AppendedText(decode, origin, raw)) == all
  {
    var keys := Keys(decode, origin);
    PlainIsRead(decode, origin);
    var added := Added(keys, raw);
    AddedFacts(keys, raw);
    AddedHasNoNewline(keys, raw);
    assert forall j :: 0 <= j < |added| ==> added[j] in added;
    KeysRoundTrip(decode, keys + added);
  }

  lemma PlainIsRead(decode: string -> Option<seq<string>>, origin: string)
    requires origin != "" && AllPlain(Keys(decode, origin))
    ensures Existing(decode, origin) == Keys(decode, origin)
  {
    if Bracketed(origin) && Decoded(decode, origin).None? {
      BracketInFirstLine(origin);
    }
  }

  // The lines of a text open an array exactly when the text looks like one.
  lemma LinesOpen(origin: string)
    ensures Bracketed(origin) <==> Opens(Text.Split(Text.Trim(origin, {'\n'}), '\n'))
  {
    var core := Text.Trim(origin, {'\n'});
    JoinOfSplit(core);
    JoinedOpens(Text.Split(core, '\n'));
    BracketedIsFirst(origin);
    BracketedIsFirst(core);
    CoreStaysBracketed(origin);
  }

  lemma BracketInFirstLine(origin: string)
    requires Bracketed(origin)
    ensures !AllPlain(Text.ParseList(origin, '\n'))
  {
    LinesOpen(origin);
    if AllPlain(Text.ParseList(origin, '\n')) {
      PlainOpensNothing(Text.ParseList(origin, '\n'));
    }
  }

  lemma {:induction false} JoinOfSplit(s: string)
    ensures Text.Join(Text.Split(s, '\n'), '\n') == s
  {
    if s != [] {
      var parts, rest := Text.Split(s, '\n'), Text.Split(s[1..], '\n');
      JoinOfSplit(s[1..]);
      assert s == [s[0]] + s[1..];
      if s[0] == '\n' {
        assert parts[1..] == rest;
      } else {
        assert parts[1..] == rest[1..];
        assert |rest| == 1 ==> parts == [[s[0]] + rest[0]];
      }
    }
  }

  lemma CoreStaysBracketed(origin: string)
    ensures Text.TrimLeft(Text.Trim(origin, {'\n'}), Text.SPACES) == [] ==> Text.TrimLeft(origin, Text.SPACES) == []
    ensures var t := Text.TrimLeft(Text.Trim(origin, {'\n'}), Text.SPACES);
      t != [] ==> Text.TrimLeft(origin, Text.SPACES) != [] && t[0] == Text.TrimLeft(origin, Text.SPACES)[0]
  {
    SkipNewlines(origin);
    var s := Text.TrimLeft(origin, {'\n'});
    CutNewlines(s);
  }

  lemma {:induction false} SkipNewlines(s: string)
    ensures Text.TrimLeft(Text.TrimLeft(s, {'\n'}), Text.SPACES) == Text.TrimLeft(s, Text.SPACES)
  {
    if s != [] && s[0] == '\n' {
      SkipNewlines(s[1..]);
    }
  }

  lemma {:induction false} CutNewlines(s: string)
    ensures var t, u := Text.TrimLeft(Text.TrimRight(s, {'\n'}), Text.SPACES), Text.TrimLeft(s, Text.SPACES);
      (t == [] <==> u == []) && (t != [] ==> t[0] == u[0])
  {
    if s != [] && s[|s| - 1] == '\n' {
      var n := |s| - 1;
      CutNewlines(s[..n]);
      assert s == s[..n] + ['\n'];
      TrimLeftOfConcat(s[..n], ['\n']);
      assert Text.TrimLeft(['\n'], Text.SPACES) == [];
    }
  }
}
