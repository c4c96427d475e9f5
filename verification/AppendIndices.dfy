/** Where the existing keys are after an append, once the stored column is read back. */
module AppendIndices {
  import opened Wrappers
  import opened KeyText
  import opened KeyAppend
  import opened ModelNames
  import Text

  // The column starts like an array and is none.
  predicate Broken(decode: string -> Option<seq<string>>, text: string) {
    Bracketed(text) && Decoded(decode, text).None?
  }

  // The keys the channel uses after the append.
  function After(decode: string -> Option<seq<string>>, origin: string, raw: string): seq<string> {
    Keys(decode, Stored(origin, AppendedText(decode, origin, raw)))
  }

  // The keys the append contributes, as the branch computes them.
  function NewKeys(decode: string -> Option<seq<string>>, origin: string, raw: string): seq<string> {
    Added(Existing(decode, origin), raw)
  }

  // The append branch reads the keys the channel uses, or nothing from a broken array.
  lemma ReadsTheKeys(decode: string -> Option<seq<string>>, origin: string)
    requires origin != ""
    ensures Existing(decode, origin) == if Broken(decode, origin) then [] else Keys(decode, origin)
  {}

  lemma AddedIsStorable(existing: seq<string>, raw: string)
    ensures var added := Added(existing, raw);
      && Text.AllFree(added, '\n') && Text.Storable(added)
      && (forall i :: 0 <= i < |added| ==> Proper(added[i]))
  {
    var added := Added(existing, raw);
    AddedHasNoNewline(existing, raw);
    AddedFacts(existing, raw);
    assert forall i :: 0 <= i < |added| ==> added[i] in added;
  }

  // ---------- broken arrays ----------

  // From a column that starts like an array and is none, every old key is dropped: only the
  // appended ones are stored.
  lemma BrokenColumnIsReplaced(decode: string -> Option<seq<string>>, origin: string, raw: string)
    requires origin != "" && Broken(decode, origin) && NewKeys(decode, origin, raw) != []
    ensures Stored(origin, AppendedText(decode, origin, raw)) == Text.Join(Added([], raw), '\n')
    ensures Text.Join(Added([], raw), '\n') != ""
    ensures Text.ParseList(Text.Join(Added([], raw), '\n'), '\n') == Added([], raw)
  {
    var added := Added([], raw);
    AddedIsStorable([], raw);
    assert [] + added == added;
    Text.JoinEnds(added, '\n');
    Text.RoundTrip(added, '\n');
  }

  // ---------- columns that are read ----------

  lemma {:induction false} TrimKeepsLast(s: string, cut: set<char>)
    requires s != [] && s[|s| - 1] !in cut
    ensures var t := Text.TrimLeft(s, cut); t != [] && t[|t| - 1] == s[|s| - 1]
  {
    if s[0] in cut {
      TrimKeepsLast(s[1..], cut);
    }
  }

  lemma {:induction false} TrimLeftSplitsNoMore(s: string)
    ensures |Text.Split(Text.TrimLeft(s, {'\n'}), '\n')| <= |Text.Split(s, '\n')|
  {
    if s != [] && s[0] == '\n' {
      TrimLeftSplitsNoMore(s[1..]);
    }
  }

  lemma {:induction false} SplitSnoc(s: string)
    ensures |Text.Split(s + ['\n'], '\n')| == |Text.Split(s, '\n')| + 1
  {
    if s == [] {
      assert (s + ['\n'])[1..] == [];
    } else {
      assert (s + ['\n'])[1..] == s[1..] + ['\n'];
      SplitSnoc(s[1..]);
    }
  }

  lemma {:induction false} TrimRightSplitsNoMore(s: string)
    ensures |Text.Split(Text.TrimRight(s, {'\n'}), '\n')| <= |Text.Split(s, '\n')|
  {
    if s != [] && s[|s| - 1] == '\n' {
      var n := |s| - 1;
      TrimRightSplitsNoMore(s[..n]);
      SplitSnoc(s[..n]);
      assert s == s[..n] + ['\n'];
    }
  }

  // Reading lines back never yields more of them than were stored.
  lemma NoMoreLines(lines: seq<string>)
    requires lines != [] && Text.AllFree(lines, '\n')
    ensures |Text.Split(Text.Trim(Text.Join(lines, '\n'), {'\n'}), '\n')| <= |lines|
  {
    var t := Text.Join(lines, '\n');
    Text.SplitJoin(lines, '\n');
    TrimLeftSplitsNoMore(t);
    TrimRightSplitsNoMore(Text.TrimLeft(t, {'\n'}));
  }

  lemma PrefixIsFree(keys: seq<string>, text: string)
    requires text != "" && keys <= Text.ParseList(text, '\n')
    ensures Text.AllFree(keys, '\n')
  {
    var lines := Text.ParseList(text, '\n');
    Text.SplitFree(Text.Trim(text, {'\n'}), '\n');
    forall i | 0 <= i < |keys| ensures Text.Free(keys[i], '\n') {
      assert keys[i] == lines[i];
    }
  }

  // Stored one per line and read back as lines, the keys come first exactly when none of
  // them has a newline and neither end of the whole list is empty.
  lemma LinesKeptExactly(keys: seq<string>, added: seq<string>)
    requires keys != [] && Text.AllFree(added, '\n')
    requires forall i :: 0 <= i < |added| ==> Proper(added[i])
    requires Text.Join(keys + added, '\n') != ""
    ensures keys <= Text.ParseList(Text.Join(keys + added, '\n'), '\n')
      <==> Text.AllFree(keys, '\n') && Text.Storable(keys + added)
  {
    var all := keys + added;
    var text := Text.Join(all, '\n');
    if Text.AllFree(keys, '\n') && Text.Storable(all) {
      Text.RoundTrip(all, '\n');
    }
    if keys <= Text.ParseList(text, '\n') {
      PrefixIsFree(keys, text);
      assert Text.AllFree(all, '\n');
      if added == [] {
        assert all == keys;
        NoMoreLines(keys);
        Text.RoundTripExactly(keys, '\n');
      } else {
        FirstIsSolid(keys, added);
      }
    }
  }

  lemma FirstLineIsSolid(text: string)
    requires text != "" && text[|text| - 1] != '\n'
    ensures Text.ParseList(text, '\n')[0] != ""
  {
    TrimKeepsLast(text, {'\n'});
    Text.TrimIsTrimmed(text, {'\n'});
    Text.SplitEnds(Text.Trim(text, {'\n'}), '\n');
  }

  lemma FirstIsSolid(keys: seq<string>, added: seq<string>)
    requires keys != [] && added != [] && Text.AllFree(added, '\n') && added[|added| - 1] != ""
    requires var text := Text.Join(keys + added, '\n'); text != "" && keys <= Text.ParseList(text, '\n')
    ensures keys[0] != ""
  {
    var all, last := keys + added, added[|added| - 1];
    Text.JoinLast(all, '\n');
    assert Text.Free(last, '\n') && last[|last| - 1] in last;
    FirstLineIsSolid(Text.Join(all, '\n'));
  }

  // ---------- the exact condition, for any decoder ----------

  predicate Safe(decode: string -> Option<seq<string>>, origin: string, raw: string) {
    var keys, added := Keys(decode, origin), NewKeys(decode, origin, raw);
    var text := AppendedText(decode, origin, raw);
    var spelled := Decoded(decode, text);
    || text == ""
    || if spelled.Some? then keys <= spelled.value
       else if Broken(decode, origin) then keys <= added
       else keys == [] || (Text.AllFree(keys, '\n') && Text.Storable(keys + added))
  }

  // Existing keys keep their index exactly when the append is safe; and when no array is
  // spelled by the new column, the new keys follow them.
  lemma IndicesKeptExactly(decode: string -> Option<seq<string>>, origin: string, raw: string)
    requires origin != ""
    ensures Keys(decode, origin) <= After(decode, origin, raw) <==> Safe(decode, origin, raw)
  {
    var keys, added := Keys(decode, origin), NewKeys(decode, origin, raw);
    var text := AppendedText(decode, origin, raw);
    ReadsTheKeys(decode, origin);
    AddedIsStorable(Existing(decode, origin), raw);
    if text != "" && Decoded(decode, text).None? {
      if Broken(decode, origin) {
        BrokenColumnIsReplaced(decode, origin, raw);
      } else if keys != [] {
        LinesKeptExactly(keys, added);
      }
    }
  }

  // ---------- decoders of JSON ----------

  // What JSON grants of an array's elements: they are values without white space around
  // them, shorter than the array, arrays themselves if they look like one; and an array
  // with more behind it is no array.
  ghost predicate Json(decode: string -> Option<seq<string>>) {
    && (forall t :: decode(t).Some? ==> Elements(decode, t))
    && (forall t, u :: decode(t).Some? && t < u && Text.TrimSpace(u) == u ==> decode(u).None?)
  }

  ghost predicate Elements(decode: string -> Option<seq<string>>, t: string)
    requires decode(t).Some?
  {
    var es := decode(t).value;
    forall i :: 0 <= i < |es| ==> Proper(es[i]) && |es[i]| < |t| && (Bracketed(es[i]) ==> decode(es[i]).Some?)
  }

  // The condition in terms of the column and the input. A column of lines: nothing is added,
  // or it holds more than newlines and is not a row of blank lines before an array. A column
  // that is an array: no key spans lines, and there is no lone key that is an array again. A
  // broken array: nothing is added, or the added keys (the elements, if they spell an array)
  // start with the old keys.
  predicate JsonSafe(decode: string -> Option<seq<string>>, origin: string, raw: string) {
    var keys, added := Keys(decode, origin), NewKeys(decode, origin, raw);
    if Broken(decode, origin) then
      || added == []
      || (var spelled := Decoded(decode, Text.Join(added, '\n'));
          keys <= if spelled.Some? then spelled.value else added)
    else if Bracketed(origin) then
      keys == [] || (Text.AllFree(keys, '\n') && !(|keys| == 1 && added == [] && Bracketed(keys[0])))
    else
      || added == []
      || (Text.Trim(origin, {'\n'}) != "" && !SpellsArray(decode, keys, added))
  }

  // Nothing but blank lines, then a key that starts with '[', and together they decode.
  predicate SpellsArray(decode: string -> Option<seq<string>>, keys: seq<string>, added: seq<string>) {
    && AllBlank(keys) && added != [] && Bracketed(added[0])
    && decode(Text.TrimSpace(Text.Join(keys + added, '\n'))).Some?
  }

  lemma OpensAdded(added: seq<string>)
    requires forall i :: 0 <= i < |added| ==> Proper(added[i])
    ensures Opens(added) <==> added != [] && Bracketed(added[0])
  {}

  // Lines and added keys spell an array only in that way.
  lemma SpelledByLines(decode: string -> Option<seq<string>>, origin: string, added: seq<string>)
    requires !Bracketed(origin) && forall i :: 0 <= i < |added| ==> Proper(added[i])
    ensures var keys := Text.Split(Text.Trim(origin, {'\n'}), '\n');
      Decoded(decode, Text.Join(keys + added, '\n')).Some? <==> SpellsArray(decode, keys, added)
  {
    var keys := Text.Split(Text.Trim(origin, {'\n'}), '\n');
    LinesOpen(origin);
    OpensConcat(keys, added);
    OpensAdded(added);
    JoinedOpens(keys + added);
  }

  lemma LinesSafe(decode: string -> Option<seq<string>>, origin: string, raw: string)
    requires origin != "" && !Bracketed(origin) && Json(decode)
    ensures Safe(decode, origin, raw) <==> JsonSafe(decode, origin, raw)
  {
    var core := Text.Trim(origin, {'\n'});
    var keys, added := Text.Split(core, '\n'), NewKeys(decode, origin, raw);
    AddedIsStorable(keys, raw);
    SpelledByLines(decode, origin, added);
    Text.SplitFree(core, '\n');
    if core == "" {
      assert keys == [""];
      OnlyEmpty(added);
    } else {
      Text.TrimIsTrimmed(origin, {'\n'});
      Text.SplitEnds(core, '\n');
      NotEmpty(keys, added);
    }
    if SpellsArray(decode, keys, added) {
      BlankIsNoElement(decode, keys, added);
    }
  }

  lemma OnlyEmpty(added: seq<string>)
    requires forall i :: 0 <= i < |added| ==> Proper(added[i])
    ensures Text.Join([""] + added, '\n') == "" <==> added == []
  {
    if added != [] {
      assert ([""] + added)[1..] == added;
    }
  }

  lemma NotEmpty(keys: seq<string>, added: seq<string>)
    requires keys != [] && Text.Storable(keys) && forall i :: 0 <= i < |added| ==> Proper(added[i])
    ensures Text.Storable(keys + added) && Text.Join(keys + added, '\n') != ""
  {
    Text.JoinEnds(keys + added, '\n');
  }

  // A blank line is no element of an array.
  lemma BlankIsNoElement(decode: string -> Option<seq<string>>, keys: seq<string>, added: seq<string>)
    requires Json(decode) && keys != [] && SpellsArray(decode, keys, added)
    ensures !(keys <= decode(Text.TrimSpace(Text.Join(keys + added, '\n'))).value)
  {
    var t := Text.TrimSpace(Text.Join(keys + added, '\n'));
    var es := decode(t).value;
    assert Elements(decode, t) && Blank(keys[0]);
    assert es != [] ==> Proper(es[0]) && es[0] != keys[0];
  }

  lemma ArraySafe(decode: string -> Option<seq<string>>, origin: string, raw: string)
    requires Decoded(decode, origin).Some? && Keys(decode, origin) != [] && Json(decode)
    ensures Safe(decode, origin, raw) <==> JsonSafe(decode, origin, raw)
  {
    var keys, added := Keys(decode, origin), NewKeys(decode, origin, raw);
    assert Elements(decode, Text.TrimSpace(origin));
    AddedIsStorable(keys, raw);
    NotEmpty(keys, added);
    LoneArray(decode, keys, added);
  }

  // Values and added keys spell an array only when they are one value that is an array; its
  // elements are shorter than it.
  lemma LoneArray(decode: string -> Option<seq<string>>, keys: seq<string>, added: seq<string>)
    requires Json(decode) && keys != [] && Text.Storable(keys + added)
    requires forall i :: 0 <= i < |keys| ==> Proper(keys[i]) && (Bracketed(keys[i]) ==> decode(keys[i]).Some?)
    requires forall i :: 0 <= i < |added| ==> Proper(added[i])
    ensures var spelled := Decoded(decode, Text.Join(keys + added, '\n'));
      && (spelled.Some? <==> |keys| == 1 && added == [] && Bracketed(keys[0]))
      && (spelled.Some? ==> !(keys <= spelled.value))
  {
    var all := keys + added;
    var text := Text.Join(all, '\n');
    JoinedOpens(all);
    assert all[0] == keys[0] && Proper(keys[0]);
    if |all| == 1 {
      assert text == keys[0];
      if Bracketed(text) {
        assert Elements(decode, text);
      }
    } else {
      ProperEnds(all[0]);
      ProperEnds(all[|all| - 1]);
      JoinIsTrimmed(all);
      JoinIsLonger(all);
      if Bracketed(text) {
        assert keys[0] < text;
      }
    }
  }

  lemma ProperEnds(x: string)
    requires Proper(x)
    ensures x[0] !in Text.SPACES && x[|x| - 1] !in Text.SPACES
  {
    Text.TrimIsTrimmed(x, Text.SPACES);
  }

  lemma JoinIsTrimmed(all: seq<string>)
    requires all != [] && Text.Storable(all)
    requires var last := all[|all| - 1]; all[0][0] !in Text.SPACES && last[|last| - 1] !in Text.SPACES
    ensures Text.TrimSpace(Text.Join(all, '\n')) == Text.Join(all, '\n')
  {
    Text.JoinEnds(all, '\n');
    Text.TrimmedIsFixed(Text.Join(all, '\n'), Text.SPACES);
  }

  lemma JoinIsLonger(all: seq<string>)
    requires |all| > 1
    ensures all[0] < Text.Join(all, '\n')
  {
    assert Text.Join(all, '\n') == all[0] + (['\n'] + Text.Join(all[1..], '\n'));
  }

  // For a decoder of JSON, existing keys keep their index exactly under the condition on
  // column and input.
  lemma JsonIndicesKeptExactly(decode: string -> Option<seq<string>>, origin: string, raw: string)
    requires origin != "" && Json(decode)
    ensures Keys(decode, origin) <= After(decode, origin, raw) <==> JsonSafe(decode, origin, raw)
  {
    IndicesKeptExactly(decode, origin, raw);
    if Broken(decode, origin) {
      BrokenSafe(decode, origin, raw);
    } else if !Bracketed(origin) {
      LinesSafe(decode, origin, raw);
    } else if Keys(decode, origin) != [] {
      ArraySafe(decode, origin, raw);
    }
  }

  lemma BrokenSafe(decode: string -> Option<seq<string>>, origin: string, raw: string)
    requires origin != "" && Broken(decode, origin)
    ensures Keys(decode, origin) <= After(decode, origin, raw) <==> JsonSafe(decode, origin, raw)
  {
    var added := NewKeys(decode, origin, raw);
    if added == [] {
      assert AppendedText(decode, origin, raw) == "" by { assert [] + added == []; }
    } else {
      BrokenColumnIsReplaced(decode, origin, raw);
    }
  }

  // ---------- one input for each way to lose a key ----------

  function Sample(t: string): Option<seq<string>> {
    if t == "[1]" then Some(["1"])
    else if t == "[[1]]" then Some(["[1]"])
    else if t == "[{\n}]" then Some(["{\n}"])
    else None
  }

  // A text between visible characters is not trimmed, and looks like an array by its first.
  lemma Visible(t: string)
    requires t != "" && '!' <= t[0] <= '~' && '!' <= t[|t| - 1] <= '~'
    ensures Text.TrimSpace(t) == t && Proper(t) && (Bracketed(t) <==> t[0] == '[') && Text.Trim(t, {'\n'}) == t
  {
    Text.VisibleIsNoSpace(t[0]);
    Text.VisibleIsNoSpace(t[|t| - 1]);
    Text.TrimmedIsFixed(t, Text.SPACES);
    Text.TrimmedIsFixed(t, {'\n'});
  }

  lemma SampleIsJson()
    ensures Json(Sample)
  {
    Visible("1");
    Visible("[1]");
    Visible("{\n}");
    forall t, u | Sample(t).Some? && t < u ensures Sample(u).None? {
      assert u[1] == t[1] && u[2] == t[2];
    }
  }

  lemma OnlyMember(names: seq<string>, x: string)
    requires Distinct(names) && x in names && forall y :: y in names ==> y == x
    ensures names == [x]
  {
    assert names[0] in names && names[|names| - 1] in names;
  }

  lemma OffersItself(key: string, x: string)
    requires Proper(key) && Text.Free(key, '\n')
    ensures Offered(key, x) <==> x == key
  {
    Text.SplitWhole(key, '\n');
    assert [key][0] == key;
  }

  lemma AddedOne(existing: seq<string>, key: string)
    requires Proper(key) && Text.Free(key, '\n') && !Listed(existing, key)
    ensures Added(existing, key) == [key]
  {
    var added := Added(existing, key);
    AddedFacts(existing, key);
    forall x ensures Offered(key, x) <==> x == key {
      OffersItself(key, x);
    }
    OnlyMember(added, key);
  }

  lemma AddedNothing(existing: seq<string>)
    ensures Added(existing, "") == []
  {
    var added := Added(existing, "");
    AddedFacts(existing, "");
    assert Text.Split("", '\n') == [""];
    assert Text.TrimSpace("") == "";
    FirstIsMember(added);
  }

  lemma NewlinesAreOneEmptyKey(decode: string -> Option<seq<string>>, origin: string)
    requires origin != "" && Text.Trim(origin, {'\n'}) == ""
    ensures Keys(decode, origin) == [""] && !Bracketed(origin)
  {
    LinesOpen(origin);
    assert Text.Split("", '\n') == [""];
  }

  // A column of newlines is one empty key, and any key appended takes its place.
  lemma NewlineColumnLosesKey(decode: string -> Option<seq<string>>, origin: string, raw: string, key: string)
    requires Json(decode) && Offered(raw, key)
    requires origin != "" && Text.Trim(origin, {'\n'}) == ""
    ensures Keys(decode, origin) == [""] && !([""] <= After(decode, origin, raw))
  {
    NewlinesAreOneEmptyKey(decode, origin);
    EmptyKeyIsNotListed(raw, key);
    JsonIndicesKeptExactly(decode, origin, raw);
  }

  lemma EmptyKeyIsNotListed(raw: string, key: string)
    requires Offered(raw, key)
    ensures Added([""], raw) != []
  {
    AddedFacts([""], raw);
    assert Text.TrimSpace("") == "";
    assert key in Added([""], raw);
  }

  lemma OneNewline()
    ensures Keys(Sample, "\n") == [""] && !([""] <= After(Sample, "\n", "k"))
  {
    assert Text.TrimLeft("\n", {'\n'}) == "";
    SampleIsJson();
    Visible("k");
    OffersItself("k", "k");
    NewlineColumnLosesKey(Sample, "\n", "k", "k");
  }

  lemma AppendedToLine(decode: string -> Option<seq<string>>, line: string, key: string)
    requires line != "" && Blank(line) && !Bracketed(line) && Text.Trim(line, {'\n'}) == line && Text.Free(line, '\n')
    requires Proper(key) && Text.Free(key, '\n')
    ensures AppendedText(decode, line, key) == line + ['\n'] + key
  {
    Text.SplitWhole(line, '\n');
    assert Existing(decode, line) == [line];
    assert !Listed([line], key);
    AddedOne([line], key);
    JoinTwo(line, key);
  }

  lemma JoinTwo(a: string, b: string)
    ensures Text.Join([a] + [b], '\n') == a + ['\n'] + b
  {
    assert ([a] + [b])[1..] == [b];
    assert Text.Join([b], '\n') == b;
  }

  lemma TrimmedBehindBlank(line: string, key: string)
    requires Blank(line) && Proper(key)
    ensures Text.TrimSpace(line + ['\n'] + key) == key
  {
    var t := line + ['\n'];
    assert Text.TrimLeft(['\n'], Text.SPACES) == [];
    TrimLeftOfConcat(line, ['\n']);
    BlankIsTrimmedAway(line);
    TrimLeftOfConcat(t, key);
    ProperEnds(key);
    assert Text.TrimLeft(key, Text.SPACES) == key;
  }

  // A blank key is lost to any appended key that is an array.
  lemma BlankLineLosesKey(decode: string -> Option<seq<string>>, line: string, key: string)
    requires line != "" && Blank(line) && Text.Trim(line, {'\n'}) == line && Text.Free(line, '\n')
    requires Proper(key) && Text.Free(key, '\n') && Bracketed(key) && decode(key).Some?
    ensures Keys(decode, line) == [line] && After(decode, line, key) == decode(key).value
  {
    Text.SplitWhole(line, '\n');
    AppendedToLine(decode, line, key);
    TrimmedBehindBlank(line, key);
  }

  lemma OneSpace(line: string, key: string)
    requires line == " " && key == "[1]"
    ensures Keys(Sample, line) == [" "] && After(Sample, line, key) == ["1"]
  {
    Visible(key);
    assert Text.TrimLeft(line, Text.SPACES) == "";
    Text.TrimmedIsFixed(line, {'\n'});
    BlankLineLosesKey(Sample, line, key);
  }

  lemma OneLine(decode: string -> Option<seq<string>>, t: string)
    requires t != "" && '!' <= t[0] <= '~' && '!' <= t[|t| - 1] <= '~' && Text.Free(t, '\n')
    requires t[0] == '[' ==> decode(t).None?
    ensures Keys(decode, t) == [t]
  {
    Visible(t);
    Text.SplitWhole(t, '\n');
  }

  // A broken array loses its keys to any key appended.
  lemma BrokenColumnLosesKeys()
    ensures Keys(Sample, "[a") == ["[a"] && After(Sample, "[a", "b") == ["b"]
  {
    Visible("[a");
    Visible("b");
    OneLine(Sample, "[a");
    OneLine(Sample, "b");
    AddedOne([], "b");
    assert [] + ["b"] == ["b"];
  }

  // Appending nothing to an array of one key stores that key as the column.
  lemma LoneKeyIsColumn(decode: string -> Option<seq<string>>, origin: string, key: string)
    requires origin != "" && key != "" && Decoded(decode, origin) == Some([key])
    ensures Keys(decode, origin) == [key] && Stored(origin, AppendedText(decode, origin, "")) == key
  {
    AddedNothing([key]);
    assert [key] + [] == [key];
  }

  lemma TwoLines()
    ensures Keys(Sample, "{\n}") == ["{", "}"]
  {
    Visible("{\n}");
    Text.SplitWhole("}", '\n');
    assert "{\n}" == "{" + ['\n'] + "}";
    Text.SplitPart("{", "}", '\n');
  }

  // A key that spans lines becomes several, even when nothing is appended.
  lemma LongKeyIsSplit()
    ensures Keys(Sample, "[{\n}]") == ["{\n}"] && After(Sample, "[{\n}]", "") == ["{", "}"]
  {
    Visible("[{\n}]");
    LoneKeyIsColumn(Sample, "[{\n}]", "{\n}");
    TwoLines();
  }

  // A lone key that is an array is taken apart, even when nothing is appended.
  lemma LoneArrayIsOpened()
    ensures Keys(Sample, "[[1]]") == ["[1]"] && After(Sample, "[[1]]", "") == ["1"]
  {
    Visible("[[1]]");
    Visible("[1]");
    LoneKeyIsColumn(Sample, "[[1]]", "[1]");
  }
}
