/** Texts and the key column, told character by character. */
module TextLaws {
  import opened Wrappers
  import opened KeyText
  import KeyAppend
  import ModelNames
  import Text

  // ---------- trimming ----------

  predicate AllIn(s: string, cut: set<char>) {
    forall i :: 0 <= i < |s| ==> s[i] in cut
  }

  lemma {:induction false} TrimLeftLaw(s: string, cut: set<char>) returns (i: nat)
    ensures i <= |s| && Text.TrimLeft(s, cut) == s[i..] && AllIn(s[..i], cut) && (i < |s| ==> s[i] !in cut)
  {
    if s != [] && s[0] in cut {
      var k := TrimLeftLaw(s[1..], cut);
      i := k + 1;
      assert s[1..][k..] == s[i..];
      assert forall j :: 0 <= j < k ==> s[1..][..k][j] in cut && s[1..][..k][j] == s[j + 1];
      assert forall j :: 1 <= j < i ==> s[j] == s[1..][..k][j - 1];
    } else {
      i := 0;
    }
  }

  lemma {:induction false} TrimRightLaw(s: string, cut: set<char>) returns (j: nat)
    ensures j <= |s| && Text.TrimRight(s, cut) == s[..j] && AllIn(s[j..], cut) && (j > 0 ==> s[j - 1] !in cut)
  {
    if s != [] && s[|s| - 1] in cut {
      var n := |s| - 1;
      j := TrimRightLaw(s[..n], cut);
      assert s[..n][..j] == s[..j];
      assert forall k :: j <= k < n ==> s[k] == s[..n][j..][k - j];
    } else {
      j := |s|;
    }
  }

  // Trimming leaves the part between the first and the last character that is not in the cut set.
  lemma TrimLaw(s: string, cut: set<char>) returns (i: nat, j: nat)
    ensures i <= j <= |s| && Text.Trim(s, cut) == s[i..j] && AllIn(s[..i], cut) && AllIn(s[j..], cut)
    ensures i < j ==> s[i] !in cut && s[j - 1] !in cut
  {
    i := TrimLeftLaw(s, cut);
    var k := TrimRightLaw(s[i..], cut);
    j := i + k;
    assert s[i..][..k] == s[i..j] && s[i..][k..] == s[j..];
    if i < j {
      assert s[i..][k - 1] == s[j - 1];
    }
  }

  // ---------- splitting ----------

  // The parts have no separator and joined with separators they are the text.
  lemma {:induction false} SplitLaw(s: string, sep: char)
    ensures Text.AllFree(Text.Split(s, sep), sep) && Text.Join(Text.Split(s, sep), sep) == s
  {
    Text.SplitFree(s, sep);
    if s != [] {
      var parts, rest := Text.Split(s, sep), Text.Split(s[1..], sep);
      SplitLaw(s[1..], sep);
      assert s == [s[0]] + s[1..];
      if s[0] == sep {
        assert parts[1..] == rest;
      } else if |rest| > 1 {
        assert parts[1..] == rest[1..];
      }
    }
  }

  // Joining puts one separator between two parts.
  lemma JoinLaw(parts: seq<string>, sep: char)
    ensures |parts| == 0 ==> Text.Join(parts, sep) == []
    ensures |parts| == 1 ==> Text.Join(parts, sep) == parts[0]
    ensures |parts| >= 2 ==> Text.Join(parts, sep) == parts[0] + ([sep] + Text.Join(parts[1..], sep))
  {
    if |parts| >= 2 {
      assert parts[0] + [sep] + Text.Join(parts[1..], sep) == parts[0] + ([sep] + Text.Join(parts[1..], sep));
    }
  }

  // ---------- the key column ----------

  // A column that looks like an array and decodes holds the elements; any other holds its lines
  // without newlines at the ends; an empty one holds no key.
  lemma KeysLaw(decode: string -> Option<seq<string>>, text: string)
    ensures var t := Text.TrimSpace(text);
      var spelled := t != "" && t[0] == '[' && decode(t).Some?;
      && (text == "" ==> Keys(decode, text) == [])
      && (spelled ==> Keys(decode, text) == decode(t).value)
      && (text != "" && !spelled ==> Keys(decode, text) == Text.Split(Text.Trim(text, {'\n'}), '\n'))
  {
    if text == "" {
      assert Text.TrimSpace(text) == "";
    }
  }

  // The number of keys that an update counts: an array without elements is counted by lines.
  lemma CountedLaw(decode: string -> Option<seq<string>>, text: string)
    ensures Keys(decode, text) != [] || text == "" ==> CountedKeys(decode, text) == Keys(decode, text)
    ensures Keys(decode, text) == [] && text != "" ==> CountedKeys(decode, text) == Text.Split(Text.Trim(text, {'\n'}), '\n')
  {}

  // What an append hands to the update: the input itself for an empty column, otherwise the keys it
  // reads from the column and behind them the input's lines, trimmed, that are not blank, not
  // repeated and not listed, all joined by newlines.
  lemma AppendLaw(decode: string -> Option<seq<string>>, origin: string, raw: string)
    ensures origin == "" ==> KeyAppend.AppendedText(decode, origin, raw) == raw
    ensures origin != "" ==>
      var t := Text.TrimSpace(origin);
      var existing := if t != "" && t[0] == '[' then (if decode(t).Some? then decode(t).value else [])
                      else Text.Split(Text.Trim(origin, {'\n'}), '\n');
      KeyAppend.AppendedText(decode, origin, raw)
        == Text.Join(existing + ModelNames.Subtract(ModelNames.Clean(Text.Split(raw, '\n')), existing), '\n')
  {}

  // An update without a key text keeps the stored one.
  lemma StoredLaw(origin: string, text: string)
    ensures text != "" ==> KeyAppend.Stored(origin, text) == text
    ensures text == "" ==> KeyAppend.Stored(origin, text) == origin
  {}
}
