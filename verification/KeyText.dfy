/** The key column of a channel: one text that holds either a JSON array of keys or one
    key per line. JSON decoding is the function `decode`, which answers None for a text
    that is not an array. */
module KeyText {
  import opened Wrappers
  import Text

  // The text starts with '[' once the white space around it is dropped.
  predicate Bracketed(text: string) {
    var t := Text.TrimSpace(text);
    t != "" && t[0] == '['
  }

  // The array that a text spells, if it starts like one and decodes.
  function Decoded(decode: string -> Option<seq<string>>, text: string): Option<seq<string>> {
    if Bracketed(text) then decode(Text.TrimSpace(text)) else None
  }

  // Channel.GetKeys.
  function Keys(decode: string -> Option<seq<string>>, text: string): seq<string> {
    var spelled := Decoded(decode, text);
    if text == "" then []
    else if spelled.Some? then spelled.value
    else Text.ParseList(text, '\n')
  }

  // The keys that Channel.Update counts: an empty array is read again as lines.
  function CountedKeys(decode: string -> Option<seq<string>>, text: string): seq<string> {
    if text != "" && Keys(decode, text) == [] then Text.ParseList(text, '\n') else Keys(decode, text)
  }

  // A key that fills exactly one line and cannot be taken for the start of an array.
  predicate Plain(key: string) {
    key != "" && Text.Free(key, '\n') && !Bracketed(key)
  }

  predicate AllPlain(keys: seq<string>) {
    forall i :: 0 <= i < |keys| ==> Plain(keys[i])
  }

  lemma BracketedIsFirst(text: string)
    ensures Bracketed(text) <==> var t := Text.TrimLeft(text, Text.SPACES); t != [] && t[0] == '['
  {
    var t := Text.TrimLeft(text, Text.SPACES);
    Text.TrimLeftEnds(text, Text.SPACES);
    FirstStays(t);
  }

  lemma {:induction false} FirstStays(t: string)
    requires t != [] ==> t[0] !in Text.SPACES
    ensures var r := Text.TrimRight(t, Text.SPACES); (r == [] <==> t == []) && (t != [] ==> r[0] == t[0])
  {
    if t != [] && t[|t| - 1] in Text.SPACES {
      FirstStays(t[..|t| - 1]);
    }
  }

  lemma {:induction false} TrimLeftOfConcat(s: string, rest: string)
    ensures var t := Text.TrimLeft(s, Text.SPACES);
      Text.TrimLeft(s + rest, Text.SPACES) == if t != [] then t + rest else Text.TrimLeft(rest, Text.SPACES)
  {
    if s == [] {
      assert s + rest == rest;
    } else if s[0] in Text.SPACES {
      assert (s + rest)[1..] == s[1..] + rest;
      TrimLeftOfConcat(s[1..], rest);
    }
  }

  predicate Blank(s: string) {
    Text.TrimSpace(s) == ""
  }

  lemma BlankIsTrimmedAway(s: string)
    ensures Blank(s) <==> Text.TrimLeft(s, Text.SPACES) == []
  {
    Text.TrimLeftEnds(s, Text.SPACES);
    FirstStays(Text.TrimLeft(s, Text.SPACES));
  }

  // The first line that is not blank starts with '['.
  predicate Opens(lines: seq<string>) {
    lines != [] && if Blank(lines[0]) then Opens(lines[1..]) else Bracketed(lines[0])
  }

  // Lines look like an array together exactly when the first one that is not blank does.
  lemma {:induction false} JoinedOpens(lines: seq<string>)
    ensures Bracketed(Text.Join(lines, '\n')) <==> Opens(lines)
  {
    if |lines| == 1 {
      assert Blank(lines[0]) ==> !Bracketed(lines[0]);
    } else if |lines| > 1 {
      var t, rest := Text.Join(lines, '\n'), Text.Join(lines[1..], '\n');
      JoinedOpens(lines[1..]);
      assert t == lines[0] + (['\n'] + rest);
      BracketedIsFirst(t);
      BracketedIsFirst(rest);
      BracketedIsFirst(lines[0]);
      BlankIsTrimmedAway(lines[0]);
      TrimLeftOfConcat(lines[0], ['\n'] + rest);
      TrimLeftOfConcat(['\n'], rest);
      assert Text.TrimLeft(['\n'], Text.SPACES) == [];
    }
  }

  predicate AllBlank(lines: seq<string>) {
    forall i :: 0 <= i < |lines| ==> Blank(lines[i])
  }

  lemma {:induction false} OpensConcat(a: seq<string>, b: seq<string>)
    ensures Opens(a + b) <==> if AllBlank(a) then Opens(b) else Opens(a)
  {
    if a == [] {
      assert a + b == b;
    } else {
      assert (a + b)[1..] == a[1..] + b;
      OpensConcat(a[1..], b);
      assert AllBlank(a) <==> Blank(a[0]) && AllBlank(a[1..]);
    }
  }

  lemma {:induction false} PlainOpensNothing(lines: seq<string>)
    requires AllPlain(lines)
    ensures !Opens(lines)
  {
    if lines != [] {
      assert Plain(lines[0]);
      assert AllPlain(lines[1..]);
      PlainOpensNothing(lines[1..]);
    }
  }

  // Lines none of which looks like an array never look like one together.
  lemma JoinedIsPlain(keys: seq<string>)
    requires AllPlain(keys)
    ensures !Bracketed(Text.Join(keys, '\n'))
  {
    JoinedOpens(keys);
    PlainOpensNothing(keys);
  }

  // Plain keys stored one per line are read back as they were, in the same order.
  lemma KeysRoundTrip(decode: string -> Option<seq<string>>, keys: seq<string>)
    requires AllPlain(keys)
    ensures Keys(decode, Text.Join(keys, '\n')) == keys
    ensures keys != [] ==> Text.Join(keys, '\n') != ""
  {
    JoinedIsPlain(keys);
    if keys != [] {
      assert Plain(keys[0]) && Plain(keys[|keys| - 1]);
      Text.JoinEnds(keys, '\n');
    }
    forall i | 0 <= i < |keys| ensures Text.Free(keys[i], '\n') {
      assert Plain(keys[i]);
    }
    Text.RoundTrip(keys, '\n');
  }
}
