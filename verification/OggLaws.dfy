/** The bytes of an Ogg page and the numbers in them, told byte by byte (section 6 of RFC 3533). */
module OggLaws {
  import opened OggScan

  // Lacing values are added up.
  lemma {:induction false} SumLaw(a: seq<byte>, b: seq<byte>)
    ensures Sum([]) == 0 && (|b| == 1 ==> Sum(b) == b[0] as nat)
    ensures Sum(a + b) == Sum(a) + Sum(b)
  {
    if b == [] {
      assert a + b == a;
    } else {
      var n := |b| - 1;
      SumLaw(a, b[..n]);
      assert (a + b)[..|a + b| - 1] == a + b[..n];
    }
  }

  lemma UnsignedStep(bytes: seq<byte>)
    requires bytes != []
    ensures Unsigned(bytes) == bytes[0] as nat + 256 * Unsigned(bytes[1..])
  {}

  // Eight bytes make a number, the first being the least significant.
  lemma UnsignedLaw(b: seq<byte>)
    requires |b| == 8
    ensures Unsigned(b)
      == b[0] as nat + 0x100 * b[1] as nat + 0x1_0000 * b[2] as nat + 0x100_0000 * b[3] as nat + 0x1_0000_0000 * b[4] as nat
         + 0x100_0000_0000 * b[5] as nat + 0x1_0000_0000_0000 * b[6] as nat + 0x100_0000_0000_0000 * b[7] as nat
  {
    UnsignedStep(b);
    UnsignedStep(b[1..]);
    UnsignedStep(b[2..]);
    UnsignedStep(b[3..]);
    UnsignedStep(b[4..]);
    UnsignedStep(b[5..]);
    UnsignedStep(b[6..]);
    UnsignedStep(b[7..]);
    assert b[1..][1..] == b[2..] && b[2..][1..] == b[3..] && b[3..][1..] == b[4..] && b[4..][1..] == b[5..];
    assert b[5..][1..] == b[6..] && b[6..][1..] == b[7..] && b[7..][1..] == [];
  }

  // The granule position is the number in bytes 6 to 13 of the header, in two's complement.
  lemma GranuleLaw(file: seq<byte>, pos: nat)
    requires pos + 27 <= |file|
    ensures var n := Unsigned(file[pos + 6..pos + 14]);
      GranuleAt(file, pos) == if file[pos + 13] >= 128 then n - 0x1_0000_0000_0000_0000 else n
  {
    UnsignedLaw(file[pos + 6..pos + 14]);
  }

  // A page is "OggS", version, type, granule position, twelve bytes of ids, the number of segments,
  // the segment table and the payload, which is as long as the table says.
  lemma PageLayout(p: Page)
    requires WellFormed(p)
    ensures var e, n := Encode(p), |p.segments|;
      && |e| == 27 + n + |p.payload| && |p.payload| == Sum(p.segments)
      && e[..6] == [0x4F, 0x67, 0x67, 0x53, p.version, p.kind]
      && Signed(Unsigned(e[6..14])) == p.granule
      && e[14..26] == p.ids && e[26] as nat == n
      && e[27..27 + n] == p.segments && e[27 + n..] == p.payload
  {
    EncodedFields(p);
    GranuleRoundTrip(p.granule);
  }

  // A header is recognised by exactly these four bytes.
  lemma MagicLaw(file: seq<byte>, pos: nat)
    requires pos + 4 <= |file|
    ensures MagicAt(file, pos)
      <==> file[pos] == 0x4F && file[pos + 1] == 0x67 && file[pos + 2] == 0x67 && file[pos + 3] == 0x53
  {
    var four := file[pos..pos + 4];
    assert four[0] == file[pos] && four[1] == file[pos + 1] && four[2] == file[pos + 2] && four[3] == file[pos + 3];
  }

  // The page behind a header ends behind its payload.
  lemma PageEndLaw(file: seq<byte>, pos: nat)
    requires pos + 27 <= |file| && pos + 27 + file[pos + 26] as nat <= |file|
    ensures var table := pos + 27 + file[pos + 26] as nat;
      PageEnd(file, pos) == table + Sum(file[pos + 27..table])
  {}
}
