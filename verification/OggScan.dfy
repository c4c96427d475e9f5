/** The scan of an Ogg container for the length of an Opus stream: page headers are found by
    their capture pattern, pages are skipped by their segment tables, and the largest granule
    position wins. Page layout: section 6 of RFC 3533. Granule positions count samples at
    48 kHz: section 4 of RFC 7845. */
module OggScan {

  newtype byte = x: int | 0 <= x < 256

  // The capture pattern "OggS".
  const MAGIC: seq<byte> := [0x4F, 0x67, 0x67, 0x53]
  const HEADER := 27
  const SAMPLE_RATE := 48000.0
  const TWO63 := 0x8000_0000_0000_0000
  const TWO64 := 0x1_0000_0000_0000_0000

  function Sum(bytes: seq<byte>): nat {
    if bytes == [] then 0 else Sum(bytes[..|bytes| - 1]) + bytes[|bytes| - 1] as nat
  }

  function Unsigned(bytes: seq<byte>): nat {
    if bytes == [] then 0 else bytes[0] as nat + 256 * Unsigned(bytes[1..])
  }

  // Reinterpretation of an unsigned 64-bit number as a signed one.
  function Signed(n: int): int {
    if n >= TWO63 then n - TWO64 else n
  }

  function Max(a: int, b: int): int {
    if b > a then b else a
  }

  predicate MagicAt(file: seq<byte>, pos: nat) {
    pos + 4 <= |file| && file[pos..pos + 4] == MAGIC
  }

  function GranuleAt(file: seq<byte>, pos: nat): int
    requires pos + HEADER <= |file|
  {
    Signed(Unsigned(file[pos + 6..pos + 14]))
  }

  // Where the segment table of the header at pos ends.
  function TableEnd(file: seq<byte>, pos: nat): nat
    requires pos + HEADER <= |file|
  {
    pos + HEADER + file[pos + 26] as nat
  }

  // Where the page with its header at pos ends; possibly past the end of the file.
  function PageEnd(file: seq<byte>, pos: nat): nat
    requires pos + HEADER <= |file| && TableEnd(file, pos) <= |file|
  {
    TableEnd(file, pos) + Sum(file[pos + HEADER..TableEnd(file, pos)])
  }

  // The positions at which the scan, standing at pos, recognises page headers.
  function HeadersFrom(file: seq<byte>, pos: nat): seq<nat>
    decreases |file| - pos
  {
    if pos + HEADER > |file| then []
    else if !MagicAt(file, pos) then HeadersFrom(file, pos + 1)
    else if TableEnd(file, pos) > |file| then [pos]
    else [pos] + HeadersFrom(file, PageEnd(file, pos))
  }

  // The running maximum of the granule positions at some headers.
  function MaxGranule(best: int, file: seq<byte>, headers: seq<nat>): int
    requires forall i :: 0 <= i < |headers| ==> headers[i] + HEADER <= |file|
    decreases |headers|
  {
    if headers == [] then best
    else MaxGranule(Max(best, GranuleAt(file, headers[0])), file, headers[1..])
  }

  lemma {:induction false} HeadersFit(file: seq<byte>, pos: nat)
    ensures forall i :: 0 <= i < |HeadersFrom(file, pos)| ==>
      pos <= HeadersFrom(file, pos)[i] && HeadersFrom(file, pos)[i] + HEADER <= |file| && MagicAt(file, HeadersFrom(file, pos)[i])
    decreases |file| - pos
  {
    if pos + HEADER <= |file| {
      if !MagicAt(file, pos) {
        HeadersFit(file, pos + 1);
      } else if TableEnd(file, pos) <= |file| {
        HeadersFit(file, PageEnd(file, pos));
      }
    }
  }

  // The header whose page extends over a position, if the scan stopped there.
  predicate Inside(file: seq<byte>, header: nat, i: nat) {
    && header + HEADER <= |file| && header <= i
    && (TableEnd(file, header) <= |file| ==> i < PageEnd(file, header))
  }

  // On every byte string: a capture pattern with room for a header is passed over only when
  // it lies inside a page that the scan did recognise.
  lemma {:induction false} NoHeaderMissed(file: seq<byte>, pos: nat, i: nat)
    requires pos <= i && i + HEADER <= |file| && MagicAt(file, i)
    ensures exists h :: h in HeadersFrom(file, pos) && Inside(file, h, i)
    decreases |file| - pos
  {
    if !MagicAt(file, pos) {
      NoHeaderMissed(file, pos + 1, i);
    } else if TableEnd(file, pos) > |file| || i < PageEnd(file, pos) {
      assert pos in HeadersFrom(file, pos) && Inside(file, pos, i);
    } else {
      NoHeaderMissed(file, PageEnd(file, pos), i);
      var h :| h in HeadersFrom(file, PageEnd(file, pos)) && Inside(file, h, i);
      assert h in HeadersFrom(file, pos);
    }
  }

  // The scan with its running maximum.
  function ScanFrom(file: seq<byte>, pos: nat, best: int): int
    decreases |file| - pos
  {
    if pos + HEADER > |file| then best
    else if !MagicAt(file, pos) then ScanFrom(file, pos + 1, best)
    else
      var best' := Max(best, GranuleAt(file, pos));
      if TableEnd(file, pos) > |file| then best' else ScanFrom(file, PageEnd(file, pos), best')
  }

  lemma {:induction false} ScanIsMaxGranule(file: seq<byte>, pos: nat, best: int)
    ensures forall i :: 0 <= i < |HeadersFrom(file, pos)| ==> HeadersFrom(file, pos)[i] + HEADER <= |file|
    ensures ScanFrom(file, pos, best) == MaxGranule(best, file, HeadersFrom(file, pos))
    decreases |file| - pos
  {
    HeadersFit(file, pos);
    if pos + HEADER <= |file| {
      if !MagicAt(file, pos) {
        ScanIsMaxGranule(file, pos + 1, best);
      } else {
        var best' := Max(best, GranuleAt(file, pos));
        if TableEnd(file, pos) <= |file| {
          ScanIsMaxGranule(file, PageEnd(file, pos), best');
          assert HeadersFrom(file, pos)[1..] == HeadersFrom(file, PageEnd(file, pos));
        }
      }
    }
  }

  method AddUp(segmentTable: seq<byte>) returns (pageSize: nat)
    ensures pageSize == Sum(segmentTable)
  {
    pageSize := 0;
    for k := 0 to |segmentTable|
      invariant pageSize == Sum(segmentTable[..k])
    {
      assert segmentTable[..k + 1][..k] == segmentTable[..k];
      pageSize := pageSize + segmentTable[k] as nat;
    }
    assert segmentTable[..|segmentTable|] == segmentTable;
  }

  lemma SliceOfSlice(file: seq<byte>, start: nat, n: nat, i: nat, j: nat)
    requires i <= j <= n && start + n <= |file|
    ensures file[start..start + n][i..j] == file[start + i..start + j]
  {
    var a, b := file[start..start + n][i..j], file[start + i..start + j];
    forall k | 0 <= k < j - i ensures a[k] == b[k] {
      assert a[k] == file[start..start + n][i + k];
    }
  }

  lemma HeaderInBuffer(file: seq<byte>, start: nat)
    requires start + HEADER <= |file|
    ensures var buf := file[start..start + HEADER];
      && (buf[0..4] == MAGIC <==> MagicAt(file, start))
      && Signed(Unsigned(buf[6..14])) == GranuleAt(file, start)
      && HEADER + start + buf[26] as nat == TableEnd(file, start)
  {
    SliceOfSlice(file, start, HEADER, 0, 4);
    SliceOfSlice(file, start, HEADER, 6, 14);
  }

  lemma ScanStep(file: seq<byte>, pos: nat, best: int)
    requires pos + HEADER <= |file|
    ensures !MagicAt(file, pos) ==> ScanFrom(file, pos, best) == ScanFrom(file, pos + 1, best)
    ensures MagicAt(file, pos) ==>
      var best' := Max(best, GranuleAt(file, pos));
      ScanFrom(file, pos, best)
        == if TableEnd(file, pos) > |file| then best' else ScanFrom(file, PageEnd(file, pos), best')
  {}

  // One turn of the reader loop. Reads are full reads; the file position moves back by 26 of
  // the 27 bytes read when the pattern is absent, and forward over segment table and payload
  // when it is present.
  method ReadPage(r: array<byte>, start: nat, best: int) returns (pos: nat, totalGranulePos: int, stop: bool)
    requires r.Length - start >= HEADER
    ensures pos > start
    ensures ScanFrom(r[..], start, best)
      == if stop then totalGranulePos else ScanFrom(r[..], pos, totalGranulePos)
  {
    ghost var file := r[..];
    pos, totalGranulePos, stop := start, best, false;
    var buf := r[pos..pos + HEADER];
    pos := pos + HEADER;
    assert buf == file[start..start + HEADER];
    HeaderInBuffer(file, start);
    ScanStep(file, start, best);
    if buf[0..4] != MAGIC {
      pos := pos - 26;
      return;
    }
    var granulePos := Signed(Unsigned(buf[6..14]));
    if granulePos > totalGranulePos {
      totalGranulePos := granulePos;
    }
    var numSegments := buf[26] as nat;
    if r.Length - pos < numSegments {
      stop := true;
      return;
    }
    var segmentTable := r[pos..pos + numSegments];
    assert segmentTable == file[start + HEADER..TableEnd(file, start)];
    pos := pos + numSegments;
    var pageSize := AddUp(segmentTable);
    pos := pos + pageSize;
  }

  method OpusDuration(r: array<byte>) returns (duration: real)
    ensures forall i :: 0 <= i < |HeadersFrom(r[..], 0)| ==> HeadersFrom(r[..], 0)[i] + HEADER <= r.Length
    ensures duration == MaxGranule(0, r[..], HeadersFrom(r[..], 0)) as real / 48000.0
  {
    ScanIsMaxGranule(r[..], 0, 0);
    var pos: nat := 0;
    var totalGranulePos := 0;
    var stop := false;
    while !stop && r.Length - pos >= HEADER
      invariant ScanFrom(r[..], 0, 0) == if stop then totalGranulePos else ScanFrom(r[..], pos, totalGranulePos)
      decreases !stop, r.Length - pos
    {
      pos, totalGranulePos, stop := ReadPage(r, pos, totalGranulePos);
    }
    duration := totalGranulePos as real / SAMPLE_RATE;
  }

  // ---------- well-formed pages ----------

  // The fields of a page: stream structure version, header type, granule position, then
  // serial number, sequence number and checksum (12 bytes), segment table and payload.
  datatype Page = Page(version: byte, kind: byte, granule: int, ids: seq<byte>, segments: seq<byte>, payload: seq<byte>)

  predicate WellFormed(p: Page) {
    && -TWO63 <= p.granule < TWO63
    && |p.ids| == 12
    && |p.segments| <= 255
    && |p.payload| == Sum(p.segments)
  }

  function LittleEndian(n: nat, width: nat): (bytes: seq<byte>)
    ensures |bytes| == width
  {
    if width == 0 then [] else [(n % 256) as byte] + LittleEndian(n / 256, width - 1)
  }

  function Pow256(k: nat): nat {
    if k == 0 then 1 else 256 * Pow256(k - 1)
  }

  lemma {:induction false} UnsignedOfLittleEndian(n: nat, width: nat)
    requires n < Pow256(width)
    ensures Unsigned(LittleEndian(n, width)) == n
  {
    if width > 0 {
      UnsignedOfLittleEndian(n / 256, width - 1);
      assert LittleEndian(n, width)[1..] == LittleEndian(n / 256, width - 1);
    }
  }

  // Two's complement in 64 bits.
  function Wrapped(granule: int): nat
    requires -TWO63 <= granule < TWO63
  {
    if granule < 0 then granule + TWO64 else granule
  }

  lemma GranuleRoundTrip(granule: int)
    requires -TWO63 <= granule < TWO63
    ensures Signed(Unsigned(LittleEndian(Wrapped(granule), 8))) == granule
  {
    assert Pow256(8) == TWO64 by {
      assert Pow256(4) == 0x1_0000_0000;
    }
    UnsignedOfLittleEndian(Wrapped(granule), 8);
  }

  function Encode(p: Page): seq<byte>
    requires WellFormed(p)
  {
    MAGIC + [p.version, p.kind] + LittleEndian(Wrapped(p.granule), 8) + p.ids
      + [|p.segments| as byte] + p.segments + p.payload
  }

  function Length(p: Page): nat {
    HEADER + |p.segments| + |p.payload|
  }

  function Stream(pages: seq<Page>): seq<byte>
    requires forall i :: 0 <= i < |pages| ==> WellFormed(pages[i])
  {
    if pages == [] then [] else Encode(pages[0]) + Stream(pages[1..])
  }

  // The offsets of the pages, for a stream starting at pos, whose headers lie in full before end.
  function Offsets(pos: nat, pages: seq<Page>, end: nat): seq<nat>
    decreases |pages|
  {
    if pages == [] || pos + HEADER > end then []
    else [pos] + Offsets(pos + Length(pages[0]), pages[1..], end)
  }

  // The granule positions of the same pages.
  function Granules(pos: nat, pages: seq<Page>, end: nat): seq<int>
    decreases |pages|
  {
    if pages == [] || pos + HEADER > end then []
    else [pages[0].granule] + Granules(pos + Length(pages[0]), pages[1..], end)
  }

  function MaxOf(best: int, values: seq<int>): int
    decreases |values|
  {
    if values == [] then best else MaxOf(Max(best, values[0]), values[1..])
  }

  lemma EncodedFields(p: Page)
    requires WellFormed(p)
    ensures var e := Encode(p);
      && |e| == Length(p)
      && e[0..4] == MAGIC
      && e[6..14] == LittleEndian(Wrapped(p.granule), 8)
      && e[26] as nat == |p.segments|
      && e[HEADER..HEADER + |p.segments|] == p.segments
  {}

  lemma SameSlice(file: seq<byte>, pos: nat, page: seq<byte>, tail: seq<byte>, i: nat, j: nat)
    requires pos <= |file| && file[pos..] <= page + tail
    requires i <= j <= |page| && pos + j <= |file|
    ensures file[pos + i..pos + j] == page[i..j]
  {
    assert file[pos + i..pos + j] == file[pos..][i..j] == (page + tail)[i..j];
  }

  // A file that continues at pos with the beginning of a page shows that page's fields.
  lemma PageAt(file: seq<byte>, pos: nat, p: Page, tail: seq<byte>)
    requires WellFormed(p) && pos + HEADER <= |file|
    requires file[pos..] <= Encode(p) + tail
    ensures MagicAt(file, pos) && GranuleAt(file, pos) == p.granule
    ensures TableEnd(file, pos) == pos + HEADER + |p.segments|
    ensures TableEnd(file, pos) <= |file| ==> PageEnd(file, pos) == pos + Length(p)
  {
    EncodedFields(p);
    GranuleRoundTrip(p.granule);
    var e := Encode(p);
    SameSlice(file, pos, e, tail, 0, 4);
    SameSlice(file, pos, e, tail, 6, 14);
    SameSlice(file, pos, e, tail, 26, 27);
    assert file[pos + 26] == file[pos + 26..pos + 27][0] == e[26];
    if TableEnd(file, pos) <= |file| {
      SameSlice(file, pos, e, tail, HEADER, HEADER + |p.segments|);
    }
  }

  lemma NextPage(file: seq<byte>, pos: nat, page: seq<byte>, tail: seq<byte>)
    requires pos + |page| <= |file| && file[pos..] <= page + tail
    ensures file[pos + |page|..] <= tail
  {
    assert file[pos + |page|..] == file[pos..][|page|..];
  }

  // What a scan standing at pos sees of the pages, as far as the file reaches.
  predicate Shows(file: seq<byte>, pos: nat, pages: seq<Page>)
    decreases |pages|
  {
    if pages == [] then pos >= |file|
    else pos + HEADER <= |file| ==>
      && MagicAt(file, pos) && GranuleAt(file, pos) == pages[0].granule
      && var next := pos + Length(pages[0]);
      && TableEnd(file, pos) <= next
      && (TableEnd(file, pos) <= |file| ==> PageEnd(file, pos) == next)
      && (next <= |file| ==> Shows(file, next, pages[1..]))
  }

  lemma {:induction false} StreamShows(file: seq<byte>, pos: nat, pages: seq<Page>)
    requires forall i :: 0 <= i < |pages| ==> WellFormed(pages[i])
    requires pos <= |file| && file[pos..] <= Stream(pages)
    ensures Shows(file, pos, pages)
    decreases |pages|
  {
    if pages != [] && pos + HEADER <= |file| {
      var p, rest := pages[0], pages[1..];
      PageAt(file, pos, p, Stream(rest));
      EncodedFields(p);
      if pos + Length(p) <= |file| {
        NextPage(file, pos, Encode(p), Stream(rest));
        StreamShows(file, pos + Length(p), rest);
      }
    }
  }

  lemma NothingPastTheEnd(file: seq<byte>, pos: nat, pages: seq<Page>)
    requires pos > |file|
    ensures HeadersFrom(file, pos) == [] && Offsets(pos, pages, |file|) == [] && Granules(pos, pages, |file|) == []
  {}

  // Standing at a page boundary, the scan stops at exactly the remaining page boundaries,
  // whatever the payloads contain and wherever the file is cut off.
  lemma {:induction false} StopsAtPages(file: seq<byte>, pos: nat, pages: seq<Page>)
    requires Shows(file, pos, pages)
    ensures HeadersFrom(file, pos) == Offsets(pos, pages, |file|)
    decreases |pages|
  {
    if pages != [] && pos + HEADER <= |file| {
      var next := pos + Length(pages[0]);
      if next <= |file| {
        StopsAtPages(file, next, pages[1..]);
      } else {
        NothingPastTheEnd(file, next, pages[1..]);
      }
    }
  }

  lemma {:induction false} GranulesAtOffsets(file: seq<byte>, pos: nat, pages: seq<Page>, best: int)
    requires Shows(file, pos, pages)
    ensures forall i :: 0 <= i < |Offsets(pos, pages, |file|)| ==> Offsets(pos, pages, |file|)[i] + HEADER <= |file|
    ensures MaxGranule(best, file, Offsets(pos, pages, |file|)) == MaxOf(best, Granules(pos, pages, |file|))
    decreases |pages|
  {
    if pages != [] && pos + HEADER <= |file| {
      var rest := pages[1..];
      var next := pos + Length(pages[0]);
      if next <= |file| {
        GranulesAtOffsets(file, next, rest, Max(best, pages[0].granule));
      } else {
        NothingPastTheEnd(file, next, rest);
      }
      assert Offsets(pos, pages, |file|)[1..] == Offsets(next, rest, |file|);
      assert Granules(pos, pages, |file|)[1..] == Granules(next, rest, |file|);
    }
  }

  // Bytes before the first capture pattern are skipped.
  lemma {:induction false} SkipsPrefix(file: seq<byte>, pos: nat, start: nat)
    requires pos <= start <= |file|
    requires forall i :: pos <= i < start ==> !MagicAt(file, i)
    ensures HeadersFrom(file, pos) == HeadersFrom(file, start)
    decreases start - pos
  {
    if pos < start {
      SkipsPrefix(file, pos + 1, start);
    }
  }

  // The whole file: any bytes without a capture pattern, then the first n bytes of a
  // concatenation of well-formed pages. The scan stops at exactly the headers that lie in
  // full inside the file, and yields the largest granule position among them, or 0.
  lemma ScanFindsExactlyThePages(prefix: seq<byte>, pages: seq<Page>, n: nat)
    requires forall i :: 0 <= i < |pages| ==> WellFormed(pages[i])
    requires n <= |Stream(pages)|
    requires forall i :: 0 <= i < |prefix| ==> !MagicAt(prefix + Stream(pages)[..n], i)
    ensures var file := prefix + Stream(pages)[..n];
      && HeadersFrom(file, 0) == Offsets(|prefix|, pages, |file|)
      && (forall i :: 0 <= i < |HeadersFrom(file, 0)| ==> HeadersFrom(file, 0)[i] + HEADER <= |file|)
      && MaxGranule(0, file, HeadersFrom(file, 0)) == MaxOf(0, Granules(|prefix|, pages, |file|))
  {
    var file := prefix + Stream(pages)[..n];
    assert file[|prefix|..] == Stream(pages)[..n];
    SkipsPrefix(file, 0, |prefix|);
    StreamShows(file, |prefix|, pages);
    StopsAtPages(file, |prefix|, pages);
    GranulesAtOffsets(file, |prefix|, pages, 0);
  }

  function AllGranules(pages: seq<Page>): seq<int> {
    if pages == [] then [] else [pages[0].granule] + AllGranules(pages[1..])
  }

  lemma {:induction false} AllGranulesAt(pages: seq<Page>)
    ensures |AllGranules(pages)| == |pages| && forall i :: 0 <= i < |pages| ==> AllGranules(pages)[i] == pages[i].granule
  {
    if pages != [] {
      AllGranulesAt(pages[1..]);
    }
  }

  lemma {:induction false} AllPagesFit(pos: nat, pages: seq<Page>, end: nat)
    requires forall i :: 0 <= i < |pages| ==> WellFormed(pages[i])
    requires end == pos + |Stream(pages)|
    ensures Granules(pos, pages, end) == AllGranules(pages)
    decreases |pages|
  {
    if pages != [] {
      EncodedFields(pages[0]);
      AllPagesFit(pos + Length(pages[0]), pages[1..], end);
    }
  }

  // MaxOf is the largest of its arguments.
  lemma {:induction false} MaxOfIsLargest(best: int, values: seq<int>)
    ensures MaxOf(best, values) == best || MaxOf(best, values) in values
    ensures MaxOf(best, values) >= best && forall i :: 0 <= i < |values| ==> MaxOf(best, values) >= values[i]
    decreases |values|
  {
    if values != [] {
      MaxOfIsLargest(Max(best, values[0]), values[1..]);
      forall i | 0 <= i < |values| ensures MaxOf(best, values) >= values[i] {
        if i > 0 {
          assert values[i] == values[1..][i - 1];
        }
      }
    }
  }

  // A file that is not cut off: the duration is the largest of 0 and all granule positions.
  lemma CompleteStream(prefix: seq<byte>, pages: seq<Page>)
    requires forall i :: 0 <= i < |pages| ==> WellFormed(pages[i])
    requires forall i :: 0 <= i < |prefix| ==> !MagicAt(prefix + Stream(pages), i)
    ensures var file := prefix + Stream(pages);
      && (forall i :: 0 <= i < |HeadersFrom(file, 0)| ==> HeadersFrom(file, 0)[i] + HEADER <= |file|)
      && var max := MaxGranule(0, file, HeadersFrom(file, 0));
      && max == MaxOf(0, AllGranules(pages)) && max >= 0 && (max == 0 || exists i :: 0 <= i < |pages| && max == pages[i].granule)
      && (forall i :: 0 <= i < |pages| ==> max >= pages[i].granule)
  {
    var n := |Stream(pages)|;
    assert Stream(pages)[..n] == Stream(pages);
    ScanFindsExactlyThePages(prefix, pages, n);
    AllPagesFit(|prefix|, pages, |prefix| + n);
    MaxOfIsLargest(0, AllGranules(pages));
    AllGranulesAt(pages);
  }
}
