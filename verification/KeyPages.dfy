/** The paged status listing of a multi-key channel. */
module KeyPages {
  import opened Wrappers
  import opened MultiKey

  const DEFAULT_PAGE_SIZE: nat := 50

  datatype KeyStatus = KeyStatus(index: nat, status: int, time: int, reason: string, preview: string)

  const PREVIEW: nat := 10

  // Enough of a key to recognise it.
  function Preview(key: string): string {
    if |key| > PREVIEW then key[..PREVIEW] + "..." else key
  }

  datatype Page = Page(keys: seq<KeyStatus>, total: nat, page: nat, pageSize: nat, totalPages: nat,
                       enabled: nat, manual: nat, auto: nat)

  // Time and reason are shown for keys that are not enabled.
  function Shown(r: Rec, i: nat): KeyStatus {
    if r.status == ENABLED then KeyStatus(i, r.status, 0, "", Preview(r.key))
    else
      KeyStatus(i, r.status, if r.time.Some? then r.time.value else 0, if r.reason.Some? then r.reason.value else "", Preview(r.key))
  }

  function Listing(recs: seq<Rec>): seq<KeyStatus> {
    seq(|recs|, i requires 0 <= i < |recs| => Shown(recs[i], i))
  }

  predicate Wanted(k: KeyStatus, want: Option<int>) {
    want.Some? ==> k.status == want.value
  }

  function Matching(list: seq<KeyStatus>, want: Option<int>): seq<KeyStatus> {
    if list == [] then []
    else
      var last := list[|list| - 1];
      Matching(list[..|list| - 1], want) + if Wanted(last, want) then [last] else []
  }

  function Min(a: int, b: int): int {
    if a < b then a else b
  }

  // Page p, counted from 1.
  function Slice(list: seq<KeyStatus>, p: nat, size: nat): seq<KeyStatus>
    requires p >= 1
  {
    assert (p - 1) * size <= p * size;
    list[Min((p - 1) * size, |list|)..Min(p * size, |list|)]
  }

  // The number of pages: the fewest that hold everything, and at least one.
  ghost predicate Covers(total: nat, size: nat, pages: nat) {
    pages >= 1 && total <= pages * size && (pages == 1 || (pages - 1) * size < total)
  }

  method CountPages(total: nat, size: nat) returns (pages: nat)
    requires size >= 1
    ensures Covers(total, size, pages)
  {
    pages := (total + size - 1) / size;
    assert total + size - 1 == pages * size + (total + size - 1) % size;
    assert (pages - 1) * size == pages * size - size;
    if pages == 0 {
      pages := 1;
    }
  }

  method ListAll(keys: seq<string>, m: Marks) returns (list: seq<KeyStatus>, enabled: nat, manual: nat, auto: nat)
    ensures list == Listing(RecsOf(keys, m))
    ensures enabled == Count(RecsOf(keys, m), ENABLED)
    ensures manual == Count(RecsOf(keys, m), MANUALLY_DISABLED)
    ensures auto == Count(RecsOf(keys, m), AUTO_DISABLED)
  {
    ghost var recs := RecsOf(keys, m);
    list, enabled, manual, auto := [], 0, 0, 0;
    for i := 0 to |keys|
      invariant list == Listing(recs[..i])
      invariant enabled == Count(recs[..i], ENABLED)
      invariant manual == Count(recs[..i], MANUALLY_DISABLED)
      invariant auto == Count(recs[..i], AUTO_DISABLED)
    {
      assert recs[..i + 1][..i] == recs[..i];
      var status := StatusAt(m.status, i);
      match status {
        case 1 => enabled := enabled + 1;
        case 2 => manual := manual + 1;
        case 3 => auto := auto + 1;
        case _ =>
      }
      var time, reason := 0, "";
      if status != ENABLED {
        if i in m.time {
          time := m.time[i];
        }
        if i in m.reason {
          reason := m.reason[i];
        }
      }
      var preview := keys[i];
      if |preview| > PREVIEW {
        preview := preview[..PREVIEW] + "...";
      }
      list := list + [KeyStatus(i, status, time, reason, preview)];
    }
    assert recs[..|keys|] == recs;
  }

  method Filter(list: seq<KeyStatus>, want: Option<int>) returns (kept: seq<KeyStatus>)
    ensures kept == Matching(list, want)
  {
    if want.None? {
      MatchingAll(list);
      return list;
    }
    kept := [];
    for i := 0 to |list|
      invariant kept == Matching(list[..i], want)
    {
      assert list[..i + 1][..i] == list[..i];
      if list[i].status == want.value {
        kept := kept + [list[i]];
      }
    }
    assert list[..|list|] == list;
  }

  lemma {:induction false} MatchingAll(list: seq<KeyStatus>)
    ensures Matching(list, None) == list
  {
    if list != [] {
      MatchingAll(list[..|list| - 1]);
    }
  }

  method GetKeyStatus(keys: seq<string>, m: Marks, page: int, pageSize: int, want: Option<int>) returns (p: Page)
    ensures p.pageSize == if pageSize <= 0 then DEFAULT_PAGE_SIZE else pageSize
    ensures var list := Matching(Listing(RecsOf(keys, m)), want);
      && p.total == |list|
      && Covers(p.total, p.pageSize, p.totalPages)
      && p.page == Min(if page <= 0 then 1 else page, p.totalPages)
      && p.keys == Slice(list, p.page, p.pageSize)
    ensures var recs := RecsOf(keys, m);
      p.enabled == Count(recs, ENABLED) && p.manual == Count(recs, MANUALLY_DISABLED) && p.auto == Count(recs, AUTO_DISABLED)
  {
    var current := if page <= 0 then 1 else page;
    var size := if pageSize <= 0 then DEFAULT_PAGE_SIZE else pageSize;
    var list, enabled, manual, auto := ListAll(keys, m);
    var kept := Filter(list, want);
    var pages := CountPages(|kept|, size);
    if current > pages {
      current := pages;
    }
    var shown := TakePage(kept, current, size);
    p := Page(shown, |kept|, current, size, pages, enabled, manual, auto);
  }

  method TakePage(list: seq<KeyStatus>, page: nat, size: nat) returns (shown: seq<KeyStatus>)
    requires page >= 1
    ensures shown == Slice(list, page, size)
  {
    var start := (page - 1) * size;
    var end := start + size;
    assert end == page * size;
    if end > |list| {
      end := |list|;
    }
    shown := [];
    if start < |list| {
      shown := list[start..end];
    }
  }

  // ---------- the pages together ----------

  function FirstPages(list: seq<KeyStatus>, size: nat, n: nat): seq<KeyStatus> {
    if n == 0 then [] else FirstPages(list, size, n - 1) + Slice(list, n, size)
  }

  lemma {:induction false} FirstPagesArePrefix(list: seq<KeyStatus>, size: nat, n: nat)
    ensures FirstPages(list, size, n) == list[..Min(n * size, |list|)]
  {
    if n > 0 {
      FirstPagesArePrefix(list, size, n - 1);
      assert (n - 1) * size <= n * size;
    }
  }

  // The pages one after the other are the whole list: nothing twice, nothing left out.
  lemma PagesPartition(list: seq<KeyStatus>, size: nat, pages: nat)
    requires Covers(|list|, size, pages)
    ensures FirstPages(list, size, pages) == list
  {
    FirstPagesArePrefix(list, size, pages);
  }

  // Only one number of pages covers, so asking for any later page gives the last one.
  lemma PagesAreDetermined(total: nat, size: nat, a: nat, b: nat)
    requires size >= 1 && Covers(total, size, a) && Covers(total, size, b)
    ensures a == b
  {
    TimesGrows(a, b - 1, size);
    TimesGrows(b, a - 1, size);
  }

  lemma {:induction false} TimesGrows(a: int, b: int, size: nat)
    ensures a <= b ==> a * size <= b * size
  {}

  // The three counts cover all keys when every status is one of the three.
  lemma {:induction false} CountsAddUp(recs: seq<Rec>)
    requires forall i :: 0 <= i < |recs| ==> recs[i].status in {ENABLED, MANUALLY_DISABLED, AUTO_DISABLED}
    ensures Count(recs, ENABLED) + Count(recs, MANUALLY_DISABLED) + Count(recs, AUTO_DISABLED) == |recs|
  {
    if recs != [] {
      var n := |recs| - 1;
      assert forall i :: 0 <= i < n ==> recs[..n][i] == recs[i];
      CountsAddUp(recs[..n]);
    }
  }

  // Filtering by a status gives as many entries as that status is counted.
  lemma {:induction false} FilterMatchesCount(recs: seq<Rec>, status: int)
    ensures |Matching(Listing(recs), Some(status))| == Count(recs, status)
  {
    if recs != [] {
      var n := |recs| - 1;
      FilterMatchesCount(recs[..n], status);
      assert Listing(recs)[..n] == Listing(recs[..n]);
    }
  }
}
