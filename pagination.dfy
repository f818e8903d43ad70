/**
 * Result pages: the page count `(n + 9) // 10` and the page `files[start:end]`
 * with `start = (page - 1) * 10`, using Python's slice rules (negative bounds
 * count from the end, every bound is clamped to the sequence).
 */
module Pagination {
  const PAGE_SIZE: nat := 10

  function Min(a: int, b: int): int { if a <= b then a else b }

  function Max(a: int, b: int): int { if a >= b then a else b }

  /** `(total_results + 9) // 10`: the least number of 10-record pages that hold `n` records (0 for none). */
  function TotalPages(n: nat): (t: nat)
    ensures t * PAGE_SIZE >= n
    ensures t > 0 ==> (t - 1) * PAGE_SIZE < n
  {
    (n + 9) / 10
  }

  /** A Python slice bound resolved against a sequence of length `n`. */
  function PyIndex(i: int, n: nat): (j: nat)
    ensures j <= n
    ensures 0 <= i <= n ==> j == i
    ensures i > n ==> j == n
    ensures i < 0 ==> j == Max(0, n + i)
  {
    if i < 0 then (if i + n < 0 then 0 else i + n)
    else if i > n then n
    else i
  }

  /** Python's `s[start:stop]`. */
  function PySlice<T>(s: seq<T>, start: int, stop: int): (r: seq<T>)
    ensures |r| <= |s|
  {
    var lo := PyIndex(start, |s|);
    var hi := PyIndex(stop, |s|);
    if lo < hi then s[lo..hi] else []
  }

  /** The records page `page` shows: `files[(page - 1) * 10 : (page - 1) * 10 + 10]`. */
  function PageSlice<T>(files: seq<T>, page: int): seq<T>
  {
    PySlice(files, (page - 1) * PAGE_SIZE, (page - 1) * PAGE_SIZE + PAGE_SIZE)
  }

  /** Page `p >= 1` shows offsets `[(p - 1) * 10, min(n, p * 10))`, at most ten records. */
  lemma PageOffsets<T>(files: seq<T>, page: int)
    requires page >= 1
    ensures (page - 1) * PAGE_SIZE >= |files| ==> PageSlice(files, page) == []
    ensures (page - 1) * PAGE_SIZE < |files| ==>
      PageSlice(files, page) == files[(page - 1) * PAGE_SIZE..Min(|files|, page * PAGE_SIZE)]
    ensures |PageSlice(files, page)| <= PAGE_SIZE
  {
  }

  /** A page numbered from 1 is non-empty exactly when it is within the page count. */
  lemma PageNonEmptyIffCounted<T>(files: seq<T>, page: int)
    requires page >= 1
    ensures PageSlice(files, page) != [] <==> page <= TotalPages(|files|)
  {
    PageOffsets(files, page);
    var t := TotalPages(|files|);
    if page <= t {
      assert (page - 1) * PAGE_SIZE <= (t - 1) * PAGE_SIZE;
    } else {
      assert (page - 1) * PAGE_SIZE >= t * PAGE_SIZE;
    }
  }

  /** Page 0 resolves to `files[-10:0]`, which is always empty. */
  lemma PageZeroEmpty<T>(files: seq<T>)
    ensures PageSlice(files, 0) == []
  {
  }

  /**
   * Negative pages are not rejected: page -1 is `files[-20:-10]`, the ten
   * records ending ten before the end, which is non-empty once there are
   * more than ten records.
   */
  lemma MinusOnePage<T>(files: seq<T>)
    requires |files| > PAGE_SIZE
    ensures PageSlice(files, -1) == files[Max(0, |files| - 20)..|files| - PAGE_SIZE]
    ensures PageSlice(files, -1) != []
  {
  }

  /** Pages 1 to `k` shown one after another. */
  function Pages<T>(files: seq<T>, k: nat): seq<T>
  {
    if k == 0 then [] else Pages(files, k - 1) + PageSlice(files, k)
  }

  /** Pages 1 to `k` together are the first `10 * k` records. */
  lemma {:induction false} PagesArePrefix<T>(files: seq<T>, k: nat)
    ensures Pages(files, k) == files[..Min(|files|, k * PAGE_SIZE)]
  {
    if k > 0 {
      PagesArePrefix(files, k - 1);
      PageOffsets(files, k);
      var a := Min(|files|, (k - 1) * PAGE_SIZE);
      var b := Min(|files|, k * PAGE_SIZE);
      assert files[..b] == files[..a] + files[a..b];
    }
  }

  /** Every record is on exactly one of the pages 1 to `TotalPages(n)`, in order. */
  lemma PagesCoverAll<T>(files: seq<T>)
    ensures Pages(files, TotalPages(|files|)) == files
  {
    PagesArePrefix(files, TotalPages(|files|));
  }

  /** 23 records make 3 pages, the third holding offsets 20 to 22. */
  lemma ThirdPageOfTwentyThree<T>(files: seq<T>)
    requires |files| == 23
    ensures TotalPages(|files|) == 3
    ensures PageSlice(files, 3) == files[20..23]
  {
  }
}
