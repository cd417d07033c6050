/** Page arithmetic for the list queries: the inclusive `range(from, to)`
    requested for a page, and the rows a table returns for such a range. */
module Paging {

  /** The inclusive row range requested for page `pageIndex` (counted from
      0) of `pageSize` rows: `[pageIndex * pageSize, (pageIndex + 1) * pageSize - 1]`,
      the upper end written as `from + pageSize - 1`, which is the same number. */
  function PageRange(pageIndex: int, pageSize: int): (r: (int, int))
    ensures r.1 - r.0 + 1 == pageSize
    ensures pageIndex >= 0 && pageSize >= 0 ==> r.0 >= 0
  {
    var from := pageIndex * pageSize;
    (from, from + pageSize - 1)
  }

  /** Consecutive pages are contiguous: each starts right after the previous one ends. */
  lemma PagesContiguous(pageIndex: int, pageSize: int)
    ensures PageRange(pageIndex + 1, pageSize).0 == PageRange(pageIndex, pageSize).1 + 1
  {
  }

  /** Distinct pages of a positive size never overlap. */
  lemma PagesDisjoint(p: int, q: int, pageSize: int)
    requires p < q && pageSize > 0
    ensures PageRange(p, pageSize).1 < PageRange(q, pageSize).0
  {
    var d := q - p - 1;
    assert q * pageSize == (p + 1) * pageSize + d * pageSize;
    assert d * pageSize >= 0;
  }

  function Clip(x: int, n: nat): (c: nat)
    ensures c <= n
  {
    if x < 0 then 0 else if x > n then n else x
  }

  /** The rows a table returns for the inclusive range `[from, to]`; a range
      reaching past either end is cut to the rows that exist. */
  function Slice<T>(rows: seq<T>, from: int, to: int): (r: seq<T>)
    ensures |r| <= if to < from then 0 else to - from + 1
    ensures from >= 0 ==> forall i :: 0 <= i < |r| ==> from + i < |rows| && r[i] == rows[from + i]
  {
    var lo := Clip(from, |rows|);
    var hi := Clip(to + 1, |rows|);
    if hi <= lo then [] else rows[lo..hi]
  }

  /** A range of `size` rows starting at `from` returns a full page while
      rows remain, then the remainder, then nothing. */
  lemma SliceLength<T>(rows: seq<T>, from: int, size: int)
    ensures from >= 0 && size >= 0 ==>
      |Slice(rows, from, from + size - 1)| == if from >= |rows| then 0 else Min(size, |rows| - from)
    ensures from >= 0 ==>
      var lo, page := Min(from, |rows|), Slice(rows, from, from + size - 1);
      lo + |page| <= |rows| && page == rows[lo..lo + |page|]
  {
  }

  /** The first page is the head of the table. */
  lemma FirstSlice<T>(rows: seq<T>, pageSize: nat)
    ensures Slice(rows, PageRange(0, pageSize).0, PageRange(0, pageSize).1) == rows[..Min(pageSize, |rows|)]
  {
  }

  /** Number of rows on page `pageIndex`: a full page while rows remain,
      then the remainder, then nothing. */
  lemma PageLength<T>(rows: seq<T>, pageIndex: nat, pageSize: nat)
    ensures var r := PageRange(pageIndex, pageSize);
      |Slice(rows, r.0, r.1)|
        == if pageIndex * pageSize >= |rows| then 0
           else if (pageIndex + 1) * pageSize <= |rows| then pageSize
           else |rows| - pageIndex * pageSize
  {
    assert (pageIndex + 1) * pageSize == pageIndex * pageSize + pageSize;
  }

  function Min(a: int, b: int): int {
    if a <= b then a else b
  }

  /** The first `k` pages, one after the other. */
  function Pages<T>(rows: seq<T>, pageSize: nat, k: nat): seq<T> {
    if k == 0 then []
    else
      var r := PageRange(k - 1, pageSize);
      Pages(rows, pageSize, k - 1) + Slice(rows, r.0, r.1)
  }

  /** Page `k - 1` is the stretch of rows between the ends of pages `k - 1`
      and `k`, both cut at the table's end. */
  lemma LastPage<T>(rows: seq<T>, pageSize: nat, k: nat)
    requires k > 0
    ensures Min((k - 1) * pageSize, |rows|) <= Min(k * pageSize, |rows|)
    ensures var r := PageRange(k - 1, pageSize);
      Slice(rows, r.0, r.1) == rows[Min((k - 1) * pageSize, |rows|)..Min(k * pageSize, |rows|)]
  {
    assert k * pageSize == (k - 1) * pageSize + pageSize;
  }

  /** Reading pages 0, 1, ..., k-1 yields exactly the first `k * pageSize`
      rows: no row is skipped and none is read twice. */
  lemma {:induction false} PagesTile<T>(rows: seq<T>, pageSize: nat, k: nat)
    ensures Pages(rows, pageSize, k) == rows[..Min(k * pageSize, |rows|)]
  {
    if k > 0 {
      var prev, span := (k - 1) * pageSize, k * pageSize;
      assert span == prev + pageSize;
      PagesTile(rows, pageSize, k - 1);
      LastPage(rows, pageSize, k);
      var lo, hi := Min(prev, |rows|), Min(span, |rows|);
      assert Pages(rows, pageSize, k) == rows[..lo] + rows[lo..hi];
      assert rows[..lo] + rows[lo..hi] == rows[..hi];
    }
  }

  /** The pages `read(0) .. read(k-1)`, one after the other. */
  function ReadAll<T>(read: nat -> seq<T>, k: nat): seq<T> {
    if k == 0 then [] else ReadAll(read, k - 1) + read(k - 1)
  }

  /** Any reader that returns page `j` of `rows` for every `j` reads, over
      pages `0 .. k-1`, the first `k * pageSize` rows. */
  lemma {:induction false} ReadAllTiles<T>(rows: seq<T>, pageSize: nat, read: nat -> seq<T>, k: nat)
    requires forall j: nat :: read(j) == Slice(rows, PageRange(j, pageSize).0, PageRange(j, pageSize).1)
    ensures ReadAll(read, k) == rows[..Min(k * pageSize, |rows|)]
  {
    ReadAllIsPages(rows, pageSize, read, k);
    PagesTile(rows, pageSize, k);
  }

  lemma {:induction false} ReadAllIsPages<T>(rows: seq<T>, pageSize: nat, read: nat -> seq<T>, k: nat)
    requires forall j: nat :: read(j) == Slice(rows, PageRange(j, pageSize).0, PageRange(j, pageSize).1)
    ensures ReadAll(read, k) == Pages(rows, pageSize, k)
  {
    if k > 0 {
      ReadAllIsPages(rows, pageSize, read, k - 1);
      var r := PageRange(k - 1, pageSize);
      assert read(k - 1) == Slice(rows, r.0, r.1);
    }
  }
}
