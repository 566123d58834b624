/** The page window the listing, search and by-category handlers cut out of a
    result list: `questions[start:end]` with `start = (page - 1) * 10` and
    `end = start + 10`, taken with Python's slice semantics. */
module Pagination {
  import opened Wrappers

  /** `QUESTIONS_PER_PAGE`; the handlers write the literal 10, which is this value. */
  const PageSize: nat := 10

  /** `request.args.get('page', 1, type=int)`: the page is 1 when the argument
      is absent (or does not convert to an integer). */
  function PageNumber(arg: Option<int>): int
  {
    if arg.Some? then arg.value else 1
  }

  /** CPython's adjustment of one bound of `s[start:stop]` (step 1) for a
      sequence of length `n`: a negative bound counts from the end, then the
      bound is clamped to `[0, n]`. */
  function SliceBound(i: int, n: nat): (b: nat)
    ensures b <= n
    ensures 0 <= i <= n ==> b == i
  {
    if i < 0 then (if i + n < 0 then 0 else i + n)
    else if i > n then n
    else i
  }

  /** `s[start:stop]` as Python evaluates it: the items whose index lies in
      the adjusted range, or nothing when that range is empty. */
  function PySlice<T>(s: seq<T>, start: int, stop: int): (r: seq<T>)
    ensures |r| == if SliceBound(start, |s|) < SliceBound(stop, |s|)
                   then SliceBound(stop, |s|) - SliceBound(start, |s|) else 0
    ensures forall k :: 0 <= k < |r| ==> r[k] == s[SliceBound(start, |s|) + k]
  {
    var lo, hi := SliceBound(start, |s|), SliceBound(stop, |s|);
    if lo < hi then s[lo..hi] else []
  }

  function PageStart(page: int): int
  {
    (page - 1) * PageSize
  }

  /** `s[start:end]` for the window of `page`. Whatever the page number, the
      window never holds more than one page of items. */
  function PageWindow<T>(s: seq<T>, page: int): (r: seq<T>)
    ensures |r| <= PageSize
    ensures forall x :: x in r ==> x in s
  {
    PySlice(s, PageStart(page), PageStart(page) + PageSize)
  }

  /** The page numbers whose window over `n` items is empty: a positive page
      past the end, page 0 (the slice `[-10:0]`), and a negative page that
      reaches back further than the list is long. */
  predicate PageIsEmpty(n: nat, page: int)
  {
    if page >= 1 then n <= (page - 1) * PageSize
    else if page == 0 then true
    else n <= -page * PageSize
  }

  function Min(a: int, b: int): int
  {
    if a <= b then a else b
  }

  function Max0(a: int): nat
  {
    if a < 0 then 0 else a
  }

  lemma PageWindowEmptyIff<T>(s: seq<T>, page: int)
    ensures |PageWindow(s, page)| == 0 <==> PageIsEmpty(|s|, page)
  {
  }

  /** A positive page is the run of at most ten items that starts at index
      `(page - 1) * 10`. */
  lemma PositivePageWindow<T>(s: seq<T>, page: int)
    requires page >= 1 && PageStart(page) <= |s|
    ensures PageWindow(s, page) == s[PageStart(page)..Min(PageStart(page) + PageSize, |s|)]
  {
  }

  /** A negative page counts from the end: page -1 is `s[-20:-10]`, which is
      not empty once there are more than ten items. */
  lemma NegativePageWindow<T>(s: seq<T>, page: int)
    requires page <= -1
    ensures PageWindow(s, page) == s[Max0(|s| + PageStart(page))..Max0(|s| + PageStart(page) + PageSize)]
    ensures page == -1 ==> (PageWindow(s, page) != [] <==> |s| > PageSize)
  {
  }

  /** The windows of pages 1 to m, one after another. */
  function FirstPages<T>(s: seq<T>, m: nat): seq<T>
  {
    if m == 0 then [] else FirstPages(s, m - 1) + PageWindow(s, m)
  }

  /** Pages 1, 2, ... tile the list: the first m pages are exactly its first
      `min(10 * m, |s|)` items, so every item is on exactly one positive page
      and nothing is skipped or repeated. */
  lemma {:induction false} FirstPagesArePrefix<T>(s: seq<T>, m: nat)
    ensures FirstPages(s, m) == s[..Min(m * PageSize, |s|)]
  {
    if m > 0 {
      FirstPagesArePrefix(s, m - 1);
      var a := Min((m - 1) * PageSize, |s|);
      if PageStart(m) <= |s| {
        PositivePageWindow(s, m);
        assert s[..a] + s[a..Min(m * PageSize, |s|)] == s[..Min(m * PageSize, |s|)];
      } else {
        assert PageWindow(s, m) == [];
      }
    }
  }
}
