/** Fixed-size page windows over a list, the page count, and the guarded page moves. */
module Paging {

  /** ITEMS_PER_PAGE in both views. */
  const PageSize: nat := 10

  function Min(a: int, b: int): int {
    if a <= b then a else b
  }

  function Max(a: int, b: int): int {
    if a <= b then b else a
  }

  /** `Math.ceil(n / PageSize)`: the fewest pages of PageSize items that hold `n` items. */
  function TotalPages(n: nat): (r: nat)
    ensures r * PageSize >= n
    ensures r > 0 ==> (r - 1) * PageSize < n
  {
    (n + PageSize - 1) / PageSize
  }

  /** No items, no pages; otherwise at least one. */
  lemma TotalPagesZeroIffEmpty(n: nat)
    ensures TotalPages(n) == 0 <==> n == 0
  {
  }

  /** A relative index of `Array.prototype.slice` resolved against a length:
      negative counts from the end, and the result is clamped to `[0, len]`. */
  function ResolveIndex(rel: int, len: nat): (k: nat)
    ensures k <= len
    ensures 0 <= rel ==> k == Min(rel, len)
    ensures rel < 0 ==> k == Max(len + rel, 0)
  {
    if rel < 0 then (if len + rel < 0 then 0 else len + rel)
    else if rel > len then len
    else rel
  }

  /** `s.slice(start, end)`: for indices from 0 up, the items from `start` to before `end`,
      both clamped to the length, and nothing when `end` does not pass `start`. */
  function Slice<T>(s: seq<T>, start: int, end: int): (r: seq<T>)
    ensures |r| <= |s|
    ensures 0 <= start <= end ==> r == s[Min(start, |s|)..Min(end, |s|)]
    ensures 0 <= end <= start ==> r == []
  {
    var from := ResolveIndex(start, |s|);
    var to := ResolveIndex(end, |s|);
    if to <= from then [] else s[from..to]
  }

  /** `getPaginatedData`: the items of page `page` (counted from 1), at most PageSize of them;
      for a positive page, the window `[(page-1)*PageSize, page*PageSize)` clipped to the list. */
  function PageWindow<T>(s: seq<T>, page: int): (r: seq<T>)
    ensures |r| <= PageSize
    ensures page >= 1 ==> r == s[Min((page - 1) * PageSize, |s|)..Min(page * PageSize, |s|)]
  {
    var startIndex := (page - 1) * PageSize;
    var endIndex := startIndex + PageSize;
    Slice(s, startIndex, endIndex)
  }

  /** Every page before the last is full, and pages past the last are empty. */
  lemma PageSizes<T>(s: seq<T>, page: int)
    requires page >= 1
    ensures page < TotalPages(|s|) ==> |PageWindow(s, page)| == PageSize
    ensures page == TotalPages(|s|) ==> 0 < |PageWindow(s, page)|
    ensures page > TotalPages(|s|) ==> PageWindow(s, page) == []
  {
  }

  /** Pages 1 to `count` laid end to end. */
  function Pages<T>(s: seq<T>, count: nat): seq<T> {
    if count == 0 then [] else Pages(s, count - 1) + PageWindow(s, count)
  }

  lemma {:induction false} PagesArePrefix<T>(s: seq<T>, count: nat)
    ensures Pages(s, count) == s[..Min(count * PageSize, |s|)]
  {
    if count > 0 {
      PagesArePrefix(s, count - 1);
      var a, b := Min((count - 1) * PageSize, |s|), Min(count * PageSize, |s|);
      assert s[..b] == s[..a] + s[a..b];
    }
  }

  /** The pages 1 to TotalPages(|s|) together are exactly the whole list, in order. */
  lemma PagesCoverAll<T>(s: seq<T>)
    ensures Pages(s, TotalPages(|s|)) == s
  {
    PagesArePrefix(s, TotalPages(|s|));
  }

  /** The pages the guarded moves keep the current page in: 1 to max(1, totalPages). */
  predicate InRange(page: int, total: nat) {
    1 <= page <= Max(1, total)
  }

  /** `handlePrevious`: one page back, only when past the first page. */
  function PreviousPage(page: int): (r: int)
    ensures page > 1 ==> r == page - 1
    ensures page <= 1 ==> r == page
    ensures forall total: nat :: InRange(page, total) ==> InRange(r, total)
  {
    if page > 1 then page - 1 else page
  }

  /** `handleNext`: one page on, only when before the last page. */
  function NextPage(page: int, total: nat): (r: int)
    ensures page < total ==> r == page + 1
    ensures page >= total ==> r == page
    ensures InRange(page, total) ==> InRange(r, total)
  {
    if page < total then page + 1 else page
  }

  /** The "Previous" button's `disabled` attribute. */
  predicate PreviousDisabled(page: int)
    ensures PreviousDisabled(page) <==> page >= 1 && PreviousPage(page) == page
  {
    page == 1
  }

  /** The "Next" button's `disabled` attribute. */
  predicate NextDisabled(page: int, total: nat)
    ensures NextDisabled(page, total) <==> NextPage(page, total) == page
  {
    page >= total
  }

  /** On a page of the range, a button is disabled exactly when its move would do nothing. */
  lemma DisabledIffNoMove(page: int, total: nat)
    requires InRange(page, total)
    ensures PreviousDisabled(page) <==> PreviousPage(page) == page
    ensures NextDisabled(page, total) <==> NextPage(page, total) == page
  {
  }

  /** An empty list has no pages, and both buttons are disabled on page 1. */
  lemma EmptyListDisablesBoth()
    ensures TotalPages(0) == 0
    ensures PreviousDisabled(1) && NextDisabled(1, TotalPages(0))
  {
  }
}
