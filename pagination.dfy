/**
 * Page arithmetic of `displayCards` and the guards of the previous/next
 * click handlers. Pages are numbered from 1 and hold `PageSize` records.
 */
module Pagination {

  /** `rowsPerPage`. */
  const PageSize: nat := 20

  /** Index of the first record of page `p`: `(currentPage - 1) * rowsPerPage`. */
  function PageStart(p: int): int {
    (p - 1) * PageSize
  }

  /** JavaScript's `slice` clamps both ends to the length of the array. */
  function Clamp(x: int, n: nat): (r: nat)
    requires x >= 0
    ensures r <= n && (r == x || r == n) && (x <= n ==> r == x)
  {
    if x <= n then x else n
  }

  /**
   * `data.slice(start, start + rowsPerPage)` for page `p`: the records from
   * `PageStart(p)` on, at most `PageSize` of them, none when the page lies
   * past the end.
   */
  function Page<T>(data: seq<T>, p: int): (r: seq<T>)
    requires p >= 1
    ensures |r| <= PageSize
    ensures r == [] <==> PageStart(p) >= |data|
    ensures PageStart(p) < |data| ==> |r| == if PageStart(p) + PageSize <= |data| then PageSize else |data| - PageStart(p)
    ensures forall i :: 0 <= i < |r| ==> r[i] == data[PageStart(p) + i]
  {
    data[Clamp(PageStart(p), |data|)..Clamp(PageStart(p) + PageSize, |data|)]
  }

  /** Guard of the previous-button handler. */
  predicate HasPrev(p: int) {
    p > 1
  }

  /** Guard of the next-button handler: records remain after the end of this page. */
  predicate HasNext(p: int, n: nat) {
    p * PageSize < n
  }

  /** The page after a click on "previous": one back when the guard allows it, else unchanged. */
  function PrevPage(p: int): (r: int)
    ensures HasPrev(p) ==> r == p - 1
    ensures !HasPrev(p) ==> r == p
  {
    if HasPrev(p) then p - 1 else p
  }

  /** The page after a click on "next": one on when the guard allows it, else unchanged. */
  function NextPage(p: int, n: nat): (r: int)
    ensures HasNext(p, n) ==> r == p + 1
    ensures !HasNext(p, n) ==> r == p
  {
    if HasNext(p, n) then p + 1 else p
  }

  /** Number of non-empty pages for `n` records: `ceil(n / PageSize)`. */
  function PageCount(n: nat): (r: nat)
    ensures (r - 1) * PageSize < n <= r * PageSize || (n == 0 && r == 0)
  {
    (n + PageSize - 1) / PageSize
  }

  /**
   * The pages the navigation can reach over `n` records: page 1, and any
   * later page that still starts inside the records.
   */
  predicate Reachable(p: int, n: nat) {
    p >= 1 && (p == 1 || PageStart(p) < n)
  }

  /** A page is shown with records exactly when its number is between 1 and the page count. */
  lemma PageNonEmptyIff<T>(data: seq<T>, p: int)
    requires p >= 1
    ensures Page(data, p) != [] <==> p <= PageCount(|data|)
  {
    var n := |data|;
    var c := PageCount(n);
    if p <= c {
      assert PageStart(p) <= PageStart(c);
    } else {
      assert PageStart(p) >= PageStart(c + 1);
    }
  }

  /** On a reachable page over a non-empty list the page shown has records. */
  lemma ReachablePageNonEmpty<T>(data: seq<T>, p: int)
    requires Reachable(p, |data|) && |data| > 0
    ensures Page(data, p) != []
  {
  }

  /** Page 1 is reachable whatever the list, which is why a filter pass may reset to it. */
  lemma FirstPageReachable(n: nat)
    ensures Reachable(1, n)
  {
  }

  /** "Previous" keeps the page reachable, and moves only when there is an earlier page. */
  lemma PrevPreservesReachable(p: int, n: nat)
    requires Reachable(p, n)
    ensures Reachable(PrevPage(p), n)
    ensures PrevPage(p) != p <==> p > 1
  {
    if p > 2 {
      assert PageStart(p - 1) < PageStart(p);
    }
  }

  /** "Next" keeps the page reachable, and moves only when records follow the current page. */
  lemma NextPreservesReachable(p: int, n: nat)
    requires Reachable(p, n)
    ensures Reachable(NextPage(p, n), n)
    ensures NextPage(p, n) != p <==> PageStart(p) + PageSize < n
  {
  }

  /** Pages 1 to `k`, one after another. */
  function Pages<T>(data: seq<T>, k: nat): (r: seq<T>)
  {
    if k == 0 then [] else Pages(data, k - 1) + Page(data, k)
  }

  /** The first `k` pages are exactly the first `k * PageSize` records (or all of them). */
  lemma {:induction false} PagesArePrefix<T>(data: seq<T>, k: nat)
    ensures Pages(data, k) == data[..if k * PageSize <= |data| then k * PageSize else |data|]
  {
    if k > 0 {
      PagesArePrefix(data, k - 1);
      var lo := if (k - 1) * PageSize <= |data| then (k - 1) * PageSize else |data|;
      var hi := if k * PageSize <= |data| then k * PageSize else |data|;
      assert Page(data, k) == data[lo..hi];
      assert data[..lo] + data[lo..hi] == data[..hi];
    }
  }

  /** Concatenating every page in order gives back the whole list, with no gap and no repetition. */
  lemma PagesCoverAll<T>(data: seq<T>)
    ensures Pages(data, PageCount(|data|)) == data
  {
    PagesArePrefix(data, PageCount(|data|));
  }

  /** The boundary case of 25 records: page 1 can go forward only, page 2 back only. */
  lemma TwentyFiveRecords()
    ensures HasNext(1, 25) && !HasPrev(1)
    ensures !HasNext(2, 25) && HasPrev(2)
    ensures PageCount(25) == 2
  {
  }
}
