/** Page arithmetic of the listing: nine entries per page, 1-based page
    numbers, the request offset of a page and the number of pages a catalog
    of a given size spans. */
module Paging {

  /** Entries requested per listing page (the `limit` of the listing request). */
  const PageSize: nat := 9

  /** Offset of the first entry of `page` in the catalog. */
  function PageOffset(page: int): (offset: int)
    ensures page >= 1 ==> offset >= 0
  {
    (page - 1) * PageSize
  }

  /** Number of pages needed for `count` entries: the least `n` whose
      `n` pages hold all `count` entries. JavaScript computes it as a
      floating-point ceiling of `count / 9`; for whole counts of any
      realistic size that is this integer ceiling division. */
  function TotalPages(count: nat): (pages: nat)
    ensures pages * PageSize >= count
    ensures pages == 0 || (pages - 1) * PageSize < count
  {
    (count + PageSize - 1) / PageSize
  }

  /** `TotalPages` is the least page count that covers `count`: no smaller
      number of pages holds every entry. */
  lemma TotalPagesIsLeast(count: nat, n: nat)
    requires n * PageSize >= count
    ensures TotalPages(count) <= n
  {
  }

  /** A page lies within the listing exactly when its offset is below the
      entry count: every page in `[1, TotalPages(count)]` starts at an
      existing entry, and the page after the last starts past the end. */
  lemma PageWithinListing(count: nat, page: int)
    requires page >= 1
    ensures page <= TotalPages(count) <==> PageOffset(page) < count
  {
    var t := TotalPages(count);
    if page <= t {
      assert PageOffset(page) <= PageOffset(t);
    } else {
      assert page - 1 >= t;
      assert PageOffset(page) >= t * PageSize;
    }
  }

  /** The page after the last one begins at or past the end of the catalog. */
  lemma PageAfterLastIsEmpty(count: nat)
    ensures PageOffset(TotalPages(count) + 1) >= count
  {
    PageWithinListing(count, TotalPages(count) + 1);
  }
}
