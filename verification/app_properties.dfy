/** Properties of the search page's state machine that relate several
    transitions: the invariant every reachable state keeps, the page bounds
    pagination keeps, how repeated clicks move the page, and how the
    favorites operations compose. */
module AppProperties {
  import opened Catalog
  import opened Paging
  import opened Favorites
  import opened App

  /** Every single event keeps the invariant. */
  lemma StepKeepsInv(s: State, e: Event)
    requires Inv(s)
    ensures Inv(Step(s, e))
  {
  }

  /** Every sequence of events keeps the invariant. */
  lemma {:induction false} RunKeepsInv(s: State, es: seq<Event>)
    requires Inv(s)
    ensures Inv(Run(s, es))
    decreases |es|
  {
    if es != [] {
      StepKeepsInv(s, es[0]);
      RunKeepsInv(Step(s, es[0]), es[1..]);
    }
  }

  /** In every state reachable after mounting, the page number is at least 1,
      displayed data and an error message are never shown together, and
      reloading the persisted favorites gives back the in-memory list. */
  lemma {:induction false} ReachableStates(stored: Option<seq<Entry>>, es: seq<Event>)
    ensures Run(Start(stored), es).currentPage >= 1
    ensures ViewConsistent(Run(Start(stored), es))
    ensures RestoreFavorites(Run(Start(stored), es)) == Run(Start(stored), es)
  {
    RunKeepsInv(Start(stored), es);
  }

  /** Pagination never changes the page count and never leaves its bounds,
      whatever the sequence of button clicks (or other action strings). */
  lemma {:induction false} PaginationKeepsBounds(s: State, es: seq<Event>)
    requires PageInBounds(s)
    requires forall i :: 0 <= i < |es| ==> es[i].Paginate?
    ensures PageInBounds(Run(s, es))
    ensures Run(s, es).totalPages == s.totalPages
    decreases |es|
  {
    if es != [] {
      PaginationKeepsBounds(Step(s, es[0]), es[1..]);
    }
  }

  /** A successful listing keeps the page within the new page count exactly
      when the page's offset lies inside the newly reported catalog size
      (or the page is the first one). A catalog that shrinks below the
      current page's offset leaves the page out of range. */
  lemma ListingKeepsBoundsIff(s: State, entries: seq<Entry>, count: nat)
    requires s.currentPage >= 1
    ensures PageInBounds(ListingResolved(s, Listed(entries, count)))
        <==> s.currentPage == 1 || PageOffset(s.currentPage) < count
  {
    PageWithinListing(count, s.currentPage);
  }

  /** The event `e` keeps the page in bounds, given the page it arrives on:
      only a listing that reports fewer entries than the page's offset
      does not. */
  predicate FitsPage(s: State, e: Event)
  {
    e.ListingDone? && e.listing.Listed? ==>
      s.currentPage == 1 || PageOffset(s.currentPage) < e.listing.count
  }

  /** Every event of `es` fits the page it arrives on. */
  predicate RunFits(s: State, es: seq<Event>)
    decreases |es|
  {
    es == [] || (FitsPage(s, es[0]) && RunFits(Step(s, es[0]), es[1..]))
  }

  /** A run whose listings all cover the page they were requested for keeps
      the page in `[1, max(1, totalPages)]`. */
  lemma {:induction false} FittingRunKeepsBounds(s: State, es: seq<Event>)
    requires PageInBounds(s)
    requires RunFits(s, es)
    ensures PageInBounds(Run(s, es))
    decreases |es|
  {
    if es != [] {
      var e := es[0];
      if e.ListingDone? && e.listing.Listed? {
        ListingKeepsBoundsIff(s, e.listing.entries, e.listing.count);
      }
      FittingRunKeepsBounds(Step(s, e), es[1..]);
    }
  }

  /** Previous undoes Next when Next moved the page. */
  lemma PrevUndoesNext(s: State)
    requires 1 <= s.currentPage < s.totalPages
    ensures HandlePagination(HandlePagination(s, "next"), "prev") == s
  {
  }

  /** Next undoes Previous when Previous moved the page and the page was
      within the page count. */
  lemma NextUndoesPrev(s: State)
    requires 1 < s.currentPage <= s.totalPages
    ensures HandlePagination(HandlePagination(s, "prev"), "next") == s
  {
  }

  function Min(a: int, b: int): (m: int) { if a <= b then a else b }

  function Max(a: int, b: int): (m: int) { if a <= b then b else a }

  /** `k` copies of the event `e`. */
  function Repeat(e: Event, k: nat): (es: seq<Event>)
    ensures |es| == k
    ensures forall i :: 0 <= i < k ==> es[i] == e
  {
    if k == 0 then [] else [e] + Repeat(e, k - 1)
  }

  /** Clicking Next `k` times advances the page by `k`, stopping at the last
      page; from a page at or past the last one it does nothing. */
  lemma {:induction false} RepeatedNext(s: State, k: nat)
    ensures Run(s, Repeat(Paginate("next"), k)).currentPage
         == if s.currentPage >= s.totalPages then s.currentPage
            else Min(s.currentPage + k, s.totalPages)
    ensures Run(s, Repeat(Paginate("next"), k)).totalPages == s.totalPages
    decreases k
  {
    if k > 0 {
      var es := Repeat(Paginate("next"), k);
      assert es[1..] == Repeat(Paginate("next"), k - 1);
      RepeatedNext(Step(s, es[0]), k - 1);
    }
  }

  /** Clicking Previous `k` times lowers the page by `k`, stopping at page 1. */
  lemma {:induction false} RepeatedPrev(s: State, k: nat)
    requires s.currentPage >= 1
    ensures Run(s, Repeat(Paginate("prev"), k)).currentPage == Max(s.currentPage - k, 1)
    decreases k
  {
    if k > 0 {
      var es := Repeat(Paginate("prev"), k);
      assert es[1..] == Repeat(Paginate("prev"), k - 1);
      RepeatedPrev(Step(s, es[0]), k - 1);
    }
  }

  /** From the first page every page of the listing is reached by clicking
      Next; in particular with no pages known Next does nothing. */
  lemma EveryPageReachable(s: State, page: int)
    requires s.currentPage == 1
    requires 1 <= page <= Max(1, s.totalPages)
    ensures Run(s, Repeat(Paginate("next"), page - 1)).currentPage == page
  {
    RepeatedNext(s, page - 1);
  }

  /** Running `es` and then `e` is stepping `e` from the state `es` reaches. */
  lemma {:induction false} RunAppend(s: State, es: seq<Event>, e: Event)
    ensures Run(s, es + [e]) == Step(Run(s, es), e)
    decreases |es|
  {
    if es != [] {
      assert (es + [e])[1..] == es[1..] + [e];
      RunAppend(Step(s, es[0]), es[1..], e);
    }
  }

  /** The display reflects only the response that arrived last: whatever
      events came before, the data and error after a listing or search
      result are those that result shows from any state. */
  lemma LastResponseWins(s: State, es: seq<Event>, t: State,
                         listing: ListingOutcome, search: DetailOutcome)
    ensures Run(s, es + [ListingDone(listing)]).data == ListingResolved(t, listing).data
    ensures Run(s, es + [ListingDone(listing)]).error == ListingResolved(t, listing).error
    ensures Run(s, es + [SearchDone(search)]).data == SearchResolved(t, search).data
    ensures Run(s, es + [SearchDone(search)]).error == SearchResolved(t, search).error
  {
    RunAppend(s, es, ListingDone(listing));
    RunAppend(s, es, SearchDone(search));
  }

  /** Adding the same entry twice keeps both copies: no deduplication. */
  lemma AddTwiceKeepsDuplicates(s: State, d: Entry)
    ensures AddToFavorites(AddToFavorites(s, Fetched(d)), Fetched(d)).favorites == s.favorites + [d, d]
  {
  }

  /** Removing an entry right after adding it gives the state that removing
      it alone gives: the add is undone, and earlier entries of the same
      name are removed as well. */
  lemma {:induction false} RemoveUndoesAdd(s: State, d: Entry)
    ensures RemoveFromFavorites(AddToFavorites(s, Fetched(d)), d) == RemoveFromFavorites(s, d)
  {
    RemoveUndoesAppend(s.favorites, d);
  }

  /** Removing the same entry twice is the same as removing it once. */
  lemma {:induction false} RemoveFromFavoritesIdempotent(s: State, p: Entry)
    ensures RemoveFromFavorites(RemoveFromFavorites(s, p), p) == RemoveFromFavorites(s, p)
  {
    RemoveIdempotent(s.favorites, p.name);
  }
}
