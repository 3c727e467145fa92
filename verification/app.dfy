/** The search page's view state and its transitions: pagination, the
    reconciliation of listing and search results into displayed data or an
    error message, and the favorites list with its persisted copy. Every
    network result is an input to a transition; each transition is applied
    atomically. */
module App {
  import opened Catalog
  import opened Paging
  import opened Favorites

  /** Message shown when the page listing or its detail fan-out fails. */
  const ListingError: string := "Error fetching data"

  /** Message shown when a search by name or id fails. */
  const SearchError: string := "Pokemon not found!"

  /** The page's view state. `data` is the displayed entry list (`None` is
      `null`), `error` the displayed message, and `stored` the persisted
      favorites slot (`None` when the key has never been written). */
  datatype State = State(
    currentPage: int,
    totalPages: nat,
    data: Option<seq<Entry>>,
    error: Option<string>,
    favorites: seq<Entry>,
    stored: Option<seq<Entry>>)

  /** Displayed data and an error message are never shown together, and a
      message is always one of the two the page knows. */
  predicate ViewConsistent(s: State)
  {
    && (s.data.None? || s.error.None?)
    && (s.error.None? || s.error.value == ListingError || s.error.value == SearchError)
  }

  /** The in-memory favorites equal the persisted copy (an absent slot
      stands for the empty list the page starts with). */
  predicate Synced(s: State)
  {
    s.favorites == if s.stored.Some? then s.stored.value else []
  }

  /** The invariant every state reachable after mounting satisfies. */
  predicate Inv(s: State)
  {
    s.currentPage >= 1 && ViewConsistent(s) && Synced(s)
  }

  /** The current page lies in `[1, max(1, totalPages)]`. */
  predicate PageInBounds(s: State)
  {
    1 <= s.currentPage && (s.currentPage == 1 || s.currentPage <= s.totalPages)
  }

  /** The state before any effect has run: page 1 of an unknown number of
      pages, nothing displayed, no favorites in memory; the persisted slot
      holds whatever an earlier visit left there. */
  function Init(stored: Option<seq<Entry>>): (s: State)
    ensures PageInBounds(s) && ViewConsistent(s)
    ensures s.stored == stored && s.favorites == []
    ensures s.totalPages == 0 && s.data.None? && s.error.None?
  {
    State(1, 0, None, None, [], stored)
  }

  /** The mount effect that loads the persisted favorites into memory when
      the slot holds a list; otherwise the state is left alone. */
  function RestoreFavorites(s: State): (r: State)
    ensures Synced(s) ==> r == s
    ensures s.stored.Some? ==> Synced(r)
    ensures s.stored.None? ==> r == s
    ensures r.(favorites := s.favorites) == s
  {
    if s.stored.Some? then s.(favorites := s.stored.value) else s
  }

  /** The state once the mount effects have run. */
  function Start(stored: Option<seq<Entry>>): (s: State)
    ensures Inv(s) && PageInBounds(s)
    ensures s.stored == stored
  {
    RestoreFavorites(Init(stored))
  }

  /** The Previous/Next buttons: a clamped move of the current page by one.
      Any other action is ignored, and nothing but the page ever changes. */
  function HandlePagination(s: State, action: string): (r: State)
    ensures r.(currentPage := s.currentPage) == s
    ensures s.currentPage - 1 <= r.currentPage <= s.currentPage + 1
    ensures r.currentPage < s.currentPage <==> action == "prev" && s.currentPage > 1
    ensures r.currentPage > s.currentPage <==> action == "next" && s.currentPage < s.totalPages
    ensures PageInBounds(s) ==> PageInBounds(r)
    ensures Inv(s) ==> Inv(r)
  {
    if action == "prev" && s.currentPage > 1 then
      s.(currentPage := s.currentPage - 1)
    else if action == "next" && s.currentPage < s.totalPages then
      s.(currentPage := s.currentPage + 1)
    else
      s
  }

  /** The listing request for the current page resolves: on success the
      page's entries are displayed, the page count is recomputed from the
      catalog size and the error cleared; on failure the display is cleared
      and the listing error shown, the page count kept. */
  function ListingResolved(s: State, outcome: ListingOutcome): (r: State)
    ensures r.currentPage == s.currentPage
    ensures r.favorites == s.favorites && r.stored == s.stored
    ensures r.error.None? <==> outcome.Listed?
    ensures r.data.Some? <==> outcome.Listed?
    ensures outcome.Listed? ==> r.data.value == outcome.entries && r.totalPages == TotalPages(outcome.count)
    ensures outcome.ListingFailed? ==> r.error.value == ListingError && r.totalPages == s.totalPages
    ensures Inv(s) ==> Inv(r)
  {
    match outcome
    case Listed(entries, count) =>
      s.(data := Some(entries), totalPages := TotalPages(count), error := None)
    case ListingFailed =>
      s.(data := None, error := Some(ListingError))
  }

  /** A search request resolves: on success exactly the fetched entry is
      displayed and the error cleared; on failure the display is cleared and
      the search error shown. Pagination and favorites are untouched. */
  function SearchResolved(s: State, outcome: DetailOutcome): (r: State)
    ensures r.currentPage == s.currentPage && r.totalPages == s.totalPages
    ensures r.favorites == s.favorites && r.stored == s.stored
    ensures r.error.None? <==> outcome.Fetched?
    ensures r.data.Some? <==> outcome.Fetched?
    ensures outcome.Fetched? ==> |r.data.value| == 1 && r.data.value[0] == outcome.entry
    ensures outcome.DetailFailed? ==> r.error.value == SearchError
    ensures Inv(s) ==> Inv(r)
  {
    match outcome
    case Fetched(entry) => s.(data := Some([entry]), error := None)
    case DetailFailed => s.(data := None, error := Some(SearchError))
  }

  /** "Add to Favorites": once the entry's detail re-fetch succeeds, the
      fetched record is appended (with no duplicate check) and the whole list
      written to the slot. A failed re-fetch aborts before any update. */
  function AddToFavorites(s: State, detail: DetailOutcome): (r: State)
    ensures detail.DetailFailed? ==> r == s
    ensures detail.Fetched? ==>
      && |r.favorites| == |s.favorites| + 1
      && r.favorites[..|s.favorites|] == s.favorites
      && r.favorites[|s.favorites|] == detail.entry
      && r.stored == Some(r.favorites)
    ensures r.(favorites := s.favorites, stored := s.stored) == s
    ensures Inv(s) ==> Inv(r)
  {
    match detail
    case Fetched(entry) =>
      var favs := s.favorites + [entry];
      s.(favorites := favs, stored := Some(favs))
    case DetailFailed => s
  }

  /** "Remove from Favorites": every favorite named like `pokemon` is dropped,
      the others stay in order, and the result is written to the slot. */
  function RemoveFromFavorites(s: State, pokemon: Entry): (r: State)
    ensures NoneNamed(r.favorites, pokemon.name)
    ensures IsSubsequence(r.favorites, s.favorites)
    ensures forall e: Entry :: e.name != pokemon.name ==> multiset(r.favorites)[e] == multiset(s.favorites)[e]
    ensures r.stored == Some(r.favorites)
    ensures r.(favorites := s.favorites, stored := s.stored) == s
    ensures Inv(s) ==> Inv(r)
  {
    RemoveIsSubsequence(s.favorites, pokemon.name);
    RemoveKeepsOthers(s.favorites, pokemon.name);
    var favs := RemoveNamed(s.favorites, pokemon.name);
    s.(favorites := favs, stored := Some(favs))
  }

  /** Everything that can happen to the page once it is mounted. */
  datatype Event =
    | Paginate(action: string)
    | ListingDone(listing: ListingOutcome)
    | SearchDone(search: DetailOutcome)
    | AddFavorite(detail: DetailOutcome)
    | RemoveFavorite(pokemon: Entry)

  function Step(s: State, e: Event): (r: State)
  {
    match e
    case Paginate(action) => HandlePagination(s, action)
    case ListingDone(o) => ListingResolved(s, o)
    case SearchDone(o) => SearchResolved(s, o)
    case AddFavorite(d) => AddToFavorites(s, d)
    case RemoveFavorite(p) => RemoveFromFavorites(s, p)
  }

  /** The state after the events `es`, applied in order. */
  function Run(s: State, es: seq<Event>): (r: State)
    decreases |es|
  {
    if es == [] then s else Run(Step(s, es[0]), es[1..])
  }
}
