# Pokemon search page: view-state model

A Dafny model of the state logic inside the single React component of the
Pokemon search page (`src/App.jsx`). The component keeps a state record:
current page, page count, displayed entries, error message and favorites
list. It also keeps a persisted copy of the favorites under the storage key
`favorites`. The model covers how that record changes:

- **Pagination.** Previous lowers the page by one while it is above 1;
  Next raises it by one while it is below `totalPages`. Any other action
  is ignored.
- **Page arithmetic.** A page is nine entries. Page `p` starts at offset
  `(p-1)*9`. The page count is the ceiling of `count/9`.
- **Reconciling fetch results.** A successful listing shows the page's
  entries, recomputes the page count and clears the error. A successful
  search shows exactly the fetched entry. A failure clears the display and
  shows `"Error fetching data"` or `"Pokemon not found!"`.
- **Favorites.** Add appends the re-fetched detail record, with no
  duplicate check. Remove drops every entry with the same name. Both write
  the whole list to the storage slot. At mount, a stored list is loaded
  into memory.

Network results are inputs to the transitions: `Listed(entries, count)` or
`ListingFailed` for the listing, and `Fetched(entry)` or `DetailFailed`
for a single-entry request. The storage slot is modelled as an optional
`seq<Entry>` rather than JSON text. Each fetch outcome is one atomic
transition.

Files:

- `catalog.dfy`: module `Catalog`. The entry record, `Option`, and the
  two fetch-outcome types.
- `paging.dfy`: module `Paging`. Page offsets and page count.
- `favorites.dfy`: module `Favorites`. Removing entries by name, and the
  subsequence relation.
- `app.dfy`: module `App`. The state record, its transitions, the event
  type and the event runner.
- `app_properties.dfy`: module `AppProperties`. Lemmas that relate
  several transitions or whole runs of events.

Two consequences of the code are worth stating plainly:

- The code appends with no duplicate check, so favorites can hold several
  entries with the same name (`AddTwiceKeepsDuplicates`).
- The code never moves the current page back when a listing reports a
  smaller count, so the page can end up past `totalPages`.
  `ListingKeepsBoundsIff` states exactly when the bound survives.

## Model

| member | source | states |
|---|---|---|
| Paging.PageOffset | src/App.jsx:16 | the listing offset of any page numbered 1 or more is non-negative |
| Paging.TotalPages | src/App.jsx:23 | the page count covers all `count` entries (`pages*9 >= count`), and one page fewer would not |
| Paging.TotalPagesIsLeast | src/App.jsx:23 | no page count smaller than `TotalPages(count)` covers `count` entries, so it is the ceiling of `count/9` |
| Paging.PageWithinListing | src/App.jsx:16-23 | a page `p >= 1` is at most the page count exactly when its request offset `(p-1)*9` is below the entry count |
| Paging.PageAfterLastIsEmpty | src/App.jsx:16-23 | the page after the last one starts at or past the end of the catalog |
| Favorites.RemoveNamed | src/App.jsx:68 | the filtered list has no entry with the removed name and is never longer than the original |
| Favorites.RemoveKeepsOthers | src/App.jsx:68 | the filter keeps every entry with a different name as many times as it occurred, and keeps no entry with the removed name |
| Favorites.RemoveIsSubsequence | src/App.jsx:68 | the filtered list is a subsequence of the original, so the survivors keep their relative order |
| Favorites.RemoveDistributes | src/App.jsx:68 | filtering by name distributes over concatenation: each entry is kept or dropped on its own |
| Favorites.RemoveAbsentIsIdentity | src/App.jsx:68 | the filter leaves the list unchanged if and only if no entry has the removed name |
| Favorites.RemoveIdempotent | src/App.jsx:68 | filtering twice by the same name is the same as filtering once |
| Favorites.RemoveUndoesAppend | src/App.jsx:55-71 | removing the name of an appended entry gives what removing it from the list before the append gives |
| App.Init | src/App.jsx:6-11 | the initial state has page 1 of 0 pages, no data, no error and no favorites in memory; the page is in bounds and the view is consistent |
| App.RestoreFavorites | src/App.jsx:33-38 | a stored list is loaded into memory and nothing else changes; an empty slot leaves the state, in-memory favorites included, untouched; on a state already in sync it changes nothing |
| App.Start | src/App.jsx:6-38 | after the mount effects the state satisfies the invariant: page at least 1, data and error not both shown, memory equal to storage |
| App.HandlePagination | src/App.jsx:73-79 | only the page moves, by at most one; it goes down if and only if the action is `"prev"` on a page above 1, and up if and only if it is `"next"` below the page count; page bounds and the invariant are preserved |
| App.ListingResolved | src/App.jsx:21-28 | the error is cleared if and only if the listing succeeded; success shows its entries and sets the page count to the ceiling; failure shows the listing message and keeps the page count; page and favorites are untouched; the invariant is preserved |
| App.SearchResolved | src/App.jsx:44-53 | success shows exactly one entry, the fetched one, and clears the error; failure clears the display and shows the search message; page state and favorites are untouched; the invariant is preserved |
| App.AddToFavorites | src/App.jsx:55-60 | a fetched detail is appended: length grows by one, the prefix is unchanged and storage equals memory; a failed detail fetch changes nothing |
| App.RemoveFromFavorites | src/App.jsx:67-71 | no favorite with the removed name remains; the rest keep their order and multiplicity; storage equals memory; nothing else changes |
| AppProperties.StepKeepsInv | src/App.jsx:21-79 | every single event preserves the invariant |
| AppProperties.RunKeepsInv | src/App.jsx:21-79 | every sequence of events preserves the invariant |
| AppProperties.ReachableStates | src/App.jsx:6-79 | in every state reachable after mount, the page is at least 1, data and error are never both shown, and reloading storage returns the in-memory favorites |
| AppProperties.PaginationKeepsBounds | src/App.jsx:73-79 | with the page count fixed, any sequence of pagination actions keeps `1 <= currentPage <= max(1, totalPages)` |
| AppProperties.ListingKeepsBoundsIff | src/App.jsx:16-23 | after a successful listing, the page is within the new page count if and only if it is page 1 or its offset is below the reported count |
| AppProperties.FittingRunKeepsBounds | src/App.jsx:16-79 | a run whose listings each cover the page they arrive on keeps the page within `[1, max(1, totalPages)]` |
| AppProperties.PrevUndoesNext | src/App.jsx:73-79 | below the last page, Previous undoes Next |
| AppProperties.NextUndoesPrev | src/App.jsx:73-79 | above page 1 and within the page count, Next undoes Previous |
| AppProperties.RepeatedNext | src/App.jsx:73-79 | `k` clicks of Next advance the page by `k`, stopping at the last page; from the last page or beyond they do nothing |
| AppProperties.RepeatedPrev | src/App.jsx:73-79 | `k` clicks of Previous lower the page by `k`, stopping at page 1 |
| AppProperties.EveryPageReachable | src/App.jsx:73-79 | from page 1, every page up to `max(1, totalPages)` is reached by clicking Next; with no pages known, Next stays on page 1 |
| AppProperties.RunAppend | src/App.jsx:21-79 | a run followed by one more event ends in the state that event produces from where the run ended |
| AppProperties.LastResponseWins | src/App.jsx:22-51 | after any run of events ending in a listing or search result, the displayed data and error are exactly those that result produces from any state: the last response wins |
| AppProperties.AddTwiceKeepsDuplicates | src/App.jsx:57 | adding the same entry twice appends two copies |
| AppProperties.RemoveUndoesAdd | src/App.jsx:55-71 | removing an entry right after adding it gives the same state as removing it without the add |
| AppProperties.RemoveFromFavoritesIdempotent | src/App.jsx:67-71 | removing the same entry twice gives the same state as removing it once |

## Left out

- The HTTP requests (src/App.jsx:16-21, 46, 62-65) are network I/O. Their results are abstract success or failure inputs. The fan-out and join of detail requests is folded into one `Listed` or `ListingFailed` outcome.
- The URL used for the favorites detail re-fetch (`pokemon.url`) is not modelled. The fetched record, or the failure, is an input. The displayed records are full detail records (src/App.jsx:19, 47), which carry no top-level `url`, so the re-fetch at src/App.jsx:63 appears to request `undefined`; whether that yields a record depends on the server. This is a reading of the code, not executed.
- Overlapping requests are left out because they depend on concurrency and timing. This covers listing fetches racing each other, and add/remove handlers working on a stale favorites list. Each outcome is applied as one atomic transition to the current state.
- `localStorage`, `JSON.stringify` and `JSON.parse` (src/App.jsx:34-37, 59, 70) are a foreign API and a serialiser. The storage slot is an optional `seq<Entry>`. The crash on unparseable stored text is not modelled.
- Storage writes are assumed to succeed. In the code the in-memory list is set before `localStorage.setItem` runs (src/App.jsx:58-59, 68-70), so a write that throws, for instance on a full quota, leaves memory ahead of storage. `Synced`, the reload clause of `AppProperties.ReachableStates` and the `stored` clauses of `App.AddToFavorites` and `App.RemoveFromFavorites` hold only under this assumption.
- The search text box and `query.toLowerCase()` (src/App.jsx:6, 46, 84-89) are left out. They only build the request URL, and the request outcome is an input.
- Height and weight display (src/App.jsx:99-100, 120-121) uses floating-point division and number-to-string conversion, so it is left out.
- The JSX rendering, the React hook and effect scheduling, and `console.log` (src/App.jsx:40-42, 81-139) are presentation plumbing and are left out.
- Paging.TotalPages: the source computes a floating-point `Math.ceil(count / 9)`. The model uses exact integer ceiling division, which agrees for every count below 2^53, because the rounding error of `count / 9` stays below 1/9.
