/** The data the search page works with: catalog entries as the remote API
    returns them, and the two shapes a fetch can resolve to. The HTTP calls
    themselves are not modelled; their results arrive as values of these types. */
module Catalog {

  /** A catalog entry (a creature's full detail record): display name,
      height in decimetres, weight in hectograms, sprite URL and the ordered
      ability names. Fetched entries are never modified by the page. */
  datatype Entry = Entry(
    name: string,
    height: nat,
    weight: nat,
    sprite: string,
    abilities: seq<string>)

  /** A value that may be absent; `None` plays the part of JavaScript's `null`. */
  datatype Option<+T> = None | Some(value: T)

  /** How the listing request resolves: either the page's detail records
      (after every detail fetch of the fan-out succeeded) together with the
      catalog's total entry count, or a failure of any request involved. */
  datatype ListingOutcome =
    | Listed(entries: seq<Entry>, count: nat)
    | ListingFailed

  /** How a single-entry request (search by name or id, or the detail
      re-fetch when adding a favorite) resolves. */
  datatype DetailOutcome =
    | Fetched(entry: Entry)
    | DetailFailed
}
