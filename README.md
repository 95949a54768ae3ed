# Browse page filters: a verified model

This project models the filter logic of the movie browse page
(`src/app/browse/page.tsx`). The sidebar keeps a record of *pending filters*:
an optional title, minimum and maximum release year, minimum star rating and
list of genres. The user edits that record through the sidebar. The Search
button writes it into the page URL as query parameters. Whenever the URL
changes, the page reads the parameters back twice: once to refill the
sidebar, and once to build the variables of the `BrowseMovies` query.

The model has six modules:

- `Options`: the optional-value and result datatypes.
- `Strings`: the JavaScript string operations the page relies on. These are
  `join` and `split` with a one-character separator, `String(n)` of an
  integer, and `Number(s)` of a decimal integer numeral.
- `SearchParams`: `URLSearchParams` as an ordered list of name/value pairs,
  with its `get`, `set` and `toString`. It also holds the parse a browser
  applies to the query of the address it navigates to.
  The percent-encoding of application/x-www-form-urlencoded (section 5 of the
  WHATWG URL Standard) is a pair of functions passed as a parameter
  (`FormCodec`). `ValidCodec` states what the round trip needs of that pair:
  `decode` undoes `encode`, and `encode` never outputs `&`, `=` or `#`.
- `Filters`: the `Filters` record, the `GENRES` list and the edits. The edits
  are `updatePendingFilter`, genre checkbox changes and star-rating clicks.
  This module also holds the highlight of the five stars.
- `FilterCodec`: the encoder behind the Search button and the two decoders
  (sidebar sync and query variables). It proves the round trips.
- `BrowsePage`: the component as a class whose field is `pendingFilters`,
  with one method per handler and effect. It also holds the sidebar events
  and the theorem that every state the sidebar can reach survives a search.

Main results:

- `FilterCodec.DecodeEncode`: decoding the encoded parameters gives back the
  record exactly when `Encodable` holds.
- `FilterCodec.UrlRoundTrip`: the same holds through the whole address
  (serialise, navigate, parse the query, decode).
- `BrowsePage.ReachableStatesRoundTrip`: every state reachable from `{}`
  through the sidebar round-trips.

Behaviour of the page that is easy to miss, and that the model follows:

- The rating in the URL is not limited to 1–5. Any decimal integer (within
  the integers a JavaScript number holds exactly; see "## Left out" on
  floating point) is read back and doubled for the query.
- A URL whose `genres` parameter has an empty piece (`genres=Action,`)
  decodes to a list holding `""`. Unchecking the other genres can then leave
  `genres: [""]`. The Search button writes that as `genres=` (the list is
  non-empty), and decoding `genres=` sets no genres. `Encodable` excludes
  exactly this list. A state reached from `{}` can never hold it.

## Model

| member | source | states |
|---|---|---|
| `Strings.Split` | src/app/browse/page.tsx:86 | `split` never returns an empty list, and no piece contains the separator |
| `Strings.SplitJoin` | src/app/browse/page.tsx:86 | splitting a comma-joined non-empty list whose elements have no comma gives back the list |
| `Strings.JoinSplit` | src/app/browse/page.tsx:142 | joining the pieces of a split gives back the original string |
| `Strings.JoinIsEmpty` | src/app/browse/page.tsx:141-142 | a join is `""` exactly for `[]` and `[""]` |
| `Strings.NumberRoundTrip` | src/app/browse/page.tsx:85 | `Number(String(n))` is `n` for every integer `n` |
| `SearchParams.Get` | src/app/browse/page.tsx:76-80 | `get` is absent exactly when no pair has that name; otherwise it returns the value of a pair with that name |
| `SearchParams.GetFirst` | src/app/browse/page.tsx:76-80 | the pair `get` reads is the first pair with that name: no earlier pair carries the name |
| `SearchParams.Set` | src/app/browse/page.tsx:142-144 | after `set`, `get` of that name reads the new value and no other name changes; a new name is appended at the end |
| `SearchParams.SetKeepsNamesUnique` | src/app/browse/page.tsx:142-144 | `set` never creates a second pair with the same name |
| `SearchParams.SerializeRoundTrip` | src/app/browse/page.tsx:149 | parsing the output of `toString()` gives back the same pairs in the same order |
| `SearchParams.SerializeIsEmpty` | src/app/browse/page.tsx:149-151 | the query string is empty exactly when there are no parameters |
| `SearchParams.QueryAfterPath` | src/app/browse/page.tsx:151 | the query of `/browse?q` is `q`, and `/browse` has an empty query |
| `Filters.ValueOfDetermines` | src/app/browse/page.tsx:54-60 | a `Filters` record is determined by what its five keys read |
| `Filters.SetFilter` | src/app/browse/page.tsx:116-133 | `""`, `null`, `undefined` or `[]` deletes the key; any other value is stored as given; no other key changes |
| `Filters.RemoveGenre` | src/app/browse/page.tsx:163 | the filter drops every occurrence of the genre and keeps every other genre with its multiplicity |
| `Filters.RemoveGenreSingle` | src/app/browse/page.tsx:163 | on a one-genre list the filter keeps the genre exactly when it differs from the removed one |
| `Filters.RemoveGenreAppend` | src/app/browse/page.tsx:163 | filtering a concatenation is the concatenation of the filtered parts, so the kept genres stay in their order |
| `Filters.GenreChange` | src/app/browse/page.tsx:155-166 | checking appends the genre at the end without de-duplicating; unchecking removes all occurrences and deletes the key when the list empties; only `genres` changes |
| `Filters.RatingClick` | src/app/browse/page.tsx:169-175 | clicking the selected rating clears it, clicking any other selects it; only `minRating` changes |
| `Filters.RatingClickTwice` | src/app/browse/page.tsx:169-175 | two clicks on the same star restore the record, or leave it with no rating if another rating (or none) was selected |
| `Filters.HighlightAt` | src/app/browse/page.tsx:187 | the highlight of star `i` is `minRating !== undefined && i <= minRating` |
| `Filters.HighlightsPrefix` | src/app/browse/page.tsx:181-190 | of the first `n` stars, `min(r, n)` are lit (none without a rating), and lit stars come first |
| `Filters.StarsLit` | src/app/browse/page.tsx:181-190 | with rating `r` in 1..5, exactly stars 1..`r` are lit; with no rating, none is |
| `FilterCodec.EntriesOfFacts` | src/app/browse/page.tsx:139 | `Object.entries` lists each present key once, with its value |
| `FilterCodec.ApplyEntriesFacts` | src/app/browse/page.tsx:139-147 | the loop writes each key at most once, and `get` reads what the step for that key wrote |
| `FilterCodec.EncodeParamsFacts` | src/app/browse/page.tsx:136-147 | the encoded parameters have unique names; each key reads back as written: skipped when empty, genres comma-joined only when non-empty, others through `String` |
| `FilterCodec.Decode` | src/app/browse/page.tsx:74-89 | decoding fails exactly on a present, non-empty rating that is not a decimal integer numeral; a successful result is encodable (the field values are stated by `DecodeFields`) |
| `FilterCodec.DecodeFields` | src/app/browse/page.tsx:74-89 | on a successful decode, title, minYear and maxYear are their parameters when present and non-empty and unset otherwise; the rating is set exactly when its parameter is present and non-empty, and is the number it reads as; the genres are set exactly when their parameter is present and non-empty, and joined with `,` they give back the parameter |
| `FilterCodec.DecodeWritten` | src/app/browse/page.tsx:82-86 | parameters carrying what the encoder writes for each key of an encodable record decode to that record |
| `FilterCodec.DecodeEncode` | src/app/browse/page.tsx:74-152 | decode(encode(f)) = f exactly when f is encodable |
| `FilterCodec.EncodeParamsEmpty` | src/app/browse/page.tsx:136-151 | for an encodable record, the encoder writes nothing exactly when no filter is set |
| `FilterCodec.TargetIsBare` | src/app/browse/page.tsx:151 | the Search target is exactly `/browse` (no `?`) when there are no parameters |
| `FilterCodec.QueryOfTarget` | src/app/browse/page.tsx:149-151 | the query of the Search target is the serialised parameters |
| `FilterCodec.TargetRoundTrip` | src/app/browse/page.tsx:136-152 | loading the Search target gives back the parameters that were written |
| `FilterCodec.UrlRoundTrip` | src/app/browse/page.tsx:74-152 | for an encodable record, encoding, serialising, navigating, parsing and decoding gives the record back |
| `FilterCodec.BrowseVariables` | src/app/browse/page.tsx:95-106 | query variables agree with the sidebar decoding of the same URL: partialTitle = title, minDate = minYear + `-01-01`, maxDate = maxYear + `-12-31`, minRating doubled, same genres, same failure |
| `FilterCodec.SearchedVariables` | src/app/browse/page.tsx:95-106 | after a search from an encodable record the query is exactly: partialTitle = title, minDate = minYear + `-01-01`, maxDate = maxYear + `-12-31`, minRating = twice the stars, genres unchanged, each unset when its filter is unset; 1..5 stars become 2..10 |
| `BrowsePage.GenreNamesAreListable` | src/app/browse/page.tsx:38-51 | every offered genre is non-empty and contains no comma |
| `BrowsePage.SidebarStateIsEncodable` | src/app/browse/page.tsx:136-147 | every sidebar state can be carried by the URL |
| `BrowsePage.GenreChangeKeepsSidebarState` | src/app/browse/page.tsx:155-166 | checking or unchecking one of the offered GENRES keeps every listed genre non-empty and comma-free, so the state stays encodable |
| `BrowsePage.StepKeepsSidebarState` | src/app/browse/page.tsx:224-316 | each sidebar control keeps the pending filters in a sidebar state |
| `BrowsePage.RunKeepsSidebarState` | src/app/browse/page.tsx:224-316 | any sequence of sidebar actions keeps the pending filters in a sidebar state |
| `BrowsePage.ReachableStatesRoundTrip` | src/app/browse/page.tsx:38-203 | every state reachable from `{}` through the sidebar survives a search followed by the URL sync |
| `BrowsePage.ClearingDeletesKeys` | src/app/browse/page.tsx:263-297 | Clear (rating) and Clear All (genres) delete their key and change nothing else |
| `BrowsePage.ResetTargetIsEmptySearch` | src/app/browse/page.tsx:200-203 | reset navigates to `/browse`, the same address a search with no filters produces |
| `BrowsePage.BrowsePage.constructor` | src/app/browse/page.tsx:67 | the pending filters start as `{}` |
| `BrowsePage.BrowsePage.SyncWithUrl` | src/app/browse/page.tsx:74-89 | the URL-sync effect sets the pending filters to the decoding of the URL parameters |
| `BrowsePage.BrowsePage.FetchVariables` | src/app/browse/page.tsx:95-106 | the query variables built field by field equal `BrowseVariables` of the URL parameters |
| `BrowsePage.BrowsePage.UpdatePendingFilter` | src/app/browse/page.tsx:116-133 | the copy-then-delete-or-assign update yields `SetFilter` of the old pending filters |
| `BrowsePage.BrowsePage.HandleApplyFilters` | src/app/browse/page.tsx:136-152 | the `forEach`/`set` loop builds the encoded parameters and returns the Search target |
| `BrowsePage.BrowsePage.HandleGenreChange` | src/app/browse/page.tsx:155-166 | the pending filters become `GenreChange` of the old ones |
| `BrowsePage.BrowsePage.HandleRatingClick` | src/app/browse/page.tsx:169-175 | the pending filters become `RatingClick` of the old ones |
| `BrowsePage.BrowsePage.HandleResetFilters` | src/app/browse/page.tsx:200-203 | the pending filters become `{}` and the target is `/browse` |
| `BrowsePage.BrowsePage.SearchAndSync` | src/app/browse/page.tsx:135-152 | a search followed by the sync effect it triggers leaves an encodable pending state unchanged |

## Left out

- The order of keys in the pending-filters object is not modelled. JavaScript's `Object.entries` lists keys in insertion order, and a deleted and re-added key moves to the end. The model lists them in declaration order (title, minYear, maxYear, minRating, genres). So the order of parameters in the query string can differ from the page's, but the set of pairs is the same. The decoders read parameters by name, so the round trips do not depend on this order.
- FilterCodec.Decode: a non-empty `minRating` parameter that is not a decimal integer numeral (an optional `-` and digits) is an error here. The page instead stores `Number(...)` of it: NaN, a non-integer, or, for strings such as `+5`, ` 5`, `5.0`, `1e3` and `0x10`, an integer that this model rejects. Floating point and `Number`'s full grammar are not modelled.
- FilterCodec.BrowseVariables: the same restriction applies. For such a rating the page sends `Number(...)` of it doubled: NaN, a fractional value, or an integer for strings such as `+5` or `1e3`.
- BrowsePage.BrowsePage.SyncWithUrl: on such a rating the model leaves the pending filters unchanged and returns `false`. The page stores `Number(...)` of the parameter as the rating (NaN, a non-integer, or an integer for strings such as `+5`, `5.0` or `0x10`), together with the other fields.
- BrowsePage.BrowsePage.FetchVariables: on such a rating the model returns the error instead of the variables.
- Strings.ParseNumber: it does not model other strings `Number` accepts, such as surrounding whitespace, `+5`, `1e3` or `0x10`.
- Filters.SetFilter and BrowsePage.BrowsePage.UpdatePendingFilter: they require the value to have the type the `Filters` interface declares for the key, or to be `undefined`/`null`. Every call site in the page passes such a value. The parameter's `any` type would also let a caller store, say, a number as a title; that is not modelled.
- The percent-encoding and decoding of application/x-www-form-urlencoded are parameters (`FormCodec`), not derived. This includes `+` for spaces. URL parsing is reduced to "the text after the first `?`, up to a `#`".
- React scheduling (`useState`, `useEffect`, batching) is not modelled; handlers run one after another. `handleGenreChange` reads `pendingFilters` rather than the updater's `prev`. In a sequential model these are the same.
- `router.push` navigation is not performed: the handlers return the address they would push.
- The `browseMovies` network call, the loading flag, the result handling and the unguarded race between out-of-order responses are I/O and asynchronous concurrency.
- Strings are Dafny strings, sequences of Unicode scalar values. A JavaScript title holding a lone UTF-16 surrogate cannot be expressed; `URLSearchParams` would serialise it as U+FFFD, so such a title would not round-trip. It is outside the model.
- The rendering of results is not modelled, including `new Date(...).getFullYear()` for the release year.
- The `min`/`max` year attributes on the year inputs are browser input hints that the logic does not enforce, so years are free strings here.
- The generated data-connect client, the find-theatres and advanced-search pages, and the Firebase and connector configuration are not part of this model. They are wrappers over vendor SDKs, a hosted model and environment configuration.
