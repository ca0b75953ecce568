# Pokémon list view — verified model

This project models the list view of a small Pokémon catalogue (`src/app/page.tsx`).
On mount the view requests one page of `{name, url}` summaries. It shows a loading message
and then either the error or a grid of clickable cards. The grid is filtered by a
case-insensitive substring search. Clicking a card navigates to `/<id>`, where `<id>` is the
last non-empty `/`-separated segment of the record's URL.

Modules, one per part of the component:

- `Wrappers`: `Option`, the model of a value that may be `undefined`/`null`.
- `Text`: ASCII `toLowerCase` and `includes`, with `includes` characterised as "occurs at some position".
- `Search`: the `Pokemon` record and `Filter`. The filter is proved to pick exactly the matching
  records, in order. It is also proved idempotent, case-insensitive in its query and the identity for
  the empty query.
- `Routing`: `split('/')` (with its inverse `Join`), `filter(Boolean)`, `pop()`, the identifier and
  the route pushed on a click. The identifier is characterised in both directions as the last
  non-empty slash-free segment. It is absent exactly for URLs made only of slashes.
- `Display`: which branch is rendered. Loading beats error, and error beats the grid. The
  "no results" message is shown exactly when the grid is shown and empty.
- `ListPage`: the component's four state cells as a class. `Start`, `Succeed`, `Fail` and
  `FetchPokemon` model the `try`/`catch`/`finally` of `fetchPokemon`. `Mount` models the whole
  effect on a fresh component.

The network outcome is an input (`FetchOutcome`): either `Fetched(results)` or `Threw(thrown)`.
A thrown value is an `Error` carrying a message, or any other value.

Three behaviours of the code are worth noting:

- The error test is JavaScript truthiness. An `Error` whose message is `""` therefore leaves the
  error branch hidden, and the view shows the unchanged grid. The "no results" message appears
  too when that grid is empty (`ListPage.ScreenAfterFailure`, `Display.Render`).
- A URL with no non-empty segment yields `undefined`. The pushed route is then `"/undefined"`
  (`Routing.NavTargetRoundTrip`).
- The "no results" condition is an empty filtered list with `!isLoading && !error`, so it also holds after a failure whose message is empty.

## Model

| member | source | states |
|---|---|---|
| Text.LowerChar | src/app/page.tsx:51 | lower-casing maps `A`-`Z` to `a`-`z`, keeps every other character, and never yields a capital |
| Text.LowerIdempotent | src/app/page.tsx:51 | lower-casing an already lower-cased string changes nothing |
| Text.Lower | src/app/page.tsx:51 | `toLowerCase` keeps the length and lower-cases each character in place |
| Text.Contains | src/app/page.tsx:51 | `includes` always finds the empty needle and never finds a needle longer than the hay |
| Text.ContainsIffOccurs | src/app/page.tsx:51 | `includes` holds exactly when the needle occurs at some position (so the empty needle is always found) |
| Search.Matches | src/app/page.tsx:51 | the filter callback holds exactly when the lower-cased query occurs at some position of the lower-cased name |
| Search.Filter | src/app/page.tsx:50-52 | the result is no longer than the input and holds only input records that match the query |
| Search.FilterSelectsExactlyMatches | src/app/page.tsx:50-52 | the result is the input read at the ascending list of positions whose records match, and a position is in that list exactly when its record matches |
| Search.FilterIsSubsequence | src/app/page.tsx:50-52 | the result is an order-preserving subsequence of `pokemonData` |
| Search.FilterMembership | src/app/page.tsx:51 | a record is in the result exactly when it is in the input and its lower-cased name contains the lower-cased query |
| Search.FilterEmptyQuery | src/app/page.tsx:50-52 | the empty query (the initial `searchQuery`) returns the whole list unchanged |
| Search.FilterCaseInsensitive | src/app/page.tsx:51 | two queries that lower-case alike give the same result |
| Search.FilterLowerQuery | src/app/page.tsx:51 | lower-casing the query first gives the same result |
| Search.FilterIdempotent | src/app/page.tsx:50-52 | filtering the filtered list again by the same query gives the same list |
| Search.FilterScenario | src/app/page.tsx:50-52 | bulbasaur and charmander searched for "char" leave only charmander |
| Routing.Split | src/app/page.tsx:46 | `split('/')` gives at least one piece and no piece contains a slash |
| Routing.JoinSplit | src/app/page.tsx:46 | joining the pieces with `/` restores the URL |
| Routing.SplitJoin | src/app/page.tsx:46 | splitting a join of slash-free pieces restores the pieces |
| Routing.DropEmpty | src/app/page.tsx:46 | `filter(Boolean)` keeps only non-empty pieces taken from its input, never more of them |
| Routing.DropEmptyMembership | src/app/page.tsx:46 | a piece survives `filter(Boolean)` exactly when it is non-empty |
| Routing.DropEmptySingle | src/app/page.tsx:46 | `filter(Boolean)` keeps a single piece exactly when it is non-empty |
| Routing.DropEmptyAppend | src/app/page.tsx:46 | `filter(Boolean)` of a concatenation is the concatenation of the filtered parts, so order and repetitions are kept |
| Routing.Pop | src/app/page.tsx:46 | `pop()` gives `undefined` exactly for an empty array, and otherwise the element that follows all the others |
| Routing.PokemonId | src/app/page.tsx:46 | an identifier, when present, is non-empty and contains no slash |
| Routing.IdIgnoresTrailingSlash | src/app/page.tsx:46 | one trailing slash does not change the identifier |
| Routing.IdIgnoresTrailingSlashes | src/app/page.tsx:46 | any run of trailing slashes does not change the identifier |
| Routing.IdOfDecomposed | src/app/page.tsx:46 | a URL that is a prefix ending in a slash (or empty), a slash-free segment, and slashes yields that segment |
| Routing.IdIsLastSegment | src/app/page.tsx:46 | the identifier is `seg` exactly when the URL decomposes around `seg` as its last non-empty segment |
| Routing.NoIdIffAllSlashes | src/app/page.tsx:46 | there is no identifier exactly when the URL is empty or only slashes |
| Routing.IdOfResourceUrl | src/app/page.tsx:86 | `https://pokeapi.co/api/v2/pokemon/25/` yields `25` |
| Routing.NavTarget | src/app/page.tsx:45-47 | the pushed route is a `/` followed by one non-empty slash-free segment |
| Routing.NavTargetRoundTrip | src/app/page.tsx:45-47 | the pushed route's own identifier is the card's identifier; a missing identifier gives `/undefined` |
| Display.CardOf | src/app/page.tsx:86-103 | a card shows its record's name, and its click route is `/` followed by the record's identifier (or `/undefined`), whose own identifier is the record's |
| Display.Cards | src/app/page.tsx:85-107 | one card per filtered record, in the filtered order |
| Display.Render | src/app/page.tsx:75-115 | loading shows only the loading branch; otherwise a truthy error shows its message; otherwise the grid holds one card per filtered record in order; "no results" names the query and appears exactly when the filtered list is empty, not loading and no truthy error |
| Display.NoResultsIffEmptyGrid | src/app/page.tsx:111 | "no results" is shown exactly when the grid is the branch rendered and it is empty |
| Display.GridShowsMatches | src/app/page.tsx:84-107 | a settled view whose error is `null` or `""` shows a card for every matching record and no card of a non-matching one |
| Display.EmptyQueryShowsEverything | src/app/page.tsx:84-115 | with the empty query and no error, every record gets a card in order, and "no results" appears exactly for an empty list |
| ListPage.ErrorText | src/app/page.tsx:36 | an `Error` gives its own message and any other thrown value the fixed fallback message; the message is empty only for an `Error` with an empty message |
| ListPage.ScreenAfterFailure | src/app/page.tsx:79-83 | after a failure the error message replaces the grid whatever data is held, unless the message is empty |
| ListPage.ListPageState.constructor | src/app/page.tsx:22-25 | the initial state is no data, loading, no error and an empty query |
| ListPage.ListPageState.View | src/app/page.tsx:75-115 | the current state renders the loading branch alone while loading, else the truthy error alone, else the grid of filtered cards, with "no results" naming the query for an empty filtered list and absent otherwise |
| ListPage.ListPageState.SetSearchQuery | src/app/page.tsx:65 | the query becomes the input's value; nothing else changes |
| ListPage.ListPageState.Start | src/app/page.tsx:31 | loading is set, nothing else changes, and the loading branch alone is rendered |
| ListPage.ListPageState.Succeed | src/app/page.tsx:34-38 | the data becomes `results`, loading ends, and the error and query are untouched |
| ListPage.ListPageState.Fail | src/app/page.tsx:35-38 | the error becomes the catch block's message, loading ends, and the data and query are untouched |
| ListPage.ListPageState.FetchPokemon | src/app/page.tsx:29-40 | either outcome ends loading; success stores the results and keeps the error; failure stores the message and keeps the data |
| ListPage.Mount | src/app/page.tsx:28-43 | after mounting, success stores the results and renders every fetched record as a card (and "no results" for an empty page); a failure keeps the empty data, stores the catch block's message and renders it, except that an empty message renders an empty grid and "no results" for `''` |

## Left out

- Text.Lower: models `toLowerCase` on ASCII letters only; full Unicode case mapping, including length-changing mappings, is not modelled.
- The `axios.get` request, its URL and the response shape are not modelled; the request's outcome is the `FetchOutcome` parameter.
- `useEffect` scheduling, `await` suspension and React's batching are not modelled; the lifecycle is sequential method calls, and a keystroke between `Start` and the outcome is a `SetSearchQuery` call in between.
- `console.log` (line 33) is a side effect with no bearing on state.
- `router.push` internals: only the pushed route string (`NavTarget`) is modelled.
- JSX markup, CSS classes, the `Card`/`Search` components, the sprite `<img>` URL (line 96) and React `key`s are presentation only.
- Strings are sequences of characters; JavaScript's UTF-16 code units are not distinguished from code points, which does not affect `/` splitting or ASCII lower-casing.
- The detail view (`src/app/[id]/page.tsx`) is not part of this model.
