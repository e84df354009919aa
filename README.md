# Favorites, pagination, filters and auth of a real-estate listing site

This project is a Dafny model of the core of a real-estate aggregator. The
backend is a Strapi server with a custom favorites controller. The frontend
is a Next.js/React app. The model covers these parts:

- **Favorites controller** (backend). `create` refuses a caller who is not
  signed in, and refuses a property id that is missing, zero or not a
  number. It returns the caller's existing row for that property if there is
  one. Otherwise it inserts a new row. `deleteByPropertyId` parses the path
  parameter with `parseInt(…, 10)`, finds the caller's row for that property
  and deletes it. The favorites table is the `FavoriteStore.FavoriteTable`
  class: a sequence of rows and the next free row id. The model proves that
  creating through the controller never gives a (user, property) pair a
  second row.
- **Favorites context** (frontend). It keeps the set of favorited property
  ids and a loading flag, and updates them from the auth state, the initial
  list request and add/remove requests (`FavoritesCache.FavoritesProvider`).
- **Pagination controls**. The "Showing X–Y of Z" numbers,
  Previous/Next disabling, the page-number window with its ellipses and the
  page-link URL builder.
- **Property filters**. The three selects start from the URL's query. A
  change is written back to the query, and the empty choice removes the
  key.
- **Property card**. The invalid-property guard, the image URL and the
  favorite toggle with its local loading and error state.
- **Auth context**. The session is restored from local storage. `login`
  writes the token and user, and `logout` clears them and goes to
  `/login`.
- **Register and login forms**. Field checks, the register request's error
  mapping and the redirect, and the placeholder login handler.

Side effects are parameters:

- A server reply is a value passed to the method that handles it.
- Local storage is a `map` field.
- The environment variables `NEXT_PUBLIC_STRAPI_API_URL` and
  `NEXT_PUBLIC_STRAPI_URL` are `Option<string>` arguments.
- Navigation (`router.push`) is a log of visited paths, or an answered `Url`.

Parts of the JavaScript semantics are written out:

- Truthiness of strings and `||` defaults (`Common.Truthy`,
  `Common.OrElse`).
- `parseInt(s, 10)`, including leading whitespace, a sign, a digit prefix
  and `NaN` as `None` (`Decimal.ParseInt`).
- `String(n)` of an integer (`Decimal.DecimalString`).
- `JSON.stringify`/`JSON.parse` of the stored user (`UserJson`).

Behaviour of the code worth noting:

- `create` accepts any non-zero number as a property id, including negative
  and fractional ones, not only positive integers.
- A failed initial favorites load leaves the cache as it was. It does not
  empty it.
- `isFavorited` answers from the cache even while loading.

`GET /favorites` has no ownership policy: its route configuration is
commented out. Only the client's `filters[user][id][$eq]` query limits the
list to the signed-in user. `POST /favorites` and
`DELETE /favorites/property/:propertyId` have no policy either. Their
controller actions check the caller themselves and use only the caller's own
rows.

## Model

| member | source | states |
|---|---|---|
| Decimal.DigitPrefixLength | backend/src/api/favorite/controllers/favorite.ts:97 | the length of the longest all-digit prefix: that prefix is all digits and the next character, if any, is not a digit |
| Decimal.ParseIntOfDecimalString | backend/src/api/favorite/controllers/favorite.ts:97-100 | `parseInt(String(n) + rest, 10)` is `n` for every integer `n` when `rest` does not start with a digit |
| Decimal.ParseInt | backend/src/api/favorite/controllers/favorite.ts:97 | `parseInt(s, 10)`: leading white space skipped, one optional sign, the longest digit run, `NaN` as `None`; a definition whose properties are stated by `Decimal.ParseIntOfDecimalString` and `Decimal.ParseIntWithoutDigits` |
| Decimal.ParseIntWithoutDigits | backend/src/api/favorite/controllers/favorite.ts:97-100 | `parseInt` gives `NaN` exactly when no digit follows the leading white space and the optional sign, so "x12" and " -a1" are `NaN` as well as text with no digit at all |
| Decimal.ScanIntegerOfDecimalString | frontend/src/context/AuthContext.tsx:38 | reading a JSON integer back from `String(n) + rest` gives `n` and leaves exactly `rest` |
| UserJson.DecodeEncodeUser | frontend/src/context/AuthContext.tsx:38-54 | `JSON.parse(JSON.stringify(user))` gives back the same id, username and email for every user, including names with quotes and backslashes |
| FavoriteStore.CheckCreate | backend/src/api/favorite/controllers/favorite.ts:39-45 | the request goes ahead exactly when a caller is present and the property is a non-zero number; otherwise Unauthorized (no caller, checked first) or BadRequest, with the source's messages |
| FavoriteStore.CheckDelete | backend/src/api/favorite/controllers/favorite.ts:89-100 | accepted exactly when a caller is present, the parameter is non-empty and `parseInt` gives a number; otherwise Unauthorized, missing-parameter or invalid-parameter BadRequest, in that order |
| FavoriteStore.ClientDeletePathAccepted | backend/src/api/favorite/controllers/favorite.ts:97-100 | the parameter that the frontend puts in the DELETE path for property `p` is accepted and parsed back to `p` |
| FavoriteStore.FindFirst | backend/src/api/favorite/controllers/favorite.ts:48-56 | `findMany` with `limit: 1`: the index of the first row of that user and property, or none when no row matches |
| FavoriteStore.RemoveById | backend/src/api/favorite/controllers/favorite.ts:120 | no row with the deleted id survives, and every surviving row was in the table |
| FavoriteStore.RemoveByIdAt | backend/src/api/favorite/controllers/favorite.ts:117-120 | when ids are distinct, deleting the id of row `k` removes exactly that row and keeps the others in order |
| FavoriteStore.CountZeroIffNoMatch | backend/src/api/favorite/controllers/favorite.ts:113-115 | the number of rows for a pair is zero exactly when the lookup finds none |
| FavoriteStore.UniquePairCountsAtMostOne | backend/src/api/favorite/controllers/favorite.ts:47-64 | in a table where no pair repeats, every (user, property) pair has at most one row |
| FavoriteStore.FavoriteTable.constructor | backend/src/api/favorite/controllers/favorite.ts:26 | the favorite table the entity service holds starts from given rows, whose ids are distinct and below the next free id |
| FavoriteStore.FavoriteTable.Insert | backend/src/api/favorite/controllers/favorite.ts:67-74 | appends one row with a fresh id, the caller, the property and the publication time, and advances the id counter |
| FavoriteStore.FavoriteTable.DeleteById | backend/src/api/favorite/controllers/favorite.ts:120 | the table becomes `RemoveById` of the old rows; ids stay distinct and below the counter |
| FavoriteStore.FavoriteTable.Create | backend/src/api/favorite/controllers/favorite.ts:34-79 | a refused request leaves the table unchanged; an existing row is answered unchanged; otherwise exactly one row is appended and returned, and the pair then has exactly one row; uniqueness of pairs is preserved |
| FavoriteStore.FavoriteTable.DeleteByPropertyId | backend/src/api/favorite/controllers/favorite.ts:85-125 | a refused request or a pair without a row leaves the table unchanged (NotFound with the source's message); otherwise the row is returned and the table loses exactly that row; uniqueness of pairs is preserved |
| FavoriteStore.SequentialCreates | backend/src/api/favorite/controllers/favorite.ts:47-74 | creating the same favorite twice answers the same row both times, and the pair has exactly one row |
| FavoriteStore.CreateThenDeleteTwice | backend/src/api/favorite/controllers/favorite.ts:103-124 | deleting a freshly created favorite returns that row, and a second delete answers NotFound |
| FavoritesCache.PropertyIds | frontend/src/context/FavoritesContext.tsx:48-56 | an id is cached exactly when some row of the list response carries it as a numeric `property.id` |
| FavoritesCache.RemovePathParameter | frontend/src/context/FavoritesContext.tsx:96 | the path parameter written for property `p` parses back to `p` |
| FavoritesCache.FavoritesProvider.constructor | frontend/src/context/FavoritesContext.tsx:18-19 | starts with no ids and loading |
| FavoritesCache.FavoritesProvider.BeginLoad | frontend/src/context/FavoritesContext.tsx:22-40 | while auth loads: loading, cache kept, no request; signed out: cache emptied, not loading, no request; signed in: loading and a list request for that user's id |
| FavoritesCache.FavoritesProvider.FinishLoad | frontend/src/context/FavoritesContext.tsx:44-64 | loading ends; a successful reply replaces the cache with its numeric property ids; a failed one keeps it |
| FavoritesCache.FavoritesProvider.AddFavorite | frontend/src/context/FavoritesContext.tsx:68-89 | signed out: throws "User not authenticated"; rejected: throws the server's message or "Failed to add favorite"; accepted: the id is added; the cache changes only on success |
| FavoritesCache.FavoritesProvider.RemoveFavorite | frontend/src/context/FavoritesContext.tsx:91-115 | same error cases with "Failed to remove favorite"; the DELETE path carries the id; on success exactly that id leaves the cache |
| FavoritesCache.AddThenRemove | frontend/src/context/FavoritesContext.tsx:68-119 | after an accepted add the property is favorited, a second add changes nothing, and after the remove it is not favorited while the other loaded ids stay |
| FavoritesCache.SignOutClears | frontend/src/context/FavoritesContext.tsx:27-31 | signing out empties the cache whatever was loaded, ends loading and sends no request |
| Pagination.CreatePageUrl | frontend/src/components/PaginationControls.tsx:23-27 | the link goes to `/` with every other query parameter kept and `page` set to text that parses back to the page number |
| Pagination.StartItem | frontend/src/components/PaginationControls.tsx:29 | the first item shown, 0 for an empty result; a definition whose bounds `Pagination.ShowingRange` and `Pagination.ShowingEmpty` state |
| Pagination.EndItem | frontend/src/components/PaginationControls.tsx:30 | the last item shown, the end of the page or of the list; a definition whose bounds `Pagination.ShowingRange` and `Pagination.ShowingEmpty` state |
| Pagination.PreviousLink | frontend/src/components/PaginationControls.tsx:35-44 | the Previous link leads to `/` with `page` reading back as `currentPage - 1` and every other query parameter kept, and is disabled exactly when `currentPage <= 1` (the same link at lines 65-78 of the wide layout) |
| Pagination.NextLink | frontend/src/components/PaginationControls.tsx:45-54 | the Next link leads to `/` with `page` reading back as `currentPage + 1` and every other query parameter kept, and is disabled exactly when `currentPage >= pageCount` (the same link at lines 139-146) |
| Pagination.ShowingRange | frontend/src/components/PaginationControls.tsx:29-30 | for a page that holds items, `1 <= start <= end <= total` and the range holds a full page, or the remainder on the last page |
| Pagination.ShowingEmpty | frontend/src/components/PaginationControls.tsx:29-30 | with no items the component shows "0 to 0" on every page |
| Pagination.EnabledLinksStayInRange | frontend/src/components/PaginationControls.tsx:35-54 | Previous is disabled exactly on page 1 and Next exactly on the last page, and an enabled link targets a page between 1 and the page count |
| Pagination.PageWindow | frontend/src/components/PaginationControls.tsx:82-95 | for any current page, the window lies within `1..pageCount` and holds `min(5, pageCount)` pages; it contains the current page when that is in range; with no pages it is empty |
| Pagination.AdjustWindow | frontend/src/components/PaginationControls.tsx:82-95 | the window the component computes, centred and then shifted at either end, is exactly `PageWindow`, whose bounds and size are stated above |
| Pagination.BuildPageNumbers | frontend/src/components/PaginationControls.tsx:81-137 | the loop builds exactly the entry list `PageEntries`: the leading part, the window and the trailing part |
| Pagination.SpanPages | frontend/src/components/PaginationControls.tsx:110-122 | the window part lists pages `lo..hi` in order, marking only the current page |
| Pagination.PageEntriesAt | frontend/src/components/PaginationControls.tsx:98-134 | the list, position by position: page 1, then an ellipsis when page 2 is not in the window, then the window pages, then an ellipsis when the page before the last is not in the window, then the last page |
| Pagination.PagesIncrease | frontend/src/components/PaginationControls.tsx:98-134 | the first entry is page 1, the last is the last page, and the pages strictly increase and stay in range |
| Pagination.EllipsesMarkGaps | frontend/src/components/PaginationControls.tsx:98-134 | adjacent page entries are consecutive pages; every ellipsis stands between two pages and marks a gap between them |
| Pagination.CurrentPageOnly | frontend/src/components/PaginationControls.tsx:110-122 | the current page appears as the current entry, and no other page is marked current |
| Pagination.NoPagesNoEntries | frontend/src/components/PaginationControls.tsx:82-134 | with zero pages no entry is shown |
| PropertyFilters.InitialValue | frontend/src/components/PropertyFilters.tsx:21-23 | the query value of the key, or empty when the key is absent |
| PropertyFilters.ChangedParams | frontend/src/components/PropertyFilters.tsx:70-75 | a non-empty value is set, the empty value removes the key, and every other parameter is kept |
| PropertyFilters.ChangeSurvivesNavigation | frontend/src/components/PropertyFilters.tsx:21-78 | a filter initialised from the new URL shows the chosen value |
| PropertyFilters.ResetForgetsChoice | frontend/src/components/PropertyFilters.tsx:70-75 | choosing "All" after any choice leaves the query as if the filter had never been set |
| PropertyFilters.FilterState.constructor | frontend/src/components/PropertyFilters.tsx:21-23 | each select starts from its query value |
| PropertyFilters.FilterState.HandleFilterChange | frontend/src/components/PropertyFilters.tsx:61-79 | only the state that the select's name selects changes, and the target is `/` with the changed query |
| PropertyFilters.ChangeThenReload | frontend/src/components/PropertyFilters.tsx:21-78 | after a change and a reload from the new URL, the changed filter shows the new value and the others keep theirs |
| Common.OrElse | frontend/src/components/PropertyCard.tsx:25 | `a || b` on strings gives one of the two, and is empty only when `a` is unset or empty and `b` is empty |
| PropertyCard.ApiBase | frontend/src/components/PropertyCard.tsx:25 | the API base is the environment value whenever that is set and non-empty, and `http://localhost:1337` otherwise; it is never empty |
| PropertyCard.ImageUrl | frontend/src/components/PropertyCard.tsx:22-26 | the placeholder without images; otherwise the API base followed by the small format's URL when present, else the image URL |
| PropertyCard.ToggleFailure | frontend/src/components/PropertyCard.tsx:51-54 | the shown error is never empty, and it is the generic text only when the server sent that text itself |
| PropertyCard.FavoriteButton.constructor | frontend/src/components/PropertyCard.tsx:31-32 | a button for the property's id, not loading and with no error |
| PropertyCard.FavoriteButton.HandleFavoriteToggle | frontend/src/components/PropertyCard.tsx:38-58 | no user or a busy button: nothing changes; otherwise a favorited property is removed (then `onRemove` gets the id) or an unfavorited one is added; on a failure the cache is kept and the error is shown; the button ends idle |
| PropertyCard.ToggleTwice | frontend/src/components/PropertyCard.tsx:36-61 | two accepted clicks flip the favorite state and flip it back, and leave the button enabled |
| AuthSession.AuthProvider.constructor | frontend/src/context/AuthContext.tsx:24-26 | no user, no token, loading |
| AuthSession.AuthProvider.RestoreSession | frontend/src/context/AuthContext.tsx:30-46 | with both keys non-empty the token is taken and the user is parsed; an unparsable user clears both keys but keeps the token; otherwise nothing changes; loading ends in every case |
| AuthSession.AuthProvider.Login | frontend/src/context/AuthContext.tsx:49-55 | sets token and user and stores the token and the user's JSON under their keys |
| AuthSession.AuthProvider.Logout | frontend/src/context/AuthContext.tsx:57-65 | clears token and user, removes both keys, and navigates to `/login` |
| AuthSession.ReloadAfterLogin | frontend/src/context/AuthContext.tsx:30-55 | after a login with a non-empty token, a page load restores the same user and token; an empty token is not restored |
| AuthSession.ReloadAfterLogout | frontend/src/context/AuthContext.tsx:30-65 | after a logout, a page load restores nobody and neither key is stored |
| AuthSession.RestoreCorrupt | frontend/src/context/AuthContext.tsx:35-44 | an unparsable stored user leaves a token without a user and empties the storage |
| RegisterForm.CheckFields | frontend/src/components/RegisterForm.tsx:55-63 | the request goes ahead exactly when all fields are filled and the password has at least 6 characters; the two error texts are given in that order |
| RegisterForm.HandleRegister | frontend/src/components/RegisterForm.tsx:7-43 | success exactly for an ok response with a base URL set; no base URL gives the configuration error; a transport failure passes its message on; a non-ok response throws the body's message when it is non-empty and exactly 'Registration failed due to an unknown error.' otherwise |
| RegisterForm.RegisterFormState.constructor | frontend/src/components/RegisterForm.tsx:47-50 | every field and the error start empty, with no navigation |
| RegisterForm.RegisterFormState.HandleSubmit | frontend/src/components/RegisterForm.tsx:52-73 | a field error is shown without a request; otherwise success goes to `/login` with no error, and a failure shows its message |
| RegisterForm.ResubmitAfterShortPassword | frontend/src/components/RegisterForm.tsx:52-73 | a short password shows its error; a corrected submit clears it and goes to `/login` once |
| LoginForm.CheckCredentials | frontend/src/components/LoginForm.tsx:21-24 | the handler is called exactly when both fields are filled; otherwise the missing-credentials text is shown |
| LoginForm.LoginFormState.constructor | frontend/src/components/LoginForm.tsx:14-16 | both fields and the error start empty, and the handler has not been called |
| LoginForm.LoginFormState.HandleLogin | frontend/src/components/LoginForm.tsx:6-11 | the placeholder records its arguments and always resolves |
| LoginForm.LoginFormState.HandleSubmit | frontend/src/components/LoginForm.tsx:18-32 | with a field missing the error is shown and the handler is not called; otherwise the error is cleared and the handler is called once with the typed values |
| LoginForm.SubmitNeverFails | frontend/src/components/LoginForm.tsx:6-32 | the login-failure text is never shown, because the handler cannot throw; the handler runs exactly when both fields are filled |

## Left out

- HTTP, `fetch`, headers, the bearer token and URL bases are not modelled. Each server answer is a parameter (`Reply`, `MutationReply`, `RegisterReply`, an optional list of entries).
- Strapi's `sanitizeOutput`/`transformResponse` are treated as the identity on the row. The entity service is the row sequence of `FavoriteTable`, with `publishedAt` given as a parameter instead of read from the clock.
- Concurrency is not modelled. Each operation runs to completion. Two requests that both find no row and both insert, overlapping add/remove requests, and a list response that arrives after the user changed are outside the model.
- React scheduling is not modelled. The load effect is split into `BeginLoad` (up to the request) and `FinishLoad` (when the request settles). The `localLoading = true` state inside a toggle is not observable between the two awaits.
- The favorite controller's `find` route and the route file are not part of this model.
- The backend models JavaScript numbers as `real` plus `NaN`. Infinities and the 64-bit float precision of `parseInt` above 2^53 are not modelled. Frontend property ids are integers.
- `Decimal.DecimalString`: models `String(n)` for integers only, written digit by digit. From 1e21 on JavaScript writes exponent form ("1e+21", which `parseInt` reads as 1). The frontend passes integer ids.
- `FavoritesCache.RemovePathParameter`: the round trip holds in JavaScript for safe integer ids (below 2^53) only, because of the exponent form above and float rounding.
- `FavoriteStore.ClientDeletePathAccepted`: holds in JavaScript for safe integer ids only, for the same reason.
- `UserJson.DecodeUser`: accepts exactly the layout that `UserJson.EncodeUser` writes (key order, no whitespace, escapes only for `"` and `\`). General `JSON.parse` input, control-character and `\u` escapes are not modelled. Any other stored text counts as a parse error.
- String length is counted in Unicode scalar values. JavaScript counts UTF-16 code units, which differs for characters outside the Basic Multilingual Plane (the password length check).
- `URLSearchParams` is a map. Repeated keys, parameter order, percent-encoding and `toString()` are not modelled. A navigation target is the path and its parameter map.
- `alert`, `console` output, `router.push`'s `{ scroll: false }` option, and the rendered markup (including the image `onError` fallback, price formatting and skeletons) are not modelled.
- The input `onChange` setters of the forms are plain field assignments in the model.
- The filter bar's fetch of category and location options and its loading flag are not modelled. They do not affect the query the filters write.
- `PropertyCard.Renders`: states the invalid-property guard (no property, or a missing or empty title, renders nothing) as a definition without a separate contract.
- `PropertyCard.FavoriteButton.Disabled`: the button's `disabled` attribute (`localLoading || favoritesLoading`) is a definition. `PropertyCard.FavoriteButton.HandleFavoriteToggle` shows that a disabled button ignores clicks.
- `FavoritesCache.FavoritesProvider.IsFavorited`: a definition (membership in the cache). Its behaviour is stated through `FavoritesCache.AddThenRemove` and `PropertyCard.ToggleTwice`.
- The listing pages, the favorites page, the property detail page, the map component, the layout, the seed script and the production configuration are not part of this model. The home page requests the property list without filters or page parameters, so no server-side query builder is modelled.
