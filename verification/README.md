# insight-board frontend: state layer and utilities, in Dafny

This project models the client-side core of the insight-board news reader:

- **`deduplicateArticles`**, which keeps the first article of each
  normalised title. The normalisation is lower-case, drop everything outside
  `[a-z0-9 ]`, collapse `\s` runs to one space, then trim.
- The other pure helpers of `utils.js`: `truncateText`, `getCategoryColor`,
  `isValidEmail`, `isStrongPassword` and `getErrorMessage`.
- **The three stores of `store.js`:**
  - auth: `setAuth`, `logout`, `updateUser`;
  - theme: `toggleTheme`, `setTheme` and the `onRehydrateStorage` hook;
  - news: `setCategory`, `setSearchQuery`, `setFavorites`, `addFavorite`,
    `removeFavorite`.
- **The two interceptors of the shared API client in `api.js`.** One attaches
  `Authorization: Bearer <token>` from `localStorage`. The other purges the
  token and sends the page to `/auth/login` on a 401.

Each store action is a pure function from the old state to the new state.
The browser (whether `window` exists, the document element's class list,
`localStorage` and `window.location`) is a plain value, `Browser.Env`. Store
actions that touch the browser take an `Env` and return the new one.

`setAuth` is split at its `await`:
- `Session.SetAuth` is the synchronous `set`.
- `Session.FavoritesFetched` is what happens whenever the favourites request
  settles. How it settled (`FetchOutcome`) is a parameter.

The network call itself is not modelled. Neither is the order in which other
actions interleave with it; the lemmas in `Session` state what the code does
for particular orders.

Strings are `seq<char>`. Where the code reads a value only through `||`
or `?.`, which treat `null` and `undefined` alike, a missing value is
`None`, and `Truthy` is JavaScript truthiness for a string that may be
missing. An article id is compared with `!==`, which tells `null` from
`undefined`, so it is an `ArticleId` with both cases.

Modules and files:
- `wrappers.dfy`: `Option`.
- `js_string.dfy`: the JavaScript string semantics used: `\s`, ASCII
  lower-casing, `trim`, truthiness.
- `seqs.dfy`: subsequences.
- `articles.dfy`: the article record.
- `title_normalize.dfy` and `dedup.dfy`: `deduplicateArticles`.
- `dedup_examples.dfy`: concrete instances of deduplication.
- `truncate.dfy`, `category_color.dfy`, `validators.dfy`,
  `error_message.dfy`: the other utilities.
- `http.dfy`: the error and request records.
- `browser.dfy`: the environment.
- `auth_store.dfy`, `theme_store.dfy`, `news_store.dfy`: the stores.
- `api_client.dfy`: the interceptors.
- `session.dfy`: the calls that cross between stores.

### Behaviour of the code worth knowing

- **`updateUser` has no signed-in guard.** After `logout` it still merges,
  so it installs a user on a store that is not authenticated. See
  `AuthStore.UpdateUserWhileSignedOutBreaksConsistency`.
- **A favourites fetch that settles after `logout` is still applied (last
  write wins).** Nothing checks whether the session that started the fetch
  is still current, so a late result repopulates a signed-out session's
  favourites. See `Session.LateFetchAfterSignOutRepopulates`.
- **A 401 leaves the auth store signed in.** The interceptor only removes
  the `token` and `user` storage keys. The auth store persists under
  `auth-storage` and keeps its state. See `Session.UnauthorizedLeavesAuthStore`.
- **The 401 purge does not check for `window`.** The two
  `localStorage.removeItem` calls run whether or not a window exists; only
  the redirect is guarded. The model does the same, assuming
  `localStorage` is available (see "Left out").

## Model

| member | source | states |
|---|---|---|
| JsString.Lower | frontend/src/lib/utils.js:12 | `toLowerCase` keeps the length, maps each character by itself, and leaves no upper-case ASCII letter |
| JsString.LowerOfLower | frontend/src/lib/utils.js:12 | a string without upper-case letters is its own lower-case form |
| JsString.LowerAppend | frontend/src/lib/utils.js:12 | lower-casing distributes over concatenation |
| JsString.Trim | frontend/src/lib/utils.js:15 | the result starts and ends with non-`\s`, is empty exactly when the input is all `\s`, uses only input characters, and leaves an already-trimmed string alone |
| JsString.TrimRemovesOnlyEdgeSpace | frontend/src/lib/utils.js:15 | `trim` returns a contiguous slice `s[a..b]` of its input, and everything outside it is `\s` |
| TitleNormalize.Strip | frontend/src/lib/utils.js:13 | `replace(/[^a-z0-9 ]/gi, "")` keeps only input characters from `[A-Za-z0-9 ]` and changes nothing when all characters are such |
| TitleNormalize.StripAppend | frontend/src/lib/utils.js:13 | the character filter distributes over concatenation |
| TitleNormalize.CollapseShape | frontend/src/lib/utils.js:14 | `replace(/\s+/g, " ")` keeps every non-`\s` character, writes only single spaces, never leaves two neighbouring `\s`, and starts with `\s` exactly when the input does |
| TitleNormalize.CollapseFixedPoint | frontend/src/lib/utils.js:14 | collapsing leaves alone a string whose only white space is isolated spaces |
| TitleNormalize.CollapseAppend | frontend/src/lib/utils.js:14 | collapsing distributes over a concatenation that is not split inside a run |
| TitleNormalize.CollapseSpaceRunFirst | frontend/src/lib/utils.js:14 | a whole run of `\s` before a non-space becomes a single space |
| TitleNormalize.NormalizeIsNormalized | frontend/src/lib/utils.js:10-15 | a normalised title holds only `a-z0-9` and single inner spaces, and neither starts nor ends with white space |
| TitleNormalize.NormalizeFixedPoints | frontend/src/lib/utils.js:10-15 | normalisation leaves a string unchanged exactly when it is in that normal form (both directions) |
| TitleNormalize.NormalizeIdempotent | frontend/src/lib/utils.js:10-15 | normalising twice equals normalising once |
| TitleNormalize.NormalizeIgnoresCase | frontend/src/lib/utils.js:12 | titles differing only in ASCII letter case normalise alike |
| TitleNormalize.NormalizeIgnoresDroppedChar | frontend/src/lib/utils.js:13 | inserting a character outside `[A-Za-z0-9 ]` anywhere does not change the normalised title |
| TitleNormalize.NormalizeCollapsesSpaceRun | frontend/src/lib/utils.js:14-15 | between a letter or digit on each side, a run of spaces normalises like one space |
| Dedup.KeepFirstByKey | frontend/src/lib/utils.js:16-21 | the one-pass `filter` with a `seen` set computes the reference definition `FirstOccurrences`: the elements standing at the first occurrence of their key |
| Dedup.FirstPositionsSpec | frontend/src/lib/utils.js:18-20 | the positions kept are exactly the first occurrences of their keys, in ascending order |
| Dedup.ScanStep | frontend/src/lib/utils.js:18-20 | one filter step adds the key to `seen` and keeps the element exactly when its key was not seen before |
| Dedup.FirstOccurrencesSpec | frontend/src/lib/utils.js:16-21 | the kept elements form a subsequence of the input, no two share a key, and every key of the input is kept |
| Dedup.FirstOccurrencesIsSubsequence | frontend/src/lib/utils.js:16 | the result keeps input elements in input order |
| Dedup.FirstOccurrencesKeysDistinct | frontend/src/lib/utils.js:18 | no two kept elements share a key |
| Dedup.FirstOccurrencesKeepEveryKey | frontend/src/lib/utils.js:19-20 | every key of the input is represented in the result |
| Dedup.FirstOccurrencesAreFirsts | frontend/src/lib/utils.js:18-20 | each kept element stands at the first occurrence of its key, and each first occurrence is kept |
| Dedup.DeduplicateArticles | frontend/src/lib/utils.js:8-22 | keeps, in input order, the first article of each normalised title: a subsequence with distinct keys that covers every key |
| Dedup.TitlelessCollapse | frontend/src/lib/utils.js:17 | when no article has a truthy title, only the first article survives |
| Dedup.OneKeyKeepsFirst | frontend/src/lib/utils.js:18-20 | when all elements share one key, only the first is kept |
| DedupExamples.SpacingAndPunctuationVariants | frontend/src/lib/utils.js:10-15 | titles like `"hello world!"` and `"hello   world"` normalise alike |
| DedupExamples.SameKeyKeepsFirst | frontend/src/lib/utils.js:18-20 | of two elements with one key, only the first is kept |
| DedupExamples.TitledSameKey | frontend/src/lib/utils.js:17 | articles with non-empty titles are keyed by the normal form of the title |
| DedupExamples.CaseSpacingAndPunctuationVariants | frontend/src/lib/utils.js:10-15 | titles like `"Hello World!"` and `"hello   world"`, which differ in case, spacing and punctuation, normalise alike |
| DedupExamples.MixedCaseVariantTitlesCollapse | frontend/src/lib/utils.js:8-22 | two articles titled like `"Hello World!"` and `"hello   world"` deduplicate to the first |
| DedupExamples.VariantTitlesCollapse | frontend/src/lib/utils.js:8-22 | two articles whose titles differ only in spacing and punctuation deduplicate to the first |
| DedupExamples.DeduplicateTitleless | frontend/src/lib/utils.js:17 | an article without a title and one with an empty title deduplicate to the first |
| Truncate.Prefix | frontend/src/lib/utils.js:42 | `substring(0, n)` clamps `n` into `[0, length]` |
| Truncate.TruncateText | frontend/src/lib/utils.js:39-43 | falsy text gives `""`; text within the bound is returned unchanged; longer text ends in `"..."` after a kept part that neither starts nor ends with white space; the result is at most the bound plus three long |
| Truncate.TruncateTextDefault | frontend/src/lib/utils.js:39 | with `maxLength` omitted the bound is 100: shorter text is unchanged and no result exceeds 103 characters |
| Truncate.CutKeepsPrefixUpToEdgeSpace | frontend/src/lib/utils.js:42 | a cut result is the trimmed `maxLength`-prefix plus `"..."`: a slice of the prefix that is empty or has non-white edges, with only white space outside it |
| Truncate.CutAtWordIsExactPrefix | frontend/src/lib/utils.js:42 | when the cut prefix neither starts nor ends with white space, the result is exactly that prefix plus `"..."`, `maxLength + 3` long |
| CategoryColor.LookupKey | frontend/src/lib/utils.js:63 | `category?.toLowerCase()` keeps absence and lower-cases a present category |
| CategoryColor.GetCategoryColorAsWritten | frontend/src/lib/utils.js:48-64 | the lookup as written returns an inherited non-string member exactly for the categories that lower-case to `constructor` or `__proto__`, and otherwise one of the seven class strings |
| CategoryColor.GetCategoryColor | frontend/src/lib/utils.js:48-64 | the intended lookup always returns one of the seven class strings, the table's entry for a known category in any letter case |
| CategoryColor.ColorsDistinct | frontend/src/lib/utils.js:49-62 | the seven class strings are pairwise different |
| CategoryColor.GeneralExactlyWhenUnknown | frontend/src/lib/utils.js:63 | the result is the `general` classes exactly when the category is missing, unknown, or `general` (both directions) |
| CategoryColor.CaseInsensitive | frontend/src/lib/utils.js:63 | categories equal after lower-casing get the same classes |
| CategoryColor.IgnoresCase | frontend/src/lib/utils.js:63 | a category and its lower-case form get the same classes |
| CategoryColor.AsWrittenAgreesOffPrototype | frontend/src/lib/utils.js:63 | away from the two inherited names, the lookup as written equals the intended one |
| CategoryColor.AsWrittenLeaksConstructor | frontend/src/lib/utils.js:63 | `"Constructor"` reaches the inherited `Object` constructor as written, and the `general` classes in the corrected lookup |
| Validators.EmailPatternIsShape | frontend/src/lib/utils.js:70 | `^[^\s@]+@[^\s@]+\.[^\s@]+$` matches exactly the strings without white space that have one `@` not at the start and, after it, a dot neither next to the `@` nor last |
| Validators.IsValidEmail | frontend/src/lib/utils.js:69-72 | the one-pass check accepts exactly the strings the regular expression matches |
| Validators.PasswordPatternIsStrength | frontend/src/lib/utils.js:79 | the lookahead pattern matches exactly the strings of at least six UTF-16 code units, free of line terminators, with an ASCII lower-case letter, an upper-case letter and a digit |
| Validators.IsStrongPassword | frontend/src/lib/utils.js:77-81 | the one-pass check, counting code units, accepts exactly the strings the regular expression matches |
| Validators.AstralCharsCountTwice | frontend/src/lib/utils.js:79 | five characters of which two lie above U+FFFF, like `"aA1😀😀"`, are seven code units and a strong password |
| JsString.Utf16Length | frontend/src/lib/utils.js:79 | JavaScript's code-unit length lies between the number of characters and twice that |
| Http.StatusOf | frontend/src/lib/api.js:31 | `error.response?.status` is present exactly when a response is |
| Http.ServerMessage | frontend/src/lib/utils.js:105 | `error.response?.data?.message` is present exactly when each step of the chain is |
| ErrorMessage.GetErrorMessage | frontend/src/lib/utils.js:104-112 | a truthy server message wins, then a truthy client message, then the fixed fallback; the result is never empty |
| ErrorMessage.MessageIsACandidate | frontend/src/lib/utils.js:104-112 | the result is one of the three candidates |
| ErrorMessage.ServerMessageTakesPrecedence | frontend/src/lib/utils.js:105-107 | with a truthy server message, the client message is irrelevant |
| ErrorMessage.StatusDoesNotMatter | frontend/src/lib/utils.js:104-112 | the status code never affects the message |
| Browser.GetItem | frontend/src/lib/api.js:16 | `getItem` answers a stored value exactly for a present key |
| Browser.SetItem | frontend/src/lib/store.js:51-54 | `setItem` makes the key read the value and changes no other key |
| Browser.RemoveItem | frontend/src/lib/api.js:33-34 | `removeItem` makes the key read missing and changes no other key |
| ApiClient.OnRequest | frontend/src/lib/api.js:15-20 | a truthy stored token sets `Authorization` to `Bearer ` plus the token and keeps every other header; otherwise the request is unchanged |
| ApiClient.RequestDependsOnlyOnToken | frontend/src/lib/api.js:16 | the request interceptor reads storage only through the `token` key |
| ApiClient.NextRequestSeesStorageChange | frontend/src/lib/api.js:16-19 | the token is read on every request: a newly stored token is sent, and after removal none is |
| ApiClient.OnResponseError | frontend/src/lib/api.js:30-40 | a 401 removes `token` and `user` and nothing else, and redirects to the login path when a window exists; any other error changes nothing; the error is rejected unchanged |
| ApiClient.OnResponse | frontend/src/lib/api.js:28-41 | a success passes through untouched; a failure stays a failure with the error handler's effects |
| ApiClient.UnauthorizedIsIdempotent | frontend/src/lib/api.js:31-37 | handling the same 401 twice equals handling it once |
| ApiClient.NoTokenAfterUnauthorized | frontend/src/lib/api.js:33 | after a 401, the next request goes out without a bearer token |
| ApiClient.UnauthorizedKeepsAuthStorage | frontend/src/lib/api.js:33-34 | a 401 leaves every storage key other than `token` and `user` as it was |
| AuthStore.Login | frontend/src/lib/store.js:9 | `set({ user, token, isAuthenticated: true })` takes the identity as given, whatever the store held |
| AuthStore.Logout | frontend/src/lib/store.js:21 | `logout` clears user and token and marks the store signed out |
| AuthStore.Spread | frontend/src/lib/store.js:28 | `{ ...a, ...b }` has the keys of both, and `b`'s values win |
| AuthStore.UpdateUser | frontend/src/lib/store.js:26-30 | the new user has every field of the update and keeps every other field of the current user; token and sign-in flag are untouched |
| AuthStore.LogoutIdempotent | frontend/src/lib/store.js:20-24 | logging out twice equals logging out once |
| AuthStore.LoginForgetsPreviousIdentity | frontend/src/lib/store.js:9 | the state after `setAuth` does not depend on the state before |
| AuthStore.UpdateUserIdempotent | frontend/src/lib/store.js:26-30 | merging the same data twice equals merging once |
| AuthStore.UpdateUserWithNothing | frontend/src/lib/store.js:28 | merging nothing keeps a present user unchanged |
| AuthStore.UpdateUserWhileSignedOutBreaksConsistency | frontend/src/lib/store.js:26-30 | after `logout`, `updateUser` leaves a user on a store that is not authenticated |
| AuthStore.UpdateUserKeepsConsistencyWhenSignedIn | frontend/src/lib/store.js:26-30 | while signed in, `updateUser` keeps the store consistent |
| ThemeStore.NextTheme | frontend/src/lib/store.js:44 | the next theme is dark exactly when the current one is light, and is always light or dark |
| ThemeStore.ApplyClass | frontend/src/lib/store.js:46-50 | the `dark` class is present exactly for the dark theme, and no other class changes |
| ThemeStore.Mirror | frontend/src/lib/store.js:45-55 | with a window, the class and the stored theme agree with the theme afterwards; only `theme-storage` and the `dark` class change; without a window nothing changes |
| ThemeStore.ToggleTheme | frontend/src/lib/store.js:42-57 | the new theme is dark exactly when the old one was light, and the class and storage are synchronised to it |
| ThemeStore.SetTheme | frontend/src/lib/store.js:58-71 | any value becomes the theme and is mirrored to the class and storage |
| ThemeStore.ToggleIsSetNext | frontend/src/lib/store.js:42-71 | toggling equals setting the next theme |
| ThemeStore.ToggleTwiceRestores | frontend/src/lib/store.js:42-57 | from light or dark, two toggles restore the theme and resynchronise the environment to it |
| ThemeStore.MirrorTwice | frontend/src/lib/store.js:45-55 | a later mirror overrides an earlier one |
| ThemeStore.ToggleFromUnknownIsLight | frontend/src/lib/store.js:44 | any value other than light or dark toggles to light |
| ThemeStore.SetThemeIdempotent | frontend/src/lib/store.js:58-71 | setting the same theme twice equals setting it once |
| ThemeStore.ResolvedTheme | frontend/src/lib/store.js:77 | the hydrated theme when truthy, else light; never empty |
| ThemeStore.OnRehydrate | frontend/src/lib/store.js:75-84 | with a window, the `dark` class follows the resolved theme; storage, the store and other classes are untouched |
| ThemeStore.RehydrateIdempotent | frontend/src/lib/store.js:75-84 | rehydrating twice from the same value equals rehydrating once |
| ThemeStore.RehydrateAfterSetThemeChangesNothing | frontend/src/lib/store.js:58-84 | rehydrating from what `setTheme` stored leaves the document as `setTheme` left it |
| ThemeStore.RehydrateSyncsStoredTheme | frontend/src/lib/store.js:75-84 | rehydrating from a truthy stored theme synchronises the class with it |
| NewsStore.SetCategory | frontend/src/lib/store.js:94 | replaces the category and nothing else |
| NewsStore.SetSearchQuery | frontend/src/lib/store.js:95 | replaces the search text and nothing else |
| NewsStore.SetFavorites | frontend/src/lib/store.js:96 | replaces the favourites wholesale and nothing else |
| NewsStore.AddFavorite | frontend/src/lib/store.js:97-100 | appends the article after the unchanged old list, even when it is already present |
| NewsStore.RemoveFavorite | frontend/src/lib/store.js:101-104 | keeps exactly the entries whose id is strictly different (`!==`), in order, shrinking by the number of matches; other fields untouched |
| NewsStore.RemoveNullKeepsIdless | frontend/src/lib/store.js:103 | `removeFavorite(null)` keeps a favourite that has no `articleId`, since `undefined !== null` |
| NewsStore.WithoutMembers | frontend/src/lib/store.js:103 | an entry survives the filter exactly when it was present and carries another id |
| NewsStore.WithoutIsSubsequence | frontend/src/lib/store.js:103 | the filter keeps the survivors in their original order |
| NewsStore.WithoutAppend | frontend/src/lib/store.js:103 | the filter distributes over concatenation |
| NewsStore.WithoutNoMatchIsIdentity | frontend/src/lib/store.js:103 | with no entry carrying the id, the filter changes nothing |
| NewsStore.RemoveCountsMatches | frontend/src/lib/store.js:103 | the filter removes exactly the matching entries |
| NewsStore.RemoveIdempotent | frontend/src/lib/store.js:101-104 | removing an id twice equals removing it once |
| NewsStore.AddThenRemove | frontend/src/lib/store.js:97-104 | adding an article and removing its id equals only removing the id |
| Session.FetchedFavorites | frontend/src/lib/store.js:12-16 | the fetched list when the request succeeds with one, otherwise the empty list |
| Session.SetAuth | frontend/src/lib/store.js:9 | the synchronous half of `setAuth` changes only the auth store |
| Session.FavoritesFetched | frontend/src/lib/store.js:11-17 | when the request settles, the favourites are replaced wholesale and nothing else changes |
| Session.SignOut | frontend/src/lib/store.js:20-24 | `logout` resets the auth store and empties the favourites, and nothing else changes |
| Session.RequestFailed | frontend/src/lib/api.js:30-40 | a failed request changes only the browser environment, never a store |
| Session.SignOutIdempotent | frontend/src/lib/store.js:20-24 | signing out twice equals signing out once |
| Session.SignInSurvivesFailedFetch | frontend/src/lib/store.js:8-18 | a failed favourites fetch leaves the user signed in with an empty list |
| Session.SignInShowsFetchedList | frontend/src/lib/store.js:8-18 | a successful fetch shows exactly the fetched list |
| Session.LateFetchAfterSignOutRepopulates | frontend/src/lib/store.js:8-24 | a fetch settling after `logout` puts its list into the signed-out session (last write wins) |
| Session.UnauthorizedLeavesAuthStore | frontend/src/lib/api.js:31-34 | a 401 leaves the auth store and its `auth-storage` entry unchanged while the token is gone |

## Left out

- `formatRelativeTime`, `debounce` and `getPlaceholderImage`: these are clock, timer and presentation helpers outside the state layer.
- The HTTP transport and the endpoint table (`authAPI`, `newsAPI`, `userAPI`): network I/O. A request's outcome enters the model as a parameter (`FetchOutcome`, `Settled`).
- The zustand `persist` machinery: the JSON wrapping of stored state, the write of `auth-storage` on every change, and the merge of stored state into the store on hydration. `OnRehydrate` takes the hydrated theme as its argument. The stored theme blob is the theme string itself.
- `layout.js` and `providers.js`: page markup and React providers.
- Asynchronous interleavings in general: `Session` gives the orders of interest as compositions of steps, and no scheduler is modelled.
- JsString.Lower: models `toLowerCase` for ASCII letters only. Non-ASCII case mappings, some of which change the length, are not modelled.
- Truncate.TruncateText: lengths count code points, whereas JavaScript's `length` and `substring` count UTF-16 code units (and `substring` may split a surrogate pair). `maxLength` is an integer: a fractional bound, which `substring` truncates (2.5 acts as 2 for the cut while the comparison uses 2.5), and a non-numeric one are not modelled.
- Dedup.TitleKey: titles are strings or missing. A truthy non-string title, such as a number, makes `toLowerCase` throw and so makes `deduplicateArticles` throw; this is not modelled.
- CategoryColor.LookupKey: the category is a string or missing. A non-string category, on which `toLowerCase` would throw, is not modelled.
- ErrorMessage.GetErrorMessage: the two messages are strings or missing. A truthy non-string `message` value is not modelled.
- Validators.IsValidEmail: takes a string. `RegExp.test` coercing a non-string argument is not modelled.
- `null` and `undefined` are both `None` for titles, messages, stored values and the hydrated theme, which the code reads only through `||` and `?.`. Article ids keep them apart (`ArticleId`).
- NewsStore.RemoveFavorite: ids are strings, `null` or `undefined`. A numeric id, which `!==` never equates with a string, is not modelled.
- ApiClient.OnResponseError: assumes `localStorage` exists. Where it does not (server-side rendering, some workers), the unguarded `removeItem` throws, the purge does not happen and the interceptor rejects with that `ReferenceError` instead of the original error; this is not modelled.
- ApiClient.OnRequest: likewise assumes `localStorage` exists; without it `getItem` throws and the request fails before it is sent, which is not modelled.

## Findings

| source | as written | input that shows it | evidently intended | confidence | as-written member | corrected member |
|---|---|---|---|---|---|---|
| frontend/src/lib/utils.js:63 | the lower-cased category indexes a plain object literal, so inherited members are found too, and a found member is truthy so the fallback does not apply | `getCategoryColor("Constructor")` returns the `Object` constructor function, not a class string; likewise `"__proto__"` | only the seven own keys are looked up, and anything else falls back to the `general` classes | not executed | CategoryColor.GetCategoryColorAsWritten, CategoryColor.AsWrittenLeaksConstructor | CategoryColor.GetCategoryColor, CategoryColor.GeneralExactlyWhenUnknown |
