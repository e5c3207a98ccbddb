# Item-sharing front end: Redux slices, session discipline, search queries and form mapping

This project models the logic core of a React/Redux front end for a personal item-sharing site
and proves properties of that model in Dafny. The core covers:

- **Redux slices.** The item, message and user slices are Dafny classes whose reducers are
  methods that update the fields in place. The list updates are specified by functions on
  sequences:
  - prepend;
  - replace the first entry with a given id;
  - remove every entry with a given id;
  - mark a message read, with the unread counter clamped at 0;
  - mark every message read.
- **The session held in `localStorage`.** Storage is a map in a `Browser.Window` object, and
  three places touch it:
  - The API client's request interceptor sends `Authorization: Bearer <token>`, the bearer
    scheme of section 2.1 of RFC 6750.
  - The response interceptor tears the session down on HTTP 401.
  - The login handler writes `token` and `user`, and `initializeUser` restores them, failing
    closed when the stored record does not parse.
- **Request construction.** `itemService.search` drops undefined, null and empty parameters and
  serializes the rest in entry order, following the application/x-www-form-urlencoded
  serializer of the WHATWG URL Standard (without percent-encoding). A matching parser gives a
  round trip. The module also covers the paged URL templates with their defaults, and the home
  page's search parameters and optimistic `favoriteCount` patch. As written the page never
  triggers that patch: its cards get no `onFavorite` handler, so they show no favourite button.
- **Forms and label tables.** It covers:
  - the create-item form's name-to-id tables and price/isFree derivation;
  - the login and register guards and rules;
  - the condition, status and price look-ups of the card and the detail page, each with its
    `未知` fallback.

Modules: `Wrappers` (Option/Result), `Lists`, `Js` (the JavaScript semantics the code relies on:
truthiness and `||`, `String(n)` for integers, `split` on one character, `trim`), `Types`,
`Browser`, `MessageStore`, `ItemStore`, `UserStore`, `Api`, `ItemService`, `HomePage`,
`CreateItemPage`, `ItemDetailPage`, `ItemCard`, `Forms`, `LoginPage`, `RegisterPage`.

Components that are passed in as parameters:

- JSON parsing is a function `string -> Option<Option<User>>`. None means it throws; Some(None)
  means the text was `null`.
- JSON serialization is a function `User -> string`.
- The network is a `transport` function from the outgoing request config to an outcome.
- The email-format check is a predicate `string -> bool`.

The views disagree with each other in two places, and each view is modelled as written:

- `isFree` tests differ between views. The detail page shows 免费 for any non-zero `isFree`;
  the card shows it only for `isFree === 1`. `ItemCard.CardAndDetailPrices` states the
  difference.
- Condition labels differ between the create form, the card and the detail page.
  `ItemCard.CreatedConditionsOnCard` states that the card shows code 6 (五成新及以下) as 未知.

## Model

| member | source | states |
|---|---|---|
| `MessageStore.MessageSlice.constructor` | src/store/slices/messageSlice.ts:23-29 | starts with no messages, counter 0, not loading, no error, empty conversation |
| `MessageStore.MessageSlice.SetLoading` | src/store/slices/messageSlice.ts:35-37 | sets `loading`, every other field kept |
| `MessageStore.MessageSlice.SetMessages` | src/store/slices/messageSlice.ts:38-42 | replaces the list, clears loading and error, leaves the counter and the conversation untouched |
| `MessageStore.MessageSlice.AddMessage` | src/store/slices/messageSlice.ts:43-48 | appends at the end with earlier messages unchanged; counter rises by exactly 1 iff the message is unread; a counter in step with the list stays in step |
| `MessageStore.MessageSlice.SetCurrentConversation` | src/store/slices/messageSlice.ts:49-51 | sets the conversation, everything else kept |
| `MessageStore.MessageSlice.MarkAsRead` | src/store/slices/messageSlice.ts:52-58 | list and counter become `MarkedRead` / `CountAfterMark` of the old state; other fields kept; keeps a synced counter synced |
| `MessageStore.MessageSlice.MarkAllAsRead` | src/store/slices/messageSlice.ts:59-64 | the in-place loop yields every message with `isRead` set and nothing else changed, counter 0, other fields kept, and the counter then agrees with the list |
| `MessageStore.MessageSlice.SetUnreadCount` | src/store/slices/messageSlice.ts:65-67 | stores the value verbatim (negative included), nothing else changes |
| `MessageStore.MessageSlice.SetError` | src/store/slices/messageSlice.ts:68-71 | sets the error and clears loading; list, counter and conversation kept |
| `MessageStore.MessageSlice.ClearError` | src/store/slices/messageSlice.ts:72-74 | only nulls the error |
| `MessageStore.MarkedReadOnlyFirst` | src/store/slices/messageSlice.ts:52-58 | markAsRead acts on the first message with the id only, sets only its read flag, leaves every other message equal and the length unchanged |
| `MessageStore.MarkReadNoop` | src/store/slices/messageSlice.ts:53-54 | with no message carrying the id, or a first match already read, list and counter are unchanged |
| `MessageStore.MarkReadIdempotent` | src/store/slices/messageSlice.ts:52-58 | marking an id twice equals marking it once, for the list and the counter |
| `MessageStore.MarkReadCounterClamped` | src/store/slices/messageSlice.ts:56 | when it acts, the counter ends `max(0, count-1)`, hence never negative |
| `MessageStore.AllMarkedReadShape` | src/store/slices/messageSlice.ts:59-64 | markAllAsRead keeps length and order and changes only the read flags, all true |
| `MessageStore.AllMarkedReadIdempotent` | src/store/slices/messageSlice.ts:59-64 | markAllAsRead twice equals once |
| `MessageStore.AllMarkedReadHasNoUnread` | src/store/slices/messageSlice.ts:59-64 | after markAllAsRead no message is unread |
| `MessageStore.UnreadAppend` | src/store/slices/messageSlice.ts:43-48 | appending adds 1 to the number of unread messages iff the new one is unread |
| `MessageStore.UnreadAfterRead` | src/store/slices/messageSlice.ts:52-58 | reading one unread message lowers the number of unread messages by exactly 1 |
| `MessageStore.MarkReadKeepsCounterInSync` | src/store/slices/messageSlice.ts:52-58 | a counter equal to the number of unread messages stays equal after markAsRead |
| `ItemStore.ItemSlice.constructor` | src/store/slices/itemSlice.ts:31-42 | empty list, no current item, no error, pagination page 0 of size 20 |
| `ItemStore.ItemSlice.SetLoading` | src/store/slices/itemSlice.ts:48-50 | sets `loading`, everything else kept |
| `ItemStore.ItemSlice.SetItems` | src/store/slices/itemSlice.ts:51-55 | replaces the list, clears loading and error; current item and pagination kept |
| `ItemStore.ItemSlice.SetCurrentItem` | src/store/slices/itemSlice.ts:56-60 | sets the current item, clears loading and error; list and pagination kept |
| `ItemStore.ItemSlice.AddItem` | src/store/slices/itemSlice.ts:61-63 | prepends: the new list is the payload followed by the old list; nothing else changes |
| `ItemStore.ItemSlice.UpdateItem` | src/store/slices/itemSlice.ts:64-72 | the list becomes `Updated(old, payload)`; the current item is replaced iff present with the payload's id |
| `ItemStore.ItemSlice.RemoveItem` | src/store/slices/itemSlice.ts:73-78 | the list becomes `Without(old, id)`; the current item becomes null iff its id matches |
| `ItemStore.ItemSlice.SetPagination` | src/store/slices/itemSlice.ts:79-81 | replaces pagination wholesale, nothing else changes |
| `ItemStore.ItemSlice.SetError` | src/store/slices/itemSlice.ts:82-85 | sets the error and clears loading; list, current item, pagination kept |
| `ItemStore.ItemSlice.ClearError` | src/store/slices/itemSlice.ts:86-88 | only nulls the error |
| `ItemStore.UpdatedReplacesFirst` | src/store/slices/itemSlice.ts:64-68 | replaces only the first entry with the id; length and all other entries unchanged; no match leaves the list unchanged |
| `ItemStore.UpdatedIdempotent` | src/store/slices/itemSlice.ts:64-68 | updating with the same record twice equals once |
| `ItemStore.UpdateCurrentIff` | src/store/slices/itemSlice.ts:69-71 | the current item ends as the payload iff it was the payload or had the payload's id |
| `ItemStore.WithoutRemovesAll` | src/store/slices/itemSlice.ts:74 | no entry with the id remains, every other entry is kept, nothing new appears, and the result is a subsequence (order kept) |
| `ItemStore.WithoutAbsent` | src/store/slices/itemSlice.ts:74 | removing an absent id leaves the list unchanged |
| `ItemStore.RemoveUndoesAdd` | src/store/slices/itemSlice.ts:61-78 | removing the id of a freshly added item whose id was new restores the old list |
| `ItemStore.UpdateAfterAdd` | src/store/slices/itemSlice.ts:61-72 | after a prepend, an update with the same id replaces that front entry |
| `UserStore.RestoreFrom` | src/store/slices/userSlice.ts:58-71 | no session iff `token` or `user` is missing or empty; otherwise the parse result decides between restored and corrupt |
| `UserStore.UserSlice.constructor` | src/store/slices/userSlice.ts:21-26 | signed out, not loading, no error, consistent |
| `UserStore.UserSlice.SetLoading` | src/store/slices/userSlice.ts:32-34 | sets `loading`, everything else kept |
| `UserStore.UserSlice.SetCurrentUser` | src/store/slices/userSlice.ts:35-39 | stores the user, `isAuthenticated` iff a user was given, clears the error, keeps loading; hence consistent |
| `UserStore.UserSlice.SetError` | src/store/slices/userSlice.ts:40-43 | sets the error, clears loading, session kept |
| `UserStore.UserSlice.ClearError` | src/store/slices/userSlice.ts:44-46 | only nulls the error |
| `UserStore.UserSlice.Logout` | src/store/slices/userSlice.ts:47-55 | signs out, clears the error, removes exactly `token` and `user` from storage, keeps other keys and the location; consistent afterwards |
| `UserStore.UserSlice.InitializeUser` | src/store/slices/userSlice.ts:56-73 | no session: nothing changes; parsed: user set and authenticated, storage kept; parse failure: both keys removed and state kept; the invariant survives unless the parsed value is null |
| `UserStore.NothingToRestoreAfterTeardown` | src/store/slices/userSlice.ts:47-61 | after logout or a 401 teardown, initializeUser finds no session |
| `UserStore.CorruptRestoresOnce` | src/store/slices/userSlice.ts:66-71 | after a corrupt record is removed, a second initializeUser finds no session |
| `UserStore.NullRecordBreaksInvariant` | src/store/slices/userSlice.ts:61-65 | a stored `null` record restores an authenticated state with no user (the one input that breaks the invariant) |
| `Browser.Window.GetItem` | src/services/api.ts:25 | `getItem` returns the stored value, null iff the key is absent |
| `Browser.ClearSessionIdempotent` | src/store/slices/userSlice.ts:53-54 | the teardown shared by logout, the 401 handler and a failed restore is idempotent (two logouts leave the storage one leaves); other keys survive with their values |
| `Api.BaseUrl` | src/services/api.ts:3 | the configured URL when set and non-empty, else `/api` |
| `Api.ApiClient.constructor` | src/services/api.ts:8-15 | the client uses that base URL, a 10000 ms timeout and JSON headers |
| `Api.WithToken` | src/services/api.ts:25-29 | with a non-empty token and headers, `Authorization` is exactly `Bearer <token>` and no other header changes; otherwise the config is returned unchanged |
| `Api.BearerRoundTrip` | src/services/api.ts:27 | the bearer credential read back from the header is the stored token |
| `Api.ClientRequestsCarryToken` | src/services/api.ts:22-34 | every request sent while a non-empty token is stored carries that token as its bearer credential |
| `Api.ApiClient.InterceptRequest` | src/services/api.ts:22-34 | the interceptor's result is `WithToken` of the config and the stored token; storage untouched |
| `Api.ApiClient.InterceptResponse` | src/services/api.ts:37-50 | every outcome passes through unchanged; a 401 removes `token` and `user` and sets the location to `/login`; anything else leaves storage and location alone |
| `Api.ApiClient.Request` | src/services/api.ts:53-71 | a call sends the intercepted config and returns what the response interceptor returns, with its effect on the browser |
| `ItemService.SearchQuery` | src/services/itemService.ts:19-27 | the `forEach`/`append` loop followed by `toString` produces the serialization of the kept pairs |
| `ItemService.Search` | src/services/itemService.ts:18-29 | one GET of `/items/search?` plus that query, returning `response.data`, with the client's 401 effect |
| `ItemService.Fetch` | src/services/itemService.ts:32-47 | every other service call returns `response.data` of the request unchanged |
| `ItemService.KeptPairsSingle` | src/services/itemService.ts:22-23 | an entry is dropped exactly when its value is undefined, null or '', otherwise kept under its name via `toString` |
| `ItemService.FalsyValuesKept` | src/services/itemService.ts:22 | `0` and `false` are kept; undefined, null and '' are dropped |
| `ItemService.KeptPairsConcat` | src/services/itemService.ts:21-24 | the kept pairs of concatenated entries are the concatenation: entry order is kept |
| `ItemService.KeptPairsAreThePresentEntries` | src/services/itemService.ts:21-24 | every present entry is sent and every sent pair is a present entry |
| `ItemService.KeptPairsOfEight` | src/services/itemService.ts:21-24 | an eight-entry object sends its entries' pairs one after the other |
| `ItemService.KeptPairsNone` | src/services/itemService.ts:21-24 | with every value omitted nothing is sent |
| `ItemService.EmptySearchPath` | src/services/itemService.ts:27 | with nothing kept the path is the bare `/items/search?` |
| `ItemService.PiecesElements` | src/services/itemService.ts:27 | the k-th `&`-separated piece of the query is the k-th kept pair written `name=value` |
| `ItemService.SerializeRoundTrip` | src/services/itemService.ts:27 | parsing the serialized query gives back the pairs in order, for names without `&`/`=` and values without `&` |
| `ItemService.PagedQueryIsUrlEncoded` | src/services/itemService.ts:33 | the hand-written `?page=P&size=S` equals the urlencoded serialization of page and size |
| `ItemService.PagedQueryDecodes` | src/services/itemService.ts:33 | the query of a paged path parses back to exactly the page and size numbers |
| `ItemService.PagedDefaults` | src/services/itemService.ts:32-100 | without page and size the getters ask for page 0 of size 20 under `/items`, `/items/category/{id}`, `/items/user/{id}` and `/items/favorites/{id}` |
| `Js.NumberToStringRoundTrip` | src/services/itemService.ts:33 | the decimal text of `${n}` parses back to n |
| `ItemService.NumberTextHasNoDelimiters` | src/services/itemService.ts:33 | a number's text never contains `&` or `=`, so numeric parameters cannot break the query |
| `HomePage.SearchParamsSend` | src/pages/HomePage.tsx:55-64 | the page's parameter object, filtered by `search`, sends exactly `SentPairs`: page, size, optional keyword/categoryId, both price bounds, sortBy when set, isFree when free-only |
| `HomePage.SearchOptionalParams` | src/pages/HomePage.tsx:58-63 | keyword is sent iff the box is non-empty, categoryId iff a non-zero category is selected, isFree iff free-only |
| `HomePage.SearchFixedParams` | src/pages/HomePage.tsx:56-62 | page is `currentPage - 1`, size 12; free-only pins both bounds to 0 and sends isFree=1, otherwise the bounds come from the slider |
| `HomePage.InitialSearchQuery` | src/pages/HomePage.tsx:39-45 | the initial filters send page=0, size=12, minPrice=0, maxPrice=10000, sortBy=createdAt |
| `HomePage.FavoriteRequest` | src/pages/HomePage.tsx:77-88 | no user: no call, and the toasts 请先登录 (the guard) then 收藏操作失败，请重试 (the error handler the rejection reaches); otherwise removal iff already favourite, with the user's and the item's ids |
| `HomePage.FavoritePatchEffect` | src/pages/HomePage.tsx:97-107 | only entries with the item's id change, and in them only `favoriteCount`, by -1 when unfavouriting and +1 otherwise |
| `HomePage.FavoritePatchUndo` | src/pages/HomePage.tsx:97-107 | favouriting then unfavouriting (or the reverse) restores the cached list |
| `HomePage.OnFavoriteSuccess` | src/pages/HomePage.tsx:90-123 | the cache is written iff the response succeeded and a cached page exists, with only the content replaced by the patch; toast texts for both outcomes |
| `HomePage.HomePageState.constructor` | src/pages/HomePage.tsx:39-45 | the filters start at page 1, '', no category, [0,10000], not free-only, createdAt |
| `HomePage.HomePageState.HandleSearch` | src/pages/HomePage.tsx:136-139 | resets the page to 1 and keeps every other filter |
| `HomePage.HomePageState.HandleResetFilters` | src/pages/HomePage.tsx:141-149 | restores exactly the initial filters |
| `CreateItemPage.CategoryId` | src/pages/CreateItemPage.tsx:90-97 | a known name maps to its id, any other name to 6 |
| `CreateItemPage.ConditionType` | src/pages/CreateItemPage.tsx:100-107 | a known name maps to its code, any other name to 2 |
| `CreateItemPage.OptionsAreKeys` | src/pages/CreateItemPage.tsx:63-79 | each select option is a table key, the k-th mapping to k+1, and each key is offered |
| `CreateItemPage.InitialSelectionsAreFallbacks` | src/pages/CreateItemPage.tsx:130-133 | the initial selections map to the same ids as unknown names |
| `CreateItemPage.OnFinish` | src/pages/CreateItemPage.tsx:81-121 | no user or id 0: login redirect, no request; otherwise the user's id, title/description verbatim, mapped ids, `price == originalPrice`, `isFree == 1` iff price 0 |
| `CreateItemPage.SelectedOptionsMapExactly` | src/pages/CreateItemPage.tsx:109-118 | a form filled from the selects sends the options' exact ids |
| `CreateItemPage.EntryGuard` | src/pages/CreateItemPage.tsx:31-36 | an unauthenticated visit warns and goes to `/login` |
| `CreateItemPage.OnCreateResponse` | src/pages/CreateItemPage.tsx:44-52 | success toasts and goes to `/`; otherwise the server's message or the default text |
| `CreateItemPage.OnCreateError` | src/pages/CreateItemPage.tsx:54-57 | the error response's message or the default text |
| `ItemDetailPage.ConditionText` | src/pages/ItemDetailPage.tsx:133-142 | codes 1-5 show their labels, any other code 未知 |
| `ItemDetailPage.StatusText` | src/pages/ItemDetailPage.tsx:144-152 | codes 1-4 show their labels, any other code (0 included) 未知 |
| `ItemDetailPage.LabelsIdentifyCodes` | src/pages/ItemDetailPage.tsx:133-152 | 未知 shows iff the code is outside the table; labels are distinct |
| `ItemDetailPage.StatusColor` | src/pages/ItemDetailPage.tsx:214 | green iff status is 2, orange otherwise |
| `ItemDetailPage.TagLabels` | src/pages/ItemDetailPage.tsx:270-277 | no tag section iff tags are absent or empty |
| `ItemDetailPage.TagLabelsShape` | src/pages/ItemDetailPage.tsx:274-276 | commas + 1 tags, the k-th being the trimmed k-th piece; the pieces rejoin to the string |
| `ItemDetailPage.TagLabelsAreClean` | src/pages/ItemDetailPage.tsx:274-276 | no tag holds a comma or starts or ends with white space |
| `Js.TrimShape` | src/pages/ItemDetailPage.tsx:275 | `trim` gives the middle of the string with only white space cut off either end, and no white space at its ends |
| `Js.TrimExcludes` | src/pages/ItemDetailPage.tsx:275 | `trim` introduces no character: one absent from its input is absent from its result |
| `Js.JoinSplit` | src/pages/ItemDetailPage.tsx:274 | the pieces of `split` joined back with the separator give the string |
| `ItemDetailPage.MainImage` | src/pages/ItemDetailPage.tsx:162-172 | the first image, none iff there are no images |
| `ItemDetailPage.Thumbnails` | src/pages/ItemDetailPage.tsx:174-176 | with more than one image the images at indices 1..4 (at most four), none otherwise |
| `ItemDetailPage.ImagesShownInOrder` | src/pages/ItemDetailPage.tsx:162-176 | main image and thumbnails are the first min(5, n) images in order |
| `ItemDetailPage.PriceText` | src/pages/ItemDetailPage.tsx:291-295 | 免费 iff isFree is truthy, else ¥ and the price |
| `ItemDetailPage.CreatedItemsShowNoOriginalPrice` | src/pages/ItemDetailPage.tsx:296 | the struck-through price needs original price > 0 and different from the price, so created items never show it |
| `ItemDetailPage.SellerName` | src/pages/ItemDetailPage.tsx:318 | nickname when truthy, else username; nothing without a user |
| `ItemDetailPage.ToggleCall` | src/pages/ItemDetailPage.tsx:42-47 | no user: no call, and the rejection reaches the error handler's 操作失败 toast; otherwise remove iff favourited, with the user's and item's ids |
| `ItemDetailPage.FlagAfter` | src/pages/ItemDetailPage.tsx:50-56 | the flag flips iff the response succeeded |
| `ItemDetailPage.ToggleTwiceRestores` | src/pages/ItemDetailPage.tsx:42-56 | two successful toggles restore the flag, and the second call undoes the first |
| `ItemDetailPage.OnItemLoaded` | src/pages/ItemDetailPage.tsx:28-31 | the status check of (signed-in user id, route item id) is started iff the load succeeded with data and a user is signed in |
| `ItemDetailPage.NoCheckWithoutUserOrItem` | src/pages/ItemDetailPage.tsx:29 | a failed load, an empty payload or a signed-out visitor starts no check |
| `ItemDetailPage.FavoriteState.OnCheck` | src/pages/ItemDetailPage.tsx:28-35 | a successful status check with data sets the flag to the reported value, otherwise it is kept |
| `ItemDetailPage.FavoriteState.OnToggleResponse` | src/pages/ItemDetailPage.tsx:50-58 | the flag becomes `FlagAfter` of the old flag; toasts describe the state before the flip |
| `ItemDetailPage.ContactSeller` | src/pages/ItemDetailPage.tsx:84-93 | nothing without an item; otherwise a message to the owner about this item |
| `ItemDetailPage.ContactMessageNamesTitle` | src/pages/ItemDetailPage.tsx:90 | the title is recovered from the message text between the fixed prefix and suffix |
| `ItemCard.FormatPrice` | src/components/items/ItemCard.tsx:21-24 | 免费 iff isFree is exactly 1, otherwise ¥ and the price |
| `ItemCard.FormatCondition` | src/components/items/ItemCard.tsx:26-35 | codes 1-5 show the card's labels, any other code 未知 |
| `ItemCard.PriceTagColor` | src/components/items/ItemCard.tsx:83 | green exactly when the price reads 免费, blue otherwise |
| `ItemCard.FavoriteAction` | src/components/items/ItemCard.tsx:63-74 | present iff showFavorite (default true) and a handler is supplied; it hands over the item's id |
| `ItemCard.OwnerLabel` | src/components/items/ItemCard.tsx:113-116 | shown iff showOwner (default true) and the item has a user; nickname when truthy, else username |
| `ItemCard.CoverImage` | src/components/items/ItemCard.tsx:48-60 | the first image's path, the placeholder iff there are no images |
| `Types.DescriptionText` | src/components/items/ItemCard.tsx:98 | the description when truthy, else 暂无描述; never empty |
| `ItemCard.CreatedConditionsOnCard` | src/components/items/ItemCard.tsx:26-35 | the create form's first four conditions read back on the card, 六成新 reads 六成新及以下, code 6 reads 未知 |
| `ItemCard.CardAndDetailPrices` | src/components/items/ItemCard.tsx:21-24 | card and detail price texts agree iff isFree is 0 or 1 |
| `Forms.Errors` | src/pages/LoginPage.tsx:66-90 | a field shows no message iff no rule rejects its value |
| `Forms.LengthRulesMeaning` | src/pages/LoginPage.tsx:66-90 | a required field with minimum n passes iff it has at least n characters; empty shows only the required message |
| `LoginPage.Submit` | src/pages/LoginPage.tsx:47-90 | the values reach the login call, verbatim, iff username has ≥ 3 and password ≥ 6 characters |
| `LoginPage.StorageAfterLogin` | src/pages/LoginPage.tsx:27-30 | an accepted response adds `token` and the serialized user and keeps every other key; otherwise storage is unchanged |
| `LoginPage.OnLoginSuccess` | src/pages/LoginPage.tsx:26-40 | accepted: storage written, user signed in and consistent, location `/`; otherwise only the response message or 登录失败 |
| `LoginPage.OnLoginError` | src/pages/LoginPage.tsx:41-43 | the error response's message or 登录失败 |
| `LoginPage.LoginSurvivesReload` | src/pages/LoginPage.tsx:27-33 | after a login whose record parses back, initializeUser restores the same user |
| `LoginPage.LogoutUndoesLogin` | src/pages/LoginPage.tsx:27-30 | logout after login leaves the other keys as before and no session to restore |
| `RegisterPage.UsernameRulesMeaning` | src/pages/RegisterPage.tsx:72-84 | a username passes iff it has 3 to 20 characters |
| `RegisterPage.FormPassesMeaning` | src/pages/RegisterPage.tsx:72-132 | the form passes iff username 3-20, a non-empty accepted email, both passwords ≥ 6; the nickname is free |
| `RegisterPage.OnFinish` | src/pages/RegisterPage.tsx:40-55 | mismatched passwords: an error and no request; otherwise all fields copied verbatim |
| `RegisterPage.OnRegisterResponse` | src/pages/RegisterPage.tsx:26-33 | success goes to `/login`; otherwise the response message or 注册失败 |
| `RegisterPage.OnRegisterError` | src/pages/RegisterPage.tsx:34-36 | the error response's message or 注册失败 |

## Left out

- JSX rendering, antd widgets, styles and React hook lifecycles: these only display values the
  model computes.
- The home page's favourite mutation is unreachable as written: the grid renders
  `<ItemCard item={item} />` without `onFavorite` (src/pages/HomePage.tsx:306), so the card
  offers no favourite button (`ItemCard.FavoriteAction` with no handler). `HomePage.FavoriteRequest`
  and `HomePage.OnFavoriteSuccess` model the mutation as the source defines it.
- react-query's cache, de-duplication, `invalidateQueries` and `enabled`. The cache write of the
  home page is an optional value (`HomePage.OnFavoriteSuccess`), and re-fetching after
  `handleSearch`/`handleResetFilters` is the search of the new filters.
- axios itself and the network. The transport is a function parameter. The timeout is a
  constant that nothing enforces. The request body `data` of `post`/`put`/`patch` and the
  per-call `config` argument of all five verbs (src/services/api.ts:53-71) are not part of the
  modelled config; none of the modelled calls passes a `config`.
- `navigator.share` and the clipboard (src/pages/ItemDetailPage.tsx:95-107): browser I/O.
- JSON.parse, JSON.stringify and antd's email validator: abstract parameters.
- Percent-encoding of the urlencoded serializer and parser, and `+` for spaces: out of scope.
  Instead, `ItemService.SerializeRoundTrip` requires names without `&`/`=` and values without `&`.
- Floating-point prices and `InputNumber precision={2}`: prices are integers, rendered as
  decimal digits. NaN is not modelled.
- String lengths in the form rules count characters, not UTF-16 code units.
- Object-property look-ups in the label tables ignore inherited prototype keys.
- The thin services (messageService, followService, favoriteService, categoryService,
  userService): fixed URL templates with no logic.
- The other itemService templates (`getById`, `update`, `delete`, `getPopular`, `getLatest`,
  `getNearby`, `favorite`, `unfavorite`, `checkFavorite`) are only covered generically by
  `ItemService.Fetch`.
- The message-send reactions of the detail page (src/pages/ItemDetailPage.tsx:66-81): toasts
  only.
- The MessagesPage and ProfilePage views, Layout, App routes, the store's persist
  configuration, the dev proxy and the one-line initialization hook. These are demo code or
  wiring. ProfilePage's logout clears storage without dispatching `logout`, so no lemma assumes
  that storage and session always agree.
- Promise ordering, in-flight mutations and unmount races: asynchrony is not modelled; each
  handler runs to completion.
- `ItemDetailPage.FavoriteState.OnCheck`: when a successful check carries no data, the source
  throws inside a promise callback; the model keeps the flag, which is the visible effect.
