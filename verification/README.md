# JSR core rules in Dafny

JSR is a directory of JavaScript learning resources. Users submit resources. An
administrator approves or rejects them. Visitors browse the approved ones. Signed-in
users vote, bookmark and comment. Categories and resource types form two registries,
each with unique names.

This project models the rules under the Express handlers, the Mongoose schema and the
Pinia stores. Each is a pure function over immutable state:

- a handler takes `(state, caller, request)` and returns `(reply, state')`;
- a collection is a `map` from id to record, or a `seq` where order matters;
- every error path is a value of the reply type.

Modules, one concept each:

| module | file | what it holds |
|---|---|---|
| `Wrappers` | wrappers.dfy | `Option` |
| `Text` | text.dfy | JavaScript `trim`, `.length` in UTF-16 code units, ASCII `toLowerCase`, `includes`, `startsWith`, `split(' ')`, string order |
| `Seqs` | seqs.dfy | `filter`, reversal, first-occurrence removal, and their algebra |
| `Api` | api.dfy | caller payload, error codes, `Reply`, JavaScript truthiness of an optional string |
| `Pagination` | pagination.dfy | page/limit defaults, `skip`, the page window, `Math.ceil(total / limit)` |
| `ResourceSchema` | resource_model.dfy | the resource document, its enums and validators, `voteCount` |
| `ResourceController` | resource_controller.dfy | listings, visibility, submission, moderation, pricing |
| `InteractionController` | interaction_controller.dfy | comments, bookmarks, votes |
| `Taxonomy` | taxonomy.dfy | the category and resource-type registries (one model, two kinds) |
| `Auth` | auth.dfy | `protect`, `restrictTo` |
| `ErrorHandler` | error_handler.dfy | `errorHandler`, `notFound`, `ApiError` and its factories |
| `Routes` | routes.dfy | the wiring of `GET /resources/:id`, as written and corrected |
| `CatalogStore` | catalog_store.dfy | the front end's in-memory catalogue: filter pipeline, stable sort, toggles, fresh ids |
| `InteractionsStore` | interactions_store.dfy | the front end's interaction map: defaulting getters, local updates, merges, fetch of missing ids |
| `ResourceListStore` | resource_list_store.dfy | the front end's server-backed listing: filter updates, paging, append/replace loads |

Modelling conventions:

- **Request fields.** A field is an `Option<string>`. JavaScript truthiness of such a value is `Some(s)` with `s != ""`.
- **Trimming.** Strings the schema trims are stored trimmed. Query and uniqueness filters on such fields are trimmed the same way.
- **Database-assigned ids.** The id a new document receives is a parameter. A collision with an existing id stands for the duplicate-key failure. It ends in the handler's catch (500), as a validation failure does.
- **Undefined update fields.** A field left undefined in an update leaves the stored value alone.
- **Lengths.** A `maxlength` limit counts UTF-16 code units, as JavaScript's `.length` does, so a character beyond the Basic Multilingual Plane counts twice.
- **Page window.** The comment and bookmark listings return one page of the sorted matches: `skip = (page - 1) * limit`. The database refuses a negative skip, which ends in the handler's catch. A limit of 0 means no limit, and a negative limit returns at most its absolute value.
- **Update validators.** They run before the lookup. An invalid value with an unknown id therefore answers 500, not 404.
- **Outside dependencies.** The JWT verifier, the network services of the front end and the front end's clock are function or value parameters.
- **Creation time in the back end.** No clock is modelled there. The `createdAt` that Mongoose's `timestamps` sets is replaced by the position in creation order, so a `createdAt: -1` sort is the reverse of creation order. This assumes timestamps rise strictly with creation; the ties this leaves out are listed under Left out.

## Model

| member | source | states |
|---|---|---|
| Pagination.PageCount | backend/src/controllers/resource.controller.ts:39-44 | `Math.ceil(total / limit)`: absent exactly for limit 0; for a positive limit, pages·limit is the least multiple covering total |
| Pagination.Paginate | backend/src/controllers/resource.controller.ts:10-44 | page defaults to 1, limit to 10; `pages` is absent exactly when the limit is 0; with a positive limit every item falls in one of the pages |
| Pagination.EmptyHasNoPages | backend/src/controllers/resource.controller.ts:39-44 | no matches give zero pages |
| Pagination.PageStartsInside | backend/src/controllers/resource.controller.ts:22-44 | every page from 1 to `pages` starts at an index inside the result |
| Pagination.PageAfterLastIsEmpty | backend/src/controllers/resource.controller.ts:22-44 | the page after the last one starts at or past the end |
| Pagination.Window | backend/src/controllers/interaction.controller.ts:100-106 | the page is the run of sorted matches starting at the skip: refused for a negative skip, empty past the end, as long as the limit allows (no limit for 0, its absolute value when negative) |
| Pagination.EveryMatchOnItsPage | backend/src/controllers/interaction.controller.ts:100-106 | with a positive limit the match at position i is on page i / limit + 1 at position i % limit, so the pages tile the list |
| Pagination.FirstPageIsHead | backend/src/controllers/interaction.controller.ts:82-106 | the default page is page 1, never refused, and starts with the first match; with both defaults it is the first ten |
| Text.JsLength | backend/src/models/Resource.ts:25 | a string's JavaScript length lies between its character count and twice that, and is zero only for the empty string |
| Text.JsLengthOfBmp | backend/src/models/Resource.ts:25 | without characters beyond the Basic Multilingual Plane the JavaScript length is the character count |
| ResourceSchema.ParseDifficulty | backend/src/models/Resource.ts:49-56 | only "beginner", "intermediate" and "advanced" are accepted, each to its own value |
| ResourceSchema.ParseStatus | backend/src/models/Resource.ts:66-73 | only "pending", "approved" and "rejected" are accepted |
| ResourceSchema.ParsePricing | backend/src/models/Resource.ts:79-86 | only "free" and "paid" are accepted |
| ResourceSchema.EnumNamesRoundTrip | backend/src/models/Resource.ts:49-86 | each enum value's stored name parses back to the value |
| ResourceSchema.Validate | backend/src/models/Resource.ts:20-99 | an accepted document is trimmed, within the name and description limits counted in UTF-16 code units as `maxlength` counts, within the tag limit, priced correctly and defaults to pending; each violated rule rejects |
| ResourceSchema.ValidateAcceptsValid | backend/src/models/Resource.ts:20-99 | the validators reject nothing that satisfies the schema's rules, and store it unchanged |
| ResourceSchema.AstralNameTooLong | backend/src/models/Resource.ts:21-26 | a name of sixty emoji is sixty characters yet 120 code units, and the 100-unit limit rejects it |
| ResourceSchema.VoteCount | backend/src/models/Resource.ts:110-130 | `voteCount` is upvotes minus downvotes, 0 when votes are absent, between −downvotes and upvotes |
| ResourceController.GetResources | backend/src/controllers/resource.controller.ts:8-44 | a resource is listed iff it is approved and equals every truthy filter field; the total counts exactly the listed ones |
| ResourceController.GetAllResources | backend/src/controllers/resource.controller.ts:187-212 | the admin listing selects everything, or exactly the given status when one is given |
| ResourceController.GetFreeResources | backend/src/controllers/resource.controller.ts:297-318 | exactly the approved free resources |
| ResourceController.GetPaidResources | backend/src/controllers/resource.controller.ts:345-366 | exactly the approved paid resources |
| ResourceController.GetResourceById | backend/src/controllers/resource.controller.ts:62-90 | not found iff absent, or not approved while the caller is no admin; otherwise the stored resource |
| ResourceController.CreateResource | backend/src/controllers/resource.controller.ts:105-182 | 401 before any field check, then 400 MISSING_FIELDS, then 400 INVALID_PRICE for paid without a positive price; past those, success iff the schema accepts the submitted document and the id is fresh, else 500 RESOURCE_CREATE_ERROR; success adds exactly one pending, zero-vote, valid resource owned by the caller, with the trimmed name, description and url, the submitted enums and tags, and the price kept only when paid |
| ResourceController.SubmissionMeetingSchemaIsStored | backend/src/controllers/resource.controller.ts:105-182 | a signed-in submission with every required field, trimmed name and description within limits, a known difficulty, at most ten tags, and free or positively priced paid, is stored under a fresh id |
| ResourceController.SubmittedValidates | backend/src/models/Resource.ts:20-99 | the schema accepts the document built from a complete submission that keeps its length, enum, tag and price rules |
| ResourceController.UpdateResourceStatus | backend/src/controllers/resource.controller.ts:239-291 | an invalid status is refused before lookup, an unknown id is not found, a valid status on a stored id succeeds, and success changes only that resource's status |
| ResourceController.UpdateResourcePricing | backend/src/controllers/resource.controller.ts:393-457 | the pricing type and the paid-price checks run before lookup; past them a negative price is 500 RESOURCE_UPDATE_ERROR, an unknown id 404 RESOURCE_NOT_FOUND, and a stored id succeeds; success changes only that resource's pricing type and (when given) price |
| ResourceController.PublicListingsOnlyApproved | backend/src/controllers/resource.controller.ts:13-19 | no public listing ever shows an unapproved resource |
| ResourceController.PublicWithinAdmin | backend/src/controllers/resource.controller.ts:187-195 | the public listing is contained in the admin listing, and equals the admin listing filtered to approved |
| ResourceController.FreeAndPaidPartitionApproved | backend/src/controllers/resource.controller.ts:297-366 | the free and paid listings are disjoint and together make up the unfiltered public listing |
| ResourceController.CreatePreservesValidStore | backend/src/controllers/resource.controller.ts:105-182 | a store of schema-valid documents stays valid after any submission |
| ResourceController.UpdateStatusPreservesValidStore | backend/src/controllers/resource.controller.ts:239-291 | a status change keeps every document schema-valid |
| ResourceController.UpdatePricingPreservesValidStore | backend/src/controllers/resource.controller.ts:393-457 | a pricing change keeps every document schema-valid |
| ResourceController.SubmitThenApprove | backend/src/controllers/resource.controller.ts:105-291 | a fresh submission is hidden from the public listing, visible to the admin listing and to admins only, and public once approved |
| ResourceController.PendingIsHidden | backend/src/controllers/resource.controller.ts:62-90 | a pending resource is absent from the public listing, present in the admin listing, and readable exactly by admins |
| ResourceController.ApprovedIsListed | backend/src/controllers/resource.controller.ts:239-291 | approving a stored resource puts it in the unfiltered public listing |
| InteractionController.AddComment | backend/src/controllers/interaction.controller.ts:7-75 | 401, then MISSING_CONTENT, then RESOURCE_NOT_FOUND; on a stored resource, success iff the trimmed content is 1 to 1000 UTF-16 code units, else 500 COMMENT_CREATE_ERROR; success appends exactly one comment by the caller |
| InteractionController.GetResourceComments | backend/src/controllers/interaction.controller.ts:80-121 | not found iff the resource is absent; 500 COMMENT_FETCH_ERROR for a negative skip; otherwise the skip/limit page of that resource's comments newest first, with the count of all of them |
| InteractionController.CommentThenListedFirst | backend/src/controllers/interaction.controller.ts:80-121 | a comment just added heads its resource's newest-first listing ahead of the earlier listing unchanged, opens the first page for any limit, and the total grows by one |
| InteractionController.BookmarkResource | backend/src/controllers/interaction.controller.ts:138-206 | 401, then RESOURCE_NOT_FOUND, then ALREADY_BOOKMARKED with nothing changed; a new pair on a stored resource succeeds, and success adds exactly the caller's pair |
| InteractionController.RemoveBookmark | backend/src/controllers/interaction.controller.ts:211-259 | BOOKMARK_NOT_FOUND iff the caller's pair is absent; success cuts out exactly the first occurrence of that pair and keeps the rest in order, with no resource check |
| InteractionController.BookmarksStayUnique | backend/src/controllers/interaction.controller.ts:166-189 | at most one bookmark per (resource, user) pair is preserved by add and remove |
| InteractionController.BookmarkThenRemoveRestores | backend/src/controllers/interaction.controller.ts:138-242 | a bookmark followed by its removal restores the bookmark list exactly |
| InteractionController.BookmarkTwiceRefused | backend/src/controllers/interaction.controller.ts:166-189 | a second bookmark of the same pair is refused and changes nothing |
| InteractionController.ListedBookmarks | backend/src/controllers/interaction.controller.ts:288-331 | a bookmark is listed iff it is the caller's and, when a pricing type is given, its resource is approved with that pricing type; listed ones appear as often as stored |
| InteractionController.GetUserBookmarks | backend/src/controllers/interaction.controller.ts:264-354 | 401 iff no caller; 500 BOOKMARK_FETCH_ERROR for a negative skip; otherwise the skip/limit page of the listed bookmarks newest first, with the count of all of them |
| InteractionController.ListingAfterAppend | backend/src/controllers/interaction.controller.ts:288-331 | a newly stored bookmark heads the newest-first listing when it passes the filter, and is absent from it otherwise |
| InteractionController.BookmarkThenListedFirst | backend/src/controllers/interaction.controller.ts:264-354 | a bookmark just added heads the caller's listing, and opens its first page, exactly when it passes the pricing filter (always without one); otherwise the listing is unchanged |
| InteractionController.VoteResource | backend/src/controllers/interaction.controller.ts:359-431 | 401, then INVALID_VOTE_TYPE, then RESOURCE_NOT_FOUND; a valid vote on a stored resource succeeds, raising exactly the named counter by one and changing nothing else |
| InteractionController.VoteRaisesOneCounter | backend/src/controllers/interaction.controller.ts:402-409 | counters never fall, their sum grows by one, and `voteCount` moves by ±1 |
| InteractionController.RepeatedUpvotesAccumulate | backend/src/controllers/interaction.controller.ts:402-409 | votes are not tracked per user: two upvotes by one user count twice |
| InteractionController.VotePreservesValidStore | backend/src/controllers/interaction.controller.ts:359-431 | voting keeps every document schema-valid |
| Taxonomy.GetById | backend/src/controllers/category.controller.ts:31-63 | the stored entry iff the id exists, else the kind's not-found code |
| Taxonomy.Create | backend/src/controllers/category.controller.ts:68-120 | MISSING_FIELDS, then DUPLICATE for a taken trimmed name; otherwise success iff the entry is schema-valid and the id is fresh, adding exactly that entry |
| Taxonomy.Update | backend/src/controllers/category.controller.ts:125-191 | MISSING_FIELDS, then DUPLICATE only for a name held by another id, then the 500 update error for an invalid supplied field, then NOT_FOUND for an unknown id; success iff none of these, replacing only the supplied fields |
| Taxonomy.Delete | backend/src/controllers/category.controller.ts:196-228 | not found iff absent; otherwise removes that id only |
| Taxonomy.CreateThenGet | backend/src/controllers/category.controller.ts:31-120 | after a successful create the new id reads back the trimmed candidate entry, and every other id reads as before |
| Taxonomy.UpdateThenGet | backend/src/controllers/category.controller.ts:31-191 | after a successful update the id reads back the patched entry, and every other id reads as before |
| Taxonomy.DeleteThenGet | backend/src/controllers/category.controller.ts:31-228 | after a successful delete the id reads as the kind's not-found 404, and every other id reads as before |
| Taxonomy.CreatePreservesValidRegistry | backend/src/controllers/resourceType.controller.ts:68-119 | valid entries and pairwise-distinct names survive any create |
| Taxonomy.UpdatePreservesValidRegistry | backend/src/controllers/resourceType.controller.ts:124-190 | valid entries and pairwise-distinct names survive any update |
| Taxonomy.DeletePreservesValidRegistry | backend/src/controllers/resourceType.controller.ts:195-227 | valid entries and pairwise-distinct names survive any delete |
| Taxonomy.AddKeepsNamesDistinct | backend/src/controllers/category.controller.ts:85-103 | writing an entry whose name no other id holds keeps names distinct |
| Taxonomy.OwnNameNotTaken | backend/src/controllers/category.controller.ts:143-156 | the duplicate check of an update never matches the record itself |
| Taxonomy.KeepingOwnNameIsAllowed | backend/src/controllers/category.controller.ts:143-156 | re-saving a record with its own name succeeds |
| Taxonomy.CreateTwiceIsDuplicate | backend/src/controllers/resourceType.controller.ts:85-102 | creating the same name twice is refused as a duplicate the second time |
| Taxonomy.CreateThenDeleteRestores | backend/src/controllers/resourceType.controller.ts:68-211 | deleting what was just created restores the registry |
| Taxonomy.ListByName | backend/src/controllers/category.controller.ts:9 | every entry exactly once, in ascending name order |
| Taxonomy.InsertByName | backend/src/controllers/resourceType.controller.ts:9 | inserting one id into a name-ordered list keeps it ordered and adds exactly that id |
| Auth.BearerToken | backend/src/middleware/auth.ts:34 | the extracted token contains no space |
| Auth.Protect | backend/src/middleware/auth.ts:17-53 | 401 NOT_AUTHENTICATED iff the header is missing or not "Bearer "; passes on iff the verifier accepts the token, with its payload; never both |
| Auth.BearerTokenRoundTrip | backend/src/middleware/auth.ts:22-34 | "Bearer " followed by a space-free token yields that token |
| Auth.TokenStopsAtSpace | backend/src/middleware/auth.ts:34 | only the word after the prefix is verified; text after a further space is ignored |
| Auth.ProtectAdmitsVerified | backend/src/middleware/auth.ts:37-53 | a verifiable bearer token passes with exactly its payload |
| Auth.RestrictTo | backend/src/middleware/auth.ts:69-92 | 401 without a user, 403 for a non-admin, passes exactly the admins unchanged |
| Auth.AdminOnlyPassesExactlyAdmins | backend/src/middleware/auth.ts:17-92 | `protect` then `restrictTo` passes exactly the bearer tokens the verifier maps to an admin; a 403 means a verified non-admin |
| ErrorHandler.Handle | backend/src/middleware/errorHandler.ts:15-43 | status, message and code are the error's own when truthy, else 500, "Something went wrong", SERVER_ERROR; details are exactly the error's |
| ErrorHandler.NotFound | backend/src/middleware/errorHandler.ts:48-53 | an unmatched route gives status 404, code NOT_FOUND and the URL in the message |
| ErrorHandler.NotFoundReply | backend/src/middleware/errorHandler.ts:22-53 | the client receives 404 NOT_FOUND for an unmatched route |
| ErrorHandler.NewApiError | backend/src/middleware/errorHandler.ts:63-72 | omitted status and code default to 500 and SERVER_ERROR; given ones are kept |
| ErrorHandler.Make | backend/src/middleware/errorHandler.ts:81-120 | each factory fixes its status and defaults its message and code |
| ErrorHandler.ApiErrorKeepsStatusAndCode | backend/src/middleware/errorHandler.ts:22-72 | an ApiError with non-zero status and non-empty code reaches the client with both unchanged |
| ErrorHandler.FactoryDefaultsReachClient | backend/src/middleware/errorHandler.ts:81-120 | badRequest 400/BAD_REQUEST, unauthorized 401/UNAUTHORIZED, forbidden 403/FORBIDDEN, notFound 404/NOT_FOUND |
| ErrorHandler.FalsyPartsFallBack | backend/src/middleware/errorHandler.ts:22-24 | an explicit 0 status or empty code is replaced by the default on the way out |
| Routes.GetByIdAsWritten | backend/src/routes/resource.routes.ts:24 | the route as wired serves exactly the approved resources |
| Routes.AsWrittenIgnoresCaller | backend/src/routes/resource.routes.ts:24 | the answer does not depend on the Authorization header at all |
| Routes.AdminRefusedPendingExample | backend/src/controllers/resource.controller.ts:73 | an administrator with a valid token is refused a pending resource |
| Routes.OptionalAuth | backend/src/middleware/auth.ts:17-53 | the caller is the verified payload exactly when `protect` would pass |
| Routes.GetByIdCorrected | backend/src/controllers/resource.controller.ts:73-82 | with optional authentication, not found iff absent or unapproved for a non-admin |
| Routes.CorrectedServesAdmins | backend/src/controllers/resource.controller.ts:73 | an administrator's token reaches every stored resource |
| Routes.CorrectedAgreesForOthers | backend/src/routes/resource.routes.ts:24 | for everyone but administrators the corrected route answers as the written one |
| CatalogStore.Kept | frontend/src/stores/resource.ts:29-72 | the five filter steps keep each item as often as it occurs iff it passes all active filters |
| CatalogStore.Sort | frontend/src/stores/resource.ts:75-89 | the result is ordered by the chosen key and is a permutation of the input |
| CatalogStore.SortStable | frontend/src/stores/resource.ts:75-89 | items with equal keys keep their input order |
| CatalogStore.FilteredResources | frontend/src/stores/resource.ts:28-92 | a permutation of the kept sub-multiset, never an invented entry, ordered by the key, equal keys in store order |
| CatalogStore.ClearedFiltersListEverything | frontend/src/stores/resource.ts:18-92 | with the initial filters every resource is listed, newest first |
| CatalogStore.BlankSearchFiltersNothing | frontend/src/stores/resource.ts:31 | a whitespace-only search lists what an empty search lists |
| CatalogStore.ClearFilters | frontend/src/stores/resource.ts:112-121 | the result is exactly the initial filter state |
| CatalogStore.ClearForgetsUpdates | frontend/src/stores/resource.ts:95-125 | clearing forgets any preceding update; an update changes only its own field |
| CatalogStore.ToggleFramework | frontend/src/stores/resource.ts:103-110 | an absent id is appended; a present id loses its first occurrence, the rest in order |
| CatalogStore.ToggleFlipsMembership | frontend/src/stores/resource.ts:103-110 | on a duplicate-free list the id's membership flips, other entries stay, and the list stays duplicate-free |
| CatalogStore.ToggleTwiceRestoresAbsent | frontend/src/stores/resource.ts:103-110 | toggling an absent id twice restores the list exactly |
| CatalogStore.ToggleTwiceMovesPresentToEnd | frontend/src/stores/resource.ts:103-110 | toggling a present id twice keeps the entries but moves the id to the end |
| CatalogStore.ToggleTwiceReordersExample | frontend/src/stores/resource.ts:103-110 | ["react","vue"] toggled twice on "react" becomes ["vue","react"] |
| CatalogStore.MaxId | frontend/src/stores/resource.ts:130 | `Math.max(0, ...ids)`: non-negative, at least every id, and one of them unless 0 |
| CatalogStore.AddResource | frontend/src/stores/resource.ts:128-141 | the new id is one more than the largest existing id (so at least 1 and above every other); votes and rating 0; appended at the end |
| CatalogStore.FindById | frontend/src/stores/resource.ts:143-145 | absent iff no item has the id; otherwise the first such item |
| CatalogStore.AddedIsFound | frontend/src/stores/resource.ts:128-145 | an added item is found under its new id |
| InteractionsStore.GetResourceInteraction | frontend/src/stores/interactions.store.ts:15-17 | the entry iff keyed, else null |
| InteractionsStore.GetUserVote | frontend/src/stores/interactions.store.ts:20-23 | the vote's value iff keyed with a vote, else null |
| InteractionsStore.IsBookmarked | frontend/src/stores/interactions.store.ts:26-29 | true iff keyed and bookmarked |
| InteractionsStore.GetVoteCounts | frontend/src/stores/interactions.store.ts:32-35 | the stored counts, or zero and zero |
| InteractionsStore.UpdateVote | frontend/src/stores/interactions.store.ts:71-82 | vote and counts set, an existing bookmark flag kept, a new entry unbookmarked, other keys untouched |
| InteractionsStore.UpdateBookmarkStatus | frontend/src/stores/interactions.store.ts:85-95 | flag set, an existing vote and counts kept, a new entry without vote and with zero counts, other keys untouched |
| InteractionsStore.UpdateInteractionsMap | frontend/src/stores/interactions.store.ts:98-103 | right-biased merge: incoming keys take the new value, all others keep the old |
| InteractionsStore.ClearInteractions | frontend/src/stores/interactions.store.ts:106-108 | no key remains |
| InteractionsStore.ClearedGettersDefault | frontend/src/stores/interactions.store.ts:15-108 | after clearing every getter answers its default |
| InteractionsStore.VoteReadBack | frontend/src/stores/interactions.store.ts:20-82 | a local vote is read back and the bookmark flag survives it |
| InteractionsStore.BookmarkReadBack | frontend/src/stores/interactions.store.ts:20-95 | a local bookmark change is read back and the vote and counts survive it |
| InteractionsStore.VoteAndBookmarkCommute | frontend/src/stores/interactions.store.ts:71-95 | the two local updates commute |
| InteractionsStore.MergeLaws | frontend/src/stores/interactions.store.ts:98-103 | merging is associative, the empty map is neutral, and merging a map into itself changes nothing |
| InteractionsStore.MissingIds | frontend/src/stores/interactions.store.ts:42-44 | an id is requested iff it is listed, non-empty and not yet keyed, as often as it is listed |
| InteractionsStore.FetchResourceInteractions | frontend/src/stores/interactions.store.ts:38-68 | no request and no change iff unauthenticated, no ids, or nothing missing; otherwise the missing ids are requested, in order and as often as listed, a successful answer is right-merged, a throw sets the error, loading ends off |
| InteractionsStore.FetchAsWritten | frontend/src/stores/interactions.store.ts:38-68 | as written, with no batch method to call: the same skip conditions, and every request made ends with the map unchanged, loading off and the fetch error set |
| InteractionsStore.AsWrittenFetchNeverFills | frontend/src/stores/interactions.store.ts:38-68 | a wanted id stays unknown after the written fetch, while a successful answer covering it makes it known |
| InteractionsStore.FetchFillsAnswered | frontend/src/stores/interactions.store.ts:55-60 | after a successful fetch every answered id reads back its answer and unmentioned entries are kept |
| InteractionsStore.RefetchIsSkipped | frontend/src/stores/interactions.store.ts:42-47 | repeating a fetch whose answer covered every requested id makes no request |
| ResourceListStore.UpdateFilters | frontend/src/stores/resource.store.ts:123-148 | category 'all' clears only the category; otherwise each supplied field overwrites its filter and the rest stay; the page becomes 1 |
| ResourceListStore.UpdateFiltersIdempotent | frontend/src/stores/resource.store.ts:123-148 | applying the same filter update twice equals applying it once |
| ResourceListStore.EmptyPatchOnlyResetsPage | frontend/src/stores/resource.store.ts:128-148 | an update supplying nothing only resets the page |
| ResourceListStore.ChangePage | frontend/src/stores/resource.store.ts:153-156 | the page becomes the argument and nothing else changes |
| ResourceListStore.ChangePageRequests | frontend/src/stores/resource.store.ts:45-156 | after a page change the main loader requests the new page with the unchanged filters, and the free and paid loaders request the new page alone |
| ResourceListStore.SyncInteractions | frontend/src/stores/resource.store.ts:29-42 | forwards exactly the rows with an id and embedded interactions, right-merging what is extracted; nothing happens when there are none |
| ResourceListStore.SyncTwiceIsOnce | frontend/src/stores/resource.store.ts:29-42 | syncing the same rows again changes nothing, and every extracted entry reads back through the getter |
| ResourceListStore.Load | frontend/src/stores/resource.store.ts:45-120 | success appends or replaces the rows, takes over the page count, clears the error and forwards interactions; failure keeps the rows and sets the loader's message; loading ends off |
| ResourceListStore.AppendsAccumulate | frontend/src/stores/resource.store.ts:52-53 | two appending loads give old rows, then the first answer, then the second |
| ResourceListStore.ReplaceForgetsPrevious | frontend/src/stores/resource.store.ts:54-56 | a replacing load's rows do not depend on what was loaded before |
| ResourceListStore.FailureKeepsLastGoodRows | frontend/src/stores/resource.store.ts:62-67 | a failed load keeps the rows and page count and sets the error |
| ResourceListStore.LoadAsWritten | frontend/src/stores/resource.store.ts:29-120 | as written, with no extraction helper to call: an answer with a row carrying an id and interactions takes over the rows but sets the loader's failure message and keeps the old page count; other answers as in `Load` |
| ResourceListStore.AsWrittenLoadReportsFailure | frontend/src/stores/resource.store.ts:29-120 | the written and intended loaders agree on rows; they differ, with the written one failing, iff the answer has a forwardable row, and agree entirely otherwise |
| ResourceListStore.FreeAndPaidIgnoreFilters | frontend/src/stores/resource.store.ts:45-120 | the free and paid loaders send only the page, reset to 1 by a filter update; the main loader sends the filters too |

## Left out

- InteractionController.GetResourceComments: the newest-first order assumes `createdAt` rises strictly with creation. Mongoose's `timestamps` has millisecond resolution, so two comments on one resource can share a timestamp. The `{ resourceId: 1, createdAt: -1 }` index (backend/src/models/Comment.ts:38) then decides their order, and the model does not follow it. Ties are not modelled.
- InteractionController.CommentThenListedFirst: holds only when the new comment's `createdAt` is later than every earlier one's. A comment saved in the same millisecond as its predecessor may be listed behind it.
- InteractionController.GetUserBookmarks: the newest-first order assumes `createdAt` rises strictly with creation. Bookmark.ts has no index on `createdAt`, so the order among bookmarks with equal timestamps is unspecified. Ties are not modelled.
- InteractionController.ListingAfterAppend: "the new bookmark heads the listing" holds only when its `createdAt` is later than every earlier bookmark's. Under a tie its place is unspecified.
- InteractionController.BookmarkThenListedFirst: holds only when the new bookmark's `createdAt` is later than every earlier one's. Under a tie its place is unspecified.
- Database failures: every handler's catch for a failing `find`, `countDocuments` or `save` (the *_FETCH_ERROR and *_DELETE_ERROR replies) is left out, because the store is total. Schema-validation and duplicate-key failures, which end in the same catch, are modelled, and so is the database's refusal of a negative skip in the comment and bookmark listings.
- ResourceController.GetResources: the listing is the matched set plus its pagination block. The skip/limit page window, the 500 a negative skip draws, the `createdAt` sort and `populate` are left out, because the resource store is a map without creation times. Pagination's `PageStartsInside` states where the window begins.
- ResourceController.GetAllResources: as for GetResources, the page window, the `createdAt` sort, the 500 a negative skip draws, and `populate` are left out; the model states the matched set and the pagination block.
- ResourceController.GetFreeResources: as for GetResources, the page window, the `createdAt` sort, the 500 a negative skip draws, and `populate` are left out; the model states the matched set and the pagination block.
- ResourceController.GetPaidResources: as for GetResources, the page window, the `createdAt` sort, the 500 a negative skip draws, and `populate` are left out; the model states the matched set and the pagination block.
- Pagination.Paginate: `Number(page)` and `Number(limit)` of a non-numeric query value (NaN) are not modelled. Page and limit are integers.
- ResourceSchema.Validate: the URL, image-URL and icon-URL regular expressions are not modelled.
- ResourceSchema.Validate: ObjectId formats of category, type and creator are not modelled. Ids are opaque strings.
- ResourceSchema.Validate: prices are `real`. Floating-point rounding is not modelled.
- ResourceController.UpdateResourcePricing: the model assumes that of the update validators only `min: 0` on price can fail. The price path's `required` function and custom validator read `this.pricingType` (backend/src/models/Resource.ts:90-97), and under update validators `this` is not the document; depending on the Mongoose version and the `context` option those validators may throw or pass, so an update the model accepts may instead end in the 500 catch.
- `updateResource`, the generic admin patch, is not among the modelled handlers. `getUserSubmittedResources` and `prefetchResources` are imported by the router but not defined in the controller.
- InteractionController.VoteResource: the `Vote` model (backend/src/models/Vote.ts:14-38) keeps one up or down vote per resource and user, and the front-end service sends `up`, `down` or `none` (frontend/src/services/interaction.service.ts:16-18). `voteResource` uses neither: it only raises a counter. The model follows the handler, and the `Vote` collection is not modelled.
- Auth.Protect: the catch branch answering 401 AUTH_FAILED is not modelled. The JWT verifier is a total function returning an optional payload, so nothing in `protect` can throw.
- Text.ToLower: lower-cases ASCII letters only, not the full Unicode case mapping of `toLowerCase`. This affects CatalogStore.MatchesSearch.
- Taxonomy.ListByName: names are ordered by code point, which is the order of their UTF-8 bytes, the order MongoDB uses for the default collation. A collection with a non-default collation is not modelled.
- CatalogStore.FilteredResources: dates are integer timestamps and ratings integer keys. Date parsing and NaN comparator results are not modelled.
- CatalogStore.ToggleFramework: toggling twice restores the list only when the id was absent. A present id that is not last moves to the end (`ToggleTwiceReordersExample`). This is the code's behaviour and is stated as such.
- ResourceListStore.Load: the `loading` flag's value while the request is outstanding is not modelled. The model returns the state after the request settles. A response whose `data` is missing, so that spreading it throws, is not modelled.
- ResourceListStore.UpdateFilters and ChangePage: the reload they start is the separate `Load` with no append, not part of the same function.
- The listing store's `getResourceById`: not modelled. It only forwards the service's answer and syncs one row, as `SyncInteractions` does.
- InteractionsStore.FetchResourceInteractions: the auth store's `isAuthenticated` is a boolean parameter. The `isLoading` value while the request is outstanding is not modelled.
- frontend/src/services/interaction.service.ts defines neither `extractInteractionsFromResources` nor `getResourcesInteractions`, and does not export the `ResourceInteractions` type the interactions store imports. `Load` and `FetchResourceInteractions` model the evidently intended helpers as total parameters (`extract`, `service`), whose behaviour is not part of this model; the code as written is `LoadAsWritten` and `FetchAsWritten` (see Findings).
- Concurrency: check-then-insert races (bookmark, category and type creation) are out of scope. Every operation is sequential and atomic.

## Findings

| source | as written | input that shows it | evidently intended | confidence | as-written member | corrected member |
|---|---|---|---|---|---|---|
| backend/src/routes/resource.routes.ts:24 | `GET /:id` runs `getResourceById` with no authentication middleware, so `req.user` is never set and the handler's administrator branch (backend/src/controllers/resource.controller.ts:73) cannot be taken | an administrator with a valid bearer token asks for a pending resource and receives 404 RESOURCE_NOT_FOUND | administrators can read unapproved resources through this route, as the handler's check says, while anonymous callers are still served | medium, not executed | Routes.GetByIdAsWritten | Routes.GetByIdCorrected |
| frontend/src/stores/resource.store.ts:37 | the sync calls `interactionService.extractInteractionsFromResources`, which frontend/src/services/interaction.service.ts does not define; the TypeError lands in the loader's catch after the rows were replaced or appended | a page answer with one row that has an id and `userInteractions` | the embedded interactions are merged into the interactions store, the page count is taken over and no error is shown | high, not executed | ResourceListStore.LoadAsWritten | ResourceListStore.Load |
| frontend/src/stores/interactions.store.ts:53 | the fetch calls `interactionService.getResourcesInteractions`, which frontend/src/services/interaction.service.ts does not define, so every request ends in the catch | an authenticated fetch for one id not yet in the map | the missing ids are requested and the answer merged into the map | high, not executed | InteractionsStore.FetchAsWritten | InteractionsStore.FetchResourceInteractions |
