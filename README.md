# Fluent Flame Reader: item model and helpers, in Dafny

This project models the core of the Fluent Flame Reader feed reader. That core
is the item model that ingests feed entries and keeps the items slice of the
store, plus the helpers and the database rules around it:

- **Ingestion** (`src/scripts/models/item.ts`). The `RSSItem` constructor
  sanitises a parsed entry. `parseContent` gathers the thumbnail candidates in
  a fixed order: Open Graph, Media RSS `media:thumbnail`, `thumb`, `image`,
  `media:content`, and the first `<img>` of the content. It then resolves them
  and picks the primary thumbnail. `insertItems` sorts a batch by date and
  stores it under consecutive keys. `fetchItems` chooses the sources that are
  due and merges their results.
- **The items reducer**. `applyItemReduction` and `itemReducer` form a pure
  state machine over a map from item id to item. The function `Reduce`
  specifies it, and the method `ItemReducerStep` computes it loop by loop.
- **Thumbnail helpers** (`src/scripts/thumb-utils.ts`). These cover the
  chunked head read that stops at `</head>`, the fixed-priority Open Graph
  query selection, and the medium decision after a HEAD probe.
- **Utilities** (`src/scripts/utils.ts`). These are `mergeSortedArrays`,
  `cutText`, `dateCompare` and the favicon ranking of `getPotentialFavicons`
  (`<link rel="icon" sizes>` of the WHATWG HTML Living Standard).
- **Store rules**. The `++sid, &url` and `++iid` tables of `src/scripts/db.ts`
  are modelled with their key generator and unique index, together with the
  insert-if-absent migration from the old Lovefield database. The item filter
  of `getItemEntries` is also modelled.
- **Configuration**. This covers the `SourceGroup` constructor, the default
  view and its bit flags, the locale fallback, the motion preference and its
  injected style, and the normalisation and reload done by `importAll`.

Dates are integer milliseconds and URLs are strings. The network, the DOM,
URL resolution and the clock are parameters, mostly fields of the
`Item.Network` datatype. Objects that the source changes in place are
classes: `Item.RSSItem`, the two tables `Db.SourcesTable` and
`Db.ItemsTable`, and the document of `Settings.Document`. Loops of the
source are methods, proved against specification functions.

The files are `wrappers.dfy` (Option, Result), `text.dfy` (JavaScript string
operations), `sorting.dfy` (the stable `Array.prototype.sort` by a numeric
key), `schema_types.dfy`, `utils.dfy`, `thumb_utils.dfy`, `db.dfy`,
`item.dfy`, `item_reducer.dfy`, `service_utils.dfy` and `settings.dfy`.

Three behaviours of the code are worth noting, and the model follows them:

- The base URL for the first `<img>` of the content is the item link's
  origin (`split("/").slice(0, 3)`), not the full link.
- Thumbnail failures are not swallowed. A rejected fetch or HEAD probe
  rejects `parseContent`, and a candidate URL that `new URL` cannot parse
  throws. The model returns these as errors and keeps the candidates
  gathered so far. Likewise, an icon href that `new URL` cannot parse makes
  `getPotentialFavicons` throw.
- `insertItems` does not remove duplicate items by link before inserting
  them.

## Model

| member | source | states |
|---|---|---|
| SchemaTypes.NewSourceGroup | src/schema-types.ts:8-18 | `sids` is kept. A group with exactly one sid is not multiple and has no name or expanded flag. Any other count, 0 included, is multiple, expanded, and has a non-empty name. |
| SchemaTypes.GroupNameSpec | src/schema-types.ts:9 | The name is the trimmed argument when it has a non-white-space character, else "Source group". |
| SchemaTypes.NewSourceGroupName | src/schema-types.ts:9-15 | A multi-source group is named by that rule. |
| SchemaTypes.DefaultViewConfig | src/schema-types.ts:47-52 | The default view is Cards, with ShowCover as the only flag set. |
| SchemaTypes.FlagsAreDistinctBits | src/schema-types.ts:36-40 | Each list-view flag is a single bit, and different flags share no bit. |
| SchemaTypes.ToggleFlag | src/components/context-menu.tsx:248-284 | Toggling a flag by XOR flips it and leaves every other flag unchanged. Toggling twice restores the configuration. |
| Utils.MergeSortedArrays | src/scripts/utils.ts:220-238 | The two-pointer loop computes exactly `Merge(a, b, cmp)`. |
| Utils.MergeIsInterleaving | src/scripts/utils.ts:228-236 | The merge is an interleaving of `a` and `b` that keeps each one's order. |
| Utils.MergeIsPermutation | src/scripts/utils.ts:220-238 | The merge has length `|a|+|b|` and is a permutation of `a + b`. |
| Utils.MergeIsSorted | src/scripts/utils.ts:228-236 | If `a` and `b` are sorted by an antisymmetric `cmp`, so is the merge. |
| Utils.MergeTiesTakeLeft | src/scripts/utils.ts:229-230 | When every element of `a` compares `<= 0` against every element of `b`, the merge is `a + b`, so ties take `a` first. |
| Utils.MergeStrictlySmallerRight | src/scripts/utils.ts:229-233 | When every `b` element is strictly smaller, the merge is `b + a`. |
| Utils.CutText | src/scripts/utils.ts:176-178 | Returns `s` when it fits. Otherwise returns the first `length` characters followed by "…", so the result has at most `length + 1` characters. A negative length slices from the end, as `slice` does. |
| Utils.DateCompare | src/scripts/utils.ts:274-279 | As written, the result holds iff `limit <= d`, and also `d <= limit` when `before` is set. |
| Utils.DateCompareAfter | src/scripts/utils.ts:274-279 | Without `before`, the test holds iff `d >= limit`. |
| Utils.DateCompareBeforeIsEquality | src/scripts/utils.ts:274-279 | With `before`, the test holds only when `d == limit`. |
| Utils.WithinDateLimit | src/scripts/models/item.ts:666-670 | The rule the reducer uses: `d <= limit` with `before`, `d >= limit` without it. |
| Utils.DateCompareVersusLimit | src/scripts/utils.ts:269-279 | The two rules agree without `before`. With `before` they differ exactly on the dates earlier than the limit, for example `limit - 1`. |
| Utils.Ranking | src/scripts/utils.ts:131-144 | The rank is -2 iff `sizes == "any"`, -1 iff the space-split sizes contain "16x16", and 0 otherwise. |
| Utils.UnresolvedIcon | src/scripts/utils.ts:130-145 | Nothing iff every icon link's href resolves against the base URL. Otherwise the href of the first icon link, in document order, whose `new URL` throws. |
| Utils.UnresolvedIconPrefix | src/scripts/utils.ts:128-147 | Once some icon link fails to resolve, links after it do not change which href the loop throws on. |
| Utils.GetPotentialFavicons | src/scripts/utils.ts:124-150 | Fails with the href of the first icon link that does not resolve. Otherwise the loop and the sort compute `PotentialFavicons` over the resolved hrefs. |
| Utils.FaviconsAreTheIconLinks | src/scripts/utils.ts:127-149 | The favicons are a permutation of the resolved hrefs of the `icon`/`shortcut icon` links that have an href. With no such link the result is empty. |
| Utils.NoIconTargets | src/scripts/utils.ts:130 | Links that are not icon links give no candidates. |
| Utils.FaviconOrder | src/scripts/utils.ts:148-149 | The result lists the "any" icons, then the 16x16 icons, then the rest, each group in document order. |
| Sorting.SortByIsSortedPermutation | src/scripts/utils.ts:148 | The numeric-key sort gives a sorted permutation of its input. |
| Sorting.SortByIsStable | src/scripts/utils.ts:148 | Elements with equal keys keep their input order. |
| ThumbUtils.UrlToThumbnailAttributes | src/scripts/thumb-utils.ts:76-102 | The url and type are kept. A known medium is returned without a probe. For an unknown one, a rejected probe is an error, a non-ok response gives image, a missing content-type is an error, and otherwise the medium is video iff the type starts with "video/". |
| ThumbUtils.KnownMediumNeedsNoProbe | src/scripts/thumb-utils.ts:81-94 | With a known medium the probe is irrelevant. A non-ok response gives image even with no content-type. |
| ThumbUtils.HeadChunks | src/scripts/thumb-utils.ts:19-26 | Reading stops at the first chunk that contains `</head>` (case-insensitive) and includes that chunk. If no chunk does, every chunk is read. |
| ThumbUtils.FetchHead | src/scripts/thumb-utils.ts:12-27 | The loop computes `HeadText`: "" for a non-ok or bodiless response, otherwise the chunks up to the closing one, joined. A rejected fetch is an error. |
| ThumbUtils.HeadIsPrefixOfBody | src/scripts/thumb-utils.ts:19-26 | The head read is a prefix of the whole body. |
| ThumbUtils.HeadHasClosingTag | src/scripts/thumb-utils.ts:21-23 | When some chunk closes the head, the text read contains `</head>`. |
| ThumbUtils.FindContent | src/scripts/thumb-utils.ts:51 | Returns the content of the first meta whose property equals the query exactly, and nothing iff no meta has that property. |
| ThumbUtils.MakeOpenGraphThumbnail | src/scripts/thumb-utils.ts:29-62 | The loop computes `OpenGraphThumbnails` over the six fixed queries, in order. |
| ThumbUtils.OpenGraphThumbnailsShape | src/scripts/thumb-utils.ts:50-60 | There is at most one candidate per query. Each has type OpenGraph, the content of its query's first exact match, and medium image iff the query starts with "og:image". |
| ThumbUtils.UnmatchedQueriesYieldNothing | src/scripts/thumb-utils.ts:51-52 | Queries without an exact match give no candidates. |
| ThumbUtils.FetchOpenGraphThumb | src/scripts/thumb-utils.ts:66-74 | Returns null when the head does not mention og:image or og:video, checked case-insensitively. Otherwise returns the Open Graph candidates. A failed fetch propagates. |
| Db.AddSource | src/scripts/db.ts:44-47 | An add is refused when the key or the url is taken. Otherwise the row is stored under its own sid or the generator's next key, and the generator moves past it. |
| Db.AddSourceKeepsInvariant | src/scripts/db.ts:45 | Adding keeps each row under its own sid, below the generator, with unique urls. |
| Db.BulkAddedKeepsInvariant | src/scripts/db.ts:46 | Bulk adding keeps each item under its own iid, below the generator. |
| Db.FreshBatchGetsConsecutiveKeys | src/scripts/db.ts:46 | A batch of key-less items is stored whole under consecutive keys from the generator, in batch order, and the old rows are kept. |
| Db.ItemsTable.BulkAdd | src/scripts/db.ts:46 | The table's new state and the returned keys are those of `BulkAdded`. |
| Db.SourcesTable.Add | src/scripts/db.ts:45 | The table's new state and the result are those of `AddSource`. |
| Db.MigrateFromSpec | src/scripts/db.ts:62-86 | Migration keeps the invariant, so urls stay unique, and never modifies an existing source. Every old url is present afterwards, and every new row is an old row stored under its own sid, or under a generated key when its sid was 0. |
| Db.RepeatedUrlIsSkipped | src/scripts/db.ts:62-85 | Two old rows with the same new url, whatever their sids: the first is stored under its own sid (or a generated key when the sid is 0), the second is skipped, and the migration succeeds. |
| Db.MigrateLovefieldSourcesDb | src/scripts/db.ts:52-88 | Does nothing when no database has that name. Otherwise the loop runs `MigrateFrom` in one transaction, and a refused add rolls the whole transaction back. |
| Item.Sanitised | src/scripts/models/item.ts:46-49 | A truthy non-string field is dropped. Any other value is kept. |
| Item.StringOr | src/scripts/models/item.ts:51-52 | A non-empty string is kept. Anything else gives the fallback. |
| Item.ItemDate | src/scripts/models/item.ts:54 | The date is `isoDate`, else `pubDate`, else the fetch time. |
| Item.RSSItem.constructor | src/scripts/models/item.ts:45-60 | The title defaults to the untitled placeholder and the link to "". A non-string creator is dropped. The date follows the rule above. The four flags start false, and the item has no key yet. |
| Item.ProbeEach | src/scripts/models/item.ts:161-170 | The loop of awaited probes computes `ProbeAll`, which stops at the first rejection. |
| Item.ProbeAllAppend | src/scripts/models/item.ts:161-236 | Probing two request lists in turn is probing their concatenation. |
| Item.ProbeAllAnswersInOrder | src/scripts/models/item.ts:161-236 | The i-th candidate answers the i-th request with the same url and type. With no rejection there is one candidate per request. |
| Item.LaterRequestsInOrder | src/scripts/models/item.ts:161-236 | After Open Graph, the requests run media thumbnails, then `thumb`, then the rest, and never go back to an earlier kind. |
| Item.CandidatesInPriorityOrder | src/scripts/models/item.ts:155-236 | The gathered candidates are in the fixed kind order: Open Graph, media thumbnail, thumb, other. This also holds when a rejection stopped the gathering. |
| Item.ResolveAll | src/scripts/models/item.ts:238-244 | Each candidate's url is resolved against the link, with medium and type kept. The error is the first url that does not resolve. |
| Item.ResolvedKeepsOrder | src/scripts/models/item.ts:238-244 | Resolution keeps the priority order. |
| Item.PrimaryThumb | src/scripts/models/item.ts:245-252 | `thumb` is the first candidate's url. It is dropped when non-empty and starting with neither "https://" nor "http://". The list itself is kept. |
| Item.ContentOf | src/scripts/models/item.ts:144-154 | A non-empty string `fullContent` gives the content and the decoded snippet. Otherwise the content is `content` or "", and the snippet is the decoded `contentSnippet`. |
| Item.GatherThumbnails | src/scripts/models/item.ts:155-252 | The thumbnail steps compute `ParseOutcome`. |
| Item.ParseOutcomeShape | src/scripts/models/item.ts:155-252 | After a successful parse the thumbnails are in priority order and `thumb` is `PrimaryThumb` of them. After a rejection, `thumb` is the old one. |
| Item.RSSItem.ParseContent | src/scripts/models/item.ts:143-253 | Sets the content, snippet, thumbnails and thumb as above, and changes no other field. |
| Item.InsertItems | src/scripts/models/item.ts:348-357 | Sorts by date, bulk adds, and writes the i-th returned key into the i-th sorted item. Returns nothing when the bulk add rejects. |
| Item.InsertedItems | src/scripts/models/item.ts:348-357 | For new items, every item comes back, oldest first. They are the same items as a multiset, with keys `next + i`, each stored under its key. |
| Item.DueSourcesAreTheDueOnes | src/scripts/models/item.ts:376-390 | Without ids, a source is chosen iff it has no service reference and either `last > now` or `last + fetchFrequency*60000 <= now`. A missing `lastFetched` counts as 0. |
| Item.NamedSourcesSpec | src/scripts/models/item.ts:388-390 | With ids, an unknown id is an error. Otherwise exactly the named sources without a service reference are chosen. |
| Item.MergeResults | src/scripts/models/item.ts:405-412 | The loop collects the fulfilled items in order and the failed sources. |
| Item.GatheredCounts | src/scripts/models/item.ts:406-408 | An item is collected iff some fulfilled fetch returned it, and the count is the sum over the fulfilled fetches. |
| Item.FailedAreTheRejected | src/scripts/models/item.ts:406-411 | A source is reported as failed iff its fetch was rejected. |
| Item.FetchItems | src/scripts/models/item.ts:359-448 | Nothing runs while fetching or syncing. Otherwise the chosen sources are fetched, their results merged and inserted, and the inserted items are returned newest first with the failed sources. |
| ItemReducer.ApplyItemReduction | src/scripts/models/item.ts:608-626 | MARK_READ/MARK_UNREAD set `hasRead`, and the toggles negate `starred`/`hidden`. Nothing else changes. |
| ItemReducer.ReductionLaws | src/scripts/models/item.ts:608-626 | The toggles are involutions, marking is idempotent, and the id is kept. |
| ItemReducer.FromListKeys | src/scripts/models/item.ts:640-643 | The map built from a list has exactly the listed ids, each holding one of the listed items. |
| ItemReducer.ReduceKeepsValid | src/scripts/models/item.ts:628-717 | Every action keeps each item under its own id. |
| ItemReducer.FetchedItemsKeepLoadedOnes | src/scripts/models/item.ts:637-648 | FETCH_ITEMS adds every fetched id. An id already in the state keeps its entry, and a new id gets one of the fetched items. |
| ItemReducer.LoadedItemsWin | src/scripts/models/item.ts:681-694 | LOAD_MORE/INIT_FEED replace the loaded ids with the loaded items and keep everything else. |
| ItemReducer.ItemActionTouchesOneItem | src/scripts/models/item.ts:649-660 | A single-item action changes only that entry, and only by `ApplyItemReduction`. |
| ItemReducer.MarkAllReadSpec | src/scripts/models/item.ts:661-680 | An item is read afterwards iff it was read before, or its source is in `sids` and either time is absent or 0 or the date passes the `<=`/`>=` limit. No other field changes, and applying the action twice is the same as once. |
| ItemReducer.SyncLocalItemsSpec | src/scripts/models/item.ts:695-706 | An item with a service reference is read iff it is not in the unread ids, and starred iff it is in the starred ids. Other items are unchanged, and the action is idempotent. |
| ItemReducer.FreeMemorySpec | src/scripts/models/item.ts:707-713 | Exactly the kept ids remain, with their entries unchanged. |
| ItemReducer.ItemReducerStep | src/scripts/models/item.ts:628-717 | The reducer, with its loops, computes `Reduce`. |
| ItemReducer.BuildMap | src/scripts/models/item.ts:640-643 | The loop `m[i.iid] = i` gives `m + FromList(items)`. |
| ItemReducer.MarkAllReadLoop | src/scripts/models/item.ts:661-680 | The MARK_ALL_READ loop computes `MarkAllReadIn`. |
| ItemReducer.SyncLoop | src/scripts/models/item.ts:695-706 | The SYNC_LOCAL_ITEMS loop computes the synced map. |
| ItemReducer.FreeMemoryLoop | src/scripts/models/item.ts:707-713 | The FREE_MEMORY loop keeps exactly the listed ids. |
| ServiceUtils.GetItemEntriesSpec | src/scripts/models/services/service-utils.ts:8-26 | An item is returned iff its source is in `sids`, it is unread, it has a service reference and, when a date is given, `dateCompare` holds. |
| ServiceUtils.DateFilterAsWritten | src/scripts/models/services/service-utils.ts:20-22 | With `before` only items dated exactly at the limit pass. Without it, items at or after the limit pass. |
| Settings.GetCurrentLocale | src/scripts/settings.ts:154-159 | Returns the stored locale if known, else its language if known, else "en-US". |
| Settings.LocaleIsKnownOrFallback | src/scripts/settings.ts:154-159 | The result is known or "en-US", and is a prefix of the stored locale unless it is the fallback. |
| Settings.LanguageIsPrefix | src/scripts/settings.ts:157 | The part before the first "-" is a prefix of the locale that contains no "-". |
| Settings.RealisedPref | src/scripts/settings.ts:92-106 | System becomes Off iff the system prefers reduced motion, else On. Any other preference is used as given. |
| Settings.Document.ApplyAnimationMotionPref | src/scripts/settings.ts:92-121 | The first motion style is removed. Then Off injects the transitions-and-animations style, Reduced the transitions style, and On nothing. At most one style remains. |
| Settings.AppliedPreferenceShape | src/scripts/settings.ts:108-152 | Afterwards there is no motion style for On and exactly one otherwise. |
| Settings.RemovalCount | src/scripts/settings.ts:146-152 | Removing the first styled element lowers their count by one. |
| Settings.NormalizeImportedSource | src/scripts/settings.ts:193-197 | A missing or zero `textDir` becomes LTR and a missing or false `hidden` becomes false. The other fields are kept. |
| Settings.AddAllSpec | src/scripts/settings.ts:193-198 | Adding the sources one by one keeps the table invariant. Every source's url or sid is then present, and every new row is one of the sources, stored under its own sid or under a generated key when its sid was 0. |
| Settings.ImportAll | src/scripts/settings.ts:177-207 | With no data or no confirmation, returns true and leaves the tables alone. Otherwise it clears both tables, adds every normalised source (refusals ignored) and bulk adds the items. It returns false, or an error when the bulk add rejects. |

## Left out

- Network, DOM and URL parsing (`fetch`, `AbortController`, `TextDecoderStream`, `DOMParser`, `htmlDecode`, `new URL`) are parameters. Their own behaviour is not modelled.
- Charset sniffing in `decodeFetchResponse`, `parseRSS` and the rss-parser library are foreign code.
- `urlTest` and `validateRegex` depend on the JavaScript regular-expression engine.
- ThumbUtils.MentionsOpenGraph: the `/og:(?:image|video)/gi` test at src/scripts/thumb-utils.ts:64,70 is a global regex whose `lastIndex` persists between calls. It is modelled as a plain case-insensitive substring test.
- ThumbUtils.HeadChunks: the `</head>` test is an ASCII case-insensitive substring test. Unicode case folding is not modelled.
- Item.FetchItems: concurrency, the `.then`/`.finally` dispatches, `syncWithService`, the `lastFetched` update, notifications and `requestAttention` are left out. The sources are fetched in order, and the state after the service sync is a parameter.
- Item.ParseContent: candidates are probed one after another as in the code. The content image is looked up before the probes rather than after them, which makes no difference because the lookup has no effect.
- Item.RSSItem.constructor: a falsy non-string `creator` (such as `0` or `null`) is stored as is by the code but as absent in the model. Dates arrive as milliseconds, so parsing `isoDate`/`pubDate` strings and Invalid Date are not modelled.
- Item.InsertItems: the items are values, not shared objects, so the model does not capture aliasing of the caller's `RSSItem` objects. A `NaN` date in the comparator is not modelled.
- ItemReducer.ItemReducerStep: it requires each item to sit under its own id, an invariant every action keeps (`ReduceKeepsValid`). It also requires a single-item action to name an id in the state. The code would otherwise store a partial object.
- The database paths of `markAllRead` (it queries a non-existent `sids` index inside an un-awaited transaction) and the fire-and-forget writes of the single-item actions are left out. The reducer side is modelled.
- `db.ts` `init` refers to undefined names and is left out. Opening and deleting the old IndexedDB database are parameters.
- Db.MigrateLovefieldSourcesDb: `new Date(source.lastFetched)` is carried as the same optional number, so Invalid Date is not modelled.
- ServiceUtils.GetItemEntries: the rows are taken in the order the `source` index yields them, and that order is a parameter.
- ItemReducer.SyncLocalItemsSpec: the code syncs every item that has its own `serviceRef` property, while the model syncs only items whose `serviceRef` holds a value. An item whose own `serviceRef` is `undefined` would be marked read and unstarred by the code but is left unchanged here. The model's optional field does not tell a present-but-undefined property from a missing one.
- Settings.GetCurrentLocale: `known` stands for the own keys of `locales`. The code's `in` test also finds inherited keys such as `toString`, which the model does not treat as known.
- Settings.Document: the element sequence stands for the children of `document.head`, where `head.append` puts the injected style. The code's `querySelector` searches the whole document, so an element in the body with the same id, which the model does not capture, would be removed instead.
- Settings.ImportAll: `JSON.parse`, `settings.setAll`, the dialogs and the date conversions are left out. The un-awaited source adds run one after another.
- Settings.NormalizeImportedSource: `SourceTextDirection` is declared in `src/scripts/models/source.ts`, which is not part of this model. LTR is taken to be its first member, 0.
- `exportAll`, theming and font loading, and `byteToMB` (float rounding) are left out.
- Strings are sequences of characters, not UTF-16 code units. `cutText` and `Trim` count characters.

## Findings

| source | as written | input that shows it | evidently intended | confidence | as-written member | corrected member |
|---|---|---|---|---|---|---|
| src/scripts/utils.ts:269-279 | `dateCompare(d, limit, true)` returns false for every `d < limit`, so with `before` only `d == limit` passes | `d = limit - 1`, `before = true`: the result is false | keep dates at or before the limit with `before`, as the reducer does at src/scripts/models/item.ts:666-670 | not executed | Utils.DateCompareVersusLimit | Utils.WithinDateLimit |
