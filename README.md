# zenjaku-experiment: sales ingestion and volume aggregation, in Dafny

This project models the logic of the Zenjaku Experiment website that deals with
marketplace trades and the small display helpers around it.

- **Marketplace client** (`lib/magiceden.js`).
  - `fetchCollectionActivities` pages through a collection's activity listing, 500 items a page.
  - `sanitizeString` keeps printable ASCII only.
  - `processActivitiesForDB` turns realised trades into rows of the `sales` table.
- **Sync endpoint** (`pages/api/sync-leaderboard.js`). It checks the HTTP method and a shared secret, fetches,
  transforms, and upserts the rows in batches of 100 into a table keyed by
  `signature`, where duplicates are ignored.
- **Leaderboard endpoint** (`pages/api/leaderboard.js`). It credits every realised trade of one
  100-item page to its buyer and to its seller. It then sorts the wallets by volume,
  keeps the top 50 and ranks them.
- **Volume endpoint** (`pages/api/volume.js`). It sums a wallet's purchase volume.
- **Gallery page** (`pages/zenjaku.js`). It builds the gallery items from the uploads map.
- **Leaderboard page** (`pages/leaderboard.js`). It covers `formatAddress`, the rule that turns
  the endpoint's answer into displayed rows, and the placeholder data.

The code is modelled in the form it has in the source:

- The fetch loop, the upsert loop, the two `forEach` folds and the rank
  assignment are methods with loops.
  - Each one is proved equal to a recursive reference function: `Paginate`, `Batches`/`Upserted`,
    `Tally`, `BuyNowVolume` and `Ranked`.
  - The properties the code promises are proved about those functions as lemmas.
- The `sales` table is a class, `SalesTable`, whose rows and request log are
  changed in place by `Upsert`.
- The pure helpers are functions.

Network replies and store answers are parameters:

- `server` maps a page offset to the reply for that page.
- `upstream` is the reply to a single `fetch`.
- `faults` is the store's answer to each upsert request in turn.

Modules:

- `Wrappers`: Option, Result, Min/Max, Flatten.
- `JsBuiltins`: the JavaScript built-ins used: `toString`, `padStart`, `replace` with a string pattern, `slice` with
  negative indices, and ASCII `toUpperCase`.
- `Activity`: raw activities, reply shapes, truthiness.
- `MagicEden`, `SalesStore`, `SyncLeaderboard`, `LeaderboardApi`, `VolumeApi`, `Zenjaku` and `LeaderboardPage`: one module per core file or concern.

Facts about the code that the model keeps:

- There is no timeframe handling and only one credit policy: the full price of a realised
  trade is credited to the buyer and again to the seller.
- The leaderboard endpoint reads one page of 100 activities straight from the
  marketplace, not from the `sales` table.
- `MagicEden.PartialSuccess` uses a full first page of 500, because a shorter first page
  ends the fetch before a second request is made.
- The volume endpoint's outer filter (`buyNow`, `bid`, `list`) and inner filter
  (`buyNow`, `acceptBid`) leave only `buyNow`. An `acceptBid` never counts.
- The leaderboard page ignores `res.ok`. Any reply whose body is a JSON array is
  shown, whatever its status.
- The sync endpoint compares the header with the template `Bearer ${SYNC_SECRET_KEY}`
  exactly as written, so an unset secret expects the text `Bearer undefined`
  (see "## Findings").

## Model

| member | source | states |
|---|---|---|
| `Activity.PriceOrZero` | pages/api/leaderboard.js:26 | `price \|\| 0`: an absent price reads as 0 and a present one as itself |
| `JsBuiltins.Decimal` | pages/zenjaku.js:17 | `toString` of a natural number: at least one digit, only digits, no leading zero |
| `JsBuiltins.DecimalRoundTrip` | pages/zenjaku.js:17 | the decimal spelling reads back as the number it spells |
| `JsBuiltins.PadStart` | pages/zenjaku.js:17 | `padStart(width, fill)` has length max(len, width) and is fill characters followed by the string |
| `JsBuiltins.IndexOfFrom` | pages/zenjaku.js:11 | the index found is an occurrence with none before it; no index means no occurrence at all |
| `JsBuiltins.ReplaceFirst` | pages/zenjaku.js:11 | `replace` with a string pattern: no occurrence leaves the string unchanged; otherwise the first occurrence alone is swapped for the replacement, the text around it kept |
| `JsBuiltins.ClampIndex` | pages/leaderboard.js:32 | `slice` index rules: negative counts from the end, and the result is clamped to the length |
| `JsBuiltins.Slice` | pages/api/leaderboard.js:48 | `slice(start, end)` holds the elements from the clamped start up to the clamped end, none when the end is not past the start |
| `JsBuiltins.SliceFrom` | pages/leaderboard.js:32 | `slice(start)` is everything from the clamped start to the end, so `slice(-4)` is the last four, or all of a shorter string |
| `JsBuiltins.ToUpperAscii` | pages/api/leaderboard.js:48 | same length, each character upper-cased (ASCII letters) |
| `MagicEden.StripNonPrintable` | lib/magiceden.js:91 | the regex replace leaves only printable ASCII and never lengthens |
| `MagicEden.SanitizeString` | lib/magiceden.js:83-92 | falsy input comes back unchanged; otherwise the output is printable ASCII and a subsequence of the input |
| `MagicEden.StripIsSubsequence` | lib/magiceden.js:91 | the stripped string is the input with characters deleted, the rest kept in order |
| `MagicEden.StripKeepsPrintableCounts` | lib/magiceden.js:91 | every printable character survives exactly as often as in the input; no other character survives |
| `MagicEden.StripFixedPointIff` | lib/magiceden.js:91 | a string is unchanged by the strip if and only if it is already printable ASCII |
| `MagicEden.SanitizeIdempotent` | lib/magiceden.js:83-92 | sanitising twice is sanitising once |
| `MagicEden.SanitizeKeepsPrintable` | lib/magiceden.js:83-92 | a printable-ASCII string is left unchanged |
| `MagicEden.ToSaleRecord` | lib/magiceden.js:101-112 | each string field of the row is the sanitised source value, price is `price \|\| 0`, source is `magiceden`, and block time is the given seconds when truthy and the ingestion time otherwise |
| `MagicEden.IsRecordable` | lib/magiceden.js:96-100 | the filter passes only a `buyNow` or `acceptBid` whose buyer and signature are present and non-empty |
| `MagicEden.ProcessActivitiesForDB` | lib/magiceden.js:94-113 | never more rows than activities; every row is tagged `magiceden` with a printable signature and buyer |
| `MagicEden.ProcessAppend` | lib/magiceden.js:94-113 | processing distributes over concatenation, so rows come out in input order |
| `MagicEden.ProcessOne` | lib/magiceden.js:96-100 | one activity gives its row exactly when it is a `buyNow`/`acceptBid` with a truthy buyer and signature, and nothing otherwise |
| `MagicEden.ProcessSoundAndComplete` | lib/magiceden.js:96-112 | every row comes from a recordable activity, and every recordable activity gives a row |
| `MagicEden.Classify` | lib/magiceden.js:42-60 | a reply is a failure exactly when the request fails, the status is at least 400 or the body does not parse; a page is never empty |
| `MagicEden.Paginate` | lib/magiceden.js:12-80 | reference definition of the crawl: at most 50 requests, the first one at the starting offset |
| `MagicEden.FetchCollectionActivities` | lib/magiceden.js:12-80 | the `while` loop returns or throws what `Paginate` defines and requests the same offsets: between 1 and 50 of them, the first at 0 |
| `MagicEden.FetchBatch` | lib/magiceden.js:24-75 | one pass of the loop: on failure nothing is kept; on an empty or non-list page the loop stops and the pass is not counted; on a page the items are appended, the offset advances by the page length, and the loop goes on only for a full page below `limit` |
| `MagicEden.StepFails` | lib/magiceden.js:71-75 | a failing request ends the crawl with what was fetched, or with its error when nothing was |
| `MagicEden.StepEnds` | lib/magiceden.js:57-66 | an empty or non-list page, a short page or reaching `limit` ends the crawl with what was accumulated |
| `MagicEden.StepContinues` | lib/magiceden.js:62-69 | a full page below `limit` is appended and the crawl goes on at the offset just past it |
| `MagicEden.PaginateCollects` | lib/magiceden.js:62 | a successful result is the concatenation, in request order, of the items of every requested page |
| `MagicEden.PaginateOffsetsAdvance` | lib/magiceden.js:67 | every request but the last brought a full page, and the next offset is the previous one plus that page's length |
| `MagicEden.PaginateFailsOnlyAtFirst` | lib/magiceden.js:71-75 | an error is raised only when the very first request fails with nothing fetched before it |
| `MagicEden.FetchFailsIffFirstPageFails` | lib/magiceden.js:71-75 | the fetch raises exactly when its first page request fails |
| `MagicEden.PaginateOvershootsOnlyByLastPage` | lib/magiceden.js:62-66 | the result can pass `limit` only through its last page, which is appended whole |
| `MagicEden.PaginateLastRequestEnds` | lib/magiceden.js:23-66 | with fewer than 50 requests, the last one failed, ended the listing, came back short or brought the total to `limit` |
| `MagicEden.OneFullPageOvershootsLimit` | lib/magiceden.js:64 | with `limit` 150, one full page ends the fetch and all 500 items are returned |
| `MagicEden.PartialSuccess` | lib/magiceden.js:73 | a full first page and a failing second request return the first page's items instead of an error |
| `MagicEden.ErrorMessage` | lib/magiceden.js:42-74 | an HTTP failure reads `API Error ` and the decimal status, a parse failure `Invalid JSON`, and a network failure its own message |
| `SalesStore.UpsertedKeys` | pages/api/sync-leaderboard.js:55-60 | an upsert adds exactly the batch's signatures and changes no row already present |
| `SalesStore.UpsertedAppend` | pages/api/sync-leaderboard.js:49-60 | two upserts in a row equal one upsert of both batches |
| `SalesStore.UpsertedKnownRows` | pages/api/sync-leaderboard.js:57-60 | a batch of known signatures changes nothing |
| `SalesStore.UpsertedIdempotent` | pages/api/sync-leaderboard.js:57-60 | upserting the same rows again leaves the table unchanged |
| `SalesStore.RetryAfterPartialCommit` | pages/api/sync-leaderboard.js:62-66 | a rerun after a run that committed only a prefix of the batches leaves the same table as one complete run |
| `SalesStore.UpsertedFirstWins` | pages/api/sync-leaderboard.js:57-60 | a new signature is stored with the first row of the batch that carries it |
| `SalesStore.Upserted` | pages/api/sync-leaderboard.js:55-60 | an ignore-duplicates upsert keeps every row already stored, and every row it adds is stored under its own signature |
| `SalesStore.SalesTable.Upsert` | pages/api/sync-leaderboard.js:55-60 | the request is logged; the store's error is returned; only an accepted request changes the rows, by the ignore-duplicates upsert |
| `SyncLeaderboard.BatchesCover` | pages/api/sync-leaderboard.js:49-51 | the batches concatenate to the rows, in order, each holding 1 to 100 rows |
| `SyncLeaderboard.BatchCount` | pages/api/sync-leaderboard.js:49 | there are ceil(n / 100) batches |
| `SyncLeaderboard.BatchAt` | pages/api/sync-leaderboard.js:50 | batch k is `slice(100k, 100k + 100)` |
| `SyncLeaderboard.Batches` | pages/api/sync-leaderboard.js:49-51 | each batch holds 1 to 100 rows, and there are never more batches than rows |
| `SyncLeaderboard.BatchesPrefix` | pages/api/sync-leaderboard.js:49-51 | the first k batches hold exactly the first min(100k, n) rows |
| `SyncLeaderboard.FirstFault` | pages/api/sync-leaderboard.js:62-66 | the first refused request among those sent, with all before it accepted |
| `SyncLeaderboard.ExpectedAuthAsWritten` | pages/api/sync-leaderboard.js:7 | the expected header is `Bearer ` followed by the secret, or by the text `undefined` when the secret is unset |
| `SyncLeaderboard.AuthorizedAsWritten` | pages/api/sync-leaderboard.js:7-13 | the check the handler makes: only a header equal to the expected text passes, and that text starts with `Bearer ` |
| `SyncLeaderboard.Authorized` | pages/api/sync-leaderboard.js:7-13 | the intended check: it passes only with a truthy secret, and then only what the written check passes |
| `SyncLeaderboard.UnsetSecretAdmitsBearerUndefined` | pages/api/sync-leaderboard.js:7-13 | as written, an unset secret admits the header `Bearer undefined`, and an empty one admits `Bearer ` |
| `SyncLeaderboard.AuthorizedAgreesWhenConfigured` | pages/api/sync-leaderboard.js:6-16 | the intended check agrees with the written one when the secret is set and non-empty, and admits nobody otherwise |
| `SyncLeaderboard.Admitted` | pages/api/sync-leaderboard.js:9-16 | the handler's gate: only a POST with a header passes; with a non-empty secret it is the intended check; with no secret, exactly a POST with `Bearer undefined` passes |
| `SyncLeaderboard.SendBatches` | pages/api/sync-leaderboard.js:49-68 | batches go out in order until the store refuses batch k, which is the last sent; earlier batches stay committed and the count is 100k; with none refused, all rows are upserted and counted |
| `SyncLeaderboard.SendBatch` | pages/api/sync-leaderboard.js:50-60 | one pass sends batch k, logs it, and commits it only when the store accepts it |
| `SyncLeaderboard.UpsertInBatches` | pages/api/sync-leaderboard.js:46-68 | with no refusal, every batch is sent, the count equals the number of rows, and the table is the upsert of all rows; at the first refused batch k, batches 0..k are sent and 0..k-1 stay committed |
| `SyncLeaderboard.FirstFaultAt` | pages/api/sync-leaderboard.js:62-66 | the refused request after only accepted ones is the first fault |
| `SyncLeaderboard.Handle` | pages/api/sync-leaderboard.js:4-84 | non-POST gives 405 whatever the header; a header other than the written `Bearer ${SYNC_SECRET_KEY}` text gives 401, so an unset secret admits `Bearer undefined`; a missing service key gives 500; none of them fetches or touches the store; past them the outcome is `SyncOutcome` |
| `SyncLeaderboard.Sync` | pages/api/sync-leaderboard.js:26-83 | a fetch error gives 500 with its message and no store access; otherwise the rows of the fetched activities are reported as `Reported` states |
| `SyncLeaderboard.Report` | pages/api/sync-leaderboard.js:41-83 | no rows gives 200 "No new sales found" with no upsert; all accepted gives 200 "Synced n sales events"; a refusal gives 500 with the store's message |
| `LeaderboardApi.TradeValue` | pages/api/leaderboard.js:25-38 | a trade credits its price once per truthy buyer or seller field |
| `LeaderboardApi.VolumeOf` | pages/api/leaderboard.js:30 | `walletVolumes[w] \|\| 0`: a wallet not yet credited reads 0, a credited one its stored volume |
| `LeaderboardApi.Add` | pages/api/leaderboard.js:30 | the wallet gains the amount and no other wallet changes; a new wallet's key goes last and an existing key keeps its place |
| `LeaderboardApi.Record` | pages/api/leaderboard.js:24-39 | one pass of the `forEach` keeps the existing keys in order and adds at most two |
| `LeaderboardApi.RecordCredits` | pages/api/leaderboard.js:24-39 | one pass adds to each wallet exactly what the trade credits it, and gives a key exactly to its parties |
| `LeaderboardApi.Tally` | pages/api/leaderboard.js:21-40 | the object's keys are exactly the wallets with a volume, at most two per activity |
| `LeaderboardApi.AggregateVolumes` | pages/api/leaderboard.js:21-40 | the `forEach` builds the object `Tally` defines |
| `LeaderboardApi.AddWellFormed` | pages/api/leaderboard.js:29-38 | adding to a wallet keeps the keys distinct and in step with the values |
| `LeaderboardApi.TallyCredit` | pages/api/leaderboard.js:25-38 | each wallet's volume is the price of every realised trade it bought in plus every one it sold in |
| `LeaderboardApi.TallyTouched` | pages/api/leaderboard.js:23-40 | a wallet has a volume exactly when it is the truthy buyer or seller of some realised trade |
| `LeaderboardApi.RecordSum` | pages/api/leaderboard.js:25-38 | one activity adds its price once per wallet it credits to the sum of all volumes |
| `LeaderboardApi.TallyWellFormed` | pages/api/leaderboard.js:21-40 | the object's keys list each credited wallet once |
| `LeaderboardApi.TallyTotal` | pages/api/leaderboard.js:23-40 | before the cut, the volumes add up to the sum over realised trades of price times the number of truthy parties |
| `LeaderboardApi.Avatar` | pages/api/leaderboard.js:48 | the first two characters (fewer for a shorter address), upper-cased |
| `LeaderboardApi.Entries` | pages/api/leaderboard.js:43-49 | one entry per key in key order: entry i is for key i, with that wallet's volume, its avatar and no rank yet |
| `LeaderboardApi.SortByVolume` | pages/api/leaderboard.js:50 | the sort keeps the number of entries |
| `LeaderboardApi.Insert` | pages/api/leaderboard.js:50 | insertion places the new entry in the list, which grows by exactly one |
| `LeaderboardApi.InsertMembers` | pages/api/leaderboard.js:50 | after insertion the list holds exactly the old entries and the new one |
| `LeaderboardApi.InsertSorted` | pages/api/leaderboard.js:50 | inserting into a sorted list keeps it sorted and keeps every entry |
| `LeaderboardApi.SortByVolumeSorts` | pages/api/leaderboard.js:50 | the sort orders by non-increasing volume and is a permutation |
| `LeaderboardApi.InsertStable` | pages/api/leaderboard.js:50 | insertion keeps entries of equal volume in their order |
| `LeaderboardApi.SortByVolumeStable` | pages/api/leaderboard.js:50 | the sort is stable: entries of equal volume keep their order |
| `LeaderboardApi.InsertDistinct` | pages/api/leaderboard.js:50 | inserting an entry for a new wallet keeps every wallet's entry unique |
| `LeaderboardApi.SortDistinct` | pages/api/leaderboard.js:50 | sorting entries with distinct wallets keeps them distinct |
| `LeaderboardApi.AssignRanks` | pages/api/leaderboard.js:54-56 | each item gets rank index + 1 and nothing else changes |
| `LeaderboardApi.Ranked` | pages/api/leaderboard.js:54-56 | row i gets rank i + 1 and is otherwise the entry it came from |
| `LeaderboardApi.Leaderboard` | pages/api/leaderboard.js:43-56 | at most 50 rows, ranked 1..n in order |
| `LeaderboardApi.Handle` | pages/api/leaderboard.js:4-63 | the activities URL is requested whatever the outcome; an ok reply with a list gives 200 and the ranked board; a failed request, non-ok status, unparseable or non-list body gives 500 |
| `LeaderboardApi.EntriesMeaning` | pages/api/leaderboard.js:43-49 | before the sort there is an entry for every credited wallet, each with its credited volume and avatar |
| `LeaderboardApi.SortedFaithful` | pages/api/leaderboard.js:43-50 | every sorted entry is a credited wallet with its volume and avatar |
| `LeaderboardApi.TopEntries` | pages/api/leaderboard.js:43-51 | the cut keeps at most 50 entries, sorted and faithful |
| `LeaderboardApi.RankedRows` | pages/api/leaderboard.js:54-56 | ranking gives ranks 1..n in order and changes nothing else |
| `LeaderboardApi.LeaderboardRows` | pages/api/leaderboard.js:43-56 | at most 50 rows, ranks 1..n, non-increasing volume, and each row a credited wallet with its volume and avatar |
| `LeaderboardApi.LeaderboardDistinct` | pages/api/leaderboard.js:43-56 | no wallet appears twice on the board |
| `LeaderboardApi.SortedPosition` | pages/api/leaderboard.js:43-50 | a credited wallet has a place in the sorted entries, behind only entries of at least its volume |
| `LeaderboardApi.LeaderboardComplete` | pages/api/leaderboard.js:50-51 | a credited wallet missing from the board is only possible when the board is full, and then every row's volume is at least that wallet's |
| `VolumeApi.TotalVolume` | pages/api/volume.js:25-39 | the summing loop computes `BuyNowVolume` |
| `VolumeApi.BuyNowVolume` | pages/api/volume.js:25-39 | with no negative price the volume is never negative |
| `VolumeApi.Contribution` | pages/api/volume.js:28-37 | only a `buyNow` adds, and it adds `price \|\| 0`; an `acceptBid`, `bid` or `list` adds 0 |
| `VolumeApi.BuyNowVolumeAppend` | pages/api/volume.js:27-39 | the volume of two runs of activities is the sum of their volumes |
| `VolumeApi.NoPurchaseNoVolume` | pages/api/volume.js:28-35 | without a `buyNow` the volume is 0, whatever `acceptBid`, `bid` or `list` activities there are |
| `VolumeApi.RemoveOne` | pages/api/volume.js:35-37 | removing one activity lowers the volume by exactly its contribution |
| `VolumeApi.VolumeOrderIndependent` | pages/api/volume.js:25-39 | two listings with the same activities, in any order, have the same volume |
| `VolumeApi.Handle` | pages/api/volume.js:1-46 | a falsy address gives 400 with no fetch; otherwise the wallet URL is fetched, an ok list reply gives 200 with the `buyNow` volume, and anything else gives 500 |
| `Zenjaku.GalleryItemsMeaning` | pages/zenjaku.js:10-19 | one item per upload in order: index is position + 1, filename and image copied, id the first-`.png`-removed name, name `#` and at least three digits spelling the index |
| `Zenjaku.GalleryItems` | pages/zenjaku.js:10-19 | one item per upload, in order, with index position + 1 and the upload's URL as image |
| `Zenjaku.ItemName` | pages/zenjaku.js:17 | the name is `#` and at least three more characters |
| `Zenjaku.ItemId` | pages/zenjaku.js:11 | without `.png` the id is the file name; with one, the id is four characters shorter |
| `Zenjaku.ItemNameSpells` | pages/zenjaku.js:17 | the name is `#` followed by digits whose value is the index, at least three of them |
| `Zenjaku.ItemNamesDistinct` | pages/zenjaku.js:17 | different indices give different names |
| `Zenjaku.ItemNameExamples` | pages/zenjaku.js:17 | 1 is named `#001` and 1000 `#1000` |
| `Zenjaku.ItemIdRestores` | pages/zenjaku.js:11 | putting `.png` back where the first one was gives the file name back; without `.png` the id is the file name |
| `Zenjaku.ItemIdExample` | pages/zenjaku.js:11 | only the first `.png` goes: `1.png.png` becomes `1.png` |
| `LeaderboardPage.FormatAddress` | pages/leaderboard.js:30-33 | a falsy address gives `Unknown`; otherwise the first min(6, n) characters, `...`, and the last min(4, n) |
| `LeaderboardPage.FormatAddressShape` | pages/leaderboard.js:32 | the result has length min(6, n) + 3 + min(4, n): a prefix of the address, three dots and a suffix of it |
| `LeaderboardPage.FormatAddressCollides` | pages/leaderboard.js:32 | two long addresses agreeing on their first six and last four characters look alike |
| `LeaderboardPage.FormatAddressLongExample` | pages/leaderboard.js:32 | `darkknight.sol` is shown as `darkkn....sol` |
| `LeaderboardPage.FormatAddressShort` | pages/leaderboard.js:32 | an address of one to four characters appears whole on both sides of the dots, so `abc` is shown as `abc...abc` |
| `LeaderboardPage.DisplayedData` | pages/leaderboard.js:44-56 | a list body is shown as it is; any other body, an unparseable body or a thrown request shows an empty table |
| `LeaderboardPage.DisplayedFromHandler` | pages/leaderboard.js:45-53 | the page shows the endpoint's rows, and an empty table when the endpoint failed |
| `LeaderboardPage.Served` | pages/leaderboard.js:45-53 | the page receives the endpoint's status, and a list body exactly when the endpoint answered with rows |
| `LeaderboardPage.RankedStrictlyByVolume` | pages/leaderboard.js:6-28 | placeholder-style rows, with strictly falling volume, are in the endpoint's sort order |
| `LeaderboardPage.MockAllTimeRanked` | pages/leaderboard.js:7-13 | the all-time placeholder has five rows ranked 1..5 with strictly falling volume |
| `LeaderboardPage.MockMonthlyRanked` | pages/leaderboard.js:14-20 | the monthly placeholder has five rows ranked 1..5 with strictly falling volume |
| `LeaderboardPage.MockDailyRanked` | pages/leaderboard.js:21-27 | the daily placeholder has five rows ranked 1..5 with strictly falling volume |
| `LeaderboardPage.InitialDataRanked` | pages/leaderboard.js:38 | before the first request settles the page shows the all-time placeholder: five rows ranked 1..5, in the endpoint's sort order |

## Left out

- Network I/O is not modelled: axios and `fetch`, the TLS settings of the HTTPS agent, UTF-8 decoding and `JSON.parse`. Each reply is a parameter, already classified as a failed request, a status with an unparseable body, a non-list body, or a list.
- The 200 ms pause between pages and all `console` logging are left out. Neither has an effect on results.
- Prices are `real`. JavaScript floating-point rounding and `NaN` are not modelled. `price || 0` treats 0 and an absent price alike, which the model keeps.
- Dates are left out. `new Date(...)`, `toISOString` and the `blockTime * 1000` conversion become a block time that is either the given seconds or "ingestion time".
- The Supabase client is left out. It is a library that is not shown. The store is a map from signature to row, with ignore-duplicates upserts and the store's answers as parameters. A missing `SUPABASE_SERVICE_ROLE_KEY` is its one modelled failure.
- `MagicEden.FetchCollectionActivities` takes the collection symbol as fixed: the URL it builds is not modelled, only the offsets it requests.
- Object keys that look like integers are listed first by `Object.entries` in JavaScript. The key `__proto__` is special as well. `LeaderboardApi.Entries` lists keys in insertion order for all strings.
- `LeaderboardApi.Tally` starts every wallet at 0. In JavaScript a wallet named after an `Object.prototype` member such as `constructor` or `toString` reads the inherited value in `walletVolumes[w] || 0` (pages/api/leaderboard.js:30-37). Its volume then becomes a string and the sort comparator gives `NaN`; the model does not capture this.
- `MagicEden.ToSaleRecord` always builds a row. In JavaScript `new Date(blockTime * 1000).toISOString()` (lib/magiceden.js:109) throws a `RangeError` for an out-of-range or non-numeric block time, and the sync then answers 500 before any upsert.
- `LeaderboardPage.FormatAddress` and `LeaderboardApi.Avatar` count characters. JavaScript's `slice` and `length` count UTF-16 code units, so the two differ for characters outside the Basic Multilingual Plane.
- `LeaderboardApi.AssignRanks` ranks an array of entry values. Aliasing between the sorted array and the objects it holds is not modelled, because nothing else holds them.
- `JsBuiltins.ToUpperAscii` and so `LeaderboardApi.Avatar`: `toUpperCase` is modelled for ASCII letters only. Other characters are kept as they are, which is weaker than full Unicode case mapping.
- Every element of an activity list is taken to be an activity object with a string `type`, optional string fields and an optional numeric `price`. In JavaScript a `null` element throws in the `.filter` (lib/magiceden.js:96) and in the `forEach` loops (pages/api/leaderboard.js:23, pages/api/volume.js:27), and the endpoint answers 500. A non-string field is coerced by `String(str)` (lib/magiceden.js:91). A string `price` is concatenated, not added, at pages/api/leaderboard.js:30. `RawActivity` cannot express these inputs.
- `req.query` values that are arrays are left out: the volume endpoint's address is one optional string.
- React state, rendering and effects are left out, as are `toLocaleString` and the timeframe tabs of the leaderboard page. The tabs only re-trigger the same request.
- The sort comparator `b.volume - a.volume` is modelled as a stable insertion sort by non-increasing volume. JavaScript's `Array.prototype.sort` is stable, so the order is the same.

## Findings

| source | as written | input that shows it | evidently intended | confidence | as-written member | corrected member |
|---|---|---|---|---|---|---|
| pages/api/sync-leaderboard.js:7-13 | the expected header is the template `Bearer ${SYNC_SECRET_KEY}`, so an unset secret expects the literal text `Bearer undefined` | `SYNC_SECRET_KEY` unset, header `Authorization: Bearer undefined`: the request passes the secret check | with no secret configured, no request is admitted | not executed | `SyncLeaderboard.UnsetSecretAdmitsBearerUndefined` | `SyncLeaderboard.AuthorizedAgreesWhenConfigured` |
