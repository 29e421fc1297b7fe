# client-scraper, modelled in Dafny

client-scraper crawls the German business directory *Das Örtliche*. It runs in three steps:

1. It probes how many results a search (`Fleischerei`) has.
2. It walks the result pages. Each result block becomes a *listing*: name, link, category, parsed address and parsed contact numbers. The listing is stored in a JSON database under the MD5 digest of its link, with status `detail-crawl-pending`.
3. It visits the detail page of every pending listing. It reads the website and email links there and marks the listing `detail-crawled`.

The project models:

- The three string normalisers of `utils.js`: `parseAddress`, `parseContactNumber` and `resolvePlaceholder`.
- The result store of `index.js`: `/results` keyed by id plus `/resultCount`, with `storeResult`, `getResults`, `getResult` and `updateResult`.
- The discovery loop `crawlDasOertliche` and the enrichment loop `crawlDetails`.
- The start-up sequence that wipes the store and runs both passes.

Files, in dependency order:

| file | module | contents |
|---|---|---|
| `wrappers.dfy` | `Wrappers` | `Option` (JavaScript `null` is `None`) |
| `text.dfy` | `Text` | the JavaScript string built-ins the code uses: `trim`, `split`, `join`, `toLowerCase`, global literal `replace`, `String(n)` |
| `utils.dfy` | `Utils` | `parseAddress`, `parseContactNumber`, `resolvePlaceholder` and their properties |
| `store.dfy` | `Store` | the `Listing` record, the `ResultStore` class and `StoreAll`, the effect of a run of `storeResult` calls |
| `crawler.dfy` | `Crawler` | JavaScript numbers, `parseInt`, configuration, request delay, pagination offsets |
| `discovery.dfy` | `Discovery` | block parsing, page URLs and the discovery pass |
| `details.dfy` | `Details` | the enrichment pass |
| `program.dfy` | `Program` | the start-up sequence followed by both passes |

The browser is replaced by inputs:

- `probe`: the text of the result-count element at a URL.
- `fetchPage`: the result blocks at a result-page URL.
- `detailAt`: the website and email a detail page shows, `None` where the link is not visible.
- `idOf`: the MD5 hex digest of a link.

`Math.random()` is a `real` in `[0, 1)` passed to `RequestDelay`.

Points where the code behaves in a way that is easy to misread:

- `district` is the piece between the first and the second comma of the second line (`split(',')[1]`). It is not all the text after the first comma.
- The page step reads `config.resultsPerPage`, which the configuration object does not have (see Findings).
- An unparseable result count does not abort the run. `parseInt` gives `NaN`, the loop condition is false, and no page is visited.
- An empty or absent address gives `null`, not a record whose fields are all `null`.
- The status written by enrichment is `detail-crawled`.

## Model

| member | source | states |
|---|---|---|
| Utils.BlankIsNull | utils.js:8-9 | `s.trim() \|\| null` is `null` exactly when every character of `s` is whitespace |
| Utils.ParseAddress | utils.js:2-14 | the result is `null` exactly when the input is absent or empty; otherwise it is a record |
| Utils.DistrictOf | utils.js:9 | a district, when there is one, is non-empty, trimmed and holds no comma |
| Utils.ZipOf | utils.js:10 | a zip, when there is one, is a non-empty token with no space and no comma |
| Utils.CityOf | utils.js:11 | a city, when there is one, is a non-empty token with no space and no comma |
| Utils.StreetIsFirstLine | utils.js:6-8 | `street` is the first `\|`-segment trimmed, `null` when that is empty |
| Utils.OneLineHasOnlyStreet | utils.js:8-11 | without a second segment, `zip`, `city` and `district` are all `null` |
| Utils.FieldsFromSecondLine | utils.js:9-11 | `zip`, `city` and `district` depend on the second segment only; later segments are ignored |
| Utils.DistrictIsSecondCommaPiece | utils.js:9 | `district` is the piece between the first and second comma, trimmed, `null` if empty |
| Utils.NoCommaNoDistrict | utils.js:9 | a second segment without a comma has no district |
| Utils.ZipAndCityAreFirstTokens | utils.js:10-11 | `zip` and `city` are the first two space-separated tokens of the trimmed pre-comma part; later tokens are dropped |
| Utils.SingleTokenIsZip | utils.js:10-11 | a pre-comma part with one token gives that token as `zip` and no `city` |
| Utils.ParseFormatRoundTrip | utils.js:2-14 | printing a well-formed address as `street\|zip city, district` and parsing it gives the address back |
| Utils.ParseAddressExample | utils.js:6-13 | `"Hauptstr. 12\|12345 Musterstadt, Bayern"` gives street `Hauptstr. 12`, zip `12345`, city `Musterstadt`, district `Bayern` |
| Utils.MultiWordCityIsTruncated | utils.js:11 | `"Am Markt 1\|61348 Bad Homburg, Hessen"` gives city `Bad`: a multi-word city keeps its first word only |
| Utils.CleanContact | utils.js:20 | the cleaned contact text is no longer than the input and has no upper-case letter, no whitespace and none of `- / : . ( )` |
| Utils.CleanContactIsOnePass | utils.js:20 | the seven chained replacements after lower-casing are one filter that drops every punctuation character |
| Utils.CleanContactConcat | utils.js:20 | cleaning distributes over concatenation |
| Utils.CleanContactIdempotent | utils.js:20 | cleaning twice is cleaning once |
| Utils.ParseContactNumber | utils.js:16-28 | `null` exactly for absent or empty text; otherwise `type + number` is the cleaned text and `type` has `min(3, length)` characters |
| Utils.ParseContactNumberExample | utils.js:20-27 | `"Tel: 030-1234567"` gives type `tel` and number `0301234567` |
| Utils.ResolvePlaceholder | utils.js:30-38 | the loop replaces every `{{key}}` with its value, key after key in the given order, as `ResolveAll` defines |
| Utils.ResolveAll | utils.js:32-37 | a template that has no `{{key}}` for any supplied key comes back unchanged |
| Utils.ReplacementCanLeavePlaceholder | utils.js:34 | a global replace can create a new `{{ab}}` from surrounding braces (`{{{{ab}}}}` becomes `{{ab}}`), even though the value has none |
| Utils.ResolveRendered | utils.js:32-35 | on a brace-free template with brace-free keys and values, resolving is filling the named slots with their values |
| Utils.ResolvedTemplateIsComplete | utils.js:32-37 | after resolving such a template, no `{{key}}` of a supplied key remains |
| Utils.Fill | utils.js:34 | filling a slot replaces exactly the pieces naming that key, and nothing else |
| Utils.AbsentUnchanged | utils.js:34 | a global replace of a pattern that does not occur leaves the text unchanged |
| Utils.OneSlot | utils.js:32-35 | a brace-free template `<a>{{k}}` resolves to `<a>` followed by the value of `k` |
| Utils.TwoSlots | utils.js:32-35 | a brace-free template `<a>{{k1}}<b>{{k2}}` with two distinct keys resolves to `<a><v1><b><v2>` |
| Text.TrimStart | utils.js:8 | the leading whitespace removed by `trim`: what is left is a suffix starting with non-whitespace, and all that was cut is whitespace |
| Text.TrimEnd | utils.js:8 | the trailing whitespace removed by `trim`, symmetrically |
| Text.Trim | utils.js:8 | the trimmed text is no longer than the input and has no whitespace at either end |
| Text.TrimBlank | utils.js:8 | `trim` gives the empty string exactly when every character is whitespace |
| Text.TrimAvoids | utils.js:9 | `trim` adds no character: a character absent from the input is absent from the result |
| Text.TrimAfterWhitespace | utils.js:9 | whitespace in front of a trimmed text is all that `trim` removes |
| Text.Split | utils.js:6 | `split` on one character gives at least one piece, none of which contains the separator |
| Text.Join | index.js:129 | a join begins with the first piece, followed by the separator when more pieces follow |
| Text.JoinHasPiece | index.js:129 | each piece appears in the join at its position: a character absent from the join is absent from every piece |
| Text.SplitAvoids | utils.js:6 | a character absent from the text is absent from every piece of its split |
| Text.JoinSplit | utils.js:6 | joining the pieces of a split with the separator gives the text back |
| Text.SplitJoin | index.js:129 | splitting a join of separator-free pieces gives the pieces back |
| Text.SplitWithout | utils.js:6 | a text without the separator is a single piece |
| Text.JoinAvoids | index.js:129 | a join of pieces without a character (not the separator) has none either |
| Text.ToLower | utils.js:20 | lower-casing a character gives no upper-case letter and leaves every other character alone |
| Text.LowerCase | utils.js:20 | `toLowerCase` keeps the length, leaves no upper-case letter and leaves every character that is not upper-case where it was |
| Text.LowerCaseConcat | utils.js:20 | lower-casing distributes over concatenation |
| Text.Drop | utils.js:20 | a global replace with `''` keeps no unwanted character and never lengthens the text |
| Text.DecimalRoundTrip | index.js:110 | `String(n)` of an offset reads back as `n` |
| Store.ResultStore.Open | index.js:22 | opening the database gives whatever an earlier run saved |
| Store.ResultStore.Reset | index.js:22-24 | start-up sets the count to 0 and the results to empty, which satisfies the store invariant |
| Store.ResultStore.ResultCount | index.js:55-58 | the stored count is the number of stored ids |
| Store.ResultStore.StoreResult | index.js:60-64 | upsert by id with all other ids unchanged; the count becomes the number of distinct ids, growing by one only for a new id |
| Store.ResultStore.GetResults | index.js:66-69 | every stored listing exactly once: the ids are the keys, no id twice, each entry is the one stored under its id |
| Store.ResultStore.GetResult | index.js:71-74 | the listing under `id`, or the missing-path error as `None` |
| Store.ResultStore.UpdateResult | index.js:76-79 | overwrites the listing under `id` and leaves the count as it was |
| Store.DistinctIdsCount | index.js:63 | a list with distinct ids has as many ids as entries, so `getResults().length` is the number of keys |
| Store.Listings | index.js:66-69 | the values of a map filed by id: each stored listing once, under its own id, none twice |
| Store.LastFor | index.js:60-64 | the position of the last record with a given id, or -1: no later record has that id |
| Store.StoreAll | index.js:60-64 | a run of `storeResult` calls loses no stored id and leaves the last record filed under its own id |
| Store.StoreAllLookup | index.js:60-64 | a run of `storeResult` calls upserts by id: a key is present exactly when it was before or a record has it as id, the last such record wins, other entries are untouched |
| Store.StoreAllKeys | index.js:62-63 | the keys after storing are the old keys plus the records' ids, so records sharing an id are counted once |
| Store.StoreAllIdempotent | index.js:60-64 | storing the same records a second time changes nothing |
| Store.StoreAllConcat | index.js:60-64 | storing one list of records and then another is storing their concatenation |
| Store.StoreAllKeysAreIds | index.js:60-62 | every record stays filed under its own id |
| Crawler.ParseInt | index.js:93 | `parseInt` is `NaN` exactly when no digit follows the leading whitespace and an optional sign, and is negative only after a `-` |
| Crawler.DigitPrefix | index.js:93 | the digit run `parseInt` reads: a prefix of digits followed by a non-digit or the end |
| Crawler.ParseIntDigits | index.js:93 | digits at the front of the text are read as a decimal number |
| Crawler.ParseIntDecimal | index.js:93 | a printed count followed by a non-digit reads back as that count |
| Crawler.NoDigitsIsNaN | index.js:93 | a text with no digit reads as `NaN`, so the page loop does not run |
| Crawler.GroupedCountReadsFirstGroup | index.js:93 | a count with a German thousands separator (`1.234 Treffer`) reads as `1` |
| Crawler.RequestDelay | index.js:103 | the wait lies between `minRequestDelay` and `maxRequestDelay` inclusive whenever min does not exceed max |
| Crawler.StrideAsWritten | index.js:165 | the step as written advances exactly when the top-level `resultsPerPage` is absent or positive; absent, it makes the next offset `NaN` |
| Crawler.IntendedStride | index.js:165 | the provider's page size is a finite step, and advances exactly when it is positive |
| Crawler.Offsets | index.js:85-166 | every visited offset is within the probed count and the limit, the first is the start, and a `NaN` step visits at most one |
| Crawler.StridedOffsets | index.js:85-166 | with a positive step the loop visits `from, from + step, ...`, each within the probed count and the limit, and stops at the first offset past either |
| Crawler.IntendedStrideVisitsAllPages | index.js:85-166 | with the provider's page size as the step, the offsets are `1, 1 + size, ...` up to `min(count, maxResults)` |
| Crawler.AsWrittenVisitsOnePage | index.js:165 | as written the step is `NaN`: the loop visits offset 1 at most, and does so exactly when 1 is within both bounds |
| Crawler.SourceStridesAgree | index.js:34-38 | with the shipped limit and page size of 25, the as-written and intended steps visit the same offsets |
| Crawler.AsWrittenSkipsPages | index.js:165 | with a limit of 100 and 100 results found, the code as written visits `[1]` where the page size means `[1, 26, 51, 76]` |
| Crawler.ShippedRunWithFortyResults | index.js:38-100 | the shipped configuration with 40 results found visits offset 1 only, under either step |
| Discovery.NonEmptyLines | index.js:129 | `filter((line) => line !== '')` keeps exactly the non-empty lines |
| Discovery.NonEmptyLinesConcat | index.js:129 | the filter of a concatenation is the concatenation of the filters, so kept lines keep their order and number |
| Discovery.NonEmptyLinesOne | index.js:129 | a single line is kept exactly when it is not empty |
| Discovery.AddressText | index.js:129 | the text handed to `parseAddress` has no line break left, and is empty exactly when every line of the address is |
| Discovery.AddressTextLines | index.js:129 | when the address has no `\|` of its own, `parseAddress` sees exactly its non-empty lines, and returns `null` exactly when there are none |
| Discovery.ParseNumbers | index.js:132-137 | one parsed contact number per contact block, in document order |
| Discovery.ListingOf | index.js:145-156 | the record for a block is filed under its link hash, pending, with website and email `null`, provider `dasoertliche`, one number per contact block, and an address exactly when the address has a non-empty line |
| Discovery.ParseBlock | index.js:119-156 | the record built for a block is the pending record `ListingOf` defines: website and email `null`, provider `dasoertliche` |
| Discovery.Records | index.js:119-156 | one record per block, in block order |
| Discovery.RecordAt | index.js:119-156 | the record at position `i` is the pending record `ListingOf` builds from block `i` |
| Discovery.RecordsConcat | index.js:117-160 | the records of two runs of blocks are the records of their concatenation |
| Discovery.RecordIds | index.js:145-146 | the ids of the records are the link hashes of the blocks |
| Discovery.DiscoveredKeys | index.js:145-156 | storing the blocks' records adds exactly the blocks' link hashes as keys |
| Discovery.ProbeUrl | index.js:90 | the probe URL; a template without `{{search}}` is used as it stands |
| Discovery.ProbeUrlOf | index.js:90 | a probe template `<a>{{search}}` gives `<a>` followed by the search term |
| Discovery.NumberText | index.js:110 | `String(n)` has no brace in it |
| Discovery.NumberTextInjective | index.js:110 | distinct numbers print differently |
| Discovery.PageUrl | index.js:110 | the page URL; a template without either placeholder is used as it stands |
| Discovery.PageUrlOf | index.js:110 | a page template `<a>{{search}}<b>{{resultsFrom}}` gives `<a>`, the search term, `<b>` and the offset in decimal |
| Discovery.DistinctPageUrls | index.js:110 | with such a template, distinct offsets give distinct page URLs |
| Discovery.StoredOneMore | index.js:117-160 | one more pass of the block loop extends the stored prefix of blocks by one |
| Discovery.PageStored | index.js:110-160 | storing one more page's blocks extends the stored pages by that page |
| Discovery.RediscoveryResets | index.js:145-156 | a rediscovered listing is written afresh: pending, website and email `null`, provider `dasoertliche`, under its own id |
| Discovery.StoreBlocks | index.js:117-160 | the block loop keeps the store invariant and leaves the store as storing the page's blocks in order |
| Discovery.CrawlPage | index.js:110-160 | one loop pass stores the blocks of the page at the URL built from the offset |
| Discovery.PageLoop | index.js:99-166 | the `while` loop visits exactly the offsets `Offsets` gives and stores the blocks of those pages, in order |
| Discovery.Discover | index.js:83-169 | the discovery pass probes the count at the probe URL, then behaves as the page loop for that count |
| Details.Enriched | index.js:211-216 | enriching marks the listing crawled and sets website and email, the visible link or else the empty string, and changes no other field |
| Details.EnrichAll | index.js:181-216 | keys unchanged and nothing left pending. Pending listings get website and email filled in, with no other field changed. Crawled listings are untouched |
| Details.Pending | index.js:181 | the filter keeps exactly the pending entries, and keeps ids distinct |
| Details.NothingPendingNoChange | index.js:181-183 | with nothing pending the pass changes nothing |
| Details.EnrichAllIdempotent | index.js:181-216 | a second pass changes nothing |
| Details.EnrichAllKeepsCount | index.js:76-79 | the pass never adds or removes a listing, so the stored count stays right |
| Details.PendingFacts | index.js:178-181 | the filtered list holds each pending listing exactly once, as stored |
| Details.PartlyEnrichedValid | index.js:211-216 | enriching part of the store keeps its keys, its size and every listing under its own id |
| Details.EnrichStep | index.js:211-216 | writing back the next enriched listing extends the enriched set by its id |
| Details.VisitAll | index.js:183-219 | the `for` loop enriches exactly the pending listings and leaves the count alone |
| Details.Enrich | index.js:173-220 | the enrichment pass leaves the store as `EnrichAll` says, keeps the store invariant, and opens each pending listing's page exactly once |
| Program.Run | index.js:11-51 | after start-up and both passes the store is `EnrichAll` of the listings discovered from an empty store. The count is the number of distinct link hashes. At most one page is visited, the same one the code as written visits |
| Program.RunOutcome | index.js:145-216 | after a run every listing came from a block read in the run, is filed under its own id, is crawled, and has website and email set |

## Left out

- Browser automation is not modelled: launching, locators, `innerText`, `isVisible` and navigation. Their results are the inputs `probe`, `fetchPage` and `detailAt`.
- The `page.goto` at index.js:110 is not awaited. The model assumes the result page has loaded before its blocks are read.
- An element that does not exist makes the browser calls throw. The model does not capture this: every block it is given is complete.
- The JSON database's file persistence and path syntax are not modelled. The store is an in-memory map plus a count.
- The MD5 digest is the parameter `idOf`. Nothing is assumed about collisions.
- `waitForTimeout` is not modelled. `RequestDelay` computes the wait from the value `Math.random()` returned.
- `chalk` logging and `resultBatchCount` are not modelled. The counter only feeds a log line.
- `db-cli.js` is not part of this model. It is an interactive prompt that prints a stored record.
- `resolvePlaceholder` builds a regular expression from the key. The model treats replacement as literal text: no `$` patterns in values, no metacharacters in keys.
- `parseInt` is modelled for decimal text only. The `0x` hexadecimal prefix and precision beyond 2^53 are left out, because the count element shows a decimal count.
- JavaScript numbers are integers or `NaN`. Offsets and counts never take fractional values here.
- `toLowerCase` covers ASCII and the Latin-1 capitals only. `substring` counts code points rather than UTF-16 units.
- The configuration's provider table holds a single provider, `dasoertliche`, which is the only one the code reads.
- Store.ResultStore.GetResults: the order of `Object.values` is left open. The enrichment pass does not depend on it.
- Utils.ResolvedTemplateIsComplete: "no placeholder remains" is proved only for brace-free templates, keys and values. With braces around a placeholder it fails, as Utils.ReplacementCanLeavePlaceholder shows.
- Program.Run uses the provider's page size as the page step. For the shipped configuration this visits the same offsets as the code as written, as Crawler.SourceStridesAgree shows.

## Findings

| source | as written | input that shows it | evidently intended | confidence | as-written member | corrected member |
|---|---|---|---|---|---|---|
| index.js:165 | `resultsFrom += config.resultsPerPage` reads a property the configuration object does not have (it is under `provider.dasoertliche`). The offset becomes `NaN` after the first page, so the loop ends | `maxResults` 100 and a probed count of 100: offsets `[1]` | step by `config.provider.dasoertliche.resultsPerPage` (25): offsets `[1, 26, 51, 76]` | not executed; high (latent with the shipped limit of 25) | Crawler.AsWrittenSkipsPages | Crawler.IntendedStrideVisitsAllPages |
