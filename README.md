# Web page change monitor — verified model of the change-detection core

This project is a Dafny model of the server side of a small web-page change
monitor (a Next.js app) and of two display rules of its dashboard. It covers:

- **Diff engine.** Counts the added and removed lines of a unified diff and derives `hasChanges` from them. Also builds the short preview snippet of the changed lines.
- **Fetcher.** The SSRF guard on URLs: blocked protocols, http(s) only, and a textual blocklist of private hostnames. Also the HTML content-type gate, the two whitespace normalisations of the extracted text, and the title fallback.
- **Summariser.** Truncates the diff's head and tail to the prompt budget. Checks the API key before any call. Runs at most three attempts with exponential backoff, and gives up with a fixed unavailability text.
- **`POST /api/check`.**
  - It classifies each run of a check as baseline, change or no change, and turns a failed fetch into an error record.
  - It prunes a link's history to the five newest checks after a success.
  - It checks a single link, or in bulk every link, one after the other, in the table's insertion order.
- **`/api/links`.** `POST` runs four guards in a fixed order (URL given, URL valid, not a duplicate, fewer than eight links) and then inserts the trimmed link. `GET` lists the links newest first, each with its latest check.
- **Link card and diff viewer.** The status badge, the relative "time ago" text, and the per-line classes of the diff viewer. The viewer's add and remove rows agree with the diff engine's counts.

The database is kept in memory (`Store`). Two tables are sequences in insertion order, and a clock stamps every written row, so `createdAt` and `checkedAt` increase along their tables. The `Db` class holds the tables, and its methods are the database operations the routes use. The route handlers are module-level methods that take the `Db` and call those operations. Each handler is proved equal to a reference function of the old tables, and the properties are lemmas about those functions.

Everything outside the core is passed in (`CheckRoute.World`). The WHATWG URL parser, the network answer together with what JSDOM and Readability made of the page, SHA-256, the `createPatch` diff library and the language model's replies are values of function types. The API key is a plain optional string.

Modules, one per source file plus shared ones:
- `Wrappers`: Option, and Result for thrown errors.
- `Strings`: the JavaScript string operations relied on.
- `Http`: the JSON envelope and its status code.
- `Store`: the in-memory database.
- One module for each core file: `Differ`, `Fetcher`, `Summarize`, `CheckRoute`, `LinksRoute`, `LinkCard`, `DiffViewer`.

## Model

| member | source | states |
|---|---|---|
| Differ.ComputeHash | src/lib/differ.ts:21-23 | reference definition: the digest is the hex SHA-256 of the text, SHA-256 taken as an uninterpreted function |
| Differ.HashDeterministic | src/lib/differ.ts:21-23 | equal texts have equal digests; the digest is an uninterpreted function of the text |
| Differ.ComputeDiff | src/lib/differ.ts:31-51 | the counting loop yields `added` = the count of `+` lines that are not `+++`, `removed` likewise for `-`/`---`, and `hasChanges` iff either is positive |
| Differ.CountAddedIsNumberOfAddedLines | src/lib/differ.ts:38-46 | `added` is the number of line indices whose line starts with `+` but not `+++` |
| Differ.CountRemovedIsNumberOfRemovedLines | src/lib/differ.ts:38-46 | `removed` is the number of line indices whose line starts with `-` but not `---` |
| Differ.ChangedLines | src/lib/differ.ts:58-66 | the collected lines are exactly the changed lines of the diff, and there are `added + removed` of them |
| Differ.Snippet | src/lib/differ.ts:57-73 | below `maxLength` the preview is the space-joined changed lines; otherwise it is their first `maxLength` characters plus "..." (also on an exact fit); never longer than `maxLength + 3`, never holding a newline |
| Differ.EarlyStopKeepsPreview | src/lib/differ.ts:68 | once the join of a prefix passes `maxLength`, the remaining lines cannot change its first `maxLength` characters, so the early `break` is harmless |
| Differ.ExtractSnippet | src/lib/differ.ts:57-73 | the loop with its early `break` returns exactly `Snippet(diff, maxLength)` |
| Fetcher.MatchesAnyIff | src/lib/fetcher.ts:57-61 | the loop over the patterns finds a match iff some pattern matches |
| Fetcher.IsPrivateHostname | src/lib/fetcher.ts:15-26 | reference definition: the loop over `PRIVATE_IP_PATTERNS` in their order, stopping at the first match |
| Fetcher.PrivateHostnameIff | src/lib/fetcher.ts:15-26 | the blocklist is the ten anchored tests: prefixes 127., 10., 192.168., 172.16–31., 0., 169.254., case-insensitive prefixes fc00: and fe80:, exact ::1, case-insensitive exact localhost |
| Fetcher.ValidateUrl | src/lib/fetcher.ts:39-64 | unparsable gives "Invalid URL format"; a blocked protocol gives `Protocol "<p>" is not allowed` before the http(s) test; other protocols give "Only HTTP and HTTPS URLs are supported"; a private hostname gives "URL not allowed (private network)"; otherwise the parsed URL is returned unchanged, and exactly then |
| Fetcher.ValidatedUrlIsPublic | src/lib/fetcher.ts:47-63 | an accepted URL is http: or https: and its hostname has none of the ten private shapes |
| Fetcher.LookalikeNameRefused | src/lib/fetcher.ts:57-61 | the test is textual: `10.example.com` is refused |
| Fetcher.BracketedHostnamePasses | src/lib/fetcher.ts:24 | an http(s) URL whose hostname is bracketed, as the URL parser writes `[::1]`, passes the guard |
| Fetcher.IsHtmlContentType | src/lib/fetcher.ts:97-100 | a page is accepted iff its content type contains `text/html` or `application/xhtml`; a missing header counts as "" and is refused |
| Fetcher.CollapseWhitespace | src/lib/fetcher.ts:114 | `/\s+/g → " "` keeps the words of the text (its maximal runs of non-whitespace characters) and leaves only plain spaces, never two in a row, so each run between two words becomes exactly one space |
| Fetcher.CollapseLongRuns | src/lib/fetcher.ts:120 | `/\s\s+/g → " "` keeps the words of the text and leaves no two whitespace characters in a row, so each gap between two words keeps exactly one whitespace character; which one is stated by LongRunsKeepLone and LongRunsCollapseRun |
| Fetcher.LongRunsAppend | src/lib/fetcher.ts:120 | no run crosses a visible character: the collapse of `a + b`, with `a` ending visibly, is the collapse of `a` followed by that of `b` |
| Fetcher.LongRunsKeepLone | src/lib/fetcher.ts:120 | a lone whitespace character between visible ones is kept as it is, in any text |
| Fetcher.LongRunsCollapseRun | src/lib/fetcher.ts:120 | a run of two or more whitespace characters between visible ones becomes one plain space, in any text |
| Fetcher.LongRunsLast | src/lib/fetcher.ts:120 | a text ending in a visible character collapses to one ending in the same character |
| Fetcher.VisibleTrim | src/lib/fetcher.ts:114 | trimming removes whitespace only: the non-whitespace characters are kept in order |
| Fetcher.VisibleCollapseWhitespace | src/lib/fetcher.ts:114 | collapsing runs keeps the non-whitespace characters in order |
| Fetcher.VisibleCollapseLongRuns | src/lib/fetcher.ts:120 | collapsing long runs keeps the non-whitespace characters in order |
| Fetcher.TrimKeepsSpacing | src/lib/fetcher.ts:114 | trimming keeps "no double whitespace" and "only plain spaces" |
| Fetcher.NormalizeFallback | src/lib/fetcher.ts:114 | the body-text result is exactly the words of its input joined by single spaces; so it has no edge whitespace, no double whitespace, only plain spaces, and the same visible characters |
| Fetcher.JoinWordsOfNormal | src/lib/fetcher.ts:114 | a text with no edge whitespace and single plain spaces is its own words joined by spaces |
| Fetcher.FallbackReflowInvariant | src/lib/fetcher.ts:114 | two texts with the same words normalise to the same body text, so a whitespace reflow is not a change |
| Fetcher.NormalizeArticle | src/lib/fetcher.ts:120 | the article result has the words of its input, no edge whitespace and no double whitespace, so each two words are separated by exactly one whitespace character; its visible characters are those of the input; ArticleKeepsLone and ArticleCollapsesRun say which character |
| Fetcher.ArticleOfVisibleEdges | src/lib/fetcher.ts:120 | for text with visible edges the trim after the collapse removes nothing |
| Fetcher.ArticleKeepsLone | src/lib/fetcher.ts:120 | the article path keeps a lone whitespace character (a newline, a tab) between two visible ones and normalises each side on its own |
| Fetcher.ArticleCollapsesRun | src/lib/fetcher.ts:120 | the article path turns a run of two or more whitespace characters between two visible ones into one plain space and normalises each side on its own |
| Fetcher.ArticleDoubleSpace | src/lib/fetcher.ts:120 | a double space between two visible characters shrinks to one |
| Fetcher.ArticleMixedText | src/lib/fetcher.ts:120 | in mixed text such as `a\nb  c` the lone newline stays and the double space shrinks: `a\nb c` |
| Fetcher.WordsTrim | src/lib/fetcher.ts:114 | `trim` keeps the words of a text |
| Fetcher.CollapseWhitespaceFixpoint | src/lib/fetcher.ts:114 | text with single plain spaces only is left unchanged by `/\s+/g → " "` |
| Fetcher.CollapseLongRunsFixpoint | src/lib/fetcher.ts:120 | text without double whitespace is left unchanged by `/\s\s+/g → " "` |
| Fetcher.NormalizeFallbackIdempotent | src/lib/fetcher.ts:114 | normalising body text twice equals normalising it once |
| Fetcher.NormalizeArticleKeepsLoneWhitespace | src/lib/fetcher.ts:120 | article text without runs or edge whitespace is kept as is, whatever its whitespace characters |
| Fetcher.ArticleKeepsLoneNewline | src/lib/fetcher.ts:120 | a lone newline between visible characters survives the article path |
| Fetcher.FallbackReplacesLoneNewline | src/lib/fetcher.ts:114 | the same lone newline becomes a plain space on the body-text path |
| Fetcher.ExtractPage | src/lib/fetcher.ts:97-122 | a non-HTML type is refused; otherwise the page succeeds exactly when the article text or the trimmed body text is non-blank, and "Could not extract readable text from this page" is the error otherwise; with article text the result is `/\s\s+/g → " "` then trim of it, titled article title, else document title, else hostname; without, it is `/\s+/g → " "` then trim of the trimmed body text, titled document title, else hostname; an accepted text is non-empty, without edge or double whitespace, and keeps the visible characters |
| Fetcher.TitleFallback | src/lib/fetcher.ts:115-121 | the title is the article title, else the document title, else the hostname |
| Fetcher.FetchPageText | src/lib/fetcher.ts:77-123 | a rejected URL fails with the validator's message; for a validated URL a network failure fails with its own message and a page gives exactly its extraction; a success only ever comes from a validated URL and a fetched page |
| Summarize.GetClient | src/lib/summarize.ts:33-39 | the client exists iff the key is non-empty; otherwise the error names OPENROUTER_API_KEY |
| Summarize.TruncateDiff | src/lib/summarize.ts:55-63 | a diff of at most 24000 characters is kept; a longer one is its first 12000 characters, the marker, and its last 12000 characters, of length 24000 plus the marker's |
| Summarize.MarkerReportsOmitted | src/lib/summarize.ts:62 | the marker holds, between its fixed head and tail, a decimal number that reads back as the omitted count |
| Summarize.AttemptError | src/lib/summarize.ts:98-110 | an attempt succeeds iff it returned non-empty content; missing or empty content is the error "LLM returned empty response"; a thrown error keeps its own message |
| Summarize.RetriedIff | src/lib/summarize.ts:98-121 | the loop retries exactly an empty completion and a thrown error whose message does not mention OPENROUTER_API_KEY |
| Summarize.RetryFrom | src/lib/summarize.ts:81-123 | the loop from attempt k makes between k and 3 calls and sleeps once per call after the first |
| Summarize.RetryFromEnds | src/lib/summarize.ts:81-123 | the loop from attempt k stops between k and 3, only after retried failures, and sleeps the backoff delays of the failures it retried |
| Summarize.Delays | src/lib/summarize.ts:119-121 | the sleeps after attempts k .. n-1 are 1000·2^(k-1) ms each, in order |
| Summarize.Summarize | src/lib/summarize.ts:74-126 | no key means an error and no call; otherwise at most three calls, with one delay between each two of them |
| Summarize.SummarizeContract | src/lib/summarize.ts:74-126 | no key gives an error before any call; otherwise 1 to 3 calls, every call before the last a retried failure, delays 1000·2^(k-1) for every retried attempt k, and the last call decides the outcome |
| Summarize.OnlyConfigErrorsEscape | src/lib/summarize.ts:108-116 | the only errors that escape mention OPENROUTER_API_KEY |
| Summarize.ConfigErrorNotRetried | src/lib/summarize.ts:109-111 | a key error on attempt k is rethrown at once: k calls and no further sleep |
| Summarize.TwoFailuresThenSuccess | src/lib/summarize.ts:119-121 | two retried failures then a completion sleep exactly [1000, 2000] and return the trimmed content |
| Summarize.ExhaustedRetries | src/lib/summarize.ts:113-116 | three retried failures return the unavailability text, not an error, after sleeping [1000, 2000] |
| Summarize.SummarizeChanges | src/lib/summarize.ts:74-126 | the loop returns the outcome, call count and delays of `Summarize` on the prompt built from the truncated diff |
| CheckRoute.Classification | src/app/api/check/route.ts:60-81 | after a successful fetch: a change iff a previous check exists with another digest and non-empty text, with the diff, its snippet and a summary; with no previous check the baseline summary and no diff; otherwise no summary, diff or snippet |
| CheckRoute.SameTextNoChange | src/app/api/check/route.ts:65 | the same text again (same digest) reports no change and stores no diff, summary or snippet |
| CheckRoute.CheckAfterErrorReportsNothing | src/app/api/check/route.ts:65-81 | a check whose latest record is an error record (no text) reports no change and no baseline |
| CheckRoute.ThrowingSummarizerStillStoresChange | src/app/api/check/route.ts:73-77 | when the summariser throws (no API key, or a reply whose error mentions OPENROUTER_API_KEY), a detected change is still stored without error, with the unavailability text as its summary |
| CheckRoute.FetchFailureStoresErrorRecord | src/app/api/check/route.ts:126-151 | a failed fetch appends exactly one record (digest "", no change, the message) and answers with that error and no summary or diff |
| CheckRoute.ErrorRecordNotPruned | src/app/api/check/route.ts:126-142 | an error record is appended without pruning |
| CheckRoute.SuccessKeepsFiveNewest | src/app/api/check/route.ts:102-116 | after a success the link keeps exactly its five newest checks, the new one last; every other link's checks are untouched |
| CheckRoute.StoreRecordContract | src/app/api/check/route.ts:84-116 | storing a check keeps the tables valid and the link ids, and stamps `lastChecked` of the checked link only |
| CheckRoute.CheckStep | src/app/api/check/route.ts:43-153 | `runCheck` fails exactly for an id with no link, with "Link not found" and no write; otherwise it answers for that link, stamped now |
| CheckRoute.NewRecordOnError | src/app/api/check/route.ts:126-141 | a failed fetch makes the record with digest "", no text, no change and the fetch message as its error, stamped now |
| CheckRoute.NewRecordOnPage | src/app/api/check/route.ts:51-94 | a fetched text makes the record holding the text, its digest and the assessment against the latest check, with no error |
| CheckRoute.CheckStepContract | src/app/api/check/route.ts:43-153 | a check keeps the tables valid and the link ids; a check of a known link answers Ok for that link, stamped now, and stamps only that link |
| CheckRoute.CheckStepAnswersStoredRecord | src/app/api/check/route.ts:84-151 | a check of a known link answers with exactly the record it stored, and that record is now the link's newest check, pruned or not |
| CheckRoute.AssessChange | src/app/api/check/route.ts:60-81 | the reassignments of `hasChanges`, `diff`, `snippet` and `summary` give exactly the assessment of the reference definition |
| CheckRoute.StoreErrorRecord | src/app/api/check/route.ts:126-142 | the catch block stores the error record stamped now and stamps the link |
| CheckRoute.StoreSnapshot | src/app/api/check/route.ts:84-116 | the success path stores the record, stamps the link and prunes the link's history |
| CheckRoute.RunCheck | src/app/api/check/route.ts:43-153 | `runCheck` on the store equals the reference step on the old tables, and keeps the tables valid |
| CheckRoute.CheckEachCovers | src/app/api/check/route.ts:177-180 | a step that succeeds on every known link, run over known ids, answers once per id, in order, without error |
| CheckRoute.CheckAllCoversEveryLink | src/app/api/check/route.ts:174-180 | bulk checking over the table's own ids never fails and yields one result per id, in order |
| CheckRoute.CheckEvery | src/app/api/check/route.ts:174-180 | the bulk loop equals the reference fold over the link ids, stopping at the first error |
| CheckRoute.BulkChecksEveryLinkInOrder | src/app/api/check/route.ts:173-182 | without a `linkId` the answer is a 200 with one result per link, in table order |
| CheckRoute.UnknownSingleLinkIsServerError | src/app/api/check/route.ts:167-170 | an unknown `linkId` is a 500 with "Link not found", and nothing changes |
| CheckRoute.PostSpec | src/app/api/check/route.ts:162-191 | a thrown error is a 500; otherwise a 200 holding one result for the given `linkId`, or the list when none is given |
| CheckRoute.Post | src/app/api/check/route.ts:162-191 | the handler equals its reference definition: single or bulk, and a thrown error becomes a 500 |
| LinksRoute.NullIfEmpty | src/app/api/links/route.ts:109-110 | `s?.trim() \|\| null`: the trimmed text, or null exactly when it is absent or all whitespace |
| LinksRoute.AddLink | src/app/api/links/route.ts:60-114 | every refusal leaves both tables unchanged; a success appends exactly the answered link and leaves the checks alone |
| LinksRoute.AddGuardsInOrder | src/app/api/links/route.ts:60-104 | missing URL is 400 "URL is required"; then the validator's message with 400; then a duplicate trimmed URL is 409; then eight links is 400; success iff all four pass |
| LinksRoute.SuccessfulAddStoresTrimmed | src/app/api/links/route.ts:106-114 | a success adds exactly one link, last, with the trimmed URL, trimmed-or-null label and tags, a fresh id and no check, and answers 201 with it |
| LinksRoute.AddKeepsTableBounded | src/app/api/links/route.ts:94-104 | from a valid table of at most eight links the table stays valid, its URLs and ids distinct, and its size at most eight |
| LinksRoute.SecondAddIsDuplicate | src/app/api/links/route.ts:84-92 | adding the same trimmed URL again is refused with 409 |
| LinksRoute.Post | src/app/api/links/route.ts:60-123 | the handler equals its reference definition on the old tables and keeps them valid |
| LinksRoute.Listing | src/app/api/links/route.ts:14-43 | one entry per link, in reverse table order, each with its latest check |
| LinksRoute.ListingNewestFirst | src/app/api/links/route.ts:15 | the entries are in strictly descending `createdAt` |
| LinksRoute.ListingHasEveryLink | src/app/api/links/route.ts:14-24 | every link of the table has its entry |
| LinksRoute.ListingShowsNewestCheck | src/app/api/links/route.ts:17-41 | `latestCheck` is null exactly when the link has no check, and otherwise a check of that link that no other of its checks postdates |
| Store.LatestCheckIsNewest | src/app/api/check/route.ts:55-58 | the latest check is the link's check with the greatest `checkedAt`, none exactly when it has no checks |
| Store.PruneContract | src/app/api/check/route.ts:103-116 | pruning keeps the link's five newest checks (all when there are at most five), leaves every other link's checks and keeps the table in time order |
| Store.DropOldestOwn | src/app/api/check/route.ts:110-115 | deleting the k oldest checks of a link leaves exactly its later checks, in order |
| Store.DropOldestOthers | src/app/api/check/route.ts:110-115 | the deletion is scoped to the link: other links keep their checks |
| Store.TouchContract | src/app/api/check/route.ts:97-100 | stamping `lastChecked` keeps the links valid and their ids in order |
| Store.IdOfInjective | src/app/api/links/route.ts:106-112 | links created at different times have different ids |
| Store.DistinctIds | src/app/api/links/route.ts:106-112 | the links of a valid table have pairwise distinct ids, as the primary key requires |
| Store.FindBy | src/app/api/links/route.ts:84-86 | `findUnique` on a unique column: a found link is in the table with that key; none is found exactly when no link has it |
| Store.FindLink | src/app/api/check/route.ts:44 | a found link is in the table with that id; none is found exactly when no link has it |
| Store.FindByUrl | src/app/api/links/route.ts:84-86 | a found link is in the table with that URL; none is found exactly when no link has it |
| Store.Db.constructor | src/lib/db.ts:22-26 | a fresh client over an empty database: no links, no checks, clock zero |
| Store.Db.CreateCheck | src/app/api/check/route.ts:84-94 | appends the row stamped now and advances the clock |
| Store.Db.CreateLink | src/app/api/links/route.ts:106-112 | appends the link stamped and identified by the current time, and keeps the tables valid |
| Store.Db.SetLastChecked | src/app/api/check/route.ts:97-100 | sets `lastChecked` of the link with that id, and only that link |
| Store.Db.PruneChecks | src/app/api/check/route.ts:103-116 | the `findMany`/`deleteMany` pair leaves exactly the pruned table |
| Strings.Split | src/lib/differ.ts:38 | `split("\n")` gives at least one piece, none holding the separator, and joining them gives back the text |
| Strings.SplitJoin | src/components/DiffViewer.tsx:18 | splitting undoes joining of separator-free pieces |
| Strings.TrimIsMiddle | src/app/api/links/route.ts:74 | `trim` removes whitespace from both ends and nothing else |
| Strings.TrimEmptyIffAllSpace | src/app/api/links/route.ts:109-110 | trimming leaves nothing exactly when the text is all whitespace |
| Strings.Contains | src/lib/fetcher.ts:98 | `includes` holds iff the text occurs at some index |
| Strings.DecimalRoundTrip | src/components/LinkCard.tsx:38-40 | the printed decimal of a number reads back as that number |
| LinkCard.StatusBadge | src/components/LinkCard.tsx:46-53 | "Never Checked" iff no check; "Error" iff a non-empty error, even with a change; "Changed" iff no error and a change; "No Changes" otherwise |
| LinkCard.BadgeAfterCheck | src/components/LinkCard.tsx:49-51 | after a check stores a record, the card shows that record: "Error" for a failed fetch with a message, "Changed" for a change |
| LinkCard.ElapsedSeconds | src/components/LinkCard.tsx:35 | the elapsed seconds are the millisecond difference divided by 1000, rounded down |
| LinkCard.AgoOf | src/components/LinkCard.tsx:37-40 | under 60 s (or negative) is "just now"; else minutes under 3600 s, hours under 86400 s, days beyond, counted down to a whole number n ≥ 1 with n units passed and n + 1 not |
| LinkCard.TextInjective | src/components/LinkCard.tsx:37-40 | different readings print differently |
| LinkCard.TimeAgo | src/components/LinkCard.tsx:32-41 | the text is "just now" exactly when less than a minute has passed or the date is in the future; any other text is the `AgoOf` reading printed by `Text`, so it starts with a digit |
| DiffViewer.Classify | src/components/DiffViewer.tsx:50-57 | header iff the line starts with `@@`; add iff an added line of the diff engine; remove iff a removed line; context otherwise |
| DiffViewer.Render | src/components/DiffViewer.tsx:9-18 | "No diff to show" exactly for a null or empty diff; otherwise one row per piece of `split("\n")` |
| DiffViewer.RowsOf | src/components/DiffViewer.tsx:49-64 | one row per line, in order, classed by its line |
| DiffViewer.RowsRebuildDiff | src/components/DiffViewer.tsx:18-49 | a non-empty diff is shown in full: the rows joined by newlines give the diff back, and no row holds a newline |
| DiffViewer.RowsMatchCounts | src/components/DiffViewer.tsx:53-56 | there are as many add rows as `computeDiff` counts added lines, and as many remove rows as it counts removed lines |
| DiffViewer.ViewerAgreesWithComputeDiff | src/components/DiffViewer.tsx:53-56 | for a diff the engine produced, the add and remove rows equal its `added` and `removed` |

## Left out

- Network, DOM and Readability: the HTTP request (timeout, redirects, cache-busting parameter, headers), JSDOM parsing and the Readability heuristic are outside the model. The network answer and what was extracted from the page are inputs.
- The URL parser: a parsed URL is a (protocol, hostname, href) record, and a parse failure is a missing record. The guard reads the protocol and hostname; the page is requested by `href`, the serialised URL, so two pages of one site are two requests. Percent-decoding, punycode and hostname canonicalisation are not modelled.
- IPv6 in the blocklist: the patterns are modelled as written. `/^::1$/`, `/^fc00:/i` and `/^fe80:/i` never match the bracketed form the parser produces, so `[::1]` passes (Fetcher.BracketedHostnamePasses), although blocking the IPv6 loopback is evidently what the list is for. `fc00:` does not cover all of fc00::/7. The model follows the code and adds no coverage.
- SHA-256 and `createPatch`: the digest and the LCS diff are functions given as inputs. Nothing is assumed about them beyond determinism.
- The language-model client: the OpenAI/OpenRouter client, the request payload, `process.env` and `checkLlmHealth` are not modelled. The API key is an input. The reply to attempt k is an input function of the prompt and k.
- Sleeps: `setTimeout` is not modelled. The delays are returned in order instead.
- Logging (`console.*`) is not modelled.
- Prisma: the database is two in-memory tables with a clock. Timestamps are that clock, not wall-clock dates. Prisma's own failures, and the 500 answers "Failed to add link" and "Failed to fetch links" that would follow them, are not modelled. Concurrent requests are not modelled; each handler runs alone.
- Ids: a link's id is derived from its creation time (`Store.IdOf`) as a stand-in for a cuid. All the model needs is that ids are unique.
- Request bodies: `label` and `tags` are modelled as absent or strings. A request body that is not JSON, and non-string labels or tags, are not modelled.
- The `DELETE` route and the history route (`/api/links/[id]`, `/api/history/[id]`) are not part of this model. Neither are the status route and the React pages and components apart from the two card rules and the viewer's classification.
- String length: JavaScript counts UTF-16 code units; the model counts characters. The two differ for characters outside the Basic Multilingual Plane, which affects `truncateDiff`, `extractSnippet` and the cut lengths.
- Dates: `timeAgo` receives two instants in milliseconds. An unparsable date (`NaN`) is not modelled.
- Differ.Snippet: as in the code, "..." is appended whenever the cut text is exactly `maxLength` long. That includes a text that fits exactly and was not cut, where "only when something was cut" would be the natural reading of an ellipsis; the model follows the code.
- CheckRoute.RunCheck: only a failed fetch is turned into an error record. The store writes and the summariser call are assumed not to throw, since a thrown summariser error is already caught inside the `try` and becomes the unavailability text.
- Bulk order: `prisma.link.findMany` in the bulk check has no `orderBy`, so the source fixes no order. The model takes the table's insertion order, which makes "one result per link, in order" a statement about that order.
