# Competitor news pipeline — a Dafny model

The pipeline watches the news about a fixed list of competitors and turns it into a sheet of partnerships.

**The crawlers.** There are two:
- `google_crawler_date_range.py` searches Google News within a date range.
- `gcp_deploy_async/google_crawler_togooglesheet.py` searches the last week.

For every competitor × keyword query, a crawler:
- reads up to two result pages;
- unwraps and filters the result links;
- skips URLs already in the crawl sheet;
- fetches the article bodies;
- appends one row per new article: competitor, query, title, body, URL.

**The extractor.** It also comes in two copies:
- `gcp_deploy_async/competitor_llm.py` runs concurrently, behind a sliding-window rate limiter.
- `gcp_deploy/competitor_llm.py` runs sequentially.

The extractor:
- reads the crawled articles;
- drops those whose URL is already in the output sheet;
- groups the rest by competitor and slices them into batches;
- asks an LLM for a CSV of partnerships per batch;
- attaches each CSV row to the batch article its title names, taking that article's URL and the date found at the end of its headline.

The model covers the deterministic core of both halves, one module per concern:

| module | file | what it models |
|---|---|---|
| `PyStr` | pystr.dfy | the Python string operations the core uses: `strip`, `find`, `split`, `lower`, `int()`, `:02d` |
| `DatePatterns` | date_patterns.dfy | the date regular expressions as deterministic matchers; `re.search` and the last match of `re.finditer` |
| `DateNormalize` | date_normalize.dfy | `normalize_date_to_yy_mm_dd` |
| `DateExtract` | date_extract.dfy | `extract_date_from_title` |
| `UrlDate` | url_date.dfy | `extract_date_from_url` (sync extractor) |
| `RateLimiter` | rate_limiter.dfy | `estimate_tokens` and `SlidingWindowLimiter.acquire` |
| `LlmClient` | llm_client.dfy | the retry loops of `call_llm` and `call_llm_async`, with the replies given |
| `Batching` | batching.dfy | body truncation, batch slicing, the bounded in-flight task loop |
| `Reconcile` | reconcile.dfy | reply cleaning, title matching, record building, the sync `add_article_dates` pass |
| `Resume` | resume.dfy | `get_already_processed_urls` and the resume filter on the input sheet |
| `GoogleDate` | google_date.dfy | `format_date_for_google` |
| `CrawlerLinks` | crawler_links.dfy | link acceptance in `extract_articles_from_page` |
| `Pagination` | pagination.dfy | `extract_articles_with_pagination` / `extract_recent_articles` |
| `CrawlerSheet` | crawler_sheet.dfy | queries, `get_existing_urls`, `crawl_articles_content_async`, the save loop |

Where I/O stands in the source, the model takes its result as a parameter:
- **Sheets.** A sheet read is an `Option<Sheet>`; `None` means the read raised.
- **LLM.** LLM replies come as a sequence of abstract replies.
- **CSV reader.** Its output is a function from text to rows, plus whether it raised.
- **Browser.** Result pages are the candidates each selector finds, and the URL the browser ends up on.
- **Clock.** Time is an explicit `now`.

A few facts about the code that the model keeps:
- **Output filter.** There is no filter that drops a partner equal to its competitor.
- **Statuses.** There is no special handling of HTTP 401.
- **Resume.** There is no per-row status column. Resuming is only the URL filter in `Resume`.
- **Async save loop.** The async crawler's save loop only sees articles whose body came back non-empty.
- **Date-range save loop.** The date-range crawler saves every new article, even one with an empty body.

## Model

Source paths are relative to the repository root. Shorthand in the third column: "iff" means "if and only if".

| member | source | states |
|---|---|---|
| RateLimiter.EstimateTokens | gcp_deploy_async/competitor_llm.py:76-84 | at least 1; exactly 1 below 6 characters; otherwise `len // 3` (`3n <= len < 3n + 3`) |
| RateLimiter.RequestTokens | gcp_deploy_async/competitor_llm.py:351-359 | the token-limiter cost is the prompt estimate plus the 1024-token completion budget, so always above 1024 |
| RateLimiter.Expire | gcp_deploy_async/competitor_llm.py:102-104 | expiry removes a prefix only; every removed entry has left the window; the new front has not |
| RateLimiter.ExpireKeeps | gcp_deploy_async/competitor_llm.py:102-106 | expiry keeps costs non-negative and never raises the live total |
| RateLimiter.RetryWait | gcp_deploy_async/competitor_llm.py:111-113 | the wait is `max(0.1, window - (now - q[0].t))`: at least 0.1 s and at least the time until the oldest entry expires |
| RateLimiter.SlidingWindowLimiter.constructor | gcp_deploy_async/competitor_llm.py:91-95 | a new limiter has the given capacity and window and an empty queue |
| RateLimiter.SlidingWindowLimiter.ExpireFront | gcp_deploy_async/competitor_llm.py:103-104 | the pop-front loop leaves exactly `Expire(old q)` |
| RateLimiter.SlidingWindowLimiter.Used | gcp_deploy_async/competitor_llm.py:106 | the loop computes the sum of the live costs |
| RateLimiter.SlidingWindowLimiter.TryAcquire | gcp_deploy_async/competitor_llm.py:97-115 | admits iff used + cost ≤ capacity after expiry, then appends exactly `(now, cost)`; a refusal leaves the expired queue unchanged and waits `RetryWait`; the live total stays ≤ capacity; with cost ≤ capacity `q[0]` never fails |
| DatePatterns.TermEnd | gcp_deploy_async/competitor_llm.py:186-197 | the closing group `(?:\s\|$\|[.,])` and its variants match within the text, at or after the position |
| DatePatterns.PackedAt | gcp_deploy_async/competitor_llm.py:195-196 | an `(\d{8})` / `(\d{6})` match lies in the text, starts where tried, and its groups are digits |
| DatePatterns.DatedAt | gcp_deploy_async/competitor_llm.py:187-194 | a separated-date match lies in the text, starts where tried, and its year, month and day groups are digits |
| DatePatterns.MatchAt | gcp_deploy_async/competitor_llm.py:186-197 | `re.match` of any pattern at a position: a well-placed hit with digit groups and a year of the pattern's length |
| DatePatterns.SearchSpec | gcp_deploy_async/competitor_llm.py:216 | `re.search` gives a match, no match starts before it, and it finds nothing iff no position matches |
| DatePatterns.LastFrom | gcp_deploy_async/competitor_llm.py:243-245 | the non-overlapping match scan returns the last match kept, or one found from the scan position on |
| DatePatterns.LastFromIsLast | gcp_deploy_async/competitor_llm.py:243-245 | no match starts at or after the end of the match `finditer` yields last |
| DatePatterns.LastMatch | gcp_deploy_async/competitor_llm.py:243-245 | `list(finditer(...))[-1]` is a well-placed hit with digit groups |
| DatePatterns.LastMatchSpec | gcp_deploy_async/competitor_llm.py:243-245 | a last match exists iff `re.search` finds one; it is a match and nothing matches after its end |
| DatePatterns.NoDigitNoMatch | gcp_deploy_async/competitor_llm.py:186-197 | text without a digit matches no date pattern |
| DateNormalize.AllYearsFit | gcp_deploy_async/competitor_llm.py:205-213 | each pattern's year group is 4 digits exactly when it is marked as holding a full year |
| DateNormalize.Format | gcp_deploy_async/competitor_llm.py:218-227 | the output `yy.MM.DD` is a canonical date: the last two digits of the year group, then `int(month)` and `int(day)` zero-padded to two digits |
| DateNormalize.NormalizeFrom | gcp_deploy_async/competitor_llm.py:215-229 | the pattern loop gives a canonical date or the text unchanged |
| DateNormalize.FirstMatchWins | gcp_deploy_async/competitor_llm.py:215-227 | if pattern j is the first from k on whose `re.search` hits, the loop's result is that hit formatted, with the pattern's `has_year` |
| DateNormalize.NoMatchUnchanged | gcp_deploy_async/competitor_llm.py:215-229 | if no pattern from k on hits, the text is returned unchanged |
| DateNormalize.Normalize | gcp_deploy_async/competitor_llm.py:199-229 | empty input gives `""`; otherwise a `YY.MM.DD` date or the stripped input |
| DateNormalize.NormalizeFirstMatch | gcp_deploy_async/competitor_llm.py:199-227 | on the stripped input, the first pattern that hits decides: the result is its hit formatted as `yy.MM.DD` |
| DateNormalize.NormalizeNoMatch | gcp_deploy_async/competitor_llm.py:199-229 | when no pattern hits the stripped input, the result is the stripped input |
| DateNormalize.DottedYearMatch | gcp_deploy_async/competitor_llm.py:206 | `(\d{4})[.\s]+(\d{1,2})[.\s]+(\d{1,2})` matches a dotted full date as a whole |
| DateNormalize.DottedYearFirst | gcp_deploy_async/competitor_llm.py:215-227 | the first pattern wins on such a date |
| DateNormalize.DottedYearFormat | gcp_deploy_async/competitor_llm.py:218-227 | such a date formats as the year's last two digits, then month and day zero-padded |
| DateNormalize.NormalizeDottedYear | gcp_deploy_async/competitor_llm.py:199-229 | `YYYY. M. D` normalises to `YY.MM.DD` with month and day padded to two digits |
| DateNormalize.CanonicalNoFullYear | gcp_deploy_async/competitor_llm.py:206-208 | no full-year pattern matches anywhere in a `YY.MM.DD` date |
| DateNormalize.CanonicalMatch | gcp_deploy_async/competitor_llm.py:209 | `(\d{2})\.(\d{1,2})\.(\d{1,2})` matches a canonical date at position 0, as a whole |
| DateNormalize.FormatCanonical | gcp_deploy_async/competitor_llm.py:223-227 | formatting that match gives the date back |
| DateNormalize.NormalizeCanonical | gcp_deploy_async/competitor_llm.py:199-229 | a `YY.MM.DD` date normalises to itself |
| DateNormalize.NormalizeIdempotent | gcp_deploy_async/competitor_llm.py:199-229 | normalising twice equals normalising once, for every input |
| DateExtract.SearchArea | gcp_deploy_async/competitor_llm.py:237 | the search area is the title's last 500 characters, or the whole title |
| DateExtract.BestOf | gcp_deploy_async/competitor_llm.py:239-249 | no best match iff position −1; a best match's position is offset + its end |
| DateExtract.BestOfSpec | gcp_deploy_async/competitor_llm.py:242-249 | the fold finds nothing iff no pattern matched; otherwise the rightmost end wins and a tie keeps the earlier pattern (strict `>`) |
| DateExtract.BestHit | gcp_deploy_async/competitor_llm.py:239-249 | the chosen match lies in the search area and has digit groups |
| DateExtract.CutDate | gcp_deploy_async/competitor_llm.py:255-256 | the cleaned title is empty, or neither starts with whitespace nor ends in `.,` whitespace `[]()-–—｜\|` |
| DateExtract.TrimmedTail | gcp_deploy_async/competitor_llm.py:256 | stripping after the trailing-character removal never exposes another trailing character |
| DateExtract.NoLastMatchNoSearch | gcp_deploy_async/competitor_llm.py:243-244 | no pattern has a last match iff no pattern's `re.search` matches |
| DateExtract.TitleDateNone | gcp_deploy_async/competitor_llm.py:231-261 | no date iff no pattern matches in the last 500 characters; then the title comes back unchanged |
| DateExtract.BestHitWins | gcp_deploy_async/competitor_llm.py:242-249 | the best hit is the last match of a winning pattern |
| DateExtract.TitleDateWinner | gcp_deploy_async/competitor_llm.py:251-259 | a found date is the winner's group normalised; the title loses the first occurrence of the full match text |
| DateExtract.KeepRightmost | gcp_deploy_async/competitor_llm.py:244-249 | one pattern's last match replaces the best so far exactly when it ends strictly further right, as `Better` states |
| DateExtract.FindBestMatch | gcp_deploy_async/competitor_llm.py:239-249 | the loop over the ten patterns computes `Best` |
| DateExtract.ExtractDateFromTitle | gcp_deploy_async/competitor_llm.py:231-261 | the method computes `TitleDate` |
| DateExtract.NoDigitNoDate | gcp_deploy_async/competitor_llm.py:231-261 | a title without digits gives `(None, title)` |
| DateExtract.TitleDateNonEmpty | gcp_deploy_async/competitor_llm.py:252-259 | a found date is never the empty string |
| UrlDate.CommaAttempts | gcp_deploy/competitor_llm.py:180-183 | only positions right after a comma can match, and every match is well placed |
| UrlDate.CommaSearch | gcp_deploy/competitor_llm.py:186 | `re.search(',' + pattern)` gives a well-placed hit with digit groups |
| UrlDate.CommaSearchSpec | gcp_deploy/competitor_llm.py:186-187 | the hit follows the first comma whose position matches; none iff no comma is followed by a match |
| UrlDate.DateFromUrl | gcp_deploy/competitor_llm.py:175-179 | a missing or blank URL gives no date |
| UrlDate.CapturedNormalizes | gcp_deploy/competitor_llm.py:188-191 | what a URL pattern captures normalises to a non-empty string, so a found date is never dropped |
| UrlDate.DateFromUrlSpec | gcp_deploy/competitor_llm.py:175-193 | a date iff either pattern follows a comma; `,YY.M.D` is tried before `,YYYY.M.D`; the date is the leftmost capture, normalised |
| LlmClient.RateLimitWait | gcp_deploy/competitor_llm.py:307-309 | the 429 wait `min(30·2^attempt, 600)` lies in 30..600 |
| LlmClient.NetworkWait | gcp_deploy/competitor_llm.py:323-325 | the network-error wait `min(2·2^attempt, 60)` lies in 2..60 |
| LlmClient.RateLimitWaitMonotone | gcp_deploy/competitor_llm.py:307-309 | 429 waits never shrink as attempts grow |
| LlmClient.RateLimitWaitCapped | gcp_deploy/competitor_llm.py:308-309 | from the sixth attempt on, the 429 wait is the 600 s cap |
| LlmClient.NetworkWaitMonotone | gcp_deploy/competitor_llm.py:324-325 | network-error waits never shrink |
| LlmClient.SyncCall | gcp_deploy/competitor_llm.py:290-333 | never more waits than attempts left |
| LlmClient.SyncCallWait | gcp_deploy/competitor_llm.py:301-327 | wait i follows a retryable reply (429 or network error) and is the wait that reply asks for |
| LlmClient.SyncCallEnd | gcp_deploy/competitor_llm.py:301-333 | the loop ends at the first non-retryable reply with its result, or with `"API 호출 실패"` after the last attempt |
| LlmClient.SyncCallSpec | gcp_deploy/competitor_llm.py:290-333 | the outcome matches the reference description `SyncOutcome` |
| LlmClient.SyncCallResult | gcp_deploy/competitor_llm.py:314-333 | the result is a stripped reply text, `"API 호출 실패"` or `"응답 처리 실패"` |
| LlmClient.CallLlm | gcp_deploy/competitor_llm.py:290-333 | the attempt loop computes `SyncCall` |
| LlmClient.Backoff | gcp_deploy_async/competitor_llm.py:392 | the base backoff `min(60, 2^attempt)` lies in 1..60 |
| LlmClient.FailureBackoff | gcp_deploy_async/competitor_llm.py:442 | the other-exception backoff `min(30, 2^attempt)` lies in 1..30 and never exceeds the base backoff |
| LlmClient.BackoffMonotone | gcp_deploy_async/competitor_llm.py:392-442 | both backoffs never shrink as attempts grow |
| LlmClient.AsyncCall | gcp_deploy_async/competitor_llm.py:338-447 | never more waits than attempts left |
| LlmClient.AsyncCallWait | gcp_deploy_async/competitor_llm.py:383-444 | wait i follows a retryable reply and is the one it asks for: `Retry-After`, 30 s when that is unreadable, or the backoff |
| LlmClient.AsyncCallEnd | gcp_deploy_async/competitor_llm.py:361-447 | the loop ends at the first non-retryable reply, or with `"API 호출 실패"` after `max_retries` attempts |
| LlmClient.AsyncCallSpec | gcp_deploy_async/competitor_llm.py:338-447 | the outcome matches the reference description `AsyncOutcome` |
| LlmClient.AsyncCallResult | gcp_deploy_async/competitor_llm.py:402-447 | the result is a stripped reply text, the quota string or `"API 호출 실패"`, and never `"응답 처리 실패"` |
| LlmClient.AsyncWaitsBounded | gcp_deploy_async/competitor_llm.py:383-444 | every wait not set by a `Retry-After` value lies between 1 and 60 seconds |
| LlmClient.CallLlmAsync | gcp_deploy_async/competitor_llm.py:361-447 | the attempt loop computes `AsyncCall` |
| Batching.Truncate | gcp_deploy_async/competitor_llm.py:544-546 | a body within the limit is kept; a longer one becomes its first 2000 characters plus the marker |
| Batching.Batches | gcp_deploy_async/competitor_llm.py:645-647 | no batch is empty; none exceeds the batch size; all but the last are full |
| Batching.BatchesFirst | gcp_deploy_async/competitor_llm.py:646-647 | the first batch is `xs[0:min(per, len)]`, and the rest are the batches of what follows |
| Batching.BatchCount | gcp_deploy_async/competitor_llm.py:637 | the number of batches n is `ceil(len/per)`: `(n−1)·per < len ≤ n·per` |
| Batching.BatchesConcat | gcp_deploy_async/competitor_llm.py:645-647 | the batches concatenate back to the articles, in order |
| Batching.NextBatch | gcp_deploy_async/competitor_llm.py:646-647 | one slice advances the start and peels the first batch off the rest |
| Batching.SliceBatches | gcp_deploy/competitor_llm.py:443-445 | the slicing loop produces exactly `Batches` |
| Batching.ProcessCompetitor | gcp_deploy_async/competitor_llm.py:632-673 | the batches are `Batches`; every batch's result is collected exactly once; no more than `MAX_BATCH_TASKS_IN_FLIGHT` tasks are ever pending, whatever the scheduler completes |
| Batching.Launch | gcp_deploy_async/competitor_llm.py:651-654 | creating a task adds one pending task and keeps every task tracked |
| Batching.Collect | gcp_deploy_async/competitor_llm.py:657-661 | the finished tasks leave `pending`; the collection order keeps what was collected before and appends each finished task exactly once |
| Reconcile.CleanResponse | gcp_deploy_async/competitor_llm.py:562-574 | no text iff a failure sentinel or blank reply; otherwise stripped, with a leading fence and its language tag and the trailing backticks removed |
| Reconcile.QuotaSentinelParsed | gcp_deploy_async/competitor_llm.py:408-408 | the quota string is not among the checked sentinels and reaches the CSV reader as it is |
| Reconcile.FenceUnwrap | gcp_deploy_async/competitor_llm.py:573 | `^```[a-zA-Z]*` removes the fence and its letters up to the first non-letter |
| Reconcile.FencedReply | gcp_deploy_async/competitor_llm.py:567-574 | a reply fenced as a code block is unwrapped to exactly its CSV |
| Reconcile.FirstMatchFrom | gcp_deploy_async/competitor_llm.py:587-606 | finds an article the LLM title names, with none before it; none iff no article is named |
| Reconcile.FirstMatchSpec | gcp_deploy_async/competitor_llm.py:587-606 | the search gives article i iff i is the first article named |
| Reconcile.MatchArticle | gcp_deploy_async/competitor_llm.py:587-606 | the loop with `break` computes `FirstMatch` |
| Reconcile.CopiedTitleFound | gcp_deploy_async/competitor_llm.py:588-597 | an LLM title that copies a headline finds it, or an earlier article it also names |
| Reconcile.SameOpeningMatches | gcp_deploy_async/competitor_llm.py:598-606 | titles longer than 10 that share their first 30 characters match in the second tier |
| Reconcile.AsyncRecord | gcp_deploy_async/competitor_llm.py:613-621 | competitor, partner and kind come from the batch and the CSV row |
| Reconcile.SyncRecord | gcp_deploy/competitor_llm.py:519-527 | competitor, partner and kind come from the batch and the CSV row |
| Reconcile.AsyncRecordSpec | gcp_deploy_async/competitor_llm.py:581-621 | no match: the LLM title, its date, no URL; match i: its stripped URL and its date-free headline and date, falling back to the LLM title when that headline is empty |
| Reconcile.SyncAsyncAgree | gcp_deploy/competitor_llm.py:491-527 | the sync and async records agree unless the matched headline is only a date; then the sync title is empty |
| Reconcile.AsyncRecords | gcp_deploy_async/competitor_llm.py:580-621 | one record per CSV row |
| Reconcile.AsyncRecordsAt | gcp_deploy_async/competitor_llm.py:580-621 | record k is the record of CSV row k |
| Reconcile.SyncRecords | gcp_deploy/competitor_llm.py:488-527 | one record per CSV row |
| Reconcile.SyncRecordsAt | gcp_deploy/competitor_llm.py:488-527 | record k is the record of CSV row k |
| Reconcile.AsyncBatch | gcp_deploy_async/competitor_llm.py:562-630 | no rows for a sentinel, a blank reply or a CSV error; otherwise one record per CSV row |
| Reconcile.SyncBatch | gcp_deploy/competitor_llm.py:465-535 | no rows for a sentinel or blank reply; otherwise one record per row read, including rows read before a CSV error |
| Reconcile.CsvErrorDiffers | gcp_deploy/competitor_llm.py:519-535 | after a CSV error the async batch yields nothing, while the sync one keeps the rows already read |
| Reconcile.BuildAsyncRecord | gcp_deploy_async/competitor_llm.py:581-621 | the per-row code computes `AsyncRecord` |
| Reconcile.BuildAsyncRecords | gcp_deploy_async/competitor_llm.py:579-621 | the row loop computes `AsyncRecords` |
| Reconcile.ProcessBatchAsync | gcp_deploy_async/competitor_llm.py:562-630 | `process_batch_async` after the call computes `AsyncBatch` |
| Reconcile.BuildSyncRecord | gcp_deploy/competitor_llm.py:491-527 | the per-row code computes `SyncRecord` |
| Reconcile.BuildSyncRecords | gcp_deploy/competitor_llm.py:488-527 | the row loop computes `SyncRecords` |
| Reconcile.ProcessBatchSync | gcp_deploy/competitor_llm.py:465-535 | the batch body after the call computes `SyncBatch` |
| Reconcile.SyncCompetitor | gcp_deploy/competitor_llm.py:436-540 | a competitor's results are its batches' records, batch by batch, in order |
| Reconcile.RedateAsWrittenErasesDate | gcp_deploy/competitor_llm.py:196-217 | see Findings: the second date pass empties the date of a record whose title holds no digit |
| Reconcile.RedateKeepsDate | gcp_deploy/competitor_llm.py:196-217 | the corrected pass never loses a date, re-dates a title that still holds one, and leaves a dateless title's record unchanged |
| Reconcile.RedateOneAsWritten | gcp_deploy/competitor_llm.py:205-212 | one pass of the loop as written |
| Reconcile.RedateOne | gcp_deploy/competitor_llm.py:205-212 | one pass of the corrected loop |
| Reconcile.AddArticleDatesAsWritten | gcp_deploy/competitor_llm.py:196-217 | every record is re-dated as written, in order |
| Reconcile.AddArticleDates | gcp_deploy/competitor_llm.py:196-217 | every record is re-dated by the corrected pass, in order |
| Resume.FindColumnFrom | gcp_deploy_async/competitor_llm.py:524-528 | the first header whose lower-cased text is a URL name; none iff no header is |
| Resume.FindUrlColumn | gcp_deploy_async/competitor_llm.py:696-701 | the header loop with `break` finds the first URL column, or none |
| Resume.UrlsOfMembers | gcp_deploy_async/competitor_llm.py:531-533 | a URL is in the set iff some row reaches the column, has a non-empty cell there, and that cell strips to the URL |
| Resume.ProcessedMembers | gcp_deploy_async/competitor_llm.py:510-537 | ≤ 1 rows or no URL column give the empty set; otherwise the stripped non-empty cells of the first URL column after the header |
| Resume.RecordedUrlProcessed | gcp_deploy_async/competitor_llm.py:530-533 | a URL written into the output sheet's URL column is read back, stripped |
| Resume.ProcessedAreStripped | gcp_deploy_async/competitor_llm.py:533 | every processed URL is its own strip |
| Resume.GetAlreadyProcessedUrls | gcp_deploy_async/competitor_llm.py:510-537 | the loop computes `ProcessedUrls` |
| Resume.SelectNew | gcp_deploy_async/competitor_llm.py:707-708 | as written: kept iff there is no URL column or the raw cell is not in the set; never more articles |
| Resume.SelectNewConcat | gcp_deploy_async/competitor_llm.py:708 | the filter keeps the input order: it distributes over concatenation |
| Resume.PaddedUrlReselected | gcp_deploy_async/competitor_llm.py:707-708 | see Findings: an article with a whitespace-padded URL cell is selected again, whatever the output sheet holds |
| Resume.PaddedUrlExists | gcp_deploy_async/competitor_llm.py:533 | such a cell exists: `" x"` strips to `"x"` |
| Resume.SelectNewStripped | gcp_deploy_async/competitor_llm.py:707-708 | corrected filter: kept iff there is no URL column or the stripped cell is not in the set |
| Resume.RecordedArticleNotReselected | gcp_deploy_async/competitor_llm.py:592-593 | with the corrected filter, an article whose record sits in the output sheet is not selected again |
| GoogleDate.Dashed | google_crawler_date_range.py:93 | `.replace(".", "-").replace("/", "-")` keeps the length and turns every `.`, `/` and `-` into `-`, leaving every other character as it is |
| GoogleDate.ParseDigits | google_crawler_date_range.py:109 | `int()` of a run of digits is its value |
| GoogleDate.SplitThree | google_crawler_date_range.py:96-97 | three dash-free parts joined by `-` split back into those three parts |
| GoogleDate.DashedDigits | google_crawler_date_range.py:93 | three digit runs joined by `-`, `.` or `/` strip and dash to `a-b-c` |
| GoogleDate.FormatYearFirst | google_crawler_date_range.py:93-109 | `YYYY-MM-DD` (any separator) becomes `MM/DD/YYYY`, the year kept verbatim |
| GoogleDate.FormatYearLast | google_crawler_date_range.py:100-109 | `DD-MM-YYYY` (any separator) becomes `MM/DD/YYYY` |
| GoogleDate.ShortYear | google_crawler_date_range.py:102-104 | a two-digit year pivots at 50: below it gets `20`, otherwise `19` |
| GoogleDate.FormatShortYear | google_crawler_date_range.py:102-109 | `YY-MM-DD` becomes `MM/DD/20YY` when YY < 50 and `MM/DD/19YY` otherwise |
| CrawlerLinks.Unwrap | google_crawler_date_range.py:236-237 | a link without `/url?q=` is unchanged; an unwrapped one is strictly shorter |
| CrawlerLinks.StepDirect | google_crawler_date_range.py:193-201 | for an element whose `href` has no `/url?q=`, the Selenium step checking the raw `href` and the one checking the unwrapped link decide alike |
| CrawlerLinks.Scan | google_crawler_date_range.py:225-246 | at most one article per element |
| CrawlerLinks.ScanFresh | google_crawler_date_range.py:193-244 | every link of an element scan starts with `http` and avoids both Google domains; when the pass checks the unwrapped link (the BeautifulSoup pass, and the corrected Selenium pass) the links are also unseen and none appears twice |
| CrawlerLinks.FirstYieldFresh | google_crawler_date_range.py:222-249 | the same for the first selector that yields |
| CrawlerLinks.PageLinksAcceptable | google_crawler_date_range.py:146-253 | a page's articles, as written, all have acceptable links |
| CrawlerLinks.PageLinksFresh | google_crawler_date_range.py:212-249 | with the corrected Selenium lookup, a page's articles are unseen and distinct |
| CrawlerLinks.ScanDirect | google_crawler_date_range.py:193-201 | on elements without `/url?q=` links, the Selenium scan as written equals the corrected one |
| CrawlerLinks.FirstYieldDirect | google_crawler_date_range.py:173-206 | the same for the selector loop |
| CrawlerLinks.PageLinksDirect | google_crawler_date_range.py:146-253 | when no Selenium element carries a `/url?q=` link, the page's articles as written equal the corrected ones, so they are unseen and distinct |
| CrawlerLinks.ScanElements | google_crawler_date_range.py:225-246 | the element loop computes `Scan`, and `seen_links` grows by exactly the returned links |
| CrawlerLinks.TrySelectors | google_crawler_date_range.py:222-249 | the selector loop computes `FirstYield`, and `seen_links` grows by exactly the returned links |
| CrawlerLinks.ExtractArticlesFromPage | google_crawler_date_range.py:146-253 | the page's articles are `PageLinks` with the Selenium pass checking the raw `href`, as written: the Selenium pass's result if it yields, else the BeautifulSoup pass's; exactly they are added to `seen_links` |
| CrawlerLinks.SeleniumAsWrittenDuplicates | google_crawler_date_range.py:193-201 | see Findings: the Selenium pass as written yields one redirect link twice |
| CrawlerLinks.SeleniumRepeatedOnce | google_crawler_date_range.py:236-244 | with the unwrapped link checked, a repeated element yields its article once |
| Pagination.NextStart | google_crawler_date_range.py:275-279 | a URL without `start=` gives 10 |
| Pagination.NextStartReadsBack | google_crawler_date_range.py:275-288 | the `start=` the crawler writes last into the next URL is read back, and the page after moves on by another 10 |
| Pagination.CollectedAcceptable | google_crawler_date_range.py:265-267 | every article collected from the pages, as written or corrected, has an acceptable link |
| Pagination.CollectedFresh | google_crawler_date_range.py:265-267 | with the corrected Selenium lookup, no collected link appears twice |
| Pagination.CollectedDirect | google_crawler_date_range.py:264-300 | when neither page's Selenium elements carry `/url?q=` links, the articles collected as written equal the corrected ones |
| Pagination.MovesOn | google_crawler_date_range.py:273-296 | the crawler moves to the next page iff a `start=` can be read from the current URL, the dates convert and the browser's URL changed |
| Pagination.CollectPages | google_crawler_date_range.py:264-300 | for any page reader, the `while` loop gathers exactly `Collected` (nothing when `max_articles` is 0): the first page, then the second only when fewer than `max_articles` were found and the crawler moved on; at most `MAX_PAGES` pages are read |
| Pagination.ExtractWithPagination | google_crawler_date_range.py:259-303 | at most `MAX_PAGES` pages read; the result is the articles collected as written, cut to `max_articles`; every link acceptable; unseen and distinct when no Selenium element carries a `/url?q=` link |
| Pagination.CutAcceptable | google_crawler_date_range.py:303 | cutting to `max_articles` keeps every link acceptable |
| Pagination.PrefixKeeps | google_crawler_date_range.py:303 | cutting to `max_articles` keeps the links fresh and distinct |
| Pagination.Extend | google_crawler_date_range.py:266-267 | appending a page's fresh articles keeps the list duplicate-free, and `seen_links` is exactly its links |
| CrawlerSheet.QueriesFor | google_crawler_date_range.py:428 | the queries of one competitor are `c + " " + k` for each keyword, in order |
| CrawlerSheet.QueryAt | google_crawler_date_range.py:428 | there are `|C|·|K|` queries in competitor-major order: query `i·|K| + j` is competitor i with keyword j |
| CrawlerSheet.QueryCount | gcp_deploy_async/google_crawler_togooglesheet.py:414 | there are `|C|·|K|` queries |
| CrawlerSheet.QueryCompetitor | google_crawler_date_range.py:454-455 | the first whitespace token of every query is its competitor, for names without whitespace |
| CrawlerSheet.CrawlerQueryCounts | gcp_deploy_async/google_crawler_togooglesheet.py:40-47 | the date-range crawler runs 92 queries and the async one 96 |
| CrawlerSheet.CompetitorNamesPlain | gcp_deploy_async/google_crawler_togooglesheet.py:40-45 | no competitor name is empty or holds whitespace, so every query's competitor is recovered |
| CrawlerSheet.LastCellsMembers | google_crawler_date_range.py:353-355 | a URL is in the set iff some row has a cell and its last cell strips to the URL |
| CrawlerSheet.ExistingMembers | google_crawler_date_range.py:347-358 | `get_existing_urls`: the stripped last cells of the rows after the header |
| CrawlerSheet.GetExistingUrls | gcp_deploy_async/google_crawler_togooglesheet.py:309-320 | the loop computes `ExistingUrls` |
| CrawlerSheet.NoBreaks | google_crawler_date_range.py:458 | `\n` and `\r` become spaces; nothing else changes |
| CrawlerSheet.CleanContent | gcp_deploy_async/google_crawler_togooglesheet.py:445 | the stored body has length `min(len, 50000)`, no line break, and each character is the body's own or a replaced break |
| CrawlerSheet.NewArticles | gcp_deploy_async/google_crawler_togooglesheet.py:328-331 | keeps exactly the articles whose link is not in `existing_urls` |
| CrawlerSheet.NewArticlesConcat | gcp_deploy_async/google_crawler_togooglesheet.py:328-331 | the filter keeps the input order |
| CrawlerSheet.AssembleMembers | gcp_deploy_async/google_crawler_togooglesheet.py:350-364 | a result iff an article's own fetch came back as non-empty text; it carries that article's title and link |
| CrawlerSheet.SelectNewArticles | gcp_deploy_async/google_crawler_togooglesheet.py:327-331 | the loop computes `NewArticles` |
| CrawlerSheet.CrawlArticlesContent | gcp_deploy_async/google_crawler_togooglesheet.py:323-366 | results are the new articles paired positionally with their fetches, exceptions and empty bodies dropped; none when nothing is new |
| CrawlerSheet.RowFor | google_crawler_date_range.py:454-465 | the row holds the URL, the query, the query's first token, a title prefix of at most 50000 characters and the cleaned body |
| CrawlerSheet.SavedRows | google_crawler_date_range.py:442-469 | no saved URL was already in `existing_urls`, and no URL is saved twice in a run |
| CrawlerSheet.SavedRowsMembers | gcp_deploy_async/google_crawler_togooglesheet.py:437-456 | a URL is saved iff it was not in `existing_urls` and the first item carrying it was appended successfully |
| CrawlerSheet.CrawlRun.constructor | google_crawler_date_range.py:421 | a run starts from the sheet's URLs with no rows saved |
| CrawlerSheet.CrawlRun.SaveArticles | gcp_deploy_async/google_crawler_togooglesheet.py:437-456 | `existing_urls` grows by the items' links; the saved rows are exactly `SavedRows`; every saved URL stays in `existing_urls` with none saved twice |

## Findings

Confidence is "not executed" throughout: the inputs illustrate the lemmas named in each row; nothing was executed.

| source | as written | input that shows it | evidently intended | confidence | as-written member | corrected member |
|---|---|---|---|---|---|---|
| google_crawler_date_range.py:193-201 | The Selenium pass checks `seen_links` against the raw `href`, before `/url?q=` is unwrapped, but adds the unwrapped link. The same check is at gcp_deploy_async/google_crawler_togooglesheet.py:151-159. | A page whose two selected elements carry the same title and the `href` `https://www.google.com/url?q=https://news.example/a&sa=U`. Both pass the check, so the article is returned twice. | Check the unwrapped link, as the BeautifulSoup pass does at lines 236-244, so no link is returned twice. | not executed; high | CrawlerLinks.SeleniumAsWrittenDuplicates | CrawlerLinks.SeleniumRepeatedOnce |
| gcp_deploy/competitor_llm.py:196-217 | `add_article_dates` runs title date extraction again on titles already cleaned at line 515. It overwrites the date column with what it finds, or `""`. | A record titled `A사와 제휴` with date `24.03.05`, built from the LLM title `A사와 제휴 2024.03.05`. The second pass finds no date and writes `""`. | Fill dates, keeping the one already found. The docstring says title, then URL. | not executed; high | Reconcile.RedateAsWrittenErasesDate | Reconcile.RedateKeepsDate |
| gcp_deploy_async/competitor_llm.py:707-708 | The resume filter compares the raw input URL cell with the processed set. That set holds stripped URLs (line 533), and records store stripped URLs (line 593). The same filter is at gcp_deploy/competitor_llm.py:423. | An input row whose URL cell is `" https://news.example/a"`. Its record stores the stripped URL, but the raw cell is never in the set, so the article is analysed again on every run. | Compare stripped URLs, so a recorded article is not analysed again. | not executed; medium | Resume.PaddedUrlReselected | Resume.RecordedArticleNotReselected |

## Left out

- Google Sheets access is not modelled: opening sheets, `get_all_values`, `append_row`, `add_worksheet`, `save_results_to_sheets`. These are I/O through a foreign library. The model takes what a read returned, and whether each `append_row` succeeded.
- Selenium, BeautifulSoup and aiohttp are not modelled: the DOM walk that finds each element's `href`, page loading and `get_article_content*`. This is browser and network I/O. The elements each selector finds and the fetched bodies are parameters.
- `search_google_news_*` is not modelled: it builds and loads a URL. The search URL itself is not modelled.
- asyncio is not modelled: locks, semaphores, `gather`, `wait` and sleeps.
  - The limiter is one sequential step at a given `now`, and the outer `while True` with its sleep belongs to the caller.
  - Which tasks `asyncio.wait` reports finished is a parameter.
- Batching.ProcessCompetitor records the order in which batch results are collected, not the rows themselves.
- The random jitter `random.uniform(0, 1.5)` and the float waits are not modelled. The waits are their integer or stated part.
- The LLM call is a given reply. `make_prompt`, `json.dumps` and the request body are not modelled.
- The CSV reader is a given function from text to rows, plus whether it raised.
- The header-width warning at gcp_deploy/competitor_llm.py:482-484 only prints, so it is not modelled.
- pandas is not modelled. `groupby('경쟁사')`, `reset_index` and the DataFrame plumbing become sequences of articles per competitor.
- PyStr.Lower folds ASCII letters only. Python's `str.lower` also folds non-ASCII letters. All header names the source compares with are ASCII or Hangul, and Hangul has no case.
- PyStr.Strip strips the characters Python's `str.strip()` treats as whitespace, Unicode spaces included.
- DatePatterns, PyStr.ParseInt and GoogleDate.ParseDigits: take only the ASCII digits `0`-`9` as digits. Python's `\d` and `int()` also accept other Unicode decimal digits, such as the fullwidth `２０２４.３.５`; dates written that way are not modelled.
- DateNormalize.NormalizeFrom: its own contract states only that the result is a canonical date or the text unchanged. First-match-wins and the formatted value are stated by DateNormalize.FirstMatchWins and DateNormalize.NoMatchUnchanged.
- DateNormalize.Normalize: its own contract states only that the result is a canonical date or the stripped input. The same facts over the stripped input are stated by DateNormalize.NormalizeFirstMatch and DateNormalize.NormalizeNoMatch.
- Batching.ProcessCompetitor: requires a positive `ARTICLES_PER_CALL`. The value comes from the environment. With 0 the source raises `ZeroDivisionError` when it counts the batches; with a negative value it makes no batch at all. Neither path is modelled.
- Batching.Batches: defined for a positive batch size only, for the same reason.
- CrawlerLinks.PageLinksFresh: unseen and distinct links are proved for the corrected Selenium lookup. For the crawlers as written, CrawlerLinks.PageLinksDirect proves them only for pages whose Selenium elements carry no `/url?q=` link; otherwise a redirect link can come back twice (see Findings).
- Pagination.CollectedFresh: the same holds across the two pages. Pagination.ExtractWithPagination states distinctness as written only under that condition.
- Sleeps between batches, competitors and queries are not modelled.
- gcp_deploy/main.py and run_pipeline.py are not part of this model. They are configuration and stage sequencing.
- Reconcile.AsyncRecord and Reconcile.SyncRecord: their own contracts state only the copied fields. The title, URL and date are stated by Reconcile.AsyncRecordSpec and Reconcile.SyncAsyncAgree.
- LlmClient.SyncCall and LlmClient.AsyncCall: their own contracts bound only the number of waits. The full outcome is stated by SyncCallSpec/AsyncCallSpec and the lemmas beside them.
- Pagination.NextStart: its contract states only the absent-`start=` case. The read-back is stated by Pagination.NextStartReadsBack for URLs the crawler builds itself.
- Pagination.ExtractWithPagination is modelled with `MAX_PAGES` = 2, the value in both crawlers. The loop for other page counts is not.
- GoogleDate.FormatDateForGoogle has no contract of its own. It is stated through the three format lemmas on well-formed digit dates. Inputs with signs or embedded spaces, which `int()` also accepts, are only covered by the function itself.
