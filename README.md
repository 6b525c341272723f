# Gumtree property scraper: verified model of its text and counter logic

This project models, in Dafny, the parts of the Gumtree property scraper
(a Scrapy project) that carry logic of their own:

- **Description clean-up** (`PropertiesSpider.format_paragraph`): the ad text is
  split on whitespace as Python's argument-less `str.split()` does, re-joined with
  single spaces, and then every newline is replaced by a space. Module `Paragraph`
  (`paragraph.dfy`) gives `str.split()` as `Words`, `str.replace` as
  `ReplaceChar`, and proves that the result has no newline, no run of spaces, no
  leading or trailing whitespace, the same words in the same order, is never
  longer than the input, is empty exactly for blank input, and that formatting
  twice changes nothing. Because `split()` already removes every newline, the
  replace step never changes anything (`ReplaceAbsent` applied in
  `FormatParagraph`).
- **Crawl extensions** (`extensions.py`). `TrackItemsScraped` is a class whose
  `ItemScraped` method adds one to the count and logs progress when the count is
  a multiple of `item_count`. A ghost field records the logged counts, and the
  class invariant ties that record to `ProgressMessages`, of which it is proved
  that after n items exactly n / |item_count| messages were logged, one for
  each multiple. `Latencies` is a class holding the latency sums and the item
  counter that `_item_scraped` grows and `_log` reports and resets. Its averages
  fall back to 0 when no item came in. The configuration gates of both
  extensions (`NotConfigured`) are functions.
- **Item pipelines** (`pipelines.py`). `ProcessItem` passes the item through.
  `MediaRequests` splits the `image_urls` field on commas, one URL per piece, with
  no request for a missing or empty field. It is proved that there is one piece
  more than there are commas, that no piece holds a comma, that joining the
  pieces with "," gives the field back, that splitting a comma-join of comma-free
  pieces gives the pieces back, and that a trailing comma gives an empty last URL.

Shared helpers: `Wrappers` (`Option`, `Result`) and `Strings` (`Join`, Python's
`sep.join`).

The repository's source holds no geocoding, caching, rate-limiting or retry
code; the model covers the code that exists.

## Model

| member | source | states |
|---|---|---|
| `Paragraph.FormatParagraph` | gumtree_scraper/spiders/properties.py:39-47 | the result holds no newline; its only whitespace is ' '; no two adjacent spaces; it neither starts nor ends with whitespace; it is never longer than the description |
| `Paragraph.IsWhitespace` | gumtree_scraper/spiders/properties.py:41 | the separators of argument-less `str.split()` (Python's `str.isspace()` set); space, tab, newline and carriage return are among them, and no printable ASCII character other than space is |
| `Paragraph.Words` | gumtree_scraper/spiders/properties.py:41 | every piece of `str.split()` is non-empty and free of whitespace |
| `Paragraph.WordsContent` | gumtree_scraper/spiders/properties.py:41 | the pieces of `s.split()`, laid end to end, are exactly the non-whitespace characters of `s` in their order: nothing is dropped, added or reordered |
| `Strings.Join` | gumtree_scraper/spiders/properties.py:41 | `sep.join(parts)`: the first part is a prefix of the result (its inverses are proved in `WordsOfJoin` and `JoinSplit`) |
| `Paragraph.ReplaceChar` | gumtree_scraper/spiders/properties.py:44 | same length; each occurrence of the target character becomes the replacement, every other character stays |
| `Paragraph.ReplaceAbsent` | gumtree_scraper/spiders/properties.py:41-44 | replacing a character that does not occur returns the string unchanged |
| `Paragraph.WordsOfInterleave` | gumtree_scraper/spiders/properties.py:41 | `str.split()` breaks exactly at whitespace: words separated by non-empty whitespace runs, with any whitespace at either end, split into exactly those words; since every string has this form, this together with `WordsContent` fixes the split completely |
| `Paragraph.WordsSkipWhitespace` | gumtree_scraper/spiders/properties.py:41 | leading whitespace does not change the split |
| `Paragraph.WordsOfJoin` | gumtree_scraper/spiders/properties.py:41 | splitting the space-join of a list of words gives that list back |
| `Paragraph.JoinWordsSingleSpaced` | gumtree_scraper/spiders/properties.py:41 | the space-join of words has each whitespace character a single ' ' between two word characters, and starts and ends with a word character |
| `Paragraph.JoinWordsShorter` | gumtree_scraper/spiders/properties.py:41 | `" ".join(s.split())` is no longer than `s` |
| `Paragraph.WordsEmpty` | gumtree_scraper/spiders/properties.py:41 | `s.split()` is empty if and only if `s` is empty or all whitespace |
| `Paragraph.FormatParagraphKeepsWords` | gumtree_scraper/spiders/properties.py:39-47 | the words of the result are the words of the description, in order |
| `Paragraph.FormatParagraphIdempotent` | gumtree_scraper/spiders/properties.py:39-47 | formatting a formatted description returns it unchanged |
| `Paragraph.FormatParagraphBlank` | gumtree_scraper/spiders/properties.py:39-47 | the result is empty if and only if the description is empty or all whitespace |
| `Extensions.TrackItemsItemCount` | gumtree_scraper/extensions.py:37-44 | NotConfigured exactly when MYEXT_ENABLED is not true; otherwise the item count is MYEXT_ITEMCOUNT, or 100 when unset |
| `Extensions.ProgressMessages` | gumtree_scraper/extensions.py:64-65 | the logged counts are positive multiples of item_count, no larger than the items scraped, in strictly increasing order |
| `Extensions.ProgressMessagesCount` | gumtree_scraper/extensions.py:62-65 | after n scraped items, n / abs(item_count) progress messages have been logged |
| `Extensions.ProgressMessagesAreMultiples` | gumtree_scraper/extensions.py:64-65 | a count is logged if and only if it is positive, reached, and a multiple of item_count |
| `Extensions.TrackItemsScraped.constructor` | gumtree_scraper/extensions.py:29-31 | the new extension stores the given item_count, has counted 0 items and logged nothing |
| `Extensions.TrackItemsScraped.FromCrawler` | gumtree_scraper/extensions.py:33-52 | fails with NotConfigured exactly when the gate does; otherwise a fresh extension with the gate's item_count and a zero count |
| `Extensions.TrackItemsScraped.SpiderOpened` | gumtree_scraper/extensions.py:54-56 | the count, item_count and the log are unchanged |
| `Extensions.TrackItemsScraped.SpiderClosed` | gumtree_scraper/extensions.py:58-60 | the count, item_count and the log are unchanged |
| `Extensions.TrackItemsScraped.ItemScraped` | gumtree_scraper/extensions.py:62-65 | the count grows by exactly 1, item_count is unchanged, a message with the new count is logged exactly when it is a multiple of item_count, and the log then holds count / abs(item_count) messages |
| `Extensions.LatenciesInterval` | gumtree_scraper/extensions.py:75-77 | NotConfigured exactly when LATENCIES_INTERVAL is unset or zero; otherwise the interval, which is non-zero |
| `Extensions.Average` | gumtree_scraper/extensions.py:119-120 | 0 when no item came in; otherwise the average times the item count is the sum |
| `Extensions.ItemRate` | gumtree_scraper/extensions.py:118 | the rate times the interval is the item count |
| `Extensions.Latencies.constructor` | gumtree_scraper/extensions.py:73-87 | a non-zero interval is kept and all three accumulators start at 0 |
| `Extensions.Latencies.FromCrawler` | gumtree_scraper/extensions.py:69-77 | fails with NotConfigured exactly when the interval gate does; otherwise a fresh extension with zero accumulators |
| `Extensions.Latencies.ItemScraped` | gumtree_scraper/extensions.py:103-106 | items grows by exactly 1; each latency sum grows by the time elapsed since the request was scheduled, resp. received |
| `Extensions.Latencies.ItemDropped` | gumtree_scraper/extensions.py:108-115 | no accumulator of the extension changes |
| `Extensions.Latencies.Log` | gumtree_scraper/extensions.py:117-125 | reports the item count, a rate whose product with the interval is that count, averages that are 0 for no items and otherwise multiply back to the sums; then all three accumulators are 0 |
| `Pipelines.ProcessItem` | gumtree_scraper/pipelines.py:18-19 | the item is returned unchanged |
| `Pipelines.MediaRequests` | gumtree_scraper/pipelines.py:23-28 | no URL for a missing or empty field; otherwise commas + 1 URLs, none holding a comma, whose comma-join is the field |
| `Pipelines.Split` | gumtree_scraper/pipelines.py:26 | `str.split(sep)` always yields at least one piece; `JoinSplit` and `SplitJoin` pin the pieces down completely |
| `Pipelines.SplitCount` | gumtree_scraper/pipelines.py:26 | `s.split(sep)` has one more piece than `s` has separators |
| `Pipelines.SplitPiecesHaveNoSeparator` | gumtree_scraper/pipelines.py:26 | no piece of `s.split(sep)` contains the separator |
| `Pipelines.JoinSplit` | gumtree_scraper/pipelines.py:26 | `sep.join(s.split(sep)) == s` |
| `Pipelines.SplitJoin` | gumtree_scraper/pipelines.py:26 | `sep.join(parts).split(sep) == parts` for a non-empty list of separator-free parts |
| `Pipelines.SplitTrailingSeparator` | gumtree_scraper/pipelines.py:26 | a string ending in the separator has an empty last piece |
| `Pipelines.MediaRequestsTrailingComma` | gumtree_scraper/pipelines.py:24-28 | a field ending in a comma yields a non-empty URL list whose last URL is empty |
| `Pipelines.MediaRequestsOfJoin` | gumtree_scraper/pipelines.py:23-28 | an item whose field is the non-empty comma-join of comma-free URLs yields exactly those URLs, in order |

## Left out

- `PropertiesSpider.parse_item` and `rules`: XPath extraction through Scrapy's ItemLoader, LinkExtractor and `w3lib.remove_tags`, library code outside the model.
- Logging: the text and formatting (`%d`, `%.1f`, `%.2f`) of the log lines. `TrackItemsScraped` keeps a ghost record of the logged counts, and `Latencies.Log` returns the figures of its line as a `Report`.
- Extensions.Latencies.ItemScraped: `time()` readings are parameters and the request meta times are given directly; `_request_scheduled` and `_response_received`, which only store `time()` into request meta, are not modelled.
- Signal wiring: the `crawler.signals.connect(...)` calls in `TrackItemsScraped.from_crawler` and `Latencies.__init__` are not modelled; the class methods stand for the connected handlers, and callers invoke them directly.
- `_spider_opened` / `_spider_closed` of `Latencies`: scheduling and stopping the Twisted `LoopingCall` is reactor behaviour, not modelled.
- Extensions.Average: Python floats are modelled as exact reals, so rounding is not captured; the same holds for ItemRate and Log.
- Extensions.LatenciesInterval: the interval is a real, so a NaN setting (truthy in Python) cannot be expressed; a negative interval passes the gate as in the source, and what `LoopingCall.start` then does is outside the model.
- Settings parsing: `getbool`, `getint` and `getfloat` are modelled by their already-parsed values (`None` when unset); their handling of malformed strings is not modelled.
- Extensions.TrackItemsScraped.ItemScraped: requires item_count to be non-zero; with 0 the source raises ZeroDivisionError after incrementing, which is not modelled.
- Extensions.Latencies.ItemDropped: `int(...)` of a non-integer stats value (an exception the source swallows) is not modelled; stats values are integers.
- Pipelines.MediaRequests: the field is a string or absent; `str()` of a non-string field value (Python's repr of a list) and building `scrapy.Request` objects are not modelled — a request is its URL string.
- `SetLoggingFileTerminal`, `helpers.setup_project_folders`, `settings.py` and `items.py`: logging set-up, filesystem I/O, constants and a field schema, with no logic to model.
