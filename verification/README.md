# Page-quality metrics, modelled in Dafny

The repository measures how faithfully different fetching strategies ("http",
"chrome", "chrome-no-js", "chrome-no-media") reproduce a web page, writing one
12-field metrics record per URL and mode. Two harnesses compute the record: a
Scrapy spider (`QualitySpider`, with scrapy-playwright for the browser modes) and a
DrissionPage script (`compute_metrics` / `fetch_and_evaluate`). This project models
the logic the repository itself decides:

- `UrlNames` (`url_names.dfy`): `_safe_name`, the URL-to-file-stem sanitiser, as a
  chain of Python `str.replace` calls and a 200-character cut; proved equal to a
  single left-to-right pass, bounded, free of `/ ? = & ; # %`, idempotent, with its
  fixed points characterised.
- `Dom` (`dom.dfy`): the element-to-zss-`Node` adapter (both copies) and
  `_count_nodes`, over an input datatype standing for the parser's element tree.
- `TreeEdit` (`tree_edit.dfy`): `zss.simple_distance` with its default costs
  (`strdist`), stated as the ordered-forest edit distance recursion on rightmost
  roots that the Zhang-Shasha algorithm computes; identity, zero-iff-equal,
  symmetry and size bounds are proved, and inserting one leaf at any position
  and any depth is proved to cost exactly 1.
- `Metrics` (`metrics.dfy`): the metric arithmetic both harnesses share: semantic
  and ad tag counts (the ad count adds two selector counts, so an element matching
  both counts twice), `main_ratio`, the simhash gate, `garbage_rate`, the
  `"utf-8"` name test, `round(x, 3)`, and the record with its 12 JSON keys
  (empty html writes the integer 0 for `main_ratio` and `garbage_rate`).
- `Spider` (`spider.dfy`): `parse` plus `_compute_and_write`, including the
  rendered-page and `js_ratio` fallbacks and the node-count fallback of the DOM
  distance, which is proved to be the edit distance against an empty forest; the
  record's fields are stated as the metrics of the html actually measured.
- `Drission` (`drission.dfy`): `compute_metrics` and `fetch_and_evaluate`, where
  exceptions are `Err` results (no record is written).
- `Wrappers` (`wrappers.dfy`): `Option` and `Result`.

Third-party calls are the fields of `Metrics.Libraries`, total functions of their
inputs: `etree.HTML`, `BeautifulSoup(html, "lxml")`, `trafilatura.extract`,
`Simhash(text).value`, `chardet.detect(...)["encoding"]`, `str.encode("utf-8")` and
the Unicode category-C test. The browser's results (`page.content()`,
`page.evaluate(...)`, `page.html`) and the network responses are parameters; a
call that raised is `None`. Wall-clock time arrives as the elapsed seconds.

The two harnesses differ in how they fail and in what they measure:

- The spider falls back to a default when `page.content()` or `page.evaluate`
  fails, when chardet reports no encoding, and when a document does not convert to
  a tree. DrissionPage has none of these fallbacks: it raises, and writes no
  record, when chardet reports `encoding: None` (lower-casing `None` fails) and
  when a baseline exists but either document does not convert to a tree
  (`simple_distance` is handed `None`).
  `Drission.ComputeMetrics` returns `Err` in exactly these cases.
- The spider runs encoding detection on the rendered html encoded as UTF-8, not on
  the raw response bytes; DrissionPage uses the response bytes in "http" mode.
- `js_ratio` in the spider is the in-page script-element ratio (or 1.0); in
  DrissionPage it is the length ratio page/baseline (or 1.0).

## Model

| member | source | states |
|---|---|---|
| UrlNames.SafeName | Scrapy_quality_test/scrapy_playwright_test/spiders/quality_spider.py:202-205 | the stem has at most 200 characters, is never longer than the URL, and contains none of `/ ? = & ; # %` |
| UrlNames.Replace | Scrapy_quality_test/scrapy_playwright_test/spiders/quality_spider.py:203-204 | `str.replace` never lengthens a string when the replacement is no longer than the pattern, and leaves a string without the pattern unchanged |
| UrlNames.ReplaceEach | Scrapy_quality_test/scrapy_playwright_test/spiders/quality_spider.py:203-204 | replacing each pattern in turn by "_" never lengthens the URL |
| UrlNames.ReplaceOneChar | Scrapy_quality_test/scrapy_playwright_test/spiders/quality_spider.py:203-204 | `str.replace` of a one-character pattern by "_" turns exactly the occurrences of that character into "_" and keeps every other character |
| UrlNames.ReplaceEachOfChars | Scrapy_quality_test/scrapy_playwright_test/spiders/quality_spider.py:203-204 | replacing several one-character patterns in turn equals blanking all of them at once |
| UrlNames.ScanIsBlankedReplace | Scrapy_quality_test/scrapy_playwright_test/spiders/quality_spider.py:203-204 | the single pass equals replacing "://" first and then blanking the forbidden characters |
| UrlNames.SafeNameIsTruncatedScan | Scrapy_quality_test/scrapy_playwright_test/spiders/quality_spider.py:203-204 | the whole replacement chain, in the source's order, equals one left-to-right pass that emits "_" for each "://" and each forbidden character |
| UrlNames.SafeNameSinglePass | Scrapy_quality_test/scrapy_playwright_test/spiders/quality_spider.py:202-205 | `_safe_name` is that single pass cut to its first 200 characters |
| UrlNames.ScanKeepsClean | Scrapy_quality_test/scrapy_playwright_test/spiders/quality_spider.py:203-204 | the replacements leave a string with no forbidden character unchanged ("://" needs a "/") |
| UrlNames.SafeNameFixedPoints | Scrapy_quality_test/scrapy_playwright_test/spiders/quality_spider.py:202-205 | `_safe_name(url) == url` exactly when the URL has at most 200 characters and no forbidden character |
| UrlNames.SafeNameIdempotent | Scrapy_quality_test/scrapy_playwright_test/spiders/quality_spider.py:202-205 | sanitising a stem again changes nothing |
| Dom.ElementToNode | Scrapy_quality_test/scrapy_playwright_test/spiders/quality_spider.py:189-197 | the result is `None` exactly for a missing or tag-less element, and a node carries its element's tag |
| Dom.ConvertAllKeepsTaggedInOrder | DrissionPage_quality_test/test_drissionpage_quality.py:24-27 | the children loop yields one kid per tagged child, each the conversion of that child, in document order |
| Dom.ElementToNodeShape | DrissionPage_quality_test/test_drissionpage_quality.py:20-28 | `element_to_node` (same body as the spider's `_element_to_node`) is `None` exactly for missing or tag-less input, and its kids are the tagged children converted in order |
| Dom.CountNodes | Scrapy_quality_test/scrapy_playwright_test/spiders/quality_spider.py:184-187 | `_count_nodes` is 0 for a missing or tag-less element and at least 1 for a tagged one |
| Dom.CountIsConvertedSize | Scrapy_quality_test/scrapy_playwright_test/spiders/quality_spider.py:184-197 | for a present element, `_count_nodes` is the size of its converted tree, 0 when it does not convert |
| Dom.CountNodesIsTreeSize | Scrapy_quality_test/scrapy_playwright_test/spiders/quality_spider.py:184-197 | `_count_nodes(el)` is the number of nodes of `_element_to_node(el)`, and 0 when that is `None`: both skip tag-less subtrees |
| TreeEdit.Dist | Scrapy_quality_test/scrapy_playwright_test/spiders/quality_spider.py:150-156 | the edit distance is at least the node-count difference the fallback reports and at most the sum of the node counts |
| TreeEdit.TreeDistance | DrissionPage_quality_test/test_drissionpage_quality.py:64 | `simple_distance` is 0 exactly for identical trees and lies between the difference and the sum of the tree sizes |
| TreeEdit.UpdateCost | Scrapy_quality_test/scrapy_playwright_test/spiders/quality_spider.py:150-154 | zss's default relabel cost is 0 exactly for equal labels and at most 1 |
| TreeEdit.InsertCost | DrissionPage_quality_test/test_drissionpage_quality.py:64 | zss's default insert cost `strdist('', label)` is 1 for every tag name |
| TreeEdit.RemoveCost | DrissionPage_quality_test/test_drissionpage_quality.py:64 | zss's default remove cost `strdist(label, '')` is 1 for every tag name |
| TreeEdit.DistSelf | Scrapy_quality_test/scrapy_playwright_test/spiders/quality_spider.py:150-154 | a forest is at distance 0 from itself |
| TreeEdit.DistZeroOnlyForEqual | DrissionPage_quality_test/test_drissionpage_quality.py:64 | distance 0 implies the two forests are identical |
| TreeEdit.DistZeroIff | DrissionPage_quality_test/test_drissionpage_quality.py:64 | the distance is 0 if and only if the forests are identical |
| TreeEdit.DistSymmetric | Scrapy_quality_test/scrapy_playwright_test/spiders/quality_spider.py:150-154 | swapping the static and the dynamic tree does not change the distance |
| TreeEdit.DistToEmpty | Scrapy_quality_test/scrapy_playwright_test/spiders/quality_spider.py:156 | the distance to the empty forest is the node count |
| TreeEdit.AppendLeafCostsOne | DrissionPage_quality_test/test_drissionpage_quality.py:64 | appending one leaf to a forest gives distance exactly 1 |
| TreeEdit.InsertLeafCostsOne | DrissionPage_quality_test/test_drissionpage_quality.py:64 | inserting one leaf into a forest at any position and any depth gives distance exactly 1 |
| TreeEdit.TreeWithInsertedLeaf | Scrapy_quality_test/scrapy_playwright_test/spiders/quality_spider.py:150-154 | two trees that differ by one leaf inserted anywhere below the root are at distance exactly 1, in either order |
| Metrics.Round3 | DrissionPage_quality_test/test_drissionpage_quality.py:41 | `round(x, 3)` lies within 0.0005 of x, is a whole number of thousandths, and keeps [0, 1] inside [0, 1] |
| Metrics.CountWhereIsOccurrences | Scrapy_quality_test/scrapy_playwright_test/spiders/quality_spider.py:115 | counting matches in the parsed tree equals counting them along the document-order list of all elements |
| Metrics.SemanticTags | DrissionPage_quality_test/test_drissionpage_quality.py:37 | `semantic_tags` is the number of elements, in document order, tagged p, article, section, header or main, hence at most the element count |
| Metrics.AdTags | DrissionPage_quality_test/test_drissionpage_quality.py:44 | `ad_tags` is the number of iframe/ins elements plus the number of elements whose class string begins with `ad-` |
| Metrics.OccurrencesInclusionExclusion | Scrapy_quality_test/scrapy_playwright_test/spiders/quality_spider.py:118 | two rule counts added together equal the count matching either rule plus the count matching both |
| Metrics.AdTagsDoubleCounts | DrissionPage_quality_test/test_drissionpage_quality.py:44 | `ad_tags` counts each element matching either rule once and each element matching both a second time, so it is at most twice the element count |
| Metrics.MainText | DrissionPage_quality_test/test_drissionpage_quality.py:40 | a `None` extraction becomes the empty text, any other is kept |
| Metrics.MainRatio | DrissionPage_quality_test/test_drissionpage_quality.py:41 | the unrounded `main_ratio` is 0 for empty html and otherwise satisfies ratio times html length equals main-text length; it is at most 1 when the text is no longer than the html |
| Metrics.SimValue | DrissionPage_quality_test/test_drissionpage_quality.py:47 | the simhash is 0 for empty main text and Simhash's value otherwise |
| Metrics.GarbageChars | DrissionPage_quality_test/test_drissionpage_quality.py:55 | the category-C count is at most the html length, 0 exactly when no character is in category C, and the full length exactly when every character is |
| Metrics.GarbageRate | DrissionPage_quality_test/test_drissionpage_quality.py:55-56 | the unrounded `garbage_rate` lies in [0, 1], is 0 for empty html or no category-C character, 1 when every character is in category C, and times the length gives the count |
| Metrics.AsciiLower | Scrapy_quality_test/scrapy_playwright_test/spiders/quality_spider.py:161 | lower-casing keeps the length, leaves no upper-case ASCII letter, keeps every other character and maps each upper-case letter to its lower-case partner |
| Metrics.LowerIsUtf8Iff | DrissionPage_quality_test/test_drissionpage_quality.py:51-52 | a name lower-cases to "utf-8" exactly when it is one of the spellings u/U, t/T, f/F, "-", "8" |
| Metrics.NameMismatch | DrissionPage_quality_test/test_drissionpage_quality.py:51-52 | the mismatch flag is 0 or 1, and 0 exactly for the eight case spellings of "utf-8" |
| Metrics.RatioValue | DrissionPage_quality_test/test_drissionpage_quality.py:41 | a ratio field is written as the integer 0 for empty html and as the rounded number otherwise |
| Metrics.DistanceValue | DrissionPage_quality_test/test_drissionpage_quality.py:59-66 | the DOM distance is written as a float when `simple_distance` computed it and as an integer for the sentinels and the node-count fallback |
| Metrics.ToJson | DrissionPage_quality_test/test_drissionpage_quality.py:74-87 | the written dictionary has exactly the 12 listed keys, each holding its field; `main_ratio` and `garbage_rate` are the integer 0 for empty html, `dom_distance` is a float exactly when zss computed it, and `url` is null when absent |
| Spider.InPageJsRatio | Scrapy_quality_test/scrapy_playwright_test/spiders/quality_spider.py:92-98 | the in-page ratio is 1.0 for an empty document, otherwise scripts over elements, and within [0, 1] when scripts are among the elements |
| Spider.Render | Scrapy_quality_test/scrapy_playwright_test/spiders/quality_spider.py:84-108 | without a page the raw html is used with `js_ratio` 1.0; a failed `page.content()` falls back to the raw html and a failed `page.evaluate` to 1.0 |
| Spider.FallbackIsForestDistance | Scrapy_quality_test/scrapy_playwright_test/spiders/quality_spider.py:156 | when either document does not convert, the node-count difference equals the edit distance between the converted documents, the missing one counting as empty |
| Spider.DomDistance | Scrapy_quality_test/scrapy_playwright_test/spiders/quality_spider.py:142-156 | the DOM distance is 0 in "http" mode and otherwise, fallback included, the edit distance between the converted documents, a document that does not convert counting as empty |
| Spider.DomDistanceZeroIffSameTree | Scrapy_quality_test/scrapy_playwright_test/spiders/quality_spider.py:142-156 | outside "http" mode the distance is 0 exactly when both documents convert to the same tree or neither converts, and it is symmetric in raw and rendered html |
| Spider.DomDistanceBounds | Scrapy_quality_test/scrapy_playwright_test/spiders/quality_spider.py:142-156 | the distance lies between the node-count difference and the node-count sum |
| Spider.IdenticalDocumentsHaveNoDistance | Scrapy_quality_test/scrapy_playwright_test/spiders/quality_spider.py:142-156 | identical raw and rendered html give distance 0 in every mode |
| Spider.EncodingError | Scrapy_quality_test/scrapy_playwright_test/spiders/quality_spider.py:159-161 | a missing or `None` encoding is an error (1); a name is no error (0) exactly when it is one of the case spellings of "utf-8" |
| Spider.MeasuredHtml | Scrapy_quality_test/scrapy_playwright_test/spiders/quality_spider.py:84-108 | the measured html is the browser's content when a browser page was requested and delivered it, and the raw response otherwise |
| Spider.Evaluate | Scrapy_quality_test/scrapy_playwright_test/spiders/quality_spider.py:74-179 | every field is the metric of the measured html: its length, tag counts, main-text ratio and simhash, garbage rate, encoding flag of its UTF-8 bytes and DOM distance from the raw html; `js_ratio` is the rounded in-page ratio or 1.0; in "http" mode and when `page.content()` failed the DOM distance is 0 |
| Spider.HttpPageScenario | Scrapy_quality_test/scrapy_playwright_test/spiders/quality_spider.py:113-179 | an "http" page parsed as html/body/p, reported "utf-8" and free of control characters gives 1 semantic tag, 0 ad tags, DOM distance 0, no encoding error, garbage 0 and `js_ratio` 1.0 |
| Drission.EncodingError | DrissionPage_quality_test/test_drissionpage_quality.py:50-52 | a missing key gives 1, an explicit `None` raises, and a name gives 0 exactly when it is "utf-8" up to ASCII case |
| Drission.DomDistance | DrissionPage_quality_test/test_drissionpage_quality.py:59-66 | without a truthy baseline the distance is 0; with one it succeeds exactly when both documents convert to trees, is then the tree distance from baseline to page, and raises otherwise |
| Drission.DomDistanceZeroIffSameTree | DrissionPage_quality_test/test_drissionpage_quality.py:59-64 | with a baseline, the distance is 0 exactly when page and baseline convert to the same tree |
| Drission.DomDistanceSymmetric | DrissionPage_quality_test/test_drissionpage_quality.py:59-64 | with a non-empty page and baseline, swapping them does not change the outcome |
| Drission.JsRatio | DrissionPage_quality_test/test_drissionpage_quality.py:68-72 | without a truthy baseline `js_ratio` is 1.0; with one it is page length over baseline length to within rounding, 1.0 for equal lengths and within [0, 1] when the page is no longer |
| Drission.ComputeMetrics | DrissionPage_quality_test/test_drissionpage_quality.py:30-87 | it raises exactly when chardet reports `None` or a present baseline leaves a document without a tree (the encoding error first); a record has no URL yet and every field is the metric of the page html, with the encoding flag of the response bytes, the tree distance from the baseline and the length ratio to it; DOM distance 0 and `js_ratio` 1.0 without a baseline or with an identical one |
| Drission.FetchAndEvaluate | DrissionPage_quality_test/test_drissionpage_quality.py:89-117 | "http" records measure the HTTP response text and bytes, with DOM distance 0 and `js_ratio` 1.0; browser records measure the browser html and its UTF-8 bytes against the baseline, failing exactly when the encoding is null or a present baseline leaves a document without a tree; the DOM distance is written as a float exactly for browser records with a truthy baseline; the record gets the URL |

## Left out

- Network, browser and framework plumbing: Scrapy requests and errbacks, Playwright
  page methods (networkidle wait, media blocking), `page.close()`, DrissionPage
  `ChromiumPage` options, `requests.get`, `deferToThread`. Their results are
  parameters; only which mode asks for a browser page and a baseline is modelled.
- Concurrency (`ThreadPoolExecutor`, Scrapy's request concurrency): every metric is
  a pure function of its inputs.
- File output: the `_raw.html`/`_rendered.html` dumps, the JSONL append and
  `os.makedirs`. The record and its key set are modelled; JSON text is not.
- `run_quality_test.py` (command line, crawler start-up, URL file reading) and
  `load_urls` / `main` in the DrissionPage script: I/O and argument parsing.
- The libraries' own logic: HTML parsing by lxml and BeautifulSoup, trafilatura's
  extraction, Simhash hashing, chardet's detection, the Unicode category table,
  `str.encode`, and CSS selector evaluation beyond the class-prefix rule. zss's
  dynamic programme is replaced by the edit-distance recursion it computes.
- Exceptions raised by the parsers themselves and by the spider's
  `_compute_and_write` (for example lxml's `ValueError` on a string that starts
  with an XML encoding declaration, which ends `_compute_and_write` without a
  record): the parse results are inputs, and a parser returning `None` is modelled.
- lxml gives comments and processing instructions a non-string `tag`; here every
  tag is a non-empty name, so such nodes must be represented by names of their own.
- Metrics.Round3: rounds the exact rational quotient, while Python rounds the
  binary float quotient; the two can differ when the quotient lies within float
  error of a half-thousandth.
- Metrics.AsciiLower / Metrics.NameMismatch: lower-cases ASCII letters only; Python's `str.lower` also
  folds other letters, none of which lower-case to a character of "utf-8".
- Python strings may hold lone surrogates (category Cs, so counted as garbage, and
  dropped by the spider's `encode("utf-8", "ignore")`); a Dafny `char` cannot be a
  surrogate, so such pages are outside the model.
- Metrics.ToJson: `js_ratio` and `load_time` are written as numbers; whether Python
  holds an int or a float there (a browser script returning 1, say) is not
  distinguished.
- Spider.Evaluate: `load_time` is the elapsed seconds passed in, rounded; the clock
  readings are not modelled.
- Drission.FetchAndEvaluate: an exception from `requests.get` or the browser in the
  page fetch itself is not modelled (the page html and bytes are inputs).
