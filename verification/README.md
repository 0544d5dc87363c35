# Energy-stock news scraper: a Dafny model of its decision logic

The scraper reads a fixed list of RSS feeds, collects article links, scrapes
the paragraph text of every article, joins the texts into one corpus, and
reports for each energy-sector ticker it finds a mention count, one corpus-wide
polarity score and a trading signal (indicator and suggested action).

This project models the deterministic part of that pipeline in `scraper.py`:

- `links.dfy` (module `Links`) models how `extract_links_from_rss` picks links. A feed with
  entries contributes its entry links minus any link containing an excluded
  domain. A feed with no entries falls back to its HTML anchors, which must also
  contain `"http"`. A non-200 response contributes nothing. Feeds are
  concatenated in configured order.
- `sentiment.dfy` (module `Sentiment`) holds the ticker registry and the
  mention map of `analyze_sentiment`. It also holds the loop that builds one
  result record per mentioned ticker.
- `classification.dfy` (module `Classification`) holds the five-band
  threshold classification and its indicator/action labels.
- `scraper.dfy` (module `Scraper`) models `scrape_article`'s paragraph join,
  `main`'s corpus assembly, and one whole run.
- `text.dfy` (module `Text`) gives Python's string `in`, `str.count` and `str.join`.
  It also has a one-character `split` as the inverse of `join`.
- `seqs.dfy` (module `Seqs`) holds the order-preserving filter behind the
  program's `if ...: append` loops.
- `wrappers.dfy` holds `Option`.

External calls become parameters:

- A fetched feed is a `FeedResponse`: the status code, the entry links the
  feed parser found, and the anchor hrefs the HTML parser found.
- A scraped page is an `Option<seq<string>>`. It is `None` when fetching or
  parsing raised, otherwise the paragraph texts in document order.
- The polarity score is a function `string -> real`.

## Model

| member | source | states |
|---|---|---|
| Links.FeedLinks | scraper.py:57-73 | A non-200 response yields no links. A feed with entries yields exactly its non-excluded entry links, with no "http" test. A feed without entries yields exactly those anchors that contain "http" and no excluded domain. No output link is excluded. |
| Links.FeedLinksMultiplicity | scraper.py:64-71 | Each link appears in a feed's output exactly as often as among the entries or anchors it came from when it passes the filter, and never otherwise. Duplicates are kept, nothing is invented. |
| Links.LinksOf | scraper.py:56-74 | The links of all feeds: no excluded link. Every link comes from some feed's output, and every link of every feed's output appears. |
| Links.LinksOfConcat | scraper.py:57-71 | Links of a feed list split in two are the first part's links followed by the second's, so feed order is kept. |
| Links.ExtractLinksSingleFeed | scraper.py:8-10 | With the single configured feed, the result is that feed's links. |
| Links.NotExcludedExample | scraper.py:12 | The link "http://example.com/a" contains none of the six excluded domains; in particular its only 'x' is not followed by ".com". |
| Links.FallbackScenario | scraper.py:64-67 | The HTML fallback over an absolute link and a facebook.com link keeps only the absolute link. |
| Links.RelativeLinkScenario | scraper.py:64-71 | A relative link is kept as a feed entry and dropped as an anchor, because only the fallback requires "http". |
| Seqs.Filter | scraper.py:65-71 | The kept elements are exactly the input elements satisfying the test, and the result is no longer than the input. |
| Seqs.FilterConcat | scraper.py:65-71 | Filtering distributes over concatenation, so relative order is preserved. |
| Seqs.FilterMultiplicity | scraper.py:65-71 | Filtering keeps every copy of a retained value. |
| Text.CountScan | scraper.py:89 | The left-to-right scan of `str.count`, which counts a match and resumes after it, computes the recursive non-overlapping count. |
| Text.CountPositiveIffContains | scraper.py:89 | For a non-empty symbol, `text.count(symbol) > 0` holds exactly when `symbol in text`. |
| Text.CountBound | scraper.py:89 | Counted occurrences do not overlap: count times pattern length is at most the text length. |
| Text.CountLeadingMatch | scraper.py:89 | A match at the front is counted once and skipped whole. |
| Text.CountSkipChar | scraper.py:89 | A leading character that cannot start the pattern is skipped without counting. |
| Text.ContainsStep | scraper.py:89 | An occurrence is either at the front or in the rest of the string. |
| Text.ContainsConcat | scraper.py:134 | An occurrence survives being embedded in a longer string, on either side. |
| Text.NotContainsByChar | scraper.py:66 | A string lacking some character of a pattern does not contain it. |
| Text.Join | scraper.py:82 | A join of no parts is empty. Otherwise its length is the parts' total length plus one separator between each neighbouring pair. |
| Text.JoinContainsPart | scraper.py:134 | Whatever occurs in a part occurs in the join. |
| Text.JoinEmptyIff | scraper.py:82 | With a non-empty separator, a join is empty exactly when it has no parts or a single empty part. |
| Text.Split | scraper.py:82 | The one-character split used as the inverse of join: never empty, and no piece contains the separator. |
| Text.SplitJoin | scraper.py:82 | Splitting a newline join of newline-free parts gives back the parts. |
| Text.JoinSplit | scraper.py:82 | Joining the pieces of a split with the separator restores the string. |
| Text.SplitNoSeparator | scraper.py:82 | A separator-free string splits into itself alone. |
| Text.SplitFirst | scraper.py:82 | Splitting `x + sep + y` with separator-free `x` yields `x` followed by the split of `y`. |
| Classification.Classify | scraper.py:95-109 | The five bands: above 0.3 is Strong Bullish; 0.1 to 0.3 inclusive is Moderate Bullish; from -0.1 up to but excluding 0.1 is Neutral; from -0.3 up to but excluding -0.1 is Moderate Bearish; below -0.3 is Strong Bearish. Each is an if-and-only-if, so the bands cover every score exactly once. |
| Classification.ClassifyMonotone | scraper.py:95-109 | A higher score never gives a more bearish signal. |
| Classification.BoundaryScores | scraper.py:98-104 | 0.1 and 0.3 classify as Moderate Bullish, -0.1 as Neutral, -0.3 as Moderate Bearish. |
| Classification.SignalOfIndicator | scraper.py:96-108 | A signal read back from an indicator label has that label. |
| Classification.SignalOfAction | scraper.py:97-109 | A signal read back from an action label has that action. |
| Classification.LabelsRoundTrip | scraper.py:95-109 | Reading a signal's indicator or action back gives the same signal. |
| Classification.LabelsInjective | scraper.py:95-109 | Indicator and action are in one-to-one correspondence with the signal, and so with each other. |
| Sentiment.CompanyName | scraper.py:137 | Looking a symbol up in the registry succeeds exactly when it is registered, and returns a name registered under it. |
| Sentiment.EnergyStocksWellFormed | scraper.py:15-52 | Every registered symbol and company name is non-empty, and no symbol is registered twice. |
| Sentiment.Mentions | scraper.py:89 | Each mention-map entry's count is the non-overlapping count of its symbol in the text. The map has at most one entry per registry entry. |
| Sentiment.MentionKeysIff | scraper.py:89 | A symbol is a key of the mention map exactly when a stock registered under it has its symbol or its company name in the text. |
| Sentiment.MentionKeysRegistered | scraper.py:89 | Every key of the mention map is a registered symbol, so its registry lookup succeeds. |
| Sentiment.MentionsConcat | scraper.py:89 | The mention map of a split registry is the first part's map followed by the second's, so keys follow registry order. |
| Sentiment.MentionKeysDistinct | scraper.py:89 | When registry symbols are distinct, so are the mention-map keys. |
| Sentiment.MentionCountPositiveIff | scraper.py:89 | A mention's count is positive exactly when its symbol itself occurs. |
| Sentiment.NameOnlyMention | scraper.py:89 | A stock whose name occurs but whose symbol does not is a key with count 0. |
| Sentiment.ExxonNameOnly | scraper.py:16 | For a text containing "Exxon Mobil" but not "XOM", the first registry entry contributes the mention-map entry XOM with zero mentions. |
| Sentiment.ExxonHeadsMentions | scraper.py:89 | For a text containing "Exxon Mobil" but not "XOM", XOM with zero mentions is the first entry of the mention map of the whole registry. |
| Sentiment.ThreeMentionsScenario | scraper.py:89 | "CVX CVX CVX" counts CVX three times. |
| Sentiment.MentionsOfEmptyText | scraper.py:89 | An empty text mentions no stock of a well-formed registry. |
| Sentiment.AnalyzeSentiment | scraper.py:92-117 | One record per mention-map key, in key order. Each carries its symbol's count, and every record carries the same score (the polarity of the whole text) and the indicator and action that score classifies to. |
| Scraper.ArticleText | scraper.py:76-85 | A failed fetch or parse gives "". Otherwise the text is empty exactly when there are no paragraphs or a single empty one. |
| Scraper.ArticleTextRoundTrip | scraper.py:81-82 | The paragraphs are recovered by splitting the article text at newlines, when no paragraph contains a newline. |
| Scraper.CollectCorpus | scraper.py:124-134 | The loop that collects article texts keeps exactly the non-empty ones, in order, and the corpus is their join with a blank line between neighbours. |
| Scraper.CorpusEmptyIff | scraper.py:130-134 | The corpus is empty exactly when every article text is empty. |
| Scraper.CorpusContains | scraper.py:130-134 | Whatever occurs in any article text occurs in the corpus. |
| Scraper.Run | scraper.py:119-137 | In one run over a well-formed registry: the links are those link extraction yields; the corpus is the non-empty article texts of those links, in link order, joined by a blank line; the reported tickers are exactly the corpus's mention-map keys, in order, each with its symbol's count. Every reported ticker is a registered symbol, so the report's name lookup succeeds. All reports share the corpus score, indicator and action. Any ticker whose symbol occurs in a scraped article is reported. A run whose articles are all empty reports nothing. |
| Scraper.ReportedSymbolsRegistered | scraper.py:137 | Every symbol in the results of analysing a corpus can be looked up in the registry. |
| Scraper.ArticleSymbolReported | scraper.py:89 | A registered symbol occurring in the corpus is among the reported symbols. |

## Left out

- HTTP fetching (`requests.get`, its headers and the 10-second timeout) is not modelled. The model takes the status code and the parsed contents as inputs.
- Scraper.Run models only runs in which every feed fetch returns a response. The feed request at scraper.py:59 has no `try` and no timeout. An exception there escapes `extract_links_from_rss` and ends `main` with no report, and a stalled server blocks the run forever; neither outcome is represented.
- Scraper.Run takes `fetchFeed` and `fetchPage` as pure functions of the URL, so a link that appears twice is modelled as fetching the same page both times.
- Feed parsing and HTML parsing (`feedparser`, `BeautifulSoup`) are not modelled. Their outputs enter as sequences of strings: entry links, anchor hrefs, paragraph texts. A feed entry without a `link` attribute, which would raise in the source, is not represented.
- The TextBlob polarity computation is a foreign, floating-point library. It enters as a function from text to a real number.
- Classification.Classify compares against the exact reals 1/10 and 3/10. The program compares floats against the nearest doubles to 0.1 and 0.3, so scores between a real threshold and its double are not distinguished.
- All printing, including the `:.2f` score format and the progress lines, is console output and is not modelled. The report's registry lookup (line 137) is modelled through `CompanyName`.
- `main` runs with the fixed registry; `Scraper.Run` takes the registry as a parameter and requires it well formed, which `Sentiment.EnergyStocksWellFormed` establishes for the program's registry.
- Exception handling in `scrape_article` is represented only by its outcome: a failed fetch or parse gives the empty text.
- The mention map and the results dictionary are modelled as sequences in insertion order. `MentionKeysDistinct` shows that their keys are unique.

## Notes on the source

- The third classification test is written `-0.1 <= sentiment_score <= 0.1` (line 101). A score of exactly 0.1 is already taken by the `0.1 <= ... <= 0.3` test on line 98, so the effective Neutral band is `-0.1 <= score < 0.1`. `Classify` states that band.
- The feed fetch in `extract_links_from_rss` (line 59) is not guarded: unlike `scrape_article`, it has no `try` and no timeout, so one failing feed source aborts the whole run instead of being skipped.
- `scrape_article` does not check the response status. The body of a non-200 response is parsed like any other, so only an exception yields the empty text. `ArticleText` follows the code.
- The mention count is the count of the ticker symbol alone, while inclusion also accepts the company name. A ticker can therefore be reported with zero mentions. `ExxonNameOnly` and `NameOnlyMention` state this.
- Exclusion is a plain substring test. "x.com" therefore also drops any link whose text contains it, for example a host ending in "...x.com".
