/** The article fetcher (`scrape_article`) and the run that ties the steps
    together (`main`): discover links, scrape each, join the non-empty
    article texts into one corpus and analyse it against the registry.
    Every call into the network or a parser is a parameter; console output
    is not modelled. */
module Scraper {
  import opened Wrappers
  import opened Text
  import opened Seqs
  import opened Links
  import opened Sentiment
  import opened Classification

  /** `scrape_article(url)`, given what fetching and parsing the page
      produced: `None` when any step raised (the exception is swallowed),
      otherwise the text of every paragraph element in document order,
      joined by newlines. The response status is not consulted. */
  function ArticleText(page: Option<seq<string>>): (text: string)
    ensures page.None? ==> text == ""
    ensures page.Some? ==>
              (text == "" <==> |page.value| == 0 || (|page.value| == 1 && page.value[0] == ""))
  {
    match page
    case None => ""
    case Some(paragraphs) =>
      JoinEmptyIff(paragraphs, "\n");
      Join(paragraphs, "\n")
  }

  /** The paragraphs can be read back from an article's text by splitting at
      newlines, provided no paragraph itself holds a newline. */
  lemma ArticleTextRoundTrip(paragraphs: seq<string>)
    requires |paragraphs| > 0
    requires forall i | 0 <= i < |paragraphs| :: '\n' !in paragraphs[i]
    ensures Split(ArticleText(Some(paragraphs)), '\n') == paragraphs
  {
    SplitJoin(paragraphs, '\n');
  }

  /** The truthiness test `if article_text:`. */
  predicate NonEmpty(text: string)
  {
    |text| > 0
  }

  /** The corpus `main` builds from the article texts: the non-empty ones,
      in order, separated by blank lines. */
  function Corpus(texts: seq<string>): string
  {
    Join(Filter(texts, NonEmpty), "\n\n")
  }

  /** The loop of `main` that keeps the non-empty article texts, followed by
      their join into the corpus. */
  method CollectCorpus(texts: seq<string>) returns (corpus: string)
    ensures corpus == Corpus(texts)
  {
    var fullTexts: seq<string> := [];
    for i := 0 to |texts|
      invariant fullTexts == Filter(texts[..i], NonEmpty)
    {
      FilterConcat(texts[..i], [texts[i]], NonEmpty);
      assert texts[..i + 1] == texts[..i] + [texts[i]];
      if texts[i] != "" {
        fullTexts := fullTexts + [texts[i]];
      }
    }
    assert texts[..|texts|] == texts;
    corpus := Join(fullTexts, "\n\n");
  }

  /** The corpus is empty exactly when every article text is. */
  lemma CorpusEmptyIff(texts: seq<string>)
    ensures Corpus(texts) == "" <==> forall i | 0 <= i < |texts| :: texts[i] == ""
  {
    var fullTexts := Filter(texts, NonEmpty);
    JoinEmptyIff(fullTexts, "\n\n");
    if |fullTexts| > 0 {
      assert fullTexts[0] in fullTexts;
      var i :| 0 <= i < |texts| && texts[i] == fullTexts[0];
    }
    if exists i | 0 <= i < |texts| :: texts[i] != "" {
      var i :| 0 <= i < |texts| && texts[i] != "";
      assert texts[i] in texts && NonEmpty(texts[i]);
      assert texts[i] in fullTexts;
    }
  }

  /** Whatever occurs in any article text occurs in the corpus. */
  lemma CorpusContains(texts: seq<string>, i: int, p: string)
    requires 0 <= i < |texts| && Contains(texts[i], p)
    ensures Contains(Corpus(texts), p)
  {
    var fullTexts := Filter(texts, NonEmpty);
    if texts[i] == "" {
      assert |p| == 0;
      assert OccursAt(Corpus(texts), p, 0);
    } else {
      assert texts[i] in texts && NonEmpty(texts[i]);
      assert texts[i] in fullTexts;
      var k :| 0 <= k < |fullTexts| && fullTexts[k] == texts[i];
      JoinContainsPart(fullTexts, "\n\n", k, p);
    }
  }

  /** The symbols of a result list, in order. */
  function ResultSymbols(results: seq<StockResult>): seq<string>
  {
    Map(results, (r: StockResult) => r.symbol)
  }

  /** One run of `main` over the registry `stocks` (the program passes
      `EnergyStocks`, which `EnergyStocksWellFormed` shows meets the
      requirement), with the feed fetches, the page fetches and the polarity
      score supplied as functions. The corpus is the non-empty article texts
      in link order, joined by blank lines; the results are that corpus's
      mention-map keys with their symbol counts. Every reported ticker can be
      looked up in the registry, all reports share one score and signal, any
      ticker whose symbol occurs in a scraped article is reported, and a run
      whose articles are all empty reports nothing. */
  method Run(stocks: seq<Stock>, fetchFeed: string -> FeedResponse,
             fetchPage: string -> Option<seq<string>>, polarity: string -> real)
      returns (links: seq<string>, corpus: string, results: seq<StockResult>)
    requires WellFormed(stocks)
    ensures (forall i | 0 <= i < |links| :: ArticleText(fetchPage(links[i])) == "") ==> results == []
    ensures forall i | 0 <= i < |results| :: results[i].symbol in Symbols(stocks)
    ensures forall i | 0 <= i < |results| ::
              && results[i].sentimentScore == polarity(corpus)
              && results[i].indicator == Classify(polarity(corpus)).Indicator()
              && results[i].suggestedAction == Classify(polarity(corpus)).Action()
    ensures forall i, k | 0 <= i < |links| && 0 <= k < |stocks| &&
                          Contains(ArticleText(fetchPage(links[i])), stocks[k].symbol) ::
              stocks[k].symbol in ResultSymbols(results)
    ensures links == ExtractLinks(fetchFeed)
    ensures corpus == Corpus(seq(|links|, i requires 0 <= i < |links| => ArticleText(fetchPage(links[i]))))
    ensures ResultSymbols(results) == MentionSymbols(Mentions(stocks, corpus))
    ensures forall i | 0 <= i < |results| :: results[i].mentions == Count(corpus, results[i].symbol)
  {
    links := ExtractLinks(fetchFeed);
    var texts := seq(|links|, i requires 0 <= i < |links| => ArticleText(fetchPage(links[i])));
    corpus := CollectCorpus(texts);
    results := AnalyzeSentiment(stocks, corpus, polarity);
    ReportedSymbolsRegistered(stocks, corpus, results);
    forall i, k | 0 <= i < |links| && 0 <= k < |stocks| &&
                  Contains(ArticleText(fetchPage(links[i])), stocks[k].symbol)
      ensures stocks[k].symbol in ResultSymbols(results)
    {
      assert texts[i] == ArticleText(fetchPage(links[i]));
      CorpusContains(texts, i, stocks[k].symbol);
      ArticleSymbolReported(stocks, corpus, results, k);
    }
    if forall i | 0 <= i < |links| :: ArticleText(fetchPage(links[i])) == "" {
      assert forall i | 0 <= i < |texts| :: texts[i] == "";
      CorpusEmptyIff(texts);
      MentionsOfEmptyText(stocks);
    }
    assert ResultSymbols(results) == MentionSymbols(Mentions(stocks, corpus));
  }

  /** The results of analysing a corpus name only registered tickers. */
  lemma ReportedSymbolsRegistered(stocks: seq<Stock>, corpus: string, results: seq<StockResult>)
    requires |results| == |Mentions(stocks, corpus)|
    requires forall i | 0 <= i < |results| :: results[i].symbol == Mentions(stocks, corpus)[i].symbol
    ensures forall i | 0 <= i < |results| :: CompanyName(stocks, results[i].symbol).Some?
  {
    var ms := Mentions(stocks, corpus);
    forall i | 0 <= i < |results|
      ensures CompanyName(stocks, results[i].symbol).Some?
    {
      assert MentionSymbols(ms)[i] == results[i].symbol;
      MentionKeysRegistered(stocks, corpus, results[i].symbol);
    }
  }

  /** A registered symbol occurring in the corpus is among the results. */
  lemma ArticleSymbolReported(stocks: seq<Stock>, corpus: string, results: seq<StockResult>, k: int)
    requires 0 <= k < |stocks|
    requires Contains(corpus, stocks[k].symbol)
    requires |results| == |Mentions(stocks, corpus)|
    requires forall i | 0 <= i < |results| :: results[i].symbol == Mentions(stocks, corpus)[i].symbol
    ensures stocks[k].symbol in ResultSymbols(results)
  {
    var symbol := stocks[k].symbol;
    MentionKeysIff(stocks, corpus, symbol);
    assert SymbolMentioned(stocks, corpus, symbol);
    var ms := Mentions(stocks, corpus);
    assert MentionSymbols(ms) == ResultSymbols(results);
  }
}
