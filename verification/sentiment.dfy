/** Per-ticker analysis (`analyze_sentiment`): which registered stocks the
    corpus mentions, how often their symbol occurs, and the record kept for
    each. The polarity score comes from a sentiment library that is not
    modelled; it enters as a function from text to score. */
module Sentiment {
  import opened Wrappers
  import opened Text
  import opened Seqs
  import opened Classification

  /** A registry entry: ticker symbol and company display name. */
  datatype Stock = Stock(symbol: string, name: string)

  /** `ENERGY_STOCKS`, in the order the program lists it. */
  const EnergyStocks: seq<Stock> := [
    Stock("XOM", "Exxon Mobil"),
    Stock("CVX", "Chevron"),
    Stock("COP", "ConocoPhillips"),
    Stock("EOG", "EOG Resources"),
    Stock("PXD", "Pioneer Natural Resources"),
    Stock("MPC", "Marathon Petroleum"),
    Stock("PSX", "Phillips 66"),
    Stock("OXY", "Occidental Petroleum"),
    Stock("VLO", "Valero Energy"),
    Stock("HES", "Hess Corporation"),
    Stock("SLB", "Schlumberger"),
    Stock("BKR", "Baker Hughes"),
    Stock("HAL", "Halliburton"),
    Stock("FANG", "Diamondback Energy"),
    Stock("WMB", "Williams Companies"),
    Stock("KMI", "Kinder Morgan"),
    Stock("OKE", "ONEOK"),
    Stock("ET", "Energy Transfer"),
    Stock("EPD", "Enterprise Products Partners"),
    Stock("LNG", "Cheniere Energy"),
    Stock("MRO", "Marathon Oil"),
    Stock("DVN", "Devon Energy"),
    Stock("APA", "APA Corporation"),
    Stock("CTRA", "Coterra Energy"),
    Stock("BCEI", "Bonanza Creek Energy"),
    Stock("ENB", "Enbridge"),
    Stock("TRP", "TC Energy"),
    Stock("TELL", "Tellurian"),
    Stock("CHX", "ChampionX Corporation"),
    Stock("CVE", "Cenovus Energy"),
    Stock("SU", "Suncor Energy"),
    Stock("IMO", "Imperial Oil"),
    Stock("RRC", "Range Resources"),
    Stock("SWN", "Southwestern Energy"),
    Stock("AR", "Antero Resources"),
    Stock("EQT", "EQT Corporation")
  ]

  /** The symbols of a registry, in order. */
  function Symbols(stocks: seq<Stock>): seq<string>
  {
    Map(stocks, (s: Stock) => s.symbol)
  }

  /** A registry with no symbol or name empty, and no symbol registered twice
      (the registry is a dictionary keyed by symbol). */
  predicate WellFormed(stocks: seq<Stock>)
  {
    && (forall i | 0 <= i < |stocks| :: |stocks[i].symbol| > 0 && |stocks[i].name| > 0)
    && (forall i, j | 0 <= i < j < |stocks| :: stocks[i].symbol != stocks[j].symbol)
  }

  /** `ENERGY_STOCKS[symbol]`: the name registered under `symbol`, if any. */
  function CompanyName(stocks: seq<Stock>, symbol: string): (r: Option<string>)
    ensures r.Some? <==> symbol in Symbols(stocks)
    ensures r.Some? ==> Stock(symbol, r.value) in stocks
    decreases |stocks|
  {
    if |stocks| == 0 then None
    else if stocks[0].symbol == symbol then Some(stocks[0].name)
    else
      var r := CompanyName(stocks[1..], symbol);
      assert Symbols(stocks) == [stocks[0].symbol] + Symbols(stocks[1..]);
      r
  }

  /** The inclusion test of the mention map: the symbol or the company name
      occurs in the text. */
  predicate Mentioned(s: Stock, text: string)
  {
    Contains(text, s.symbol) || Contains(text, s.name)
  }

  /** One entry of the mention map: a symbol and its occurrence count. */
  datatype Mention = Mention(symbol: string, count: nat)

  /** The keys of a mention map, in insertion order. */
  function MentionSymbols(ms: seq<Mention>): seq<string>
  {
    Map(ms, (m: Mention) => m.symbol)
  }

  /** The dictionary comprehension building `stock_mentions`: in registry
      order, every stock whose symbol or name occurs in the text, paired
      with the number of non-overlapping occurrences of its symbol alone. */
  function Mentions(stocks: seq<Stock>, text: string): (r: seq<Mention>)
    ensures |r| <= |stocks|
    ensures forall m | m in r :: m.count == Count(text, m.symbol)
    decreases |stocks|
  {
    if |stocks| == 0 then []
    else
      var s := stocks[0];
      var rest := Mentions(stocks[1..], text);
      if Mentioned(s, text) then [Mention(s.symbol, Count(text, s.symbol))] + rest else rest
  }

  /** Some stock registered under `symbol` is mentioned in the text. */
  predicate SymbolMentioned(stocks: seq<Stock>, text: string, symbol: string)
  {
    exists i | 0 <= i < |stocks| :: stocks[i].symbol == symbol && Mentioned(stocks[i], text)
  }

  /** A symbol is a key of the mention map exactly when a stock registered
      under it has its symbol or its name in the text. */
  lemma {:induction false} MentionKeysIff(stocks: seq<Stock>, text: string, symbol: string)
    ensures symbol in MentionSymbols(Mentions(stocks, text)) <==> SymbolMentioned(stocks, text, symbol)
    decreases |stocks|
  {
    if |stocks| > 0 {
      var s := stocks[0];
      var tail := stocks[1..];
      var rest := Mentions(tail, text);
      MentionKeysIff(tail, text, symbol);
      if Mentioned(s, text) {
        assert MentionSymbols(Mentions(stocks, text)) == [s.symbol] + MentionSymbols(rest);
      }
      if SymbolMentioned(stocks, text, symbol) && !(s.symbol == symbol && Mentioned(s, text)) {
        var i :| 0 <= i < |stocks| && stocks[i].symbol == symbol && Mentioned(stocks[i], text);
        assert tail[i - 1] == stocks[i];
      }
      if SymbolMentioned(tail, text, symbol) {
        var i :| 0 <= i < |tail| && tail[i].symbol == symbol && Mentioned(tail[i], text);
        assert stocks[i + 1] == tail[i];
      }
    }
  }

  /** Every key of the mention map is a registered symbol. */
  lemma MentionKeysRegistered(stocks: seq<Stock>, text: string, symbol: string)
    requires symbol in MentionSymbols(Mentions(stocks, text))
    ensures symbol in Symbols(stocks)
    ensures CompanyName(stocks, symbol).Some?
  {
    MentionKeysIff(stocks, text, symbol);
    var i :| 0 <= i < |stocks| && stocks[i].symbol == symbol && Mentioned(stocks[i], text);
    assert Symbols(stocks)[i] == symbol;
  }

  /** The mention map of a registry split in two is the map of the first
      part followed by that of the second: keys keep registry order. */
  lemma {:induction false} MentionsConcat(a: seq<Stock>, b: seq<Stock>, text: string)
    ensures Mentions(a + b, text) == Mentions(a, text) + Mentions(b, text)
    decreases |a|
  {
    if |a| == 0 {
      assert a + b == b;
    } else {
      assert (a + b)[1..] == a[1..] + b;
      MentionsConcat(a[1..], b, text);
    }
  }

  /** A mention's count is positive exactly when its symbol occurs; it is
      zero when only the company name occurs. */
  lemma MentionCountPositiveIff(stocks: seq<Stock>, text: string, m: Mention)
    requires m in Mentions(stocks, text)
    ensures m.count > 0 <==> Contains(text, m.symbol)
  {
    if |m.symbol| > 0 {
      CountPositiveIffContains(text, m.symbol);
    } else {
      assert OccursAt(text, m.symbol, 0);
    }
  }

  /** A stock named in the text without its symbol is still a key of the
      mention map, with a count of zero. */
  lemma NameOnlyMention(stocks: seq<Stock>, text: string, i: int)
    requires WellFormed(stocks)
    requires 0 <= i < |stocks|
    requires Contains(text, stocks[i].name) && !Contains(text, stocks[i].symbol)
    ensures Mention(stocks[i].symbol, 0) in Mentions(stocks, text)
  {
    var symbol := stocks[i].symbol;
    var r := Mentions(stocks, text);
    MentionKeysIff(stocks, text, symbol);
    var k :| 0 <= k < |r| && MentionSymbols(r)[k] == symbol;
    assert r[k] in r;
    CountPositiveIffContains(text, symbol);
    assert r[k] == Mention(symbol, 0);
  }

  /** Distinct registry symbols give distinct mention-map keys. */
  lemma {:induction false} MentionKeysDistinct(stocks: seq<Stock>, text: string)
    requires WellFormed(stocks)
    ensures forall i, j | 0 <= i < j < |Mentions(stocks, text)| ::
              Mentions(stocks, text)[i].symbol != Mentions(stocks, text)[j].symbol
    decreases |stocks|
  {
    if |stocks| > 0 {
      var tail := stocks[1..];
      assert WellFormed(tail) by {
        forall i, j | 0 <= i < j < |tail|
          ensures tail[i].symbol != tail[j].symbol
        {
          assert tail[i] == stocks[i + 1] && tail[j] == stocks[j + 1];
        }
      }
      MentionKeysDistinct(tail, text);
      assert forall t | t in tail :: t.symbol != stocks[0].symbol by {
        forall t | t in tail
          ensures t.symbol != stocks[0].symbol
        {
          var k :| 0 <= k < |tail| && tail[k] == t;
          assert t == stocks[k + 1];
        }
      }
      var rest := Mentions(tail, text);
      forall k | 0 <= k < |rest|
        ensures rest[k].symbol != stocks[0].symbol
      {
        assert MentionSymbols(rest)[k] == rest[k].symbol;
        MentionKeysRegistered(tail, text, rest[k].symbol);
        var j :| 0 <= j < |tail| && Symbols(tail)[j] == rest[k].symbol;
        assert tail[j] in tail;
      }
    }
  }

  /** The registered symbols, in registry order, as plain strings. This list
      exists only to keep the distinctness proof small; `EnergySymbolsMatch`
      shows it agrees with `EnergyStocks`. */
  const EnergySymbols: seq<string> := [
    "XOM", "CVX", "COP", "EOG", "PXD", "MPC", "PSX", "OXY", "VLO", "HES", "SLB", "BKR",
    "HAL", "FANG", "WMB", "KMI", "OKE", "ET", "EPD", "LNG", "MRO", "DVN", "APA", "CTRA",
    "BCEI", "ENB", "TRP", "TELL", "CHX", "CVE", "SU", "IMO", "RRC", "SWN", "AR", "EQT"]

  lemma EnergySymbolsMatch()
    ensures |EnergyStocks| == |EnergySymbols|
    ensures forall i | 0 <= i < |EnergySymbols| :: EnergyStocks[i].symbol == EnergySymbols[i]
  {
  }

  lemma EnergySymbolsNonEmpty()
    ensures forall i | 0 <= i < |EnergySymbols| :: |EnergySymbols[i]| > 0
  {
  }

  /** No two symbols in the same third of the registry are equal, ... */
  lemma SymbolsDistinctWithin(lo: int)
    requires lo == 0 || lo == 12 || lo == 24
    ensures forall i, j | lo <= i < j < lo + 12 :: EnergySymbols[i] != EnergySymbols[j]
  {
  }

  /** ... nor two symbols from different thirds. */
  lemma SymbolsDistinctFirstSecond()
    ensures forall i, j | 0 <= i < 12 <= j < 24 :: EnergySymbols[i] != EnergySymbols[j]
  {
  }

  lemma SymbolsDistinctFirstThird()
    ensures forall i, j | 0 <= i < 12 && 24 <= j < 36 :: EnergySymbols[i] != EnergySymbols[j]
  {
  }

  lemma SymbolsDistinctSecondThird()
    ensures forall i, j | 12 <= i < 24 <= j < 36 :: EnergySymbols[i] != EnergySymbols[j]
  {
  }

  /** No symbol is registered twice. */
  lemma EnergySymbolsDistinct()
    ensures forall i, j | 0 <= i < j < |EnergySymbols| :: EnergySymbols[i] != EnergySymbols[j]
  {
    SymbolsDistinctWithin(0);
    SymbolsDistinctWithin(12);
    SymbolsDistinctWithin(24);
    SymbolsDistinctFirstSecond();
    SymbolsDistinctFirstThird();
    SymbolsDistinctSecondThird();
  }

  lemma EnergyNamesNonEmpty()
    ensures forall i | 0 <= i < |EnergyStocks| :: |EnergyStocks[i].name| > 0
  {
  }

  /** Every registered symbol and name is non-empty, and no symbol appears
      twice. */
  lemma EnergyStocksWellFormed()
    ensures WellFormed(EnergyStocks)
  {
    EnergySymbolsMatch();
    EnergySymbolsNonEmpty();
    EnergySymbolsDistinct();
    EnergyNamesNonEmpty();
  }

  /** An empty text mentions nothing, since no symbol or name is empty. */
  lemma {:induction false} MentionsOfEmptyText(stocks: seq<Stock>)
    requires WellFormed(stocks)
    ensures Mentions(stocks, "") == []
    decreases |stocks|
  {
    if |stocks| > 0 {
      var tail := stocks[1..];
      assert WellFormed(tail) by {
        forall i, j | 0 <= i < j < |tail|
          ensures tail[i].symbol != tail[j].symbol
        {
          assert tail[i] == stocks[i + 1] && tail[j] == stocks[j + 1];
        }
      }
      MentionsOfEmptyText(tail);
      NotContainsByChar("", stocks[0].symbol, 0);
      NotContainsByChar("", stocks[0].name, 0);
    }
  }

  /** A corpus naming Exxon Mobil without its ticker gets, from the first
      registry entry, the mention-map entry XOM with zero mentions. */
  lemma ExxonNameOnly(text: string)
    requires Contains(text, "Exxon Mobil") && !Contains(text, "XOM")
    ensures Mentions(EnergyStocks[..1], text) == [Mention("XOM", 0)]
  {
    var first := EnergyStocks[..1];
    assert EnergyStocks[0] == Stock("XOM", "Exxon Mobil");
    assert |first| == 1 && first[0] == EnergyStocks[0];
    assert Mentioned(first[0], text);
    CountPositiveIffContains(text, "XOM");
    assert first[1..] == [];
  }

  /** That entry heads the mention map of the whole registry, since the map
      of a registry is the map of its first entry followed by the rest's. */
  lemma ExxonHeadsMentions(text: string)
    requires Contains(text, "Exxon Mobil") && !Contains(text, "XOM")
    ensures |Mentions(EnergyStocks, text)| > 0
    ensures Mentions(EnergyStocks, text)[0] == Mention("XOM", 0)
  {
    ExxonNameOnly(text);
    MentionsConcat(EnergyStocks[..1], EnergyStocks[1..], text);
    assert EnergyStocks[..1] + EnergyStocks[1..] == EnergyStocks;
  }

  /** Three separate occurrences of CVX are counted three times. */
  lemma ThreeMentionsScenario()
    ensures Count("CVX CVX CVX", "CVX") == 3
  {
    var p := "CVX";
    assert "CVX CVX CVX" == p + (" " + (p + (" " + (p + ""))));
    CountLeadingMatch(p, " " + (p + (" " + (p + ""))));
    CountSkipChar(' ', p + (" " + (p + "")), p);
    CountLeadingMatch(p, " " + (p + ""));
    CountSkipChar(' ', p + "", p);
    CountLeadingMatch(p, "");
  }

  /** One record of `sentiment_results`. */
  datatype StockResult = StockResult(
    symbol: string,
    mentions: nat,
    sentimentScore: real,
    indicator: string,
    suggestedAction: string)

  /** The loop building `sentiment_results` over the registry `stocks`: for
      each key of the mention map, in order, the polarity of the whole text
      and the signal it classifies to. Every record carries the same score,
      indicator and action; records differ only in symbol and count. */
  method AnalyzeSentiment(stocks: seq<Stock>, text: string, polarity: string -> real)
      returns (results: seq<StockResult>)
    ensures |results| == |Mentions(stocks, text)|
    ensures forall i | 0 <= i < |results| ::
              && results[i].symbol == Mentions(stocks, text)[i].symbol
              && results[i].mentions == Count(text, results[i].symbol)
              && results[i].sentimentScore == polarity(text)
              && results[i].indicator == Classify(polarity(text)).Indicator()
              && results[i].suggestedAction == Classify(polarity(text)).Action()
  {
    var mentions := Mentions(stocks, text);
    results := [];
    var k := 0;
    while k < |mentions|
      invariant 0 <= k <= |mentions|
      invariant |results| == k
      invariant forall i | 0 <= i < k ::
                  && results[i].symbol == mentions[i].symbol
                  && results[i].mentions == mentions[i].count
                  && results[i].sentimentScore == polarity(text)
                  && results[i].indicator == Classify(polarity(text)).Indicator()
                  && results[i].suggestedAction == Classify(polarity(text)).Action()
    {
      var score := polarity(text);
      var signal := Classify(score);
      results := results + [StockResult(mentions[k].symbol, mentions[k].count, score, signal.Indicator(), signal.Action())];
      k := k + 1;
    }
    assert forall i | 0 <= i < |results| :: mentions[i] in mentions;
  }
}
