/** The trading signal derived from one polarity score (`analyze_sentiment`,
    the if/elif chain): five bands examined in order, first match wins. */
module Classification {
  import opened Wrappers

  /** The five indicator/action pairs, most bullish first. */
  datatype Signal = StrongBullish | ModerateBullish | Neutral | ModerateBearish | StrongBearish
  {
    /** The "indicator" name stored in a result. */
    function Indicator(): string
    {
      match this
      case StrongBullish => "Strong Bullish"
      case ModerateBullish => "Moderate Bullish"
      case Neutral => "Neutral"
      case ModerateBearish => "Moderate Bearish"
      case StrongBearish => "Strong Bearish"
    }

    /** The "suggested_action" name stored in a result. */
    function Action(): string
    {
      match this
      case StrongBullish => "BUY"
      case ModerateBullish => "CONSIDER BUYING"
      case Neutral => "STANDBY"
      case ModerateBearish => "CONSIDER SELLING"
      case StrongBearish => "SELL"
    }

    /** Position from the bearish end: 0 for Strong Bearish up to 4. */
    function Rank(): nat
    {
      match this
      case StrongBearish => 0
      case ModerateBearish => 1
      case Neutral => 2
      case ModerateBullish => 3
      case StrongBullish => 4
    }
  }

  /** The two threshold magnitudes; the program writes them as the float
      literals 0.1 and 0.3. */
  const Weak: real := 0.1
  const Strong: real := 0.3

  /** The if/elif chain. The third test reads `-0.1 <= score <= 0.1`, but a
      score of exactly 0.1 has already been taken by the second, so the
      bands are half-open and cover every score exactly once. */
  function Classify(score: real): (s: Signal)
    ensures s == StrongBullish <==> score > Strong
    ensures s == ModerateBullish <==> Weak <= score <= Strong
    ensures s == Neutral <==> -Weak <= score < Weak
    ensures s == ModerateBearish <==> -Strong <= score < -Weak
    ensures s == StrongBearish <==> score < -Strong
  {
    if score > Strong then StrongBullish
    else if Weak <= score <= Strong then ModerateBullish
    else if -Weak <= score <= Weak then Neutral
    else if -Strong <= score < -Weak then ModerateBearish
    else StrongBearish
  }

  /** A higher score never yields a more bearish signal. */
  lemma ClassifyMonotone(a: real, b: real)
    requires a <= b
    ensures Classify(a).Rank() <= Classify(b).Rank()
  {
  }

  /** Reads a signal back from its indicator name. */
  function SignalOfIndicator(name: string): (r: Option<Signal>)
    ensures r.Some? ==> r.value.Indicator() == name
  {
    if name == "Strong Bullish" then Some(StrongBullish)
    else if name == "Moderate Bullish" then Some(ModerateBullish)
    else if name == "Neutral" then Some(Neutral)
    else if name == "Moderate Bearish" then Some(ModerateBearish)
    else if name == "Strong Bearish" then Some(StrongBearish)
    else None
  }

  /** Reads a signal back from its action name. */
  function SignalOfAction(name: string): (r: Option<Signal>)
    ensures r.Some? ==> r.value.Action() == name
  {
    if name == "BUY" then Some(StrongBullish)
    else if name == "CONSIDER BUYING" then Some(ModerateBullish)
    else if name == "STANDBY" then Some(Neutral)
    else if name == "CONSIDER SELLING" then Some(ModerateBearish)
    else if name == "SELL" then Some(StrongBearish)
    else None
  }

  /** Each name identifies its signal: indicator and action are in
      one-to-one correspondence, each determining the other. */
  lemma LabelsRoundTrip(s: Signal)
    ensures SignalOfIndicator(s.Indicator()) == Some(s)
    ensures SignalOfAction(s.Action()) == Some(s)
  {
  }

  /** Two signals with the same indicator, or the same action, are the same
      signal. */
  lemma LabelsInjective(a: Signal, b: Signal)
    ensures a.Indicator() == b.Indicator() <==> a == b
    ensures a.Action() == b.Action() <==> a == b
  {
    LabelsRoundTrip(a);
    LabelsRoundTrip(b);
  }

  /** The boundary scores as the first-match order settles them. */
  lemma BoundaryScores()
    ensures Classify(0.3) == ModerateBullish && Classify(0.1) == ModerateBullish
    ensures Classify(-0.1) == Neutral && Classify(-0.3) == ModerateBearish
  {
  }
}
