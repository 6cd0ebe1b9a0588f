/**
 * `analyzeMood` of `src/services/sentimentService.ts`: the sentiment library's comparative
 * score becomes the mood score, fixed thresholds of plus and minus 0.2 classify it, the
 * intensity is twice its magnitude clamped to 1, and the library's word lists pass through.
 * The library itself (tokenizer and lexicon) is not modelled: its result is an input.
 */
module SentimentService {
  import opened Wrappers
  import opened Types

  /** A comparative score above this is positive, below its negation negative. */
  const MOOD_THRESHOLD: real := 0.2

  function Abs(x: real): (r: real)
    ensures r >= 0.0 && (r == x || r == -x)
  {
    if x < 0.0 then -x else x
  }

  /** The mood a comparative score falls in; the thresholds themselves are neutral. */
  function Classify(comparative: real): (m: Mood)
    ensures m == Positive <==> comparative > MOOD_THRESHOLD
    ensures m == Negative <==> comparative < -MOOD_THRESHOLD
    ensures m == Neutral <==> -MOOD_THRESHOLD <= comparative <= MOOD_THRESHOLD
  {
    if comparative > MOOD_THRESHOLD then Positive
    else if comparative < -MOOD_THRESHOLD then Negative
    else Neutral
  }

  /**
   * Twice the score's magnitude, capped at 1: a linear ramp in the score's magnitude that
   * saturates at 1 once the magnitude reaches one half.
   */
  function Intensity(comparative: real): (i: real)
    ensures 0.0 <= i <= 1.0
    ensures i == 1.0 <==> Abs(comparative) >= 0.5
    ensures i < 1.0 ==> i == 2.0 * Abs(comparative)
  {
    var scaled := Abs(comparative * 2.0);
    if scaled < 1.0 then scaled else 1.0
  }

  /** `analyzeMood`, given what the sentiment library made of the text. */
  function AnalyzeMood(lib: SentimentResult): (a: MoodAnalysis)
    ensures a.score == lib.comparative
    ensures a.mood.Some? && a.intensity.Some? && a.words.Some?
    ensures a.mood.value == Positive <==> lib.comparative > MOOD_THRESHOLD
    ensures a.mood.value == Negative <==> lib.comparative < -MOOD_THRESHOLD
    ensures a.intensity == Some(Intensity(lib.comparative))
    ensures 0.0 <= a.intensity.value <= 1.0
    ensures Abs(lib.comparative) >= 0.5 ==> a.intensity.value == 1.0
    ensures a.mood.value != Neutral ==> a.intensity.value > 0.4
    ensures a.words.value.positive == lib.positive && a.words.value.negative == lib.negative
  {
    MoodAnalysis(
      lib.comparative,
      Some(Classify(lib.comparative)),
      Some(Intensity(lib.comparative)),
      Some(Words(lib.positive, lib.negative)))
  }

  /** `analyzeMood(text)` with the sentiment library as a given function of the text. */
  function AnalyzeText(sentiment: string -> SentimentResult, text: string): MoodAnalysis {
    AnalyzeMood(sentiment(text))
  }

  /** The mood of the opposite sign. */
  function Opposite(m: Mood): Mood {
    match m
    case Positive => Negative
    case Negative => Positive
    case Neutral => Neutral
  }

  /** The library's result with the sign of its scores flipped. */
  function Negated(lib: SentimentResult): SentimentResult {
    lib.(score := -lib.score, comparative := -lib.comparative)
  }

  /** Negating the score swaps positive and negative and keeps intensity and neutrality. */
  lemma NegationSwapsMood(lib: SentimentResult)
    ensures AnalyzeMood(Negated(lib)).mood == Some(Opposite(AnalyzeMood(lib).mood.value))
    ensures AnalyzeMood(Negated(lib)).intensity == AnalyzeMood(lib).intensity
  {
  }

  /** Only the comparative score and the word lists matter; the raw score is dropped. */
  lemma RawScoreIsIgnored(lib: SentimentResult, raw: int)
    ensures AnalyzeMood(lib.(score := raw)) == AnalyzeMood(lib)
  {
  }

  /** Text the lexicon does not match at all gets a neutral mood of zero intensity. */
  lemma UnmatchedTextIsNeutral(lib: SentimentResult)
    requires lib.score == 0 && lib.comparative == 0.0 && lib.positive == [] && lib.negative == []
    ensures AnalyzeMood(lib) == MoodAnalysis(0.0, Some(Neutral), Some(0.0), Some(Words([], [])))
  {
  }
}
