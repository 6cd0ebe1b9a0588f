/**
 * The display values `src/hooks/useSentimentAnalysis.ts` derives from an optional analysis:
 * its colours, a worded mood label, the intensity as a percentage and its key words. Each is
 * the body of one memoised callback; the memoisation itself is not modelled.
 */
module UseSentimentAnalysis {
  import opened Wrappers
  import opened Types
  import opened ColorUtils
  import SentimentService

  /** The analysis the hook colours by when it has none: neutral at intensity one half. */
  const DEFAULT_ANALYSIS: MoodAnalysis := MoodAnalysis(0.0, Some(Neutral), Some(0.5), Some(Words([], [])))

  /** The colours; without an analysis, the neutral base darkened by ten points. */
  function Colors(a: Option<MoodAnalysis>): (c: MoodColors)
    ensures a.None? ==> c == MoodColors(Hsl(210.0, 10.0, 75.0), Hsl(230.0, 10.0, 75.0), DARK_TEXT)
    ensures a.Some? ==> c == GetMoodColors(a.value)
  {
    if a.None? then GetMoodColors(DEFAULT_ANALYSIS) else GetMoodColors(a.value)
  }

  /** The word for an intensity: below 0.3 slight, below 0.7 moderate, else strong. */
  function IntensityPrefix(i: real): (p: string)
    ensures p == "Slightly " <==> i < 0.3
    ensures p == "Moderately " <==> 0.3 <= i < 0.7
    ensures p == "Very " <==> 0.7 <= i
  {
    if i < 0.3 then "Slightly " else if i < 0.7 then "Moderately " else "Very "
  }

  /**
   * The mood label: "Neutral" without an analysis or without a mood; otherwise the intensity
   * word, reading a missing or zero intensity as 0, before the capitalised mood.
   */
  function MoodLabel(a: Option<MoodAnalysis>): (r: string)
    ensures a.None? || a.value.mood.None? ==> r == "Neutral"
    ensures a.Some? && a.value.mood.Some? ==>
      r == IntensityPrefix(OrDefault(a.value.intensity, 0.0)) + MoodTitle(a.value.mood.value)
  {
    if a.None? || a.value.mood.None? then "Neutral"
    else IntensityPrefix(OrDefault(a.value.intensity, 0.0)) + MoodTitle(a.value.mood.value)
  }

  /** `Math.round`: the nearest integer, halves rounding up. */
  function Round(x: real): (n: int)
    ensures n as real - 0.5 <= x < n as real + 0.5
  {
    (x + 0.5).Floor
  }

  /** An intensity as a whole percentage; a missing or zero intensity counts as one half. */
  function Percentage(intensity: Option<real>): (p: int)
    ensures intensity == None || intensity == Some(0.0) ==> p == 50
    ensures 0.0 <= OrDefault(intensity, 0.5) <= 1.0 ==> 0 <= p <= 100
    ensures -0.005 <= OrDefault(intensity, 0.5) - p as real / 100.0 < 0.005
  {
    Round(OrDefault(intensity, 0.5) * 100.0)
  }

  /** The percentage shown; fifty without an analysis. */
  function IntensityPercentage(a: Option<MoodAnalysis>): (p: int)
    ensures a.None? ==> p == 50
    ensures a.Some? ==> p == Percentage(a.value.intensity)
    ensures a.Some? && a.value.intensity.Some? && 0.0 <= a.value.intensity.value <= 1.0 ==> 0 <= p <= 100
  {
    if a.None? then 50 else Percentage(a.value.intensity)
  }

  /** The key words: the analysis's word lists as they are, or two empty lists. */
  function KeyWords(a: Option<MoodAnalysis>): (w: Words)
    ensures a.None? || a.value.words.None? ==> w == Words([], [])
    ensures a.Some? && a.value.words.Some? ==> w == a.value.words.value
  {
    if a.None? || a.value.words.None? then Words([], []) else a.value.words.value
  }

  /** The key words of an analysis the service made are the words the sentiment library matched. */
  lemma AnalyzedKeyWords(lib: SentimentResult)
    ensures KeyWords(Some(SentimentService.AnalyzeMood(lib))) == Words(lib.positive, lib.negative)
  {
  }

  /** Without an analysis the colours are those of an analysis that says nothing at all. */
  lemma NoAnalysisIsBlankAnalysis(score: real)
    ensures Colors(None) == Colors(Some(MoodAnalysis(score, None, None, None)))
  {
  }

  /**
   * A zero intensity is read as 0 by the label and as one half by the percentage, so the two
   * disagree: the label is a slight one while the meter shows fifty percent.
   */
  lemma ZeroIntensityDisagrees(a: MoodAnalysis)
    requires a.mood.Some? && a.intensity == Some(0.0)
    ensures MoodLabel(Some(a)) == "Slightly " + MoodTitle(a.mood.value)
    ensures IntensityPercentage(Some(a)) == 50
  {
  }
}
