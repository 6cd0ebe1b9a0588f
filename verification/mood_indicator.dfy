/**
 * The derivations of `src/components/MoodIndicator.tsx`: its percentage, its label, the top
 * key words it shows and the meter colour. Unlike the sentiment hook, the component reads a
 * missing or zero intensity as one half in its label as well.
 */
module MoodIndicator {
  import opened Wrappers
  import opened Types
  import UseSentimentAnalysis

  /** How many words of each polarity are shown. */
  const SHOWN_PER_POLARITY: nat := 3

  datatype Polarity = PositiveWord | NegativeWord

  datatype Keyword = Keyword(polarity: Polarity, word: string)

  /**
   * The percentage on the meter: the intensity (missing or zero read as one half) times a
   * hundred, rounded, which is the sentiment hook's percentage of the same analysis.
   */
  function IntensityPercentage(a: MoodAnalysis): (p: int)
    ensures a.intensity == None || a.intensity == Some(0.0) ==> p == 50
    ensures a.intensity.Some? && 0.0 <= a.intensity.value <= 1.0 ==> 0 <= p <= 100
    ensures -0.005 <= OrDefault(a.intensity, 0.5) - p as real / 100.0 < 0.005
    ensures p == UseSentimentAnalysis.IntensityPercentage(Some(a))
  {
    UseSentimentAnalysis.Percentage(a.intensity)
  }

  /** The label: the intensity word (missing or zero read as one half) and the mood, neutral when missing. */
  function MoodLabel(a: MoodAnalysis): (r: string)
    ensures a.intensity == None || a.intensity == Some(0.0) ==>
      r == "Moderately " + MoodTitle(a.mood.GetOr(Neutral))
    ensures r == UseSentimentAnalysis.IntensityPrefix(OrDefault(a.intensity, 0.5)) + MoodTitle(a.mood.GetOr(Neutral))
  {
    UseSentimentAnalysis.IntensityPrefix(OrDefault(a.intensity, 0.5)) + MoodTitle(a.mood.GetOr(Neutral))
  }

  function Min(a: nat, b: nat): nat {
    if a < b then a else b
  }

  /** Each word tagged with its polarity, in order. */
  function Tag(p: Polarity, words: seq<string>): (r: seq<Keyword>)
    ensures |r| == |words|
    ensures forall i :: 0 <= i < |words| ==> r[i] == Keyword(p, words[i])
  {
    if |words| == 0 then [] else [Keyword(p, words[0])] + Tag(p, words[1..])
  }

  /**
   * The key words shown: the first three positive words and then the first three negative
   * words, each in the order the analysis lists them; nothing when the analysis has no words.
   */
  function ShownKeywords(a: MoodAnalysis): (r: seq<Keyword>)
    ensures a.words.None? ==> r == []
    ensures a.words.Some? ==>
      var pos, neg := a.words.value.positive, a.words.value.negative;
      var np, nn := Min(|pos|, SHOWN_PER_POLARITY), Min(|neg|, SHOWN_PER_POLARITY);
      && |r| == np + nn
      && (forall i :: 0 <= i < np ==> r[i] == Keyword(PositiveWord, pos[i]))
      && (forall j :: 0 <= j < nn ==> r[np + j] == Keyword(NegativeWord, neg[j]))
  {
    if a.words.None? then []
    else
      var pos, neg := a.words.value.positive, a.words.value.negative;
      Tag(PositiveWord, pos[..Min(|pos|, SHOWN_PER_POLARITY)]) + Tag(NegativeWord, neg[..Min(|neg|, SHOWN_PER_POLARITY)])
  }

  /** The meter's fill colour: green for positive, red for negative, blue for anything else. */
  function MeterColor(a: MoodAnalysis): (c: string)
    ensures c == "#27ae60" <==> a.mood == Some(Positive)
    ensures c == "#e74c3c" <==> a.mood == Some(Negative)
    ensures c == "#3498db" <==> a.mood == None || a.mood == Some(Neutral)
  {
    match a.mood.GetOr(Neutral)
    case Positive => "#27ae60"
    case Negative => "#e74c3c"
    case Neutral => "#3498db"
  }

  /**
   * The key words shown are the leading three of each of the hook's key-word lists: the
   * positive ones first, then the negative ones.
   */
  lemma ShownAreLeadingKeyWords(a: MoodAnalysis)
    ensures var w := UseSentimentAnalysis.KeyWords(Some(a));
      var r := ShownKeywords(a);
      var np, nn := Min(|w.positive|, SHOWN_PER_POLARITY), Min(|w.negative|, SHOWN_PER_POLARITY);
      && |r| == np + nn
      && (forall i :: 0 <= i < np ==> r[i] == Keyword(PositiveWord, w.positive[i]))
      && (forall j :: 0 <= j < nn ==> r[np + j] == Keyword(NegativeWord, w.negative[j]))
  {
  }

  /**
   * The component and the sentiment hook word an analysis alike when it has a mood and a
   * non-zero intensity, and part ways when the intensity is zero or missing: the hook then
   * says "Slightly", the component "Moderately".
   */
  lemma LabelsAgreeExceptOnDefaults(a: MoodAnalysis)
    ensures a.mood.Some? && a.intensity.Some? && a.intensity.value != 0.0 ==>
      MoodLabel(a) == UseSentimentAnalysis.MoodLabel(Some(a))
    ensures a.mood.Some? && (a.intensity == None || a.intensity == Some(0.0)) ==>
      MoodLabel(a) != UseSentimentAnalysis.MoodLabel(Some(a))
  {
  }
}
