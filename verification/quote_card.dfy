/**
 * The score ladder of `src/components/QuoteCard.tsx`: five bands cut at 2, 0 and -2, used
 * three times over, for the mood label, the card's background and the label's colour.
 */
module QuoteCard {

  /** `getMoodLabel(score)`. */
  function MoodLabel(score: real): (r: string)
    ensures r == "Very Positive" <==> score > 2.0
    ensures r == "Positive" <==> 0.0 < score <= 2.0
    ensures r == "Neutral" <==> score == 0.0
    ensures r == "Negative" <==> -2.0 < score < 0.0
    ensures r == "Very Negative" <==> score <= -2.0
  {
    if score > 2.0 then "Very Positive"
    else if score > 0.0 then "Positive"
    else if score == 0.0 then "Neutral"
    else if score > -2.0 then "Negative"
    else "Very Negative"
  }

  /** Where a label stands, from very negative (0) to very positive (4). */
  function LabelRank(name: string): int {
    if name == "Very Positive" then 4
    else if name == "Positive" then 3
    else if name == "Neutral" then 2
    else if name == "Negative" then 1
    else 0
  }

  /** The card background that goes with each label. */
  function BackgroundFor(name: string): string {
    if name == "Very Positive" then "#e3f4e1"
    else if name == "Positive" then "#edf7fc"
    else if name == "Neutral" then "#f5f5f5"
    else if name == "Negative" then "#fdeaea"
    else "#fadbd8"
  }

  /** The label colour that goes with each label. */
  function LabelColorFor(name: string): string {
    if name == "Very Positive" then "#27ae60"
    else if name == "Positive" then "#3498db"
    else if name == "Neutral" then "#7f8c8d"
    else if name == "Negative" then "#e67e22"
    else "#c0392b"
  }

  /** The card's background colour, on its own copy of the ladder; it always suits the label. */
  function Background(score: real): (c: string)
    ensures c == BackgroundFor(MoodLabel(score))
  {
    if score > 2.0 then "#e3f4e1"
    else if score > 0.0 then "#edf7fc"
    else if score == 0.0 then "#f5f5f5"
    else if score > -2.0 then "#fdeaea"
    else "#fadbd8"
  }

  /** The label's colour, on a third copy of the ladder; it always suits the label. */
  function LabelColor(score: real): (c: string)
    ensures c == LabelColorFor(MoodLabel(score))
  {
    if score > 2.0 then "#27ae60"
    else if score > 0.0 then "#3498db"
    else if score == 0.0 then "#7f8c8d"
    else if score > -2.0 then "#e67e22"
    else "#c0392b"
  }

  /** A higher score never gets a lower label. */
  lemma LabelIsMonotone(x: real, y: real)
    requires x <= y
    ensures LabelRank(MoodLabel(x)) <= LabelRank(MoodLabel(y))
  {
  }

  /** The cut points themselves: 2 is merely positive, 0 neutral, -2 very negative. */
  lemma LabelBoundaries()
    ensures MoodLabel(2.0) == "Positive"
    ensures MoodLabel(0.0) == "Neutral"
    ensures MoodLabel(-2.0) == "Very Negative"
  {
  }
}
