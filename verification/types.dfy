/**
 * The records the quote-and-mood pipeline passes around, in the shape the running code
 * builds them: a quote is `{id, text, author, date}` as the quote service returns it, and an
 * analyzed quote is the flat spread `{...quote, analysis}` that the quote hook builds.
 */
module Types {
  import opened Wrappers

  /**
   * A point in time as the application reads it. `day` is the local calendar day that
   * `Date.toDateString` yields (two stamps show the same date string iff their days agree);
   * `time` stands for the rest of the ISO timestamp.
   */
  datatype Stamp = Stamp(day: int, time: nat)

  /** A quote as the quote service returns it (`_id` and `content` renamed to `id` and `text`). */
  datatype Quote = Quote(id: string, text: string, author: string, date: Stamp)

  /** The three mood categories. */
  datatype Mood = Positive | Negative | Neutral

  /** The two word lists a sentiment result carries, in text order, duplicates kept. */
  datatype Words = Words(positive: seq<string>, negative: seq<string>)

  /**
   * What the sentiment library returns for a text: the integer sum of word polarities, that
   * sum divided by the number of tokens, and the matched positive and negative words.
   */
  datatype SentimentResult = SentimentResult(
    score: int,
    comparative: real,
    positive: seq<string>,
    negative: seq<string>)

  /**
   * A mood analysis. `mood`, `intensity` and `words` are optional fields of the declared
   * type, so every consumer has to cope with their absence.
   */
  datatype MoodAnalysis = MoodAnalysis(
    score: real,
    mood: Option<Mood>,
    intensity: Option<real>,
    words: Option<Words>)

  /** The flat record `{...quote, analysis}` kept in favourites and history; compared by `id`. */
  datatype AnalyzedQuote = AnalyzedQuote(
    id: string,
    text: string,
    author: string,
    date: Stamp,
    analysis: MoodAnalysis)

  /** A history entry: an analyzed quote spread together with the moment it was viewed. */
  datatype HistoryEntry = HistoryEntry(entry: AnalyzedQuote, viewed: Stamp)

  /** The nested quote shape the favourite button declares (`_id`, `content`, `author`). */
  datatype LegacyQuote = LegacyQuote(id: string, content: string, author: string)

  /** The nested favourite record the favourite button declares and stores. */
  datatype LegacyFavorite = LegacyFavorite(quote: LegacyQuote, analysis: SentimentResult)

  /** `{...quote, analysis}`: the quote's fields with the analysis beside them. */
  function WithAnalysis(q: Quote, a: MoodAnalysis): (r: AnalyzedQuote)
    ensures r.id == q.id && r.text == q.text && r.author == q.author && r.date == q.date
    ensures r.analysis == a
  {
    AnalyzedQuote(q.id, q.text, q.author, q.date, a)
  }

  /** The quote part of an analyzed quote. */
  function QuoteOf(aq: AnalyzedQuote): Quote {
    Quote(aq.id, aq.text, aq.author, aq.date)
  }

  /**
   * JavaScript's `x || d` on an optional number: an absent value and a zero are both falsy,
   * so both give `d`.
   */
  function OrDefault(x: Option<real>, d: real): (r: real)
    ensures x == None || x == Some(0.0) ==> r == d
    ensures x.Some? && x.value != 0.0 ==> r == x.value
  {
    if x.None? || x.value == 0.0 then d else x.value
  }

  /** The mood's name as the code spells it. */
  function MoodName(m: Mood): string {
    match m
    case Positive => "positive"
    case Negative => "negative"
    case Neutral => "neutral"
  }

  /** ASCII upper-casing of one character, as `toUpperCase` does on the mood names. */
  function Upper(c: char): char {
    if 'a' <= c <= 'z' then (c as int - 'a' as int + 'A' as int) as char else c
  }

  /** `s` with its first character upper-cased and the rest unchanged. */
  function Capitalize(s: string): (r: string)
    ensures |r| == |s|
    ensures |s| > 0 ==> r[0] == Upper(s[0]) && r[1..] == s[1..]
  {
    if |s| == 0 then "" else [Upper(s[0])] + s[1..]
  }

  /** The capitalised mood name the labels end with. */
  function MoodTitle(m: Mood): (r: string)
    ensures r == (match m case Positive => "Positive" case Negative => "Negative" case Neutral => "Neutral")
  {
    Capitalize(MoodName(m))
  }
}
