/**
 * The quote hook of `src/hooks/useQuote.ts` as a state machine. Each call of `loadQuote` or
 * `getQuoteByCategory` is one sequential transition from the hook's state and the browser
 * storage to new ones. The quote service's fetch, the clock and the success of each storage
 * write are inputs, and so is the sentiment library, as a function of the text.
 */
module UseQuote {
  import opened Wrappers
  import opened Types
  import opened LocalStorage
  import opened StorageUtils
  import opened SentimentService

  datatype HookState = HookState(
    quote: Option<Quote>,
    analysis: Option<MoodAnalysis>,
    loading: bool,
    error: Option<string>)

  /** The state before the first load: loading, with nothing to show and no error. */
  const INITIAL: HookState := HookState(None, None, true, None)

  const LOAD_ERROR: string := "Failed to load quote. Please try again."

  /** The error message of a failed category load names the category. */
  function CategoryError(category: string): (m: string)
    ensures |m| > 17 + |category|
    ensures m[..17] == "Failed to load a " && m[17..17 + |category|] == category
  {
    "Failed to load a " + category + " quote. Please try again."
  }

  /** What the quote service's fetch does: it returns a quote or throws. */
  datatype Fetch = Fetched(quote: Quote) | FetchFailed

  /**
   * The outside world during one load: the moment the stored quote's freshness is checked,
   * the fetch's outcome (consulted only if a fetch is made), the later moment the history
   * stamps the view with once the fetch has settled, and whether the current-quote and history
   * writes succeed. The two moments are separate clock reads and may fall on different days.
   */
  datatype Effects = Effects(now: Stamp, fetch: Fetch, viewed: Stamp, quoteWriteOk: bool, historyWriteOk: bool)

  datatype Step = Step(state: HookState, store: Storage)

  /** `analyzedQuote`: the quote spread with its analysis, once both are there. */
  function AnalyzedQuoteOf(s: HookState): (r: Option<AnalyzedQuote>)
    ensures r.Some? <==> s.quote.Some? && s.analysis.Some?
    ensures r.Some? ==> QuoteOf(r.value) == s.quote.value && r.value.analysis == s.analysis.value
  {
    if s.quote.Some? && s.analysis.Some? then Some(WithAnalysis(s.quote.value, s.analysis.value)) else None
  }

  /** A fresh quote is wanted when forced, when none is stored, or when the stored one is from another day. */
  predicate NeedsNewQuote(forceNew: bool, stored: Option<Quote>, today: int) {
    forceNew || stored.None? || stored.value.date.day != today
  }

  /** Show a quote: it and its analysis become the state, loading ended, no error. */
  function Shown(sentiment: string -> SentimentResult, q: Quote): HookState {
    HookState(Some(q), Some(AnalyzeText(sentiment, q.text)), false, None)
  }

  /**
   * Store a freshly fetched quote and record it, analyzed, in the history. Each write that
   * fails leaves its own key as it was, and no other key is touched.
   */
  function Record(sentiment: string -> SentimentResult, st: Storage, q: Quote, fx: Effects): (st': Storage)
    ensures fx.quoteWriteOk ==> GetStoredQuote(st') == Some(q)
    ensures !fx.quoteWriteOk ==> GetStoredQuote(st') == GetStoredQuote(st)
    ensures fx.historyWriteOk ==>
      Prepended(GetHistory(st'), HistoryEntry(WithAnalysis(q, AnalyzeText(sentiment, q.text)), fx.viewed), GetHistory(st))
    ensures !fx.historyWriteOk ==> GetHistory(st') == GetHistory(st)
    ensures GetFavorites(st') == GetFavorites(st)
    ensures AgreeOutside(st, st', {CURRENT_QUOTE_KEY, QUOTE_HISTORY_KEY})
  {
    var stored := StoreQuote(st, q, fx.quoteWriteOk);
    AddToHistory(stored, WithAnalysis(q, AnalyzeText(sentiment, q.text)), fx.viewed, fx.historyWriteOk)
  }

  /**
   * `loadQuote(forceNew)`. Today's stored quote is shown as it is, without fetching or
   * writing anything. Otherwise a quote is fetched; on success it is stored, shown and added
   * to the history; on failure the error is set, the quote and analysis shown before stay,
   * and storage is untouched. Either way loading ends.
   */
  function LoadQuote(sentiment: string -> SentimentResult, s: HookState, st: Storage, forceNew: bool, fx: Effects): (r: Step)
    ensures !r.state.loading
    ensures var stored := GetStoredQuote(st);
      !NeedsNewQuote(forceNew, stored, fx.now.day) ==>
        && r.store == st
        && r.state.quote == stored
        && r.state.error == None
    ensures NeedsNewQuote(forceNew, GetStoredQuote(st), fx.now.day) && fx.fetch.Fetched? ==>
      var q := fx.fetch.quote;
      && r.state.quote == Some(q)
      && r.state.error == None
      && (fx.quoteWriteOk ==> GetStoredQuote(r.store) == Some(q))
      && (!fx.quoteWriteOk ==> GetStoredQuote(r.store) == GetStoredQuote(st))
      && (fx.historyWriteOk ==>
            Prepended(GetHistory(r.store), HistoryEntry(WithAnalysis(q, AnalyzeText(sentiment, q.text)), fx.viewed), GetHistory(st)))
      && (!fx.historyWriteOk ==> GetHistory(r.store) == GetHistory(st))
      && GetFavorites(r.store) == GetFavorites(st)
      && AgreeOutside(st, r.store, {CURRENT_QUOTE_KEY, QUOTE_HISTORY_KEY})
    ensures NeedsNewQuote(forceNew, GetStoredQuote(st), fx.now.day) && fx.fetch.FetchFailed? ==>
      && r.store == st
      && r.state == s.(loading := false, error := Some(LOAD_ERROR))
    ensures r.state.error == None ==>
      r.state.quote.Some? && r.state.analysis == Some(AnalyzeText(sentiment, r.state.quote.value.text))
  {
    var stored := GetStoredQuote(st);
    if !NeedsNewQuote(forceNew, stored, fx.now.day) then
      Step(Shown(sentiment, stored.value), st)
    else match fx.fetch
      case FetchFailed => Step(s.(loading := false, error := Some(LOAD_ERROR)), st)
      case Fetched(q) => Step(Shown(sentiment, q), Record(sentiment, st, q, fx))
  }

  /**
   * `getQuoteByCategory(category)`: always fetches; on success the quote is shown, stored and
   * added to the history; on failure the error names the category and nothing else changes.
   */
  function GetQuoteByCategory(sentiment: string -> SentimentResult, s: HookState, st: Storage, category: string, fx: Effects): (r: Step)
    ensures !r.state.loading
    ensures fx.fetch.Fetched? ==>
      var q := fx.fetch.quote;
      && r.state.quote == Some(q)
      && r.state.analysis == Some(AnalyzeText(sentiment, q.text))
      && r.state.error == None
      && (fx.quoteWriteOk ==> GetStoredQuote(r.store) == Some(q))
      && (!fx.quoteWriteOk ==> GetStoredQuote(r.store) == GetStoredQuote(st))
      && (fx.historyWriteOk ==>
            Prepended(GetHistory(r.store), HistoryEntry(WithAnalysis(q, AnalyzeText(sentiment, q.text)), fx.viewed), GetHistory(st)))
      && (!fx.historyWriteOk ==> GetHistory(r.store) == GetHistory(st))
      && GetFavorites(r.store) == GetFavorites(st)
      && AgreeOutside(st, r.store, {CURRENT_QUOTE_KEY, QUOTE_HISTORY_KEY})
    ensures fx.fetch.FetchFailed? ==>
      && r.store == st
      && r.state == s.(loading := false, error := Some(CategoryError(category)))
  {
    match fx.fetch
    case FetchFailed => Step(s.(loading := false, error := Some(CategoryError(category))), st)
    case Fetched(q) => Step(Shown(sentiment, q), Record(sentiment, st, q, fx))
  }

  /** The quote on show and its analysis belong together: both absent, or the analysis of that quote. */
  ghost predicate Consistent(sentiment: string -> SentimentResult, s: HookState) {
    && (s.quote.Some? <==> s.analysis.Some?)
    && (s.quote.Some? ==> s.analysis.value == AnalyzeText(sentiment, s.quote.value.text))
  }

  /** The hook starts out loading, with nothing on show, which is trivially consistent. */
  lemma InitialIsBlank(sentiment: string -> SentimentResult)
    ensures INITIAL.loading && INITIAL.error.None?
    ensures AnalyzedQuoteOf(INITIAL).None?
    ensures Consistent(sentiment, INITIAL)
  {
  }

  /** Loading of either kind keeps the quote and its analysis consistent. */
  lemma LoadsKeepConsistency(sentiment: string -> SentimentResult, s: HookState, st: Storage,
                             forceNew: bool, category: string, fx: Effects)
    requires Consistent(sentiment, s)
    ensures Consistent(sentiment, LoadQuote(sentiment, s, st, forceNew, fx).state)
    ensures Consistent(sentiment, GetQuoteByCategory(sentiment, s, st, category, fx).state)
  {
  }

  /** The first load failing leaves nothing on show and an error. */
  lemma FailedFirstLoad(sentiment: string -> SentimentResult, st: Storage, fx: Effects)
    requires fx.fetch.FetchFailed? && GetStoredQuote(st).None?
    ensures var r := LoadQuote(sentiment, INITIAL, st, false, fx);
      && r.state == HookState(None, None, false, Some(LOAD_ERROR))
      && AnalyzedQuoteOf(r.state).None?
  {
  }

  /**
   * A quote fetched and stored today is the quote of the day: loading again without forcing
   * the same day fetches nothing, writes nothing and shows the same quote.
   */
  lemma {:induction false} SameDayReloadIsStable(sentiment: string -> SentimentResult, s: HookState, st: Storage,
                                                 forceNew: bool, fx: Effects, fx2: Effects)
    requires NeedsNewQuote(forceNew, GetStoredQuote(st), fx.now.day)
    requires fx.fetch.Fetched? && fx.quoteWriteOk
    requires fx.fetch.quote.date.day == fx.now.day && fx2.now.day == fx.now.day
    ensures var first := LoadQuote(sentiment, s, st, forceNew, fx);
      var second := LoadQuote(sentiment, first.state, first.store, false, fx2);
      && second.store == first.store
      && second.state == first.state
  {
  }
}
