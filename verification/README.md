# Bored: the quote-and-mood pipeline in Dafny

This project models the logic core of a small web application. The application shows a quote of the day together with a "mood" read from the quote's text. It also keeps the user's favourites and view history in the browser's `localStorage`. The model covers these parts:

- **The quote-state store** (`StorageUtils`, `storage_utils.dfy`). It holds the current quote, a favourites list kept unique by quote id, and a history list that puts the newest entry first and keeps at most 50 entries. Each part lives under its own key. `localStorage` is a `map<string, Stored>` (`LocalStorage`, `local_storage.dfy`). A stored value is either a valid value or `Corrupt`, and JSON is the identity. Every write takes an `ok` flag that says whether it succeeds.
- **Mood classification** (`SentimentService`). It applies the ±0.2 thresholds to the comparative score and computes an intensity clamped to [0, 1]. The `sentiment` library's result is an input.
- **Colour mapping** (`ColorUtils`). It maps a mood and an intensity to primary and secondary HSL colours and a text colour. `shouldUseLightText` is modelled as a reader of `hsl(...)` strings: a leftmost-match search plus a parser with four stages: the opening `hsl(` and one stage for each of the three numbers. It is proved against a printer for `hsl(H, S%, L%)`.
- **Display derivations**. These are the label, percentage, key-word and colour values of the sentiment hook (`UseSentimentAnalysis`), the mood meter (`MoodIndicator`) and the quote card's five-band score ladder (`QuoteCard`).
- **The quote hook** (`UseQuote`). `loadQuote` and `getQuoteByCategory` are transitions of a state machine over the hook's state and storage. The fetch is an oracle that returns `Fetched(quote)` or `FetchFailed`. Time is a `Stamp` that carries the local calendar day. A load reads the clock twice: `now` for the freshness check before the fetch, and `viewed` for the history entry's stamp after it, so the two can fall on different days. The initial state `INITIAL` is loading, with no quote, analysis or error.
- **The favourite button** (`QuoteControls`). This is a second save routine with its own nested record shape and its own `favoriteQuotes` key. It catches no exceptions.

Records have the shape the running code builds. A quote is `{id, text, author, date}`, as `src/services/quoteService.ts:11-16` returns it. An analyzed quote is the flat spread `{...quote, analysis}` from `src/hooks/useQuote.ts:24`. The declared `Quote` and `AnalyzedQuote` interfaces in `src/types/index.ts` describe other shapes, and the running code does not use them. The optional analysis fields `mood`, `intensity` and `words` are `Option`s. JavaScript's `x || d` on an intensity is `Types.OrDefault`: both an absent value and `0` give `d`. `Math.round(x)` is `Floor(x + 1/2)`.

The code behaves as follows in four places where a reader might expect otherwise, and the model follows it:

- The keys are `bored_current_quote`, `bored_favorite_quotes` and `bored_quote_history`.
- `removeFromFavorites` writes even when no entry matches. This turns unreadable favourites into an empty list.
- A failed fetch sets an error in the hook. No fallback quote is substituted.
- The favourite button lets a parse failure or a write failure escape as an exception.

## Model

| member | source | states |
|---|---|---|
| LocalStorage.SetItem | src/utils/storageUtils.ts:13-17 | A successful write binds only its own key to the value. A failed write leaves storage unchanged and raises nothing. |
| Types.OrDefault | src/utils/colorUtils.ts:20 | `x \|\| d` gives `d` for a missing value and for zero, and the value otherwise. |
| Types.WithAnalysis | src/hooks/useQuote.ts:53 | `{...quote, analysis}` keeps the quote's id, text, author and date and adds the analysis. |
| Types.MoodTitle | src/hooks/useSentimentAnalysis.ts:51 | Capitalising a mood's name gives "Positive", "Negative" or "Neutral". |
| StorageUtils.GetStoredQuote | src/utils/storageUtils.ts:24-32 | The stored quote, or none when the key is missing or unparsable. It returns a quote only when storage holds exactly that quote. |
| StorageUtils.StoreQuote | src/utils/storageUtils.ts:12-18 | Reading back after a successful write gives the quote. A failed write changes nothing. No other key changes. |
| StorageUtils.GetFavorites | src/utils/storageUtils.ts:68-76 | A missing or unparsable key reads as the empty list. A stored favourites list is returned exactly as stored. |
| StorageUtils.AddToFavorites | src/utils/storageUtils.ts:38-49 | An id that is already present leaves storage unchanged. Otherwise the entry is appended after the old entries, in order. Unreadable favourites are replaced by the one-entry list. Only the favourites key changes. |
| StorageUtils.Without | src/utils/storageUtils.ts:57 | The filter keeps exactly the entries whose id differs. No entry with that id remains. A list without the id comes back unchanged. |
| StorageUtils.RemoveFromFavorites | src/utils/storageUtils.ts:55-62 | The stored favourites become the old ones without that id. An absent id leaves the favourites as read unchanged. A failed write changes nothing. Only the favourites key changes. |
| StorageUtils.GetHistory | src/utils/storageUtils.ts:99-107 | A missing or unparsable key reads as the empty list. A stored history is returned exactly as stored. |
| StorageUtils.AddToHistory | src/utils/storageUtils.ts:82-93 | The new length is min(old + 1, 50). The stamped entry comes first, followed by the old entries in order. Only the oldest entries can fall off. Unreadable history becomes the one-entry list. Only the history key changes. |
| StorageUtils.Take | src/utils/storageUtils.ts:88 | `slice(0, n)`: the prefix of length min(\|s\|, n). |
| StorageUtils.AddToFavoritesKeepsIdsUnique | src/utils/storageUtils.ts:40-45 | Adding keeps favourite ids pairwise distinct. |
| StorageUtils.AddToFavoritesTwiceIsOnce | src/utils/storageUtils.ts:40-45 | After a first add has landed, a second add of the same quote is a no-op. Ids stay unique. |
| StorageUtils.WithoutKeepsOrder | src/utils/storageUtils.ts:57 | Filtering a concatenation is concatenating the filtered halves, so the survivors keep their relative order. |
| StorageUtils.WithoutKeepsIdsUnique | src/utils/storageUtils.ts:55-58 | Removing keeps favourite ids pairwise distinct. |
| StorageUtils.ListOperationsKeepCurrentQuote | src/utils/storageUtils.ts:4-6 | Each operation leaves what the other keys read as unchanged. |
| StorageUtils.OperationsKeepShapes | src/utils/storageUtils.ts:4-6 | Every operation keeps each key holding the shape its own writer produces. |
| StorageUtils.AddToHistoryPrepends | src/utils/storageUtils.ts:86-89 | One successful history write gives the first 50 of the stamped entry followed by the old history. |
| StorageUtils.HistoryKeepsNewest | src/utils/storageUtils.ts:84-89 | After any non-empty run of views, the history is the first 50 of the views newest-first followed by the old history. |
| StorageUtils.HistoryIsCapped | src/utils/storageUtils.ts:86-88 | After 50 or more views, the history holds exactly the last 50 views, newest first. |
| SentimentService.Classify | src/services/sentimentService.ts:20-23 | The mood is positive iff the score is above 0.2 and negative iff it is below -0.2. It is neutral on the closed band [-0.2, 0.2], including both thresholds. |
| SentimentService.Intensity | src/services/sentimentService.ts:26 | Intensity lies in [0, 1]. It is exactly 1 iff \|comparative\| ≥ 0.5. Below that it equals 2·\|comparative\|. |
| SentimentService.AnalyzeMood | src/services/sentimentService.ts:12-37 | The score is the library's comparative score c. Mood, intensity and words are always present. The mood is positive iff c > 0.2 and negative iff c < −0.2. The intensity is `Intensity(c)`: min(2·\|c\|, 1), so 0 for c = 0 and 1 from \|c\| ≥ 0.5 on. A non-neutral mood has intensity above 0.4. Both word lists are the library's lists unchanged. |
| SentimentService.NegationSwapsMood | src/services/sentimentService.ts:20-26 | Negating the comparative score swaps positive and negative, keeps neutral, and keeps the intensity. |
| SentimentService.RawScoreIsIgnored | src/services/sentimentService.ts:17 | The library's raw score has no effect on the analysis. |
| SentimentService.UnmatchedTextIsNeutral | src/services/sentimentService.ts:20-36 | A result that matches nothing gives a neutral mood, zero intensity and empty word lists. |
| ColorUtils.GetMoodColors | src/utils/colorUtils.ts:8-39 | A missing mood counts as neutral. A missing or zero intensity counts as 0.5. Primary keeps the base hue and saturation with lightness base − 20·i, which lies in [base − 20, base) for i in (0, 1]. Secondary is hue + 20, same saturation, lighter than the base exactly for positive and by 10 points. Text is the 95% colour iff the mood is negative, otherwise the 15% one. |
| ColorUtils.BaseColor | src/utils/colorUtils.ts:10-14 | Positive is the green hsl(120, 40, 80). Neutral is the grey-blue hsl(210, 10, 85). Negative is the red hsl(0, 60, 80). Each is a valid HSL colour with lightness between 80 and 85, so a primary darkened by at most 20 points stays at 60 or above. |
| ColorUtils.SecondaryIgnoresIntensity | src/utils/colorUtils.ts:30-32 | The secondary colour depends on the mood only. |
| ColorUtils.MissingMoodIsNeutral | src/utils/colorUtils.ts:16-17 | A missing mood gives the neutral colours. |
| ColorUtils.SearchStep | src/utils/colorUtils.ts:48 | For any matcher that fails at the start of a string, the leftmost result in the rest of the string is the leftmost result in the whole string, in both directions: found and present. |
| ColorUtils.FindLightness | src/utils/colorUtils.ts:48-51 | A match is found exactly when the pattern matches at some position. The capture returned is the one at the leftmost such position: the pattern matches nowhere before it. |
| ColorUtils.ShouldUseLightText | src/utils/colorUtils.ts:46-54 | True iff the leftmost match has a lightness below 50. Then the `hsl(d+, d+%, d+%)` at that position has lightness below 50 and nothing matches before it. With no match anywhere it is false. |
| ColorUtils.MatchHere | src/utils/colorUtils.ts:48 | The pattern anchored at the start of the string: `hsl(` and then the hue stage. It has no contract of its own and is pinned down by the stage lemmas below. |
| ColorUtils.MatchHue | src/utils/colorUtils.ts:48 | `(\d+),\s*`: a maximal digit run, a comma, any white space, then the saturation stage. |
| ColorUtils.MatchSaturation | src/utils/colorUtils.ts:48 | `(\d+)%,\s*`: a maximal digit run, `%,`, any white space, then the lightness stage. |
| ColorUtils.MatchLightness | src/utils/colorUtils.ts:48 | `(\d+)%\)`: a maximal digit run and `%)`, capturing the run's value. |
| ColorUtils.ParseDigits | src/utils/colorUtils.ts:51 | `parseInt(…, 10)` of a digit run. `ParseNatText` proves it inverse to printing. |
| ColorUtils.DigitRun | src/utils/colorUtils.ts:48 | The `\d+` run at the front of the string is as long as possible: every character before it is a digit, and the next one is not. |
| ColorUtils.SplitDigits | src/utils/colorUtils.ts:48 | The run and the rest make up the string again. The run is all digits and the rest does not start with one. |
| ColorUtils.SplitDigitsOf | src/utils/colorUtils.ts:48 | Digits followed by a non-digit split exactly at that boundary. |
| ColorUtils.MatchHereOfDigits | src/utils/colorUtils.ts:48 | For any non-empty digit strings A, B and C, the pattern matches `hsl(A, B%, C%)` followed by any text and captures C. |
| ColorUtils.ParseNatText | src/utils/colorUtils.ts:51 | `parseInt` of a printed non-negative integer gives that integer back. |
| ColorUtils.MatchHereCssHsl | src/utils/colorUtils.ts:48 | The pattern matches a printed `hsl(H, S%, L%)`, whatever follows it, and captures L. |
| ColorUtils.CssHslLightText | src/utils/colorUtils.ts:46-54 | For non-negative integers, `shouldUseLightText("hsl(H, S%, L%)")` is L < 50. |
| ColorUtils.LeadingColorDecides | src/utils/colorUtils.ts:48-53 | A string that starts with a printed `hsl(H, S%, L%)` asks for light text iff L < 50, whatever follows. |
| ColorUtils.FirstColorWins | src/utils/colorUtils.ts:48-53 | With a light colour written before a dark one, the answer is false, although the dark one alone gives true: only the leftmost match is read. |
| ColorUtils.FractionalLightnessIsDark | src/utils/colorUtils.ts:48-49 | A lightness written with a fraction, such as `74.5%`, is not matched, so the answer is false. |
| ColorUtils.TextColorsRead | src/utils/colorUtils.ts:35-37 | `hsl(0, 0%, 95%)` reads as not dark. `hsl(0, 0%, 15%)` reads as dark. |
| ColorUtils.TextColorContrast | src/utils/colorUtils.ts:35-37 | Read back as a background, the chosen text colour wants light text iff the mood is not negative. |
| UseSentimentAnalysis.Colors | src/hooks/useSentimentAnalysis.ts:21-35 | With no analysis, the colours are the neutral base at intensity 0.5: primary hsl(210, 10, 75), secondary hsl(230, 10, 75), dark text. |
| UseSentimentAnalysis.IntensityPrefix | src/hooks/useSentimentAnalysis.ts:44-48 | "Slightly " below 0.3, "Moderately " on [0.3, 0.7), "Very " from 0.7. |
| UseSentimentAnalysis.MoodLabel | src/hooks/useSentimentAnalysis.ts:38-52 | "Neutral" with no analysis or no mood. Otherwise the intensity word, with a missing or zero intensity read as 0, then the capitalised mood. |
| UseSentimentAnalysis.Round | src/hooks/useSentimentAnalysis.ts:56 | `Math.round` gives the nearest integer, and halves round up. |
| UseSentimentAnalysis.Percentage | src/hooks/useSentimentAnalysis.ts:56 | A missing or zero intensity gives 50. An intensity in [0, 1] gives a value in [0, 100] within half a point of 100·i. |
| UseSentimentAnalysis.IntensityPercentage | src/hooks/useSentimentAnalysis.ts:55-57 | 50 with no analysis. In [0, 100] for an intensity in [0, 1]. |
| UseSentimentAnalysis.KeyWords | src/hooks/useSentimentAnalysis.ts:60-63 | Two empty lists with no analysis or no words. Otherwise the words unchanged. |
| UseSentimentAnalysis.AnalyzedKeyWords | src/hooks/useSentimentAnalysis.ts:60-63 | For an analysis the service made, the key words are the positive and negative words the sentiment library matched. |
| UseSentimentAnalysis.NoAnalysisIsBlankAnalysis | src/hooks/useSentimentAnalysis.ts:22-33 | Having no analysis colours the card like an analysis with no mood and no intensity. |
| UseSentimentAnalysis.ZeroIntensityDisagrees | src/hooks/useSentimentAnalysis.ts:44-56 | A zero intensity gives a "Slightly" label but 50 percent. |
| MoodIndicator.IntensityPercentage | src/components/MoodIndicator.tsx:72 | round(100·i), with a missing or zero intensity read as 0.5 (so 50). The value is within half a point of 100·i and lies in [0, 100] for i in [0, 1]. It equals the sentiment hook's percentage of the same analysis. |
| MoodIndicator.MoodLabel | src/components/MoodIndicator.tsx:75-85 | A missing or zero intensity gives "Moderately " before the mood. A missing mood reads as neutral. |
| MoodIndicator.ShownKeywords | src/components/MoodIndicator.tsx:105-114 | The first min(3, \|pos\|) positive words in order, then the first min(3, \|neg\|) negative words in order. Nothing when there are no words. |
| MoodIndicator.ShownAreLeadingKeyWords | src/components/MoodIndicator.tsx:105-112 | The words shown are the first three of each of the hook's key-word lists, positive first. |
| MoodIndicator.MeterColor | src/components/MoodIndicator.tsx:45-51 | #27ae60 iff positive, #e74c3c iff negative, #3498db iff neutral or missing. |
| MoodIndicator.LabelsAgreeExceptOnDefaults | src/components/MoodIndicator.tsx:75-85 | The component's label equals the hook's label when there is a mood and a non-zero intensity. The labels differ when the intensity is zero or missing. |
| QuoteCard.MoodLabel | src/components/QuoteCard.tsx:78-84 | Very Positive iff > 2, Positive iff in (0, 2], Neutral iff 0, Negative iff in (-2, 0), Very Negative iff ≤ -2. So every score gets exactly one label. |
| QuoteCard.Background | src/components/QuoteCard.tsx:29-35 | The background ladder's colour is always the one that belongs to the label's band. |
| QuoteCard.LabelColor | src/components/QuoteCard.tsx:63-69 | The label-colour ladder's colour is always the one that belongs to the label's band. |
| QuoteCard.LabelIsMonotone | src/components/QuoteCard.tsx:78-84 | A higher score never gets a lower label. |
| QuoteCard.LabelBoundaries | src/components/QuoteCard.tsx:79-83 | 2 gives Positive, 0 gives Neutral, and -2 gives Very Negative. |
| QuoteControls.Alert | src/components/QuoteControls.tsx:69-72 | "Quote added to favorites!" after an add. "This quote is already in your favorites." when it was there already. No message otherwise. |
| QuoteControls.ReadLegacy | src/components/QuoteControls.tsx:62-66 | A missing key reads as the empty list. A stored legacy list is returned as stored. An unparsable value, or a value of another shape, is a failure. |
| QuoteControls.HandleSaveFavorite | src/components/QuoteControls.tsx:58-73 | With no quote, nothing happens. An id already present gives the "already" outcome with storage unchanged. Otherwise the record is appended at the end of the list. An unparsable list or a failed write throws with storage unchanged. Only `favoriteQuotes` changes. |
| QuoteControls.SaveKeepsQuoteIdsUnique | src/components/QuoteControls.tsx:66-68 | Saving keeps `quote._id` unique in the list. |
| QuoteControls.SaveLeavesStoreAlone | src/components/QuoteControls.tsx:62-68 | The button never changes what the store's own keys read as. |
| UseQuote.CategoryError | src/hooks/useQuote.ts:81 | The category error message names the category. |
| UseQuote.AnalyzedQuoteOf | src/hooks/useQuote.ts:24 | Present iff both the quote and the analysis are. It is then the quote's fields plus the analysis. |
| UseQuote.NeedsNewQuote | src/hooks/useQuote.ts:33-35 | A fresh quote is wanted when forced, when none is stored, or when the stored one is from another local day. It has no contract of its own; `LoadQuote` states both branches it chooses between. |
| UseQuote.Record | src/hooks/useQuote.ts:40-54 | Storing a fetched quote and adding its history entry. Each write that fails leaves its key's reading, the favourites stay, and every key other than the current quote and the history is untouched. |
| UseQuote.InitialIsBlank | src/hooks/useQuote.ts:18-21 | The hook starts out loading, with no quote, analysis or error, and so satisfies the consistency invariant that the loads preserve. |
| UseQuote.LoadQuote | src/hooks/useQuote.ts:26-61 | Loading always ends. If today's stored quote is present: no fetch, no write, that quote is shown. If a new quote is needed and fetched: it is shown with the analysis of its text. A successful quote write stores it and a failed one leaves the stored quote. A successful history write prepends exactly one analyzed entry and a failed one leaves the history. Every other key, the favourites included, stays bound as before. On a failed fetch: the error is set, the prior quote and analysis stay, and storage is unchanged. |
| UseQuote.GetQuoteByCategory | src/hooks/useQuote.ts:63-86 | It always fetches. On success the quote is shown with its analysis. Each write that succeeds stores the quote or prepends one analyzed history entry, and each that fails leaves its key's reading. Every other key stays bound as before. On failure the error names the category and storage is unchanged. |
| UseQuote.LoadsKeepConsistency | src/hooks/useQuote.ts:45-49 | Both kinds of load keep the invariant that the analysis shown is the analysis of the quote shown. |
| UseQuote.FailedFirstLoad | src/__tests__/hooks/useQuote.test.tsx:46-58 | A failed first load leaves loading false, an error, and no quote. |
| UseQuote.SameDayReloadIsStable | src/hooks/useQuote.ts:32-43 | Loading again on the same day after a stored fetch changes neither the state nor storage. |

## Left out

- The `sentiment` library: its tokenizer, lexicon and comparative score are foreign code. Its result is an input: `AnalyzeMood` takes it directly, and `AnalyzeText` takes it as a function of the text.
- The quote service's HTTP calls (`src/services/quoteService.ts`): the fetch is an oracle that either yields a quote or fails. The network is not modelled.
- The connectivity-test script (`src/tools/testApiConnection.js`), with its five-second request timeout at line 30, is a separate tool and is not modelled.
- Dates: `new Date()`, `toISOString` and `toDateString` become a `Stamp` carrying the local calendar day. The time-zone conversion between the ISO stamp and the local day is not modelled.
- JSON: serialisation is the identity on the shapes the application writes. A value of another shape under a key (which no operation of the model produces, see `OperationsKeepShapes`) is read by the store as unreadable, like an unparsable text, and not passed through as JavaScript would. The favourite button treats it as a thrown exception. The source also reads an empty stored text as "nothing stored"; the application never writes one, and the model treats every unparsable text alike.
- ColorUtils.GetMoodColors: primary and secondary colours are three numbers, not the strings the source builds. JavaScript's printing of fractional numbers is not modelled. The text colour is kept as its string.
- `console.error` and `alert` are left out. The favourite button's alert is a returned outcome (`Alert`).
- React: `useState`, `useMemo`, `useEffect` and asynchronous interleaving are not modelled. Each load is one sequential transition, and the mount-time load is `LoadQuote` from `INITIAL` with `forceNew` false.
- Numbers are `real`: IEEE-754 rounding, NaN and the infinities are not modelled (a NaN score would fall through every comparison of the quote card's ladder).
- Malformed stored data is not modelled. A stored quote without a `date` makes the freshness check compare "Invalid Date" with today and so fetches a new quote. A stored quote without a `text` makes the analysis throw inside `loadQuote`'s `try`, after that quote has been shown, and the error is set (`src/hooks/useQuote.ts:45-56`). The model's stored quote always has both. The one exception that would escape is a mood name that is none of the three: `getMoodColors` finds no base colour for it (`src/utils/colorUtils.ts:17`) and reading its hue throws; the model's `Mood` has only the three names.
- The `comparative`, `positive` and `negative` fields of the declared `MoodAnalysis` interface are left out. `analyzeMood` never sets them, and no modelled consumer reads them.
- App wiring and types (`src/App.tsx`): `App` passes the flat `{...quote, analysis}` record to the favourite button, while the button reads `analyzedQuote.quote._id`. That mismatch lies outside the button's own code and is not modelled. The button is modelled on the nested record shape it declares.
- Rendering, styling, the layout component and the test files are left out.
