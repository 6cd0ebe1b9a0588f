/**
 * `handleSaveFavorite` of `src/components/QuoteControls.tsx`: a second favourites routine that
 * keeps its own list, of nested `{quote: {_id, content, author}, analysis}` records, under the
 * key `favoriteQuotes`, apart from the store's `bored_favorite_quotes`. Unlike the store it
 * catches nothing: an unreadable list or a failed write escapes as an exception.
 */
module QuoteControls {
  import opened Wrappers
  import opened Types
  import opened LocalStorage
  import StorageUtils

  const LEGACY_FAVORITES_KEY: string := "favoriteQuotes"

  const ADDED_MESSAGE: string := "Quote added to favorites!"
  const ALREADY_SAVED_MESSAGE: string := "This quote is already in your favorites."

  /** How a click ends: nothing to save, saved, saved before, or an uncaught exception. */
  datatype SaveOutcome = NothingToSave | Added | AlreadySaved | Threw

  datatype SaveResult = SaveResult(outcome: SaveOutcome, store: Storage)

  /** The alert shown to the user, if any. */
  function Alert(o: SaveOutcome): (m: Option<string>)
    ensures m.Some? <==> o == Added || o == AlreadySaved
    ensures o == Added ==> m == Some(ADDED_MESSAGE)
    ensures o == AlreadySaved ==> m == Some(ALREADY_SAVED_MESSAGE)
  {
    match o
    case Added => Some(ADDED_MESSAGE)
    case AlreadySaved => Some(ALREADY_SAVED_MESSAGE)
    case _ => None
  }

  /**
   * The list under `favoriteQuotes`: empty when the key is missing, none at all when the text
   * does not parse or holds something other than such a list (parsing or searching it throws).
   */
  function ReadLegacy(st: Storage): (r: Option<seq<LegacyFavorite>>)
    ensures LEGACY_FAVORITES_KEY !in st ==> r == Some([])
    ensures LEGACY_FAVORITES_KEY in st && st[LEGACY_FAVORITES_KEY].Corrupt? ==> r == None
    ensures LEGACY_FAVORITES_KEY in st && st[LEGACY_FAVORITES_KEY].Valid? && st[LEGACY_FAVORITES_KEY].value.LegacyList?
      ==> r == Some(st[LEGACY_FAVORITES_KEY].value.legacy)
    ensures LEGACY_FAVORITES_KEY in st && st[LEGACY_FAVORITES_KEY].Valid? && !st[LEGACY_FAVORITES_KEY].value.LegacyList?
      ==> r == None
  {
    if LEGACY_FAVORITES_KEY !in st then Some([])
    else if st[LEGACY_FAVORITES_KEY].Valid? && st[LEGACY_FAVORITES_KEY].value.LegacyList? then
      Some(st[LEGACY_FAVORITES_KEY].value.legacy)
    else None
  }

  /** Some saved record has this `quote._id`. */
  predicate HasQuoteId(favs: seq<LegacyFavorite>, id: string) {
    exists i :: 0 <= i < |favs| && favs[i].quote.id == id
  }

  ghost predicate UniqueQuoteIds(favs: seq<LegacyFavorite>) {
    forall i, j :: 0 <= i < j < |favs| ==> favs[i].quote.id != favs[j].quote.id
  }

  /**
   * A click on "Save as Favorite" with the quote on screen, if there is one. `ok` is whether
   * the storage write succeeds.
   */
  function HandleSaveFavorite(aq: Option<LegacyFavorite>, st: Storage, ok: bool): (r: SaveResult)
    ensures aq.None? ==> r == SaveResult(NothingToSave, st)
    ensures r.outcome != Added ==> r.store == st
    ensures r.outcome == Threw <==> aq.Some? && (ReadLegacy(st).None? || (!HasQuoteId(ReadLegacy(st).value, aq.value.quote.id) && !ok))
    ensures r.outcome == AlreadySaved <==> aq.Some? && ReadLegacy(st).Some? && HasQuoteId(ReadLegacy(st).value, aq.value.quote.id)
    ensures r.outcome == Added <==> aq.Some? && ReadLegacy(st).Some? && !HasQuoteId(ReadLegacy(st).value, aq.value.quote.id) && ok
    ensures r.outcome == Added ==> ReadLegacy(r.store) == Some(ReadLegacy(st).value + [aq.value])
    ensures AgreeExcept(st, r.store, LEGACY_FAVORITES_KEY)
  {
    if aq.None? then SaveResult(NothingToSave, st)
    else match ReadLegacy(st)
      case None => SaveResult(Threw, st)
      case Some(favorites) =>
        if HasQuoteId(favorites, aq.value.quote.id) then SaveResult(AlreadySaved, st)
        else if !ok then SaveResult(Threw, st)
        else SaveResult(Added, SetItem(st, LEGACY_FAVORITES_KEY, LegacyList(favorites + [aq.value]), ok))
  }

  /** Saving keeps `quote._id` unique in the list. */
  lemma SaveKeepsQuoteIdsUnique(aq: Option<LegacyFavorite>, st: Storage, ok: bool)
    requires ReadLegacy(st).Some? && UniqueQuoteIds(ReadLegacy(st).value)
    ensures ReadLegacy(HandleSaveFavorite(aq, st, ok).store).Some?
    ensures UniqueQuoteIds(ReadLegacy(HandleSaveFavorite(aq, st, ok).store).value)
  {
  }

  /** The button never touches the store's own keys. */
  lemma SaveLeavesStoreAlone(aq: Option<LegacyFavorite>, st: Storage, ok: bool)
    ensures var st' := HandleSaveFavorite(aq, st, ok).store;
      && StorageUtils.GetFavorites(st') == StorageUtils.GetFavorites(st)
      && StorageUtils.GetHistory(st') == StorageUtils.GetHistory(st)
      && StorageUtils.GetStoredQuote(st') == StorageUtils.GetStoredQuote(st)
  {
  }
}
