/**
 * The quote-state store of `src/utils/storageUtils.ts`: the current quote, a favourites list
 * kept unique by quote id, and a most-recent-first history capped at fifty entries, each
 * under its own key. Reads never fail: a missing key or an unreadable value reads as empty.
 * Writes are best-effort: a failed write is logged and dropped, leaving storage as it was.
 */
module StorageUtils {
  import opened Wrappers
  import opened Types
  import opened LocalStorage

  const CURRENT_QUOTE_KEY: string := "bored_current_quote"
  const FAVORITE_QUOTES_KEY: string := "bored_favorite_quotes"
  const QUOTE_HISTORY_KEY: string := "bored_quote_history"

  /** The number of history entries kept. */
  const HISTORY_LIMIT: nat := 50

  /** The key holds nothing the reader can use: it is missing or its text does not parse. */
  predicate Unreadable(st: Storage, key: string) {
    key !in st || st[key].Corrupt?
  }

  // ---------------------------------------------------------------- current quote

  /** `getStoredQuote`: the stored quote, or none when the key is missing or unreadable. */
  function GetStoredQuote(st: Storage): (r: Option<Quote>)
    ensures Unreadable(st, CURRENT_QUOTE_KEY) ==> r == None
    ensures r.Some? <==> CURRENT_QUOTE_KEY in st && st[CURRENT_QUOTE_KEY].Valid? && st[CURRENT_QUOTE_KEY].value.QuoteDoc?
    ensures r.Some? ==> st[CURRENT_QUOTE_KEY] == Valid(QuoteDoc(r.value))
  {
    if CURRENT_QUOTE_KEY in st && st[CURRENT_QUOTE_KEY].Valid? && st[CURRENT_QUOTE_KEY].value.QuoteDoc?
    then Some(st[CURRENT_QUOTE_KEY].value.quote)
    else None
  }

  /** `storeQuote`: overwrite the current quote; reading it back gives the quote. */
  function StoreQuote(st: Storage, q: Quote, ok: bool): (st': Storage)
    ensures ok ==> GetStoredQuote(st') == Some(q)
    ensures !ok ==> st' == st
    ensures AgreeExcept(st, st', CURRENT_QUOTE_KEY)
  {
    SetItem(st, CURRENT_QUOTE_KEY, QuoteDoc(q), ok)
  }

  // ---------------------------------------------------------------- favourites

  /** Some entry of `favs` has quote id `id`. */
  predicate HasId(favs: seq<AnalyzedQuote>, id: string) {
    exists i :: 0 <= i < |favs| && favs[i].id == id
  }

  /** No two entries share a quote id. */
  ghost predicate UniqueIds(favs: seq<AnalyzedQuote>) {
    forall i, j :: 0 <= i < j < |favs| ==> favs[i].id != favs[j].id
  }

  /** `getFavorites`: the stored favourites, or the empty list when none can be read. */
  function GetFavorites(st: Storage): (r: seq<AnalyzedQuote>)
    ensures Unreadable(st, FAVORITE_QUOTES_KEY) ==> r == []
    ensures FAVORITE_QUOTES_KEY in st && st[FAVORITE_QUOTES_KEY].Valid? && st[FAVORITE_QUOTES_KEY].value.FavoriteList?
      ==> r == st[FAVORITE_QUOTES_KEY].value.favorites
    ensures r != [] ==> st[FAVORITE_QUOTES_KEY] == Valid(FavoriteList(r))
  {
    if FAVORITE_QUOTES_KEY in st && st[FAVORITE_QUOTES_KEY].Valid? && st[FAVORITE_QUOTES_KEY].value.FavoriteList?
    then st[FAVORITE_QUOTES_KEY].value.favorites
    else []
  }

  /**
   * `addToFavorites`: a quote whose id is already a favourite changes nothing; otherwise it is
   * appended after the existing favourites and the list is written back. Unreadable favourites
   * read as empty, so the write replaces them with the one new entry.
   */
  function AddToFavorites(st: Storage, e: AnalyzedQuote, ok: bool): (st': Storage)
    ensures HasId(GetFavorites(st), e.id) ==> st' == st
    ensures !HasId(GetFavorites(st), e.id) && ok ==> GetFavorites(st') == GetFavorites(st) + [e]
    ensures Unreadable(st, FAVORITE_QUOTES_KEY) && ok ==> st'[FAVORITE_QUOTES_KEY] == Valid(FavoriteList([e]))
    ensures !ok ==> st' == st
    ensures AgreeExcept(st, st', FAVORITE_QUOTES_KEY)
  {
    var favorites := GetFavorites(st);
    if HasId(favorites, e.id) then st
    else SetItem(st, FAVORITE_QUOTES_KEY, FavoriteList(favorites + [e]), ok)
  }

  /** The entries of `favs` whose quote id is not `id`, in their order. */
  function Without(favs: seq<AnalyzedQuote>, id: string): (r: seq<AnalyzedQuote>)
    ensures forall x :: x in r <==> x in favs && x.id != id
    ensures !HasId(r, id)
    ensures !HasId(favs, id) ==> r == favs
    ensures |r| <= |favs|
  {
    if |favs| == 0 then []
    else if favs[0].id == id then Without(favs[1..], id)
    else [favs[0]] + Without(favs[1..], id)
  }

  /**
   * `removeFromFavorites`: write back the favourites without the entries of that id. The
   * write happens even when nothing matched, so it also turns unreadable favourites into an
   * empty list.
   */
  function RemoveFromFavorites(st: Storage, id: string, ok: bool): (st': Storage)
    ensures ok ==> GetFavorites(st') == Without(GetFavorites(st), id)
    ensures ok ==> FAVORITE_QUOTES_KEY in st' && st'[FAVORITE_QUOTES_KEY].Valid?
    ensures !HasId(GetFavorites(st), id) ==> GetFavorites(st') == GetFavorites(st)
    ensures !ok ==> st' == st
    ensures AgreeExcept(st, st', FAVORITE_QUOTES_KEY)
  {
    SetItem(st, FAVORITE_QUOTES_KEY, FavoriteList(Without(GetFavorites(st), id)), ok)
  }

  // ---------------------------------------------------------------- history

  /** The first `n` elements of `s`, or all of it when it is shorter. */
  function Take<T>(s: seq<T>, n: nat): (r: seq<T>)
    ensures |r| == if |s| <= n then |s| else n
    ensures r == s[..|r|]
  {
    if |s| <= n then s else s[..n]
  }

  /** `getHistory`: the stored history, or the empty list when none can be read. */
  function GetHistory(st: Storage): (r: seq<HistoryEntry>)
    ensures Unreadable(st, QUOTE_HISTORY_KEY) ==> r == []
    ensures QUOTE_HISTORY_KEY in st && st[QUOTE_HISTORY_KEY].Valid? && st[QUOTE_HISTORY_KEY].value.HistoryList?
      ==> r == st[QUOTE_HISTORY_KEY].value.history
    ensures r != [] ==> st[QUOTE_HISTORY_KEY] == Valid(HistoryList(r))
  {
    if QUOTE_HISTORY_KEY in st && st[QUOTE_HISTORY_KEY].Valid? && st[QUOTE_HISTORY_KEY].value.HistoryList?
    then st[QUOTE_HISTORY_KEY].value.history
    else []
  }

  /**
   * `h'` is `h` with `v` put in front and cut back to the limit, so that only the oldest
   * entries can have fallen off.
   */
  predicate Prepended(h': seq<HistoryEntry>, v: HistoryEntry, h: seq<HistoryEntry>) {
    && |h'| == (if |h| + 1 <= HISTORY_LIMIT then |h| + 1 else HISTORY_LIMIT)
    && h'[0] == v
    && h'[1..] == h[..|h'| - 1]
  }

  /**
   * `addToHistory`: put the entry, stamped with the moment `now` it was viewed, in front of the
   * history and keep the first fifty entries, so that only the oldest ones fall off.
   */
  function AddToHistory(st: Storage, e: AnalyzedQuote, now: Stamp, ok: bool): (st': Storage)
    ensures ok ==> Prepended(GetHistory(st'), HistoryEntry(e, now), GetHistory(st))
    ensures Unreadable(st, QUOTE_HISTORY_KEY) && ok ==> st'[QUOTE_HISTORY_KEY] == Valid(HistoryList([HistoryEntry(e, now)]))
    ensures !ok ==> st' == st
    ensures AgreeExcept(st, st', QUOTE_HISTORY_KEY)
  {
    var history := [HistoryEntry(e, now)] + GetHistory(st);
    SetItem(st, QUOTE_HISTORY_KEY, HistoryList(Take(history, HISTORY_LIMIT)), ok)
  }

  // ---------------------------------------------------------------- properties

  /** Adding to the favourites keeps quote ids unique. */
  lemma AddToFavoritesKeepsIdsUnique(st: Storage, e: AnalyzedQuote, ok: bool)
    requires UniqueIds(GetFavorites(st))
    ensures UniqueIds(GetFavorites(AddToFavorites(st, e, ok)))
  {
  }

  /**
   * Adding the same quote twice leaves at most one entry with its id: once the first add has
   * landed, the second one is a no-op.
   */
  lemma AddToFavoritesTwiceIsOnce(st: Storage, e: AnalyzedQuote, ok1: bool, ok2: bool)
    requires UniqueIds(GetFavorites(st))
    ensures var st1 := AddToFavorites(st, e, ok1);
      && (ok1 || HasId(GetFavorites(st), e.id) ==> AddToFavorites(st1, e, ok2) == st1)
      && UniqueIds(GetFavorites(AddToFavorites(st1, e, ok2)))
  {
    var st1 := AddToFavorites(st, e, ok1);
    AddToFavoritesKeepsIdsUnique(st, e, ok1);
    AddToFavoritesKeepsIdsUnique(st1, e, ok2);
    if ok1 && !HasId(GetFavorites(st), e.id) {
      var favs1 := GetFavorites(st1);
      assert favs1[|favs1| - 1] == e;
      assert HasId(favs1, e.id);
    }
  }

  /** Filtering a list is filtering its two halves: the survivors keep their relative order. */
  lemma {:induction false} WithoutKeepsOrder(a: seq<AnalyzedQuote>, b: seq<AnalyzedQuote>, id: string)
    ensures Without(a + b, id) == Without(a, id) + Without(b, id)
  {
    if |a| == 0 {
      assert a + b == b;
    } else {
      assert (a + b)[0] == a[0];
      assert (a + b)[1..] == a[1..] + b;
      WithoutKeepsOrder(a[1..], b, id);
    }
  }

  /** Removing keeps quote ids unique (the survivors are a sub-sequence of the old list). */
  lemma {:induction false} WithoutKeepsIdsUnique(favs: seq<AnalyzedQuote>, id: string)
    requires UniqueIds(favs)
    ensures UniqueIds(Without(favs, id))
  {
    if |favs| > 0 {
      WithoutKeepsIdsUnique(favs[1..], id);
      if favs[0].id != id {
        HeadIdNotInTail(favs);
        var rest := Without(favs[1..], id);
        var r := [favs[0]] + rest;
        forall i, j | 0 <= i < j < |r| ensures r[i].id != r[j].id {
          assert r[j] == rest[j - 1] && rest[j - 1] in rest;
          if i > 0 {
            assert r[i] == rest[i - 1];
          }
        }
      }
    }
  }

  lemma HeadIdNotInTail(favs: seq<AnalyzedQuote>)
    requires |favs| > 0 && UniqueIds(favs)
    ensures forall y :: y in favs[1..] ==> y.id != favs[0].id
  {
    forall y | y in favs[1..] ensures y.id != favs[0].id {
      var k :| 0 <= k < |favs| - 1 && favs[1..][k] == y;
      assert favs[k + 1] == y;
    }
  }

  /** Every read-modify-write of the store keeps the current quote where it was. */
  lemma ListOperationsKeepCurrentQuote(st: Storage, e: AnalyzedQuote, id: string, now: Stamp, ok: bool)
    ensures GetStoredQuote(AddToFavorites(st, e, ok)) == GetStoredQuote(st)
    ensures GetStoredQuote(RemoveFromFavorites(st, id, ok)) == GetStoredQuote(st)
    ensures GetStoredQuote(AddToHistory(st, e, now, ok)) == GetStoredQuote(st)
    ensures GetHistory(AddToFavorites(st, e, ok)) == GetHistory(st)
    ensures GetFavorites(AddToHistory(st, e, now, ok)) == GetFavorites(st)
    ensures GetFavorites(StoreQuote(st, QuoteOf(e), ok)) == GetFavorites(st)
    ensures GetHistory(StoreQuote(st, QuoteOf(e), ok)) == GetHistory(st)
  {
    KeysDiffer();
    ReadingsOutside(st, AddToFavorites(st, e, ok), FAVORITE_QUOTES_KEY);
    ReadingsOutside(st, RemoveFromFavorites(st, id, ok), FAVORITE_QUOTES_KEY);
    ReadingsOutside(st, AddToHistory(st, e, now, ok), QUOTE_HISTORY_KEY);
    ReadingsOutside(st, StoreQuote(st, QuoteOf(e), ok), CURRENT_QUOTE_KEY);
  }

  /** The three keys of the store are distinct. */
  lemma KeysDiffer()
    ensures CURRENT_QUOTE_KEY != FAVORITE_QUOTES_KEY
    ensures CURRENT_QUOTE_KEY != QUOTE_HISTORY_KEY
    ensures FAVORITE_QUOTES_KEY != QUOTE_HISTORY_KEY
  {
    assert |CURRENT_QUOTE_KEY| != |FAVORITE_QUOTES_KEY|;
    assert CURRENT_QUOTE_KEY[6] != QUOTE_HISTORY_KEY[6];
    assert |FAVORITE_QUOTES_KEY| != |QUOTE_HISTORY_KEY|;
  }

  /** A change confined to one key leaves the readings of the other keys as they were. */
  lemma ReadingsOutside(st: Storage, st': Storage, key: string)
    requires AgreeExcept(st, st', key)
    ensures key != CURRENT_QUOTE_KEY ==> GetStoredQuote(st') == GetStoredQuote(st)
    ensures key != FAVORITE_QUOTES_KEY ==> GetFavorites(st') == GetFavorites(st)
    ensures key != QUOTE_HISTORY_KEY ==> GetHistory(st') == GetHistory(st)
  {
  }

  /**
   * Each of the store's keys holds, when it parses, the shape its own operations write. Reads
   * treat any other shape as unreadable; no operation here ever produces one.
   */
  ghost predicate WellShaped(st: Storage) {
    && (CURRENT_QUOTE_KEY in st && st[CURRENT_QUOTE_KEY].Valid? ==> st[CURRENT_QUOTE_KEY].value.QuoteDoc?)
    && (FAVORITE_QUOTES_KEY in st && st[FAVORITE_QUOTES_KEY].Valid? ==> st[FAVORITE_QUOTES_KEY].value.FavoriteList?)
    && (QUOTE_HISTORY_KEY in st && st[QUOTE_HISTORY_KEY].Valid? ==> st[QUOTE_HISTORY_KEY].value.HistoryList?)
  }

  lemma OperationsKeepShapes(st: Storage, q: Quote, e: AnalyzedQuote, id: string, now: Stamp, ok: bool)
    requires WellShaped(st)
    ensures WellShaped(StoreQuote(st, q, ok))
    ensures WellShaped(AddToFavorites(st, e, ok))
    ensures WellShaped(RemoveFromFavorites(st, id, ok))
    ensures WellShaped(AddToHistory(st, e, now, ok))
  {
  }

  /** `s` back to front. */
  function Reverse<T>(s: seq<T>): (r: seq<T>)
    ensures |r| == |s|
    ensures forall i :: 0 <= i < |s| ==> r[i] == s[|s| - 1 - i]
  {
    if |s| == 0 then [] else Reverse(s[1..]) + [s[0]]
  }

  /** View a sequence of quotes one after another, every history write succeeding. */
  function ViewAll(st: Storage, views: seq<HistoryEntry>): Storage
    decreases |views|
  {
    if |views| == 0 then st
    else ViewAll(AddToHistory(st, views[0].entry, views[0].viewed, true), views[1..])
  }

  lemma TakeOfTake<T>(a: seq<T>, b: seq<T>, n: nat)
    ensures Take(a + Take(b, n), n) == Take(a + b, n)
  {
  }

  lemma ViewFirst(st: Storage, views: seq<HistoryEntry>)
    requires |views| > 0
    ensures ViewAll(st, views) == ViewAll(AddToHistory(st, views[0].entry, views[0].viewed, true), views[1..])
  {
  }

  lemma ReverseFirst<T>(s: seq<T>)
    requires |s| > 0
    ensures Reverse(s) == Reverse(s[1..]) + [s[0]]
  {
  }

  /**
   * After viewing a sequence of quotes the history is the newest fifty entries, newest first:
   * the views in reverse order followed by the history that was there before.
   */
  lemma {:induction false} HistoryKeepsNewest(st: Storage, views: seq<HistoryEntry>)
    requires |views| > 0
    ensures GetHistory(ViewAll(st, views)) == Take(Reverse(views) + GetHistory(st), HISTORY_LIMIT)
    decreases |views|
  {
    var v, rest := views[0], views[1..];
    var st1 := AddToHistory(st, v.entry, v.viewed, true);
    var h := GetHistory(st);
    ViewFirst(st, views);
    ReverseFirst(views);
    AddToHistoryPrepends(st, v);
    if |rest| == 0 {
      assert ViewAll(st1, rest) == st1;
      assert Reverse(views) + h == [v] + h;
    } else {
      HistoryKeepsNewest(st1, rest);
      TakeOfTake(Reverse(rest), [v] + h, HISTORY_LIMIT);
      assert Reverse(rest) + ([v] + h) == Reverse(views) + h;
    }
  }

  /** One successful history write, stated as the slice the source takes. */
  lemma AddToHistoryPrepends(st: Storage, v: HistoryEntry)
    ensures GetHistory(AddToHistory(st, v.entry, v.viewed, true)) == Take([v] + GetHistory(st), HISTORY_LIMIT)
  {
  }

  /** Viewing fifty or more quotes leaves exactly the last fifty viewed, newest first. */
  lemma HistoryIsCapped(st: Storage, views: seq<HistoryEntry>)
    requires |views| >= HISTORY_LIMIT
    ensures var h := GetHistory(ViewAll(st, views));
      && |h| == HISTORY_LIMIT
      && forall i :: 0 <= i < HISTORY_LIMIT ==> h[i] == views[|views| - 1 - i]
  {
    HistoryKeepsNewest(st, views);
    var all := Reverse(views) + GetHistory(st);
    forall i | 0 <= i < HISTORY_LIMIT ensures all[i] == views[|views| - 1 - i] {
      assert all[i] == Reverse(views)[i];
    }
  }
}
