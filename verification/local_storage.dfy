/**
 * The browser's `localStorage` as the application uses it: a map from key to stored text.
 * JSON serialisation is modelled as the identity on the closed set of shapes the application
 * writes, and a stored text that does not parse is `Corrupt`.
 */
module LocalStorage {
  import opened Types

  /** The shapes the application serialises into storage. */
  datatype Value =
    | QuoteDoc(quote: Quote)
    | FavoriteList(favorites: seq<AnalyzedQuote>)
    | HistoryList(history: seq<HistoryEntry>)
    | LegacyList(legacy: seq<LegacyFavorite>)

  /** A stored text: either the JSON of a value or something `JSON.parse` rejects. */
  datatype Stored = Valid(value: Value) | Corrupt

  type Storage = map<string, Stored>

  /** Every key outside `keys` is bound in `st'` exactly as in `st`. */
  ghost predicate AgreeOutside(st: Storage, st': Storage, keys: set<string>) {
    forall k | k !in keys :: (k in st <==> k in st') && (k in st ==> st[k] == st'[k])
  }

  /** Every key other than `key` is bound in `st'` exactly as in `st`. */
  ghost predicate AgreeExcept(st: Storage, st': Storage, key: string) {
    forall k | k != key :: (k in st <==> k in st') && (k in st ==> st[k] == st'[k])
  }

  /**
   * Serialise `v` and store it under `key`. The write may fail (a full quota, a
   * blocked store); `ok` is that outcome, and a failed write changes nothing.
   */
  function SetItem(st: Storage, key: string, v: Value, ok: bool): (st': Storage)
    ensures ok ==> key in st' && st'[key] == Valid(v)
    ensures !ok ==> st' == st
    ensures AgreeExcept(st, st', key)
  {
    if ok then st[key := Valid(v)] else st
  }
}
