/** The browser's key-value storage as the components use it, and the JSON
    codec as an abstract pair of functions. `localStorage` becomes an explicit
    map that operations take and return; `JSON.stringify` / `JSON.parse` become
    a `Codec`, and the round trip JSON guarantees is the hypothesis
    `Faithful` rather than an axiom. */
module Storage {
  import opened Wrappers

  type Store = map<string, string>

  /** An encoder and a decoder; `decode` answers `None` where `JSON.parse`
      throws. */
  datatype Codec<!T> = Codec(encode: T -> string, decode: string -> Option<T>)

  /** What `JSON.stringify` / `JSON.parse` promise for the values stored here:
      the text is never empty and parses back to the value. */
  ghost predicate Faithful<T(!new)>(c: Codec<T>) {
    forall t :: c.encode(t) != "" && c.decode(c.encode(t)) == Some(t)
  }

  /** `localStorage.getItem(key)` followed by the test `if (saved)`: a missing
      entry and an empty string both read as nothing stored. */
  function GetItem(store: Store, key: string): (r: Option<string>)
    ensures r.Some? <==> key in store && store[key] != ""
    ensures r.Some? ==> r.value == store[key]
  {
    if key in store && store[key] != "" then Some(store[key]) else None
  }

  /** `localStorage.setItem(key, value)`: that entry replaced, the others kept. */
  function SetItem(store: Store, key: string, value: string): (r: Store)
    ensures key in r && r[key] == value
    ensures forall k :: k != key ==> (k in r <==> k in store)
    ensures forall k :: k != key && k in store ==> r[k] == store[k]
  {
    store[key := value]
  }
}
