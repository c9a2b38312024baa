/** Browser local storage, seen by the pages as a map from string keys to
    string values. Reading a key that is not there yields no value. */
module Storage {
  import opened Wrappers

  type Store = map<string, string>

  /** `localStorage.getItem(key)`: the stored value, or nothing (`null`). */
  function Get(store: Store, key: string): (r: Option<string>)
    ensures r.Some? <==> key in store
    ensures r.Some? ==> r.value == store[key]
  {
    if key in store then Some(store[key]) else None
  }
}
