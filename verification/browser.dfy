/**
 * The parts of the browser environment the frontend touches, as plain
 * values: whether `window` exists, the class list of the document element,
 * `localStorage`, and the location the page was sent to.
 */
module Browser {
  import opened Wrappers

  type Storage = map<string, string>

  /**
   * `hasWindow` is `typeof window !== "undefined"`; `location` is `None`
   * until a handler assigns `window.location.href`.
   */
  datatype Env = Env(hasWindow: bool, classes: set<string>, storage: Storage, location: Option<string>)

  /** `localStorage.getItem(key)`: `null` for a missing key. */
  function GetItem(s: Storage, key: string): (r: Option<string>)
    ensures r.Some? <==> key in s
    ensures r.Some? ==> r.value == s[key]
  {
    if key in s then Some(s[key]) else None
  }

  /** `localStorage.setItem(key, value)`. */
  function SetItem(s: Storage, key: string, value: string): (r: Storage)
    ensures GetItem(r, key) == Some(value)
    ensures forall k :: k != key ==> GetItem(r, k) == GetItem(s, k)
  {
    s[key := value]
  }

  /** `localStorage.removeItem(key)`: removing a missing key is harmless. */
  function RemoveItem(s: Storage, key: string): (r: Storage)
    ensures GetItem(r, key) == None
    ensures forall k :: k != key ==> GetItem(r, k) == GetItem(s, k)
  {
    s - {key}
  }

  /** Two storages agree on every key other than those in `keys`. */
  ghost predicate SameOutside(a: Storage, b: Storage, keys: set<string>) {
    forall k :: k !in keys ==> GetItem(a, k) == GetItem(b, k)
  }

  /** Two class lists agree on every class other than `c`. */
  ghost predicate SameClassesOutside(a: set<string>, b: set<string>, c: string) {
    forall x :: x != c ==> (x in a <==> x in b)
  }
}
