/**
 * Browser `localStorage` as the components use it: string keys, string values,
 * with the values written by `JSON.stringify` and read back by `JSON.parse`.
 */
module Storage {
  import opened Wrappers
  import opened Summaries

  /**
   * A stored string. `Encoded(items)` stands for every text that `JSON.parse`
   * turns into the array `items` (in particular what `JSON.stringify(items)`
   * produced); `Malformed(text)` for every text it rejects, the empty string included.
   */
  datatype Blob = Encoded(items: seq<Summary>) | Malformed(text: string)

  /** `JSON.parse`: a list of summaries, or `None` where it would throw. */
  function Parse(b: Blob): (r: Option<seq<Summary>>)
    ensures r.Some? <==> b.Encoded?
    ensures b.Encoded? ==> r == Some(b.items)
  {
    match b
    case Encoded(xs) => Some(xs)
    case Malformed(_) => None
  }

  /** JavaScript truthiness of the string `getItem` returned: only the empty string is falsy. */
  predicate Truthy(b: Blob) {
    b != Malformed("")
  }

  /** The key-value store; one object shared by every component. */
  class LocalStorage {
    var items: map<string, Blob>

    constructor (initial: map<string, Blob>)
      ensures items == initial
    {
      items := initial;
    }

    /** `localStorage.getItem(key)`: `None` for a key never written (JavaScript's `null`). */
    method GetItem(key: string) returns (v: Option<Blob>)
      ensures v.Some? <==> key in items
      ensures key in items ==> v == Some(items[key])
    {
      v := if key in items then Some(items[key]) else None;
    }

    /** `localStorage.setItem(key, value)`: replaces one key, leaves every other key alone. */
    method SetItem(key: string, value: Blob)
      modifies this
      ensures items == old(items)[key := value]
    {
      items := items[key := value];
    }
  }
}
