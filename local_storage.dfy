/** The browser's `localStorage`: one string-to-string map shared by every component. */
module LocalStorage {
  import opened Wrappers

  const TokenKey := "token"
  const UsernameKey := "username"
  const LastActivityKey := "lastActivityTime"

  /** `!!localStorage.getItem(key)`: the key is present with a non-empty value. */
  predicate Has(items: map<string, string>, key: string) {
    key in items && items[key] != ""
  }

  class Storage {
    var items: map<string, string>

    constructor (initial: map<string, string>)
      ensures items == initial
    {
      items := initial;
    }

    method GetItem(key: string) returns (v: Option<string>)
      ensures v.Some? <==> key in items
      ensures v.Some? ==> v.value == items[key]
    {
      v := if key in items then Some(items[key]) else None;
    }

    method SetItem(key: string, value: string)
      modifies this
      ensures items == old(items)[key := value]
    {
      items := items[key := value];
    }

    method RemoveItem(key: string)
      modifies this
      ensures items == old(items) - {key}
    {
      items := items - {key};
    }
  }
}
