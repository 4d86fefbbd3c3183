/**
  The browser's localStorage as the application uses it: a map from keys to the
  values the application writes there (already parsed from JSON).
 */
module Storage {
  import opened Wrappers

  /** A todo item as it is kept under the `todos` key; the legacy list writes no `completed`. */
  datatype StoredTodo = StoredTodo(id: string, text: string, completed: Option<bool>)

  /** A registered user as it is kept under the `registeredUsers` key. */
  datatype StoredUser = StoredUser(username: string, groupName: string, email: string, password: string, createdAt: string)

  /** The values the application stores. */
  datatype Value =
    | Flag(flag: bool)                                    // `cookieConsent`
    | Text(text: string)                                  // `theme`, `jwt`
    | AuthRecord(isAuthenticated: bool, role: string)     // `auth`
    | TodoItems(items: seq<StoredTodo>)                   // `todos`
    | UserRecords(users: seq<StoredUser>)                 // `registeredUsers`

  /** What `getlocalStorage(key)` reads from `entries`: the stored value, or `null` when the key is absent. */
  function Lookup(entries: map<string, Value>, key: string): Option<Value> {
    if key in entries then Some(entries[key]) else None
  }

  /** After writing `data` under `key`, `key` reads back `data` and every other key reads as before. */
  lemma LookupAfterSave(entries: map<string, Value>, key: string, data: Value, other: string)
    ensures Lookup(entries[key := data], key) == Some(data)
    ensures other != key ==> Lookup(entries[key := data], other) == Lookup(entries, other)
  {
  }

  /** After removing `key`, it reads as absent and every other key reads as before. */
  lemma LookupAfterRemove(entries: map<string, Value>, key: string, other: string)
    ensures Lookup(entries - {key}, key) == None
    ensures other != key ==> Lookup(entries - {key}, other) == Lookup(entries, other)
  {
  }

  /** The one localStorage of the page, shared by every component that holds it. */
  class LocalStorage {
    var entries: map<string, Value>

    constructor (initial: map<string, Value>)
      ensures entries == initial
    {
      entries := initial;
    }

    /** `savelocalStorage(key, data)`: `key` now holds `data` (see `LookupAfterSave`). */
    method Save(key: string, data: Value)
      modifies this
      ensures entries == old(entries)[key := data]
    {
      entries := entries[key := data];
    }

    /** `getlocalStorage(key)`: the value under `key`, or nothing when the key is absent. */
    method Get(key: string) returns (r: Option<Value>)
      ensures r.Some? <==> key in entries
      ensures r.Some? ==> r.value == entries[key]
    {
      r := Lookup(entries, key);
    }

    /** `removelocaStorage(key)`: `key` is no longer stored (see `LookupAfterRemove`). */
    method Remove(key: string)
      modifies this
      ensures entries == old(entries) - {key}
    {
      entries := entries - {key};
    }
  }
}
