/** The authentication stub (src/lib/auth.ts) over the browser's key/value store. */
module Auth {
  import opened Wrappers

  const TokenKey: string := "token"
  const DummyToken: string := "dummy-token"

  /** The browser's `localStorage`: string keys mapped to string values. */
  class LocalStorage {
    var items: map<string, string>

    constructor ()
      ensures items == map[]
    {
      items := map[];
    }

    /** The stored value, or `null` when the key is absent. */
    function GetItem(key: string): (r: Option<string>)
      reads this
      ensures r.Some? <==> key in items
      ensures r.Some? ==> r.value == items[key]
    {
      if key in items then Some(items[key]) else None
    }

    method SetItem(key: string, value: string)
      modifies this
      ensures items == old(items)[key := value]
      ensures GetItem(key) == Some(value)
      ensures forall k :: k != key ==> GetItem(k) == old(GetItem(k))
    {
      items := items[key := value];
    }
  }

  /** Authenticated exactly when the token key holds a non-empty value. */
  function IsAuthenticated(storage: LocalStorage): (b: bool)
    reads storage
    ensures b <==> TokenKey in storage.items && storage.items[TokenKey] != ""
  {
    Truthy(storage.GetItem(TokenKey))
  }

  /**
    Accepts only the fixed demo credentials; on success it stores the dummy token, on
    failure it leaves the store alone.
  */
  method Login(storage: LocalStorage, username: string, password: string) returns (ok: bool)
    modifies storage
    ensures ok <==> username == "admin" && password == "password"
    ensures storage.items == if ok then old(storage.items)[TokenKey := DummyToken] else old(storage.items)
    ensures ok ==> IsAuthenticated(storage)
  {
    if username == "admin" && password == "password" {
      storage.SetItem(TokenKey, DummyToken);
      return true;
    }
    return false;
  }
}
