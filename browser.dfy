/** The browser state the front end touches: `localStorage` as a map from keys to strings,
    and the current location. */
module Browser {
  import opened Wrappers

  const TokenKey := "token"
  const UserKey := "user"

  /** The two keys that make up a persisted session. */
  const SessionKeys: set<string> := {TokenKey, UserKey}

  const LoginRoute := "/login"
  const HomeRoute := "/"

  class Window {
    var storage: map<string, string>
    var href: string

    constructor (storage0: map<string, string>, href0: string)
      ensures storage == storage0 && href == href0
    {
      storage := storage0;
      href := href0;
    }

    /** `localStorage.getItem(key)`: None where it returns null. */
    function GetItem(key: string): (v: Option<string>)
      reads this
      ensures v.Some? <==> key in storage
      ensures v.Some? ==> v.value == storage[key]
    {
      if key in storage then Some(storage[key]) else None
    }

    /** `localStorage.setItem(key, value)`. */
    method SetItem(key: string, value: string)
      modifies this
      ensures storage == old(storage)[key := value]
      ensures href == old(href)
    {
      storage := storage[key := value];
    }

    /** `localStorage.removeItem(key)`. */
    method RemoveItem(key: string)
      modifies this
      ensures storage == old(storage) - {key}
      ensures href == old(href)
    {
      storage := storage - {key};
    }

    /** Navigation, by `window.location.href = url` or by the router's `navigate(url)`. */
    method Navigate(url: string)
      modifies this
      ensures href == url
      ensures storage == old(storage)
    {
      href := url;
    }

    /** Removes both session keys, one after the other: the teardown shared by logout and
        the 401 handler. */
    method ClearSession()
      modifies this
      ensures storage == Cleared(old(storage))
      ensures href == old(href)
    {
      RemoveItem(TokenKey);
      RemoveItem(UserKey);
    }
  }

  /** The storage a session teardown leaves. */
  function Cleared(storage: map<string, string>): map<string, string> {
    storage - SessionKeys
  }

  /** Clearing a session twice is clearing it once (so two logouts leave what one leaves),
      and other keys survive it. */
  lemma ClearSessionIdempotent(storage: map<string, string>)
    ensures Cleared(Cleared(storage)) == Cleared(storage)
    ensures forall k :: k in storage && k !in SessionKeys ==> k in Cleared(storage) && Cleared(storage)[k] == storage[k]
    ensures TokenKey !in Cleared(storage) && UserKey !in Cleared(storage)
  {
  }
}
