/** The user slice of the Redux store: the signed-in user and the authentication flag, with
    the reducers that tie them to the session persisted in `localStorage`. */
module UserStore {
  import opened Wrappers
  import opened Types
  import Js
  import Browser

  /** JSON.parse of a persisted user record, kept abstract: None where it throws, Some(None)
      where the text is `null`, Some(Some(u)) for a user record. */
  type UserParser = string -> Option<Option<User>>

  /** What initializeUser finds in storage. */
  datatype Restore = NoSession | Restored(user: Option<User>) | Corrupt

  /** The decision initializeUser takes: both keys present and non-empty, then the parse. */
  function RestoreFrom(storage: map<string, string>, parse: UserParser): (r: Restore)
    ensures r.NoSession? <==> !(Browser.TokenKey in storage && storage[Browser.TokenKey] != ""
                               && Browser.UserKey in storage && storage[Browser.UserKey] != "")
    ensures r.Restored? ==> parse(storage[Browser.UserKey]) == Some(r.user)
    ensures r.Corrupt? ==> parse(storage[Browser.UserKey]).None?
  {
    var token := if Browser.TokenKey in storage then Some(storage[Browser.TokenKey]) else None;
    var userStr := if Browser.UserKey in storage then Some(storage[Browser.UserKey]) else None;
    if Js.StrTruthy(token) && Js.StrTruthy(userStr) then
      match parse(userStr.value)
      case Some(u) => Restored(u)
      case None => Corrupt
    else NoSession
  }

  class UserSlice {
    var currentUser: Option<User>
    var isAuthenticated: bool
    var loading: bool
    var error: Option<string>

    /** The session invariant: authenticated exactly when a user is held. */
    predicate Consistent()
      reads this
    {
      isAuthenticated <==> currentUser.Some?
    }

    constructor ()
      ensures currentUser == None && !isAuthenticated && !loading && error == None
      ensures Consistent()
    {
      currentUser := None;
      isAuthenticated := false;
      loading := false;
      error := None;
    }

    method SetLoading(value: bool)
      modifies this
      ensures loading == value
      ensures currentUser == old(currentUser) && isAuthenticated == old(isAuthenticated)
      ensures error == old(error)
    {
      loading := value;
    }

    /** `isAuthenticated = !!user`; `loading` is not touched. */
    method SetCurrentUser(user: Option<User>)
      modifies this
      ensures currentUser == user && isAuthenticated == user.Some? && error == None
      ensures loading == old(loading)
      ensures Consistent()
    {
      currentUser := user;
      isAuthenticated := user.Some?;
      error := None;
    }

    method SetError(message: string)
      modifies this
      ensures error == Some(message) && !loading
      ensures currentUser == old(currentUser) && isAuthenticated == old(isAuthenticated)
    {
      error := Some(message);
      loading := false;
    }

    method ClearError()
      modifies this
      ensures error == None
      ensures currentUser == old(currentUser) && isAuthenticated == old(isAuthenticated)
      ensures loading == old(loading)
    {
      error := None;
    }

    /** Signs out and removes `token` and `user` from storage; other keys are kept. */
    method Logout(window: Browser.Window)
      modifies this, window
      ensures currentUser == None && !isAuthenticated && error == None
      ensures loading == old(loading)
      ensures window.storage == Browser.Cleared(old(window.storage))
      ensures window.href == old(window.href)
      ensures Consistent()
    {
      currentUser := None;
      isAuthenticated := false;
      error := None;
      window.ClearSession();
    }

    /** Restores the session from storage. A record that does not parse is removed together
        with the token (fail closed); the state fields are then left as they were. */
    method InitializeUser(window: Browser.Window, parse: UserParser)
      modifies this, window
      ensures loading == old(loading) && error == old(error)
      ensures window.href == old(window.href)
      ensures match RestoreFrom(old(window.storage), parse)
        case NoSession =>
          && window.storage == old(window.storage)
          && currentUser == old(currentUser) && isAuthenticated == old(isAuthenticated)
        case Restored(u) =>
          && window.storage == old(window.storage)
          && currentUser == u && isAuthenticated
        case Corrupt =>
          && window.storage == Browser.Cleared(old(window.storage))
          && currentUser == old(currentUser) && isAuthenticated == old(isAuthenticated)
      ensures old(Consistent()) && !RestoreFrom(old(window.storage), parse).Restored? ==> Consistent()
      ensures RestoreFrom(old(window.storage), parse).Restored? ==>
        (Consistent() <==> RestoreFrom(old(window.storage), parse).user.Some?)
    {
      var token := window.GetItem(Browser.TokenKey);
      var userStr := window.GetItem(Browser.UserKey);
      if Js.StrTruthy(token) && Js.StrTruthy(userStr) {
        var parsed := parse(userStr.value);
        if parsed.Some? {
          currentUser := parsed.value;
          isAuthenticated := true;
        } else {
          window.ClearSession();
        }
      }
    }
  }

  /** After a logout (or a 401 teardown) there is no session left to restore. */
  lemma NothingToRestoreAfterTeardown(storage: map<string, string>, parse: UserParser)
    ensures RestoreFrom(Browser.Cleared(storage), parse) == NoSession
  {
  }

  /** A corrupt record is removed, and a second initializeUser then finds no session. */
  lemma CorruptRestoresOnce(storage: map<string, string>, parse: UserParser)
    requires RestoreFrom(storage, parse) == Corrupt
    ensures RestoreFrom(Browser.Cleared(storage), parse) == NoSession
  {
  }

  /** A persisted `null` user restores an authenticated session with no user: initializeUser
      breaks the session invariant on exactly that input. */
  lemma NullRecordBreaksInvariant(storage: map<string, string>, parse: UserParser)
    requires Browser.TokenKey in storage && storage[Browser.TokenKey] != ""
    requires Browser.UserKey in storage && storage[Browser.UserKey] != ""
    requires parse(storage[Browser.UserKey]) == Some(None)
    ensures RestoreFrom(storage, parse) == Restored(None)
  {
  }
}
