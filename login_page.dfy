/** The login page: its form rules, and what a login response does to storage, the user
    slice and the location. */
module LoginPage {
  import opened Wrappers
  import opened Types
  import Js
  import Browser
  import Forms
  import UserStore

  /** JSON.stringify of a user record, kept abstract. */
  type UserSerializer = User -> string

  const UsernameRules := Forms.LengthRules("请输入用户名", 3, "用户名至少3个字符")
  const PasswordRules := Forms.LengthRules("请输入密码", 6, "密码至少6个字符")

  /** The submitted values reach the login call only when both fields pass their rules,
      and then verbatim. */
  function Submit(values: LoginRequest): (r: Option<LoginRequest>)
    ensures r.Some? <==> |values.username| >= 3 && |values.password| >= 6
    ensures r.Some? ==> r.value == values
  {
    Forms.LengthRulesMeaning("请输入用户名", 3, "用户名至少3个字符", values.username);
    Forms.LengthRulesMeaning("请输入密码", 6, "密码至少6个字符", values.password);
    if Forms.Passes(UsernameRules, values.username) && Forms.Passes(PasswordRules, values.password)
    then Some(values) else None
  }

  /** Whether a login response carries a session. */
  predicate Accepted(response: ApiResponse<LoginResponse>) {
    response.success && response.data.Some?
  }

  /** Storage after a login response: token, then the serialized user, on acceptance. */
  function StorageAfterLogin(storage: map<string, string>, response: ApiResponse<LoginResponse>,
                             serialize: UserSerializer): (r: map<string, string>)
    ensures !Accepted(response) ==> r == storage
    ensures Accepted(response) ==>
      && r.Keys == storage.Keys + Browser.SessionKeys
      && r[Browser.TokenKey] == response.data.value.token
      && r[Browser.UserKey] == serialize(response.data.value.user)
      && forall k :: k in storage && k !in Browser.SessionKeys ==> r[k] == storage[k]
  {
    if Accepted(response) then
      storage[Browser.TokenKey := response.data.value.token][Browser.UserKey := serialize(response.data.value.user)]
    else storage
  }

  /** The login success handler. An accepted response stores the session, signs the user in
      and goes home; any other response only shows the server's message or 登录失败. */
  method OnLoginSuccess(window: Browser.Window, slice: UserStore.UserSlice,
                        response: ApiResponse<LoginResponse>, serialize: UserSerializer)
    returns (toast: Toast)
    modifies window, slice
    ensures window.storage == StorageAfterLogin(old(window.storage), response, serialize)
    ensures Accepted(response) ==>
      && slice.currentUser == Some(response.data.value.user) && slice.isAuthenticated
      && slice.error == None && slice.Consistent()
      && window.href == Browser.HomeRoute
      && toast == ToastSuccess("登录成功")
    ensures !Accepted(response) ==>
      && slice.currentUser == old(slice.currentUser) && slice.isAuthenticated == old(slice.isAuthenticated)
      && slice.error == old(slice.error)
      && window.href == old(window.href)
      && toast == ToastError(Js.StrOr(response.message, "登录失败"))
    ensures slice.loading == old(slice.loading)
  {
    if response.success && response.data.Some? {
      var data := response.data.value;
      window.SetItem(Browser.TokenKey, data.token);
      window.SetItem(Browser.UserKey, serialize(data.user));
      slice.SetCurrentUser(Some(data.user));
      toast := ToastSuccess("登录成功");
      window.Navigate(Browser.HomeRoute);
    } else {
      toast := ToastError(Js.StrOr(response.message, "登录失败"));
    }
  }

  /** The error handler: the server's message from the error response, or 登录失败;
      storage and session are not touched. */
  function OnLoginError(serverMessage: Option<string>): (r: Toast)
    ensures Js.StrTruthy(serverMessage) ==> r == ToastError(serverMessage.value)
    ensures !Js.StrTruthy(serverMessage) ==> r == ToastError("登录失败")
  {
    ToastError(Js.StrOr(serverMessage, "登录失败"))
  }

  /** A login followed by a reload restores the same user, provided the token is non-empty
      and the serialized record parses back to the user. */
  lemma LoginSurvivesReload(storage: map<string, string>, response: ApiResponse<LoginResponse>,
                            serialize: UserSerializer, parse: UserStore.UserParser)
    requires Accepted(response) && response.data.value.token != ""
    requires serialize(response.data.value.user) != ""
    requires parse(serialize(response.data.value.user)) == Some(Some(response.data.value.user))
    ensures UserStore.RestoreFrom(StorageAfterLogin(storage, response, serialize), parse)
      == UserStore.Restored(Some(response.data.value.user))
  {
  }

  /** A login followed by a logout leaves no session, and the other keys as they were. */
  lemma LogoutUndoesLogin(storage: map<string, string>, response: ApiResponse<LoginResponse>,
                          serialize: UserSerializer, parse: UserStore.UserParser)
    ensures Browser.Cleared(StorageAfterLogin(storage, response, serialize)) == Browser.Cleared(storage)
    ensures UserStore.RestoreFrom(Browser.Cleared(StorageAfterLogin(storage, response, serialize)), parse)
      == UserStore.NoSession
  {
  }
}
