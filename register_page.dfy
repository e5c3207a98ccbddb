/** The register page: its form rules, the password-match guard with the request it
    builds, and the reactions to the register call. */
module RegisterPage {
  import opened Wrappers
  import opened Types
  import Js
  import Forms

  /** The submitted form values. */
  datatype FormValues = FormValues(
    username: string,
    email: string,
    password: string,
    confirmPassword: string,
    nickname: Option<string>)

  const UsernameRules: seq<Forms.Rule> :=
    [Forms.Required("请输入用户名"), Forms.MinLength(3, "用户名至少3个字符"), Forms.MaxLength(20, "用户名最多20个字符")]
  const PasswordRules := Forms.LengthRules("请输入密码", 6, "密码至少6个字符")
  const ConfirmRules := Forms.LengthRules("请确认密码", 6, "密码至少6个字符")

  function EmailRules(isEmail: string -> bool): seq<Forms.Rule> {
    [Forms.Required("请输入邮箱"), Forms.Shape(isEmail, "请输入有效的邮箱地址")]
  }

  /** A username passes exactly when it has 3 to 20 characters. */
  lemma UsernameRulesMeaning(value: string)
    ensures Forms.Passes(UsernameRules, value) <==> 3 <= |value| <= 20
  {
    var rules := UsernameRules;
    if !(3 <= |value| <= 20) {
      var k := if value == "" then 0 else if |value| < 3 then 1 else 2;
      assert Forms.Rejects(rules[k], value);
    }
  }

  /** The form reaches onFinish only when every field passes; the nickname has no rules. */
  predicate FormPasses(values: FormValues, isEmail: string -> bool) {
    && Forms.Passes(UsernameRules, values.username)
    && Forms.Passes(EmailRules(isEmail), values.email)
    && Forms.Passes(PasswordRules, values.password)
    && Forms.Passes(ConfirmRules, values.confirmPassword)
  }

  /** What the form's rules admit, in lengths: username 3 to 20, both passwords at least 6,
      an email the email check accepts, and any nickname. */
  lemma FormPassesMeaning(values: FormValues, isEmail: string -> bool)
    ensures FormPasses(values, isEmail) <==>
      && 3 <= |values.username| <= 20
      && values.email != "" && isEmail(values.email)
      && |values.password| >= 6
      && |values.confirmPassword| >= 6
  {
    UsernameRulesMeaning(values.username);
    Forms.LengthRulesMeaning("请输入密码", 6, "密码至少6个字符", values.password);
    Forms.LengthRulesMeaning("请确认密码", 6, "密码至少6个字符", values.confirmPassword);
    Forms.ErrorsOfTwo(Forms.Required("请输入邮箱"), Forms.Shape(isEmail, "请输入有效的邮箱地址"), values.email);
  }

  /** onFinish: mismatching passwords stop with an error and no request; otherwise every
      field is copied into the request as entered. */
  function OnFinish(values: FormValues): (r: Result<RegisterRequest, Toast>)
    ensures r.Failure? <==> values.password != values.confirmPassword
    ensures r.Failure? ==> r.error == ToastError("两次输入的密码不一致")
    ensures r.Success? ==>
      && r.value.username == values.username && r.value.email == values.email
      && r.value.password == values.password && r.value.confirmPassword == values.confirmPassword
      && r.value.nickname == values.nickname
      && r.value.password == r.value.confirmPassword
  {
    if values.password != values.confirmPassword then Failure(ToastError("两次输入的密码不一致"))
    else Success(RegisterRequest(values.username, values.email, values.password, values.confirmPassword, values.nickname))
  }

  /** The reaction to a register response: success asks the user to sign in and goes to the
      login page; anything else shows the server's message or 注册失败 and stays. */
  function OnRegisterResponse(response: ApiResponse<()>): (r: (Toast, Option<string>))
    ensures response.success <==> r.1 == Some("/login")
    ensures r.1.Some? ==> r.0 == ToastSuccess("注册成功，请登录")
    ensures r.1.None? ==> r.0 == ToastError(Js.StrOr(response.message, "注册失败"))
  {
    if response.success then (ToastSuccess("注册成功，请登录"), Some("/login"))
    else (ToastError(Js.StrOr(response.message, "注册失败")), None)
  }

  /** The error handler: the server's message from the error response, or 注册失败. */
  function OnRegisterError(serverMessage: Option<string>): (r: Toast)
    ensures Js.StrTruthy(serverMessage) ==> r == ToastError(serverMessage.value)
    ensures !Js.StrTruthy(serverMessage) ==> r == ToastError("注册失败")
  {
    ToastError(Js.StrOr(serverMessage, "注册失败"))
  }
}
