/** The shared HTTP client: its base URL and timeout, the request interceptor that attaches
    the bearer token (section 2.1 of RFC 6750), and the response interceptor that tears the
    session down on HTTP 401. The network itself is a `transport` function. */
module Api {
  import opened Wrappers
  import Js
  import Browser

  const DefaultBaseUrl := "/api"
  const TimeoutMs := 10000
  const AuthorizationHeader := "Authorization"
  const BearerPrefix := "Bearer "
  const DefaultHeaders: map<string, string> := map["Content-Type" := "application/json"]

  /** `process.env.REACT_APP_API_URL || '/api'`. */
  function BaseUrl(env: Option<string>): (r: string)
    ensures r != ""
    ensures Js.StrTruthy(env) ==> r == env.value
    ensures !Js.StrTruthy(env) ==> r == DefaultBaseUrl
  {
    Js.StrOr(env, DefaultBaseUrl)
  }

  datatype Verb = Get | Post | Put | Patch | Delete

  /** The part of an axios request config the interceptors see. */
  datatype RequestConfig = RequestConfig(
    verb: Verb,
    baseUrl: string,
    url: string,
    timeout: int,
    headers: Option<map<string, string>>)

  /** The Authorization value for a token: the "Bearer" scheme, one space, the token. */
  function AuthorizationValue(token: string): string {
    BearerPrefix + token
  }

  /** Reads the credential back out of an Authorization value of the Bearer scheme. */
  function BearerCredential(value: string): Option<string> {
    if |value| >= |BearerPrefix| && value[..|BearerPrefix|] == BearerPrefix then
      Some(value[|BearerPrefix|..])
    else None
  }

  /** The server recovers exactly the stored token from the header the client sends. */
  lemma BearerRoundTrip(token: string)
    ensures BearerCredential(AuthorizationValue(token)) == Some(token)
  {
    var v := AuthorizationValue(token);
    assert v[..|BearerPrefix|] == BearerPrefix;
    assert v[|BearerPrefix|..] == token;
  }

  /** The request interceptor's effect on a config, given what `getItem('token')` returned. */
  function WithToken(config: RequestConfig, token: Option<string>): (r: RequestConfig)
    ensures r.verb == config.verb && r.baseUrl == config.baseUrl && r.url == config.url
    ensures r.timeout == config.timeout
    ensures !(Js.StrTruthy(token) && config.headers.Some?) ==> r == config
    ensures Js.StrTruthy(token) && config.headers.Some? ==>
      && r.headers.Some?
      && AuthorizationHeader in r.headers.value
      && r.headers.value[AuthorizationHeader] == AuthorizationValue(token.value)
      && (forall k :: k != AuthorizationHeader ==>
            (k in r.headers.value <==> k in config.headers.value))
      && (forall k :: k != AuthorizationHeader && k in config.headers.value ==>
            r.headers.value[k] == config.headers.value[k])
  {
    if Js.StrTruthy(token) && config.headers.Some? then
      config.(headers := Some(config.headers.value[AuthorizationHeader := AuthorizationValue(token.value)]))
    else config
  }

  datatype HttpResponse<T> = HttpResponse(status: int, data: T)

  /** `error.response`: the status and the `message` of the error body. */
  datatype ErrorResponse = ErrorResponse(status: int, message: Option<string>)

  /** A rejected request; `response` is None for a transport failure. */
  datatype HttpError = HttpError(text: string, response: Option<ErrorResponse>)

  datatype Outcome<T> = Delivered(response: HttpResponse<T>) | Rejected(error: HttpError)

  /** `error.response?.status === 401`. */
  predicate IsUnauthorized<T>(outcome: Outcome<T>) {
    outcome.Rejected? && outcome.error.response.Some? && outcome.error.response.value.status == 401
  }

  /** The response interceptor's effect on the browser: a 401 clears the session keys and
      moves to the login route; anything else leaves storage and location alone. */
  predicate TeardownEffect<T>(outcome: Outcome<T>, storage0: map<string, string>, href0: string,
                              storage1: map<string, string>, href1: string) {
    if IsUnauthorized(outcome) then storage1 == Browser.Cleared(storage0) && href1 == Browser.LoginRoute
    else storage1 == storage0 && href1 == href0
  }

  /** `response.data` of a delivered response; a rejection propagates as is. */
  function Body<T>(outcome: Outcome<T>): Result<T, HttpError> {
    match outcome
    case Delivered(response) => Success(response.data)
    case Rejected(error) => Failure(error)
  }

  class ApiClient {
    const baseUrl: string
    const timeout: int
    const headers: map<string, string>

    /** `axios.create` with the configured base URL, the fixed timeout and JSON headers. */
    constructor (env: Option<string>)
      ensures baseUrl == BaseUrl(env) && timeout == TimeoutMs && headers == DefaultHeaders
    {
      baseUrl := BaseUrl(env);
      timeout := TimeoutMs;
      headers := DefaultHeaders;
    }

    /** The config that leaves the client for a request, given the stored token. */
    function Outgoing(verb: Verb, url: string, token: Option<string>): RequestConfig {
      WithToken(RequestConfig(verb, baseUrl, url, timeout, Some(headers)), token)
    }

    /** Attaches `Authorization: Bearer <token>` when storage holds a non-empty token and the
        config has headers; otherwise the config goes out as it came. */
    method InterceptRequest(window: Browser.Window, config: RequestConfig) returns (r: RequestConfig)
      ensures r == WithToken(config, window.GetItem(Browser.TokenKey))
    {
      r := config;
      var token := window.GetItem(Browser.TokenKey);
      if Js.StrTruthy(token) && r.headers.Some? {
        r := r.(headers := Some(r.headers.value[AuthorizationHeader := AuthorizationValue(token.value)]));
      }
    }

    /** Passes every outcome through as it came; a 401 also removes `token` and `user` and
        sends the browser to the login page. */
    method InterceptResponse<T>(window: Browser.Window, outcome: Outcome<T>) returns (r: Outcome<T>)
      modifies window
      ensures r == outcome
      ensures IsUnauthorized(outcome) ==>
        window.storage == Browser.Cleared(old(window.storage)) && window.href == Browser.LoginRoute
      ensures !IsUnauthorized(outcome) ==>
        window.storage == old(window.storage) && window.href == old(window.href)
      ensures TeardownEffect(outcome, old(window.storage), old(window.href), window.storage, window.href)
    {
      if IsUnauthorized(outcome) {
        window.ClearSession();
        window.Navigate(Browser.LoginRoute);
      }
      r := outcome;
    }

    /** `get`/`post`/`put`/`patch`/`delete`: one request through both interceptors. */
    method Request<T>(window: Browser.Window, verb: Verb, url: string, transport: RequestConfig -> Outcome<T>)
      returns (r: Outcome<T>)
      modifies window
      ensures r == transport(Outgoing(verb, url, old(window.GetItem(Browser.TokenKey))))
      ensures TeardownEffect(r, old(window.storage), old(window.href), window.storage, window.href)
    {
      var config := InterceptRequest(window, RequestConfig(verb, baseUrl, url, timeout, Some(headers)));
      var raw := transport(config);
      r := InterceptResponse(window, raw);
    }
  }

  /** Every request the client sends while storage holds a non-empty token carries exactly
      that token as its bearer credential. */
  lemma ClientRequestsCarryToken(verb: Verb, baseUrl: string, url: string, timeout: int,
                                 headers: map<string, string>, token: string)
    requires token != ""
    ensures var sent := WithToken(RequestConfig(verb, baseUrl, url, timeout, Some(headers)), Some(token));
      && sent.headers.Some? && AuthorizationHeader in sent.headers.value
      && BearerCredential(sent.headers.value[AuthorizationHeader]) == Some(token)
  {
    BearerRoundTrip(token);
  }
}
