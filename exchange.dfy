/**
 * The decision logic of the authorization-code exchange
 * (`get_access_token` in galileo_callback/main.py), separated from the table:
 * configuration, the request sent to the Box token endpoint, the provider's
 * answer as an input, and the typed errors that replace HTTPException.
 */
module Exchange {
  import opened Wrappers
  import opened Model

  const TokenUrl: string := "https://api.box.com/oauth2/token"
  const DefaultRedirectUri: string := "http://localhost:3227/callback"
  const AuthorizationCodeGrant: string := "authorization_code"

  /**
   * The three environment variables read at start-up: BOX_CLIENT_ID,
   * BOX_CLIENT_SECRET and BOX_REDIRECT_URI (None when unset).
   */
  datatype Config = Config(clientId: Option<string>, clientSecret: Option<string>, redirectUri: Option<string>)

  /** Python truthiness of an optional string: both None and "" are false. */
  predicate Truthy(s: Option<string>) {
    s.Some? && s.value != ""
  }

  /** The guard of the exchange: both the client id and the secret are set and non-empty. */
  predicate CredentialsConfigured(cfg: Config) {
    Truthy(cfg.clientId) && Truthy(cfg.clientSecret)
  }

  /** `os.getenv("BOX_REDIRECT_URI", default)`: the default applies only when unset. */
  function RedirectUri(cfg: Config): string {
    if cfg.redirectUri.Some? then cfg.redirectUri.value else DefaultRedirectUri
  }

  /** The form fields of the POST to the token endpoint (encoding and headers left out). */
  datatype TokenRequest = TokenRequest(
    url: string,
    grantType: string,
    code: string,
    clientId: string,
    clientSecret: string,
    redirectUri: string)

  /** The request the exchange sends for a stored authorization code. */
  function ExchangeRequest(cfg: Config, code: string): (req: TokenRequest)
    requires CredentialsConfigured(cfg)
    ensures req.url == TokenUrl && req.grantType == AuthorizationCodeGrant
    ensures req.code == code
    ensures req.clientId != "" && Some(req.clientId) == cfg.clientId
    ensures req.clientSecret != "" && Some(req.clientSecret) == cfg.clientSecret
    // the redirect URI is the configured one, or the default only when none is set
    ensures cfg.redirectUri.Some? ==> req.redirectUri == cfg.redirectUri.value
    ensures cfg.redirectUri.None? ==> req.redirectUri == DefaultRedirectUri
  {
    TokenRequest(TokenUrl, AuthorizationCodeGrant, code, cfg.clientId.value, cfg.clientSecret.value, RedirectUri(cfg))
  }

  /** What `.get(...)` yields for each field of a 200 response's JSON body. */
  datatype TokenFields = TokenFields(
    accessToken: Option<string>,
    refreshToken: Option<string>,
    expiresIn: Option<int>,
    tokenType: Option<string>)
  {
    predicate Complete() {
      accessToken.Some? && refreshToken.Some? && expiresIn.Some? && tokenType.Some?
    }
  }

  /**
   * What the provider did with the request: a transport error
   * (httpx.RequestError) or an HTTP response with its status, raw text and
   * parsed token fields.
   */
  datatype ProviderOutcome =
    | TransportError(cause: string)
    | Response(status: int, text: string, fields: TokenFields)

  /** The failures a handler reports, each standing for one HTTP error. */
  datatype Error =
    | NotFound(key: string)          // 404: no entry for the key
    | CredentialsNotConfigured       // 500: client id or secret missing
    | ExchangeFailed(text: string)   // 400: the provider answered with a non-200 status
    | ConnectFailed(cause: string)   // 500: the provider could not be reached
    | InvalidTokenResponse           // 500: a 200 body lacking a field fails record validation (not caught)
    | ResponseNotSerialisable        // 500: `model_dump` called on the dict the exchange returns (not caught)

  const NotFoundPrefix: string := "No token found for key: "
  const ExchangeFailedPrefix: string := "Token exchange failed: "
  const ConnectFailedPrefix: string := "Failed to connect to Box API: "
  const CredentialsMessage: string :=
    "Box API credentials not configured. Please set BOX_CLIENT_ID and BOX_CLIENT_SECRET environment variables."
  const InternalErrorMessage: string := "Internal Server Error"

  /**
   * The HTTP status each failure reaches the client with: 404 only for an
   * unknown key, 400 only for a provider rejection, 500 for everything else.
   */
  function StatusCode(e: Error): (code: int)
    ensures code == 404 <==> e.NotFound?
    ensures code == 400 <==> e.ExchangeFailed?
    ensures code != 404 && code != 400 ==> code == 500
  {
    match e
    case NotFound(_) => 404
    case CredentialsNotConfigured => 500
    case ExchangeFailed(_) => 400
    case ConnectFailed(_) => 500
    case InvalidTokenResponse => 500
    case ResponseNotSerialisable => 500
  }

  /**
   * The `detail` text of each failure: a fixed message per kind, followed by
   * the key, the provider's text or the transport cause where there is one.
   */
  function Detail(e: Error): (d: string)
    ensures e.NotFound? ==>
      |NotFoundPrefix| <= |d| && d[..|NotFoundPrefix|] == NotFoundPrefix && d[|NotFoundPrefix|..] == e.key
    ensures e.ExchangeFailed? ==>
      |ExchangeFailedPrefix| <= |d| && d[..|ExchangeFailedPrefix|] == ExchangeFailedPrefix
      && d[|ExchangeFailedPrefix|..] == e.text
    ensures e.ConnectFailed? ==>
      |ConnectFailedPrefix| <= |d| && d[..|ConnectFailedPrefix|] == ConnectFailedPrefix
      && d[|ConnectFailedPrefix|..] == e.cause
    ensures e.CredentialsNotConfigured? ==> d == CredentialsMessage
    ensures e.InvalidTokenResponse? || e.ResponseNotSerialisable? ==> d == InternalErrorMessage
  {
    match e
    case NotFound(key) => NotFoundPrefix + key
    case CredentialsNotConfigured => CredentialsMessage
    case ExchangeFailed(text) => ExchangeFailedPrefix + text
    case ConnectFailed(cause) => ConnectFailedPrefix + cause
    case InvalidTokenResponse => InternalErrorMessage
    case ResponseNotSerialisable => InternalErrorMessage
  }

  /**
   * Building the AccessTokenData record from a 200 response: it exists
   * exactly when every field is present, and carries the fields and the
   * time of receipt.
   */
  function ToAccessTokenData(f: TokenFields, now: Timestamp): (a: Option<AccessTokenData>)
    ensures a.Some? <==> f.Complete()
    ensures a.Some? ==>
      && Some(a.value.accessToken) == f.accessToken
      && Some(a.value.refreshToken) == f.refreshToken
      && Some(a.value.expiresIn) == f.expiresIn
      && Some(a.value.tokenType) == f.tokenType
      && a.value.timestamp == now
  {
    if f.Complete() then
      Some(AccessTokenData(f.accessToken.value, f.refreshToken.value, f.expiresIn.value, f.tokenType.value, now))
    else
      None
  }

  /**
   * The decision sequence of the exchange: the credential check comes first,
   * then the provider's answer decides between token material, rejection,
   * unreachability and an invalid body.
   */
  function Decide(cfg: Config, outcome: ProviderOutcome, now: Timestamp): (r: Result<AccessTokenData, Error>)
    // missing credentials fail whatever the provider would have said
    ensures !CredentialsConfigured(cfg) ==> r == Err(CredentialsNotConfigured)
    // success exactly on a complete 200 response, with the fields and the given time
    ensures r.Ok? <==>
      CredentialsConfigured(cfg) && outcome.Response? && outcome.status == 200 && outcome.fields.Complete()
    ensures r.Ok? ==>
      && Some(r.value.accessToken) == outcome.fields.accessToken
      && Some(r.value.refreshToken) == outcome.fields.refreshToken
      && Some(r.value.expiresIn) == outcome.fields.expiresIn
      && Some(r.value.tokenType) == outcome.fields.tokenType
      && r.value.timestamp == now
    // every other status is a 400 carrying the provider's text
    ensures CredentialsConfigured(cfg) && outcome.Response? && outcome.status != 200 ==>
      r == Err(ExchangeFailed(outcome.text)) && StatusCode(r.error) == 400
    // a transport failure is a 500 carrying its cause
    ensures CredentialsConfigured(cfg) && outcome.TransportError? ==>
      r == Err(ConnectFailed(outcome.cause)) && StatusCode(r.error) == 500
    // a 200 lacking a field fails building the record: a 500, not caught by the handler
    ensures CredentialsConfigured(cfg) && outcome.Response? && outcome.status == 200 && !outcome.fields.Complete() ==>
      r == Err(InvalidTokenResponse) && StatusCode(r.error) == 500
    ensures r.Err? ==> !r.error.NotFound? && !r.error.ResponseNotSerialisable?
  {
    if !CredentialsConfigured(cfg) then
      Err(CredentialsNotConfigured)
    else
      match outcome
      case TransportError(cause) => Err(ConnectFailed(cause))
      case Response(status, text, fields) =>
        if status == 200 then
          match ToAccessTokenData(fields, now)
          case Some(a) => Ok(a)
          case None => Err(InvalidTokenResponse)
        else
          Err(ExchangeFailed(text))
  }
}
