/**
 * The records kept in the correlation table (galileo_callback/model.py).
 * Both are pydantic models with no behaviour beyond their fields and the
 * default `access_token = None`, so they are values here.
 */
module Model {
  import opened Wrappers

  /** An instant, as produced by `datetime.now()`; the model keeps it abstract. */
  type Timestamp = int

  /**
   * Token material issued by the provider. All five fields are required:
   * there is no way to build one with a field missing.
   */
  datatype AccessTokenData = AccessTokenData(
    accessToken: string,
    refreshToken: string,
    expiresIn: int,   // seconds, as the provider reported them
    tokenType: string,
    timestamp: Timestamp)

  /**
   * One entry of the table: the authorization code, and the token material
   * once an exchange has succeeded.
   */
  datatype TokenData = TokenData(code: string, accessToken: Option<AccessTokenData>)
  {
    /** The "code received" state: no token has been issued for this entry. */
    predicate IsCodeReceived() { accessToken.None? }

    /** The "token issued" state. */
    predicate IsTokenIssued() { accessToken.Some? }
  }

  /** `TokenData(code=code)`: the record built with only its required field. */
  function CodeOnly(code: string): (t: TokenData)
    ensures t.code == code
    ensures t.IsCodeReceived() && !t.IsTokenIssued()
  {
    TokenData(code, None)
  }
}
