/**
 * The request handlers of galileo_callback/main.py over the global table
 * `_token_store`. The pure functions give each handler's effect on the table
 * and its reply; the class TokenStore holds the table as a field and has one
 * method per handler, each proved to have exactly that effect.
 */
module Server {
  import opened Wrappers
  import opened Model
  import opened Exchange

  /** The correlation table: caller-chosen `state` key to its entry. */
  type Table = map<string, TokenData>

  /** The JSON reply of the callback handler. */
  datatype CallbackReply =
    | AuthenticationFailed(error: string, state: string)
    | CodeReceived(state: string)
  {
    function Message(): string {
      match this
      case AuthenticationFailed(_, _) => "Authentication failed"
      case CodeReceived(_) => "Code received successfully"
    }
  }

  /** The reply of `callback`: a failure echoing the error and the state when `error` is truthy. */
  function CallbackReplyFor(state: string, error: Option<string>): (reply: CallbackReply)
    ensures reply.state == state
    ensures reply.AuthenticationFailed? <==> Truthy(error)
    ensures reply.AuthenticationFailed? ==> Some(reply.error) == error && reply.Message() == "Authentication failed"
  {
    if Truthy(error) then AuthenticationFailed(error.value, state) else CodeReceived(state)
  }

  /** The table after `callback`. */
  function AfterCallback(t: Table, state: string, code: string, error: Option<string>): (t': Table)
    // an error report leaves the table alone
    ensures Truthy(error) ==> t' == t
    // otherwise exactly the key `state` is (re)written, with a fresh code-only entry
    ensures !Truthy(error) ==> t'.Keys == t.Keys + {state} && t'[state] == CodeOnly(code)
    ensures forall k :: k in t && k != state ==> k in t' && t'[k] == t[k]
    ensures t.Keys <= t'.Keys
  {
    if Truthy(error) then t else t[state := CodeOnly(code)]
  }

  /**
   * What one exchange or lookup produces: the reply, the request sent to
   * the provider (None when none was sent) and the table afterwards.
   */
  datatype Exchanged = Exchanged(reply: Result<TokenData, Error>, request: Option<TokenRequest>, table: Table)

  /**
   * `get_access_token` applied to the entry stored under `key`. The entry
   * object is the one held in the table, so a successful exchange rewrites
   * `t[key]`; any failure leaves the table as it was.
   */
  function AccessTokenExchange(cfg: Config, t: Table, key: string, outcome: ProviderOutcome, now: Timestamp): (x: Exchanged)
    requires key in t
    // a request is sent exactly when the credentials are configured, for the stored code
    ensures x.request == if CredentialsConfigured(cfg) then Some(ExchangeRequest(cfg, t[key].code)) else None
    // only `key` may change, its code never does, and no key appears or vanishes
    ensures x.table.Keys == t.Keys
    ensures forall k :: k in t && k != key ==> x.table[k] == t[k]
    ensures x.table[key].code == t[key].code
    // success: the stored entry is now "token issued" with the decided token, and is the reply
    ensures x.reply.Ok? <==> Decide(cfg, outcome, now).Ok?
    ensures x.reply.Ok? ==>
      x.reply.value == x.table[key] && x.table[key].accessToken == Some(Decide(cfg, outcome, now).value)
    // failure: the decided error, and the entry keeps its previous token
    ensures x.reply.Err? ==> x.reply.error == Decide(cfg, outcome, now).error && x.table == t
  {
    var request := if CredentialsConfigured(cfg) then Some(ExchangeRequest(cfg, t[key].code)) else None;
    match Decide(cfg, outcome, now)
    case Ok(a) =>
      var issued := t[key].(accessToken := Some(a));
      Exchanged(Ok(issued), request, t[key := issued])
    case Err(e) => Exchanged(Err(e), request, t)
  }

  /**
   * `get_token` as written: a missing key is a 404, `code_only` returns the
   * entry as stored, and otherwise the exchange runs; when the exchange
   * succeeds, serialising its dict result fails, so the caller sees a 500
   * although the table already holds the issued token.
   */
  function TokenLookup(cfg: Config, t: Table, key: string, codeOnly: bool, outcome: ProviderOutcome, now: Timestamp): (x: Exchanged)
    ensures key !in t ==> x == Exchanged(Err(NotFound(key)), None, t) && StatusCode(x.reply.error) == 404
    // the only successful lookup is a code-only read of the stored entry, which changes nothing
    ensures x.reply.Ok? <==> key in t && codeOnly
    ensures x.reply.Ok? ==> x.reply.value == t[key] && x.table == t && x.request == None
    // the table changes only through a successful exchange, which is reported as an error
    ensures x.table != t ==> key in t && !codeOnly && x.reply == Err(ResponseNotSerialisable)
    ensures x.table.Keys == t.Keys
    ensures forall k :: k in t && k != key ==> x.table[k] == t[k]
    ensures key in t ==> x.table[key].code == t[key].code
    ensures key in t && t[key].IsTokenIssued() ==> x.table[key].IsTokenIssued()
    // a full lookup of a present key runs the exchange on the stored entry
    ensures key in t && !codeOnly ==>
      x.request == if CredentialsConfigured(cfg) then Some(ExchangeRequest(cfg, t[key].code)) else None
    ensures key in t && !codeOnly && Decide(cfg, outcome, now).Err? ==>
      x.reply == Err(Decide(cfg, outcome, now).error) && x.table == t
    ensures key in t && !codeOnly && Decide(cfg, outcome, now).Ok? ==>
      x.table == t[key := t[key].(accessToken := Some(Decide(cfg, outcome, now).value))]
  {
    if key !in t then
      Exchanged(Err(NotFound(key)), None, t)
    else if codeOnly then
      Exchanged(Ok(t[key]), None, t)
    else
      var x := AccessTokenExchange(cfg, t, key, outcome, now);
      if x.reply.Ok? then x.(reply := Err(ResponseNotSerialisable)) else x
  }

  /**
   * `get_token` as evidently intended: the same table effect, but a
   * successful exchange returns the updated entry.
   */
  function IntendedLookup(cfg: Config, t: Table, key: string, codeOnly: bool, outcome: ProviderOutcome, now: Timestamp): (x: Exchanged)
    ensures x.table == TokenLookup(cfg, t, key, codeOnly, outcome, now).table
    ensures x.request == TokenLookup(cfg, t, key, codeOnly, outcome, now).request
    // the reply, when successful, is the entry the table now holds
    ensures x.reply.Ok? ==> key in x.table && x.reply.value == x.table[key]
    // a full lookup succeeds exactly when the exchange does
    ensures key in t && !codeOnly ==> (x.reply.Ok? <==> Decide(cfg, outcome, now).Ok?)
    ensures x.reply.Ok? && !codeOnly ==> x.reply.value.IsTokenIssued()
    // it differs from the as-written lookup only where that one fails to serialise
    ensures TokenLookup(cfg, t, key, codeOnly, outcome, now).reply != Err(ResponseNotSerialisable) ==>
      x.reply == TokenLookup(cfg, t, key, codeOnly, outcome, now).reply
    ensures TokenLookup(cfg, t, key, codeOnly, outcome, now).reply == Err(ResponseNotSerialisable) ==>
      key in x.table && x.reply == Ok(x.table[key])
  {
    if key !in t then
      Exchanged(Err(NotFound(key)), None, t)
    else if codeOnly then
      Exchanged(Ok(t[key]), None, t)
    else
      AccessTokenExchange(cfg, t, key, outcome, now)
  }

  /** The process-wide table and the configuration read at start-up. */
  class TokenStore {
    var store: Table
    const config: Config

    /** The table starts empty. */
    constructor (config: Config)
      ensures this.config == config && store == map[]
    {
      this.config := config;
      store := map[];
    }

    /** `callback`: record the code under `state` unless the provider reported an error. */
    method Callback(state: string, code: string, error: Option<string>) returns (reply: CallbackReply)
      modifies this
      ensures reply == CallbackReplyFor(state, error)
      ensures Truthy(error) ==> store == old(store)
      ensures !Truthy(error) ==> state in store && store[state] == CodeOnly(code)
      ensures !Truthy(error) ==> store.Keys == old(store).Keys + {state}
      ensures forall k :: k in old(store) && k != state ==> k in store && store[k] == old(store)[k]
      ensures store == AfterCallback(old(store), state, code, error)
    {
      if Truthy(error) {
        reply := AuthenticationFailed(error.value, state);
        return;
      }
      store := store[state := CodeOnly(code)];
      reply := CodeReceived(state);
    }

    /**
     * `get_access_token` for the entry stored under `key`: check the
     * credentials, send the request, and on a 200 fill in the entry's token
     * in place.
     */
    method GetAccessToken(key: string, outcome: ProviderOutcome, now: Timestamp)
      returns (reply: Result<TokenData, Error>, request: Option<TokenRequest>)
      requires key in store
      modifies this
      ensures !CredentialsConfigured(config) ==>
        reply == Err(CredentialsNotConfigured) && request == None && store == old(store)
      ensures CredentialsConfigured(config) ==> request == Some(ExchangeRequest(config, old(store)[key].code))
      ensures reply.Ok? ==>
        && store == old(store)[key := reply.value]
        && reply.value.code == old(store)[key].code
        && reply.value.IsTokenIssued()
      ensures reply.Err? ==> store == old(store)
      ensures Exchanged(reply, request, store) == AccessTokenExchange(config, old(store), key, outcome, now)
    {
      if !CredentialsConfigured(config) {
        reply, request := Err(CredentialsNotConfigured), None;
        return;
      }
      var entry := store[key];
      request := Some(ExchangeRequest(config, entry.code));
      match outcome {
        case TransportError(cause) =>
          reply := Err(ConnectFailed(cause));
        case Response(status, text, fields) =>
          if status == 200 {
            var token := ToAccessTokenData(fields, now);
            if token.None? {
              reply := Err(InvalidTokenResponse);
              return;
            }
            entry := entry.(accessToken := token);
            store := store[key := entry];
            reply := Ok(entry);
          } else {
            reply := Err(ExchangeFailed(text));
          }
      }
    }

    /** `get_token`: look the key up, and unless `code_only` run the exchange on its entry. */
    method GetToken(key: string, codeOnly: bool, outcome: ProviderOutcome, now: Timestamp)
      returns (reply: Result<TokenData, Error>, request: Option<TokenRequest>)
      modifies this
      ensures key !in old(store) ==> reply == Err(NotFound(key)) && request == None && store == old(store)
      ensures key in old(store) && codeOnly ==> reply == Ok(old(store)[key]) && request == None && store == old(store)
      ensures store != old(store) ==> reply == Err(ResponseNotSerialisable)
      ensures key in old(store) && !codeOnly ==>
        request == if CredentialsConfigured(config) then Some(ExchangeRequest(config, old(store)[key].code)) else None
      ensures key in old(store) && !codeOnly && Decide(config, outcome, now).Err? ==>
        reply == Err(Decide(config, outcome, now).error) && store == old(store)
      ensures key in old(store) && !codeOnly && Decide(config, outcome, now).Ok? ==>
        store == old(store)[key := old(store)[key].(accessToken := Some(Decide(config, outcome, now).value))]
      ensures Exchanged(reply, request, store) == TokenLookup(config, old(store), key, codeOnly, outcome, now)
    {
      if key !in store {
        reply, request := Err(NotFound(key)), None;
        return;
      }
      if codeOnly {
        reply, request := Ok(store[key]), None;
        return;
      }
      reply, request := GetAccessToken(key, outcome, now);
      if reply.Ok? {
        reply := Err(ResponseNotSerialisable);
      }
    }
  }

  /** After a callback, a code-only lookup of its state returns exactly the fresh entry. */
  lemma CallbackThenCodeOnlyLookup(cfg: Config, t: Table, state: string, code: string, outcome: ProviderOutcome, now: Timestamp)
    ensures var t' := AfterCallback(t, state, code, None);
      TokenLookup(cfg, t', state, true, outcome, now) == Exchanged(Ok(CodeOnly(code)), None, t')
  {
  }

  /**
   * A second callback for the same state replaces the entry even after an
   * exchange issued a token for it: last write wins and the token is dropped.
   */
  lemma SecondCallbackReplaces(cfg: Config, t: Table, state: string, code1: string, code2: string,
                               outcome: ProviderOutcome, now: Timestamp)
    ensures var t1 := AfterCallback(t, state, code1, None);
      var t2 := AccessTokenExchange(cfg, t1, state, outcome, now).table;
      && AfterCallback(t2, state, code2, None) == AfterCallback(t, state, code2, None)
      && AfterCallback(t2, state, code2, None)[state].IsCodeReceived()
  {
  }

  /** The as-written lookup reports a successful exchange as a 500 after the token was stored. */
  lemma SuccessfulExchangeReportedAsError(cfg: Config, t: Table, key: string, outcome: ProviderOutcome, now: Timestamp)
    requires key in t && Decide(cfg, outcome, now).Ok?
    ensures var x := TokenLookup(cfg, t, key, false, outcome, now);
      && x.reply == Err(ResponseNotSerialisable) && StatusCode(x.reply.error) == 500
      && x.table[key].IsTokenIssued()
      && IntendedLookup(cfg, t, key, false, outcome, now).reply == Ok(x.table[key])
  {
  }
}
