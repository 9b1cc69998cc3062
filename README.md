# galileo-callback: the OAuth2 callback relay's correlation table

galileo-callback is a small FastAPI service. It receives the Box OAuth2 redirect
(`/callback?state=…&code=…`). It stores the authorization code under the
caller-chosen `state` key in a process-wide dictionary, `_token_store`. Later,
`/token?key=…` either returns the stored entry or exchanges its code at the Box
token endpoint. The exchange writes the issued token into the stored entry in place.

This project models that dictionary and the per-entry state machine built on it.
An entry starts in "code received" (`access_token` is None). A successful exchange
moves it to "token issued".

- `wrappers.dfy`: `Option` and `Result`.
- `model.dfy`: the records `AccessTokenData` and `TokenData` (galileo_callback/model.py), as datatypes.
- `exchange.dfy`: the decision sequence of `get_access_token`. It covers the configuration, the
  request sent to the provider, the provider's answer and the typed errors that stand for the
  `HTTPException`s. `Decide` is the pure decision.
- `server.dfy`: the handlers. The pure functions `AfterCallback`, `AccessTokenExchange` and
  `TokenLookup` give each handler's reply and table effect. The class `TokenStore` holds the
  table as a `map` field and has one method per handler. Each method is proved to have
  exactly that effect, and its contract also states which key changed, which did not, and
  that `code` is preserved.
- `lifecycle.dfy`: any sequence of requests, handled one after another, starting from the
  empty table. The lemmas, proved by induction, show that:
  - entries are never deleted;
  - requests on other keys do not touch an entry;
  - only a callback changes an entry's code;
  - a token once issued is only removed by a new callback;
  - the last callback wins;
  - callbacks with distinct states lose no write.

Inputs that the source reads from its environment are parameters here:
- the three `BOX_*` environment variables are a `Config` of optional strings;
- the provider's answer to the POST is a `ProviderOutcome`: a transport error, or a status
  with its text and the parsed token fields;
- `datetime.now()` is a `Timestamp` parameter.

The `request` out-parameter records the form that would be POSTed. It is `None` when no
request is sent.

Behaviour kept as the code has it:
- `if error:` and `not BOX_CLIENT_ID` use Python truthiness, so an empty `error` counts as
  no error, and an empty client id or secret counts as missing (`Truthy`).
- The `code` query parameter is required even when `error` is present: `Callback` always
  takes a `code` and ignores it on the error path.
- The exchange updates the stored entry itself. The object passed to `get_access_token` is
  the one held in the table, so `GetAccessToken` takes the key and rewrites `store[key]`.
  There is no separate `update_token` step.
- A second exchange of an entry that already holds a token is not guarded. On a 200
  response the token is overwritten.
- A 200 response lacking one of the four fields fails when the `AccessTokenData` record is
  built. This error is not caught by the handler, so it reaches the client as a 500
  (`InvalidTokenResponse`), and the table is unchanged.
- `get_token`'s success path fails after the table was updated (see Findings).

## Model

| member | source | states |
|---|---|---|
| `Model.CodeOnly` | galileo_callback/model.py:13-15 | a `TokenData` built from only a code holds that code and no token: the "code received" state |
| `Exchange.ToAccessTokenData` | galileo_callback/model.py:5-10 | the token record exists exactly when all four response fields are present; it carries them and the receipt time |
| `Exchange.ExchangeRequest` | galileo_callback/main.py:84-98 | the exchange POSTs to the Box token endpoint with grant type `authorization_code`, the stored code and the configured non-empty client id and secret. The redirect URI is `BOX_REDIRECT_URI` when set and `http://localhost:3227/callback` only when it is unset |
| `Exchange.StatusCode` | galileo_callback/main.py:57-121 | a failure is a 404 exactly when the key is unknown, a 400 exactly when the provider rejected the exchange, and a 500 otherwise |
| `Exchange.Detail` | galileo_callback/main.py:57-121 | the `detail` text is the fixed message of each kind followed by the key, the provider's response text or the transport cause; the credentials failure carries its fixed message, and the uncaught failures carry "Internal Server Error" |
| `Exchange.Decide` | galileo_callback/main.py:77-121 | missing credentials fail with `CredentialsNotConfigured` whatever the provider would say. Success happens exactly on a 200 with all fields, with those fields and the given time. Any other status gives a 400 carrying the response text. A 200 lacking a field gives `InvalidTokenResponse`, a 500. A transport error gives a 500 carrying its cause |
| `Server.CallbackReplyFor` | galileo_callback/main.py:35-48 | the reply echoes `state`. It is "Authentication failed" with the error exactly when `error` is truthy |
| `Server.AfterCallback` | galileo_callback/main.py:35-44 | a truthy `error` leaves the table unchanged. Otherwise the keys become the old keys plus `state`, `state` maps to a fresh code-only entry, and every other key is unchanged |
| `Server.AccessTokenExchange` | galileo_callback/main.py:71-121 | a request is sent exactly when the credentials are configured, and it carries the stored code. The keys never change, other entries never change, and the code is preserved. Success means `Decide` succeeded, the stored entry now holds the decided token, and the reply is that entry. On failure the reply carries `Decide`'s error and the table is unchanged |
| `Server.TokenLookup` | galileo_callback/main.py:52-67 | an unknown key is a 404 with the table unchanged. The lookup succeeds exactly for `code_only` on a present key, and then returns the stored entry and sends nothing. A full lookup of a present key sends the exchange request exactly when the credentials are configured. If `Decide` fails, its error is the reply and the table is unchanged. If it succeeds, the stored entry gets the decided token and the reply is `ResponseNotSerialisable`. Codes and issued tokens are kept |
| `Server.IntendedLookup` | galileo_callback/main.py:52-67 | it has the same table effect and request as `TokenLookup`, and the same reply except where that one is `ResponseNotSerialisable`; there it returns the entry the table now holds. A full lookup succeeds exactly when the exchange does |
| `Server.TokenStore.constructor` | galileo_callback/main.py:23 | the table starts empty |
| `Server.TokenStore.Callback` | galileo_callback/main.py:29-48 | with a truthy error: the failure reply, and the table is unchanged. Otherwise `store[state]` is a fresh entry with exactly `code` and no token, `state` is added to the keys, and no other key changes. The new table is `AfterCallback` of the old |
| `Server.TokenStore.GetAccessToken` | galileo_callback/main.py:71-121 | missing credentials: a 500, no request is sent, and the table is unchanged. Otherwise the request carries the stored code. On success only `store[key]` changes; it keeps its code, now holds a token, and is returned. On failure the table is unchanged |
| `Server.TokenStore.GetToken` | galileo_callback/main.py:52-67 | an unknown key is a 404 with nothing sent and nothing changed. `code_only` returns the stored entry unchanged and sends nothing. A full lookup sends the request exactly when the credentials are configured; an exchange failure is the reply with the table unchanged; a successful exchange stores the decided token in the entry and replies `ResponseNotSerialisable` |
| `Server.CallbackThenCodeOnlyLookup` | galileo_callback/main.py:42-67 | after a callback for `state`, a code-only lookup of `state` returns exactly the fresh code-only entry |
| `Server.SecondCallbackReplaces` | galileo_callback/main.py:42-44 | callback, exchange, then a second callback for the same state: the result is as if only the second callback had happened, so last write wins and the token the exchange may have issued is dropped |
| `Server.SuccessfulExchangeReportedAsError` | galileo_callback/main.py:63-67 | when the exchange succeeds, the as-written lookup replies with a 500 although the stored entry now holds the token. The intended lookup would return that entry |
| `Lifecycle.RunNeverDropsKeys` | galileo_callback/main.py:23-121 | over any sequence of requests, every key present stays present: entries are never deleted |
| `Lifecycle.RunLeavesOtherKeysAlone` | galileo_callback/main.py:42-109 | requests naming other keys neither create, change nor remove the entry for `k` |
| `Lifecycle.OnlyCallbacksChangeCode` | galileo_callback/main.py:42-109 | with no storing callback for `k`, its entry is neither created nor given a different code, and a token once issued stays issued |
| `Lifecycle.LastCallbackWins` | galileo_callback/main.py:42-44 | the code stored under `k` after a run is the code of the last storing callback for `k` |
| `Lifecycle.DistinctCallbacksAllRetrievable` | galileo_callback/main.py:42-44 | callbacks with pairwise distinct states lose no write: each state holds its own code and no token |
| `Lifecycle.RunAppend` | galileo_callback/main.py:23-121 | handling two request sequences one after the other equals handling their concatenation |

## Left out

- FastAPI routing, query parsing and the `/` hello-world route are framework plumbing. The handlers are plain methods.
- Loading `.env` and the environment is left out. The three variables are the `Config` parameter, read once as at import.
- The httpx POST is replaced by the `ProviderOutcome` input. Form encoding, headers and the real provider are left out.
- `datetime.now()` is replaced by the `Timestamp` parameter.
- Pydantic validation is modelled only as "a 200 body lacking a field": the provider's fields arrive already typed.
  - Lax coercion (a numeric string for `expires_in`) is left out.
  - A wrongly typed value and a non-JSON 200 body are left out. Both are also uncaught 500s in the source.
- JSON serialisation (`model_dump(mode="json")`) is left out. The reply is the `TokenData` value, and the timestamp is not rendered as text.
- async/await and concurrent access to the dictionary are left out. The source has no locking, and the model handles requests one at a time.
- The uvicorn entry point is left out.
- A refresh-token grant, an `InvalidClient` check and a separate `update_token` with NotFound do not exist in the code, so they are not modelled.

## Findings

| source | as written | input that shows it | evidently intended | confidence | as-written member | corrected member |
|---|---|---|---|---|---|---|
| galileo_callback/main.py:63-67 | `get_access_token` returns `token_data.model_dump(...)`, a dict. `get_token` then calls `.model_dump` on that dict, which raises, so the request ends in a 500 after the stored entry was already given its token | a key present in the table, `code_only` false, credentials set, and a provider 200 response with all four fields | return the updated entry | not executed | `Server.SuccessfulExchangeReportedAsError` (over `Server.TokenLookup`, used by `Server.TokenStore.GetToken`) | `Server.IntendedLookup` |

The class keeps the as-written reply, because that is what the service does. The table
effect is the same in both lookups, so the `Lifecycle` lemmas hold for either.
