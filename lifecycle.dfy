/**
 * The table over the life of the process: `_token_store` starts empty and
 * every request to `/callback` or `/token` is one step. These lemmas hold
 * for any sequence of requests, handled one after another.
 */
module Lifecycle {
  import opened Wrappers
  import opened Model
  import opened Exchange
  import opened Server

  /** One request reaching a handler, with the provider's answer and the clock as inputs. */
  datatype Incoming =
    | OnCallback(state: string, code: string, error: Option<string>)
    | OnToken(key: string, codeOnly: bool, outcome: ProviderOutcome, now: Timestamp)

  /** The request writes a fresh entry under `k` (a callback for `k` without an error). */
  predicate Stores(req: Incoming, k: string) {
    req.OnCallback? && req.state == k && !Truthy(req.error)
  }

  /** The request names `k` as its state or key. */
  predicate Names(req: Incoming, k: string) {
    (req.OnCallback? && req.state == k) || (req.OnToken? && req.key == k)
  }

  /** The table after one request. */
  function Step(cfg: Config, t: Table, req: Incoming): Table {
    match req
    case OnCallback(state, code, error) => AfterCallback(t, state, code, error)
    case OnToken(key, codeOnly, outcome, now) => TokenLookup(cfg, t, key, codeOnly, outcome, now).table
  }

  /** The table after a sequence of requests. */
  function Run(cfg: Config, t: Table, reqs: seq<Incoming>): Table
    decreases |reqs|
  {
    if reqs == [] then t else Run(cfg, Step(cfg, t, reqs[0]), reqs[1..])
  }

  /** Running two sequences one after the other is running their concatenation. */
  lemma {:induction false} RunAppend(cfg: Config, t: Table, a: seq<Incoming>, b: seq<Incoming>)
    ensures Run(cfg, t, a + b) == Run(cfg, Run(cfg, t, a), b)
    decreases |a|
  {
    if a != [] {
      assert (a + b)[0] == a[0];
      assert (a + b)[1..] == a[1..] + b;
      RunAppend(cfg, Step(cfg, t, a[0]), a[1..], b);
    } else {
      assert a + b == b;
    }
  }

  /** Entries are never deleted: every key present stays present. */
  lemma {:induction false} RunNeverDropsKeys(cfg: Config, t: Table, reqs: seq<Incoming>)
    ensures t.Keys <= Run(cfg, t, reqs).Keys
    decreases |reqs|
  {
    if reqs != [] {
      RunNeverDropsKeys(cfg, Step(cfg, t, reqs[0]), reqs[1..]);
    }
  }

  /** Requests on other keys neither create, change nor remove the entry for `k`. */
  lemma {:induction false} RunLeavesOtherKeysAlone(cfg: Config, t: Table, reqs: seq<Incoming>, k: string)
    requires forall i :: 0 <= i < |reqs| ==> !Names(reqs[i], k)
    ensures k in Run(cfg, t, reqs) <==> k in t
    ensures k in t ==> Run(cfg, t, reqs)[k] == t[k]
    decreases |reqs|
  {
    if reqs != [] {
      assert !Names(reqs[0], k);
      RunLeavesOtherKeysAlone(cfg, Step(cfg, t, reqs[0]), reqs[1..], k);
    }
  }

  /**
   * Without a storing callback for `k`, no request creates its entry or
   * changes its code, and a token once issued is never taken away: there
   * is no way back from "token issued" to "code received".
   */
  lemma {:induction false} OnlyCallbacksChangeCode(cfg: Config, t: Table, reqs: seq<Incoming>, k: string)
    requires forall i :: 0 <= i < |reqs| ==> !Stores(reqs[i], k)
    ensures k in Run(cfg, t, reqs) <==> k in t
    ensures k in t ==> Run(cfg, t, reqs)[k].code == t[k].code
    ensures k in t && t[k].IsTokenIssued() ==> Run(cfg, t, reqs)[k].IsTokenIssued()
    decreases |reqs|
  {
    if reqs != [] {
      assert !Stores(reqs[0], k);
      OnlyCallbacksChangeCode(cfg, Step(cfg, t, reqs[0]), reqs[1..], k);
    }
  }

  /** The code stored under `k` is the one from the last storing callback for `k`. */
  lemma LastCallbackWins(cfg: Config, t: Table, reqs: seq<Incoming>, i: nat, k: string)
    requires i < |reqs| && Stores(reqs[i], k)
    requires forall j :: i < j < |reqs| ==> !Stores(reqs[j], k)
    ensures k in Run(cfg, t, reqs) && Run(cfg, t, reqs)[k].code == reqs[i].code
  {
    var before, after := reqs[..i], reqs[i + 1..];
    assert reqs == before + [reqs[i]] + after;
    RunAppend(cfg, t, before + [reqs[i]], after);
    RunAppend(cfg, t, before, [reqs[i]]);
    var mid := Run(cfg, t, before + [reqs[i]]);
    assert mid == Step(cfg, Run(cfg, t, before), reqs[i]);
    assert mid[k] == CodeOnly(reqs[i].code);
    forall j | 0 <= j < |after| ensures !Stores(after[j], k) {
      assert after[j] == reqs[i + 1 + j];
    }
    OnlyCallbacksChangeCode(cfg, mid, after, k);
  }

  /** Every request is a callback that stores its code. */
  predicate AllStore(reqs: seq<Incoming>) {
    forall i :: 0 <= i < |reqs| ==> reqs[i].OnCallback? && !Truthy(reqs[i].error)
  }

  /** No two requests name the same state. */
  predicate DistinctStates(reqs: seq<Incoming>)
    requires AllStore(reqs)
  {
    forall i, j :: 0 <= i < j < |reqs| ==> reqs[i].state != reqs[j].state
  }

  /** Callbacks with distinct states lose no write: each entry holds its own code and no token. */
  lemma {:induction false} DistinctCallbacksAllRetrievable(cfg: Config, t: Table, reqs: seq<Incoming>)
    requires AllStore(reqs) && DistinctStates(reqs)
    ensures forall i :: 0 <= i < |reqs| ==>
      reqs[i].state in Run(cfg, t, reqs) && Run(cfg, t, reqs)[reqs[i].state] == CodeOnly(reqs[i].code)
    decreases |reqs|
  {
    if reqs != [] {
      var t1 := Step(cfg, t, reqs[0]);
      var rest := reqs[1..];
      assert AllStore(rest) && DistinctStates(rest) by {
        forall i | 0 <= i < |rest| ensures rest[i] == reqs[i + 1] { }
      }
      DistinctCallbacksAllRetrievable(cfg, t1, rest);
      var k := reqs[0].state;
      forall j | 0 <= j < |rest| ensures !Names(rest[j], k) {
        assert rest[j] == reqs[j + 1];
      }
      RunLeavesOtherKeysAlone(cfg, t1, rest, k);
      forall i | 0 <= i < |reqs|
        ensures reqs[i].state in Run(cfg, t, reqs) && Run(cfg, t, reqs)[reqs[i].state] == CodeOnly(reqs[i].code)
      {
        if i > 0 {
          assert reqs[i] == rest[i - 1];
        }
      }
    }
  }
}
