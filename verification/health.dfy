/**
 * The endpoint health tracker of `VideoDownloader`: a map from endpoint URL to
 * its failure count (`api_failures`). An endpoint is circuit-broken once its
 * count reaches the threshold; successes and decay passes bring it back.
 */
module Health {

  /** An endpoint with this many recorded failures is no longer chosen. */
  const Threshold: nat := 5

  /** `api_failures`: endpoints never mentioned are absent, which counts as 0. */
  type Failures = map<string, nat>

  /** `api_failures.get(api_url, 0)`. */
  function FailureCount(h: Failures, api: string): nat {
    if api in h then h[api] else 0
  }

  /** `is_api_available`. */
  predicate IsAvailable(h: Failures, api: string) {
    FailureCount(h, api) < Threshold
  }

  /** `mark_api_failure`: one more failure for `api`, and only for `api`. */
  function MarkFailure(h: Failures, api: string): (r: Failures)
    ensures r.Keys == h.Keys + {api}
    ensures FailureCount(r, api) == FailureCount(h, api) + 1
    ensures forall a :: a != api ==> FailureCount(r, a) == FailureCount(h, a)
  {
    h[api := FailureCount(h, api) + 1]
  }

  /**
   * `mark_api_success`: one failure fewer for `api` when it has any; an endpoint
   * that is absent or at 0 is left exactly as it was (absent keys stay absent).
   */
  function MarkSuccess(h: Failures, api: string): (r: Failures)
    ensures r.Keys == h.Keys
    ensures FailureCount(h, api) > 0 ==> FailureCount(r, api) == FailureCount(h, api) - 1
    ensures FailureCount(h, api) == 0 ==> r == h
    ensures forall a :: a != api ==> FailureCount(r, a) == FailureCount(h, a)
  {
    if api in h && h[api] > 0 then h[api := h[api] - 1] else h
  }

  /** The pass `{k: max(0, v-1) for k, v in api_failures.items()}` run when no endpoint is available. */
  function Decay(h: Failures): (r: Failures)
    ensures r.Keys == h.Keys
    ensures forall a :: a in h ==> r[a] == if h[a] > 0 then h[a] - 1 else 0
  {
    map k | k in h :: if h[k] > 0 then h[k] - 1 else 0
  }

  /** `xs` is `ys` with some elements dropped and the rest kept in order. */
  predicate IsSubsequence(xs: seq<string>, ys: seq<string>)
    decreases |ys|
  {
    || xs == []
    || (&& ys != []
        && ((xs[0] == ys[0] && IsSubsequence(xs[1..], ys[1..])) || IsSubsequence(xs, ys[1..])))
  }

  /**
   * `get_available_apis`: the available endpoints of `apis`, in `apis` order,
   * each as often as it occurs there.
   */
  function AvailableApis(h: Failures, apis: seq<string>): (r: seq<string>)
    ensures IsSubsequence(r, apis)
    ensures forall x :: multiset(r)[x] == if IsAvailable(h, x) then multiset(apis)[x] else 0
  {
    if apis == [] then []
    else
      var rest := AvailableApis(h, apis[1..]);
      assert apis == [apis[0]] + apis[1..];
      if IsAvailable(h, apis[0]) then
        assert ([apis[0]] + rest)[1..] == rest;
        [apis[0]] + rest
      else rest
  }

  /** The worker backs off exactly when every configured endpoint is circuit-broken. */
  lemma NoneAvailable(h: Failures, apis: seq<string>)
    ensures AvailableApis(h, apis) == [] <==> forall i :: 0 <= i < |apis| ==> !IsAvailable(h, apis[i])
  {
    var r := AvailableApis(h, apis);
    if r == [] {
      forall i | 0 <= i < |apis|
        ensures !IsAvailable(h, apis[i])
      {
        assert apis[i] in multiset(apis);
      }
    } else {
      assert r[0] in multiset(r);
      assert r[0] in multiset(apis);
      var i :| 0 <= i < |apis| && apis[i] == r[0];
    }
  }

  /** `k` decay passes in a row. */
  function DecayTimes(h: Failures, k: nat): Failures {
    if k == 0 then h else Decay(DecayTimes(h, k - 1))
  }

  /** `k` decay passes lower every count by `k`, floored at 0, and keep the set of endpoints. */
  lemma {:induction false} DecayTimesLowers(h: Failures, k: nat, a: string)
    ensures DecayTimes(h, k).Keys == h.Keys
    ensures FailureCount(DecayTimes(h, k), a) == if FailureCount(h, a) > k then FailureCount(h, a) - k else 0
  {
    if k > 0 {
      DecayTimesLowers(h, k - 1, a);
    }
  }

  /** `k` consecutive successes of one endpoint. */
  function SucceedTimes(h: Failures, api: string, k: nat): Failures {
    if k == 0 then h else MarkSuccess(SucceedTimes(h, api, k - 1), api)
  }

  /** `k` consecutive failures of one endpoint. */
  function FailTimes(h: Failures, api: string, k: nat): Failures {
    if k == 0 then h else MarkFailure(FailTimes(h, api, k - 1), api)
  }

  /**
   * Gradual recovery: `k` successes lower the count by `k`, floored at 0, so a
   * circuit-broken endpoint with count `c` is available again after `c - 4`
   * successes and not before.
   */
  lemma {:induction false} SuccessesRecover(h: Failures, api: string, k: nat)
    ensures FailureCount(SucceedTimes(h, api, k), api) == if FailureCount(h, api) > k then FailureCount(h, api) - k else 0
    ensures IsAvailable(SucceedTimes(h, api, k), api) <==> FailureCount(h, api) < Threshold + k
    ensures SucceedTimes(h, api, k).Keys == h.Keys
  {
    if k > 0 {
      SuccessesRecover(h, api, k - 1);
    }
  }

  /** An endpoint is circuit-broken after exactly `Threshold - c` consecutive failures from count `c`. */
  lemma {:induction false} FailuresTrip(h: Failures, api: string, k: nat)
    ensures FailureCount(FailTimes(h, api, k), api) == FailureCount(h, api) + k
    ensures !IsAvailable(FailTimes(h, api, k), api) <==> FailureCount(h, api) + k >= Threshold
    ensures forall a :: a != api ==> FailureCount(FailTimes(h, api, k), a) == FailureCount(h, a)
  {
    if k > 0 {
      FailuresTrip(h, api, k - 1);
    }
  }
}
