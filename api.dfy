/** The client-side rate limiter guarding the scoring call, and the shape of
    a single-application request. */
module Api {
  import opened Common

  /** The limiter's decision for a call at `now` after the last accepted
      call at `last`, and the new value of `last`. */
  datatype Decision = Decision(accepted: bool, last: int)

  function Step(last: int, now: int): (d: Decision)
    ensures d.accepted <==> now - last >= RATE_LIMIT_DELAY
    ensures d.accepted ==> d.last == now
    ensures !d.accepted ==> d.last == last
  {
    if now - last < RATE_LIMIT_DELAY then Decision(false, last) else Decision(true, now)
  }

  /** The times, among `calls`, that the limiter accepts, starting from
      `last`. */
  function Accepted(last: int, calls: seq<int>): seq<int>
    decreases |calls|
  {
    if calls == [] then []
    else
      var d := Step(last, calls[0]);
      (if d.accepted then [calls[0]] else []) + Accepted(d.last, calls[1..])
  }

  /** The limiter's `last` after a sequence of calls. */
  function FinalLast(last: int, calls: seq<int>): int
    decreases |calls|
  {
    if calls == [] then last else FinalLast(Step(last, calls[0]).last, calls[1..])
  }

  /** Rejected calls do not move the cooldown: `last` ends at the most
      recently accepted time, or where it started when nothing was accepted. */
  lemma {:induction false} FinalLastIsLastAccepted(last: int, calls: seq<int>)
    ensures var acc := Accepted(last, calls);
            FinalLast(last, calls) == if acc == [] then last else acc[|acc| - 1]
    decreases |calls|
  {
    if calls != [] {
      FinalLastIsLastAccepted(Step(last, calls[0]).last, calls[1..]);
    }
  }

  /** Every accepted call comes at least the delay after the previous
      accepted call, the first one at least the delay after `last`. */
  lemma {:induction false} AcceptedSpaced(last: int, calls: seq<int>)
    ensures var acc := Accepted(last, calls);
            && (acc != [] ==> acc[0] - last >= RATE_LIMIT_DELAY)
            && forall i :: 0 <= i < |acc| - 1 ==> acc[i + 1] - acc[i] >= RATE_LIMIT_DELAY
    decreases |calls|
  {
    if calls != [] {
      var d := Step(last, calls[0]);
      AcceptedSpaced(d.last, calls[1..]);
      var rest := Accepted(d.last, calls[1..]);
      if d.accepted {
        var acc := [calls[0]] + rest;
        assert Accepted(last, calls) == acc;
        forall i | 0 <= i < |acc| - 1 ensures acc[i + 1] - acc[i] >= RATE_LIMIT_DELAY {
          if i > 0 {
            assert acc[i] == rest[i - 1] && acc[i + 1] == rest[i];
          }
        }
      }
    }
  }

  /** Any two accepted calls are at least the delay apart, in order. */
  lemma AcceptedPairwiseSpaced(last: int, calls: seq<int>)
    ensures var acc := Accepted(last, calls);
            forall i, j :: 0 <= i < j < |acc| ==> acc[j] - acc[i] >= RATE_LIMIT_DELAY
  {
    var acc := Accepted(last, calls);
    AcceptedSpaced(last, calls);
    forall i, j | 0 <= i < j < |acc| ensures acc[j] - acc[i] >= RATE_LIMIT_DELAY {
      ChainSpaced(acc, i, j);
    }
  }

  lemma {:induction false} ChainSpaced(acc: seq<int>, i: nat, j: nat)
    requires i < j < |acc|
    requires forall k :: 0 <= k < |acc| - 1 ==> acc[k + 1] - acc[k] >= RATE_LIMIT_DELAY
    ensures acc[j] - acc[i] >= RATE_LIMIT_DELAY
    decreases j - i
  {
    if i + 1 < j {
      ChainSpaced(acc, i + 1, j);
    }
  }

  /** From the initial state, a first call is accepted only when the clock
      reads at least the delay. */
  lemma FirstCallFromStart(calls: seq<int>)
    ensures var acc := Accepted(0, calls);
            acc != [] ==> acc[0] >= RATE_LIMIT_DELAY
  {
    AcceptedSpaced(0, calls);
  }

  /** Two calls a second apart: the second is refused. Four seconds apart:
      both are accepted. */
  lemma Scenarios(last: int, t: int)
    requires t - last >= RATE_LIMIT_DELAY
    ensures Accepted(last, [t, t + 1000]) == [t]
    ensures Accepted(last, [t, t + 4000]) == [t, t + 4000]
  {
    var a, b := [t, t + 1000], [t, t + 4000];
    assert a[1..] == [t + 1000] && a[1..][1..] == [];
    assert b[1..] == [t + 4000] && b[1..][1..] == [];
    assert Accepted(t, a[1..]) == [] + Accepted(t, []);
    assert Accepted(t, b[1..]) == [t + 4000] + Accepted(t + 4000, []);
  }

  /** The module-level `lastPredictionTime`, starting at 0. */
  class RateLimiter {
    var lastPredictionTime: int

    constructor ()
      ensures lastPredictionTime == 0
    {
      lastPredictionTime := 0;
    }

    method CheckRateLimit(now: int) returns (ok: bool)
      modifies this
      ensures Step(old(lastPredictionTime), now) == Decision(ok, lastPredictionTime)
    {
      if now - lastPredictionTime < RATE_LIMIT_DELAY {
        return false;
      }
      lastPredictionTime := now;
      return true;
    }
  }

  /** The body of a single-prediction request: an array of one application. */
  function PredictSingleRequest(app: Application): (body: seq<Application>)
    ensures |body| == 1 && body[0] == app
  {
    [app]
  }

  /** The body of a batch request: the applications as given. */
  function PredictBatchRequest(apps: seq<Application>): (body: seq<Application>)
    ensures body == apps
  {
    apps
  }

  /** A single prediction sends what a batch of that one application sends. */
  lemma SingleIsBatchOfOne(app: Application)
    ensures PredictSingleRequest(app) == PredictBatchRequest([app])
  {
  }
}
