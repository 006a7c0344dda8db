/** The result summary `posttoNostr` and `sendmessage` return after
    publishing: the settled per-relay outcomes folded into counts and an
    error list. The relay pool and `Promise.allSettled` are outside the
    model; their outcomes arrive as a sequence, one per relay. */
module Publish {
  import opened Basics

  /** One settled publish promise. */
  datatype Settled = Fulfilled | Rejected(reason: string)

  /** The counting part of the returned object. */
  datatype PublishSummary = PublishSummary(
    success: bool,
    published: nat,
    failed: nat,
    totalRelays: nat,
    errors: seq<string>)

  /** `${targetRelays[index]}`: the relay URL, or `"undefined"` past the end of the list. */
  function RelayName(relays: seq<string>, i: nat): string {
    if i < |relays| then relays[i] else "undefined"
  }

  /** `${relay}: ${reason}` */
  function ErrorLine(relay: string, reason: string): string {
    relay + ": " + reason
  }

  // The fold, stated on a prefix of the results so that it grows at the end
  // as the `forEach` callback does.

  /** How many results are fulfilled. */
  function FulfilledCount(results: seq<Settled>): nat
    decreases |results|
  {
    if |results| == 0 then 0
    else FulfilledCount(results[..|results| - 1]) + (if results[|results| - 1].Fulfilled? then 1 else 0)
  }

  /** How many results are rejected. */
  function RejectedCount(results: seq<Settled>): nat
    decreases |results|
  {
    if |results| == 0 then 0
    else RejectedCount(results[..|results| - 1]) + (if results[|results| - 1].Rejected? then 1 else 0)
  }

  /** The error lines of the rejected results, in result order. */
  function ErrorLines(relays: seq<string>, results: seq<Settled>): seq<string>
    decreases |results|
  {
    if |results| == 0 then []
    else
      var last := |results| - 1;
      ErrorLines(relays, results[..last])
      + (match results[last]
           case Fulfilled => []
           case Rejected(reason) => [ErrorLine(RelayName(relays, last), reason)])
  }

  /** What the fold returns for `targetRelays` and the settled `results`. */
  function Summary(relays: seq<string>, results: seq<Settled>): PublishSummary {
    var published := FulfilledCount(results);
    PublishSummary(published > 0, published, RejectedCount(results), |relays|, ErrorLines(relays, results))
  }

  /** The positions of the rejected results, ascending: an independent
      description of which relays the error list reports. */
  function RejectedIndices(results: seq<Settled>): seq<nat>
    decreases |results|
  {
    if |results| == 0 then []
    else RejectedIndices(results[..|results| - 1])
         + (if results[|results| - 1].Rejected? then [|results| - 1] else [])
  }

  // ---------------------------------------------------------------------------
  // Properties of the fold
  // ---------------------------------------------------------------------------

  lemma {:induction false} CountsSplit(results: seq<Settled>)
    ensures FulfilledCount(results) + RejectedCount(results) == |results|
    decreases |results|
  {
    if |results| > 0 {
      CountsSplit(results[..|results| - 1]);
    }
  }

  lemma {:induction false} ErrorLinesLength(relays: seq<string>, results: seq<Settled>)
    ensures |ErrorLines(relays, results)| == RejectedCount(results)
    decreases |results|
  {
    if |results| > 0 {
      ErrorLinesLength(relays, results[..|results| - 1]);
    }
  }

  /** A result counts as published exactly when some relay accepted the event. */
  lemma {:induction false} FulfilledCountPositive(results: seq<Settled>)
    ensures FulfilledCount(results) > 0 <==> exists i :: 0 <= i < |results| && results[i].Fulfilled?
    decreases |results|
  {
    if |results| > 0 {
      var init := results[..|results| - 1];
      FulfilledCountPositive(init);
      if exists i :: 0 <= i < |init| && init[i].Fulfilled? {
        var i :| 0 <= i < |init| && init[i].Fulfilled?;
        assert results[i].Fulfilled?;
      }
      if exists i :: 0 <= i < |results| && results[i].Fulfilled? {
        var i :| 0 <= i < |results| && results[i].Fulfilled?;
        if i < |init| {
          assert init[i].Fulfilled?;
        }
      }
    }
  }

  /** Every result is counted once, as published or as failed; one error line
      per failure; `success` holds exactly when some relay accepted the event;
      `totalRelays` is the length of the relay list. */
  lemma SummaryCounts(relays: seq<string>, results: seq<Settled>)
    ensures var s := Summary(relays, results);
      && s.published + s.failed == |results|
      && |s.errors| == s.failed
      && s.totalRelays == |relays|
      && (s.success <==> s.published > 0)
      && (s.success <==> exists i :: 0 <= i < |results| && results[i].Fulfilled?)
  {
    CountsSplit(results);
    ErrorLinesLength(relays, results);
    FulfilledCountPositive(results);
  }

  /** With no results, nothing is published and `success` is false. */
  lemma EmptyPublishFails(relays: seq<string>)
    ensures Summary(relays, []) == PublishSummary(false, 0, 0, |relays|, [])
  {
  }

  /** The rejected positions are exactly the rejected results, ascending and in range. */
  lemma {:induction false} RejectedIndicesExact(results: seq<Settled>)
    ensures |RejectedIndices(results)| == RejectedCount(results)
    ensures forall k :: 0 <= k < |RejectedIndices(results)| ==>
              RejectedIndices(results)[k] < |results| && results[RejectedIndices(results)[k]].Rejected?
    ensures forall k, l :: 0 <= k < l < |RejectedIndices(results)| ==>
              RejectedIndices(results)[k] < RejectedIndices(results)[l]
    ensures forall i :: 0 <= i < |results| && results[i].Rejected? ==> i in RejectedIndices(results)
    decreases |results|
  {
    if |results| > 0 {
      var init := results[..|results| - 1];
      RejectedIndicesExact(init);
      forall i | 0 <= i < |results| && results[i].Rejected?
        ensures i in RejectedIndices(results)
      {
        if i < |init| {
          assert init[i].Rejected?;
        }
      }
    }
  }

  /** Error line `k` reports the `k`-th rejected relay: its name from the
      relay list (or `"undefined"`), then `": "`, then the rejection reason. */
  lemma {:induction false} ErrorLinesFollowRejections(relays: seq<string>, results: seq<Settled>)
    ensures |ErrorLines(relays, results)| == |RejectedIndices(results)|
    ensures forall k :: 0 <= k < |RejectedIndices(results)| ==>
              RejectedIndices(results)[k] < |results|
              && results[RejectedIndices(results)[k]].Rejected?
              && ErrorLines(relays, results)[k]
                 == ErrorLine(RelayName(relays, RejectedIndices(results)[k]),
                              results[RejectedIndices(results)[k]].reason)
    decreases |results|
  {
    RejectedIndicesExact(results);
    if |results| > 0 {
      var init := results[..|results| - 1];
      ErrorLinesFollowRejections(relays, init);
      RejectedIndicesExact(init);
      forall k | 0 <= k < |RejectedIndices(init)|
        ensures results[RejectedIndices(init)[k]] == init[RejectedIndices(init)[k]]
      {
      }
    }
  }

  /** When every relay accepts, every result counts as published and there are no errors. */
  lemma {:induction false} AllFulfilled(relays: seq<string>, results: seq<Settled>)
    requires forall i :: 0 <= i < |results| ==> results[i].Fulfilled?
    ensures Summary(relays, results).errors == []
    ensures Summary(relays, results).failed == 0
    ensures Summary(relays, results).published == |results|
    decreases |results|
  {
    if |results| > 0 {
      AllFulfilled(relays, results[..|results| - 1]);
    }
  }

  /** Three relays, the second one refusing: two published, one error naming it. */
  lemma ThreeRelaysOneRefuses()
    ensures Summary(["wss://a", "wss://b", "wss://c"], [Fulfilled, Rejected("timeout"), Fulfilled])
            == PublishSummary(true, 2, 1, 3, ["wss://b: timeout"])
  {
    var relays := ["wss://a", "wss://b", "wss://c"];
    var r3 := [Fulfilled, Rejected("timeout"), Fulfilled];
    var r2 := [Fulfilled, Rejected("timeout")];
    var r1 := [Fulfilled];
    assert r3[..2] == r2 && r2[..1] == r1 && r1[..0] == [];
    assert FulfilledCount(r1) == 1 && RejectedCount(r1) == 0 && ErrorLines(relays, r1) == [];
    assert FulfilledCount(r2) == 1 && RejectedCount(r2) == 1;
    assert ErrorLines(relays, r2) == [ErrorLine("wss://b", "timeout")];
    assert ErrorLine("wss://b", "timeout") == "wss://b: timeout";
    assert FulfilledCount(r3) == 2 && RejectedCount(r3) == 1;
    assert ErrorLines(relays, r3) == ErrorLines(relays, r2);
  }

  // ---------------------------------------------------------------------------
  // The loop
  // ---------------------------------------------------------------------------

  /** The `results.forEach` loop: count the fulfilled and rejected results and
      collect an error line per rejection. */
  method Aggregate(targetRelays: seq<string>, results: seq<Settled>) returns (s: PublishSummary)
    ensures s == Summary(targetRelays, results)
  {
    var successful: nat := 0;
    var failed: nat := 0;
    var errors: seq<string> := [];
    var index := 0;
    while index < |results|
      invariant 0 <= index <= |results|
      invariant successful == FulfilledCount(results[..index])
      invariant failed == RejectedCount(results[..index])
      invariant errors == ErrorLines(targetRelays, results[..index])
    {
      assert results[..index + 1][..index] == results[..index];
      match results[index] {
        case Fulfilled =>
          successful := successful + 1;
        case Rejected(reason) =>
          failed := failed + 1;
          errors := errors + [ErrorLine(RelayName(targetRelays, index), reason)];
      }
      index := index + 1;
    }
    assert results[..index] == results;
    s := PublishSummary(successful > 0, successful, failed, |targetRelays|, errors);
  }
}
