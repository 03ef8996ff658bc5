/**
 * Running a cluster-client operation with retries: the classification of a
 * failure as retry, success or unhandled, and the retry loop around it. The
 * operation, the stopwatch and the cancellation token are replaced by a trace
 * of what each attempt observes.
 */
module FabricClientRetryHelper {

  import opened Wrappers

  /** The operation timeout of the overload that takes no timeout: two minutes. */
  const DefaultOperationTimeoutMs: nat := 120_000

  /** The pause before every attempt after the first: five seconds. */
  const RetryDelayMs: nat := 5_000

  /** The exact type name the classification treats as transient. */
  const FabricTransientException: string := "FabricTransientException"

  /** The inner exception of a fabric exception: a COM exception carries a signed HRESULT. */
  datatype InnerException = ComException(errorCode: int) | OtherInner

  /** What the fabric-exception view of a failure exposes: its code and its inner exception. */
  datatype FabricPart = FabricPart(errorCode: int, inner: Option<InnerException>)

  /** A thrown exception: its runtime type name and, when it is a fabric exception, its fabric part. */
  datatype Exception = Exception(typeName: string, fabric: Option<FabricPart>)

  /** The five lists that decide how a failure is handled. */
  datatype RetryErrors = RetryErrors(
    retryableExceptions: set<string>,
    retryableFabricErrorCodes: set<int>,
    retrySuccessExceptions: set<string>,
    retrySuccessFabricErrorCodes: set<int>,
    internalRetrySuccessFabricErrorCodes: set<nat>)

  /** The verdict on a failure: whether it is handled, and if so whether to retry (else: success). */
  datatype Handling = Handling(handled: bool, retryElseSuccess: bool)

  /** The C# cast `(uint)` of a signed 32-bit code. */
  function ToUInt32(x: int): (r: nat)
    ensures r < 0x1_0000_0000
    ensures 0 <= x < 0x1_0000_0000 ==> r == x
    ensures (x - r) % 0x1_0000_0000 == 0
  {
    x % 0x1_0000_0000
  }

  /** The failure is listed as retryable, by type or by fabric code. */
  predicate RetryableMatch(e: Exception, errors: RetryErrors)
  {
    || e.typeName in errors.retryableExceptions
    || (e.fabric.Some? && e.fabric.value.errorCode in errors.retryableFabricErrorCodes)
  }

  /** The failure is listed as success, by type or by fabric code. */
  predicate SuccessMatch(e: Exception, errors: RetryErrors)
  {
    || e.typeName in errors.retrySuccessExceptions
    || (e.fabric.Some? && e.fabric.value.errorCode in errors.retrySuccessFabricErrorCodes)
  }

  /** The failure wraps a COM exception whose unsigned code is listed as success. */
  predicate InnerComSuccess(e: Exception, errors: RetryErrors)
  {
    && e.fabric.Some?
    && e.fabric.value.inner.Some?
    && e.fabric.value.inner.value.ComException?
    && ToUInt32(e.fabric.value.inner.value.errorCode) in errors.internalRetrySuccessFabricErrorCodes
  }

  /**
   * HandleException: the ordered decision chain. Listed retry wins over listed
   * success; listed success wins over the transient type; the inner COM code is
   * consulted last; anything else is unhandled.
   */
  function HandleException(e: Exception, errors: RetryErrors): (h: Handling)
    ensures h.handled <==>
      RetryableMatch(e, errors) || SuccessMatch(e, errors) || e.typeName == FabricTransientException || InnerComSuccess(e, errors)
    ensures h.retryElseSuccess <==>
      RetryableMatch(e, errors) || (!SuccessMatch(e, errors) && e.typeName == FabricTransientException)
    ensures !h.handled ==> !h.retryElseSuccess
  {
    var fabricException := e.fabric;
    if e.typeName in errors.retryableExceptions then
      Handling(true, true)
    else if fabricException.Some? && fabricException.value.errorCode in errors.retryableFabricErrorCodes then
      Handling(true, true)
    else if e.typeName in errors.retrySuccessExceptions then
      Handling(true, false)
    else if fabricException.Some? && fabricException.value.errorCode in errors.retrySuccessFabricErrorCodes then
      Handling(true, false)
    else if e.typeName == FabricTransientException then
      Handling(true, true)
    else if fabricException.Some? && fabricException.value.inner.Some? then
      match fabricException.value.inner.value
      case ComException(code) =>
        if ToUInt32(code) in errors.internalRetrySuccessFabricErrorCodes then Handling(true, false)
        else Handling(false, false)
      case OtherInner => Handling(false, false)
    else
      Handling(false, false)
  }

  /** What one call of the operation does: return a value or throw. */
  datatype Outcome<T> = Returned(value: T) | Threw(e: Exception)

  /**
   * What one iteration of the loop observes: whether cancellation has been
   * requested when it starts, whether it is requested during the five-second
   * pause before the call (iterations after the first only), what the call
   * does, and the stopwatch reading when a failure is caught.
   */
  datatype Attempt<T> = Attempt(cancelled: bool, cancelledInWait: bool, outcome: Outcome<T>, elapsedMs: nat)

  /**
   * How the loop ends. `Default` is `default(T)`; `Cancelled` is the
   * cancellation exception, thrown at the top of an iteration or by the
   * pause. `TraceExhausted` marks the end of the given trace, not an end of
   * the loop.
   */
  datatype RetryResult<T> =
    | Value(value: T)
    | Default
    | Rethrown(e: Exception)
    | Cancelled
    | TraceExhausted

  /** One step of the loop's schedule: a pause or a call of the operation. */
  datatype Event = Wait | Call

  /** The call failed with a retry-class failure before the timeout had passed. */
  predicate Retries<T>(a: Attempt<T>, errors: RetryErrors, operationTimeoutMs: nat)
  {
    && a.outcome.Threw?
    && HandleException(a.outcome.e, errors) == Handling(true, true)
    && a.elapsedMs <= operationTimeoutMs
  }

  /**
   * What a run of the loop over `trace` promises, when it made `calls` calls,
   * produced the schedule `events` and ended with `r`.
   */
  ghost predicate RetryRun<T>(trace: seq<Attempt<T>>, errors: RetryErrors, operationTimeoutMs: nat,
                              r: RetryResult<T>, calls: nat, events: seq<Event>)
  {
    && calls <= |trace|
    // no call is made once cancellation is requested, at the top of an iteration or during its pause
    && (forall k :: 0 <= k < calls ==> !trace[k].cancelled)
    && (forall k :: 0 < k < calls ==> !trace[k].cancelledInWait)
    // every call but the last ended in a retry
    && (forall k :: 0 <= k < calls - 1 ==> Retries(trace[k], errors, operationTimeoutMs))
    && (r.Cancelled? <==>
          && calls < |trace|
          && (calls == 0 || Retries(trace[calls - 1], errors, operationTimeoutMs))
          && (trace[calls].cancelled || (0 < calls && trace[calls].cancelledInWait)))
    && (r.TraceExhausted? <==> calls == |trace| && (calls == 0 || Retries(trace[calls - 1], errors, operationTimeoutMs)))
    && (r.Value? ==> 0 < calls && trace[calls - 1].outcome == Returned(r.value))
    && (r.Default? ==>
          && 0 < calls
          && trace[calls - 1].outcome.Threw?
          && HandleException(trace[calls - 1].outcome.e, errors) == Handling(true, false))
    && (r.Rethrown? ==>
          && 0 < calls
          && trace[calls - 1].outcome == Threw(r.e)
          && var h := HandleException(r.e, errors);
             !h.handled || (h.retryElseSuccess && trace[calls - 1].elapsedMs > operationTimeoutMs))
    // the schedule: no pause before the first call, a pause before every later
    // call, and a last pause when a cancellation cut it short
    && |events| == (if calls == 0 then 0 else 2 * calls - 1)
                   + (if r.Cancelled? && 0 < calls < |trace| && !trace[calls].cancelled then 1 else 0)
    && (forall k :: 0 <= k < |events| ==> events[k] == (if k % 2 == 0 then Call else Wait))
  }

  /**
   * ExecuteFabricActionWithRetryAsync: call until the operation returns, a
   * failure is unhandled, a retry-class failure comes after the timeout, a
   * success-class failure returns the default, or cancellation is requested.
   */
  method ExecuteWithRetry<T>(trace: seq<Attempt<T>>, errors: RetryErrors, operationTimeoutMs: nat)
    returns (r: RetryResult<T>, calls: nat, events: seq<Event>)
    ensures RetryRun(trace, errors, operationTimeoutMs, r, calls, events)
  {
    var needToWait := false;
    calls := 0;
    events := [];
    while true
      invariant calls <= |trace|
      invariant needToWait <==> 0 < calls
      invariant |events| == (if calls == 0 then 0 else 2 * calls - 1)
      invariant forall k :: 0 <= k < |events| ==> events[k] == (if k % 2 == 0 then Call else Wait)
      invariant forall k :: 0 <= k < calls ==> !trace[k].cancelled && Retries(trace[k], errors, operationTimeoutMs)
      invariant forall k :: 0 < k < calls ==> !trace[k].cancelledInWait
      decreases |trace| - calls
    {
      if calls == |trace| {
        r := TraceExhausted;
        return;
      }
      var attempt := trace[calls];
      if attempt.cancelled {
        r := Cancelled;
        return;
      }
      if needToWait {
        events := events + [Wait];
        if attempt.cancelledInWait {
          r := Cancelled;
          return;
        }
      }
      events := events + [Call];
      calls := calls + 1;
      match attempt.outcome {
        case Returned(v) =>
          r := Value(v);
          return;
        case Threw(e) =>
          var h := HandleException(e, errors);
          if !h.handled {
            r := Rethrown(e);
            return;
          }
          if h.retryElseSuccess {
            if attempt.elapsedMs > operationTimeoutMs {
              r := Rethrown(e);
              return;
            }
            needToWait := true;
          } else {
            r := Default;
            return;
          }
      }
    }
  }

  /**
   * The loop's promise leaves no choice: over the same trace, lists and
   * timeout, two runs that both keep it end the same way, after the same
   * calls, with the same schedule.
   */
  lemma RetryRunUnique<T>(trace: seq<Attempt<T>>, errors: RetryErrors, operationTimeoutMs: nat,
                          r1: RetryResult<T>, calls1: nat, events1: seq<Event>,
                          r2: RetryResult<T>, calls2: nat, events2: seq<Event>)
    requires RetryRun(trace, errors, operationTimeoutMs, r1, calls1, events1)
    requires RetryRun(trace, errors, operationTimeoutMs, r2, calls2, events2)
    ensures r1 == r2 && calls1 == calls2 && events1 == events2
  {
    RunMakesDueCalls(trace, errors, operationTimeoutMs, r1, calls1, events1, calls2);
    RunMakesDueCalls(trace, errors, operationTimeoutMs, r2, calls2, events2, calls1);
    assert |events1| == |events2|;
  }

  /**
   * A run that keeps the promise makes every call that is due: if the first
   * `more` iterations are not cancelled and all but the last of their calls
   * retry, the run made at least `more` calls.
   */
  lemma RunMakesDueCalls<T>(trace: seq<Attempt<T>>, errors: RetryErrors, operationTimeoutMs: nat,
                            r: RetryResult<T>, calls: nat, events: seq<Event>, more: nat)
    requires RetryRun(trace, errors, operationTimeoutMs, r, calls, events)
    requires more <= |trace|
    requires forall k :: 0 <= k < more ==> !trace[k].cancelled
    requires forall k :: 0 < k < more ==> !trace[k].cancelledInWait
    requires forall k :: 0 <= k < more - 1 ==> Retries(trace[k], errors, operationTimeoutMs)
    ensures more <= calls
  {
  }

  /**
   * The overload without a timeout: the caller's retry lists with the
   * two-minute default timeout.
   */
  method ExecuteWithDefaultTimeout<T>(trace: seq<Attempt<T>>, errors: RetryErrors)
    returns (r: RetryResult<T>, calls: nat, events: seq<Event>)
    ensures RetryRun(trace, errors, DefaultOperationTimeoutMs, r, calls, events)
  {
    r, calls, events := ExecuteWithRetry(trace, errors, DefaultOperationTimeoutMs);
  }
}
