# Circuit breaker: a Dafny model

This project models the circuit breaker in `circuit_breaker.py`, the class `CircuitBreaker`.
The breaker wraps calls to an unreliable operation. It counts the failures the operation
raises and opens the circuit once the count exceeds a threshold. While the circuit is open,
calls are short-circuited to a fallback or rejected with a `CircuitBreakerExpection`.
After a recovery timeout, the next reading of the state finds the circuit half-open, and
the next call probes the operation.

The breaker's dictionary `opts` (state, `total_failed`, `circuit_opened`, `will_recover`)
becomes the immutable record `Opts`, and its configuration becomes `Config`. Every code path
becomes a pure function of the breaker, the call's outcome and integer instants:

- `Construct` models `__init__`, including Python's `arg or default`.
- `ReadState` models the `_state` property, with its lazy open-to-half-open transition.
- `UpdateState` models the post-call decision `update_state`.
- `ProcessFunc` models `process_func`: the outcome bookkeeping.
- `Guard` models the `decorated` wrapper returned by `__call__`.
- `BreakerRuns.Run` folds `Guard` over a sequence of calls.

Modules:

- `Optional` (optional.dfy) holds the `Option` type.
- `CircuitBreakers` (circuit_breaker.dfy) holds the data model and the operations.
- `BreakerRuns` (breaker_runs.dfy) holds runs, the invariant and the reachability lemmas.
- `BreakerScenarios` (breaker_scenarios.dfy) holds concrete runs that exhibit the code's quirks.

Modelling choices:

- Time is an integer supplied by the caller; no real clock is read. A call reads the state at
  `tCheck` (line 57) and takes its decision at `tUpdate`. The two `datetime.now()` calls at
  lines 77-78 are treated as the single instant `tUpdate`. No order between `tCheck` and `tUpdate`
  is assumed, and none of the properties needs one.
- The protected operation and the fallback are function values `A -> Outcome<V, X>`: each
  either returns a value or raises an error. The expected exception class becomes a predicate over errors. The
  default class `Exception` becomes the predicate that accepts every error.
- The only precondition is `Consistent`: an open circuit has a recovery time. Without it,
  the source's comparison `datetime.now() > None` would raise a `TypeError`. `Inv` is the
  stronger invariant that holds between calls. Construction establishes it and every call
  preserves it.
- `update_state` reads `self._state` once more (line 73) after taking the count (line 71).
  `UpdateState` models that second read at `tUpdate`.

## Where the code and its comments differ

The model follows the code as written. It proves the consequences rather than what the
comments in `circuit_breaker.py` describe: line 74 says the circuit opens "if total failed
count exceeds threshold value", and the default threshold is annotated "5 retries" (line 17).

- Failures never accumulate. Every decision that does not open the circuit resets the count
  to 0 (line 83). So with a threshold of at least 1, a call on a closed breaker can never open
  it. From construction with a non-negative threshold argument, `Open` and `HalfOpen` are
  unreachable (`BreakerRuns.OpenUnreachable`). The count the comment at line 74 refers to
  never exceeds 1 from a closed circuit, so the threshold is never exceeded. `BreakerScenarios.ThreeFailuresWithThresholdTwoStayClosed`
  shows three failures with threshold 2 leaving the circuit closed.
- A threshold argument of 0 is falsy and becomes the default 5. A negative threshold is kept,
  and then even a success opens the circuit, because `0 > -1`.
- An expected error is swallowed: the call returns `None` instead of re-raising.
- The wrapper discards the operation's result and returns `None` (line 64). `process_func`
  itself does return the result.
- An unexpected error escapes without a decision being taken. The breaker is left exactly as
  the state read at line 57 left it. That read may have moved an open circuit to half-open
  and reset its count.
- A fallback is called with nothing around it (line 61): its value is returned and its error
  is raised as it stands, whether or not the breaker expects that error.
- Recovery is strict. A read at exactly `will_recover` still finds the circuit open.

## Model

| member | source | states |
|---|---|---|
| CircuitBreakers.Construct | circuit_breaker.py:17-31 | A missing or zero threshold or timeout takes the default (5, 30); any other value is kept, sign included. A missing expected exception accepts every error, and the fallback is kept as given. The breaker starts closed with count 0, no timestamps, and the invariant holding. |
| CircuitBreakers.ReadState | circuit_breaker.py:34-40 | A read changes nothing, except that an open circuit whose recovery instant is strictly before `now` becomes half-open with count 0, keeping both timestamps. The result is open iff the input was open and `now <= will_recover`. |
| CircuitBreakers.UpdateState | circuit_breaker.py:67-90 | Opens iff count > threshold, or the state is half-open with count > 0. On opening it records `now` and `now + timeout` and keeps the count. Otherwise it closes with count 0 and no timestamps. It never yields half-open. |
| CircuitBreakers.ProcessFunc | circuit_breaker.py:92-104 | A success returns the value and decides on the unchanged count. An expected error adds exactly 1 to the count, returns `None` and then decides. An unexpected error propagates and leaves the breaker untouched. |
| CircuitBreakers.Guard | circuit_breaker.py:54-65 | If the read finds the circuit open, the breaker is unchanged. A fallback is applied to the same arguments: its value is returned, or its error is raised unchanged. Without a fallback, a `CircuitBreakerExpection` is raised that keeps the function and the current two timestamps and drops the state and count it is handed (lines 112-115). Otherwise an unexpected error propagates and leaves the post-read state, and every other outcome is recorded and returns `None`. |
| BreakerRuns.ReadStatePreservesInv | circuit_breaker.py:34-40 | The lazy transition keeps the between-calls invariant. |
| BreakerRuns.ReadStateLaterAbsorbsEarlier | circuit_breaker.py:34-40 | Reading at `t1` and then at a later `t2` is the same as reading at `t2` alone, so repeated reads are idempotent. |
| BreakerRuns.RecoveryTiming | circuit_breaker.py:35-39 | An open breaker stays open, unchanged, while `now <= opened + timeout`. Strictly after that instant, the read gives half-open with count 0 and the original timestamps. |
| BreakerRuns.GuardPreservesInv | circuit_breaker.py:54-104 | Every guarded call keeps the invariant: closed means count 0 and no timestamps, `will_recover = circuit_opened + timeout` when not closed, and half-open means count 0. |
| BreakerRuns.RunPreservesInv | circuit_breaker.py:54-104 | Any sequence of guarded calls keeps the invariant. |
| BreakerRuns.HalfOpenFailureReopens | circuit_breaker.py:72-79 | From a half-open read, one expected error reopens the circuit with count 1. The timestamps come from the decision instant, not from the original opening. |
| BreakerRuns.HalfOpenSuccessCloses | circuit_breaker.py:80-90 | From a half-open read with a non-negative threshold, a success closes the circuit with count 0 and no timestamps. |
| BreakerRuns.OpenIgnoresOperation | circuit_breaker.py:57-63 | When the read finds the circuit open, the resulting breaker does not depend on the operation. With a fallback, neither does the reply: the operation is never run. |
| BreakerRuns.ClosedCallStaysClosed | circuit_breaker.py:71-83 | With threshold >= 1, any call on a closed breaker leaves it closed with count 0 and no timestamps. |
| BreakerRuns.ClosedRunStaysClosed | circuit_breaker.py:71-83 | With threshold >= 1, a closed breaker stays closed with count 0 over any sequence of calls, so failures never accumulate. |
| BreakerRuns.OpenUnreachable | circuit_breaker.py:26-31 | A breaker built with a missing, zero or positive threshold argument is still closed with count 0 after any sequence of calls at any instants. |
| BreakerRuns.NegativeThresholdOpensOnAnyRecordedCall | circuit_breaker.py:72-79 | With a negative threshold, every call that reaches the operation and ends in success or an expected error opens the circuit at the decision instant. |
| BreakerRuns.NegativeThresholdNeverCloses | circuit_breaker.py:72-83 | With a negative threshold, a breaker that is open or half-open is never closed by any sequence of calls. |
| BreakerRuns.RejectedUntilRecovery | circuit_breaker.py:107-115 | With no fallback, an open breaker rejects every call read no later than its recovery instant. The breaker is unchanged, and each error carries that call's function and the original `circuit_opened` and `will_recover`. |
| BreakerScenarios.ThreeFailuresWithThresholdTwoStayClosed | circuit_breaker.py:71-90 | Threshold 2, timeout 5: three consecutive expected failures leave the breaker closed with count 0, and each call returns `None`. |
| BreakerScenarios.ZeroThresholdBecomesFive | circuit_breaker.py:26 | A threshold argument of 0 becomes 5. |
| BreakerScenarios.NegativeThresholdSuccessOpens | circuit_breaker.py:26 | A threshold of -1 is kept, and a first successful call at instant 10 opens the circuit, recovering at 40. |
| BreakerScenarios.NegativeThresholdProbeReopens | circuit_breaker.py:35-79 | Continuing from there, a call read at exactly 40 is rejected with the original timestamps. A call read at 41 probes the circuit, and its success reopens it at the decision instant. |

## Left out

- Logging (`logger.info`, line 103) and the `__str__` text of the error (lines 117-119) are presentation only.
- The module-level instance `circuit_breaker` (line 122) is one default construction.
- The accessor properties `_total_failed`, `_circuit_opened` and `_will_recover` are plain field reads of `Opts`.
- `datetime.now()` and `timedelta` are replaced by integer instants from the caller. The recovery timeout is a whole number of time units, not a float of seconds.
- `functools.wraps` and `*args`/`**kwargs` forwarding are replaced by one argument value of type `A`. Decorating a function is applying `Guard` to it.
- Exception-class matching is replaced by a predicate over errors. Errors outside `Exception` (`BaseException` subclasses) are not modelled: every modelled error matches the default.
- Python truthiness is modelled for integer arguments: `None` and `0` are falsy. Other falsy values, such as `False` or `0.0`, are not modelled. An expected exception class or a fallback function is always truthy, so only its absence picks the default.
- The operation's return value is an arbitrary `V`. A Python operation that returns `None` is a value like any other here, so `Value(Some(v))` and `Value(None)` stay distinct.
- Concurrency: the source has no threads or locks, and none are modelled.
- CircuitBreakers.Guard: the operation is a pure function judged against the breaker as read at line 57. An operation that calls back through the same breaker (a decorated recursive function, or two functions decorated with the shared instance at line 122) changes `opts` between lines 57 and 100-102 in the source. Such re-entrant calls are not modelled, and `BreakerRuns.GuardPreservesInv` and `BreakerRuns.OpenUnreachable` say nothing about them.
- CircuitBreakers.UpdateState: instants are unbounded integers. In the source, `datetime.now() + timedelta(...)` at line 78 raises `OverflowError` when the recovery instant falls outside `datetime`'s range (for example `recovery_timeout=10**12`). The breaker then stays as `process_func` left it before the decision. The model has no such bound and always opens with `willRecover = now + recoveryTimeout`.
- `solution.py` is a driver loop with randomness, sleeping and printing. `utils.py` is wall-clock timing and logging. `webhook.py` is a stub operation. None of these is part of this model.
