/**
  The circuit breaker of `circuit_breaker.py` as an immutable record and pure
  transition functions.

  The breaker's mutable dictionary `opts` becomes the record `Opts`, its fixed
  configuration becomes `Config`, and the object itself is the pair `Breaker`.
  The wall clock becomes an integer `Time` supplied by the caller; the wrapped
  function becomes a function value returning an `Outcome`; the exception class
  the breaker expects becomes a predicate over errors.
 */
module CircuitBreakers {
  import opened Optional

  /** The three circuit states. */
  datatype State = Closed | Open | HalfOpen

  /** An instant, in the unit of `recoveryTimeout` (seconds in the source). */
  type Time = int

  /** What the protected operation does when called: return a value or raise an error. */
  datatype Outcome<V, X> = Ok(value: V) | Err(error: X)

  /**
    The breaker's configuration, fixed at construction: the failure threshold,
    the recovery timeout, which errors count as failures, and the optional
    fallback called in place of the operation while the circuit is open.
   */
  datatype Config<!A, V, !X> = Config(
    failureThreshold: int,
    recoveryTimeout: int,
    expectedException: X -> bool,
    fallback: Option<A -> Outcome<V, X>>)

  /** The four entries of the breaker's `opts` dictionary. */
  datatype Opts = Opts(
    state: State,
    totalFailed: nat,
    circuitOpened: Option<Time>,
    willRecover: Option<Time>)

  datatype Breaker<!A, V, !X> = Breaker(cfg: Config<A, V, X>, opts: Opts)

  /**
    The error raised when the circuit is open and there is no fallback. It keeps
    the guarded function and the two timestamps; the state and the failure count
    it is handed are dropped.
   */
  datatype CircuitOpenError<!A, V, !X> = CircuitOpenError(
    func: A -> Outcome<V, X>,
    circuitOpened: Option<Time>,
    willRecover: Option<Time>)

  /**
    An exception leaving the guarded call: an error of the operation, an
    error of the fallback, or the breaker's own rejection.
   */
  datatype Exception<!A, V, !X> =
    | OperationFailed(error: X)
    | FallbackFailed(error: X)
    | CircuitIsOpen(info: CircuitOpenError<A, V, X>)

  /** What a call gives back to its caller: a value (possibly `None`) or an exception. */
  datatype Reply<!A, V, !X> = Value(result: Option<V>) | Raised(exc: Exception<A, V, X>)

  /** The breaker after a call, together with the call's reply. */
  datatype Step<!A, V, !X> = Step(breaker: Breaker<A, V, X>, reply: Reply<A, V, X>)

  const DefaultFailureThreshold: int := 5
  const DefaultRecoveryTimeout: int := 30

  /** Python's `arg or default` on an optional integer: `None` and `0` are falsy. */
  function IntOr(arg: Option<int>, default: int): int {
    if arg.Some? && arg.value != 0 then arg.value else default
  }

  /** The exception class `Exception`: every error the operation raises matches it. */
  function AnyError<X>(): X -> bool {
    (e: X) => true
  }

  const ClosedOpts: Opts := Opts(Closed, 0, None, None)

  /**
    Building a breaker. Each argument left out (or falsy) takes the class
    default; a non-zero threshold or timeout is kept whatever its sign. The
    breaker starts closed, with no failures and no timestamps.
   */
  function Construct<A, V, X(!new)>(
    failureThreshold: Option<int>,
    recoveryTimeout: Option<int>,
    expectedException: Option<X -> bool>,
    fallback: Option<A -> Outcome<V, X>>): (b: Breaker<A, V, X>)
    ensures failureThreshold == None || failureThreshold == Some(0) ==>
              b.cfg.failureThreshold == DefaultFailureThreshold
    ensures failureThreshold.Some? && failureThreshold.value != 0 ==>
              b.cfg.failureThreshold == failureThreshold.value
    ensures recoveryTimeout == None || recoveryTimeout == Some(0) ==>
              b.cfg.recoveryTimeout == DefaultRecoveryTimeout
    ensures recoveryTimeout.Some? && recoveryTimeout.value != 0 ==>
              b.cfg.recoveryTimeout == recoveryTimeout.value
    ensures expectedException.None? ==> forall e: X :: b.cfg.expectedException(e)
    ensures expectedException.Some? ==> b.cfg.expectedException == expectedException.value
    ensures b.cfg.fallback == fallback
    ensures b.opts.state == Closed && b.opts.totalFailed == 0
    ensures b.opts.circuitOpened == None && b.opts.willRecover == None
    ensures Inv(b)
  {
    var expected := match expectedException
      case Some(p) => p
      case None => AnyError();
    Breaker(
      Config(IntOr(failureThreshold, DefaultFailureThreshold),
             IntOr(recoveryTimeout, DefaultRecoveryTimeout),
             expected,
             fallback),
      ClosedOpts)
  }

  /**
    What every reading of the state needs: an open circuit has a recovery
    time to compare the clock with.
   */
  predicate Consistent(o: Opts) {
    o.state == Open ==> o.willRecover.Some?
  }

  /**
    The invariant of a breaker between calls: a closed circuit has no failures
    and no timestamps; an open or half-open one was opened at some instant and
    recovers exactly one recovery timeout later; a half-open one has no
    failures.
   */
  predicate Inv<A, V, X>(b: Breaker<A, V, X>) {
    var o := b.opts;
    && (o.state == Closed ==> o == ClosedOpts)
    && (o.state != Closed ==>
          && o.circuitOpened.Some?
          && o.willRecover == Some(o.circuitOpened.value + b.cfg.recoveryTimeout))
    && (o.state == HalfOpen ==> o.totalFailed == 0)
  }

  /**
    Reading the state at instant `now`. An open circuit whose recovery time
    lies strictly before `now` becomes half-open with its failure count reset;
    the timestamps are kept. Any other read leaves everything as it is.
   */
  function ReadState(o: Opts, now: Time): (r: Opts)
    requires Consistent(o)
    ensures Consistent(r)
    ensures r == o || (o.state == Open && r == o.(state := HalfOpen, totalFailed := 0))
    ensures r.state == Open <==> o.state == Open && now <= o.willRecover.value
    ensures r.state == HalfOpen <==> o.state == HalfOpen || (o.state == Open && now > o.willRecover.value)
    ensures r.state == Closed <==> o.state == Closed
  {
    if o.state == Open && now > o.willRecover.value then
      o.(state := HalfOpen, totalFailed := 0)
    else
      o
  }

  /**
    The decision taken after each call that reached the operation, at instant
    `now`. The circuit opens exactly when the failure count exceeds the
    threshold, or when it is half-open and has seen a failure; on opening it
    records `now` and `now` plus the recovery timeout and keeps the count.
    Otherwise it closes, with the count and both timestamps cleared. It never
    leaves the circuit half-open.

    The half-open test reads the state once more (at `now`), after the count
    has been taken; on an open circuit past its recovery time that read resets
    the count it then tests, so such a circuit closes unless the count taken
    first already exceeds the threshold.
   */
  function UpdateState<A, V, X>(cfg: Config<A, V, X>, o: Opts, now: Time): (r: Opts)
    requires Consistent(o)
    ensures r.state == Open <==>
              o.totalFailed > cfg.failureThreshold || (o.state == HalfOpen && o.totalFailed > 0)
    ensures r.state == Open ==>
              r == Opts(Open, o.totalFailed, Some(now), Some(now + cfg.recoveryTimeout))
    ensures r.state != Open ==> r == ClosedOpts
    ensures r.state != HalfOpen
  {
    var totalFailed := o.totalFailed;
    var reread := ReadState(o, now);
    if totalFailed > cfg.failureThreshold || (reread.state == HalfOpen && reread.totalFailed > 0) then
      Opts(Open, totalFailed, Some(now), Some(now + cfg.recoveryTimeout))
    else
      ClosedOpts
  }

  /** Whether an outcome is an error the breaker expects. */
  predicate Classified<A, V, X>(cfg: Config<A, V, X>, out: Outcome<V, X>) {
    out.Err? && cfg.expectedException(out.error)
  }

  /**
    Running the operation whose outcome is `out`, then deciding at `now`.
    A success gives back its value; an expected error adds one failure and
    gives back `None`; both then go through `UpdateState`. Any other error
    escapes before the decision and leaves the breaker untouched.
   */
  function ProcessFunc<A, V, X>(b: Breaker<A, V, X>, out: Outcome<V, X>, now: Time): (s: Step<A, V, X>)
    requires Consistent(b.opts)
    ensures Consistent(s.breaker.opts)
    ensures s.breaker.cfg == b.cfg
    ensures out.Ok? ==>
              s.reply == Value(Some(out.value)) && s.breaker.opts == UpdateState(b.cfg, b.opts, now)
    ensures Classified(b.cfg, out) ==>
              && s.reply == Value(None)
              && Record(b.cfg, b.opts, out).totalFailed == b.opts.totalFailed + 1
              && s.breaker.opts == UpdateState(b.cfg, Record(b.cfg, b.opts, out), now)
    ensures out.Err? && !Classified(b.cfg, out) ==>
              s.breaker == b && s.reply == Raised(OperationFailed(out.error))
  {
    match out
    case Ok(v) =>
      Step(b.(opts := UpdateState(b.cfg, b.opts, now)), Value(Some(v)))
    case Err(e) =>
      if b.cfg.expectedException(e) then
        Step(b.(opts := UpdateState(b.cfg, Record(b.cfg, b.opts, out), now)), Value(None))
      else
        Step(b, Raised(OperationFailed(e)))
  }

  /** The failure count after an outcome is recorded, before the decision: one more on an expected error. */
  function Record<A, V, X>(cfg: Config<A, V, X>, o: Opts, out: Outcome<V, X>): Opts {
    if Classified(cfg, out) then o.(totalFailed := o.totalFailed + 1) else o
  }

  /**
    One call of `op` on `args` through the breaker. The state is read at
    `tCheck`; the decision after the operation is taken at `tUpdate`.

    If the read finds the circuit open, the operation is not run and the
    breaker is unchanged: the fallback, if there is one, is applied to the same
    arguments and its value returned, or its error raised as it stands;
    otherwise a `CircuitOpenError` is raised, built from the guarded function
    and the breaker's `opts` but keeping only the function and the two
    timestamps. Otherwise the operation runs: an
    unexpected error escapes and leaves the breaker as the read left it; any
    other outcome is recorded and the wrapper returns `None`, whatever the
    operation returned.
   */
  function Guard<A, V, X>(b: Breaker<A, V, X>, op: A -> Outcome<V, X>, args: A, tCheck: Time, tUpdate: Time)
    : (s: Step<A, V, X>)
    requires Consistent(b.opts)
    ensures Consistent(s.breaker.opts)
    ensures s.breaker.cfg == b.cfg
    ensures ReadState(b.opts, tCheck).state == Open ==>
              && s.breaker == b
              && (b.cfg.fallback.Some? && b.cfg.fallback.value(args).Ok? ==>
                    s.reply == Value(Some(b.cfg.fallback.value(args).value)))
              && (b.cfg.fallback.Some? && b.cfg.fallback.value(args).Err? ==>
                    s.reply == Raised(FallbackFailed(b.cfg.fallback.value(args).error)))
              && (b.cfg.fallback.None? ==>
                    s.reply == Raised(CircuitIsOpen(CircuitOpenError(op, b.opts.circuitOpened, b.opts.willRecover))))
    ensures ReadState(b.opts, tCheck).state != Open && op(args).Err? && !Classified(b.cfg, op(args)) ==>
              && s.breaker.opts == ReadState(b.opts, tCheck)
              && s.reply == Raised(OperationFailed(op(args).error))
    ensures ReadState(b.opts, tCheck).state != Open && (op(args).Ok? || Classified(b.cfg, op(args))) ==>
              && s.reply == Value(None)
              && s.breaker.opts == UpdateState(b.cfg, Record(b.cfg, ReadState(b.opts, tCheck), op(args)), tUpdate)
  {
    var read := ReadState(b.opts, tCheck);
    var current := b.(opts := read);
    if read.state == Open then
      match b.cfg.fallback
      case Some(fallback) =>
        (match fallback(args)
         case Ok(v) => Step(current, Value(Some(v)))
         case Err(e) => Step(current, Raised(FallbackFailed(e))))
      case None =>
        Step(current, Raised(CircuitIsOpen(CircuitOpenError(op, read.circuitOpened, read.willRecover))))
    else
      var processed := ProcessFunc(current, op(args), tUpdate);
      match processed.reply
      case Value(_) => Step(processed.breaker, Value(None))
      case Raised(e) => processed
  }
}
