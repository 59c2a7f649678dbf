/**
  Properties of the breaker over one call and over whole sequences of calls:
  the invariant every call preserves, the recovery timing, the half-open
  probe, and which states a breaker can reach from construction.
 */
module BreakerRuns {
  import opened Optional
  import opened CircuitBreakers

  /** One guarded call: the operation, its arguments, and the two instants the call reads the clock at. */
  datatype Call<!A, V, !X> = Call(op: A -> Outcome<V, X>, args: A, tCheck: Time, tUpdate: Time)

  /** The breaker after a sequence of calls, with the reply of each call. */
  datatype Trace<!A, V, !X> = Trace(final: Breaker<A, V, X>, replies: seq<Reply<A, V, X>>)

  /** Guarding each call of `calls` in turn, starting from `b`. */
  function Run<A, V, X>(b: Breaker<A, V, X>, calls: seq<Call<A, V, X>>): (t: Trace<A, V, X>)
    requires Consistent(b.opts)
    ensures |t.replies| == |calls|
    ensures t.final.cfg == b.cfg
    ensures Consistent(t.final.opts)
    decreases |calls|
  {
    if |calls| == 0 then
      Trace(b, [])
    else
      var c := calls[0];
      var s := Guard(b, c.op, c.args, c.tCheck, c.tUpdate);
      var rest := Run(s.breaker, calls[1..]);
      Trace(rest.final, [s.reply] + rest.replies)
  }

  /** Reading the state keeps the invariant. */
  lemma ReadStatePreservesInv<A, V, X>(b: Breaker<A, V, X>, now: Time)
    requires Inv(b)
    ensures Inv(b.(opts := ReadState(b.opts, now)))
  {
  }

  /** Reading twice at the same instant is reading once; a later read absorbs an earlier one. */
  lemma ReadStateLaterAbsorbsEarlier(o: Opts, t1: Time, t2: Time)
    requires Consistent(o)
    requires t1 <= t2
    ensures ReadState(ReadState(o, t1), t2) == ReadState(o, t2)
  {
  }

  /**
    An open breaker stays open while the clock is at or before the opening
    instant plus the recovery timeout, and the first read strictly after it
    finds it half-open, with no failures and its timestamps kept.
   */
  lemma RecoveryTiming<A, V, X>(b: Breaker<A, V, X>, now: Time)
    requires Inv(b) && b.opts.state == Open
    ensures ReadState(b.opts, now).state == Open <==>
              now <= b.opts.circuitOpened.value + b.cfg.recoveryTimeout
    ensures now > b.opts.circuitOpened.value + b.cfg.recoveryTimeout ==>
              ReadState(b.opts, now) == Opts(HalfOpen, 0, b.opts.circuitOpened, b.opts.willRecover)
    ensures now <= b.opts.circuitOpened.value + b.cfg.recoveryTimeout ==>
              ReadState(b.opts, now) == b.opts
  {
  }

  /** Every guarded call keeps the invariant, whatever the operation does and whenever it is called. */
  lemma GuardPreservesInv<A, V, X>(b: Breaker<A, V, X>, op: A -> Outcome<V, X>, args: A, tCheck: Time, tUpdate: Time)
    requires Inv(b)
    ensures Inv(Guard(b, op, args, tCheck, tUpdate).breaker)
  {
    ReadStatePreservesInv(b, tCheck);
  }

  /** Every sequence of guarded calls keeps the invariant. */
  lemma {:induction false} RunPreservesInv<A, V, X>(b: Breaker<A, V, X>, calls: seq<Call<A, V, X>>)
    requires Inv(b)
    ensures Inv(Run(b, calls).final)
    decreases |calls|
  {
    if |calls| > 0 {
      var c := calls[0];
      GuardPreservesInv(b, c.op, c.args, c.tCheck, c.tUpdate);
      RunPreservesInv(Guard(b, c.op, c.args, c.tCheck, c.tUpdate).breaker, calls[1..]);
    }
  }

  /**
    The half-open probe fails: if the read finds the circuit half-open and the
    operation raises an expected error, the circuit opens again, with one
    failure and with timestamps taken from the decision instant, not from the
    earlier opening.
   */
  lemma HalfOpenFailureReopens<A, V, X>(b: Breaker<A, V, X>, op: A -> Outcome<V, X>, args: A, tCheck: Time, tUpdate: Time)
    requires Inv(b)
    requires ReadState(b.opts, tCheck).state == HalfOpen
    requires Classified(b.cfg, op(args))
    ensures Guard(b, op, args, tCheck, tUpdate).breaker.opts ==
              Opts(Open, 1, Some(tUpdate), Some(tUpdate + b.cfg.recoveryTimeout))
    ensures Guard(b, op, args, tCheck, tUpdate).reply == Value(None)
  {
    ReadStatePreservesInv(b, tCheck);
  }

  /**
    The half-open probe succeeds: with a non-negative threshold, a successful
    call from a half-open circuit closes it, clearing the count and both
    timestamps.
   */
  lemma HalfOpenSuccessCloses<A, V, X>(b: Breaker<A, V, X>, op: A -> Outcome<V, X>, args: A, tCheck: Time, tUpdate: Time)
    requires Inv(b) && b.cfg.failureThreshold >= 0
    requires ReadState(b.opts, tCheck).state == HalfOpen
    requires op(args).Ok?
    ensures Guard(b, op, args, tCheck, tUpdate).breaker.opts == ClosedOpts
    ensures Guard(b, op, args, tCheck, tUpdate).reply == Value(None)
  {
    ReadStatePreservesInv(b, tCheck);
  }

  /**
    An open circuit never runs the operation: the breaker after the call does
    not depend on what the operation would do, and with a fallback neither
    does the reply.
   */
  lemma OpenIgnoresOperation<A, V, X>(
    b: Breaker<A, V, X>, op1: A -> Outcome<V, X>, op2: A -> Outcome<V, X>, args: A,
    tCheck: Time, tUpdate1: Time, tUpdate2: Time)
    requires Consistent(b.opts)
    requires ReadState(b.opts, tCheck).state == Open
    ensures Guard(b, op1, args, tCheck, tUpdate1).breaker == Guard(b, op2, args, tCheck, tUpdate2).breaker
    ensures b.cfg.fallback.Some? ==>
              Guard(b, op1, args, tCheck, tUpdate1).reply == Guard(b, op2, args, tCheck, tUpdate2).reply
  {
  }

  /**
    With a threshold of at least one, a call on a closed breaker always leaves
    it closed with no failures: one expected error makes the count one, which
    does not exceed the threshold, and the decision then clears it.
   */
  lemma ClosedCallStaysClosed<A, V, X>(b: Breaker<A, V, X>, op: A -> Outcome<V, X>, args: A, tCheck: Time, tUpdate: Time)
    requires Inv(b) && b.opts.state == Closed
    requires b.cfg.failureThreshold >= 1
    ensures Guard(b, op, args, tCheck, tUpdate).breaker.opts == ClosedOpts
  {
  }

  /** Failures never accumulate: with a threshold of at least one, a closed breaker stays closed over any run. */
  lemma {:induction false} ClosedRunStaysClosed<A, V, X>(b: Breaker<A, V, X>, calls: seq<Call<A, V, X>>)
    requires Inv(b) && b.opts.state == Closed
    requires b.cfg.failureThreshold >= 1
    ensures Run(b, calls).final.opts == ClosedOpts
    decreases |calls|
  {
    if |calls| > 0 {
      var c := calls[0];
      ClosedCallStaysClosed(b, c.op, c.args, c.tCheck, c.tUpdate);
      ClosedRunStaysClosed(Guard(b, c.op, c.args, c.tCheck, c.tUpdate).breaker, calls[1..]);
    }
  }

  /**
    Built with any threshold argument other than a negative number (left out,
    zero, or positive), a breaker never opens and never becomes half-open,
    whatever its operations do and whenever they are called.
   */
  lemma {:induction false} OpenUnreachable<A, V, X(!new)>(
    failureThreshold: Option<int>, recoveryTimeout: Option<int>,
    expectedException: Option<X -> bool>, fallback: Option<A -> Outcome<V, X>>,
    calls: seq<Call<A, V, X>>)
    requires failureThreshold.None? || failureThreshold.value >= 0
    ensures Run(Construct(failureThreshold, recoveryTimeout, expectedException, fallback), calls).final.opts
              == ClosedOpts
  {
    ClosedRunStaysClosed(Construct(failureThreshold, recoveryTimeout, expectedException, fallback), calls);
  }

  /**
    With a negative threshold, every call that reaches the operation and does
    not end in an unexpected error opens the circuit, a success included,
    since a count of zero already exceeds the threshold.
   */
  lemma NegativeThresholdOpensOnAnyRecordedCall<A, V, X>(
    b: Breaker<A, V, X>, op: A -> Outcome<V, X>, args: A, tCheck: Time, tUpdate: Time)
    requires Consistent(b.opts) && b.cfg.failureThreshold < 0
    requires ReadState(b.opts, tCheck).state != Open
    requires op(args).Ok? || Classified(b.cfg, op(args))
    ensures Guard(b, op, args, tCheck, tUpdate).breaker.opts.state == Open
    ensures Guard(b, op, args, tCheck, tUpdate).breaker.opts.circuitOpened == Some(tUpdate)
  {
  }

  /** With a negative threshold, a breaker that is not closed never closes again. */
  lemma {:induction false} NegativeThresholdNeverCloses<A, V, X>(b: Breaker<A, V, X>, calls: seq<Call<A, V, X>>)
    requires Consistent(b.opts) && b.cfg.failureThreshold < 0
    requires b.opts.state != Closed
    ensures Run(b, calls).final.opts.state != Closed
    decreases |calls|
  {
    if |calls| > 0 {
      var c := calls[0];
      var s := Guard(b, c.op, c.args, c.tCheck, c.tUpdate);
      assert s.breaker.opts.state != Closed;
      NegativeThresholdNeverCloses(s.breaker, calls[1..]);
    }
  }

  /**
    An open breaker without a fallback rejects every call whose state read
    comes no later than its recovery time: the breaker is unchanged, and each
    call raises a `CircuitOpenError` naming that call's operation and carrying
    the original opening and recovery instants.
   */
  lemma {:induction false} RejectedUntilRecovery<A, V, X>(b: Breaker<A, V, X>, calls: seq<Call<A, V, X>>)
    requires Consistent(b.opts) && b.opts.state == Open && b.cfg.fallback.None?
    requires forall i :: 0 <= i < |calls| ==> calls[i].tCheck <= b.opts.willRecover.value
    ensures Run(b, calls).final == b
    ensures forall i :: 0 <= i < |calls| ==>
              Run(b, calls).replies[i] ==
                Raised(CircuitIsOpen(CircuitOpenError(calls[i].op, b.opts.circuitOpened, b.opts.willRecover)))
    decreases |calls|
  {
    if |calls| > 0 {
      var c := calls[0];
      assert Guard(b, c.op, c.args, c.tCheck, c.tUpdate).breaker == b;
      RejectedUntilRecovery(b, calls[1..]);
      forall i | 0 <= i < |calls|
        ensures Run(b, calls).replies[i] ==
                  Raised(CircuitIsOpen(CircuitOpenError(calls[i].op, b.opts.circuitOpened, b.opts.willRecover)))
      {
        if i > 0 {
          assert calls[1..][i - 1] == calls[i];
        }
      }
    }
  }
}
