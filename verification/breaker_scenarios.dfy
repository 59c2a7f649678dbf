/**
  Concrete runs of the breaker that show where the code does not do what its
  own comments say: the comment on the opening test (circuit_breaker.py line
  74) says the circuit opens once the failure count exceeds the threshold,
  and the default threshold is annotated as "5 retries" (line 17).
 */
module BreakerScenarios {
  import opened Optional
  import opened CircuitBreakers
  import opened BreakerRuns

  /** An operation that always raises the error it is given. */
  function AlwaysFails(n: int): Outcome<int, int> {
    Err(n)
  }

  /** An operation that always succeeds, returning its argument. */
  function AlwaysSucceeds(n: int): Outcome<int, int> {
    Ok(n)
  }

  /**
    Threshold two, recovery timeout five: after three expected failures in a
    row the count never exceeds the threshold, as the comment on the opening
    test would have it; the circuit stays closed with no failures, because
    every decision that does not open clears the count.
   */
  lemma ThreeFailuresWithThresholdTwoStayClosed()
    ensures var b := Construct<int, int, int>(Some(2), Some(5), None, None);
            var calls := [Call(AlwaysFails, 1, 0, 0), Call(AlwaysFails, 2, 1, 1), Call(AlwaysFails, 3, 2, 2)];
            Run(b, calls).final.opts == ClosedOpts
            && Run(b, calls).replies == [Value(None), Value(None), Value(None)]
  {
    var b := Construct<int, int, int>(Some(2), Some(5), None, None);
    var calls := [Call(AlwaysFails, 1, 0, 0), Call(AlwaysFails, 2, 1, 1), Call(AlwaysFails, 3, 2, 2)];
    var s1 := Guard(b, AlwaysFails, 1, 0, 0);
    assert s1.breaker == b;
    var s2 := Guard(s1.breaker, AlwaysFails, 2, 1, 1);
    assert s2.breaker == b;
    var s3 := Guard(s2.breaker, AlwaysFails, 3, 2, 2);
    assert s3.breaker == b;
    var last := [Call(AlwaysFails, 3, 2, 2)];
    var lastTwo := [Call(AlwaysFails, 2, 1, 1)] + last;
    assert calls == [Call(AlwaysFails, 1, 0, 0)] + lastTwo;
    assert Run(b, last) == Trace(b, [Value(None)]) by {
      assert last[1..] == [];
    }
    assert Run(b, lastTwo) == Trace(b, [Value(None), Value(None)]) by {
      assert lastTwo[1..] == last;
    }
    assert calls[1..] == lastTwo;
  }

  /** A threshold argument of zero is falsy and silently becomes the default of five. */
  lemma ZeroThresholdBecomesFive()
    ensures Construct<int, int, int>(Some(0), None, None, None).cfg.failureThreshold == 5
  {
  }

  /**
    A negative threshold argument is kept; the very first successful call then
    opens the circuit, at the decision instant, recovering one (default) timeout
    later.
   */
  lemma NegativeThresholdSuccessOpens()
    ensures var b := Construct<int, int, int>(Some(-1), None, None, None);
            var s := Guard(b, AlwaysSucceeds, 7, 10, 10);
            s.breaker.opts == Opts(Open, 0, Some(10), Some(40)) && s.reply == Value(None)
  {
    var b := Construct<int, int, int>(Some(-1), None, None, None);
    assert b.cfg.failureThreshold == -1;
  }

  /**
    Continuing with the negative threshold: a call read at exactly the recovery
    instant is still rejected; a call read one instant later probes the
    half-open circuit, and even its success reopens it.
   */
  lemma NegativeThresholdProbeReopens()
    ensures var b := Construct<int, int, int>(Some(-1), None, None, None);
            var tripped := Guard(b, AlwaysSucceeds, 7, 10, 10).breaker;
            var rejected := Guard(tripped, AlwaysSucceeds, 8, 40, 40);
            var probed := Guard(tripped, AlwaysSucceeds, 9, 41, 42);
            && rejected.breaker == tripped
            && rejected.reply == Raised(CircuitIsOpen(CircuitOpenError(AlwaysSucceeds, Some(10), Some(40))))
            && probed.breaker.opts == Opts(Open, 0, Some(42), Some(72))
  {
    var b := Construct<int, int, int>(Some(-1), None, None, None);
    assert b.cfg.failureThreshold == -1;
    var tripped := Guard(b, AlwaysSucceeds, 7, 10, 10).breaker;
    assert tripped.opts == Opts(Open, 0, Some(10), Some(40));
    assert ReadState(tripped.opts, 41).state == HalfOpen;
  }
}
