/** Waiting for a run: a deadline loop over a clock and a status source. */
module Polling {
  import opened Text

  datatype Poll = Status(status: string) | PollFailed

  predicate IsTerminal(status: string) { status in ["succeeded", "failed", "cancelled"] }

  /** Number of whole intervals needed to cover the timeout. */
  function CeilDiv(timeout: real, interval: real): (n: nat)
    requires timeout > 0.0 && interval > 0.0
  {
    var q := timeout / interval;
    assert q > 0.0;
    if q.Floor as real == q then q.Floor else q.Floor + 1
  }

  /** The number of intervals that just covers the timeout. */
  lemma CeilDivExactly(timeout: real, interval: real)
    requires timeout > 0.0 && interval > 0.0
    ensures CeilDiv(timeout, interval) as real * interval >= timeout
    ensures (CeilDiv(timeout, interval) as real - 1.0) * interval < timeout
  {
    var n := CeilDiv(timeout, interval);
    Covers(timeout, interval, n);
    BelowQuotient(n as real - 1.0, timeout, interval);
  }

  lemma BelowQuotient(x: real, timeout: real, interval: real)
    requires interval > 0.0 && x < timeout / interval
    ensures x * interval < timeout
  {
    DivideAndMultiply(timeout, interval);
    TimesStrict(x, timeout / interval, interval);
  }

  lemma TimesStrict(a: real, b: real, c: real)
    requires a < b && c > 0.0
    ensures a * c < b * c
  {
    assert (b - a) * c > 0.0;
    assert b * c == a * c + (b - a) * c;
  }

  /** Every sleep advances the clock by at least the interval; `clock(0)` is the reading that fixes
      the deadline and `clock(i)` the one after poll `i`. */
  ghost predicate Advances(clock: nat -> real, interval: real) {
    clock(1) >= clock(0) && forall i: nat :: i >= 1 ==> clock(i + 1) >= clock(i) + interval
  }

  lemma TimesMonotone(a: real, b: real, c: real)
    requires a >= b && c > 0.0
    ensures a * c >= b * c
  {
    assert (a - b) * c >= 0.0;
    assert a * c == b * c + (a - b) * c;
  }

  lemma DivideAndMultiply(a: real, b: real)
    requires b > 0.0
    ensures a / b * b == a
  {
  }

  lemma Covers(timeout: real, interval: real, n: nat)
    requires timeout > 0.0 && interval > 0.0 && n >= CeilDiv(timeout, interval)
    ensures n as real * interval >= timeout
  {
    var q := timeout / interval;
    DivideAndMultiply(timeout, interval);
    assert n as real >= q;
    TimesMonotone(n as real, q, interval);
  }

  /** Elapsed time after poll `i`. */
  lemma {:induction false} Elapsed(clock: nat -> real, interval: real, i: nat)
    requires Advances(clock, interval) && i >= 1
    ensures clock(i) >= clock(0) + (i - 1) as real * interval
  {
    if i > 1 {
      Elapsed(clock, interval, i - 1);
      assert clock((i - 1) + 1) >= clock(i - 1) + interval;
      assert (i - 1) as real * interval == (i - 2) as real * interval + interval;
    }
  }

  /** The loop goes on after poll `i`: it read a non-terminal status before the deadline. */
  ghost predicate Continues(poll: nat -> Poll, clock: nat -> real, timeout: real, i: nat) {
    && poll(i).Status? && poll(i).status != "succeeded" && poll(i).status != "failed" && poll(i).status != "cancelled"
    && clock(i) < clock(0) + timeout
  }

  /** Polls that continue are few. */
  lemma FewContinue(poll: nat -> Poll, clock: nat -> real, timeout: real, interval: real, i: nat)
    requires timeout > 0.0 && interval > 0.0 && Advances(clock, interval) && i >= 1
    requires Continues(poll, clock, timeout, i)
    ensures i <= CeilDiv(timeout, interval)
  {
    hide CeilDiv, Advances;
    Elapsed(clock, interval, i);
    if i - 1 >= CeilDiv(timeout, interval) { Covers(timeout, interval, i - 1); }
  }

  /** Waiting polls at least once and at most ceil(timeout/interval) + 1 times; it stops at the
      first poll that fails, is terminal or finds the deadline passed, and returns normally only
      when that poll read "succeeded". */
  method WaitForRunCompletion(poll: nat -> Poll, clock: nat -> real, timeout: real, interval: real)
    returns (r: Result<string>, polls: nat)
    requires timeout > 0.0 && interval > 0.0 ==> Advances(clock, interval)
    ensures timeout <= 0.0 || interval <= 0.0 ==> r.Err? && polls == 0
    ensures timeout > 0.0 && interval > 0.0 ==>
      && 1 <= polls <= CeilDiv(timeout, interval) + 1
      && (forall i :: 1 <= i < polls ==> Continues(poll, clock, timeout, i))
      && !(Continues(poll, clock, timeout, polls))
      && (r.Ok? <==> poll(polls) == Status("succeeded"))
      && (r.Ok? ==> r.value == "succeeded")
  {
    if timeout <= 0.0 {
      return Err("timeout_seconds must be greater than zero"), 0;
    }
    if interval <= 0.0 {
      return Err("poll_interval_seconds must be greater than zero"), 0;
    }
    hide CeilDiv, Advances;
    var deadline := clock(0) + timeout;
    ghost var most := CeilDiv(timeout, interval) + 1;
    polls := 0;
    while true
      invariant polls < most
      invariant forall i :: 1 <= i <= polls ==> Continues(poll, clock, timeout, i)
      decreases most - polls
    {
      polls := polls + 1;
      var run := poll(polls);
      if run.PollFailed? {
        return Err("Execution run fetch failed"), polls;
      }
      if IsTerminal(run.status) {
        if run.status != "succeeded" {
          return Err("Execution run finished with status " + run.status), polls;
        }
        return Ok(run.status), polls;
      }
      if clock(polls) >= deadline {
        return Err("Timed out waiting for execution run"), polls;
      }
      FewContinue(poll, clock, timeout, interval, polls);
    }
  }
}
