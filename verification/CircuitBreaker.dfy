/** The breaker of go-agent/ai/circuit_breaker.go.  `Call` releases its lock while the guarded
    function runs, so it is two critical sections, `Start` and `Finish`; callers in any number may
    interleave them.  Times are seconds on one nondecreasing clock. */
module CircuitBreaker {
  datatype Status = CLOSED | OPEN | HALF_OPEN

  // One critical section, as the history records it.
  datatype Event = Started(at: real) | Refused(at: real) | Finished(at: real, failed: bool)

  const FAILURE_LIMIT: nat := 3
  const DEFAULT_TIMEOUT: real := 300.0

  // ---------------------------------------------------------------------------------------------
  // What the history says, independently of the breaker's fields.

  // Failures completed since the last completed success.
  function TrailingFailures(h: seq<Event>): nat {
    if h == [] then 0
    else
      var last := h[|h| - 1];
      if last.Finished? then (if last.failed then TrailingFailures(h[..|h| - 1]) + 1 else 0)
      else TrailingFailures(h[..|h| - 1])
  }

  // A call was let through after the last completion.
  predicate StartedSince(h: seq<Event>) {
    h != [] && !h[|h| - 1].Finished? && (h[|h| - 1].Started? || StartedSince(h[..|h| - 1]))
  }

  // Time of the last failed completion; 0 when there is none.
  function LastFailure(h: seq<Event>): real {
    if h == [] then 0.0
    else
      var last := h[|h| - 1];
      if last.Finished? && last.failed then last.at else LastFailure(h[..|h| - 1])
  }

  function StatusOf(h: seq<Event>): Status {
    if TrailingFailures(h) < FAILURE_LIMIT then CLOSED
    else if StartedSince(h) then HALF_OPEN
    else OPEN
  }

  predicate Blocks(h: seq<Event>, timeout: real, now: real) {
    StatusOf(h) == OPEN && now - LastFailure(h) <= timeout
  }

  // Calls running outside the lock.
  function Running(h: seq<Event>): int {
    if h == [] then 0
    else
      Running(h[..|h| - 1]) +
      match h[|h| - 1] case Started(_) => 1 case Refused(_) => 0 case Finished(_, _) => -1
  }

  // Every admission and refusal is the right one for the history before it, and time moves forward.
  predicate Lawful(h: seq<Event>, timeout: real) {
    h == [] ||
    (var before, last := h[..|h| - 1], h[|h| - 1];
     && Lawful(before, timeout)
     && (before == [] || before[|before| - 1].at <= last.at)
     && (last.Started? ==> !Blocks(before, timeout, last.at))
     && (last.Refused? ==> Blocks(before, timeout, last.at))
     && (last.Finished? ==> Running(before) > 0))
  }

  lemma {:induction false} RunningNonnegative(h: seq<Event>, timeout: real)
    requires Lawful(h, timeout)
    ensures Running(h) >= 0
  {
    if h != [] {
      RunningNonnegative(h[..|h| - 1], timeout);
    }
  }

  class CircuitBreaker {
    var state: Status
    var failCount: nat
    var lastFailAt: real
    const openTimeout: real
    ghost var history: seq<Event>

    ghost predicate Valid()
      reads this
    {
      && openTimeout > 0.0
      && Lawful(history, openTimeout)
      && state == StatusOf(history)
      && failCount == TrailingFailures(history)
      && lastFailAt == LastFailure(history)
    }

    ghost predicate NotBefore(now: real)
      reads this
    {
      history == [] || history[|history| - 1].at <= now
    }

    constructor (timeout: real)
      ensures Valid() && history == [] && state == CLOSED
      ensures openTimeout == if timeout <= 0.0 then 300.0 else timeout
    {
      state, failCount, lastFailAt := CLOSED, 0, 0.0;
      openTimeout := if timeout <= 0.0 then DEFAULT_TIMEOUT else timeout;
      history := [];
    }

    // First critical section of Call: true when the guarded function may run.
    method Start(now: real) returns (admitted: bool)
      requires Valid() && NotBefore(now)
      modifies this
      ensures Valid()
      ensures history == old(history) + [if admitted then Started(now) else Refused(now)]
      ensures admitted <==> !Blocks(old(history), openTimeout, now)
      ensures admitted ==> Running(history) > 0
    {
      ghost var before := history;
      admitted := true;
      if state == OPEN {
        if now - lastFailAt > openTimeout {
          state := HALF_OPEN;
        } else {
          admitted := false;
        }
      }
      history := history + [if admitted then Started(now) else Refused(now)];
      assert history[..|history| - 1] == before;
      RunningNonnegative(before, openTimeout);
    }

    // Second critical section of Call, once the guarded function has returned.
    method Finish(now: real, failed: bool)
      requires Valid() && NotBefore(now) && Running(history) > 0
      modifies this
      ensures Valid() && history == old(history) + [Finished(now, failed)]
    {
      ghost var before := history;
      history := history + [Finished(now, failed)];
      assert history[..|history| - 1] == before;
      if failed {
        failCount := failCount + 1;
        lastFailAt := now;
        if failCount >= FAILURE_LIMIT {
          state := OPEN;
        }
        return;
      }
      failCount := 0;
      state := CLOSED;
    }
  }

  // ---------------------------------------------------------------------------------------------
  // Consequences for every run.

  // The completions of a run, oldest first.
  function Outcomes(h: seq<Event>): seq<bool> {
    if h == [] then []
    else Outcomes(h[..|h| - 1]) + (if h[|h| - 1].Finished? then [h[|h| - 1].failed] else [])
  }

  lemma {:induction false} TrailingCounts(h: seq<Event>)
    ensures
      var outcomes, n := Outcomes(h), TrailingFailures(h);
      && n <= |outcomes|
      && (forall i :: |outcomes| - n <= i < |outcomes| ==> outcomes[i])
      && (n < |outcomes| ==> !outcomes[|outcomes| - n - 1])
  {
    if h != [] {
      TrailingCounts(h[..|h| - 1]);
    }
  }

  /** Not CLOSED if and only if the last three completions all failed. */
  lemma ClosedUnlessThreeFailed(h: seq<Event>)
    ensures
      var outcomes := Outcomes(h);
      StatusOf(h) != CLOSED <==>
      |outcomes| >= 3 && outcomes[|outcomes| - 1] && outcomes[|outcomes| - 2] && outcomes[|outcomes| - 3]
  {
    TrailingCounts(h);
    var outcomes, n := Outcomes(h), TrailingFailures(h);
    if n < |outcomes| {
      assert !outcomes[|outcomes| - n - 1];
    }
  }

  lemma {:induction false} LawfulPrefix(h: seq<Event>, timeout: real, k: nat)
    requires Lawful(h, timeout) && k <= |h|
    ensures Lawful(h[..k], timeout)
  {
    if k < |h| {
      LawfulPrefix(h[..|h| - 1], timeout, k);
      assert h[..|h| - 1][..k] == h[..k];
    } else {
      assert h[..k] == h;
    }
  }

  /** No new call starts while OPEN: in a lawful run, after a completion that leaves three trailing
      failures, every call arriving before another completion and within the timeout is refused. */
  lemma {:induction false} QuietWhileOpen(h: seq<Event>, timeout: real, k: nat, j: nat)
    requires Lawful(h, timeout) && k < j < |h|
    requires h[k].Finished? && h[k].failed && TrailingFailures(h[..k + 1]) >= FAILURE_LIMIT
    requires forall i :: k < i <= j ==> !h[i].Finished? && h[i].at - h[k].at <= timeout
    ensures h[j].Refused? && StatusOf(h[..j + 1]) == OPEN && LastFailure(h[..j + 1]) == h[k].at
  {
    LawfulPrefix(h, timeout, j + 1);
    var upto := h[..j + 1];
    assert upto[..|upto| - 1] == h[..j] && upto[|upto| - 1] == h[j];
    if j == k + 1 {
      var first := h[..k + 1];
      assert first[..|first| - 1] == h[..k] && first[|first| - 1] == h[k];
    } else {
      QuietWhileOpen(h, timeout, k, j - 1);
    }
  }

  // n calls, one after the other, that start and fail at time 0.
  function Failures(n: nat): seq<Event> {
    if n == 0 then [] else Failures(n - 1) + [Started(0.0)] + [Finished(0.0, true)]
  }

  // Then n calls that start once the timeout has passed.
  function Probes(timeout: real, n: nat): seq<Event> {
    if n == 0 then Failures(FAILURE_LIMIT) else Probes(timeout, n - 1) + [Started(timeout + 1.0)]
  }

  lemma Snoc(h: seq<Event>, e: Event, timeout: real)
    ensures Lawful(h + [e], timeout) <==>
      && Lawful(h, timeout) && (h == [] || h[|h| - 1].at <= e.at)
      && (e.Started? ==> !Blocks(h, timeout, e.at)) && (e.Refused? ==> Blocks(h, timeout, e.at))
      && (e.Finished? ==> Running(h) > 0)
    ensures TrailingFailures(h + [e]) ==
      if e.Finished? then if e.failed then TrailingFailures(h) + 1 else 0 else TrailingFailures(h)
    ensures StartedSince(h + [e]) <==> e.Started? || (e.Refused? && StartedSince(h))
    ensures LastFailure(h + [e]) == if e.Finished? && e.failed then e.at else LastFailure(h)
    ensures Running(h + [e]) == Running(h) + match e case Started(_) => 1 case Refused(_) => 0 case Finished(_, _) => -1
  {
    assert (h + [e])[..|h|] == h;
  }

  lemma {:induction false} FailuresAdd(timeout: real, n: nat)
    requires timeout > 0.0 && n <= FAILURE_LIMIT
    ensures
      var h := Failures(n);
      && Lawful(h, timeout) && TrailingFailures(h) == n && LastFailure(h) == 0.0 && Running(h) == 0
      && (h != [] ==> h[|h| - 1] == Finished(0.0, true))
  {
    if n > 0 {
      FailuresAdd(timeout, n - 1);
      var before := Failures(n - 1);
      assert StatusOf(before) == CLOSED;
      Snoc(before, Started(0.0), timeout);
      Snoc(before + [Started(0.0)], Finished(0.0, true), timeout);
    }
  }

  /** HALF_OPEN is no single probe: for any timeout and any number n > 0 there is a run in which n calls
      are outside the lock at once in HALF_OPEN. */
  lemma {:induction false} HalfOpenRunsAny(timeout: real, n: nat)
    requires timeout > 0.0
    ensures
      var h := Probes(timeout, n);
      && Lawful(h, timeout) && Running(h) == n && LastFailure(h) == 0.0
      && h != [] && h[|h| - 1].at <= timeout + 1.0
      && StatusOf(h) == if n > 0 then HALF_OPEN else OPEN
  {
    if n == 0 {
      FailuresAdd(timeout, FAILURE_LIMIT);
    } else {
      HalfOpenRunsAny(timeout, n - 1);
      Snoc(Probes(timeout, n - 1), Started(timeout + 1.0), timeout);
    }
  }

  /** And in every run: a call that arrives in HALF_OPEN is let through and leaves HALF_OPEN, with one
      more call running; a run that refuses it is not lawful. */
  lemma HalfOpenAdmitsAll(h: seq<Event>, timeout: real, now: real)
    requires Lawful(h, timeout) && StatusOf(h) == HALF_OPEN && h[|h| - 1].at <= now
    ensures Lawful(h + [Started(now)], timeout) && StatusOf(h + [Started(now)]) == HALF_OPEN
    ensures Running(h + [Started(now)]) == Running(h) + 1
    ensures !Lawful(h + [Refused(now)], timeout)
  {
    Snoc(h, Started(now), timeout);
    Snoc(h, Refused(now), timeout);
  }
}
