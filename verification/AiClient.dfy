/** The gates in front of a cloud call, AnalyzeAnomalyWithContext in go-agent/ai/ai_client.go: daily budget,
    then circuit breaker, then (inside the breaker's guarded function) the token bucket and the API key.

    One client serves several goroutines, and the breaker holds no lock while the guarded function runs.  So
    a guarded call is three steps, each under a lock of its own: `Begin` (the breaker lets it through),
    `Ask` (the token bucket and the key), `End` (the breaker hears the outcome).  Calls are named by a number,
    and those of other goroutines may come between any two steps. */
module AiClient {
  import opened IntMath
  import FixedWindow
  import CircuitBreaker
  import TokenBucket

  datatype Outcome =
    | BudgetRefused(why: FixedWindow.BudgetAnswer)
    | CircuitOpen | RateLimited | NoKey | RequestFailed | Answered

  // A guarded call between Begin and End: before Ask, refused by the bucket, without a key, or with an
  // exchange on its way.
  datatype Phase = Admitted | Refused | Keyless | Sent

  function OutcomeOf(p: Phase, exchangeOk: bool): Outcome {
    match p
    case Refused => RateLimited
    case Keyless => NoKey
    case _ => if exchangeOk then Answered else RequestFailed
  }

  // A guarded call fails unless it is answered.
  function Failures(done: seq<Outcome>): seq<bool> {
    seq(|done|, i requires 0 <= i < |done| => done[i] != Answered)
  }

  predicate Guarded(done: seq<Outcome>) {
    forall i :: 0 <= i < |done| ==> done[i] in {RateLimited, NoKey, RequestFailed, Answered}
  }

  // With a key and a healthy service: nothing but answers and refusals of the bucket.
  predicate Healthy(done: seq<Outcome>) { forall i :: 0 <= i < |done| ==> done[i] in {Answered, RateLimited} }

  // The answers of the bucket, from its own log, from finished calls, and from a call that is out alone.
  function Grants(log: seq<TokenBucket.Attempt>): seq<bool> {
    seq(|log|, i requires 0 <= i < |log| => log[i].ok)
  }

  function GrantsOf(done: seq<Outcome>): seq<bool> {
    seq(|done|, i requires 0 <= i < |done| => done[i] != RateLimited)
  }

  function GrantsOut(p: Phase): seq<bool> { if p == Admitted then [] else [p != Refused] }

  // No two calls are out; the bucket's answers are those of the finished calls, in order, and of the one out.
  ghost predicate OneByOne(log: seq<TokenBucket.Attempt>, out: map<nat, Phase>, done: seq<Outcome>) {
    if out == map[] then Grants(log) == GrantsOf(done)
    else exists id :: id in out && out.Keys == {id} && Grants(log) == GrantsOf(done) + GrantsOut(out[id])
  }

  // The three histories of the guarded calls agree.
  ghost predicate Agree(h: seq<CircuitBreaker.Event>, log: seq<TokenBucket.Attempt>, out: map<nat, Phase>,
                        done: seq<Outcome>, overlapped: bool)
  {
    && CircuitBreaker.Outcomes(h) == Failures(done) && Guarded(done)
    && CircuitBreaker.Running(h) == |out.Keys|
    && (!overlapped ==> OneByOne(log, out, done))
  }

  class AIClient {
    const budget: FixedWindow.Budget
    const cb: CircuitBreaker.CircuitBreaker
    const bucket: TokenBucket.TokenBucket
    var hasKey: bool
    ghost var requests: nat            // HTTP exchanges begun
    var out: map<nat, Phase>           // calls inside the guarded function, where each of them is
    ghost var done: seq<Outcome>       // of guarded calls, in the order of their completion
    ghost var overlapped: bool         // two guarded calls have been out at once

    ghost predicate Valid()
      reads this, budget, cb, bucket
    {
      && budget.Valid() && FixedWindow.ChargedAtCallSites(budget.counts, budget.costs)
      && GuardedValid()
    }

    ghost predicate GuardedValid()
      reads `out, `done, `overlapped, cb, bucket
    {
      cb.Valid() && bucket.Valid() && Agree(cb.history, bucket.log, out, done, overlapped)
    }

    // No gate has seen a later time than now.
    ghost predicate NotBefore(now: real)
      reads budget, cb, bucket
    {
      FixedWindow.LastTime(budget.start, budget.counts) <= now && cb.NotBefore(now) && bucket.lastRefill <= now
    }

    constructor (hasKey: bool, now: real)
      ensures Valid() && NotBefore(now) && fresh(budget) && fresh(cb) && fresh(bucket)
      ensures budget.counts == [] && bucket.log == [] && cb.history == []
      ensures requests == 0 && out == map[] && done == [] && !overlapped
      ensures this.hasKey == hasKey && !budget.airgapped
    {
      budget := new FixedWindow.Budget(now);
      cb := new CircuitBreaker.CircuitBreaker(300.0);
      bucket := new TokenBucket.TokenBucket(now);
      this.hasKey, requests, out, done, overlapped := hasKey, 0, map[], [], false;
    }

    method SetAPIKey(present: bool)
      requires Valid()
      modifies `hasKey
      ensures Valid() && hasKey == present
    {
      hasKey := present;
    }

    method SetAirgappedMode(enabled: bool)
      requires Valid()
      modifies budget`airgapped
      ensures Valid() && budget.airgapped == enabled
    {
      budget.airgapped := enabled;
    }

    // Calls granted in the day that a call at `now` falls into.
    ghost function UsedToday(now: real): real
      reads budget
    {
      FixedWindow.UsedAt(FixedWindow.COUNT_RULE, budget.start, budget.counts, now)
    }

    /** The first gate, at the estimate every call site passes: refuses in air-gapped mode and from the day's
        1001st call on, never for the cost. */
    method ChargeBudget(now: real) returns (answer: FixedWindow.BudgetAnswer)
      requires budget.Valid() && FixedWindow.ChargedAtCallSites(budget.counts, budget.costs)
      requires FixedWindow.LastTime(budget.start, budget.counts) <= now
      modifies budget
      ensures budget.Valid() && FixedWindow.ChargedAtCallSites(budget.counts, budget.costs)
      ensures FixedWindow.LastTime(budget.start, budget.counts) <= now && budget.airgapped == old(budget.airgapped)
      ensures answer == FixedWindow.Airgapped <==> old(budget.airgapped)
      ensures answer == FixedWindow.BudgetExceeded <==> !old(budget.airgapped) && old(UsedToday(now)) + 1.0 > 1000.0
      ensures answer != FixedWindow.CostExceeded
      ensures answer == FixedWindow.Allowed ==>
                |budget.counts| == |old(budget.counts)| + 1 && UsedToday(now) == old(UsedToday(now)) + 1.0
    {
      FixedWindow.CostLimitNeverDecides(budget.start, budget.counts, budget.costs);
      ghost var before := budget.counts;
      answer := budget.CheckBudgetBeforeCall(now, FixedWindow.CALL_SITE_COST);
      assert answer == FixedWindow.Allowed ==> budget.counts[..|before|] == before;
    }

    /** The breaker's first critical section, whatever calls are out. */
    method Begin(id: nat, now: real) returns (admitted: bool)
      requires GuardedValid() && id !in out && cb.NotBefore(now)
      modifies `out, `overlapped, cb
      ensures GuardedValid() && cb.NotBefore(now)
      ensures admitted <==> !CircuitBreaker.Blocks(old(cb.history), cb.openTimeout, now)
      ensures cb.history == old(cb.history) +
                [if admitted then CircuitBreaker.Started(now) else CircuitBreaker.Refused(now)]
      ensures out == if admitted then old(out)[id := Admitted] else old(out)
      ensures overlapped <==> old(overlapped) || (admitted && old(out) != map[])
    {
      ghost var before := cb.history;
      admitted := cb.Start(now);
      if admitted {
        BeginAgrees(before, bucket.log, out, done, overlapped, id, now);
        overlapped := overlapped || out != map[];
        out := out[id := Admitted];
      } else {
        RefusalAgrees(before, bucket.log, out, done, overlapped, now);
      }
    }

    /** The bucket and the key, under the client's own lock. */
    method Ask(id: nat, now: real) returns (phase: Phase)
      requires GuardedValid() && id in out && out[id] == Admitted && bucket.lastRefill <= now
      modifies `out, `requests, bucket
      ensures GuardedValid() && bucket.lastRefill == now
      ensures phase != Refused <==> TokenBucket.Fits(old(bucket.log), |old(bucket.log)|, now)
      ensures phase == if !TokenBucket.Fits(old(bucket.log), |old(bucket.log)|, now) then Refused
                       else if !hasKey then Keyless else Sent
      ensures bucket.log == old(bucket.log) + [TokenBucket.Attempt(now, phase != Refused)]
      ensures out == old(out)[id := phase] && requests == old(requests) + (if phase == Sent then 1 else 0)
    {
      ghost var before := bucket.log;
      var token := bucket.Allow(now);
      phase := if !token then Refused else if !hasKey then Keyless else Sent;
      if phase == Sent {
        requests := requests + 1;
      }
      AskAgrees(cb.history, before, out, done, overlapped, id, phase, now);
      out := out[id := phase];
    }

    /** The breaker's second critical section, in any order among the calls that are out. */
    method End(id: nat, end: real, exchangeOk: bool) returns (outcome: Outcome)
      requires GuardedValid() && id in out && out[id] != Admitted && cb.NotBefore(end)
      modifies `out, `done, cb
      ensures GuardedValid() && cb.NotBefore(end)
      ensures outcome == OutcomeOf(old(out)[id], exchangeOk)
      ensures cb.history == old(cb.history) + [CircuitBreaker.Finished(end, outcome != Answered)]
      ensures done == old(done) + [outcome] && out == old(out) - {id}
    {
      ghost var before := cb.history;
      outcome := OutcomeOf(out[id], exchangeOk);
      RunningWhileOut(out, id);
      cb.Finish(end, outcome != Answered);
      EndAgrees(before, bucket.log, out, done, overlapped, id, end, exchangeOk);
      out, done := out - {id}, done + [outcome];
    }

    // The rest of a guarded call that is not interrupted.
    method Execute(id: nat, now: real, end: real, exchangeOk: bool) returns (outcome: Outcome)
      requires GuardedValid() && id in out && out[id] == Admitted
      requires cb.NotBefore(end) && bucket.lastRefill <= now <= end
      modifies `requests, `out, `done, cb, bucket
      ensures GuardedValid() && cb.NotBefore(end) && bucket.lastRefill <= end
      ensures out == old(out) - {id} && GoneThrough(outcome, now, exchangeOk)
      ensures cb.history == old(cb.history) + [CircuitBreaker.Finished(end, outcome != Answered)]
    {
      var phase := Ask(id, now);
      outcome := End(id, end, exchangeOk);
      PutAndTaken(old(out), id, phase);
    }

    /** A guarded call that no step of another goroutine interrupts; others may be out meanwhile. */
    method CallThroughBreaker(id: nat, now: real, end: real, exchangeOk: bool) returns (outcome: Outcome)
      requires GuardedValid() && id !in out && cb.NotBefore(now) && bucket.lastRefill <= now <= end
      modifies `requests, `out, `done, `overlapped, cb, bucket
      ensures GuardedValid() && cb.NotBefore(end) && bucket.lastRefill <= end
      ensures out == old(out)
      ensures outcome == CircuitOpen <==> CircuitBreaker.Blocks(old(cb.history), cb.openTimeout, now)
      ensures overlapped <==> old(overlapped) || (outcome != CircuitOpen && old(out) != map[])
      ensures outcome == CircuitOpen ==>
                bucket.log == old(bucket.log) && requests == old(requests) && done == old(done)
      ensures outcome != CircuitOpen ==>
                && cb.history == old(cb.history) +
                     [CircuitBreaker.Started(now), CircuitBreaker.Finished(end, outcome != Answered)]
                && GoneThrough(outcome, now, exchangeOk)
    {
      PutAndTaken(out, id, Admitted);
      var admitted := Begin(id, now);
      if !admitted {
        return CircuitOpen;
      }
      outcome := Execute(id, now, end, exchangeOk);
      OneAfterTheOther(old(cb.history), CircuitBreaker.Started(now), CircuitBreaker.Finished(end, outcome != Answered));
    }

    // What a call that the breaker let through has done.
    twostate predicate GoneThrough(outcome: Outcome, now: real, exchangeOk: bool)
      reads this, bucket
    {
      && bucket.log == old(bucket.log) + [TokenBucket.Attempt(now, outcome != RateLimited)]
      && done == old(done) + [outcome]
      && requests == old(requests) + (if outcome in {RequestFailed, Answered} then 1 else 0)
      && outcome == if !TokenBucket.Fits(old(bucket.log), |old(bucket.log)|, now) then RateLimited
                    else if !hasKey then NoKey else if exchangeOk then Answered else RequestFailed
    }

    /** The gates in their order.  A request goes out only through all of them; a call that breaker or bucket
        refuses has been charged. */
    method Analyze(id: nat, now: real, end: real, exchangeOk: bool) returns (outcome: Outcome)
      requires Valid() && id !in out && NotBefore(now) && now <= end
      modifies this, budget, cb, bucket
      ensures Valid() && NotBefore(end) && out == old(out)
      ensures hasKey == old(hasKey) && budget.airgapped == old(budget.airgapped)
      ensures outcome.BudgetRefused? <==> old(budget.airgapped) || old(UsedToday(now)) + 1.0 > 1000.0
      ensures outcome.BudgetRefused? ==>
                outcome.why == if old(budget.airgapped) then FixedWindow.Airgapped else FixedWindow.BudgetExceeded
      ensures outcome.BudgetRefused? ==> unchanged(cb) && unchanged(bucket) && unchanged(this)
      ensures !outcome.BudgetRefused? ==>
                |budget.counts| == |old(budget.counts)| + 1 && UsedToday(now) == old(UsedToday(now)) + 1.0
      ensures outcome == CircuitOpen <==>
                !outcome.BudgetRefused? && CircuitBreaker.Blocks(old(cb.history), cb.openTimeout, now)
      ensures outcome == CircuitOpen ==>
                bucket.log == old(bucket.log) && requests == old(requests) && done == old(done)
      ensures overlapped <==> old(overlapped) || (!outcome.BudgetRefused? && outcome != CircuitOpen && old(out) != map[])
      ensures !outcome.BudgetRefused? && outcome != CircuitOpen ==>
                && cb.history == old(cb.history) +
                     [CircuitBreaker.Started(now), CircuitBreaker.Finished(end, outcome != Answered)]
                && GoneThrough(outcome, now, exchangeOk)
    {
      var answer := ChargeBudget(now);
      if answer != FixedWindow.Allowed {
        return BudgetRefused(answer);
      }
      outcome := CallThroughBreaker(id, now, end, exchangeOk);
    }

    /** In every run of the client, however its calls overlap, the breaker is not CLOSED if and only if the
        last three guarded calls to complete all went without an answer. */
    lemma BreakerFollowsCompletions()
      requires Valid()
      ensures
        var n := |done|;
        cb.state != CircuitBreaker.CLOSED <==>
        n >= 3 && done[n - 1] != Answered && done[n - 2] != Answered && done[n - 3] != Answered
    {
      CircuitBreaker.ClosedUnlessThreeFailed(cb.history);
    }

    /** With a key and a healthy service (no guarded call failed but for the rate limit), if and only if the
        last three to complete are refusals of the bucket. */
    lemma RateLimitingAloneOpensTheBreaker()
      requires Valid() && Healthy(done)
      ensures
        var n := |done|;
        cb.state != CircuitBreaker.CLOSED <==>
        n >= 3 && done[n - 1] == RateLimited && done[n - 2] == RateLimited && done[n - 3] == RateLimited
    {
      BreakerFollowsCompletions();
    }

    /** As long as no two guarded calls have been out at once, and none is, the attempts at the bucket complete
        in their order, and the last three attempts decide. */
    lemma AttemptsDecideWithoutOverlap()
      requires Valid() && Healthy(done) && !overlapped && out == map[]
      ensures
        var n := |bucket.log|;
        cb.state != CircuitBreaker.CLOSED <==>
        n >= 3 && !bucket.log[n - 1].ok && !bucket.log[n - 2].ok && !bucket.log[n - 3].ok
    {
      RateLimitingAloneOpensTheBreaker();
      assert |Grants(bucket.log)| == |GrantsOf(done)|;
      forall i | 0 <= i < |done|
        ensures done[i] == RateLimited <==> !bucket.log[i].ok
      {
        assert Grants(bucket.log)[i] == GrantsOf(done)[i];
      }
    }
  }

  // ---------------------------------------------------------------------------------------------
  // Each step keeps the histories in agreement.

  lemma PutAndTaken(out: map<nat, Phase>, id: nat, p: Phase)
    ensures out[id := p] - {id} == out - {id}
    ensures id !in out ==> out[id := p] - {id} == out
  {}

  lemma OneAfterTheOther<T>(h: seq<T>, a: T, b: T)
    ensures h + [a] + [b] == h + [a, b]
  {}

  lemma OutcomesSnoc(h: seq<CircuitBreaker.Event>, e: CircuitBreaker.Event)
    ensures CircuitBreaker.Outcomes(h + [e]) == CircuitBreaker.Outcomes(h) + (if e.Finished? then [e.failed] else [])
    ensures CircuitBreaker.Running(h + [e]) ==
            CircuitBreaker.Running(h) + (if e.Started? then 1 else if e.Finished? then -1 else 0)
  {
    assert (h + [e])[..|h|] == h;
  }

  lemma BeginAgrees(h: seq<CircuitBreaker.Event>, log: seq<TokenBucket.Attempt>, out: map<nat, Phase>,
                    done: seq<Outcome>, overlapped: bool, id: nat, now: real)
    requires Agree(h, log, out, done, overlapped) && id !in out
    ensures Agree(h + [CircuitBreaker.Started(now)], log, out[id := Admitted], done, overlapped || out != map[])
  {
    OutcomesSnoc(h, CircuitBreaker.Started(now));
    var next := out[id := Admitted];
    assert next.Keys == out.Keys + {id};
    if out == map[] && !overlapped {
      assert id in next && next.Keys == {id} && GrantsOf(done) + GrantsOut(next[id]) == GrantsOf(done);
    }
  }

  lemma RefusalAgrees(h: seq<CircuitBreaker.Event>, log: seq<TokenBucket.Attempt>, out: map<nat, Phase>,
                      done: seq<Outcome>, overlapped: bool, now: real)
    requires Agree(h, log, out, done, overlapped)
    ensures Agree(h + [CircuitBreaker.Refused(now)], log, out, done, overlapped)
  {
    OutcomesSnoc(h, CircuitBreaker.Refused(now));
  }

  lemma AskAgrees(h: seq<CircuitBreaker.Event>, log: seq<TokenBucket.Attempt>, out: map<nat, Phase>,
                  done: seq<Outcome>, overlapped: bool, id: nat, phase: Phase, now: real)
    requires Agree(h, log, out, done, overlapped) && id in out && out[id] == Admitted && phase != Admitted
    ensures Agree(h, log + [TokenBucket.Attempt(now, phase != Refused)], out[id := phase], done, overlapped)
  {
    var next, log' := out[id := phase], log + [TokenBucket.Attempt(now, phase != Refused)];
    assert next.Keys == out.Keys && id in next;
    if !overlapped {
      assert Grants(log') == Grants(log) + [phase != Refused];
      assert out.Keys == {id} && Grants(log) == GrantsOf(done) + [];
      assert Grants(log') == GrantsOf(done) + GrantsOut(next[id]);
    }
  }

  lemma RunningWhileOut(out: map<nat, Phase>, id: nat)
    requires id in out
    ensures |out.Keys| > 0 && |(out - {id}).Keys| == |out.Keys| - 1
  {
    assert (out - {id}).Keys == out.Keys - {id};
  }

  lemma EndAgrees(h: seq<CircuitBreaker.Event>, log: seq<TokenBucket.Attempt>, out: map<nat, Phase>,
                  done: seq<Outcome>, overlapped: bool, id: nat, end: real, exchangeOk: bool)
    requires Agree(h, log, out, done, overlapped) && id in out && out[id] != Admitted
    ensures
      var outcome := OutcomeOf(out[id], exchangeOk);
      Agree(h + [CircuitBreaker.Finished(end, outcome != Answered)], log, out - {id}, done + [outcome], overlapped)
  {
    var outcome := OutcomeOf(out[id], exchangeOk);
    OutcomesSnoc(h, CircuitBreaker.Finished(end, outcome != Answered));
    RunningWhileOut(out, id);
    assert Failures(done + [outcome]) == Failures(done) + [outcome != Answered];
    if !overlapped {
      assert out.Keys == {id} && out - {id} == map[];
      assert GrantsOf(done + [outcome]) == GrantsOf(done) + [outcome != RateLimited];
    }
  }

  // ---------------------------------------------------------------------------------------------
  // A healthy service behind an OPEN breaker.

  // n attempts at one instant, the first five of them admitted.
  function Burst(n: nat, now: real): seq<TokenBucket.Attempt> {
    seq(n, i => TokenBucket.Attempt(now, i < 5))
  }

  lemma {:induction false} BurstAdmits(n: nat, now: real, i: nat, j: nat)
    requires i <= j <= n
    ensures TokenBucket.Admitted(Burst(n, now), i, j) == (if j <= 5 then j - i else if i <= 5 then 5 - i else 0)
  {
    if i < j {
      BurstAdmits(n, now, i, j - 1);
    }
  }

  // A token comes back every six seconds.
  lemma BurstFits(n: nat, now: real, later: real)
    requires now <= later
    ensures TokenBucket.Fits(Burst(n, now), n, later) <==> n < 5 || later >= now + 6.0
  {
    forall i | 0 <= i < n
      ensures TokenBucket.Room(Burst(n, now), i, n, later) ==
              5.0 + (later - now) / 6.0 - (if n <= 5 then n - i else if i <= 5 then 5 - i else 0) as real
    {
      BurstAdmits(n, now, i, n);
    }
    if n >= 5 {
      assert TokenBucket.Room(Burst(n, now), 0, n, later) == (later - now) / 6.0;
    }
  }

  // After n uninterrupted calls at one instant on a new client, every exchange answered.
  ghost predicate InBurst(c: AIClient, n: nat, now: real)
    reads c, c.budget, c.cb, c.bucket
  {
    && c.Valid() && c.NotBefore(now) && c.hasKey && !c.budget.airgapped && c.out == map[] && !c.overlapped
    && c.bucket.log == Burst(n, now) && c.done == BurstOutcomes(n)
    && c.requests == Min(n, 5) && c.UsedToday(now) == n as real
    && (n > 0 ==> CompletedLast(c.cb.history))
  }

  predicate CompletedLast(h: seq<CircuitBreaker.Event>) { h != [] && h[|h| - 1].Finished? }

  function BurstOutcomes(n: nat): seq<Outcome> {
    seq(n, i => if i < 5 then Answered else RateLimited)
  }

  method BurstCall(c: AIClient, n: nat, now: real)
    requires n < 8 && InBurst(c, n, now)
    modifies c, c.budget, c.cb, c.bucket
    ensures InBurst(c, n + 1, now)
  {
    BurstFits(n, now, now);
    BurstSnoc(n, now);
    c.BreakerFollowsCompletions();
    assert c.cb.state == CircuitBreaker.CLOSED;
    var outcome := c.Analyze(n, now, now, true);
    assert outcome == if n < 5 then Answered else RateLimited;
  }

  lemma BurstSnoc(n: nat, now: real)
    ensures Burst(n + 1, now) == Burst(n, now) + [TokenBucket.Attempt(now, n < 5)]
    ensures BurstOutcomes(n + 1) == BurstOutcomes(n) + [if n < 5 then Answered else RateLimited]
  {}

  method BurstOf(n: nat, now: real) returns (c: AIClient)
    requires n <= 8
    ensures InBurst(c, n, now) && fresh(c) && fresh(c.cb) && fresh(c.bucket) && fresh(c.budget)
  {
    c := new AIClient(true, now);
    for k := 0 to n
      invariant InBurst(c, k, now)
      invariant fresh(c) && fresh(c.cb) && fresh(c.bucket) && fresh(c.budget)
    {
      BurstCall(c, k, now);
    }
  }

  /** The service answers every request it gets, the key is there, and still eight calls in a burst leave the
      breaker OPEN: five are answered and the bucket refuses three. */
  method BurstOpensTheBreaker(now: real) returns (c: AIClient)
    ensures c.Valid() && c.hasKey && c.requests == 5 && c.bucket.log == Burst(8, now)
    ensures c.cb.state == CircuitBreaker.OPEN
  {
    c := BurstOf(8, now);
    c.BreakerFollowsCompletions();
  }

  // ---------------------------------------------------------------------------------------------
  // Calls that overlap: completions decide, and they need not come in the order of the attempts.

  // The fifth call of a burst has taken the last token and is still out; n more have been refused.
  ghost predicate OneOut(c: AIClient, n: nat, now: real)
    reads c, c.budget, c.cb, c.bucket
  {
    && c.Valid() && c.NotBefore(now) && c.hasKey && !c.budget.airgapped
    && c.out == map[4 := Sent] && c.bucket.log == Burst(5 + n, now) && c.done == FourThenRefused(n)
    && c.UsedToday(now) == (5 + n) as real
  }

  function FourThenRefused(n: nat): seq<Outcome> {
    seq(4 + n, i => if i < 4 then Answered else RateLimited)
  }

  method FifthGoesOut(c: AIClient, now: real)
    requires InBurst(c, 4, now)
    modifies c, c.budget, c.cb, c.bucket
    ensures OneOut(c, 0, now)
  {
    BurstFits(4, now, now);
    BurstSnoc(4, now);
    c.BreakerFollowsCompletions();
    assert c.cb.state == CircuitBreaker.CLOSED;
    var answer := c.ChargeBudget(now);
    assert answer == FixedWindow.Allowed;
    var admitted := c.Begin(4, now);
    assert admitted;
    var phase := c.Ask(4, now);
    assert c.out == map[4 := Sent];
    assert FourThenRefused(0) == BurstOutcomes(4);
  }

  method RefusedMeanwhile(c: AIClient, n: nat, now: real)
    requires n < 3 && OneOut(c, n, now)
    modifies c, c.budget, c.cb, c.bucket
    ensures OneOut(c, n + 1, now)
  {
    BurstFits(5 + n, now, now);
    BurstSnoc(5 + n, now);
    c.BreakerFollowsCompletions();
    assert c.cb.state == CircuitBreaker.CLOSED;
    var outcome := c.Analyze(5 + n, now, now, true);
    assert outcome == RateLimited;
    assert FourThenRefused(n + 1) == FourThenRefused(n) + [RateLimited];
  }

  // The breaker is not CLOSED until the fifth call is answered.
  method LateAnswer(c: AIClient, now: real)
    requires OneOut(c, 3, now)
    modifies c, c.cb
    ensures old(c.cb.state) != CircuitBreaker.CLOSED && c.cb.state == CircuitBreaker.CLOSED
    ensures c.Valid() && c.hasKey && c.bucket.log == Burst(8, now) && c.out == map[]
    ensures c.done == FourThenRefused(3) + [Answered] && Healthy(c.done)
  {
    c.BreakerFollowsCompletions();
    var outcome := c.End(4, now, true);
    c.BreakerFollowsCompletions();
  }

  method RefuseThree(c: AIClient, now: real)
    requires OneOut(c, 0, now)
    modifies c, c.budget, c.cb, c.bucket
    ensures OneOut(c, 3, now)
  {
    for n := 0 to 3
      invariant OneOut(c, n, now)
    {
      RefusedMeanwhile(c, n, now);
    }
  }

  /** The last three attempts at the bucket are refusals, and the breaker is CLOSED: a call that took its token
      before them is answered after them. */
  method OverlapCloses(now: real) returns (c: AIClient)
    ensures c.Valid() && c.hasKey && Healthy(c.done) && c.out == map[]
    ensures c.bucket.log == Burst(8, now) && c.cb.state == CircuitBreaker.CLOSED
  {
    c := BurstOf(4, now);
    FifthGoesOut(c, now);
    RefuseThree(c, now);
    LateAnswer(c, now);
  }

  // Two refusals have completed, and two more calls are let through.
  method TwoMoreBegin(c: AIClient, now: real)
    requires InBurst(c, 7, now)
    modifies c, c.cb
    ensures c.Valid() && c.NotBefore(now) && c.hasKey && c.out == map[7 := Admitted, 8 := Admitted]
    ensures c.bucket.log == Burst(7, now) && c.done == BurstOutcomes(7)
  {
    c.BreakerFollowsCompletions();
    var third := c.Begin(7, now);
    c.BreakerFollowsCompletions();
    var last := c.Begin(8, now);
  }

  // One is refused at once, the other gets a token six seconds later.
  method BothAsk(c: AIClient, now: real)
    requires c.Valid() && c.NotBefore(now) && c.hasKey && c.out == map[7 := Admitted, 8 := Admitted]
    requires c.bucket.log == Burst(7, now) && c.done == BurstOutcomes(7)
    modifies c, c.bucket
    ensures c.Valid() && c.cb.NotBefore(now) && c.hasKey && c.out == map[7 := Refused, 8 := Sent]
    ensures c.bucket.log == Burst(8, now) + [TokenBucket.Attempt(now + 6.0, true)] && c.done == BurstOutcomes(7)
  {
    BurstFits(7, now, now);
    BurstSnoc(7, now);
    BurstFits(8, now, now + 6.0);
    var refused := c.Ask(7, now);
    var granted := c.Ask(8, now + 6.0);
  }

  /** And the last attempt may have been granted while the breaker is not CLOSED: the third refusal completes
      after a later call has taken a new token. */
  method OverlapOpens(now: real) returns (c: AIClient)
    ensures c.Valid() && c.hasKey && Healthy(c.done)
    ensures c.bucket.log == Burst(8, now) + [TokenBucket.Attempt(now + 6.0, true)]
    ensures c.cb.state != CircuitBreaker.CLOSED
  {
    c := BurstOf(7, now);
    TwoMoreBegin(c, now);
    BothAsk(c, now);
    ThirdRefusalEnds(c, now);
  }

  method ThirdRefusalEnds(c: AIClient, now: real)
    requires c.Valid() && c.cb.NotBefore(now) && c.out == map[7 := Refused, 8 := Sent] && c.done == BurstOutcomes(7)
    modifies c, c.cb
    ensures c.Valid() && c.hasKey == old(c.hasKey) && c.done == BurstOutcomes(8) && Healthy(c.done)
    ensures c.cb.state != CircuitBreaker.CLOSED
  {
    BurstSnoc(7, now);
    var outcome := c.End(7, now, true);
    c.BreakerFollowsCompletions();
  }
}
