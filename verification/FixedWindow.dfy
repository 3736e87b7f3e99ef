/** Fixed-window limiters: one law for all of them, then the daily API budget
    (go-agent/ai/ai_client.go), the per-address HTTP limits (go-agent/cmd/main.go) and the log-line
    limit (go-agent/parser/parser.go).  Times are seconds on one nondecreasing clock. */
module FixedWindow {

  // A window restarts after `period`, or only strictly after it; `limit` bounds what it may grant.
  datatype Rule = Rule(period: real, strict: bool, limit: real)

  // One call: whether it restarted the window, and how much it was granted (0 when refused).
  datatype Grant = Grant(at: real, reset: bool, amount: real)

  predicate Elapsed(rule: Rule, seconds: real) {
    if rule.strict then seconds > rule.period else seconds >= rule.period
  }

  function LastReset(start: real, log: seq<Grant>): real {
    if log == [] then start
    else
      var last := log[|log| - 1];
      if last.reset then last.at else LastReset(start, log[..|log| - 1])
  }

  // Granted since the last restart.
  function Used(log: seq<Grant>): real {
    if log == [] then 0.0
    else
      var last := log[|log| - 1];
      (if last.reset then 0.0 else Used(log[..|log| - 1])) + last.amount
  }

  // What is already used when a call arrives at `now`.
  function UsedAt(rule: Rule, start: real, log: seq<Grant>, now: real): real {
    if Elapsed(rule, now - LastReset(start, log)) then 0.0 else Used(log)
  }

  // A possible history of a limiter with this rule, created at `start`.
  predicate Lawful(rule: Rule, start: real, log: seq<Grant>) {
    log == [] ||
    (var before, last := log[..|log| - 1], log[|log| - 1];
     && Lawful(rule, start, before)
     && LastTime(start, before) <= last.at
     && (last.reset <==> Elapsed(rule, last.at - LastReset(start, before)))
     && Used(log) <= rule.limit)
  }

  // No grant is negative.
  predicate Charges(log: seq<Grant>) {
    forall k :: 0 <= k < |log| ==> log[k].amount >= 0.0
  }

  function LastTime(start: real, log: seq<Grant>): real {
    if log == [] then start else log[|log| - 1].at
  }

  // Granted by calls i, ..., j - 1.
  function Granted(log: seq<Grant>, i: nat, j: nat): real
    requires j <= |log|
  {
    if j <= i then 0.0 else Granted(log, i, j - 1) + log[j - 1].amount
  }

  lemma Snoc(rule: Rule, start: real, log: seq<Grant>, g: Grant)
    requires Lawful(rule, start, log) && LastTime(start, log) <= g.at
    requires g.reset <==> Elapsed(rule, g.at - LastReset(start, log))
    requires UsedAt(rule, start, log, g.at) + g.amount <= rule.limit
    ensures Lawful(rule, start, log + [g])
    ensures Used(log + [g]) == UsedAt(rule, start, log, g.at) + g.amount
    ensures LastReset(start, log + [g]) == if g.reset then g.at else LastReset(start, log)
  {
    assert (log + [g])[..|log|] == log;
  }

  lemma {:induction false} LawfulPrefix(rule: Rule, start: real, log: seq<Grant>, k: nat)
    requires Lawful(rule, start, log) && k <= |log|
    ensures Lawful(rule, start, log[..k])
  {
    if k < |log| {
      LawfulPrefix(rule, start, log[..|log| - 1], k);
      assert log[..|log| - 1][..k] == log[..k];
    } else {
      assert log[..k] == log;
    }
  }

  // Facts about call k of a lawful history, read off the prefix that ends with it.
  lemma At(rule: Rule, start: real, log: seq<Grant>, k: nat)
    requires Lawful(rule, start, log) && k < |log|
    ensures LastTime(start, log[..k]) <= log[k].at
    ensures log[k].reset <==> Elapsed(rule, log[k].at - LastReset(start, log[..k]))
    ensures Used(log[..k + 1]) <= rule.limit
    ensures Used(log[..k + 1]) == (if log[k].reset then 0.0 else Used(log[..k])) + log[k].amount
  {
    LawfulPrefix(rule, start, log, k + 1);
    assert log[..k + 1][..k] == log[..k];
  }

  lemma {:induction false} TimesOrdered(rule: Rule, start: real, log: seq<Grant>, i: nat, j: nat)
    requires Lawful(rule, start, log) && i <= j < |log|
    ensures log[i].at <= log[j].at
  {
    if i < j {
      TimesOrdered(rule, start, log, i, j - 1);
      At(rule, start, log, j);
    }
  }

  lemma {:induction false} UsedNonnegative(rule: Rule, start: real, log: seq<Grant>, k: nat)
    requires Lawful(rule, start, log) && Charges(log) && k <= |log|
    ensures Used(log[..k]) >= 0.0
  {
    if k > 0 {
      UsedNonnegative(rule, start, log, k - 1);
      At(rule, start, log, k - 1);
    }
  }

  /** Within one period the grants never exceed the limit. */
  lemma {:induction false} PeriodBound(rule: Rule, start: real, log: seq<Grant>, i: nat, j: nat)
    requires Lawful(rule, start, log) && Charges(log) && i <= j < |log|
    requires forall k :: i < k <= j ==> !log[k].reset
    ensures Granted(log, i, j + 1) <= Used(log[..j + 1]) <= rule.limit
  {
    At(rule, start, log, j);
    if i < j {
      PeriodBound(rule, start, log, i, j - 1);
    } else {
      UsedNonnegative(rule, start, log, i);
      assert Granted(log, i, i) == 0.0;
    }
  }

  lemma {:induction false} ResetRemembered(rule: Rule, start: real, log: seq<Grant>, k: nat, n: nat)
    requires Lawful(rule, start, log) && k < n <= |log| && log[k].reset
    ensures LastReset(start, log[..n]) >= log[k].at
  {
    assert log[..n][..n - 1] == log[..n - 1];
    if k < n - 1 {
      ResetRemembered(rule, start, log, k, n - 1);
      TimesOrdered(rule, start, log, k, n - 1);
    }
  }

  // Two restarts are at least a period apart.
  lemma ResetsApart(rule: Rule, start: real, log: seq<Grant>, k: nat, l: nat)
    requires Lawful(rule, start, log) && k < l < |log| && log[k].reset && log[l].reset
    ensures Elapsed(rule, log[l].at - log[k].at)
  {
    At(rule, start, log, l);
    ResetRemembered(rule, start, log, k, l);
  }

  lemma {:induction false} GrantedSplit(log: seq<Grant>, i: nat, k: nat, j: nat)
    requires i <= k <= j <= |log|
    ensures Granted(log, i, j) == Granted(log, i, k) + Granted(log, k, j)
  {
    if k < j {
      GrantedSplit(log, i, k, j - 1);
    }
  }

  lemma AroundReset(rule: Rule, start: real, log: seq<Grant>, i: nat, k: nat, j: nat)
    requires Lawful(rule, start, log) && Charges(log) && i < k <= j < |log|
    requires forall l :: i < l <= j && l != k ==> !log[l].reset
    ensures Granted(log, i, j + 1) <= rule.limit + rule.limit
  {
    PeriodBound(rule, start, log, i, k - 1);
    PeriodBound(rule, start, log, k, j);
    GrantedSplit(log, i, k, j + 1);
  }

  /** Any sliding window in which no full period elapses is granted at most twice the limit. */
  lemma SlidingBound(rule: Rule, start: real, log: seq<Grant>, i: nat, j: nat)
    requires Lawful(rule, start, log) && Charges(log) && i <= j < |log|
    requires !Elapsed(rule, log[j].at - log[i].at)
    ensures Granted(log, i, j + 1) <= rule.limit + rule.limit
  {
    if k :| i < k <= j && log[k].reset {
      forall l | i < l <= j && l != k
        ensures !log[l].reset
      {
        OnlyOneReset(rule, start, log, i, j, k, l);
      }
      AroundReset(rule, start, log, i, k, j);
    } else {
      PeriodBound(rule, start, log, i, j);
      UsedNonnegative(rule, start, log, j + 1);
    }
  }

  lemma OnlyOneReset(rule: Rule, start: real, log: seq<Grant>, i: nat, j: nat, k: nat, l: nat)
    requires Lawful(rule, start, log) && i < k <= j < |log| && i < l <= j && k != l
    requires !Elapsed(rule, log[j].at - log[i].at) && log[k].reset
    ensures !log[l].reset
  {
    TimesOrdered(rule, start, log, i, k);
    TimesOrdered(rule, start, log, i, l);
    TimesOrdered(rule, start, log, k, j);
    TimesOrdered(rule, start, log, l, j);
    if log[l].reset {
      if k < l { ResetsApart(rule, start, log, k, l); } else { ResetsApart(rule, start, log, l, k); }
    }
  }

  /** Twice the limit is attained: the bound of SlidingBound is the best possible. */
  lemma TwiceAttained(rule: Rule) returns (log: seq<Grant>)
    requires rule.period > 0.0 && rule.limit >= 0.0
    ensures Lawful(rule, 0.0, log) && |log| == 2
    ensures !Elapsed(rule, log[1].at - log[0].at) && Granted(log, 0, 2) == rule.limit + rule.limit
  {
    var first := Grant(rule.period / 2.0, false, rule.limit);
    var second := Grant(rule.period * 5.0 / 4.0, true, rule.limit);
    Snoc(rule, 0.0, [], first);
    assert [] + [first] == [first];
    Snoc(rule, 0.0, [first], second);
    log := [first, second];
    assert [first] + [second] == log;
    assert Granted(log, 0, 1) == rule.limit;
  }

  // ---------------------------------------------------------------------------------------------
  // The daily API budget.

  const DAILY_LIMIT: int := 1000
  const COST_LIMIT: real := 3.0
  const DAY: real := 86400.0

  const COUNT_RULE: Rule := Rule(86400.0, false, 1000.0)
  const COST_RULE: Rule := Rule(86400.0, false, 3.0)

  // One entry in each for every call.
  predicate Paired(counts: seq<Grant>, costs: seq<Grant>) {
    |counts| == |costs| && forall k :: 0 <= k < |counts| ==> costs[k] == counts[k].(amount := costs[k].amount)
  }

  // The two counters and the start of the day are what two lawful histories say.
  predicate Accounts(start: real, counts: seq<Grant>, costs: seq<Grant>, count: int, cost: real, lastReset: real) {
    && Lawful(COUNT_RULE, start, counts) && count as real == Used(counts)
    && Lawful(COST_RULE, start, costs) && cost == Used(costs)
    && lastReset == LastReset(start, counts) == LastReset(start, costs)
    && Paired(counts, costs) && Charges(counts)
  }

  // One more call under one rule: granted or refused, it stays within the limit.
  lemma Charge(rule: Rule, start: real, log: seq<Grant>, now: real, amount: real)
    requires rule.period > 0.0 && rule.limit >= 0.0
    requires Lawful(rule, start, log) && LastTime(start, log) <= now
    requires amount == 0.0 || UsedAt(rule, start, log, now) + amount <= rule.limit
    ensures
      var reset := Elapsed(rule, now - LastReset(start, log));
      var log' := log + [Grant(now, reset, amount)];
      && Lawful(rule, start, log') && Used(log') == UsedAt(rule, start, log, now) + amount
      && LastReset(start, log') == if reset then now else LastReset(start, log)
  {
    UsedWithinLimit(rule, start, log);
    Snoc(rule, start, log, Grant(now, Elapsed(rule, now - LastReset(start, log)), amount));
  }

  lemma Account(start: real, counts: seq<Grant>, costs: seq<Grant>, count: int, cost: real, lastReset: real,
                now: real, ok: bool, charge: real)
    requires Accounts(start, counts, costs, count, cost, lastReset) && LastTime(start, counts) <= now
    requires
      var reset := now - lastReset >= DAY;
      ok ==> (if reset then 0 else count) + 1 <= DAILY_LIMIT && (if reset then 0.0 else cost) + charge <= COST_LIMIT
    ensures
      var reset := now - lastReset >= DAY;
      Accounts(start, counts + [Grant(now, reset, if ok then 1.0 else 0.0)], costs + [Grant(now, reset, if ok then charge else 0.0)],
               (if reset then 0 else count) + (if ok then 1 else 0), (if reset then 0.0 else cost) + (if ok then charge else 0.0),
               if reset then now else lastReset)
  {
    SameLastTime(start, counts, costs);
    Charge(COUNT_RULE, start, counts, now, if ok then 1.0 else 0.0);
    Charge(COST_RULE, start, costs, now, if ok then charge else 0.0);
  }

  lemma SameLastTime(start: real, counts: seq<Grant>, costs: seq<Grant>)
    requires Paired(counts, costs)
    ensures LastTime(start, counts) == LastTime(start, costs)
  {}

  // What the counters say is used when a call arrives.
  lemma CountersSay(start: real, counts: seq<Grant>, costs: seq<Grant>, count: int, cost: real, lastReset: real, now: real)
    requires Accounts(start, counts, costs, count, cost, lastReset)
    ensures
      var reset := now - lastReset >= DAY;
      && Elapsed(COUNT_RULE, now - lastReset) == reset
      && UsedAt(COUNT_RULE, start, counts, now) == (if reset then 0.0 else count as real)
      && UsedAt(COST_RULE, start, costs, now) == (if reset then 0.0 else cost)
  {}

  datatype BudgetAnswer = Allowed | Airgapped | BudgetExceeded | CostExceeded

  class Budget {
    var airgapped: bool
    var currentCount: int
    var currentCost: real
    var lastResetTime: real
    ghost const start: real
    ghost var counts: seq<Grant>
    ghost var costs: seq<Grant>

    ghost predicate Valid()
      reads this
    {
      Accounts(start, counts, costs, currentCount, currentCost, lastResetTime)
    }

    constructor (now: real)
      ensures Valid() && start == now && counts == [] && costs == [] && !airgapped
    {
      airgapped, currentCount, currentCost, lastResetTime := false, 0, 0.0, now;
      start, counts, costs := now, [], [];
    }

    // The counters alone.
    method Count(now: real, estimatedCost: real) returns (answer: BudgetAnswer)
      modifies `currentCount, `currentCost, `lastResetTime
      ensures
        var reset := now - old(lastResetTime) >= DAY;
        var count, cost := if reset then 0 else old(currentCount), if reset then 0.0 else old(currentCost);
        && answer == (if count >= 1000 then BudgetExceeded else if cost + estimatedCost > 3.0 then CostExceeded else Allowed)
        && currentCount == count + (if answer == Allowed then 1 else 0)
        && currentCost == cost + (if answer == Allowed then estimatedCost else 0.0)
        && lastResetTime == if reset then now else old(lastResetTime)
    {
      if now - lastResetTime >= DAY {
        currentCount, currentCost, lastResetTime := 0, 0.0, now;
      }
      if DAILY_LIMIT > 0 && currentCount >= DAILY_LIMIT {
        return BudgetExceeded;
      }
      if COST_LIMIT > 0.0 && currentCost + estimatedCost > COST_LIMIT {
        return CostExceeded;
      }
      currentCount := currentCount + 1;
      currentCost := currentCost + estimatedCost;
      return Allowed;
    }

    /** Grants one call and its estimated cost if and only if both still fit in the current day; a
        refused call may still roll the day over, except in air-gapped mode, which touches nothing. */
    method CheckBudgetBeforeCall(now: real, estimatedCost: real) returns (answer: BudgetAnswer)
      requires Valid() && LastTime(start, counts) <= now
      modifies this
      ensures Valid() && airgapped == old(airgapped)
      ensures answer == Airgapped <==> airgapped
      ensures airgapped ==> unchanged(this)
      ensures !airgapped ==>
        var count, cost := old(UsedAt(COUNT_RULE, start, counts, now)), old(UsedAt(COST_RULE, start, costs, now));
        && (answer == BudgetExceeded <==> count + 1.0 > 1000.0)
        && (answer == CostExceeded <==> count + 1.0 <= 1000.0 && cost + estimatedCost > 3.0)
      ensures !airgapped ==>
        var reset := Elapsed(COUNT_RULE, now - old(lastResetTime));
        && counts == old(counts) + [Grant(now, reset, if answer == Allowed then 1.0 else 0.0)]
        && costs == old(costs) + [Grant(now, reset, if answer == Allowed then estimatedCost else 0.0)]
    {
      if airgapped {
        return Airgapped;
      }
      CountersSay(start, counts, costs, currentCount, currentCost, lastResetTime, now);
      ghost var reset := now - lastResetTime >= DAY;
      answer := Count(now, estimatedCost);
      Account(start, counts, costs, old(currentCount), old(currentCost), old(lastResetTime), now, answer == Allowed, estimatedCost);
      counts := counts + [Grant(now, reset, if answer == Allowed then 1.0 else 0.0)];
      costs := costs + [Grant(now, reset, if answer == Allowed then estimatedCost else 0.0)];
    }

    /** Any 24 hours see at most 2000 calls, and at most $6 unless a negative cost was claimed. */
    lemma AnyDayBound(i: nat, j: nat)
      requires Valid() && i <= j < |counts| && counts[j].at - counts[i].at < 86400.0
      ensures Granted(counts, i, j + 1) <= 2000.0
      ensures Charges(costs) ==> Granted(costs, i, j + 1) <= 6.0
    {
      SlidingBound(COUNT_RULE, start, counts, i, j);
      if Charges(costs) {
        SlidingBound(COST_RULE, start, costs, i, j);
      }
    }
  }

  lemma UsedWithinLimit(rule: Rule, start: real, log: seq<Grant>)
    requires Lawful(rule, start, log) && rule.limit >= 0.0
    ensures Used(log) <= rule.limit
    ensures Charges(log) ==> Used(log) >= 0.0
  {
    if Charges(log) {
      UsedNonnegative(rule, start, log, |log|);
      assert log[..|log|] == log;
    }
  }

  const CALL_SITE_COST: real := 0.0001

  // Each granted call was charged the call sites' estimate.
  predicate ChargedAtCallSites(counts: seq<Grant>, costs: seq<Grant>) {
    |counts| == |costs| &&
    forall k :: 0 <= k < |counts| ==> costs[k] == counts[k].(amount := counts[k].amount * CALL_SITE_COST)
  }

  lemma {:induction false} CostFollowsCount(counts: seq<Grant>, costs: seq<Grant>)
    requires ChargedAtCallSites(counts, costs)
    ensures Used(costs) == Used(counts) * CALL_SITE_COST
  {
    if counts != [] {
      CostFollowsCount(counts[..|counts| - 1], costs[..|costs| - 1]);
    }
  }

  /** At the call sites' estimate the daily count stops calls long before the dollar limit could: a
      call can only ever be refused for its cost if some earlier one was charged more. */
  lemma CostLimitNeverDecides(start: real, counts: seq<Grant>, costs: seq<Grant>)
    requires Lawful(COUNT_RULE, start, counts) && ChargedAtCallSites(counts, costs)
    ensures Used(costs) + CALL_SITE_COST <= 0.1001 < COST_LIMIT
  {
    CostFollowsCount(counts, costs);
    UsedWithinLimit(COUNT_RULE, start, counts);
  }

  // ---------------------------------------------------------------------------------------------
  // Requests per address and minute.

  datatype Request = Request(ip: string, at: real, reset: bool, ok: bool)

  // The history as one address sees it.
  function ForIp(log: seq<Request>, ip: string): (r: seq<Grant>)
    ensures |r| == |log|
  {
    seq(|log|, k requires 0 <= k < |log| =>
      Grant(log[k].at, log[k].reset, if log[k].ip == ip && log[k].ok then 1.0 else 0.0))
  }

  function IpRule(limit: nat): Rule { Rule(60.0, true, limit as real) }

  function Capped(counts: map<string, int>, ip: string, limit: nat): int {
    if ip !in counts then 0 else if counts[ip] <= limit then counts[ip] else limit
  }

  class IpLimiter {
    var ipCounts: map<string, int>
    var lastReset: real
    const limit: nat
    ghost const start: real
    ghost var log: seq<Request>

    ghost predicate Valid()
      reads this
    {
      AllSee(limit, start, log, ipCounts, lastReset)
    }

    constructor (limit: nat, now: real)
      ensures Valid() && this.limit == limit && start == now && log == []
    {
      this.limit, ipCounts, lastReset, start, log := limit, map[], now, now, [];
    }

    /** Grants the request if and only if the address still has room in the current minute; every
        address, known or not, keeps a lawful history of its own. */
    method Check(ip: string, now: real) returns (ok: bool)
      requires Valid() && Latest(start, log) <= now
      modifies this
      ensures Valid()
      ensures ok <==> old(UsedAt(IpRule(limit), start, ForIp(log, ip), now)) + 1.0 <= limit as real
      ensures log == old(log) + [Request(ip, now, now - old(lastReset) > 60.0, ok)]
    {
      assert Sees(ip, limit, start, log, ipCounts, lastReset);
      var reset := now - lastReset > 60.0;
      if reset {
        ipCounts, lastReset := map[], now;
      }
      ipCounts := ipCounts[ip := (if ip in ipCounts then ipCounts[ip] else 0) + 1];
      ok := ipCounts[ip] <= limit;
      log := log + [Request(ip, now, reset, ok)];
      AllStillSee(limit, start, old(log), old(ipCounts), old(lastReset), Request(ip, now, reset, ok));
    }

    /** In any minute no address is granted more than twice the limit: 120 requests, or 20 approvals. */
    lemma AnyMinuteBound(ip: string, i: nat, j: nat)
      requires Valid() && i <= j < |log| && log[j].at - log[i].at <= 60.0
      ensures Granted(ForIp(log, ip), i, j + 1) <= 2.0 * limit as real
    {
      assert Sees(ip, limit, start, log, ipCounts, lastReset);
      SlidingBound(IpRule(limit), start, ForIp(log, ip), i, j);
    }
  }

  function Latest(start: real, log: seq<Request>): real {
    if log == [] then start else log[|log| - 1].at
  }

  // One address's count is what its own lawful history has used, up to the limit.
  ghost predicate Sees(ip: string, limit: nat, start: real, log: seq<Request>, counts: map<string, int>, lastReset: real) {
    && Lawful(IpRule(limit), start, ForIp(log, ip))
    && Capped(counts, ip, limit) as real == Used(ForIp(log, ip))
    && lastReset == LastReset(start, ForIp(log, ip))
    && LastTime(start, ForIp(log, ip)) == Latest(start, log)
    && (ip in counts ==> counts[ip] >= 0)
  }

  function Counted(counts: map<string, int>, r: Request): map<string, int> {
    var before := if r.reset then map[] else counts;
    before[r.ip := (if r.ip in before then before[r.ip] else 0) + 1]
  }

  lemma StillSees(ip: string, limit: nat, start: real, log: seq<Request>, counts: map<string, int>, lastReset: real, r: Request)
    requires Sees(ip, limit, start, log, counts, lastReset) && Latest(start, log) <= r.at
    requires r.reset == (r.at - lastReset > 60.0) && r.ok == (Counted(counts, r)[r.ip] <= limit)
    ensures Sees(ip, limit, start, log + [r], Counted(counts, r), if r.reset then r.at else lastReset)
  {
    var g := Grant(r.at, r.reset, if r.ip == ip && r.ok then 1.0 else 0.0);
    assert ForIp(log + [r], ip) == ForIp(log, ip) + [g];
    UsedWithinLimit(IpRule(limit), start, ForIp(log, ip));
    Snoc(IpRule(limit), start, ForIp(log, ip), g);
  }

  ghost predicate AllSee(limit: nat, start: real, log: seq<Request>, counts: map<string, int>, lastReset: real) {
    forall ip :: Sees(ip, limit, start, log, counts, lastReset)
  }

  lemma AllStillSee(limit: nat, start: real, log: seq<Request>, counts: map<string, int>, lastReset: real, r: Request)
    requires AllSee(limit, start, log, counts, lastReset) && Latest(start, log) <= r.at
    requires r.reset == (r.at - lastReset > 60.0) && r.ok == (Counted(counts, r)[r.ip] <= limit)
    ensures AllSee(limit, start, log + [r], Counted(counts, r), if r.reset then r.at else lastReset)
  {
    var log', counts', last' := log + [r], Counted(counts, r), if r.reset then r.at else lastReset;
    forall ip
      ensures Sees(ip, limit, start, log', counts', last')
    {
      StillSees(ip, limit, start, log, counts, lastReset, r);
    }
  }

  // ---------------------------------------------------------------------------------------------
  // Log lines per second.

  const LINE_RULE: Rule := Rule(1.0, false, 100.0)
  const MAX_LINES: int := 100

  class LineLimiter {
    var rateLimiter: int
    var lastReset: real
    ghost const start: real
    ghost var log: seq<Grant>

    ghost predicate Valid()
      reads this
    {
      && Lawful(LINE_RULE, start, log) && rateLimiter as real == Used(log)
      && lastReset == LastReset(start, log) && Charges(log)
    }

    constructor (now: real)
      ensures Valid() && start == now && log == []
    {
      rateLimiter, lastReset, start, log := 0, now, now, [];
    }

    /** The admission part of ParseLine. */
    method Admit(now: real) returns (ok: bool)
      requires Valid() && LastTime(start, log) <= now
      modifies this
      ensures Valid()
      ensures ok <==> old(UsedAt(LINE_RULE, start, log, now)) + 1.0 <= 100.0
      ensures log == old(log) + [Grant(now, now - old(lastReset) >= 1.0, if ok then 1.0 else 0.0)]
    {
      ghost var reset := now - lastReset >= 1.0;
      if now - lastReset >= 1.0 {
        rateLimiter, lastReset := 0, now;
      }
      ok := rateLimiter < MAX_LINES;
      if ok {
        rateLimiter := rateLimiter + 1;
      }
      UsedWithinLimit(LINE_RULE, start, log);
      Snoc(LINE_RULE, start, log, Grant(now, reset, if ok then 1.0 else 0.0));
      log := log + [Grant(now, reset, if ok then 1.0 else 0.0)];
    }

    /** In any span shorter than a second at most 200 lines are admitted. */
    lemma AnySecondBound(i: nat, j: nat)
      requires Valid() && i <= j < |log| && log[j].at - log[i].at < 1.0
      ensures Granted(log, i, j + 1) <= 200.0
    {
      SlidingBound(LINE_RULE, start, log, i, j);
    }
  }
}
