/** The request-rate token bucket of go-agent/ai/ai_client.go, over real seconds. */
module TokenBucket {
  const MAX_TOKENS: real := 5.0

  // Ten tokens a minute.
  function Refill(seconds: real): real { seconds / 6.0 }

  datatype Attempt = Attempt(at: real, ok: bool)

  // Calls admitted among attempts i, ..., j - 1.
  function Admitted(log: seq<Attempt>, i: int, j: int): nat
    requires 0 <= i && j <= |log|
    decreases j - i
  {
    if j <= i then 0 else Admitted(log, i, j - 1) + (if log[j - 1].ok then 1 else 0)
  }

  // What the window from attempt i to the moment t still has room for, after attempts i, ..., n - 1.
  function Room(log: seq<Attempt>, i: nat, n: nat, t: real): real
    requires i < |log| && n <= |log|
  {
    MAX_TOKENS + Refill(t - log[i].at) - Admitted(log, i, n) as real
  }

  // Admitting one more call at t would keep every window that ends at t within its allowance.
  ghost predicate Fits(log: seq<Attempt>, n: nat, t: real)
    requires n <= |log|
  {
    forall i :: 0 <= i < n ==> 1.0 <= Room(log, i, n, t)
  }

  ghost predicate Ordered(log: seq<Attempt>) {
    forall i, j :: 0 <= i < j < |log| ==> log[i].at <= log[j].at
  }

  ghost predicate Decided(log: seq<Attempt>, k: nat)
    requires k < |log|
  {
    log[k].ok <==> Fits(log, k, log[k].at)
  }

  /** Greedy admission: each attempt is admitted if and only if every window ending at it still fits. */
  ghost predicate Greedy(log: seq<Attempt>) {
    Ordered(log) && forall k :: 0 <= k < |log| ==> Decided(log, k)
  }

  // The level is the least room over all windows so far.
  ghost predicate IsLevel(log: seq<Attempt>, level: real) {
    if log == [] then level == MAX_TOKENS
    else
      var t := log[|log| - 1].at;
      && (forall i :: 0 <= i < |log| ==> level <= Room(log, i, |log|, t))
      && (exists i :: 0 <= i < |log| && level == Room(log, i, |log|, t))
  }

  lemma {:induction false} AdmittedPrefix(log: seq<Attempt>, a: Attempt, i: nat, j: nat)
    requires j <= |log|
    ensures Admitted(log + [a], i, j) == Admitted(log, i, j)
  {
    if i < j {
      AdmittedPrefix(log, a, i, j - 1);
    }
  }

  // The refilled level before the attempt decides exactly whether the attempt fits.
  lemma RefillDecides(log: seq<Attempt>, level: real, last: real, now: real)
    requires IsLevel(log, level) && last <= now && (log != [] ==> last == log[|log| - 1].at)
    ensures level + Refill(now - last) >= 1.0 <==> Fits(log, |log|, now)
  {
    if log != [] {
      var i :| 0 <= i < |log| && level == Room(log, i, |log|, last);
      assert Room(log, i, |log|, now) == level + Refill(now - last);
      forall k | 0 <= k < |log|
        ensures level + Refill(now - last) <= Room(log, k, |log|, now)
      {
        assert level <= Room(log, k, |log|, last);
      }
    }
  }

  lemma RoomPrefix(log: seq<Attempt>, a: Attempt, i: nat, n: nat, t: real)
    requires i < |log| && n <= |log|
    ensures Room(log + [a], i, n, t) == Room(log, i, n, t)
  {
    AdmittedPrefix(log, a, i, n);
  }

  lemma RoomNext(log: seq<Attempt>, a: Attempt, i: nat, last: real)
    requires i < |log|
    ensures Room(log + [a], i, |log| + 1, a.at) ==
            Room(log, i, |log|, last) + Refill(a.at - last) - (if a.ok then 1.0 else 0.0)
  {
    AdmittedPrefix(log, a, i, |log|);
  }

  function Topped(level: real, seconds: real): real {
    if level + Refill(seconds) > MAX_TOKENS then MAX_TOKENS else level + Refill(seconds)
  }

  lemma LevelNext(log: seq<Attempt>, level: real, last: real, a: Attempt)
    requires IsLevel(log, level) && last <= a.at && (log != [] ==> last == log[|log| - 1].at)
    ensures IsLevel(log + [a], Topped(level, a.at - last) - (if a.ok then 1.0 else 0.0))
  {
    var longer, n := log + [a], |log|;
    var spent := if a.ok then 1.0 else 0.0;
    var level' := Topped(level, a.at - last) - spent;
    assert Admitted(longer, n, n) == 0;
    assert Room(longer, n, n + 1, a.at) == MAX_TOKENS - spent;
    forall i {:trigger Room(longer, i, n + 1, a.at)} | 0 <= i <= n
      ensures level' <= Room(longer, i, n + 1, a.at)
    {
      if i < n {
        RoomNext(log, a, i, last);
      }
    }
    if level' < MAX_TOKENS - spent && log != [] {
      var i :| 0 <= i < n && level == Room(log, i, n, last);
      RoomNext(log, a, i, last);
    }
  }

  lemma FitsPrefix(log: seq<Attempt>, a: Attempt, k: nat, t: real)
    requires k <= |log|
    ensures Fits(log + [a], k, t) <==> Fits(log, k, t)
  {
    forall i | 0 <= i < k
      ensures Room(log + [a], i, k, t) == Room(log, i, k, t)
    {
      RoomPrefix(log, a, i, k, t);
    }
  }

  lemma GreedyNext(log: seq<Attempt>, a: Attempt)
    requires Greedy(log) && (log != [] ==> log[|log| - 1].at <= a.at)
    requires a.ok <==> Fits(log, |log|, a.at)
    ensures Greedy(log + [a])
  {
    var longer := log + [a];
    forall k | 0 <= k < |longer|
      ensures Decided(longer, k)
    {
      assert k < |log| ==> Decided(log, k);
      FitsPrefix(log, a, k, longer[k].at);
    }
  }

  /** Any window of a greedy run, from attempt i to attempt j, admits at most 5 + T/6 calls, where T is
      the time between them. */
  lemma {:induction false} WindowBound(log: seq<Attempt>, i: nat, j: nat)
    requires Greedy(log) && i <= j < |log|
    ensures Admitted(log, i, j + 1) as real <= 5.0 + (log[j].at - log[i].at) / 6.0
  {
    assert log[i].at <= log[j].at;
    if log[j].ok {
      assert Decided(log, j);
      if i < j {
        assert 1.0 <= Room(log, i, j, log[j].at);
      }
    } else if i < j {
      WindowBound(log, i, j - 1);
      assert log[j - 1].at <= log[j].at;
    }
  }

  class TokenBucket {
    var tokens: real
    var lastRefill: real
    ghost var log: seq<Attempt>

    ghost predicate Valid()
      reads this
    {
      && 0.0 <= tokens <= MAX_TOKENS
      && Greedy(log) && IsLevel(log, tokens)
      && (log != [] ==> lastRefill == log[|log| - 1].at)
    }

    constructor (now: real)
      ensures Valid() && log == [] && tokens == 5.0 && lastRefill == now
    {
      tokens, lastRefill, log := MAX_TOKENS, now, [];
    }

    /** Admits the call if and only if no window ending now would exceed its allowance. */
    method Allow(now: real) returns (ok: bool)
      requires Valid() && lastRefill <= now
      modifies this
      ensures Valid() && lastRefill == now && log == old(log) + [Attempt(now, ok)]
      ensures ok <==> Fits(old(log), |old(log)|, now)
      ensures
        var level := if old(tokens) + (now - old(lastRefill)) / 6.0 < 5.0 then old(tokens) + (now - old(lastRefill)) / 6.0 else 5.0;
        ok == (level >= 1.0) && tokens == if ok then level - 1.0 else level
    {
      ghost var fits := Fits(log, |log|, now);
      RefillDecides(log, tokens, lastRefill, now);
      LevelNext(log, tokens, lastRefill, Attempt(now, fits));
      GreedyNext(log, Attempt(now, fits));
      var elapsed := now - lastRefill;
      lastRefill := now;
      tokens := tokens + Refill(elapsed);
      if tokens > MAX_TOKENS {
        tokens := MAX_TOKENS;
      }
      ok := false;
      if tokens >= 1.0 {
        tokens := tokens - 1.0;
        ok := true;
      }
      log := log + [Attempt(now, fits)];
    }
  }
}
