/** The Wi-Fi boost switch of go-agent/cmd/main.go: the tick loop with its low-traffic counter, and
    the Telegram command that sets the same flag from another goroutine. */
module WifiBoost {
  const IDLE_CYCLES: nat := 60

  // One processed tick, as the history records it: whether traffic was low while the flag it read was
  // set, and whether it reverted or boosted.
  datatype Tick = Tick(lowBoosted: bool, reverted: bool, boosted: bool)

  // Consecutive newest ticks that saw low traffic while boosted, back to the last revert.
  function LowRun(ticks: seq<Tick>): nat {
    if ticks == [] then 0
    else
      var last := ticks[|ticks| - 1];
      if last.lowBoosted && !last.reverted then LowRun(ticks[..|ticks| - 1]) + 1 else 0
  }

  function Reverts(ticks: seq<Tick>): nat {
    if ticks == [] then 0
    else Reverts(ticks[..|ticks| - 1]) + (if ticks[|ticks| - 1].reverted then 1 else 0)
  }

  // A revert comes only with the sixtieth low-traffic tick in a row, or a later one.
  ghost predicate Patient(ticks: seq<Tick>) {
    forall k :: 0 <= k < |ticks| && ticks[k].reverted ==> ticks[k].lowBoosted && LowRun(ticks[..k]) + 1 >= IDLE_CYCLES
  }

  class BoostLoop {
    var boosted: bool            // the atomic flag
    var lowTrafficCycles: nat
    var isBoosted: bool          // what the current tick read
    ghost var inTick: bool
    ghost var ticks: seq<Tick>
    ghost var raises: nat        // how often the flag went from eco to boosted, by whichever hand

    // Between ticks the counter is the current low-traffic run, and zero in eco mode.
    ghost predicate Valid()
      reads this
    {
      && (!boosted ==> lowTrafficCycles == 0)
      && lowTrafficCycles == LowRun(ticks)
      && (inTick ==> if isBoosted then boosted else lowTrafficCycles == 0)
      && Patient(ticks)
      && raises == Reverts(ticks) + (if boosted then 1 else 0)
    }

    constructor ()
      ensures Valid() && !boosted && ticks == [] && raises == 0
    {
      isBoosted, inTick := false, false;
      boosted, lowTrafficCycles, ticks, raises := false, 0, [], 0;
    }

    // The /boost command; it may come at any moment, also in the middle of a tick.
    method TelegramBoost(actionOk: bool)
      requires Valid()
      modifies `boosted, `raises
      ensures Valid() && boosted == (old(boosted) || actionOk)
      ensures raises == old(raises) + (if boosted && !old(boosted) then 1 else 0)
    {
      if actionOk {
        raises := raises + (if boosted then 0 else 1);
        boosted := true;
      }
    }

    // The tick reads the flag; a tick that then finds safe mode or the kill switch goes no further.
    method BeginTick()
      requires Valid()
      modifies `isBoosted, `inTick
      ensures Valid() && inTick && isBoosted == boosted
    {
      isBoosted, inTick := boosted, true;
    }

    /** The switch of one processed tick.  Since the tick read the flag, /boost may have set it. */
    method ProcessTick(mbps: real, boostAt: real, restoreBelow: real, actionOk: bool)
      requires Valid() && inTick
      modifies this
      ensures Valid() && !inTick && isBoosted == old(isBoosted)
      ensures |ticks| == |old(ticks)| + 1
      ensures var low := isBoosted && mbps < restoreBelow;
              ticks == old(ticks) + [Tick(low, low && LowRun(old(ticks)) + 1 >= 60 && actionOk,
                                          mbps > boostAt && !isBoosted && actionOk)]
      ensures boosted == (if ticks[|old(ticks)|].reverted then false else old(boosted) || ticks[|old(ticks)|].boosted)
      ensures raises == old(raises) + (if boosted && !old(boosted) then 1 else 0)
    {
      var low, reverted, raised := isBoosted && mbps < restoreBelow, false, false;
      if mbps > boostAt && !isBoosted {
        if actionOk {
          raises := raises + (if boosted then 0 else 1);
          boosted, lowTrafficCycles, raised := true, 0, true;
        }
      } else if isBoosted && mbps < restoreBelow {
        lowTrafficCycles := lowTrafficCycles + 1;
        if lowTrafficCycles >= IDLE_CYCLES {
          if actionOk {
            boosted, lowTrafficCycles, reverted := false, 0, true;
          }
        }
      } else if isBoosted && mbps >= restoreBelow {
        lowTrafficCycles := 0;
      }
      ghost var before := ticks;
      inTick := false;
      ticks := ticks + [Tick(low, reverted, raised)];
      assert ticks[..|before|] == before;
      forall k | 0 <= k < |ticks| && ticks[k].reverted
        ensures ticks[k].lowBoosted && LowRun(ticks[..k]) + 1 >= IDLE_CYCLES
      {
        assert k < |before| ==> ticks[..k] == before[..k];
      }
    }

    /** In N ticks the mode changes at most 2 * (N / 60) + 1 times, /boost commands included. */
    lemma ModeChangesBounded()
      requires Valid()
      ensures raises + Reverts(ticks) <= 2 * (|ticks| / 60) + 1
    {
      RevertsBounded(ticks);
    }
  }

  // ---------------------------------------------------------------------------------------------
  // What Patient means for a run.

  // From tick `from` on, every tick saw low traffic while boosted and none reverted.
  ghost predicate IdleSince(ticks: seq<Tick>, from: int) {
    0 <= from <= |ticks| && forall j :: from <= j < |ticks| ==> ticks[j].lowBoosted && !ticks[j].reverted
  }

  lemma {:induction false} LowRunIsIdle(ticks: seq<Tick>)
    ensures LowRun(ticks) <= |ticks| && IdleSince(ticks, |ticks| - LowRun(ticks))
    ensures forall from :: IdleSince(ticks, from) ==> |ticks| - LowRun(ticks) <= from
  {
    if ticks != [] {
      var before := ticks[..|ticks| - 1];
      LowRunIsIdle(before);
      forall from | IdleSince(ticks, from) && from < |ticks| ensures IdleSince(before, from) {
        assert forall j :: from <= j < |before| ==> before[j] == ticks[j];
      }
    }
  }

  /** A revert ends at least sixty processed ticks in a row with low traffic while boosted, and none of
      the 59 before it reverted. */
  lemma RevertNeedsSixtyIdleTicks(ticks: seq<Tick>, k: nat)
    requires Patient(ticks) && k < |ticks| && ticks[k].reverted
    ensures k >= 59
    ensures forall j :: k - 60 < j <= k ==> ticks[j].lowBoosted && (ticks[j].reverted ==> j == k)
  {
    LowRunIsIdle(ticks[..k]);
    forall j | k - 60 < j < k ensures ticks[j].lowBoosted && !ticks[j].reverted {
      assert ticks[j] == ticks[..k][j];
    }
  }

  lemma RevertsApart(ticks: seq<Tick>, i: nat, k: nat)
    requires Patient(ticks) && i < k < |ticks| && ticks[i].reverted && ticks[k].reverted
    ensures k - i >= 60
  {
    RevertNeedsSixtyIdleTicks(ticks, k);
  }

  lemma {:induction false} NoReverts(ticks: seq<Tick>, from: nat)
    requires from <= |ticks| && forall j :: from <= j < |ticks| ==> !ticks[j].reverted
    ensures Reverts(ticks) == Reverts(ticks[..from])
  {
    if from == |ticks| {
      assert ticks[..from] == ticks;
    } else {
      NoReverts(ticks[..|ticks| - 1], from);
      assert ticks[..|ticks| - 1][..from] == ticks[..from];
    }
  }

  /** Each revert uses up sixty ticks of its own. */
  lemma {:induction false} RevertsBounded(ticks: seq<Tick>)
    requires Patient(ticks)
    ensures 60 * Reverts(ticks) <= |ticks|
    decreases |ticks|
  {
    if ticks != [] {
      var last := |ticks| - 1;
      var before := ticks[..last];
      forall k | 0 <= k < last && before[k].reverted
        ensures before[k].lowBoosted && LowRun(before[..k]) + 1 >= IDLE_CYCLES
      {
        assert before[..k] == ticks[..k];
      }
      if !ticks[last].reverted {
        RevertsBounded(before);
      } else {
        RevertNeedsSixtyIdleTicks(ticks, last);
        var start := last + 1 - IDLE_CYCLES;
        NoReverts(before, start);
        assert before[..start] == ticks[..start];
        forall k | 0 <= k < start && ticks[..start][k].reverted
          ensures ticks[..start][k].lowBoosted && LowRun(ticks[..start][..k]) + 1 >= IDLE_CYCLES
        {
          assert ticks[..start][..k] == ticks[..k];
        }
        RevertsBounded(ticks[..start]);
      }
    }
  }
}
