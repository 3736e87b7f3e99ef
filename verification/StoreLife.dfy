/** Lives of the learning store: updates, flushes, closings, process restarts and power losses in any
    order, and how often its milestone callback fires. */
module StoreLife {
  import opened Wrappers
  import opened Store = SkillStore
  import opened StateDistance
  import Learning

  // What one process keeps about the milestone.
  datatype Session = Session(updates: nat, threshold: int, callback: bool, closed: bool)

  // The working and the flash database.  Without a working one, `lost` is the latches the last had.
  datatype Life = Life(ram: Option<Db>, flash: Option<Db>, lost: set<Latch>, session: Option<Session>)

  datatype Step =
    | Update(state: string, action: string, reward: real, now: int, sqlOk: bool, latchOk: bool)
    | Record(name: string, sig: Signature, sqlOk: bool)
    | Configure(threshold: int, callback: bool)
    | Check(latch: Latch, sqlOk: bool)
    | Flush(end: FlushEnd)
    | CloseStep
    | Loss
    | Reopen(copyOk: bool, at: int)

  predicate Proper(l: Life) {
    (l.ram.Some? ==> NamesPresent(l.ram.value)) && (l.flash.Some? ==> NamesPresent(l.flash.value))
  }

  predicate Open(l: Life) { l.ram.Some? && l.session.Some? && !l.session.value.closed }

  // The milestone is reached and its latch can be set.
  predicate Due(l: Life, step: Step) {
    && Open(l) && step.Update? && step.sqlOk && step.latchOk && l.session.value.callback
    && l.session.value.threshold > 0 && l.session.value.updates + 1 == l.session.value.threshold
  }

  function Next(l: Life, step: Step): (next: Life)
    requires Proper(l)
    ensures Proper(next)
  {
    match step
    case Update(state, action, reward, now, sqlOk, _) =>
      if !Open(l) || !sqlOk then l
      else
        var s := l.session.value;
        var db := Rewarded(l.ram.value, state, action, reward, now);
        l.(session := Some(s.(updates := s.updates + 1)),
           ram := Some(if Due(l, step) then WithLatch(db, Milestone(s.threshold)) else db))
    case Record(name, sig, sqlOk) =>
      if !Open(l) || !sqlOk || name == "" then l
      else l.(ram := Some(l.ram.value.(sigs := l.ram.value.sigs[name := Recorded(l.ram.value.sigs, name, sig)])))
    case Configure(threshold, callback) =>
      if l.session.None? then l else l.(session := Some(l.session.value.(threshold := threshold, callback := callback)))
    case Check(latch, sqlOk) => if Open(l) && sqlOk then l.(ram := Some(WithLatch(l.ram.value, latch))) else l
    case Flush(end) => if Open(l) && end == Completed then l.(flash := l.ram) else l
    case CloseStep => if l.session.None? then l else l.(session := Some(l.session.value.(closed := true)))
    case Loss => l.(ram := None, session := None, lost := if l.ram.Some? then l.ram.value.latches else l.lost)
    case Reopen(copyOk, at) =>
      var db := Restored(l.ram, l.flash, copyOk);
      SeededNames(db, at);
      l.(ram := Some(Seeded(db, at)), session := Some(Session(0, 25, false, false)))
  }

  function Run(start: Option<Db>, steps: seq<Step>): (l: Life)
    requires start.Some? ==> NamesPresent(start.value)
    ensures Proper(l)
  {
    if steps == [] then Life(None, start, {}, None) else Next(Run(start, steps[..|steps| - 1]), steps[|steps| - 1])
  }

  predicate Fires(l: Life, step: Step, k: Latch) {
    Due(l, step) && k == Milestone(l.session.value.threshold) && k !in l.ram.value.latches
  }

  // The reopening after a power loss that comes up without a latch the lost database had.
  predicate Discards(l: Life, step: Step, k: Latch)
    requires Proper(l)
  {
    step.Reopen? && l.ram.None? && k in l.lost && k !in Next(l, step).ram.value.latches
  }

  function FireCount(start: Option<Db>, steps: seq<Step>, k: Latch): nat
    requires start.Some? ==> NamesPresent(start.value)
  {
    if steps == [] then 0
    else
      var n := |steps| - 1;
      FireCount(start, steps[..n], k) + (if Fires(Run(start, steps[..n]), steps[n], k) then 1 else 0)
  }

  function DiscardCount(start: Option<Db>, steps: seq<Step>, k: Latch): nat
    requires start.Some? ==> NamesPresent(start.value)
  {
    if steps == [] then 0
    else
      var n := |steps| - 1;
      DiscardCount(start, steps[..n], k) + (if Discards(Run(start, steps[..n]), steps[n], k) then 1 else 0)
  }

  function LossCount(steps: seq<Step>): nat {
    if steps == [] then 0 else LossCount(steps[..|steps| - 1]) + (if steps[|steps| - 1] == Loss then 1 else 0)
  }

  // The latch is set, or was when the power went.
  predicate Had(l: Life, k: Latch) { if l.ram.Some? then k in l.ram.value.latches else k in l.lost }

  // The latch went with the last database, and no new one is up yet.
  predicate Pending(l: Life, k: Latch) { l.ram.None? && k in l.lost }

  function One(b: bool): nat { if b then 1 else 0 }

  lemma StepIsCovered(l: Life, step: Step, k: Latch)
    requires Proper(l)
    ensures One(Fires(l, step, k)) + One(Had(l, k)) <= One(Discards(l, step, k)) + One(Had(Next(l, step), k))
    ensures One(Discards(l, step, k)) + One(Pending(Next(l, step), k)) <= One(Pending(l, k)) + One(step == Loss)
  {}

  lemma {:induction false} FiresAreCovered(start: Option<Db>, steps: seq<Step>, k: Latch)
    requires start.Some? ==> NamesPresent(start.value)
    ensures FireCount(start, steps, k) <= DiscardCount(start, steps, k) + One(Had(Run(start, steps), k))
    ensures DiscardCount(start, steps, k) + One(Pending(Run(start, steps), k)) <= LossCount(steps)
  {
    if steps != [] {
      var n := |steps| - 1;
      FiresAreCovered(start, steps[..n], k);
      StepIsCovered(Run(start, steps[..n]), steps[n], k);
    }
  }

  /** In every life the callback of a latch fires at most once more than power losses discarded the latch:
      losses, that is, after which the store came up without a latch that had been set. */
  lemma MilestoneFiresOncePerLoss(start: Option<Db>, steps: seq<Step>, k: Latch)
    requires start.Some? ==> NamesPresent(start.value)
    ensures FireCount(start, steps, k) <= 1 + DiscardCount(start, steps, k)
    ensures DiscardCount(start, steps, k) <= LossCount(steps)
  {
    FiresAreCovered(start, steps, k);
  }

  lemma Snoc(start: Option<Db>, steps: seq<Step>, step: Step, k: Latch)
    requires start.Some? ==> NamesPresent(start.value)
    ensures Run(start, steps + [step]) == Next(Run(start, steps), step)
    ensures FireCount(start, steps + [step], k) == FireCount(start, steps, k) + (if Fires(Run(start, steps), step, k) then 1 else 0)
    ensures DiscardCount(start, steps + [step], k) ==
            DiscardCount(start, steps, k) + (if Discards(Run(start, steps), step, k) then 1 else 0)
    ensures LossCount(steps + [step]) == LossCount(steps) + (if step == Loss then 1 else 0)
  {
    assert (steps + [step])[..|steps|] == steps;
  }

  // A process that starts on a new database and updates once, at a threshold of one.
  lemma FirstProcess(steps: seq<Step>, lost: set<Latch>) returns (longer: seq<Step>)
    requires Run(None, steps) == Life(None, None, lost, None)
    ensures
      var l := Run(None, longer);
      && l.ram.Some? && l.ram.value.latches == {Milestone(1)} && l.flash == None && l.lost == lost
    ensures FireCount(None, longer, Milestone(1)) == FireCount(None, steps, Milestone(1)) + 1
    ensures DiscardCount(None, longer, Milestone(1)) ==
            DiscardCount(None, steps, Milestone(1)) + (if Milestone(1) in lost then 1 else 0)
    ensures LossCount(longer) == LossCount(steps)
  {
    var k := Milestone(1);
    var started := steps + [Reopen(true, 0)];
    Snoc(None, steps, Reopen(true, 0), k);
    var db := Seeded(EMPTY_DB, 0);
    assert Run(None, started) == Life(Some(db), None, lost, Some(Session(0, 25, false, false)));
    var ready := started + [Configure(1, true)];
    Snoc(None, started, Configure(1, true), k);
    assert Run(None, ready) == Life(Some(db), None, lost, Some(Session(0, 1, true, false)));
    var update := Update("s", "a", 0.0, 0, true, true);
    longer := ready + [update];
    Snoc(None, ready, update, k);
    assert {} + {k} == {k};
  }

  /** The bound is attained: for every n a life with n discarding losses fires n + 1 times. */
  lemma {:induction false} EveryLossMayFireAgain(n: nat) returns (steps: seq<Step>)
    ensures FireCount(None, steps, Milestone(1)) == n + 1
    ensures DiscardCount(None, steps, Milestone(1)) == n && LossCount(steps) == n
    ensures
      var l := Run(None, steps);
      l.ram.Some? && l.ram.value.latches == {Milestone(1)} && l.flash == None
  {
    if n == 0 {
      steps := FirstProcess([], {});
    } else {
      var before := EveryLossMayFireAgain(n - 1);
      Snoc(None, before, Loss, Milestone(1));
      steps := FirstProcess(before + [Loss], {Milestone(1)});
    }
  }

  // ---------------------------------------------------------------------------------------------
  // The range of the Q table.

  predicate RowsInRange(db: Option<Db>) {
    db.Some? ==> forall k :: k in db.value.q ==> Learning.InRange(db.value.q[k].q)
  }

  predicate RewardsInRange(steps: seq<Step>) {
    forall i :: 0 <= i < |steps| && steps[i].Update? ==> Learning.InRange(steps[i].reward)
  }

  /** Over every life whose rewards are in [-0.8, 1], from a flash copy in that range, every row of the RAM
      and of the flash database stays in it. */
  lemma {:induction false} RowsStayInRange(start: Option<Db>, steps: seq<Step>)
    requires start.Some? ==> NamesPresent(start.value)
    requires RowsInRange(start) && RewardsInRange(steps)
    ensures RowsInRange(Run(start, steps).ram) && RowsInRange(Run(start, steps).flash)
  {
    if steps != [] {
      var n := |steps| - 1;
      RowsStayInRange(start, steps[..n]);
      assert steps[n].Update? ==> Learning.InRange(steps[n].reward);
      RangeStep(Run(start, steps[..n]), steps[n]);
    }
  }

  lemma RangeStep(l: Life, step: Step)
    requires Proper(l) && RowsInRange(l.ram) && RowsInRange(l.flash)
    requires step.Update? ==> Learning.InRange(step.reward)
    ensures RowsInRange(Next(l, step).ram) && RowsInRange(Next(l, step).flash)
  {
    if step.Reopen? {
      SeedRange(Restored(l.ram, l.flash, step.copyOk), step.at);
    }
  }

  lemma SeedRange(db: Db, now: int)
    requires RowsInRange(Some(db))
    ensures RowsInRange(Some(Seeded(db, now)))
  {
    forall k | k in SeedQ(now)
      ensures SeedQ(now)[k].q in {0.5, 0.6}
    {}
  }

  // ---------------------------------------------------------------------------------------------
  // The objects live such lives.

  ghost predicate Matches(l: Life, media: Media, s: SkillStore?)
    reads media, s
  {
    && media.Valid() && (s != null ==> s.media == media && s.Valid())
    && l.ram == media.ram && l.flash == media.flash
    && l.session == if s == null then None
                    else Some(Session(s.qUpdatesTotal, s.milestoneThreshold, s.hasCallback, s.closed))
  }

  /** Whatever happens to the store and its media is a step of a life, and the callback runs in it exactly
      when the step fires. */
  method Perform(media: Media, s: SkillStore?, step: Step, ghost l: Life) returns (next: SkillStore?)
    requires Matches(l, media, s)
    modifies media, s
    ensures Proper(l) && Matches(Next(l, step), media, next)
    ensures forall k :: Count(media.fired, k) == Count(old(media.fired), k) + (if Fires(l, step, k) then 1 else 0)
    ensures media.losses == old(media.losses) + (if step == Loss then 1 else 0)
  {
    next := s;
    if step.Reopen? {
      next := new SkillStore.NewHybrid(media, step.copyOk, step.at);
      return;
    }
    match step {
      case Update(state, action, reward, now, sqlOk, latchOk) =>
        if s != null {
          var _ := s.UpdateQValue(state, action, reward, now, sqlOk, latchOk);
        }
      case Record(name, sig, sqlOk) =>
        if s != null {
          var _ := s.RecordStateSignature(name, sig, sqlOk);
        }
      case Configure(threshold, callback) =>
        if s != null {
          s.SetMilestone(threshold, callback);
        }
      case Check(latch, sqlOk) =>
        if s != null {
          var _ := s.CheckAndSetMilestoneLatch(latch, sqlOk);
        }
      case Flush(end) =>
        if s != null {
          var _ := s.FlushToPersistent(end);
        }
      case CloseStep =>
        if s != null {
          s.Close();
        }
      case Loss =>
        media.PowerLoss();
        next := null;
    }
  }
}
