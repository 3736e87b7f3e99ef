/** The RAM/flash learning store of go-agent/skillstore/store.go.  A database is the value of its
    tables; statements are atomic.  `Media` is what outlives a process: the RAM disk, which a power
    loss empties, and the flash file, which it does not. */
module SkillStore {
  import opened Wrappers
  import opened RealMath
  import opened StateDistance
  import opened Learning

  // ---------------------------------------------------------------------------------------------
  // Tables.

  datatype QKey = QKey(state: string, action: string)
  datatype QCell = QCell(q: real, updatedAt: int)
  datatype SigCell = SigCell(sig: Signature, count: int)
  datatype Latch = Milestone(threshold: int) | Named(name: string)

  datatype Db = Db(q: map<QKey, QCell>, sigs: map<string, SigCell>, latches: set<Latch>)

  const EMPTY_DB: Db := Db(map[], map[], {})

  function SeedQ(now: int): map<QKey, QCell> {
    map[
      QKey("WAN_DROP", "restart_wan_interface") := QCell(0.5, now),
      QKey("MEMORY_EXHAUSTION", "purge_memory_cache") := QCell(0.6, now),
      QKey("WIFI_FAILURE", "optimize_wifi_channel") := QCell(0.5, now),
      QKey("LATENCY_SPIKE", "restart_interface") := QCell(0.5, now),
      QKey("BUFFERBLOAT_SPIKE", "enable_cake_sqm") := QCell(0.6, now),
      QKey("REPEATER_SIGNAL_WEAK", "scale_tx_power_down") := QCell(0.5, now),
      QKey("REPEATER_CHANNEL_CONGESTED", "align_channels") := QCell(0.5, now)]
  }

  const SEED_SIGS: map<string, SigCell> :=
    map[
      "MEMORY_EXHAUSTION" := SigCell(Signature(90.0, 15.0, 25.0, 60.0, false, false), 10),
      "WAN_DROP" := SigCell(Signature(45.0, 999.0, 15.0, 55.0, true, false), 10),
      "WIFI_FAILURE" := SigCell(Signature(50.0, 25.0, 20.0, 58.0, false, true), 10),
      "LATENCY_SPIKE" := SigCell(Signature(55.0, 180.0, 30.0, 62.0, false, false), 10),
      "BUFFERBLOAT_SPIKE" := SigCell(Signature(60.0, 220.0, 65.0, 65.0, false, false), 10),
      "REPEATER_SIGNAL_WEAK" := SigCell(Signature(48.0, 85.0, 18.0, 56.0, false, false), 10),
      "REPEATER_CHANNEL_CONGESTED" := SigCell(Signature(52.0, 110.0, 35.0, 59.0, false, false), 10)]

  // INSERT OR IGNORE of the seed rows.
  function Seeded(db: Db, now: int): Db {
    db.(q := SeedQ(now) + db.q, sigs := SEED_SIGS + db.sigs)
  }

  /** Seeding changes no row that is there, learned or seeded, and a database that has the seed rows
      is left exactly as it is. */
  lemma SeedingKeepsLearned(db: Db, now: int, later: int)
    ensures forall k :: k in db.q ==> k in Seeded(db, now).q && Seeded(db, now).q[k] == db.q[k]
    ensures forall n :: n in db.sigs ==> n in Seeded(db, now).sigs && Seeded(db, now).sigs[n] == db.sigs[n]
    ensures Seeded(Seeded(db, now), later) == Seeded(db, now)
  {
    assert SeedQ(later).Keys == SeedQ(now).Keys;
    assert SeedQ(later) + (SeedQ(now) + db.q) == SeedQ(now) + db.q;
    assert SEED_SIGS + (SEED_SIGS + db.sigs) == SEED_SIGS + db.sigs;
  }

  predicate HasSeeds(db: Db) {
    SeedQ(0).Keys <= db.q.Keys && SEED_SIGS.Keys <= db.sigs.Keys
  }

  lemma SeedingIsIdle(db: Db, now: int)
    requires HasSeeds(db)
    ensures Seeded(db, now) == db
  {
    assert SeedQ(now).Keys == SeedQ(0).Keys;
    assert SeedQ(now) + db.q == db.q;
    assert SEED_SIGS + db.sigs == db.sigs;
  }

  lemma SeededHasSeeds(db: Db, now: int)
    ensures HasSeeds(Seeded(db, now))
  {
    assert SeedQ(now).Keys == SeedQ(0).Keys;
    assert (SeedQ(now) + db.q).Keys == SeedQ(now).Keys + db.q.Keys;
    assert (SEED_SIGS + db.sigs).Keys == SEED_SIGS.Keys + db.sigs.Keys;
  }

  predicate NamesPresent(db: Db) { "" !in db.sigs && forall n :: n in db.sigs ==> db.sigs[n].count >= 1 }

  // ---------------------------------------------------------------------------------------------
  // The best row of a state: highest value, then most recently updated.

  predicate NotAbove(a: QCell, b: QCell) { a.q < b.q || (a.q == b.q && a.updatedAt <= b.updatedAt) }

  predicate IsTop(q: map<QKey, QCell>, k: QKey) {
    k in q && forall j | j in q.Keys :: j.state == k.state ==> NotAbove(q[j], q[k])
  }

  // No row of the state has a higher value than this one, and none with the same value is newer.
  ghost predicate IsBest(q: map<QKey, QCell>, state: string, action: string, value: real) {
    var k := QKey(state, action);
    && k in q && q[k].q == value
    && forall j :: j in q && j.state == state ==> q[j].q <= value && (q[j].q == value ==> q[j].updatedAt <= q[k].updatedAt)
  }

  // Every row of the state, if it has any, is below zero.
  ghost predicate AllNegative(q: map<QKey, QCell>, state: string) {
    forall j :: j in q && j.state == state ==> q[j].q < 0.0
  }

  lemma TopIsBest(q: map<QKey, QCell>, k: QKey)
    requires IsTop(q, k)
    ensures IsBest(q, k.state, k.action, q[k].q) && (AllNegative(q, k.state) <==> q[k].q < 0.0)
  {
    assert QKey(k.state, k.action) == k;
    forall j | j in q && j.state == k.state
      ensures q[j].q <= q[k].q && (q[j].q == q[k].q ==> q[j].updatedAt <= q[k].updatedAt)
    {
      assert j in q.Keys && NotAbove(q[j], q[k]);
    }
  }

  ghost predicate HasRow(q: map<QKey, QCell>, state: string) { exists k :: k in q && k.state == state }

  lemma TopExists(q: map<QKey, QCell>, rows: set<QKey>, state: string) returns (top: QKey)
    requires rows != {} && rows <= q.Keys && forall k :: k in rows ==> k.state == state
    ensures top in rows && forall k :: k in rows ==> NotAbove(q[k], q[top])
  {
    top :| top in rows;
    if rows != {top} {
      var rest := TopExists(q, rows - {top}, state);
      if !NotAbove(q[rest], q[top]) {
        top := rest;
      }
    }
  }

  // SELECT ... ORDER BY q_value DESC, updated_at DESC LIMIT 1; rows equal in both may come in any order.
  method QueryBest(q: map<QKey, QCell>, state: string) returns (best: Option<QKey>)
    ensures best.None? <==> !HasRow(q, state)
    ensures best.Some? ==> best.value in q && best.value.state == state
    ensures best.Some? ==> IsBest(q, state, best.value.action, q[best.value].q)
    ensures best.Some? ==> (AllNegative(q, state) <==> q[best.value].q < 0.0)
  {
    var rows := set k | k in q.Keys && k.state == state;
    if rows == {} {
      assert forall k :: k in q && k.state == state ==> k in rows;
      return None;
    }
    ghost var top := TopExists(q, rows, state);
    assert IsTop(q, top) by {
      assert forall j :: j in q.Keys && j.state == top.state ==> j in rows;
    }
    var k :| k in rows && IsTop(q, k);
    TopIsBest(q, k);
    best := Some(k);
  }

  // SELECT * FROM state_signatures, in some order.
  ghost predicate Lists(rows: seq<SigRow>, sigs: map<string, SigCell>) {
    && (forall i :: 0 <= i < |rows| ==> rows[i].name in sigs && sigs[rows[i].name].sig == rows[i].sig)
    && (forall n :: n in sigs ==> exists i :: 0 <= i < |rows| && rows[i].name == n)
  }

  method SelectSignatures(sigs: map<string, SigCell>) returns (rows: seq<SigRow>)
    ensures Lists(rows, sigs)
  {
    rows := [];
    var names := sigs.Keys;
    while names != {}
      invariant names <= sigs.Keys
      invariant forall i :: 0 <= i < |rows| ==> rows[i].name in sigs && sigs[rows[i].name].sig == rows[i].sig
      invariant forall n :: n in sigs ==> n in names || exists i :: 0 <= i < |rows| && rows[i].name == n
      decreases |names|
    {
      var n :| n in names;
      ghost var before := rows;
      rows := rows + [SigRow(n, sigs[n].sig, sigs[n].count)];
      assert rows[|before|].name == n;
      assert forall i :: 0 <= i < |before| ==> rows[i] == before[i];
      names := names - {n};
    }
  }

  // A state whose signature is at the least distance over the whole table, within the threshold.
  ghost predicate IsNearestState(root: real -> real, sigs: map<string, SigCell>, sig: Signature, n: string, threshold: real) {
    && n in sigs && Distance(root, sig, sigs[n].sig) <= threshold
    && forall m :: m in sigs ==> Distance(root, sig, sigs[n].sig) <= Distance(root, sig, sigs[m].sig)
  }

  ghost predicate SomeWithin(root: real -> real, sigs: map<string, SigCell>, sig: Signature, threshold: real) {
    exists n :: n in sigs && Distance(root, sig, sigs[n].sig) <= threshold
  }

  lemma ListedWithin(root: real -> real, rows: seq<SigRow>, sigs: map<string, SigCell>, sig: Signature, threshold: real)
    requires Lists(rows, sigs)
    ensures SomeWithin(root, sigs, sig, threshold) <==> Within(root, rows, sig, threshold)
  {
    if SomeWithin(root, sigs, sig, threshold) {
      var n :| n in sigs && Distance(root, sig, sigs[n].sig) <= threshold;
      var i :| 0 <= i < |rows| && rows[i].name == n;
      assert Distance(root, sig, rows[i].sig) <= threshold;
    }
  }

  method FindNearest(root: real -> real, sigs: map<string, SigCell>, sig: Signature, threshold: real)
    returns (name: string, dist: real, ok: bool)
    requires "" !in sigs && threshold <= 5.0
    ensures ok <==> SomeWithin(root, sigs, sig, threshold)
    ensures ok ==> IsNearestState(root, sigs, sig, name, threshold) && dist == Distance(root, sig, sigs[name].sig)
  {
    var rows := SelectSignatures(sigs);
    ListedWithin(root, rows, sigs, sig, threshold);
    name, dist, ok := FindNearestState(root, rows, Some(sig), threshold);
    assert forall m :: m in sigs ==> exists i :: 0 <= i < |rows| && rows[i].name == m;
  }

  // ---------------------------------------------------------------------------------------------
  // What survives.

  datatype TmpFile = NoFile | Torn | Whole(db: Db)

  function Count(m: map<Latch, nat>, k: Latch): nat { if k in m then m[k] else 0 }

  function Restored(ram: Option<Db>, flash: Option<Db>, copyOk: bool): Db {
    if ram.Some? then ram.value else if flash.Some? && copyOk then flash.value else EMPTY_DB
  }

  class Media {
    var ram: Option<Db>
    var flash: Option<Db>
    var tmp: TmpFile
    ghost var lastFlush: Option<Db>          // database of the last flush that completed
    ghost var fired: map<Latch, nat>         // milestone callbacks so far
    ghost var losses: nat                    // power losses so far

    ghost predicate Valid()
      reads this
    {
      && flash == lastFlush
      && (flash.Some? ==> NamesPresent(flash.value))
      && (ram.Some? ==> NamesPresent(ram.value) && HasSeeds(ram.value))
      && forall k :: Count(fired, k) <= losses + (if ram.Some? && k in ram.value.latches then 1 else 0)
    }

    // A device with this flash content, powered on for the first time.
    constructor (flash: Option<Db>)
      requires flash.Some? ==> NamesPresent(flash.value)
      ensures Valid() && ram == None && this.flash == flash && lastFlush == flash && fired == map[] && losses == 0
    {
      ram, this.flash, tmp, lastFlush := None, flash, NoFile, flash;
      fired, losses := map[], 0;
    }

    /** Brings up a working database: the one in RAM, else the flash copy, else a new one; then adds the
        seed rows that are missing. */
    method Open(copyOk: bool, now: int)
      requires Valid()
      modifies `ram
      ensures Valid() && ram == Some(Seeded(Restored(old(ram), old(flash), copyOk), now))
    {
      SeededNames(Restored(ram, flash, copyOk), now);
      SeededHasSeeds(Restored(ram, flash, copyOk), now);
      if ram.None? && flash.Some? && copyOk {
        ram := flash;
      }
      if ram.None? {
        ram := Some(EMPTY_DB);
      }
      ram := Some(Seeded(ram.value, now));
    }

    method PowerLoss()
      requires Valid()
      modifies `ram, `losses
      ensures Valid() && ram == None && losses == old(losses) + 1
    {
      ram, losses := None, losses + 1;
    }
  }

  function WithLatch(db: Db, latch: Latch): Db { db.(latches := db.latches + {latch}) }

  // One reward entered in its row.
  function Rewarded(db: Db, state: string, action: string, reward: real, now: int): Db {
    var key := QKey(state, action);
    var before := if key in db.q then Some(db.q[key].q) else None;
    db.(q := db.q[key := QCell(LearnQ(before, reward), now)])
  }

  // How far a flush gets: an error from SQLite or the rename, or the power going at that point.
  datatype FlushEnd = VacuumFailed | VacuumTorn | RenameFailed | StoppedBeforeRename | Completed

  datatype Recommendation = Recommendation(action: string, q: real, matched: string, interpolated: bool, closed: bool)

  const MIN_THRESHOLD: real := 1.0
  const MAX_THRESHOLD: real := 5.0
  const DEFAULT_THRESHOLD: real := 2.5
  const MIN_LAMBDA: real := 0.01
  const MAX_LAMBDA: real := 1.0
  const DEFAULT_LAMBDA: real := 0.15

  class SkillStore {
    const media: Media
    var closed: bool
    var distanceThreshold: real
    var decayLambda: real
    var qUpdatesTotal: nat
    var verifiedSuccesses: nat
    var verifiedFailures: nat
    var exactMatchCount: nat
    var interpolationsTotal: nat
    var fallbackDefaultCount: nat
    var milestoneThreshold: int
    var hasCallback: bool
    ghost var calls: nat        // recommendations asked of the open store

    ghost predicate Valid()
      reads this, media
    {
      && media.Valid() && media.ram.Some?
      && MIN_THRESHOLD <= distanceThreshold <= MAX_THRESHOLD
      && MIN_LAMBDA <= decayLambda <= MAX_LAMBDA
      && exactMatchCount + interpolationsTotal + fallbackDefaultCount == calls
    }

    function Tables(): Db
      requires media.ram.Some?
      reads media
    {
      media.ram.value
    }

    constructor NewHybrid(media: Media, copyOk: bool, now: int)
      requires media.Valid()
      modifies media`ram
      ensures Valid() && this.media == media && !closed
      ensures Tables() == Seeded(Restored(old(media.ram), old(media.flash), copyOk), now)
      ensures calls == 0 && qUpdatesTotal == verifiedSuccesses == verifiedFailures == 0
      ensures milestoneThreshold == 25 && !hasCallback
    {
      this.media := media;
      closed, distanceThreshold, decayLambda := false, DEFAULT_THRESHOLD, DEFAULT_LAMBDA;
      qUpdatesTotal, exactMatchCount, interpolationsTotal, fallbackDefaultCount := 0, 0, 0, 0;
      milestoneThreshold, hasCallback, calls := 25, false, 0;
      verifiedSuccesses, verifiedFailures := 0, 0;
      new;
      media.Open(copyOk, now);
    }

    /** A crash at any point leaves flash wholly old or wholly the flushed database. */
    method FlushToPersistent(end: FlushEnd) returns (ok: bool)
      requires Valid()
      modifies media`tmp, media`flash, media`lastFlush
      ensures Valid() && media.ram == old(media.ram) && ok == (!closed && end == Completed)
      ensures ok ==> media.flash == media.ram == media.lastFlush && HasSeeds(media.lastFlush.value) && media.tmp == NoFile
      ensures !ok ==> media.flash == old(media.flash)
    {
      if closed {
        return false;
      }
      media.tmp := NoFile;
      match end
      case VacuumFailed =>
        return false;
      case VacuumTorn =>
        media.tmp := Torn;
        return false;
      case RenameFailed =>
        media.tmp := Whole(media.ram.value);
        media.tmp := NoFile;
        return false;
      case StoppedBeforeRename =>
        media.tmp := Whole(media.ram.value);
        return false;
      case Completed =>
        media.tmp := Whole(media.ram.value);
        media.flash, media.tmp := Some(media.tmp.db), NoFile;
        media.lastFlush := media.flash;
        return true;
    }

    // INSERT OR IGNORE of a latch: true when the row was new; a closed store and a failing statement
    // answer false.
    method CheckAndSetMilestoneLatch(latch: Latch, sqlOk: bool) returns (first: bool)
      requires Valid()
      modifies media`ram
      ensures Valid() && first == (!closed && sqlOk && latch !in old(Tables()).latches)
      ensures Tables() == if closed || !sqlOk then old(Tables()) else WithLatch(old(Tables()), latch)
    {
      if closed || !sqlOk {
        return false;
      }
      first := latch !in media.ram.value.latches;
      media.ram := Some(WithLatch(media.ram.value, latch));
    }

    /** The upsert, its counters, and the milestone: the callback runs when the count of this process
        reaches the threshold, the latch row was not there and setting it succeeds.  A closed store and a
        failing upsert change nothing. */
    method UpdateQValue(state: string, action: string, reward: real, now: int, sqlOk: bool, latchOk: bool) returns (ok: bool)
      requires Valid()
      modifies this, media`ram, media`fired
      ensures Valid() && ok == (!old(closed) && sqlOk) && closed == old(closed) && calls == old(calls)
      ensures milestoneThreshold == old(milestoneThreshold) && hasCallback == old(hasCallback)
      ensures !ok ==> unchanged(this) && media.ram == old(media.ram) && media.fired == old(media.fired)
      ensures ok ==>
        && qUpdatesTotal == old(qUpdatesTotal) + 1
        && verifiedSuccesses == old(verifiedSuccesses) + (if reward > 0.0 then 1 else 0)
        && verifiedFailures == old(verifiedFailures) + (if reward < 0.0 then 1 else 0)
      ensures ok ==>
        var key, before, after := QKey(state, action), old(Tables()).q, Tables().q;
        && (forall k :: k != key ==> (k in after <==> k in before) && (k in after ==> after[k] == before[k]))
        && key in after && after[key].updatedAt == now
        && (key !in before ==> after[key].q == reward)
        && (key in before && InRange(before[key].q) && InRange(reward) ==>
              after[key].q == before[key].q + 0.2 * (reward - before[key].q))
      ensures ok ==>
        var latch := Milestone(milestoneThreshold);
        var due := milestoneThreshold > 0 && qUpdatesTotal == milestoneThreshold && hasCallback && latchOk;
        var db := Rewarded(old(Tables()), state, action, reward, now);
        && Tables() == (if due then WithLatch(db, latch) else db)
        && forall k :: Count(media.fired, k) == Count(old(media.fired), k) +
                         (if due && k == latch && latch !in old(Tables()).latches then 1 else 0)
    {
      if closed || !sqlOk {
        return false;
      }
      Upsert(state, action, reward, now);
      qUpdatesTotal := qUpdatesTotal + 1;
      if reward > 0.0 {
        verifiedSuccesses := verifiedSuccesses + 1;
      } else if reward < 0.0 {
        verifiedFailures := verifiedFailures + 1;
      }
      if milestoneThreshold > 0 && qUpdatesTotal == milestoneThreshold && hasCallback {
        NotifyOnce(Milestone(milestoneThreshold), latchOk);
      }
      return true;
    }

    method Upsert(state: string, action: string, reward: real, now: int)
      requires Valid() && !closed
      modifies media`ram
      ensures Valid() && Tables() == Rewarded(old(Tables()), state, action, reward, now)
    {
      var key := QKey(state, action);
      var before := if key in media.ram.value.q then Some(media.ram.value.q[key].q) else None;
      media.ram := Some(media.ram.value.(q := media.ram.value.q[key := QCell(LearnQ(before, reward), now)]));
    }

    // The callback runs when the latch row is new.
    method NotifyOnce(latch: Latch, latchOk: bool)
      requires Valid() && !closed
      modifies media`ram, media`fired
      ensures Valid() && Tables() == if latchOk then WithLatch(old(Tables()), latch) else old(Tables())
      ensures forall k :: Count(media.fired, k) == Count(old(media.fired), k) +
                            (if latchOk && k == latch && latch !in old(Tables()).latches then 1 else 0)
    {
      var first := CheckAndSetMilestoneLatch(latch, latchOk);
      if first {
        media.fired := media.fired[latch := Count(media.fired, latch) + 1];
      }
    }

    method Close()
      requires Valid()
      modifies `closed
      ensures Valid() && closed
    {
      closed := true;
    }

    method SetMilestone(threshold: int, callback: bool)
      requires Valid()
      modifies `milestoneThreshold, `hasCallback
      ensures Valid() && milestoneThreshold == threshold && hasCallback == callback
    {
      milestoneThreshold, hasCallback := threshold, callback;
    }

    /** One row per state: the first sample is stored, later ones enter the capped mean of each feature
        and replace the flags. */
    method RecordStateSignature(name: string, sig: Signature, sqlOk: bool) returns (ok: bool)
      requires Valid()
      modifies media`ram
      ensures Valid() && ok == (name != "" && !closed && sqlOk)
      ensures !ok ==> media.ram == old(media.ram)
      ensures ok ==> Tables() == old(Tables()).(sigs := old(Tables()).sigs[name := Recorded(old(Tables()).sigs, name, sig)])
      ensures ok && name !in old(Tables()).sigs ==> Tables().sigs[name] == SigCell(sig, 1)
      ensures ok && name in old(Tables()).sigs ==> Joined(old(Tables()).sigs[name], sig, Tables().sigs[name])
    {
      if name == "" || closed || !sqlOk {
        return false;
      }
      var db := media.ram.value;
      if name in db.sigs {
        MergeJoins(db.sigs[name], sig);
      }
      media.ram := Some(db.(sigs := db.sigs[name := Recorded(db.sigs, name, sig)]));
      return true;
    }

    method SetInterpolationParams(threshold: real, decay: real)
      requires Valid()
      modifies `distanceThreshold, `decayLambda
      ensures Valid()
      ensures distanceThreshold == if 1.0 <= threshold <= 5.0 then threshold else 2.5
      ensures decayLambda == if 0.01 <= decay <= 1.0 then decay else 0.15
    {
      distanceThreshold := if threshold >= MIN_THRESHOLD && threshold <= MAX_THRESHOLD then threshold else DEFAULT_THRESHOLD;
      decayLambda := if decay >= MIN_LAMBDA && decay <= MAX_LAMBDA then decay else DEFAULT_LAMBDA;
    }

    /** Without interpolation: the best row of the state whatever its sign, else the default at 0. */
    method RecommendBestAction(state: string, defaultAction: string) returns (r: Recommendation)
      requires Valid()
      modifies `exactMatchCount, `fallbackDefaultCount, `calls
      ensures Valid() && r.closed == closed && calls == old(calls) + (if closed then 0 else 1)
      ensures !closed && HasRow(Tables().q, state) ==>
                IsBest(Tables().q, state, r.action, r.q) && exactMatchCount == old(exactMatchCount) + 1
      ensures !closed ==> forall k :: k in Tables().q && k.state == state ==> Tables().q[k].q <= r.q
      ensures !closed && !HasRow(Tables().q, state) ==>
                r.action == defaultAction && r.q == 0.0 && fallbackDefaultCount == old(fallbackDefaultCount) + 1
    {
      if closed {
        return Recommendation("", 0.0, state, false, true);
      }
      calls := calls + 1;
      var best := QueryBest(media.ram.value.q, state);
      match best
      case None =>
        fallbackDefaultCount := fallbackDefaultCount + 1;
        return Recommendation(defaultAction, 0.0, state, false, false);
      case Some(k) =>
        exactMatchCount := exactMatchCount + 1;
        return Recommendation(k.action, media.ram.value.q[k].q, state, false, false);
    }

    // The state's own rows, when it has any.
    method ExactMatch(state: string, defaultAction: string) returns (found: bool, r: Recommendation)
      requires Valid() && !closed
      modifies `exactMatchCount, `fallbackDefaultCount, `calls
      ensures Valid() && (found <==> HasRow(Tables().q, state))
      ensures !found ==> unchanged(this)
      ensures found ==>
        && calls == old(calls) + 1 && r.q >= 0.0 && !r.interpolated && !r.closed && r.matched == state
        && exactMatchCount == old(exactMatchCount) + (if AllNegative(Tables().q, state) then 0 else 1)
        && if AllNegative(Tables().q, state) then r == Recommendation(defaultAction, 0.0, state, false, false)
           else IsBest(Tables().q, state, r.action, r.q)
    {
      r := Recommendation(defaultAction, 0.0, state, false, false);
      var exact := QueryBest(media.ram.value.q, state);
      if exact.None? {
        return false, r;
      }
      calls := calls + 1;
      var q := media.ram.value.q[exact.value].q;
      if q < 0.0 {
        fallbackDefaultCount := fallbackDefaultCount + 1;
        return true, r;
      }
      exactMatchCount := exactMatchCount + 1;
      return true, Recommendation(exact.value.action, q, state, false, false);
    }

    /** On an open store: Q is never negative; the state's own rows decide whenever there are any, by
        the best of them if it is not negative; otherwise a nearest known state lends its best action,
        at a value between Q * exp(-decay * threshold) and Q; otherwise the default at 0.  Each call
        raises exactly one of the three counters. */
    method RecommendWithInterpolation(root: real -> real, exp: real -> real, state: string, sig: Option<Signature>,
                                      defaultAction: string) returns (r: Recommendation)
      requires Valid() && IsSqrt(root) && IsExp(exp)
      modifies `exactMatchCount, `interpolationsTotal, `fallbackDefaultCount, `calls
      ensures Valid() && r.closed == closed && calls == old(calls) + (if closed then 0 else 1)
      ensures r.q >= 0.0
      ensures closed ==> r == Recommendation(defaultAction, 0.0, state, false, true)
      ensures !closed && HasRow(Tables().q, state) ==>
        && !r.interpolated && r.matched == state
        && if AllNegative(Tables().q, state) then r == Recommendation(defaultAction, 0.0, state, false, false)
           else IsBest(Tables().q, state, r.action, r.q)
      ensures !closed && !r.interpolated ==> forall k :: k in Tables().q && k.state == state ==> Tables().q[k].q <= r.q
      ensures interpolationsTotal == old(interpolationsTotal) + (if r.interpolated then 1 else 0)
      ensures exactMatchCount == old(exactMatchCount) +
                (if !closed && HasRow(Tables().q, state) && !AllNegative(Tables().q, state) then 1 else 0)
      ensures r.interpolated ==>
                !HasRow(Tables().q, state) && IsLent(root, exp, Tables(), sig, distanceThreshold, decayLambda, r)
      ensures !closed && !HasRow(Tables().q, state) && !r.interpolated ==>
        r == Recommendation(defaultAction, 0.0, state, false, false) && NoLender(root, Tables(), sig, distanceThreshold)
    {
      if closed {
        return Recommendation(defaultAction, 0.0, state, false, true);
      }
      var found;
      found, r := ExactMatch(state, defaultAction);
      if found {
        return;
      }
      calls := calls + 1;
      r := Interpolate(root, exp, media.ram.value, sig, distanceThreshold, decayLambda, state, defaultAction);
      if r.interpolated {
        interpolationsTotal := interpolationsTotal + 1;
      } else {
        fallbackDefaultCount := fallbackDefaultCount + 1;
      }
    }
  }

  // q is nq discounted by exp(-decay * d), hence between its value at the threshold and nq itself.
  ghost predicate Discounted(exp: real -> real, nq: real, decay: real, d: real, threshold: real, q: real) {
    q == nq * exp(-decay * d) && 0.0 <= nq * exp(-decay * threshold) <= q <= nq
  }

  // r is the best row of a nearest state within the threshold, not negative, discounted by its distance.
  ghost predicate IsLent(root: real -> real, exp: real -> real, db: Db, sig: Option<Signature>,
                         threshold: real, decay: real, r: Recommendation)
  {
    var k := QKey(r.matched, r.action);
    && sig.Some? && IsNearestState(root, db.sigs, sig.value, r.matched, threshold)
    && k in db.q && IsBest(db.q, r.matched, r.action, db.q[k].q)
    && Discounted(exp, db.q[k].q, decay, Distance(root, sig.value, db.sigs[r.matched].sig), threshold, r.q)
  }

  // No signature to go by, none within the threshold, or a nearest state without a row to lend.
  ghost predicate NoLender(root: real -> real, db: Db, sig: Option<Signature>, threshold: real) {
    sig.Some? && SomeWithin(root, db.sigs, sig.value, threshold) ==>
      exists n :: IsNearestState(root, db.sigs, sig.value, n, threshold) && AllNegative(db.q, n)
  }

  // The part of the recommendation for a state without rows.
  method Interpolate(root: real -> real, exp: real -> real, db: Db, sig: Option<Signature>,
                     threshold: real, decay: real, state: string, defaultAction: string) returns (r: Recommendation)
    requires NamesPresent(db) && IsSqrt(root) && IsExp(exp) && threshold <= 5.0 && decay >= 0.0
    ensures r.q >= 0.0 && !r.closed
    ensures r.interpolated ==> IsLent(root, exp, db, sig, threshold, decay, r)
    ensures !r.interpolated ==> r == Recommendation(defaultAction, 0.0, state, false, false)
    ensures !r.interpolated ==> NoLender(root, db, sig, threshold)
  {
    r := Recommendation(defaultAction, 0.0, state, false, false);
    if sig.None? {
      return;
    }
    var nearest, dist, found := FindNearest(root, db.sigs, sig.value, threshold);
    if !found {
      return;
    }
    var best := QueryBest(db.q, nearest);
    if best.Some? && db.q[best.value].q >= 0.0 {
      var q := db.q[best.value].q;
      Nonnegative(sig.value, db.sigs[nearest].sig);
      DecayBounds(exp, q, decay, dist, threshold);
      return Recommendation(best.value.action, q * exp(-decay * dist), nearest, true, false);
    }
    assert AllNegative(db.q, nearest);
  }

  function Merge(cell: SigCell, sig: Signature): SigCell
    requires cell.count >= 0
  {
    SigCell(
      Signature(NextAverage(cell.sig.ramPct, cell.count, sig.ramPct),
                NextAverage(cell.sig.latencyMs, cell.count, sig.latencyMs),
                NextAverage(cell.sig.cpuPct, cell.count, sig.cpuPct),
                NextAverage(cell.sig.tempC, cell.count, sig.tempC),
                sig.wanOffline, sig.wifiDown),
      NextCount(cell.count))
  }

  // A sample has entered a row of `before.count` samples, of which at most 499 keep their weight.
  ghost predicate Joined(before: SigCell, sig: Signature, after: SigCell) {
    var n := if before.count < 499 then before.count as real else 499.0;
    && after.sig.ramPct * (n + 1.0) == before.sig.ramPct * n + sig.ramPct
    && after.sig.latencyMs * (n + 1.0) == before.sig.latencyMs * n + sig.latencyMs
    && after.sig.cpuPct * (n + 1.0) == before.sig.cpuPct * n + sig.cpuPct
    && after.sig.tempC * (n + 1.0) == before.sig.tempC * n + sig.tempC
    && after.sig.wanOffline == sig.wanOffline && after.sig.wifiDown == sig.wifiDown
    && after.count == if before.count < 500 then before.count + 1 else 500
  }

  lemma MergeJoins(cell: SigCell, sig: Signature)
    requires cell.count >= 0
    ensures Joined(cell, sig, Merge(cell, sig))
  {
    MergedMeans(cell.sig.ramPct, cell.count, sig.ramPct);
    MergedMeans(cell.sig.latencyMs, cell.count, sig.latencyMs);
    MergedMeans(cell.sig.cpuPct, cell.count, sig.cpuPct);
    MergedMeans(cell.sig.tempC, cell.count, sig.tempC);
  }

  lemma MergedMeans(mean: real, count: int, x: real)
    requires count >= 0
    ensures
      var n := if count < 499 then count as real else 499.0;
      NextAverage(mean, count, x) * (n + 1.0) == mean * n + x
  {
    var n := if count < 499 then count as real else 499.0;
    assert NextAverage(mean, count, x) == Merged(mean, n, x);
    Undivide(mean * n + x, n + 1.0);
  }

  function Recorded(sigs: map<string, SigCell>, name: string, sig: Signature): SigCell
    requires name in sigs ==> sigs[name].count >= 0
  {
    if name in sigs then Merge(sigs[name], sig) else SigCell(sig, 1)
  }

  // A row after further samples, newest last.
  function RowAfter(cell: SigCell, samples: seq<Signature>): (r: SigCell)
    requires cell.count >= 1
    ensures r.count >= 1
  {
    if samples == [] then cell else Merge(RowAfter(cell, samples[..|samples| - 1]), samples[|samples| - 1])
  }

  function RamOf(s: Signature): real { s.ramPct }
  function LatencyOf(s: Signature): real { s.latencyMs }
  function CpuOf(s: Signature): real { s.cpuPct }
  function TempOf(s: Signature): real { s.tempC }

  function Feature(samples: seq<Signature>, f: Signature -> real): seq<real> {
    seq(|samples|, i requires 0 <= i < |samples| => f(samples[i]))
  }

  // A feature whose value in a merged row is the next capped mean.
  ghost predicate Averages(f: Signature -> real) {
    forall cell: SigCell, sig :: cell.count >= 0 ==> f(Merge(cell, sig).sig) == NextAverage(f(cell.sig), cell.count, f(sig))
  }

  ghost predicate RunsAsMean(cell: SigCell, samples: seq<Signature>, f: Signature -> real)
    requires cell.count >= 1
  {
    var r := RowAfter(cell, samples);
    Average(f(r.sig), r.count) == Averaged(Average(f(cell.sig), cell.count), Feature(samples, f))
  }

  lemma {:induction false} OneFeature(cell: SigCell, samples: seq<Signature>, f: Signature -> real)
    requires cell.count >= 1 && Averages(f)
    ensures RunsAsMean(cell, samples, f)
  {
    if samples != [] {
      var n := |samples| - 1;
      OneFeature(cell, samples[..n], f);
      assert Feature(samples, f)[..n] == Feature(samples[..n], f);
      var before := RowAfter(cell, samples[..n]);
      assert f(Merge(before, samples[n]).sig) == NextAverage(f(before.sig), before.count, f(samples[n]));
    }
  }

  /** Each numeric feature of a row runs as a capped mean of its own; the flags are those of the last
      sample. */
  lemma RowFeatures(cell: SigCell, samples: seq<Signature>)
    requires cell.count >= 1
    ensures RunsAsMean(cell, samples, RamOf) && RunsAsMean(cell, samples, LatencyOf)
    ensures RunsAsMean(cell, samples, CpuOf) && RunsAsMean(cell, samples, TempOf)
    ensures samples != [] ==>
      var r, last := RowAfter(cell, samples), samples[|samples| - 1];
      r.sig.wanOffline == last.wanOffline && r.sig.wifiDown == last.wifiDown
  {
    OneFeature(cell, samples, RamOf);
    OneFeature(cell, samples, LatencyOf);
    OneFeature(cell, samples, CpuOf);
    OneFeature(cell, samples, TempOf);
  }

  lemma SeededNames(db: Db, now: int)
    requires NamesPresent(db)
    ensures NamesPresent(Seeded(db, now))
  {
    forall n | n in SEED_SIGS + db.sigs
      ensures n != "" && (SEED_SIGS + db.sigs)[n].count >= 1
    {}
  }

  lemma DecayBounds(exp: real -> real, q: real, decay: real, d: real, threshold: real)
    requires IsExp(exp) && q >= 0.0 && decay >= 0.0 && 0.0 <= d <= threshold
    ensures Discounted(exp, q, decay, d, threshold, q * exp(-decay * d))
  {
    var p := ProductNonnegative(decay, d);
    var s := ProductNonnegative(decay, threshold - d);
    Exponents(decay, d, threshold);
    var x, y := exp(-decay * d), exp(-decay * threshold);
    assert y <= x && x <= exp(0.0);
    var _ := ProductNonnegative(q, y);
    var u := ProductNonnegative(q, x - y);
    var v := ProductNonnegative(q, 1.0 - x);
    assert u == q * x - q * y && v == q - q * x;
  }

  lemma Exponents(decay: real, d: real, t: real)
    ensures -decay * d == -(decay * d) && -decay * t == -(decay * d) - decay * (t - d)
  {}

  /** After a power loss the reopened store is the last completed flush (which has the seed rows, unless
      it predates them), or a new one when the copy to RAM fails. */
  method ReopenAfterPowerLoss(media: Media, copyOk: bool, now: int) returns (s: SkillStore)
    requires media.Valid()
    modifies media
    ensures s.Valid() && s.media == media && media.losses == old(media.losses) + 1
    ensures
      var flushed := if copyOk && old(media.lastFlush).Some? then old(media.lastFlush).value else EMPTY_DB;
      s.Tables() == Seeded(flushed, now) && (HasSeeds(flushed) ==> s.Tables() == flushed)
  {
    media.PowerLoss();
    if media.lastFlush.Some? && HasSeeds(media.lastFlush.value) {
      SeedingIsIdle(media.lastFlush.value, now);
    }
    NewHasNoSeeds();
    s := new SkillStore.NewHybrid(media, copyOk, now);
  }

  lemma NewHasNoSeeds()
    ensures !HasSeeds(EMPTY_DB)
  {
    assert "WAN_DROP" in SEED_SIGS.Keys;
  }

  /** After a mere restart of the process it is the RAM database. */
  method ReopenAfterRestart(media: Media, copyOk: bool, now: int) returns (s: SkillStore)
    requires media.Valid() && media.ram.Some?
    modifies media
    ensures s.Valid() && s.media == media && s.Tables() == old(media.ram).value
    ensures media.losses == old(media.losses) && media.fired == old(media.fired)
  {
    SeedingIsIdle(media.ram.value, now);
    s := new SkillStore.NewHybrid(media, copyOk, now);
  }
}
