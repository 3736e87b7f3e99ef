/** Runs of updates on the tables of go-agent/skillstore/store.go: each row is what the learning laws make of
    exactly the rewards, or samples, addressed to it. */
module TableRuns {
  import opened Wrappers
  import opened Store = SkillStore
  import opened StateDistance
  import opened Learning

  datatype Reward = Reward(state: string, action: string, value: real, at: int)

  function KeyOf(r: Reward): QKey { QKey(r.state, r.action) }

  function RewardAll(db: Db, rs: seq<Reward>): Db {
    if rs == [] then db
    else
      var last := rs[|rs| - 1];
      Rewarded(RewardAll(db, rs[..|rs| - 1]), last.state, last.action, last.value, last.at)
  }

  // The rewards addressed to one row, in order.
  function To(rs: seq<Reward>, key: QKey): seq<Reward> {
    if rs == [] then []
    else To(rs[..|rs| - 1], key) + (if KeyOf(rs[|rs| - 1]) == key then [rs[|rs| - 1]] else [])
  }

  function Values(rs: seq<Reward>): (vs: seq<real>)
    ensures |vs| == |rs|
  {
    seq(|rs|, i requires 0 <= i < |rs| => rs[i].value)
  }

  // The value of a row, and of a row that is not there yet, after these rewards.
  function Learned(start: Option<real>, values: seq<real>): Option<real> {
    if values == [] then start else Some(LearnQ(Learned(start, values[..|values| - 1]), values[|values| - 1]))
  }

  /** A new row is what the rewards make of it from the first, which is stored as it is; a row that was there
      goes on as if its value had been the first. */
  lemma {:induction false} LearnedIsQAfter(start: Option<real>, values: seq<real>)
    requires start.Some? || values != []
    ensures Learned(start, values) == Some(QAfter(if start.Some? then [start.value] + values else values))
  {
    var n := |values| - 1;
    if start.Some? {
      if values == [] {
        assert [start.value] + values == [start.value];
      } else {
        LearnedIsQAfter(start, values[..n]);
        assert ([start.value] + values)[..n + 1] == [start.value] + values[..n];
      }
    } else if n > 0 {
      LearnedIsQAfter(start, values[..n]);
    }
  }

  function Old(db: Db, key: QKey): Option<real> { if key in db.q then Some(db.q[key].q) else None }

  /** After any list of updates a row is what the learning law makes of exactly the rewards addressed to it, in
      their order, from the row that was there; it bears the time of the last of them.  A row that none is
      addressed to is unchanged, and so are the other tables. */
  lemma {:induction false} RowsLearn(db: Db, rs: seq<Reward>, key: QKey)
    ensures
      var after, mine := RewardAll(db, rs), To(rs, key);
      && after.sigs == db.sigs && after.latches == db.latches
      && Old(after, key) == Learned(Old(db, key), Values(mine))
      && (mine != [] ==> after.q[key].updatedAt == mine[|mine| - 1].at)
      && (mine == [] ==> (key in after.q <==> key in db.q) && (key in db.q ==> after.q[key] == db.q[key]))
  {
    if rs != [] {
      var n := |rs| - 1;
      RowsLearn(db, rs[..n], key);
      RewardedRow(RewardAll(db, rs[..n]), rs[n], key);
      LearnedSnoc(Old(db, key), To(rs[..n], key), rs[n]);
      assert To(rs[..n], key) + [] == To(rs[..n], key);
    }
  }

  lemma LearnedSnoc(start: Option<real>, rs: seq<Reward>, r: Reward)
    ensures Learned(start, Values(rs + [r])) == Some(LearnQ(Learned(start, Values(rs)), r.value))
  {
    var values := Values(rs + [r]);
    assert values[..|rs|] == Values(rs);
  }

  lemma RewardedRow(db: Db, r: Reward, key: QKey)
    ensures
      var after := Rewarded(db, r.state, r.action, r.value, r.at);
      && after.sigs == db.sigs && after.latches == db.latches
      && (KeyOf(r) == key ==> Old(after, key) == Some(LearnQ(Old(db, key), r.value)) && after.q[key].updatedAt == r.at)
      && (KeyOf(r) != key ==> (key in after.q <==> key in db.q) && (key in db.q ==> after.q[key] == db.q[key]))
  {}

  /** The store object, updated with any list of rewards while it is open, holds exactly these tables, whatever
      the milestone does meanwhile. */
  method UpdateAll(s: SkillStore, rs: seq<Reward>, latchOk: bool)
    requires s.Valid() && !s.closed
    modifies s, s.media`ram, s.media`fired
    ensures s.Valid() && !s.closed && s.qUpdatesTotal == old(s.qUpdatesTotal) + |rs|
    ensures s.Tables().q == RewardAll(old(s.Tables()), rs).q && s.Tables().sigs == old(s.Tables().sigs)
  {
    for k := 0 to |rs|
      invariant s.Valid() && !s.closed && s.qUpdatesTotal == old(s.qUpdatesTotal) + k
      invariant s.Tables().q == RewardAll(old(s.Tables()), rs[..k]).q && s.Tables().sigs == old(s.Tables().sigs)
    {
      var r := rs[k];
      assert rs[..k + 1][..k] == rs[..k];
      var ok := s.UpdateQValue(r.state, r.action, r.value, r.at, true, latchOk);
    }
    assert rs[..|rs|] == rs;
  }

  // ---------------------------------------------------------------------------------------------
  // Signatures.

  datatype Sample = Sample(name: string, sig: Signature)

  predicate Counted(sigs: map<string, SigCell>) { forall n :: n in sigs ==> sigs[n].count >= 1 }

  function RecordAll(sigs: map<string, SigCell>, samples: seq<Sample>): (after: map<string, SigCell>)
    requires Counted(sigs)
    ensures Counted(after)
  {
    if samples == [] then sigs
    else
      var before, last := RecordAll(sigs, samples[..|samples| - 1]), samples[|samples| - 1];
      before[last.name := Recorded(before, last.name, last.sig)]
  }

  function Of(samples: seq<Sample>, name: string): seq<Signature> {
    if samples == [] then []
    else Of(samples[..|samples| - 1], name) + (if samples[|samples| - 1].name == name then [samples[|samples| - 1].sig] else [])
  }

  // A row, and one that is not there yet, after these samples.
  function Sampled(start: Option<SigCell>, sigs: seq<Signature>): Option<SigCell>
    requires start.Some? ==> start.value.count >= 1
  {
    if start.Some? then Some(RowAfter(start.value, sigs))
    else if sigs == [] then None
    else Some(RowAfter(SigCell(sigs[0], 1), sigs[1..]))
  }

  function Row(sigs: map<string, SigCell>, name: string): Option<SigCell> { if name in sigs then Some(sigs[name]) else None }

  lemma SampledSnoc(start: Option<SigCell>, sigs: seq<Signature>, sig: Signature)
    requires start.Some? ==> start.value.count >= 1
    ensures Sampled(start, sigs + [sig]) ==
            if Sampled(start, sigs).None? then Some(SigCell(sig, 1)) else Some(Merge(Sampled(start, sigs).value, sig))
  {
    assert (sigs + [sig])[..|sigs|] == sigs;
    if start.None? && sigs != [] {
      var rest := (sigs + [sig])[1..];
      assert rest[..|rest| - 1] == sigs[1..];
    }
  }

  lemma RecordedRow(sigs: map<string, SigCell>, s: Sample, name: string)
    requires Counted(sigs)
    ensures
      var after := sigs[s.name := Recorded(sigs, s.name, s.sig)];
      Row(after, name) == if s.name != name then Row(sigs, name)
                          else if Row(sigs, name).None? then Some(SigCell(s.sig, 1)) else Some(Merge(Row(sigs, name).value, s.sig))
  {}

  /** After any list of samples a row has taken exactly those of its name, in their order: the first of a new
      row is stored with count 1, all others are merged into the running means. */
  lemma {:induction false} RowsSample(sigs: map<string, SigCell>, samples: seq<Sample>, name: string)
    requires Counted(sigs)
    ensures Row(RecordAll(sigs, samples), name) == Sampled(Row(sigs, name), Of(samples, name))
  {
    if samples != [] {
      var n := |samples| - 1;
      RowsSample(sigs, samples[..n], name);
      RecordedRow(RecordAll(sigs, samples[..n]), samples[n], name);
      SampledSnoc(Row(sigs, name), Of(samples[..n], name), samples[n].sig);
      assert Of(samples[..n], name) + [] == Of(samples[..n], name);
    }
  }

  /** The store object, given any list of named samples while it is open, holds exactly these rows. */
  method RecordSamples(s: SkillStore, samples: seq<Sample>)
    requires s.Valid() && !s.closed && forall i :: 0 <= i < |samples| ==> samples[i].name != ""
    modifies s.media`ram
    ensures s.Valid() && Counted(old(s.Tables().sigs))
    ensures s.Tables() == old(s.Tables()).(sigs := RecordAll(old(s.Tables().sigs), samples))
  {
    assert Counted(s.Tables().sigs);
    for k := 0 to |samples|
      invariant s.Valid()
      invariant s.Tables() == old(s.Tables()).(sigs := RecordAll(old(s.Tables().sigs), samples[..k]))
    {
      assert samples[..k + 1][..k] == samples[..k];
      var ok := s.RecordStateSignature(samples[k].name, samples[k].sig, true);
    }
    assert samples[..|samples|] == samples;
  }

  // ---------------------------------------------------------------------------------------------
  // A new store.

  lemma OneSeedPerState(now: int, j: QKey, k: QKey)
    requires j in SeedQ(now) && k in SeedQ(now) && j.state == k.state
    ensures j == k
  {}

  lemma SeedIsBest(now: int, k: QKey)
    requires k in SeedQ(now)
    ensures IsBest(Seeded(EMPTY_DB, now).q, k.state, k.action, SeedQ(now)[k].q)
  {
    assert SeedQ(now) + map[] == SeedQ(now) && QKey(k.state, k.action) == k;
    forall j | j in SeedQ(now) && j.state == k.state
      ensures j == k
    {
      OneSeedPerState(now, j, k);
    }
  }

  /** What a store recommends before it has learned anything. */
  lemma NewStoreKnows(now: int)
    ensures
      var q := Seeded(EMPTY_DB, now).q;
      && IsBest(q, "WAN_DROP", "restart_wan_interface", 0.5)
      && IsBest(q, "MEMORY_EXHAUSTION", "purge_memory_cache", 0.6)
      && IsBest(q, "WIFI_FAILURE", "optimize_wifi_channel", 0.5)
      && IsBest(q, "LATENCY_SPIKE", "restart_interface", 0.5)
      && IsBest(q, "BUFFERBLOAT_SPIKE", "enable_cake_sqm", 0.6)
      && IsBest(q, "REPEATER_SIGNAL_WEAK", "scale_tx_power_down", 0.5)
      && IsBest(q, "REPEATER_CHANNEL_CONGESTED", "align_channels", 0.5)
  {
    SeedIsBest(now, QKey("WAN_DROP", "restart_wan_interface"));
    SeedIsBest(now, QKey("MEMORY_EXHAUSTION", "purge_memory_cache"));
    SeedIsBest(now, QKey("WIFI_FAILURE", "optimize_wifi_channel"));
    SeedIsBest(now, QKey("LATENCY_SPIKE", "restart_interface"));
    SeedIsBest(now, QKey("BUFFERBLOAT_SPIKE", "enable_cake_sqm"));
    SeedIsBest(now, QKey("REPEATER_SIGNAL_WEAK", "scale_tx_power_down"));
    SeedIsBest(now, QKey("REPEATER_CHANNEL_CONGESTED", "align_channels"));
  }
}
