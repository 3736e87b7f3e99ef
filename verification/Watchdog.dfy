/** The checkpoint file and safe mode of go-agent/watchdog/watchdog.go, together with the raw UCI
    export that go-agent/cmd/main.go writes to the same path.  A crash is an operation that stops
    part way and is followed by `New` on the same device. */
module Watchdog {
  type Config = map<string, string>

  datatype Checkpoint = Checkpoint(safeMode: bool, checks: int, snapshot: Config)

  // What a file may hold.  A torn or foreign file is Garbage; `sealed` says the checksum matches.
  datatype File = Absent | Garbage | Json(cp: Checkpoint, sealed: bool) | RawUci(config: Config)

  const DEFAULTS: Config := map[
    "network.wan.proto" := "dhcp",
    "wireless.MT7993_1_2.disabled" := "0",
    "wireless.MT7993_1_1.disabled" := "0"]

  predicate CountersOk(safeMode: bool, checks: int) {
    0 <= checks <= 4 && (!safeMode ==> checks == 0)
  }

  // A sealed checkpoint was written by this program.
  predicate FileOk(f: File) {
    f.Json? && f.sealed ==> CountersOk(f.cp.safeMode, f.cp.checks)
  }

  // Where a checkpoint save stops: writing the temporary file, before the rename, or not at all.
  datatype SaveEnd = TornTmp | BeforeRename | Saved

  // Where a raw export stops: the target is truncated first, then streamed into.
  datatype ExportEnd = NotOpened | Truncated | Exported

  datatype Restored = FromSnapshot | FromImport | FromDefaults

  class Device {
    var main: File
    var tmp: File
    var live: Config     // the router's configuration

    ghost predicate Valid()
      reads this
    {
      FileOk(main)
    }

    constructor (main: File, live: Config)
      requires FileOk(main)
      ensures Valid() && this.main == main && this.live == live
    {
      this.main, tmp, this.live := main, Absent, live;
    }

    // saveUCICheckpoint in main.go
    method ExportUci(end: ExportEnd)
      requires Valid()
      modifies `main
      ensures Valid()
      ensures main == match end case NotOpened => old(main) case Truncated => Garbage case Exported => RawUci(live)
    {
      if end == NotOpened {
        return;
      }
      main := Garbage;
      if end == Exported {
        main := RawUci(live);
      }
    }

    /** Restores from whatever the file holds: a JSON snapshot entry by entry (its checksum is not looked
        at), anything else by import, or else the fail-safe defaults.  `debris` is what an import that
        succeeds makes of a file that is no complete export. */
    method Restore(importOk: bool, debris: Config) returns (how: Restored)
      modifies `live
      ensures how == RestoreKind(main, importOk)
      ensures live == RestoredConfig(main, old(live), importOk, debris)
      ensures how == FromDefaults ==>
        && live.Keys == old(live).Keys + {"network.wan.proto", "wireless.MT7993_1_2.disabled", "wireless.MT7993_1_1.disabled"}
        && live["network.wan.proto"] == "dhcp"
        && live["wireless.MT7993_1_2.disabled"] == "0" && live["wireless.MT7993_1_1.disabled"] == "0"
    {
      how := FromDefaults;
      if main.Json? && main.cp.snapshot != map[] {
        live := live + (main.cp.snapshot - {""});
        how := FromSnapshot;
      } else if main != Absent && importOk {
        live := if main.RawUci? then main.config else debris;
        how := FromImport;
      }
      if how == FromDefaults {
        live := live + DEFAULTS;
      }
    }

    // saveCheckpointWithConfig: a temporary file, then an atomic rename.
    method WriteCheckpoint(cp: Checkpoint, end: SaveEnd) returns (ok: bool)
      requires Valid() && CountersOk(cp.safeMode, cp.checks)
      modifies `main, `tmp
      ensures Valid() && ok == (end == Saved)
      ensures main == if ok then Json(cp, true) else old(main)
    {
      tmp := Garbage;
      if end == TornTmp {
        return false;
      }
      tmp := Json(cp, true);
      if end == BeforeRename {
        return false;
      }
      main, tmp := tmp, Absent;
      return true;
    }
  }

  // ---------------------------------------------------------------------------------------------
  // Safe mode as a state machine.

  datatype Mode = Mode(safe: bool, checks: int)

  function HealthStep(m: Mode): Mode {
    if !m.safe then m
    else if m.checks + 1 >= 5 then Mode(false, 0)
    else Mode(true, m.checks + 1)
  }

  class Watchdog {
    const device: Device
    var safeModeActive: bool
    var successfulChecks: int
    var suspended: bool

    ghost predicate Valid()
      reads this, device
    {
      CountersOk(safeModeActive, successfulChecks) && device.Valid()
    }

    function Current(): Mode
      reads this
    {
      Mode(safeModeActive, successfulChecks)
    }

    /** A start sees one complete, sealed checkpoint, or goes into safe mode. */
    constructor (device: Device)
      requires device.Valid()
      ensures Valid() && this.device == device && !suspended
      ensures Current() == if Loads(device.main) then Mode(device.main.cp.safeMode, device.main.cp.checks) else Mode(true, 0)
    {
      this.device, safeModeActive, successfulChecks, suspended := device, false, 0, false;
      new;
      var ok := LoadAndVerifyCheckpoint();
      if !ok {
        safeModeActive := true;
      }
    }

    method LoadAndVerifyCheckpoint() returns (ok: bool)
      requires Valid()
      modifies `safeModeActive, `successfulChecks
      ensures Valid() && ok == Loads(device.main)
      ensures Current() == if ok then Mode(device.main.cp.safeMode, device.main.cp.checks) else old(Current())
    {
      if !device.main.Json? || !device.main.sealed {
        return false;
      }
      safeModeActive, successfulChecks := device.main.cp.safeMode, device.main.cp.checks;
      return true;
    }

    method Suspend()
      requires Valid()
      modifies `suspended
      ensures Valid() && suspended
    {
      suspended := true;
    }

    method Resume()
      requires Valid()
      modifies `suspended
      ensures Valid() && !suspended
    {
      suspended := false;
    }

    // A suspended watchdog reports no safe mode.
    method IsSafeMode() returns (b: bool)
      requires Valid()
      ensures b <==> safeModeActive && !suspended
    {
      if suspended {
        return false;
      }
      return safeModeActive;
    }

    /** Counts a success in safe mode; the fifth leaves it and saves that, whatever comes of the save. */
    method RecordHealthCheckSuccess(end: SaveEnd) returns (exited: bool)
      requires Valid()
      modifies `safeModeActive, `successfulChecks, device`main, device`tmp
      ensures Valid() && Current() == HealthStep(old(Current()))
      ensures exited <==> old(safeModeActive) && !safeModeActive
      ensures device.main == if exited && end == Saved then Json(Checkpoint(false, 0, DEFAULTS), true) else old(device.main)
    {
      if !safeModeActive {
        return false;
      }
      if successfulChecks + 1 >= 5 {
        safeModeActive, successfulChecks := false, 0;
        var _ := device.WriteCheckpoint(Checkpoint(safeModeActive, successfulChecks, DEFAULTS), end);
        return true;
      }
      successfulChecks := successfulChecks + 1;
      return false;
    }

    method SaveCheckpoint(config: Config, end: SaveEnd) returns (ok: bool)
      requires Valid()
      modifies device`main, device`tmp
      ensures Valid() && ok == (end == Saved)
      ensures device.main == if ok then Json(Checkpoint(safeModeActive, successfulChecks, config), true) else old(device.main)
    {
      ok := device.WriteCheckpoint(Checkpoint(safeModeActive, successfulChecks, config), end);
    }

    /** Restores the configuration, then enters safe mode and saves that, whatever comes of the save. */
    method ExecuteRollback(importOk: bool, debris: Config, end: SaveEnd) returns (how: Restored)
      requires Valid()
      modifies `safeModeActive, `successfulChecks, device
      ensures Valid() && Current() == Mode(true, 0)
      ensures how == RestoreKind(old(device.main), importOk)
      ensures device.live == RestoredConfig(old(device.main), old(device.live), importOk, debris)
      ensures device.main == if end == Saved then AFTER_ROLLBACK else old(device.main)
    {
      how := device.Restore(importOk, debris);
      safeModeActive, successfulChecks := true, 0;
      var _ := device.WriteCheckpoint(Checkpoint(true, 0, DEFAULTS), end);
    }
  }

  predicate Loads(f: File) { f.Json? && f.sealed }

  function RestoreKind(f: File, importOk: bool): Restored {
    if f.Json? && f.cp.snapshot != map[] then FromSnapshot
    else if f != Absent && importOk then FromImport
    else FromDefaults
  }

  function RestoredConfig(f: File, live: Config, importOk: bool, debris: Config): Config {
    match RestoreKind(f, importOk)
    case FromSnapshot => live + (f.cp.snapshot - {""})
    case FromImport => if f.RawUci? then f.config else debris
    case FromDefaults => live + DEFAULTS
  }

  // ---------------------------------------------------------------------------------------------
  // Runs: a restart may come at any moment.

  // Export carries the configuration that is live at that moment.
  datatype Op =
    | Health(end: SaveEnd) | Rollback(end: SaveEnd) | Restart
    | Save(config: Config, end: SaveEnd) | Export(live: Config, how: ExportEnd)

  datatype System = System(mode: Mode, file: File)

  // A rollback whose checkpoint was saved.
  const AFTER_ROLLBACK := Json(Checkpoint(true, 0, DEFAULTS), true)
  const ROLLED_BACK := System(Mode(true, 0), AFTER_ROLLBACK)

  function Next(s: System, op: Op): System {
    match op
    case Health(end) =>
      var m := HealthStep(s.mode);
      System(m, if s.mode.safe && !m.safe && end == Saved then Json(Checkpoint(false, 0, DEFAULTS), true) else s.file)
    case Rollback(end) => System(Mode(true, 0), if end == Saved then AFTER_ROLLBACK else s.file)
    case Save(config, end) =>
      System(s.mode, if end == Saved then Json(Checkpoint(s.mode.safe, s.mode.checks, config), true) else s.file)
    case Export(live, how) =>
      System(s.mode, match how case NotOpened => s.file case Truncated => Garbage case Exported => RawUci(live))
    case Restart =>
      System(if Loads(s.file) then Mode(s.file.cp.safeMode, s.file.cp.checks) else Mode(true, 0), s.file)
  }

  function Run(start: System, ops: seq<Op>): System {
    if ops == [] then start else Next(Run(start, ops[..|ops| - 1]), ops[|ops| - 1])
  }

  // Successes recorded since the latest rollback or restart.
  function Successes(ops: seq<Op>): nat {
    if ops == [] then 0
    else
      match ops[|ops| - 1]
      case Health(_) => Successes(ops[..|ops| - 1]) + 1
      case Rollback(_) => 0
      case Restart => 0
      case _ => Successes(ops[..|ops| - 1])
  }

  // Some stretch without rollback or restart recorded five successes.
  predicate FiveInARow(ops: seq<Op>) {
    ops != [] && (Successes(ops) >= 5 || FiveInARow(ops[..|ops| - 1]))
  }

  /** One operation on the objects is one step of the state machine. */
  method Perform(w: Watchdog, op: Op, importOk: bool, debris: Config) returns (next: Watchdog)
    requires w.Valid() && (op.Export? ==> op.live == w.device.live)
    modifies w, w.device
    ensures next.Valid() && next.device == w.device
    ensures System(next.Current(), next.device.main) == Next(System(old(w.Current()), old(w.device.main)), op)
  {
    next := w;
    match op {
      case Health(end) => var _ := w.RecordHealthCheckSuccess(end);
      case Rollback(end) => var _ := w.ExecuteRollback(importOk, debris, end);
      case Restart => next := new Watchdog(w.device);
      case Save(config, end) => var _ := w.SaveCheckpoint(config, end);
      case Export(_, how) => w.device.ExportUci(how);
    }
  }

  /** However often the router restarts after a rollback, it stays in safe mode until five successes
      come without a restart or rollback among them; the counter is the current streak.  Raw exports may
      come at any time, other saves may not. */
  lemma {:induction false} SafeUntilFiveInARow(ops: seq<Op>)
    requires !FiveInARow(ops) && forall op :: op in ops ==> !op.Save?
    ensures Run(ROLLED_BACK, ops).mode == Mode(true, Successes(ops))
    ensures Loads(Run(ROLLED_BACK, ops).file) ==> Run(ROLLED_BACK, ops).file == AFTER_ROLLBACK
  {
    if ops != [] {
      SafeUntilFiveInARow(ops[..|ops| - 1]);
    }
  }

  /** The fifth success in a row does end it, and only a lost save lets a restart bring it back. */
  lemma FifthSuccessEndsSafeMode(ops: seq<Op>, end: SaveEnd)
    requires !FiveInARow(ops) && Successes(ops) == 4 && forall op :: op in ops ==> !op.Save?
    ensures Run(ROLLED_BACK, ops + [Health(end)]).mode == Mode(false, 0)
    ensures Run(ROLLED_BACK, ops + [Health(end), Restart]).mode == Mode(end != Saved, 0)
  {
    SafeUntilFiveInARow(ops);
    assert (ops + [Health(end)])[..|ops|] == ops;
    assert (ops + [Health(end), Restart])[..|ops| + 1] == ops + [Health(end)];
  }

  /** Without restarts the answer is exact: safe mode is on if and only if fewer than five successes
      have been recorded since the latest rollback. */
  lemma {:induction false} FiveSuccessesEndSafeMode(ops: seq<Op>)
    requires Restart !in ops
    ensures Run(ROLLED_BACK, ops).mode.safe <==> Successes(ops) < 5
    ensures Run(ROLLED_BACK, ops).mode.checks == if Run(ROLLED_BACK, ops).mode.safe then Successes(ops) else 0
  {
    if ops != [] {
      FiveSuccessesEndSafeMode(ops[..|ops| - 1]);
    }
  }

  /** A rollback cut short before its checkpoint is in place comes back in safe mode unless the file
      still holds a sealed checkpoint that says otherwise. */
  method RebootAfterRollback(w: Watchdog, importOk: bool, debris: Config, end: SaveEnd) returns (next: Watchdog)
    requires w.Valid()
    modifies w, w.device
    ensures next.Valid() && next.device == w.device
    ensures next.safeModeActive <==> end == Saved || !Loads(old(w.device.main)) || old(w.device.main).cp.safeMode
  {
    var _ := w.ExecuteRollback(importOk, debris, end);
    next := new Watchdog(w.device);
  }

  /** The raw export shares the checkpoint's path: a restart after one is in safe mode if and only if the
      export got as far as opening the file, or the file would have said so anyway. */
  method RebootAfterExport(w: Watchdog, end: ExportEnd) returns (next: Watchdog)
    requires w.Valid()
    modifies w.device
    ensures next.Valid() && next.device == w.device
    ensures next.safeModeActive <==> end != NotOpened || !Loads(old(w.device.main)) || old(w.device.main).cp.safeMode
  {
    w.device.ExportUci(end);
    next := new Watchdog(w.device);
  }

  // The operation leaves something else at the checkpoint's path.
  predicate Touches(s: System, op: Op) {
    match op
    case Health(end) => s.mode.safe && s.mode.checks + 1 >= 5 && end == Saved
    case Rollback(end) => end == Saved
    case Save(_, end) => end == Saved
    case Export(_, how) => how != NotOpened
    case Restart => false
  }

  // Operation i completed an export of c, and nothing touched the file since.
  predicate StillThere(start: System, ops: seq<Op>, i: nat, c: Config) {
    i < |ops| && ops[i] == Export(c, Exported) && UntouchedFrom(start, ops, i + 1)
  }

  predicate UntouchedFrom(start: System, ops: seq<Op>, from: nat) {
    forall j :: from <= j < |ops| ==> !TouchedAt(start, ops, j)
  }

  predicate TouchedAt(start: System, ops: seq<Op>, j: nat)
    requires j < |ops|
  {
    Touches(Run(start, ops[..j]), ops[j])
  }

  // The file is the export of c: one of the run, or one that was there.
  ghost predicate LastExportIs(start: System, ops: seq<Op>, c: Config) {
    || (exists i :: StillThere(start, ops, i, c))
    || (start.file == RawUci(c) && UntouchedFrom(start, ops, 0))
  }

  lemma UntouchedBefore(start: System, ops: seq<Op>, from: nat)
    requires from < |ops| && !TouchedAt(start, ops, |ops| - 1)
    ensures UntouchedFrom(start, ops, from) <==> UntouchedFrom(start, ops[..|ops| - 1], from)
  {
    var before := ops[..|ops| - 1];
    forall j: nat | j < |before|
      ensures TouchedAt(start, before, j) <==> TouchedAt(start, ops, j)
    {
      assert before[..j] == ops[..j];
    }
  }

  lemma {:induction false} FileIsLastExport(start: System, ops: seq<Op>, c: Config)
    ensures Run(start, ops).file == RawUci(c) <==> LastExportIs(start, ops, c)
  {
    if ops != [] {
      var n := |ops| - 1;
      FileIsLastExport(start, ops[..n], c);
      if TouchedAt(start, ops, n) {
        assert UntouchedFrom(start, ops, n + 1);
        assert ops[n] == Export(c, Exported) ==> StillThere(start, ops, n, c);
      } else {
        LastExportBefore(start, ops, c);
      }
    }
  }

  lemma LastExportBefore(start: System, ops: seq<Op>, c: Config)
    requires ops != [] && !TouchedAt(start, ops, |ops| - 1)
    ensures LastExportIs(start, ops, c) <==> LastExportIs(start, ops[..|ops| - 1], c)
  {
    var n := |ops| - 1;
    UntouchedBefore(start, ops, 0);
    forall i: nat | i < n
      ensures StillThere(start, ops, i, c) <==> StillThere(start, ops[..n], i, c)
    {
      if i + 1 < |ops| {
        UntouchedBefore(start, ops, i + 1);
      }
    }
    assert !StillThere(start, ops, n, c);
  }

  // The file determines the restored configuration, whatever is live and whatever an import leaves, only
  // if it is a complete export.
  lemma OnlyExportsDetermine(f: File, c: Config)
    ensures (forall live, debris :: RestoredConfig(f, live, true, debris) == c) <==> f == RawUci(c)
  {
    if f != RawUci(c) {
      var x: Config, y: Config := map["" := "x"], map["" := "y"];
      assert RestoredConfig(f, x, true, x) != c || RestoredConfig(f, y, true, y) != c by {
        if !f.RawUci? {
          assert RestoredConfig(f, x, true, x)[""] == "x" && RestoredConfig(f, y, true, y)[""] == "y";
        }
      }
    }
  }

  /** When its import succeeds, a rollback restores configuration c regardless of what came after, if and
      only if c was exported completely, in this run or before it, and since then no checkpoint was saved
      and no export opened the file. */
  lemma RollbackRestoresLastExport(start: System, ops: seq<Op>, c: Config)
    ensures (forall live, debris :: RestoredConfig(Run(start, ops).file, live, true, debris) == c) <==>
            LastExportIs(start, ops, c)
  {
    OnlyExportsDetermine(Run(start, ops).file, c);
    FileIsLastExport(start, ops, c);
  }

  /** On the objects: a rollback right after a complete export restores it if the import succeeds, and sets
      the defaults if not; a second one in a row only sets the defaults, provided the first was saved. */
  method ExportThenRollback(w: Watchdog, changed: Config, changedAgain: Config, importOk: bool, debris: Config, end: SaveEnd)
    returns (restored: Config)
    requires w.Valid()
    modifies w, w.device
    ensures w.Valid() && restored == if importOk then old(w.device.live) else changed + DEFAULTS
    ensures w.device.live == if end != Saved && importOk then restored else changedAgain + DEFAULTS
  {
    w.device.ExportUci(Exported);
    w.device.live := changed;
    var _ := w.ExecuteRollback(importOk, debris, end);
    restored := w.device.live;
    w.device.live := changedAgain;
    var _ := w.ExecuteRollback(importOk, debris, Saved);
    assert DEFAULTS - {""} == DEFAULTS;
    assert DEFAULTS != map[] by { assert "network.wan.proto" in DEFAULTS; }
  }
}
