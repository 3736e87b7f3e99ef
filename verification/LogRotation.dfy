/** Size-based rotation of go-agent/logger/logger.go.  File 0 is the current log, file i its backup
    `.i`; a file is the list of lines written to it, a line is a string of bytes. */
module LogRotation {
  type Line = string
  type Files = map<nat, seq<Line>>

  function Bytes(lines: seq<Line>): nat {
    if lines == [] then 0 else Bytes(lines[..|lines| - 1]) + |lines[|lines| - 1]|
  }

  lemma {:induction false} BytesConcat(a: seq<Line>, b: seq<Line>)
    ensures Bytes(a + b) == Bytes(a) + Bytes(b)
  {
    if b == [] {
      assert a + b == a;
    } else {
      BytesConcat(a, b[..|b| - 1]);
      assert (a + b)[..|a + b| - 1] == a + b[..|b| - 1];
    }
  }

  // What a file holds, as one string.
  function Text(lines: seq<Line>): string {
    if lines == [] then "" else Text(lines[..|lines| - 1]) + lines[|lines| - 1]
  }

  /** The text of lines is their concatenation. */
  lemma {:induction false} TextMeans(a: seq<Line>, line: Line, b: seq<Line>)
    ensures Text([]) == "" && Text([line]) == line && Text(a + b) == Text(a) + Text(b)
  {
    if b == [] {
      assert a + b == a;
    } else {
      TextMeans(a, line, b[..|b| - 1]);
      assert (a + b)[..|a + b| - 1] == a + b[..|b| - 1];
    }
  }

  /** And the size that rotation goes by is its length. */
  lemma {:induction false} BytesAreText(lines: seq<Line>)
    ensures Bytes(lines) == |Text(lines)|
  {
    if lines != [] {
      BytesAreText(lines[..|lines| - 1]);
    }
  }

  function Content(files: Files, i: nat): seq<Line> {
    if i in files then files[i] else []
  }

  // Backups k, ..., 1 and then the current file: what is left of the log, oldest first.
  function Kept(files: Files, k: nat): seq<Line> {
    Content(files, k) + (if k == 0 then [] else Kept(files, k - 1))
  }

  predicate Same(before: Files, after: Files, i: nat) {
    (i in after <==> i in before) && (i in after ==> after[i] == before[i])
  }

  predicate Moved(before: Files, after: Files, i: nat) {
    i > 0 && (i in after <==> i - 1 in before) && (i in after ==> after[i] == before[i - 1])
  }

  // Every file moved up one place, the last backup dropped, an empty current file; others untouched.
  ghost predicate Rotated(before: Files, after: Files, k: nat) {
    && 0 in after && after[0] == []
    && (forall i :: 1 <= i <= k ==> Moved(before, after, i))
    && (forall i :: i > k ==> Same(before, after, i))
  }

  // The loop has freed place i + 1 and moved everything above it.
  ghost predicate Shifting(before: Files, now: Files, k: nat, i: nat) {
    && (i < k ==> i + 1 !in now)
    && (forall j :: 0 <= j <= i ==> Same(before, now, j))
    && (forall j :: i + 2 <= j <= k ==> Moved(before, now, j))
    && (forall j :: j > k ==> Same(before, now, j))
  }

  // os.Rename: no effect when the source is missing; replaces the target.
  function Renamed(files: Files, src: nat, dst: nat): Files {
    if src in files then (files - {src})[dst := files[src]] else files
  }

  lemma ShiftStep(before: Files, now: Files, k: nat, i: nat)
    requires Shifting(before, now, k, i) && 1 <= i <= k
    ensures i == k ==> Shifting(before, now - {i}, k, i - 1)
    ensures i < k ==> Shifting(before, Renamed(now, i, i + 1), k, i - 1)
  {
    var next := if i == k then now - {i} else Renamed(now, i, i + 1);
    assert Same(before, now, i);
    forall j | 0 <= j <= i - 1
      ensures Same(before, next, j)
    {
      assert Same(before, now, j);
    }
    forall j | i + 1 <= j <= k
      ensures Moved(before, next, j)
    {
      assert j > i + 1 ==> Moved(before, now, j);
    }
    forall j | j > k
      ensures Same(before, next, j)
    {
      assert Same(before, now, j);
    }
  }

  lemma ShiftDone(before: Files, now: Files, k: nat)
    requires Shifting(before, now, k, 0) && k >= 1
    ensures 1 !in now
    ensures Rotated(before, Renamed(now, 0, 1)[0 := []], k)
  {
    var after := Renamed(now, 0, 1)[0 := []];
    assert Same(before, now, 0);
    forall j | 1 <= j <= k
      ensures Moved(before, after, j)
    {
      assert j > 1 ==> Moved(before, now, j);
    }
    forall j | j > k
      ensures Same(before, after, j)
    {
      assert Same(before, now, j);
    }
  }

  lemma {:induction false} RotatedShiftsKept(before: Files, after: Files, k: nat, j: nat)
    requires Rotated(before, after, k) && 1 <= j <= k
    ensures Kept(after, j) == Kept(before, j - 1)
  {
    assert Moved(before, after, j);
    if j == 1 {
      assert Kept(after, 0) == [];
    } else {
      RotatedShiftsKept(before, after, k, j - 1);
    }
  }

  // One call of rotate: nothing below the limit, else one rotation.
  ghost predicate Turned(before: Files, after: Files, k: nat, maxBytes: nat) {
    if Due(before, maxBytes) then Rotated(before, after, k) else after == before
  }

  predicate Due(files: Files, maxBytes: nat) { 0 in files && Bytes(files[0]) >= maxBytes }

  // What it removes: the last backup.
  function Gone(before: Files, k: nat, maxBytes: nat): seq<Line> {
    if Due(before, maxBytes) then Content(before, k) else []
  }

  lemma DropOldest(files: Files, k: nat, dropped: seq<Line>)
    requires k >= 1
    ensures dropped + Kept(files, k) == (dropped + Content(files, k)) + Kept(files, k - 1)
  {
    Associate(dropped, Content(files, k), Kept(files, k - 1));
  }

  lemma TurnedKeepsSuffix(before: Files, after: Files, k: nat, maxBytes: nat, dropped: seq<Line>, logged: seq<Line>)
    requires Turned(before, after, k, maxBytes) && k >= 1
    requires logged == dropped + Kept(before, k)
    ensures logged == (dropped + Gone(before, k, maxBytes)) + Kept(after, k)
  {
    if Due(before, maxBytes) {
      RotatedShiftsKept(before, after, k, k);
      DropOldest(before, k, dropped);
    }
  }

  // ---------------------------------------------------------------------------------------------
  // Suffixes.

  predicate SuffixOf<T(==)>(a: seq<T>, b: seq<T>) { |a| <= |b| && b[|b| - |a|..] == a }

  lemma Cancel<T>(s: seq<T>, d: seq<T>, rest: seq<T>)
    ensures SuffixOf(s + rest, d + rest) <==> SuffixOf(s, d)
  {
    if |s| <= |d| {
      assert (d + rest)[|d| - |s|..] == d[|d| - |s|..] + rest;
      assert (d[|d| - |s|..] + rest)[..|s|] == d[|d| - |s|..] && (s + rest)[..|s|] == s;
    }
  }

  lemma SuffixOfSum<T>(front: seq<T>, a: seq<T>)
    ensures SuffixOf(a, front + a)
  {}

  lemma SuffixOfSuffix<T>(a: seq<T>, b: seq<T>, c: seq<T>)
    requires SuffixOf(a, b) && SuffixOf(b, c)
    ensures SuffixOf(a, c)
  {
    assert c[|c| - |a|..] == c[|c| - |b|..][|b| - |a|..];
  }

  // Backups count, ..., k + 1: what counts again when the limit is raised from k to count.
  function Stale(files: Files, k: nat, count: nat): seq<Line> {
    if count <= k then [] else Content(files, count) + Stale(files, k, count - 1)
  }

  lemma {:induction false} KeptStale(files: Files, k: nat, count: nat)
    requires k <= count
    ensures Kept(files, count) == Stale(files, k, count) + Kept(files, k)
  {
    if k < count {
      KeptStale(files, k, count - 1);
      Associate(Content(files, count), Stale(files, k, count - 1), Kept(files, k));
    }
  }

  /** Raising the backup count from k to count keeps the files a suffix of the log if and only if what
      the backups above k hold is a suffix of what has been dropped. */
  lemma RaisingKeepsSuffix(files: Files, k: nat, count: nat, dropped: seq<Line>, logged: seq<Line>)
    requires k <= count && logged == dropped + Kept(files, k)
    ensures SuffixOf(Kept(files, count), logged) <==> SuffixOf(Stale(files, k, count), dropped)
  {
    KeptStale(files, k, count);
    Cancel(Stale(files, k, count), dropped, Kept(files, k));
  }

  /** Lowering it always does. */
  lemma LoweringKeepsSuffix(files: Files, k: nat, count: nat, logged: seq<Line>)
    requires count <= k && SuffixOf(Kept(files, k), logged)
    ensures SuffixOf(Kept(files, count), logged)
  {
    KeptStale(files, count, k);
    SuffixOfSum(Stale(files, count, k), Kept(files, count));
    SuffixOfSuffix(Kept(files, count), Kept(files, k), logged);
  }

  // No file is larger than its last line past the limit.
  predicate Small(lines: seq<Line>, maxBytes: nat) {
    lines == [] || Bytes(lines[..|lines| - 1]) < maxBytes
  }

  // What fixed settings guarantee: full backups without gaps, all of them once anything was dropped.
  ghost predicate Sized(files: Files, k: nat, maxBytes: nat, dropped: seq<Line>) {
    && 0 in files
    && (forall i :: 0 <= i <= k && i in files ==> Small(files[i], maxBytes))
    && (forall i :: 1 <= i <= k && i in files ==> Bytes(files[i]) >= maxBytes)
    && (forall i :: 1 <= i < k && i + 1 in files ==> i in files)
    && (dropped != [] ==> k in files)
  }

  lemma {:induction false} NoGaps(files: Files, k: nat, i: nat)
    requires 1 <= i <= k && k in files
    requires forall i :: 1 <= i < k && i + 1 in files ==> i in files
    ensures i in files
    decreases k - i
  {
    if i < k {
      NoGaps(files, k, i + 1);
    }
  }

  lemma {:induction false} FullBackups(files: Files, k: nat, maxBytes: nat, j: nat)
    requires j <= k && k in files
    requires forall i :: 1 <= i <= k && i in files ==> Bytes(files[i]) >= maxBytes
    requires forall i :: 1 <= i < k && i + 1 in files ==> i in files
    ensures Bytes(Kept(files, j)) >= j * maxBytes
  {
    if j > 0 {
      FullBackups(files, k, maxBytes, j - 1);
      NoGaps(files, k, j);
      BytesConcat(files[j], Kept(files, j - 1));
      assert j * maxBytes == (j - 1) * maxBytes + maxBytes;
    }
  }

  /** With fixed settings the files are a suffix of the log holding at least min(total, k * maxBytes)
      bytes, and each file stays under maxBytes plus its last line. */
  lemma Retention(files: Files, k: nat, maxBytes: nat, dropped: seq<Line>, logged: seq<Line>)
    requires Sized(files, k, maxBytes, dropped) && logged == dropped + Kept(files, k)
    ensures |Text(Kept(files, k))| >= |Text(logged)| || |Text(Kept(files, k))| >= k * maxBytes
    ensures forall i :: 0 <= i <= k && i in files && files[i] != [] ==>
              |Text(files[i])| < maxBytes + |files[i][|files[i]| - 1]|
  {
    BytesAreText(Kept(files, k));
    BytesAreText(logged);
    if dropped == [] {
      assert logged == Kept(files, k);
    } else {
      FullBackups(files, k, maxBytes, k);
    }
    forall i | 0 <= i <= k && i in files && files[i] != []
      ensures |Text(files[i])| < maxBytes + |files[i][|files[i]| - 1]|
    {
      BytesAreText(files[i]);
      assert Small(files[i], maxBytes);
    }
  }

  class Logger {
    var file: bool               // the current file is open
    var files: Files
    var maxBytes: nat
    var backupCount: int
    ghost var logged: seq<Line>
    ghost var overwrites: nat    // renames that hit an existing file

    ghost function Backups(): nat
      reads `backupCount
    {
      if backupCount <= 0 then 5 else backupCount
    }

    ghost predicate Valid()
      reads this
    {
      maxBytes > 0 && (file ==> 0 in files)
    }

    // Backups k..1 and the current file are a suffix of everything logged.
    ghost predicate Suffix()
      reads this
    {
      SuffixOf(Kept(files, Backups()), logged)
    }

    // The rest of the log.
    ghost function Dropped(): (d: seq<Line>)
      requires Suffix()
      reads this
      ensures logged == d + Kept(files, Backups())
    {
      logged[..|logged| - |Kept(files, Backups())|]
    }

    /** Init, on whatever is in the directory and whatever earlier runs logged. */
    constructor (hasFile: bool, existing: Files, ghost past: seq<Line>)
      ensures Valid() && file == hasFile && maxBytes == 0x200000 && Backups() == 5
      ensures files == if hasFile && 0 !in existing then existing[0 := []] else existing
      ensures logged == past && overwrites == 0
      ensures forall k :: Kept(files, k) == Kept(existing, k)
    {
      file, maxBytes, backupCount := hasFile, 0x200000, 5;
      files := if hasFile && 0 !in existing then existing[0 := []] else existing;
      logged, overwrites := past, 0;
      new;
      forall k ensures Kept(files, k) == Kept(existing, k) {
        if hasFile && 0 !in existing {
          EmptyCurrent(existing, k);
        }
      }
    }

    method Rename(src: nat, dst: nat)
      modifies `files, `overwrites
      ensures files == Renamed(old(files), src, dst)
      ensures src !in old(files) ==> files == old(files)
      ensures src in old(files) && src != dst ==>
                src !in files && dst in files && files[dst] == old(files)[src]
      ensures forall i :: i != src && i != dst ==> Same(old(files), files, i)
      ensures overwrites == old(overwrites) + (if src in old(files) && dst in old(files) then 1 else 0)
    {
      if src in files {
        overwrites := overwrites + (if dst in files then 1 else 0);
        files := Renamed(files, src, dst);
      }
    }

    // The descending loop of rotate, and the new current file.
    method ShiftFiles(k: nat)
      requires k >= 1
      modifies `files, `overwrites
      ensures Rotated(old(files), files, k) && overwrites == old(overwrites)
    {
      var i := k;
      while i >= 1
        invariant 0 <= i <= k && overwrites == old(overwrites)
        invariant Shifting(old(files), files, k, i)
      {
        ShiftStep(old(files), files, k, i);
        if i == k {
          files := files - {i};
        } else {
          Rename(i, i + 1);
        }
        i := i - 1;
      }
      ShiftDone(old(files), files, k);
      Rename(0, 1);
      files := files[0 := []];
    }

    /** Rotates once the current file has reached maxBytes.  The loop runs from the top down, so no
        rename ever meets a live file. */
    method Rotate()
      requires Valid()
      modifies `files, `overwrites
      ensures Valid() && overwrites == old(overwrites)
      ensures if file then Turned(old(files), files, Backups(), maxBytes) else files == old(files)
      ensures file ==> if |Text(old(files)[0])| >= maxBytes then Rotated(old(files), files, Backups()) else files == old(files)
      ensures file && old(Suffix()) ==>
                Suffix() && Dropped() == old(Dropped()) + Gone(old(files), Backups(), maxBytes)
    {
      if !file {
        return;
      }
      ghost var before := files;
      BytesAreText(files[0]);
      if Bytes(files[0]) >= maxBytes {
        var k := if backupCount <= 0 then 5 else backupCount;
        ShiftFiles(k);
      }
      if old(Suffix()) {
        TurnedKeepsSuffix(before, files, Backups(), maxBytes, old(Dropped()), logged);
        SplitUnique(old(Dropped()) + Gone(before, Backups(), maxBytes), Kept(files, Backups()), logged);
      }
    }

    /** Rotate, then write: the line ends up last in the current file.  Files that were a suffix of the log
        still are, and fixed settings keep their guarantees. */
    method Log(line: Line)
      requires Valid()
      modifies `files, `overwrites, `logged
      ensures Valid() && overwrites == old(overwrites)
      ensures !file ==> logged == old(logged) && files == old(files)
      ensures file ==> logged == old(logged) + [line] && Written(old(files), files, Backups(), maxBytes, line)
      ensures file && |Text(old(files)[0])| >= maxBytes ==> Rotated(old(files), files[0 := []], Backups()) && files[0] == [line]
      ensures file && |Text(old(files)[0])| < maxBytes ==> files == old(files)[0 := old(files)[0] + [line]]
      ensures file && old(Suffix()) ==>
                Suffix() && Dropped() == old(Dropped()) + Gone(old(files), Backups(), maxBytes)
      ensures file && old(Suffix() && Sized(files, Backups(), maxBytes, Dropped())) ==>
                Sized(files, Backups(), maxBytes, Dropped())
    {
      ghost var before := files;
      if file {
        BytesAreText(before[0]);
      }
      Rotate();
      if file {
        TurnedWritten(before, files, Backups(), maxBytes, line);
        if old(Suffix()) {
          WriteKeeps(before, files, Backups(), maxBytes, old(Dropped()), line);
        }
        Append(line);
      }
    }

    method Append(line: Line)
      requires Valid() && file
      modifies `files, `logged
      ensures Valid() && logged == old(logged) + [line]
      ensures files == old(files)[0 := old(files)[0] + [line]]
      ensures old(Suffix()) ==> Suffix() && Dropped() == old(Dropped())
    {
      AppendKept(files, Backups(), line);
      ghost var kept := Kept(files, Backups());
      if Suffix() {
        Associate(Dropped(), kept, [line]);
        SplitUnique(Dropped(), kept + [line], logged + [line]);
      }
      files := files[0 := files[0] + [line]];
      logged := logged + [line];
    }

    method SetMaxBytes(max: int)
      requires Valid()
      modifies `maxBytes
      ensures Valid() && maxBytes == if max > 0 then max else old(maxBytes)
    {
      if max > 0 {
        maxBytes := max;
      }
    }

    /** Lowering the backup count keeps the files a suffix of the log.  Raising it does if and only if the
        lines in the backups that count again are the last ones dropped. */
    method SetBackupCount(count: int)
      requires Valid()
      modifies `backupCount
      ensures Valid() && backupCount == if count > 0 then count else old(backupCount)
      ensures old(Suffix()) && Backups() <= old(Backups()) ==> Suffix()
      ensures old(Suffix()) && Backups() >= old(Backups()) ==>
                (Suffix() <==> SuffixOf(Stale(files, old(Backups()), Backups()), old(Dropped())))
    {
      ghost var k := Backups();
      if count > 0 {
        if Suffix() {
          if count <= k {
            LoweringKeepsSuffix(files, k, count, logged);
          }
          if count >= k {
            RaisingKeepsSuffix(files, k, count, Dropped(), logged);
          }
        }
        backupCount := count;
      }
    }
  }

  lemma SplitUnique(dropped: seq<Line>, kept: seq<Line>, logged: seq<Line>)
    requires logged == dropped + kept
    ensures SuffixOf(kept, logged) && logged[..|logged| - |kept|] == dropped
  {}

  // What fixed settings guarantee of the files and the log they came from.
  ghost predicate Settled(files: Files, k: nat, maxBytes: nat, logged: seq<Line>) {
    SuffixOf(Kept(files, k), logged) && Sized(files, k, maxBytes, logged[..|logged| - |Kept(files, k)|])
  }

  /** The start of the daemon: Init counts five backups, the configured settings follow before anything is
      logged.  The files are a suffix of the log of all runs if and only if they were for the configured
      count, and what the last run guaranteed with the same settings holds on. */
  method StartUp(hasFile: bool, existing: Files, ghost past: seq<Line>, max: int, count: int) returns (l: Logger)
    ensures l.Valid() && l.logged == past && l.file == hasFile
    ensures l.Backups() == (if count > 0 then count else 5) && l.maxBytes == (if max > 0 then max else 0x200000)
    ensures l.Suffix() <==> SuffixOf(Kept(existing, l.Backups()), past)
    ensures Settled(existing, l.Backups(), l.maxBytes, past) ==> Settled(l.files, l.Backups(), l.maxBytes, l.logged)
    ensures hasFile && existing == map[] && past == [] ==> Settled(l.files, l.Backups(), l.maxBytes, l.logged)
  {
    l := new Logger(hasFile, existing, past);
    l.SetMaxBytes(max);
    l.SetBackupCount(count);
    if existing == map[] {
      NothingKept(existing, l.Backups());
    }
  }

  lemma {:induction false} NothingKept(files: Files, k: nat)
    requires files == map[]
    ensures Kept(files, k) == []
  {
    if k > 0 {
      NothingKept(files, k - 1);
    }
  }

  // One rotation (or none), then the line appended to the current file.
  ghost predicate Written(before: Files, after: Files, k: nat, maxBytes: nat, line: Line) {
    0 in before && 0 in after &&
    if Bytes(before[0]) >= maxBytes
    then after[0] == [line] && Rotated(before, after[0 := []], k)
    else after == before[0 := before[0] + [line]]
  }

  lemma TurnedWritten(before: Files, files: Files, k: nat, maxBytes: nat, line: Line)
    requires 0 in before && 0 in files && Turned(before, files, k, maxBytes)
    ensures Written(before, files[0 := files[0] + [line]], k, maxBytes, line)
  {
    if Due(before, maxBytes) {
      assert files[0 := files[0] + [line]][0 := []] == files;
    }
  }

  lemma WriteKeeps(before: Files, files: Files, k: nat, maxBytes: nat, dropped: seq<Line>, line: Line)
    requires 0 in before && 0 in files && k >= 1 && maxBytes > 0
    requires Turned(before, files, k, maxBytes)
    ensures Sized(before, k, maxBytes, dropped) ==>
              Sized(files[0 := files[0] + [line]], k, maxBytes, dropped + Gone(before, k, maxBytes))
  {
    if Sized(before, k, maxBytes, dropped) {
      if Due(before, maxBytes) {
        RotatedSized(before, files, k, maxBytes, dropped, dropped + Gone(before, k, maxBytes));
      }
      AppendSized(files, k, maxBytes, dropped + Gone(before, k, maxBytes), line);
    }
  }

  // Three one-byte lines logged with a limit of one byte and two backups.
  const THREE_LINES: Files := map[0 := ["c"], 1 := ["b"], 2 := ["a"]]

  lemma ThreeLinesReached()
    ensures Written(map[0 := []], map[0 := ["a"]], 2, 1, "a")
    ensures Written(map[0 := ["a"]], map[0 := ["b"], 1 := ["a"]], 2, 1, "b")
    ensures Written(map[0 := ["b"], 1 := ["a"]], THREE_LINES, 2, 1, "c")
  {
    assert Bytes(["a"]) == 1 && Bytes(["b"]) == 1;
    assert map[0 := []][0 := ["a"]] == map[0 := ["a"]];
    assert [] + ["a"] == ["a"];
  }

  /** A case in which raising fails: from there the count is lowered to one, a line logged, and the count
      raised back to two. */
  lemma RaisingBackupCountRevivesStaleLines(after: Files)
    requires Written(THREE_LINES, after, 1, 1, "d")
    ensures ["a", "b", "c", "d"] == ["a", "b"] + Kept(after, 1)
    ensures Stale(after, 1, 2) == ["a"] && !SuffixOf(["a"], ["a", "b"])
    ensures !SuffixOf(Kept(after, 2), ["a", "b", "c", "d"])
  {
    assert Bytes(["c"]) == 1;
    var turned := after[0 := []];
    assert Moved(THREE_LINES, turned, 1) && Same(THREE_LINES, turned, 2);
    assert after[1] == ["c"] && after[2] == ["a"];
    assert Kept(after, 0) == ["d"];
    assert Kept(after, 1) == ["c", "d"];
    assert Stale(after, 1, 1) == [] && Stale(after, 1, 2) == ["a"];
    assert ["a", "b"][1..] == ["b"];
    RaisingKeepsSuffix(after, 1, 2, ["a", "b"], ["a", "b", "c", "d"]);
  }

  lemma {:induction false} EmptyCurrent(files: Files, k: nat)
    requires 0 !in files
    ensures Kept(files[0 := []], k) == Kept(files, k)
  {
    if k > 0 {
      EmptyCurrent(files, k - 1);
    }
  }

  lemma Associate(a: seq<Line>, b: seq<Line>, c: seq<Line>)
    ensures (a + b) + c == a + (b + c)
  {}

  lemma {:induction false} AppendKept(files: Files, k: nat, line: Line)
    requires 0 in files
    ensures Kept(files[0 := files[0] + [line]], k) == Kept(files, k) + [line]
  {
    if k > 0 {
      AppendKept(files, k - 1, line);
    }
  }

  lemma AppendSized(files: Files, k: nat, maxBytes: nat, dropped: seq<Line>, line: Line)
    ensures Sized(files, k, maxBytes, dropped) && Bytes(files[0]) < maxBytes ==>
              Sized(files[0 := files[0] + [line]], k, maxBytes, dropped)
  {
    if 0 in files {
      assert (files[0] + [line])[..|files[0]|] == files[0];
    }
  }

  lemma RotatedSized(before: Files, after: Files, k: nat, maxBytes: nat, dropped: seq<Line>, dropped': seq<Line>)
    requires Sized(before, k, maxBytes, dropped) && Rotated(before, after, k) && k >= 1 && maxBytes > 0
    requires Bytes(before[0]) >= maxBytes && dropped' == dropped + Content(before, k)
    ensures Sized(after, k, maxBytes, dropped')
  {
    forall i | 1 <= i <= k
      ensures i in after ==> Small(after[i], maxBytes) && Bytes(after[i]) >= maxBytes
    {
      assert Moved(before, after, i);
    }
    forall i | 1 <= i < k && i + 1 in after
      ensures i in after
    {
      assert Moved(before, after, i) && Moved(before, after, i + 1);
      assert i > 1 ==> (i - 1) + 1 in before;
    }
    if dropped' != [] {
      assert k in before;
      if k > 1 {
        NoGaps(before, k, k - 1);
      }
      assert Moved(before, after, k);
    }
  }
}
