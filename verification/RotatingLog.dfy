/**
 The rotating log over a small file system: a map from names to contents. Every
 file operation succeeds; the open handle is the file at the log's own path.
 */
module RotatingLog {
  import opened Text
  import opened Calendar

  const MAX_LOG_BYTES: nat := 10 * 1024 * 1024
  const MAX_LOG_BACKUPS: nat := 3

  type Files = map<string, string>

  function BackupPath(path: string, n: nat): string {
    path + "." + Decimal(n)
  }

  lemma DistinctNames(path: string)
    ensures path != BackupPath(path, 1) && path != BackupPath(path, 2) && path != BackupPath(path, 3)
    ensures BackupPath(path, 1) != BackupPath(path, 2) && BackupPath(path, 1) != BackupPath(path, 3)
    ensures BackupPath(path, 2) != BackupPath(path, 3)
  {
    forall n | 1 <= n <= 3
      ensures |BackupPath(path, n)| == |path| + 2 && BackupPath(path, n)[|path| + 1] == DigitChar(n)
    {
      assert Decimal(n) == [DigitChar(n)];
    }
    assert BackupPath(path, 1)[|path| + 1] == '1' && BackupPath(path, 2)[|path| + 1] == '2'
        && BackupPath(path, 3)[|path| + 1] == '3';
  }

  // ---- one operation on values ---------------------------------------------

  function Content(files: Files, name: string): string {
    if name in files then files[name] else ""
  }

  /** Rename, when the source exists; an existing destination is replaced. */
  function Moved(files: Files, from: string, to: string): Files {
    if from in files then (files - {from})[to := files[from]] else files
  }

  function Rotated(files: Files, path: string): Files {
    var shifted := Moved(Moved(files, BackupPath(path, 2), BackupPath(path, 3)), BackupPath(path, 1), BackupPath(path, 2));
    Moved(shifted, path, BackupPath(path, 1))[path := ""]
  }

  datatype Store = Store(files: Files, bytesWritten: nat)

  function Appended(store: Store, path: string, line: string): Store {
    Store(store.files[path := Content(store.files, path) + line], store.bytesWritten + |line|)
  }

  /** Logging one line: rotate first when the file has reached the limit. */
  function Logged(store: Store, path: string, line: string): Store {
    Appended(if store.bytesWritten >= MAX_LOG_BYTES then Store(Rotated(store.files, path), 0) else store, path, line)
  }

  /** A restart: the counter starts from the size of the file found. */
  function Opened(files: Files, path: string): Store {
    Store(files[path := Content(files, path)], |Content(files, path)|)
  }

  // ---- the logger ----------------------------------------------------------

  class FileSystem {
    var files: Files

    constructor (files: Files)
      ensures this.files == files
    {
      this.files := files;
    }

    method Rename(from: string, to: string)
      modifies this
      ensures files == Moved(old(files), from, to)
    {
      if from in files {
        files := (files - {from})[to := files[from]];
      }
    }
  }

  datatype Level = Error | Warn | Info | Debug | Trace {
    predicate Enabled() {
      Error? || Warn? || Info?
    }

    function Name(): string {
      match this
      case Error => "ERROR"
      case Warn => "WARN"
      case Info => "INFO"
      case Debug => "DEBUG"
      case Trace => "TRACE"
    }
  }

  function Line(t: DateTime, level: Level, message: string): string {
    Timestamp(t) + " " + level.Name() + " - " + message + "\n"
  }

  /** Errors, warnings and information are written, finer levels are not. */
  lemma WrittenLevels()
    ensures forall level: Level :: level.Enabled() <==> level == Error || level == Warn || level == Info
    ensures Error.Name() == "ERROR" && Warn.Name() == "WARN" && Info.Name() == "INFO"
    ensures Debug.Name() == "DEBUG" && Trace.Name() == "TRACE"
  {
  }

  /** A line read back: 20 characters of timestamp, whose fields give the time,
      then the level and the message, whole and unchanged, and one line end. */
  lemma LineReadBack(t: DateTime, level: Level, message: string)
    requires Calendar.Valid(t) && t.year <= 9999
    ensures var line := Line(t, level, message);
            && |line| > 20 && line[..20] == Timestamp(t)
            && line[20..] == " " + level.Name() + " - " + message + "\n"
            && Reads(line[..20], 0, 4, t.year) && Reads(line[..20], 17, 19, t.second)
  {
    hide Timestamp, Reads, Calendar.Valid;
    TimestampFields(t);
    LineParts(Timestamp(t), level.Name(), message);
  }

  lemma {:induction false} LineParts(stamp: string, name: string, message: string)
    ensures var line, rest := stamp + " " + name + " - " + message + "\n", " " + name + " - " + message + "\n";
            |line| > |stamp| && line[..|stamp|] == stamp && line[|stamp|..] == rest
  {
    var rest := " " + name + " - " + message + "\n";
    assert stamp + " " + name + " - " + message + "\n" == stamp + rest;
  }

  class RotatingLogger {
    const path: string
    const fs: FileSystem
    var bytesWritten: nat

    ghost function View(): Store
      reads this, fs
    {
      Store(fs.files, bytesWritten)
    }

    ghost predicate Valid()
      reads this, fs
    {
      path in fs.files && bytesWritten == |fs.files[path]|
    }

    constructor Open(fs: FileSystem, path: string)
      modifies fs
      ensures this.fs == fs && this.path == path
      ensures Valid() && View() == Opened(old(fs.files), path)
    {
      this.fs, this.path := fs, path;
      bytesWritten := |Content(fs.files, path)|;
      new;
      fs.files := fs.files[path := Content(fs.files, path)];
    }

    method Rotate()
      modifies fs
      ensures fs.files == Rotated(old(fs.files), path)
    {
      ghost var start := fs.files;
      var n := MAX_LOG_BACKUPS - 1;
      while n >= 1
        invariant 0 <= n <= 2
        invariant n == 2 ==> fs.files == start
        invariant n == 1 ==> fs.files == Moved(start, BackupPath(path, 2), BackupPath(path, 3))
        invariant n == 0 ==> (fs.files == Moved(Moved(start, BackupPath(path, 2), BackupPath(path, 3)),
                                                BackupPath(path, 1), BackupPath(path, 2)))
      {
        fs.Rename(BackupPath(path, n), BackupPath(path, n + 1));
        n := n - 1;
      }
      fs.Rename(path, BackupPath(path, 1));
      fs.files := fs.files[path := ""];
    }

    /** `now` is the clock reading; the line carries the date and time it stands for. */
    method Log(level: Level, message: string, now: nat) returns (ghost t: DateTime)
      requires Valid()
      modifies this, fs
      ensures Valid()
      ensures !level.Enabled() ==> View() == old(View())
      ensures level.Enabled() ==>
                Calendar.Valid(t) && ToEpoch(t) == now && View() == Logged(old(View()), path, Line(t, level, message))
    {
      hide Rotated, Line, Calendar.Valid, ToEpoch, BackupPath;
      t := DateTime(1970, 1, 1, 0, 0, 0);
      if !level.Enabled() {
        return;
      }
      if bytesWritten >= MAX_LOG_BYTES {
        Rotate();
        RotatedIsEmpty(old(fs.files), path);
        bytesWritten := 0;
      }
      var stamp := EpochToDatetime(now);
      t := stamp;
      var line := Line(stamp, level, message);
      fs.files := fs.files[path := fs.files[path] + line];
      bytesWritten := bytesWritten + |line|;
    }
  }

  lemma RotatedIsEmpty(files: Files, path: string)
    ensures path in Rotated(files, path) && Rotated(files, path)[path] == ""
  {
  }

  // ---- what rotation keeps -------------------------------------------------

  /** The whole log, oldest bytes first. */
  function History(files: Files, path: string): string {
    Content(files, BackupPath(path, 3)) + Content(files, BackupPath(path, 2))
    + Content(files, BackupPath(path, 1)) + Content(files, path)
  }

  predicate InFamily(name: string, path: string) {
    name == path || name == BackupPath(path, 1) || name == BackupPath(path, 2) || name == BackupPath(path, 3)
  }

  /** The bytes a rotation loses: the third backup, when a second one replaces it. */
  function Lost(files: Files, path: string): string {
    if BackupPath(path, 2) in files then Content(files, BackupPath(path, 3)) else ""
  }

  /** A rotation with the log file present: every file moves one place down, the
      rest of the file system is untouched, and the bytes keep their order. */
  lemma RotationMoves(files: Files, path: string)
    requires path in files
    ensures var after, b1, b2, b3 := Rotated(files, path), BackupPath(path, 1), BackupPath(path, 2), BackupPath(path, 3);
            && path in after && after[path] == ""
            && b1 in after && after[b1] == files[path]
            && (b2 in after <==> b1 in files) && Content(after, b2) == Content(files, b1)
            && (b3 in after <==> b2 in files || b3 in files)
            && Content(after, b3) == (if b2 in files then files[b2] else Content(files, b3))
    ensures forall name :: !InFamily(name, path) ==>
              (name in Rotated(files, path) <==> name in files)
              && (name in files ==> Rotated(files, path)[name] == files[name])
  {
    DistinctNames(path);
    hide BackupPath;
  }

  /** Logging a line: the history followed by the line is exactly the bytes lost
      followed by the new history. Nothing is reordered or written twice. */
  lemma LogKeepsHistory(store: Store, path: string, line: string)
    requires path in store.files
    ensures var lost := if store.bytesWritten >= MAX_LOG_BYTES then Lost(store.files, path) else "";
            History(store.files, path) + line == lost + History(Logged(store, path, line).files, path)
  {
    hide Rotated, History, Lost, Appended, BackupPath, Content;
    if store.bytesWritten >= MAX_LOG_BYTES {
      RotationKeepsHistory(store.files, path);
      AppendKeepsHistory(Store(Rotated(store.files, path), 0), path, line);
      assert Lost(store.files, path) + (History(Rotated(store.files, path), path) + line)
          == Lost(store.files, path) + History(Rotated(store.files, path), path) + line;
    } else {
      AppendKeepsHistory(store, path, line);
      assert "" + (History(store.files, path) + line) == History(store.files, path) + line;
    }
  }

  lemma RotationKeepsHistory(files: Files, path: string)
    requires path in files
    ensures History(files, path) == Lost(files, path) + History(Rotated(files, path), path)
    ensures path in Rotated(files, path)
  {
    RotationMoves(files, path);
    hide BackupPath, Rotated;
    var b1, b2, b3 := BackupPath(path, 1), BackupPath(path, 2), BackupPath(path, 3);
    if b2 in files {
      assert History(Rotated(files, path), path) == files[b2] + Content(files, b1) + files[path];
    } else {
      assert History(Rotated(files, path), path) == Content(files, b3) + Content(files, b1) + files[path];
    }
  }

  lemma AppendKeepsHistory(store: Store, path: string, line: string)
    requires path in store.files
    ensures History(Appended(store, path, line).files, path) == History(store.files, path) + line
  {
    DistinctNames(path);
    hide BackupPath;
  }

  // ---- runs ----------------------------------------------------------------

  datatype Op = Write(line: string) | Restart

  function Step(store: Store, path: string, op: Op): Store {
    match op
    case Write(line) => Logged(store, path, line)
    case Restart => Opened(store.files, path)
  }

  function Run(store: Store, path: string, ops: seq<Op>): Store
    decreases |ops|
  {
    if ops == [] then store else Run(Step(store, path, ops[0]), path, ops[1..])
  }

  /** All bytes logged, in order. */
  function Written(ops: seq<Op>): string {
    if ops == [] then ""
    else LineOf(ops[0]) + Written(ops[1..])
  }

  /** The counter is the size of the file. */
  predicate Counted(store: Store, path: string) {
    path in store.files && store.bytesWritten == |store.files[path]|
  }

  lemma StepCounts(store: Store, path: string, op: Op)
    requires Counted(store, path)
    ensures Counted(Step(store, path, op), path)
    ensures op.Restart? ==> Step(store, path, op) == store
    ensures forall name :: !InFamily(name, path) ==>
              (name in Step(store, path, op).files <==> name in store.files)
              && (name in store.files ==> Step(store, path, op).files[name] == store.files[name])
  {
    RotationMoves(store.files, path);
    hide BackupPath, Rotated;
  }

  lemma SuffixTrans(a: string, b: string, c: string)
    requires EndsWith(b, a) && EndsWith(c, b)
    ensures EndsWith(c, a)
  {
    assert c[|c| - |a|..] == b[|b| - |a|..];
  }

  lemma SuffixExtends(a: string, b: string, more: string)
    requires EndsWith(b, a)
    ensures EndsWith(b + more, a + more)
  {
    assert (b + more)[|b| - |a|..] == b[|b| - |a|..] + more;
  }

  lemma SuffixChain(before: string, line: string, middle: string, rest: string, after: string)
    requires EndsWith(before + line, middle) && EndsWith(middle + rest, after)
    ensures EndsWith(before + (line + rest), after)
  {
    hide EndsWith;
    SuffixExtends(middle, before + line, rest);
    assert before + (line + rest) == before + line + rest;
    SuffixTrans(after, middle + rest, before + (line + rest));
  }

  function LineOf(op: Op): string {
    match op case Write(line) => line case Restart => ""
  }

  /** Every run, restarts included: the history is a suffix, in order and without
      repetition, of the bytes initially present followed by all bytes logged. */
  lemma {:induction false} RunKeepsHistory(store: Store, path: string, ops: seq<Op>)
    requires Counted(store, path)
    ensures EndsWith(History(store.files, path) + Written(ops), History(Run(store, path, ops).files, path))
    decreases |ops|
  {
    hide History, Step, Counted, EndsWith;
    if ops == [] {
      SuffixRefl(History(store.files, path));
    } else {
      var next := Step(store, path, ops[0]);
      StepCounts(store, path, ops[0]);
      StepIsSuffix(store, path, ops[0]);
      RunKeepsHistory(next, path, ops[1..]);
      SuffixChain(History(store.files, path), LineOf(ops[0]), History(next.files, path), Written(ops[1..]),
                  History(Run(next, path, ops[1..]).files, path));
    }
  }

  lemma SuffixRefl(s: string)
    ensures EndsWith(s + "", s)
  {
  }

  /** Throughout a run the counter is the size of the current file, and files
      outside the log's own four names are not touched. */
  lemma {:induction false} RunCounts(store: Store, path: string, ops: seq<Op>)
    requires Counted(store, path)
    ensures Counted(Run(store, path, ops), path)
    ensures forall name :: !InFamily(name, path) ==>
              (name in Run(store, path, ops).files <==> name in store.files)
              && (name in store.files ==> Run(store, path, ops).files[name] == store.files[name])
    decreases |ops|
  {
    hide Step, InFamily, Counted;
    if ops != [] {
      StepCounts(store, path, ops[0]);
      RunCounts(Step(store, path, ops[0]), path, ops[1..]);
    }
  }

  lemma StepIsSuffix(store: Store, path: string, op: Op)
    requires Counted(store, path)
    ensures EndsWith(History(store.files, path) + LineOf(op), History(Step(store, path, op).files, path))
  {
    match op
    case Write(line) =>
      hide History, Lost, Logged;
      LogKeepsHistory(store, path, line);
    case Restart =>
      StepCounts(store, path, op);
      assert History(store.files, path) + "" == History(store.files, path);
  }

  // ---- sizes ---------------------------------------------------------------

  /** No line is longer than `longest`. */
  predicate LinesAtMost(ops: seq<Op>, longest: nat) {
    forall op :: op in ops && op.Write? ==> |op.line| <= longest
  }

  /** A file of the log is one of those found at the start, or was written by
      this logger and stayed below the limit plus one line. */
  ghost predicate SizeBound(files: Files, path: string, found: Files, longest: nat) {
    forall name :: InFamily(name, path) && name in files ==>
      |files[name]| < MAX_LOG_BYTES + longest
      || exists origin :: InFamily(origin, path) && origin in found && files[name] == found[origin]
  }

  lemma StepKeepsSizeBound(store: Store, path: string, op: Op, found: Files, longest: nat)
    requires Counted(store, path) && SizeBound(store.files, path, found, longest)
    requires op.Write? ==> 0 < |op.line| <= longest
    ensures SizeBound(Step(store, path, op).files, path, found, longest)
  {
    RotationMoves(store.files, path);
    DistinctNames(path);
    hide BackupPath, Rotated;
    var next := Step(store, path, op).files;
    forall name | InFamily(name, path) && name in next
      ensures |next[name]| < MAX_LOG_BYTES + longest
              || exists origin :: InFamily(origin, path) && origin in found && next[name] == found[origin]
    {
      if name != path && op.Write? && store.bytesWritten >= MAX_LOG_BYTES {
        // each backup now holds what one of the files held before
        var source := if name == BackupPath(path, 1) then path
                      else if name == BackupPath(path, 2) then BackupPath(path, 1)
                      else if BackupPath(path, 2) in store.files then BackupPath(path, 2)
                      else BackupPath(path, 3);
        assert source in store.files && next[name] == store.files[source];
      }
    }
  }

  lemma {:induction false} RunKeepsSizeBound(store: Store, path: string, ops: seq<Op>, found: Files, longest: nat)
    requires Counted(store, path) && SizeBound(store.files, path, found, longest)
    requires LinesAtMost(ops, longest) && forall op :: op in ops && op.Write? ==> op.line != ""
    ensures SizeBound(Run(store, path, ops).files, path, found, longest)
    decreases |ops|
  {
    hide SizeBound, Step, Counted;
    if ops != [] {
      assert ops[0] in ops;
      StepCounts(store, path, ops[0]);
      StepKeepsSizeBound(store, path, ops[0], found, longest);
      RunKeepsSizeBound(Step(store, path, ops[0]), path, ops[1..], found, longest);
    }
  }

  /** After any run, a file of the log that is not one of those found at the start
      is below the limit plus one line. */
  lemma LogFilesStaySmall(store: Store, path: string, ops: seq<Op>, longest: nat)
    requires Counted(store, path)
    requires LinesAtMost(ops, longest) && forall op :: op in ops && op.Write? ==> op.line != ""
    ensures SizeBound(Run(store, path, ops).files, path, store.files, longest)
  {
    hide Run, LinesAtMost, InFamily;
    RunKeepsSizeBound(store, path, ops, store.files, longest);
  }

  // ---- retention -----------------------------------------------------------

  /** A log started without backups: backups fill up from the first on, each of
      at least the limit, and nothing is lost before all three are there. */
  predicate Retains(store: Store, path: string, all: string) {
    var b1, b2, b3 := BackupPath(path, 1), BackupPath(path, 2), BackupPath(path, 3);
    && Counted(store, path)
    && (b3 in store.files ==> b2 in store.files) && (b2 in store.files ==> b1 in store.files)
    && (b1 in store.files ==> |store.files[b1]| >= MAX_LOG_BYTES)
    && (b2 in store.files ==> |store.files[b2]| >= MAX_LOG_BYTES)
    && (b3 in store.files ==> |store.files[b3]| >= MAX_LOG_BYTES)
    && (b3 !in store.files ==> History(store.files, path) == all)
  }

  lemma StepRetains(store: Store, path: string, op: Op, all: string)
    requires Retains(store, path, all)
    ensures Retains(Step(store, path, op), path, all + LineOf(op))
  {
    StepCounts(store, path, op);
    match op
    case Write(line) =>
      DistinctNames(path);
      RotationMoves(store.files, path);
      LogKeepsHistory(store, path, line);
      hide BackupPath, Rotated, History;
    case Restart =>
      assert all + "" == all;
  }

  lemma RetainsEnough(store: Store, path: string, all: string)
    requires Retains(store, path, all)
    ensures History(store.files, path) == all || |History(store.files, path)| >= 3 * MAX_LOG_BYTES
  {
    hide BackupPath;
  }

  /** A log opened where there are no backups starts out complete. */
  lemma FreshLogRetains(files: Files, path: string)
    requires forall n :: 1 <= n <= 3 ==> BackupPath(path, n) !in files
    ensures Retains(Opened(files, path), path, Content(files, path))
  {
    DistinctNames(path);
    hide BackupPath;
    assert "" + "" + "" + Content(files, path) == Content(files, path);
  }

  /** From a log without backups, either every byte ever logged is still there,
      or at least the last three times the limit are. */
  lemma {:induction false} RunRetains(store: Store, path: string, ops: seq<Op>, all: string)
    requires Retains(store, path, all)
    ensures Retains(Run(store, path, ops), path, all + Written(ops))
    ensures History(Run(store, path, ops).files, path) == all + Written(ops)
         || |History(Run(store, path, ops).files, path)| >= 3 * MAX_LOG_BYTES
    decreases |ops|
  {
    hide Retains, Step, History;
    if ops == [] {
      assert all + Written(ops) == all;
      RetainsEnough(store, path, all);
    } else {
      StepRetains(store, path, ops[0], all);
      assert all + Written(ops) == all + LineOf(ops[0]) + Written(ops[1..]);
      RunRetains(Step(store, path, ops[0]), path, ops[1..], all + LineOf(ops[0]));
    }
  }
}
