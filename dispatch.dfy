/**
 * Dispatch, `Saver::run`, and the process entry point in `main.rs`: one
 * invocation ensures the database directory exists, then performs its one
 * action against the record store and the executor. Every way the process can
 * end (an error returned to `main`, a direct exit from deep inside an
 * operation, the exit of the child command) is a value of `Outcome`.
 */
module Dispatch {
  import opened Wrappers
  import opened Intent
  import opened Codec
  import opened Store

  /** What starting the child reports: it could not be spawned, or it ran and
      ended with an exit code or without one (killed by a signal). */
  datatype ChildStatus = SpawnError(message: string) | Exited(code: Option<int>)

  /** The operating system's answers during one invocation; `listFails` is a
      failure to enumerate an existing database directory or one of its entries. */
  datatype Effects = Effects(mkdirError: Option<string>, saveFault: SaveFault, listFails: bool, child: ChildStatus)

  /** How one invocation ends. */
  datatype Outcome =
    | Printed(lines: seq<string>)                           // `run` returns Ok: these lines on standard output
    | ChildExit(invocation: Invocation, code: int)           // `run_cmd` exits with the child's status
    | SpawnFailed(invocation: Invocation, message: string)  // `run_cmd` could not spawn: standard error
    | NotFound(name: string, dbDir: string)                 // "Command <name> not found in database <dir>"
    | Failed(message: string)                               // `run` returns Err: `main` prints it
    | Help                                                  // usage text from `build`
    | NoHome                                                // "Failed to get home directory" on standard error
    | Panicked                                              // an `unwrap` in `list` panics

  /** The process exit status of an outcome. */
  function ExitCode(o: Outcome): int {
    match o
    case Printed(_) => 0
    case ChildExit(_, code) => code
    case Panicked => 101
    case _ => 1
  }

  /** `run_cmd`: the child is started with the invocation, and the process ends
      with the child's exit code, 0 when it has none, or 1 when it cannot start. */
  function RunCmd(inv: Invocation, child: ChildStatus): (o: Outcome)
    ensures (o.ChildExit? || o.SpawnFailed?) && o.invocation == inv
    ensures child.SpawnError? ==> ExitCode(o) == 1
    ensures child.Exited? && child.code.Some? ==> ExitCode(o) == child.code.value
    ensures child == Exited(None) ==> ExitCode(o) == 0
  {
    match child
    case SpawnError(message) => SpawnFailed(inv, message)
    case Exited(code) => ChildExit(inv, if code.Some? then code.value else 0)
  }

  /** The directories once `create_db_dir` has succeeded for `dir`. */
  ghost function WithDbDir(dirs: map<string, map<string, string>>, dir: string): map<string, map<string, string>> {
    if dir in dirs then dirs else dirs[dir := map[]]
  }

  /** `run` for intent `s`: from the directories `before`, the directories `after`
      and the outcome `o` are one possible result. */
  ghost predicate Dispatched(
    before: map<string, map<string, string>>, after: map<string, map<string, string>>,
    s: Saver, fx: Effects, o: Outcome)
  {
    var d := s.dbDir;
    if d !in before && fx.mkdirError.Some? then
      o == Failed(fx.mkdirError.value) && after == before
    else
      var ready := WithDbDir(before, d);
      var records := ready[d];
      match s.action
      case Save =>
        (match fx.saveFault
         case CreateFails => o == Failed(SaveError) && after == ready
         case WriteFails => o == Failed(SaveError) && after == ready[d := records[s.name := ""]]
         case NoFault =>
           && after == ready[d := records[s.name := Encode(s.cmd, s.cmdArgs)]]
           && o == RunCmd(Invocation(s.cmd, s.cmdArgs), fx.child))
      case List =>
        && after == ready
        && if fx.listFails then o == Panicked
           else exists names :: Enumerates(names, records) && o == Printed(ListLines(names))
      case Show =>
        && after == ready
        && o == (if s.name in records then Printed([records[s.name]]) else NotFound(s.name, d))
      case Run =>
        && after == ready
        && o == (if s.name in records then RunCmd(Decode(records[s.name]), fx.child) else NotFound(s.name, d))
      case Delete =>
        if s.name in records then after == ready[d := records - {s.name}] && o == Printed([])
        else after == ready && o == NotFound(s.name, d)
  }

  /** `Saver::run`. */
  method Run(fs: FileSystem, s: Saver, fx: Effects) returns (o: Outcome)
    modifies fs
    ensures Dispatched(old(fs.dirs), fs.dirs, s, fx, o)
  {
    var created := fs.CreateDbDir(s.dbDir, fx.mkdirError);
    if created.Err? {
      return Failed(created.message);
    }
    match s.action {
      case Save =>
        var saved := fs.SaveCmd(s.dbDir, s.name, s.cmd, s.cmdArgs, fx.saveFault);
        if saved.Err? {
          return Failed(saved.message);
        }
        o := RunCmd(Invocation(s.cmd, s.cmdArgs), fx.child);
      case List =>
        var names, lines := fs.List(s.dbDir, fx.listFails);
        if lines.None? {
          return Panicked;
        }
        o := Printed(lines.value);
      case Run =>
        var content := fs.GetCmd(s.dbDir, s.name);
        if content.None? {
          return NotFound(s.name, s.dbDir);
        }
        o := RunCmd(Decode(content.value), fx.child);
      case Show =>
        var content := fs.GetCmd(s.dbDir, s.name);
        if content.None? {
          return NotFound(s.name, s.dbDir);
        }
        o := Printed([content.value]);
      case Delete =>
        var removed := fs.DeleteCmd(s.dbDir, s.name);
        if !removed {
          return NotFound(s.name, s.dbDir);
        }
        o := Printed([]);
    }
  }

  /** `main`: interpret the arguments, then dispatch; usage help and a missing
      home directory end the process before the filesystem is touched. */
  method Execute(fs: FileSystem, args: seq<string>, home: Option<string>, fx: Effects) returns (o: Outcome)
    modifies fs
    ensures Parse(args, home).HelpExit? ==> o == Help && fs.dirs == old(fs.dirs)
    ensures Parse(args, home).HomeMissing? ==> o == NoHome && fs.dirs == old(fs.dirs)
    ensures Parse(args, home).Built? ==> Dispatched(old(fs.dirs), fs.dirs, Parse(args, home).saver, fx, o)
  {
    var parsed := Build(args, home);
    match parsed {
      case HelpExit => o := Help;
      case HomeMissing => o := NoHome;
      case Built(s) => o := Run(fs, s, fx);
    }
  }

  // ---------------------------------------------------------------------------
  // Properties of dispatch

  /** Once the directory could be created, it exists afterwards, whatever the action. */
  lemma DirectoryExistsAfterwards(before: map<string, map<string, string>>, after: map<string, map<string, string>>,
                                  s: Saver, fx: Effects, o: Outcome)
    requires Dispatched(before, after, s, fx, o)
    ensures s.dbDir in after <==> !(s.dbDir !in before && fx.mkdirError.Some?)
    ensures s.dbDir in before ==> !o.Failed? || s.action.Save?
  {
  }

  /** List, Show and Run write nothing: at most the database directory is created. */
  lemma ReadingActionsDoNotWrite(before: map<string, map<string, string>>, after: map<string, map<string, string>>,
                                 s: Saver, fx: Effects, o: Outcome)
    requires Dispatched(before, after, s, fx, o)
    requires s.action.List? || s.action.Show? || s.action.Run?
    ensures s.dbDir in before ==> after == before
    ensures s.dbDir !in before ==> after == before || after == before[s.dbDir := map[]]
  {
  }

  /** Only the intent's own record can change, and no other directory. */
  lemma OtherRecordsUnchanged(before: map<string, map<string, string>>, after: map<string, map<string, string>>,
                              s: Saver, fx: Effects, o: Outcome)
    requires Dispatched(before, after, s, fx, o)
    ensures before.Keys <= after.Keys
    ensures forall d | d in before && d != s.dbDir :: after[d] == before[d]
    ensures s.dbDir in before ==> forall n | n in before[s.dbDir] && n != s.name ::
      n in after[s.dbDir] && after[s.dbDir][n] == before[s.dbDir][n]
    ensures after.Keys <= before.Keys + {s.dbDir}
    ensures s.dbDir in after ==>
      after[s.dbDir].Keys <= (if s.dbDir in before then before[s.dbDir].Keys else {}) + {s.name}
  {
  }

  /** Running a record that was saved with at least one argument, all of them
      words, starts the saved command with the saved arguments and writes nothing. */
  lemma SaveThenRunReplays(d0: map<string, map<string, string>>, d1: map<string, map<string, string>>,
                           d2: map<string, map<string, string>>,
                           save: Saver, run: Saver, fx1: Effects, fx2: Effects, o1: Outcome, o2: Outcome)
    requires save.action.Save? && run.action.Run?
    requires run.name == save.name && run.dbDir == save.dbDir
    requires save.dbDir in d0 || fx1.mkdirError.None?
    requires fx1.saveFault.NoFault?
    requires Word(save.cmd) && save.cmdArgs != [] && forall a <- save.cmdArgs :: Word(a)
    requires Dispatched(d0, d1, save, fx1, o1) && Dispatched(d1, d2, run, fx2, o2)
    ensures o1 == RunCmd(Invocation(save.cmd, save.cmdArgs), fx1.child)
    ensures o2 == RunCmd(Invocation(save.cmd, save.cmdArgs), fx2.child)
    ensures d2 == d1
  {
    DecodeEncode(save.cmd, save.cmdArgs);
  }

  /** Saving under a name twice and then showing it prints only the later content. */
  lemma LatestSaveWins(d0: map<string, map<string, string>>, d1: map<string, map<string, string>>,
                       d2: map<string, map<string, string>>, d3: map<string, map<string, string>>,
                       first: Saver, second: Saver, show: Saver,
                       fx1: Effects, fx2: Effects, fx3: Effects, o1: Outcome, o2: Outcome, o3: Outcome)
    requires first.action.Save? && second.action.Save? && show.action.Show?
    requires second.name == first.name && show.name == first.name
    requires second.dbDir == first.dbDir && show.dbDir == first.dbDir
    requires first.dbDir in d0 || fx1.mkdirError.None?
    requires fx1.saveFault.NoFault? && fx2.saveFault.NoFault?
    requires Dispatched(d0, d1, first, fx1, o1)
    requires Dispatched(d1, d2, second, fx2, o2)
    requires Dispatched(d2, d3, show, fx3, o3)
    ensures o3 == Printed([Encode(second.cmd, second.cmdArgs)])
  {
  }

  /** After a delete, reading the record again finds nothing. */
  lemma DeleteThenNotFound(d0: map<string, map<string, string>>, d1: map<string, map<string, string>>,
                           d2: map<string, map<string, string>>,
                           del: Saver, read: Saver, fx1: Effects, fx2: Effects, o1: Outcome, o2: Outcome)
    requires del.action.Delete? && (read.action.Show? || read.action.Run? || read.action.Delete?)
    requires read.name == del.name && read.dbDir == del.dbDir
    requires del.dbDir in d0 || fx1.mkdirError.None?
    requires Dispatched(d0, d1, del, fx1, o1) && Dispatched(d1, d2, read, fx2, o2)
    ensures o2 == NotFound(del.name, del.dbDir) && ExitCode(o2) == 1
  {
  }

  /** Deleting, showing or running a name with no record reports it as not found
      and exits with status 1, changing nothing but the creation of the directory. */
  lemma MissingRecordExitsOne(before: map<string, map<string, string>>, after: map<string, map<string, string>>,
                              s: Saver, fx: Effects, o: Outcome)
    requires s.action.Delete? || s.action.Show? || s.action.Run?
    requires s.dbDir in before || fx.mkdirError.None?
    requires s.dbDir in before ==> s.name !in before[s.dbDir]
    requires Dispatched(before, after, s, fx, o)
    ensures o == NotFound(s.name, s.dbDir) && ExitCode(o) == 1
    ensures after == WithDbDir(before, s.dbDir)
    ensures s.dbDir in before ==> after == before
  {
  }

  /** Listing prints one distinct line per record, and nothing for an empty
      directory; a failure to enumerate the directory is a panic (status 101). */
  lemma ListPrintsOneLinePerRecord(before: map<string, map<string, string>>, after: map<string, map<string, string>>,
                                   s: Saver, fx: Effects, o: Outcome)
    requires s.action.List? && (s.dbDir in before || fx.mkdirError.None?)
    requires Dispatched(before, after, s, fx, o)
    ensures fx.listFails <==> o == Panicked
    ensures fx.listFails ==> ExitCode(o) == 101
    ensures !fx.listFails ==> o.Printed? && ExitCode(o) == 0
    ensures o.Printed? ==> |o.lines| == |after[s.dbDir]|
    ensures o.Printed? ==> forall i, j | 0 <= i < j < |o.lines| :: o.lines[i] != o.lines[j]
    ensures o.Printed? && after[s.dbDir] == map[] ==> o.lines == []
  {
    if !fx.listFails {
      var names :| Enumerates(names, after[s.dbDir]) && o == Printed(ListLines(names));
      ListLinesDistinct(names);
    }
  }
}
