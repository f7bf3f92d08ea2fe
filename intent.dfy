/**
 * The argument interpreter, `Saver::build`: the process arguments become
 * either a validated intent or one of the two early exits (usage help, or
 * no home directory). Both early exits end the process with status 1; here
 * they are values.
 */
module Intent {
  import opened Wrappers
  import opened Text

  datatype Action = Save | List | Show | Run | Delete

  /** The validated intent of one invocation: the fields of `Saver`. */
  datatype Saver = Saver(action: Action, name: string, cmd: string, cmdArgs: seq<string>, dbDir: string)

  /** What `build` ends in: an intent, or one of its two exits. */
  datatype Parsed =
    | Built(saver: Saver)
    | HelpExit     // usage text on standard output, exit status 1
    | HomeMissing  // "Failed to get home directory" on standard error, exit status 1

  /** The option that names the database directory. */
  const DbFlag := "--saver-db"

  /** Appended to the home directory to give the default database directory. */
  const DbSuffix := "/.saver/db"

  /** The token that selects an action. */
  function ActionLetter(a: Action): string {
    match a
    case Save => "s"
    case List => "l"
    case Show => "g"
    case Run => "r"
    case Delete => "d"
  }

  /** The action a token selects, by exact match; no trimming, no other spelling. */
  function ActionOf(token: string): (r: Option<Action>)
    ensures r.Some? ==> ActionLetter(r.value) == token
    ensures r.None? ==> token !in {"s", "l", "g", "r", "d"}
  {
    if token == "s" then Some(Save)
    else if token == "l" then Some(List)
    else if token == "g" then Some(Show)
    else if token == "r" then Some(Run)
    else if token == "d" then Some(Delete)
    else None
  }

  /** Every action is selected by its own letter. */
  lemma ActionOfLetter(a: Action)
    ensures ActionOf(ActionLetter(a)) == Some(a)
  {
  }

  /** `get_default_db_dir` once the home directory is known. */
  function DefaultDbDir(home: string): (r: string)
    ensures |r| == |home| + |DbSuffix|
    ensures r[..|home|] == home && r[|home|..] == DbSuffix
  {
    home + DbSuffix
  }

  /** The number of positional tokens the action consumes after its letter. */
  function Arity(a: Action): nat {
    match a
    case Save => 2
    case List => 0
    case _ => 1
  }

  /** The token at position `i`, or the empty string when there is none
      (`args.next().unwrap_or_else(String::new)`). */
  function TokenAt(args: seq<string>, i: nat): string {
    if i < |args| then args[i] else ""
  }

  /** Every positional token the action needs is present and non-empty. */
  predicate PositionalsPresent(args: seq<string>, a: Action) {
    forall i | 2 <= i < 2 + Arity(a) :: TokenAt(args, i) != ""
  }

  /** A token that, once trimmed, is the database-directory option. */
  predicate IsDbFlag(token: string) {
    Trim(token) == DbFlag
  }

  /** The variables the scan of the trailing tokens updates. */
  datatype ScanState = ScanState(dbDir: string, nextIsDir: bool, cmdArgs: seq<string>)

  /** One iteration of the scan over the trailing tokens. */
  function Step(st: ScanState, token: string): ScanState {
    if IsDbFlag(token) then st.(nextIsDir := true)
    else if st.nextIsDir then st.(dbDir := token, nextIsDir := false)
    else st.(cmdArgs := st.cmdArgs + [token])
  }

  /** The scan of the trailing tokens `ts`, starting from the default directory `dir`. */
  function Scan(dir: string, ts: seq<string>): (r: ScanState)
    ensures r.nextIsDir <==> (|ts| > 0 && IsDbFlag(ts[|ts| - 1]))
  {
    if ts == [] then ScanState(dir, false, [])
    else Step(Scan(dir, ts[..|ts| - 1]), ts[|ts| - 1])
  }

  /** No argument the scan collects is the option itself. */
  lemma {:induction false} ScanArgsNotFlags(dir: string, ts: seq<string>)
    ensures forall a <- Scan(dir, ts).cmdArgs :: !IsDbFlag(a)
  {
    if ts != [] {
      var n := |ts| - 1;
      ScanArgsNotFlags(dir, ts[..n]);
      assert Scan(dir, ts) == Step(Scan(dir, ts[..n]), ts[n]);
    }
  }

  /** The tokens consumed before the trailing scan starts. */
  function ScanStart(a: Action): nat {
    2 + Arity(a)
  }

  /** What `build` computes, stated on the whole argument vector. */
  function Parse(args: seq<string>, home: Option<string>): (r: Parsed)
    ensures r.HomeMissing? <==> |args| >= 2 && ActionOf(args[1]).Some? && home.None?
    ensures r.Built? ==> |args| >= 2 && ActionOf(args[1]) == Some(r.saver.action)
    ensures r.Built? ==> |args| >= ScanStart(r.saver.action)
  {
    if |args| < 2 then HelpExit
    else match ActionOf(args[1])
      case None => HelpExit
      case Some(action) =>
        if home.None? then HomeMissing
        else if !PositionalsPresent(args, action) then HelpExit
        else
          assert TokenAt(args, ScanStart(action) - 1) != "" || action.List?;
          var st := Scan(DefaultDbDir(home.value), args[ScanStart(action)..]);
          var name := if action.List? then "" else args[2];
          var cmd := if action.Save? then args[3] else "";
          Built(Saver(action, name, cmd, st.cmdArgs, st.dbDir))
  }

  /** `Saver::build`: one forward pass over the argument vector. */
  method Build(args: seq<string>, home: Option<string>) returns (r: Parsed)
    ensures r == Parse(args, home)
  {
    var next := 1;  // the program name is skipped
    if next >= |args| {
      return HelpExit;
    }
    var arg1 := args[next];
    next := next + 1;
    var action: Action;
    if arg1 == "s" {
      action := Save;
    } else if arg1 == "l" {
      action := List;
    } else if arg1 == "g" {
      action := Show;
    } else if arg1 == "r" {
      action := Run;
    } else if arg1 == "d" {
      action := Delete;
    } else {
      return HelpExit;
    }

    var name, cmd := "", "";
    if home.None? {
      return HomeMissing;
    }

    match action {
      case Save =>
        var arg2 := TokenAt(args, next);
        next := if next < |args| then next + 1 else next;
        var arg3 := TokenAt(args, next);
        next := if next < |args| then next + 1 else next;
        if arg2 == "" || arg3 == "" {
          return HelpExit;
        }
        name, cmd := arg2, arg3;
      case List =>
      case _ =>
        var arg2 := TokenAt(args, next);
        next := if next < |args| then next + 1 else next;
        if arg2 == "" {
          return HelpExit;
        }
        name := arg2;
    }
    assert PositionalsPresent(args, action) && next == ScanStart(action);

    var st := ScanTrailing(DefaultDbDir(home.value), args[next..]);
    r := Built(Saver(action, name, cmd, st.cmdArgs, st.dbDir));
  }

  /** The loop of `build` over the tokens after the positionals: an option marks the
      next token as the directory, that token replaces the directory, and every
      other token is appended to the command's arguments. */
  method ScanTrailing(dir: string, ts: seq<string>) returns (st: ScanState)
    ensures st == Scan(dir, ts)
  {
    var dbDir, nextIsDir := dir, false;
    var cmdArgs: seq<string> := [];
    var next := 0;
    while next < |ts|
      invariant next <= |ts|
      invariant ScanState(dbDir, nextIsDir, cmdArgs) == Scan(dir, ts[..next])
    {
      var arg := ts[next];
      assert ts[..next + 1][..next] == ts[..next];
      next := next + 1;
      if IsDbFlag(arg) {
        nextIsDir := true;
        continue;
      }
      if nextIsDir {
        dbDir := arg;
        nextIsDir := false;
        continue;
      }
      cmdArgs := cmdArgs + [arg];
    }
    assert ts[..next] == ts;
    st := ScanState(dbDir, nextIsDir, cmdArgs);
  }

  // ---------------------------------------------------------------------------
  // The trailing tokens, position by position

  /** Position `i` holds the directory after an option (it follows an option and is not one). */
  predicate IsDirValue(ts: seq<string>, i: nat)
    requires i < |ts|
  {
    !IsDbFlag(ts[i]) && i > 0 && IsDbFlag(ts[i - 1])
  }

  /** Position `i` holds an argument of the command (neither an option nor its directory). */
  predicate IsCmdArg(ts: seq<string>, i: nat)
    requires i < |ts|
  {
    !IsDbFlag(ts[i]) && (i == 0 || !IsDbFlag(ts[i - 1]))
  }

  /** Which trailing tokens are at a command-argument position. */
  ghost function CmdArgMarks(ts: seq<string>): (marks: seq<bool>)
    ensures |marks| == |ts|
  {
    seq(|ts|, i requires 0 <= i < |ts| => IsCmdArg(ts, i))
  }

  /** The marked positions below `n`, in increasing order. */
  ghost function Picked(marks: seq<bool>, n: nat): (p: seq<nat>)
    requires n <= |marks|
    ensures forall k | 0 <= k < |p| :: p[k] < n
  {
    if n == 0 then []
    else Picked(marks, n - 1) + (if marks[n - 1] then [n - 1] else [])
  }

  /** `Picked` lists every marked position below `n`, each once, in increasing
      order, and no other position. */
  lemma {:induction false} PickedExact(marks: seq<bool>, n: nat)
    requires n <= |marks|
    ensures var p := Picked(marks, n);
      && (forall k | 0 <= k < |p| :: marks[p[k]])
      && (forall k, l | 0 <= k < l < |p| :: p[k] < p[l])
      && (forall i: nat | i < n :: marks[i] <==> i in p)
  {
    if n > 0 {
      PickedExact(marks, n - 1);
      var q, p := Picked(marks, n - 1), Picked(marks, n);
      var last := if marks[n - 1] then [n - 1] else [];
      assert p == q + last;
      forall k | 0 <= k < |p| ensures marks[p[k]] {
        if k < |q| { assert p[k] == q[k]; }
      }
      forall k, l | 0 <= k < l < |p| ensures p[k] < p[l] {
        if l < |q| { assert p[k] == q[k] && p[l] == q[l]; }
        else { assert p[k] == q[k] < n - 1 == p[l]; }
      }
      forall i: nat | i < n ensures marks[i] <==> i in p {
        assert i in p <==> i in q || i in last;
        assert n - 1 !in q;
      }
    }
  }

  /** The positions below `n` of the command's arguments among the trailing tokens. */
  ghost function ArgPositions(ts: seq<string>, n: nat): (p: seq<nat>)
    requires n <= |ts|
    ensures forall k | 0 <= k < |p| :: p[k] < n
  {
    Picked(CmdArgMarks(ts), n)
  }

  /** `ArgPositions` lists every command-argument position below `n`, each once,
      in increasing order, and no other position. */
  lemma ArgPositionsExact(ts: seq<string>, n: nat)
    requires n <= |ts|
    ensures var p := ArgPositions(ts, n);
      && (forall k | 0 <= k < |p| :: IsCmdArg(ts, p[k]))
      && (forall k, l | 0 <= k < l < |p| :: p[k] < p[l])
      && (forall i: nat | i < n :: IsCmdArg(ts, i) <==> i in p)
  {
    PickedExact(CmdArgMarks(ts), n);
  }

  /** The command's arguments are exactly the trailing tokens that are neither an
      option nor the directory after one (`ArgPositionsExact`), in their original order. */
  lemma ScanKeepsArgsInOrder(dir: string, ts: seq<string>)
    ensures var p := ArgPositions(ts, |ts|);
      && |Scan(dir, ts).cmdArgs| == |p|
      && forall k | 0 <= k < |p| :: Scan(dir, ts).cmdArgs[k] == ts[p[k]]
  {
    ArgsInOrderUpTo(dir, ts, |ts|);
    assert ts[..|ts|] == ts;
  }

  /** `ScanKeepsArgsInOrder` for the first `m` trailing tokens. */
  lemma {:induction false} ArgsInOrderUpTo(dir: string, ts: seq<string>, m: nat)
    requires m <= |ts|
    ensures var p := ArgPositions(ts, m);
      && |Scan(dir, ts[..m]).cmdArgs| == |p|
      && forall k | 0 <= k < |p| :: Scan(dir, ts[..m]).cmdArgs[k] == ts[p[k]]
  {
    if m > 0 {
      ArgsInOrderUpTo(dir, ts, m - 1);
      ScanArgsStep(dir, ts, m);
      assert CmdArgMarks(ts)[m - 1] == IsCmdArg(ts, m - 1);
      PicksExtend(ts, m - 1, Scan(dir, ts[..m - 1]).cmdArgs, ArgPositions(ts, m - 1), IsCmdArg(ts, m - 1));
    }
  }

  /** The `m`-th trailing token adds itself to the arguments exactly when it is
      at a command-argument position. */
  lemma ScanArgsStep(dir: string, ts: seq<string>, m: nat)
    requires 0 < m <= |ts|
    ensures Scan(dir, ts[..m]).cmdArgs ==
      Scan(dir, ts[..m - 1]).cmdArgs + (if IsCmdArg(ts, m - 1) then [ts[m - 1]] else [])
  {
    var prefix := ts[..m - 1];
    assert ts[..m][..m - 1] == prefix;
    assert m > 1 ==> prefix[m - 2] == ts[m - 2];
    assert Scan(dir, ts[..m]) == Step(Scan(dir, prefix), ts[m - 1]);
  }

  /** Arguments picked at positions `p` stay aligned when the token at `n` is
      picked at its own position. */
  lemma PicksExtend(ts: seq<string>, n: nat, a: seq<string>, p: seq<nat>, pick: bool)
    requires n < |ts| && |a| == |p|
    requires forall k | 0 <= k < |p| :: p[k] < n && a[k] == ts[p[k]]
    ensures var a', p' := a + (if pick then [ts[n]] else []), p + (if pick then [n] else []);
      |a'| == |p'| && forall k | 0 <= k < |p'| :: a'[k] == ts[p'[k]]
  {
  }

  /** Without a directory after an option, the default directory stays. */
  lemma {:induction false} ScanKeepsDefault(dir: string, ts: seq<string>)
    requires forall i: nat | i < |ts| :: !IsDirValue(ts, i)
    ensures Scan(dir, ts).dbDir == dir
  {
    if ts != [] {
      var n := |ts| - 1;
      var prefix := ts[..n];
      DirValuesOfPrefix(ts, n);
      ScanKeepsDefault(dir, prefix);
      assert !IsDirValue(ts, n);
    }
  }

  /** The last directory given after an option wins. */
  lemma {:induction false} ScanLastOverrideWins(dir: string, ts: seq<string>, j: nat)
    requires j < |ts| && IsDirValue(ts, j)
    requires forall k: nat | j < k < |ts| :: !IsDirValue(ts, k)
    ensures Scan(dir, ts).dbDir == ts[j]
  {
    var n := |ts| - 1;
    var prefix := ts[..n];
    ScanDirStep(dir, ts);
    if j < n {
      DirValuesOfPrefix(ts, n);
      ScanLastOverrideWins(dir, prefix, j);
    }
  }

  /** A proper prefix has a directory position exactly where the whole sequence has one. */
  lemma DirValuesOfPrefix(ts: seq<string>, n: nat)
    requires n <= |ts|
    ensures forall i: nat | i < n :: IsDirValue(ts[..n], i) == IsDirValue(ts, i)
  {
    forall i: nat | i < n ensures IsDirValue(ts[..n], i) == IsDirValue(ts, i) {
      assert ts[..n][i] == ts[i];
      assert i > 0 ==> ts[..n][i - 1] == ts[i - 1];
    }
  }

  /** The last trailing token becomes the directory exactly when it is at a
      directory position; otherwise the directory is what it was. */
  lemma ScanDirStep(dir: string, ts: seq<string>)
    requires ts != []
    ensures var n := |ts| - 1;
      Scan(dir, ts).dbDir == if IsDirValue(ts, n) then ts[n] else Scan(dir, ts[..n]).dbDir
  {
    var n := |ts| - 1;
    var prefix := ts[..n];
    assert n > 0 ==> prefix[n - 1] == ts[n - 1];
    assert Scan(dir, ts) == Step(Scan(dir, prefix), ts[n]);
  }

  /** An option with no token after it changes neither the directory nor the arguments. */
  lemma DanglingFlagIgnored(dir: string, ts: seq<string>, flag: string)
    requires IsDbFlag(flag)
    ensures Scan(dir, ts + [flag]).dbDir == Scan(dir, ts).dbDir
    ensures Scan(dir, ts + [flag]).cmdArgs == Scan(dir, ts).cmdArgs
  {
    assert (ts + [flag])[..|ts|] == ts;
  }

  /** Without any option among the trailing tokens, they are the command's arguments as given. */
  lemma {:induction false} ScanWithoutFlags(dir: string, ts: seq<string>)
    requires forall t <- ts :: !IsDbFlag(t)
    ensures Scan(dir, ts) == ScanState(dir, false, ts)
  {
    if ts != [] {
      var n := |ts| - 1;
      ScanWithoutFlags(dir, ts[..n]);
      NoFlagStep(dir, ts);
    }
  }

  /** A last token that is not the option, after a prefix that leaves every token
      as an argument, is appended as an argument too. */
  lemma NoFlagStep(dir: string, ts: seq<string>)
    requires ts != [] && !IsDbFlag(ts[|ts| - 1])
    requires Scan(dir, ts[..|ts| - 1]) == ScanState(dir, false, ts[..|ts| - 1])
    ensures Scan(dir, ts) == ScanState(dir, false, ts)
  {
    var n := |ts| - 1;
    assert ts[..n] + [ts[n]] == ts;
  }

  // ---------------------------------------------------------------------------
  // Properties of the whole interpretation

  /** The first token never matters. */
  lemma ParseIgnoresProgramName(p: string, q: string, rest: seq<string>, home: Option<string>)
    ensures Parse([p] + rest, home) == Parse([q] + rest, home)
  {
    var a, b := [p] + rest, [q] + rest;
    assert forall i | 1 <= i < |a| :: a[i] == b[i];
    assert forall i: nat | i >= 1 :: TokenAt(a, i) == TokenAt(b, i);
    assert forall k | 1 <= k <= |a| :: a[k..] == b[k..];
  }

  /** Usage help is the outcome exactly when the action token is missing or unknown,
      or (with a home directory) a required positional token is missing or empty. */
  lemma ParseHelpExactly(args: seq<string>, home: Option<string>)
    ensures Parse(args, home) == HelpExit <==>
      || |args| < 2
      || args[1] !in {"s", "l", "g", "r", "d"}
      || (home.Some? && args[1] == "s" && (TokenAt(args, 2) == "" || TokenAt(args, 3) == ""))
      || (home.Some? && args[1] in {"g", "r", "d"} && TokenAt(args, 2) == "")
  {
    if |args| >= 2 && args[1] in {"s", "l", "g", "r", "d"} && home.Some? {
      var a := ActionOf(args[1]).value;
      if a.Save? && !PositionalsPresent(args, a) {
        var i :| 2 <= i < 4 && TokenAt(args, i) == "";
      }
    }
  }

  /** A built intent names a record exactly when its action needs one, carries a
      command exactly when it saves, and takes its fields from their fixed positions. */
  lemma ParseBuiltFields(args: seq<string>, home: Option<string>)
    requires Parse(args, home).Built?
    ensures var s := Parse(args, home).saver;
      && args[1] == ActionLetter(s.action)
      && (s.action.List? ==> s.name == "" && s.cmd == "")
      && (!s.action.List? ==> s.name == args[2] && s.name != "")
      && (s.action.Save? ==> s.cmd == args[3] && s.cmd != "")
      && (!s.action.Save? ==> s.cmd == "")
      && forall a <- s.cmdArgs :: !IsDbFlag(a)
  {
    var s := Parse(args, home).saver;
    ScanArgsNotFlags(DefaultDbDir(home.value), args[ScanStart(s.action)..]);
    assert TokenAt(args, 2) != "" || s.action.List?;
    assert TokenAt(args, 3) != "" || !s.action.Save?;
  }

  /** Without the option, the database directory is the home directory followed by
      `/.saver/db` and every trailing token is an argument of the command. */
  lemma ParseDefaultDbDir(args: seq<string>, home: Option<string>)
    requires Parse(args, home).Built?
    requires forall t <- args[ScanStart(Parse(args, home).saver.action)..] :: !IsDbFlag(t)
    ensures home.Some?
    ensures Parse(args, home).saver.dbDir == home.value + "/.saver/db"
    ensures Parse(args, home).saver.cmdArgs == args[ScanStart(Parse(args, home).saver.action)..]
  {
    var s := Parse(args, home).saver;
    ScanWithoutFlags(DefaultDbDir(home.value), args[ScanStart(s.action)..]);
  }

  /** An option followed by a directory at the end of the arguments redirects the
      database to that directory, whatever the home directory is. */
  lemma ParseRedirectsDbDir(args: seq<string>, home: Option<string>, dir: string)
    requires Parse(args, home).Built?
    requires |args| >= ScanStart(Parse(args, home).saver.action) + 2
    requires IsDbFlag(args[|args| - 2]) && args[|args| - 1] == dir && !IsDbFlag(dir)
    ensures Parse(args, home).saver.dbDir == dir
  {
    var s := Parse(args, home).saver;
    var ts := args[ScanStart(s.action)..];
    ScanLastOverrideWins(DefaultDbDir(home.value), ts, |ts| - 1);
  }
}
