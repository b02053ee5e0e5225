/** The command-line front end: the argument parser, the status normaliser, the exit
    code `printResult` computes while it tallies a result, the exit code of the JSON
    branch, and `main`'s dispatch over the lifecycle operations. Console text and
    colours are not modelled; only what decides the exit code and the tallies of the
    summary line. */
module Cli {
  import opened Fs
  import opened Collaborators
  import opened Install
  import opened Uninstall
  import opened Update

  // ---------------------------------------------------------------------------
  // parseArgs
  // ---------------------------------------------------------------------------

  datatype Flags = Flags(home: Option<string>, force: bool, json: bool, strict: bool, version: bool)

  /** The parsed command line: the command (undefined when none was given) and the flags. */
  datatype Args = Args(command: Option<string>, flags: Flags)

  function Defaults(): Args {
    Args(None, Flags(None, false, false, false, false))
  }

  predicate StartsWith(s: string, prefix: string) {
    |prefix| <= |s| && s[..|prefix|] == prefix
  }

  /** One iteration of the `parseArgs` loop on a token other than `--home`: the four
      switches set their flag, any other `--` token is ignored, and the first plain
      token becomes the command. */
  function Apply(arg: string, a: Args): Args
  {
    if arg == "--version" then a.(flags := a.flags.(version := true))
    else if arg == "--force" then a.(flags := a.flags.(force := true))
    else if arg == "--json" then a.(flags := a.flags.(json := true))
    else if arg == "--strict" then a.(flags := a.flags.(strict := true))
    else if StartsWith(arg, "--") then a
    else if a.command.None? then a.(command := Some(arg))
    else a
  }

  /** The loop of `parseArgs` from some point on, with what it has gathered so far;
      `--home` takes the next token verbatim (none when it is the last). */
  function Interpret(argv: seq<string>, a: Args): Args
    decreases |argv|
  {
    if argv == [] then a
    else if argv[0] == "--home" then
      if |argv| > 1 then Interpret(argv[2..], a.(flags := a.flags.(home := Some(argv[1]))))
      else a.(flags := a.flags.(home := None))
    else Interpret(argv[1..], Apply(argv[0], a))
  }

  /** `parseArgs`. */
  function Parse(argv: seq<string>): Args {
    Interpret(argv, Defaults())
  }

  /** The tokens from index `i` on; past the end there are none. */
  function From(argv: seq<string>, i: int): seq<string>
    requires 0 <= i
  {
    if i <= |argv| then argv[i..] else []
  }

  lemma InterpretStep(argv: seq<string>, i: int, a: Args)
    requires 0 <= i < |argv|
    ensures Interpret(From(argv, i), a) ==
      if argv[i] == "--home" then
        Interpret(From(argv, i + 2), a.(flags := a.flags.(home := if i + 1 < |argv| then Some(argv[i + 1]) else None)))
      else Interpret(From(argv, i + 1), Apply(argv[i], a))
  {
    var rest := argv[i..];
    assert rest[0] == argv[i] && rest[1..] == From(argv, i + 1);
    if i + 1 < |argv| {
      assert rest[1] == argv[i + 1] && rest[2..] == From(argv, i + 2);
    }
  }

  /** The `parseArgs` loop. */
  method ParseArgs(argv: seq<string>) returns (a: Args)
    ensures a == Parse(argv)
  {
    var flags := Flags(None, false, false, false, false);
    var command: Option<string> := None;
    var i := 0;
    assert From(argv, 0) == argv;
    while i < |argv|
      invariant 0 <= i <= |argv| + 1
      invariant Parse(argv) == Interpret(From(argv, i), Args(command, flags))
    {
      InterpretStep(argv, i, Args(command, flags));
      var arg := argv[i];
      if arg == "--version" {
        flags := flags.(version := true);
      } else if arg == "--force" {
        flags := flags.(force := true);
      } else if arg == "--json" {
        flags := flags.(json := true);
      } else if arg == "--strict" {
        flags := flags.(strict := true);
      } else if arg == "--home" {
        flags := flags.(home := if i + 1 < |argv| then Some(argv[i + 1]) else None);
        i := i + 1;
      } else if StartsWith(arg, "--") {
      } else if command.None? {
        command := Some(arg);
      }
      i := i + 1;
    }
    assert From(argv, i) == [];
    a := Args(command, flags);
  }

  // ---------------------------------------------------------------------------
  // normalizeStatus
  // ---------------------------------------------------------------------------

  /** `normalizeStatus`; an absent status (undefined, null, or an entry that is itself
      null) is returned as it is, like any other unknown status. */
  function NormalizeStatus(status: Option<string>): (r: Option<string>)
    ensures r == Some("ok") <==> status == Some("pass") || status == Some("ok")
    ensures r == Some("error") <==> status == Some("fail") || status == Some("error")
    ensures r == Some("warn") <==> status == Some("warn")
    ensures status !in {Some("pass"), Some("ok"), Some("fail"), Some("error"), Some("warn")} ==> r == status
  {
    if status == Some("pass") || status == Some("ok") then Some("ok")
    else if status == Some("fail") || status == Some("error") then Some("error")
    else if status == Some("warn") then Some("warn")
    else status
  }

  // ---------------------------------------------------------------------------
  // printResult
  // ---------------------------------------------------------------------------

  /** One element of a `files`, `updates` or `checks` array: null or undefined, or an
      object with a status (any other value reads like an object without one). */
  datatype Entry = Nullish | Item(status: Option<string>)

  /** The result object as `printResult` and the JSON branch read it. A field that is
      not an array reads as empty, an `error` that is not a string as absent; a null
      result reads like one with every field absent. */
  datatype Report = Report(
    error: Option<string>,
    files: seq<Entry>,
    installed: seq<string>,
    skipped: seq<string>,
    removed: seq<string>,
    updates: seq<Entry>,
    status: Option<string>,
    checks: seq<Entry>)

  function EmptyReport(): Report {
    Report(None, [], [], [], [], [], None, [])
  }

  /** The raw statuses install (`installed`/`skipped`) and update (`updated`/`skipped`)
      also count as good or skipped; doctor has none. */
  datatype Words = Words(good: string, warn: string)

  const InstallWords := Words("installed", "skipped")
  const UpdateWords := Words("updated", "skipped")

  datatype Class = Good | Warned | Bad | Unmarked

  /** How one iteration of a tallying loop classifies an entry; None when it throws,
      which it does for a null entry exactly where it reads `entry.status` unguarded. */
  function Classify(e: Entry, w: Option<Words>): Option<Class>
  {
    var st := NormalizeStatus(if e.Item? then e.status else None);
    if st == Some("ok") then Some(Good)
    else if w.Some? && e.Nullish? then None
    else if w.Some? && e.status == Some(w.value.good) then Some(Good)
    else if st == Some("warn") then Some(Warned)
    else if w.Some? && e.status == Some(w.value.warn) then Some(Warned)
    else if st == Some("error") then Some(Bad)
    else Some(Unmarked)
  }

  datatype Counts = Counts(good: nat, warned: nat, bad: nat)

  function Bump(c: Counts, k: Class): Counts {
    match k
      case Good => c.(good := c.good + 1)
      case Warned => c.(warned := c.warned + 1)
      case Bad => c.(bad := c.bad + 1)
      case Unmarked => c
  }

  /** The three counters of a tallying loop over `es`, or None when an entry throws. */
  function TallyOf(es: seq<Entry>, w: Option<Words>): Option<Counts>
    decreases |es|
  {
    if es == [] then Some(Counts(0, 0, 0))
    else match TallyOf(es[..|es| - 1], w)
      case None => None
      case Some(c) =>
        match Classify(es[|es| - 1], w)
          case None => None
          case Some(k) => Some(Bump(c, k))
  }

  /** A tallying loop of `printResult`. */
  method CountEntries(es: seq<Entry>, w: Option<Words>) returns (r: Option<Counts>)
    ensures r == TallyOf(es, w)
  {
    var c := Counts(0, 0, 0);
    for i := 0 to |es|
      invariant TallyOf(es[..i], w) == Some(c)
    {
      assert es[..i + 1][..i] == es[..i];
      var k := Classify(es[i], w);
      if k.None? {
        assert TallyOf(es[..i + 1], w) == None;
        assert es[..|es|] == es;
        TallyNonePropagates(es, w, i + 1);
        return None;
      }
      c := Bump(c, k.value);
    }
    assert es[..|es|] == es;
    r := Some(c);
  }

  /** A throwing prefix makes the whole loop throw. */
  lemma {:induction false} TallyNonePropagates(es: seq<Entry>, w: Option<Words>, n: int)
    requires 0 <= n <= |es| && TallyOf(es[..n], w) == None
    ensures TallyOf(es, w) == None
    decreases |es| - n
  {
    if n < |es| {
      assert es[..n + 1][..n] == es[..n];
      TallyNonePropagates(es, w, n + 1);
    } else {
      assert es[..n] == es;
    }
  }

  /** The summary line `printResult` prints last. */
  datatype Summary =
    | Installs(installed: nat, skipped: nat, errors: nat)
    | Removals(removed: nat)
    | Updates(updated: nat, skipped: nat, errors: nat)
    | Checks(passed: nat, warned: nat, failed: nat)
    | NoSummary

  /** What `printResult` does: either it throws, or it prints a summary and returns an
      exit code. */
  datatype Printed = Threw | Printed(summary: Summary, code: int)

  predicate HasError(r: Report) {
    r.error.Some? && |r.error.value| > 0
  }

  /** `printResult`. */
  function PrintSpec(command: string, r: Report, strict: bool): Printed
  {
    if HasError(r) then Printed(NoSummary, 1)
    else if command == "install" then
      if |r.files| > 0 then
        match TallyOf(r.files, Some(InstallWords))
          case None => Threw
          case Some(c) => Printed(Installs(c.good, c.warned, c.bad), if c.bad > 0 then 1 else 0)
      else Printed(Installs(|r.installed|, |r.skipped|, 0), 0)
    else if command == "uninstall" then Printed(Removals(|r.removed|), 0)
    else if command == "update" then
      if |r.updates| > 0 then
        match TallyOf(r.updates, Some(UpdateWords))
          case None => Threw
          case Some(c) => Printed(Updates(c.good, c.warned, c.bad), if c.bad > 0 then 1 else 0)
      else if r.status == Some("up-to-date") then Printed(Updates(0, 0, 0), 0)
      else Printed(Updates(|r.installed|, 0, 0), 0)
    else if command == "doctor" then
      match TallyOf(r.checks, None)
        case None => Threw
        case Some(c) => Printed(Checks(c.good, c.warned, c.bad), if c.bad > 0 || (strict && c.warned > 0) then 1 else 0)
    else Printed(NoSummary, 1)
  }

  /** A loop that counts one per path. */
  method CountPaths(paths: seq<string>) returns (n: nat)
    ensures n == |paths|
  {
    n := 0;
    for i := 0 to |paths|
      invariant n == i
    {
      n := n + 1;
    }
  }

  /** `printResult`. */
  method PrintResult(command: string, r: Report, flags: Flags) returns (p: Printed)
    ensures p == PrintSpec(command, r, flags.strict)
  {
    if HasError(r) {
      return Printed(NoSummary, 1);
    }
    if command == "install" {
      if |r.files| > 0 {
        var c := CountEntries(r.files, Some(InstallWords));
        if c.None? {
          return Threw;
        }
        return Printed(Installs(c.value.good, c.value.warned, c.value.bad), if c.value.bad > 0 then 1 else 0);
      }
      var installed := CountPaths(r.installed);
      var skipped := CountPaths(r.skipped);
      return Printed(Installs(installed, skipped, 0), 0);
    }
    if command == "uninstall" {
      return Printed(Removals(|r.removed|), 0);
    }
    if command == "update" {
      if |r.updates| > 0 {
        var c := CountEntries(r.updates, Some(UpdateWords));
        if c.None? {
          return Threw;
        }
        return Printed(Updates(c.value.good, c.value.warned, c.value.bad), if c.value.bad > 0 then 1 else 0);
      }
      if r.status == Some("up-to-date") {
        return Printed(Updates(0, 0, 0), 0);
      }
      var updated := CountPaths(r.installed);
      return Printed(Updates(updated, 0, 0), 0);
    }
    if command == "doctor" {
      var c := CountEntries(r.checks, None);
      if c.None? {
        return Threw;
      }
      return Printed(Checks(c.value.good, c.value.warned, c.value.bad),
                     if c.value.bad > 0 || (flags.strict && c.value.warned > 0) then 1 else 0);
    }
    p := Printed(NoSummary, 1);
  }

  // ---------------------------------------------------------------------------
  // The JSON branch of main
  // ---------------------------------------------------------------------------

  /** `es.some((e) => e && normalizeStatus(e.status) === target)`. */
  predicate AnyStatus(es: seq<Entry>, target: string) {
    exists i :: 0 <= i < |es| && es[i].Item? && NormalizeStatus(es[i].status) == Some(target)
  }

  /** The exit code of the JSON branch. */
  function JsonExitCode(command: string, r: Report, strict: bool): int
  {
    if HasError(r) then 1
    else if command == "install" then (if AnyStatus(r.files, "error") then 1 else 0)
    else if command == "update" then (if AnyStatus(r.updates, "error") then 1 else 0)
    else if command == "doctor" then (if AnyStatus(r.checks, "error") || (strict && AnyStatus(r.checks, "warn")) then 1 else 0)
    else 0
  }

  // ---------------------------------------------------------------------------
  // main
  // ---------------------------------------------------------------------------

  /** The objects the lifecycle operations return, as the front end reads them; None
      when the operation threw. */
  function InstallReport(r: Result<InstallResult>): Option<Report> {
    if r.Fail? then None
    else Some(EmptyReport().(installed := r.value.installed, skipped := r.value.skipped))
  }

  function UninstallReport(r: Result<UninstallResult>): Option<Report> {
    if r.Fail? then None
    else if r.value.NotInstalled? then Some(EmptyReport().(error := Some("not-installed")))
    else Some(EmptyReport().(removed := r.value.removed))
  }

  function UpdateReport(r: Result<UpdateResult>): Option<Report> {
    match r
      case Fail(_) => None
      case Ok(UpdateNotInstalled) => Some(EmptyReport().(error := Some("not-installed")))
      case Ok(UpToDate(_)) => Some(EmptyReport().(status := Some("up-to-date")))
      case Ok(Updated(_, _, installed, removed)) =>
        Some(EmptyReport().(status := Some("updated"), installed := installed, removed := removed))
  }

  /** The exit code once a command module has run: a throw is caught and exits 1, the
      JSON branch decides in JSON mode, `printResult` otherwise (a throw inside it is
      caught too). */
  function ExitAfter(command: string, result: Option<Report>, flags: Flags): int
  {
    if result.None? then 1
    else if flags.json then JsonExitCode(command, result.value, flags.strict)
    else match PrintSpec(command, result.value, flags.strict)
      case Threw => 1
      case Printed(_, code) => code
  }

  /** `main` over the filesystem: the new filesystem and the exit code. `--version`
      wins over everything, `help` and a missing command print the help text, the
      lifecycle commands run on the filesystem with the home and force flags (install
      without a project path), doctor's result is supplied from outside, and anything
      else prints the help text and fails. */
  function RunCli(s: Snapshot, env: Env, argv: seq<string>, doctor: Option<Report>): (Snapshot, int)
  {
    var a := Parse(argv);
    if a.flags.version then (s, 0)
    else if a.command == Some("help") then (s, 0)
    else if a.command.None? then (s, 1)
    else
      var command := a.command.value;
      if command == "install" then
        var o := InstallSpec(s, env, a.flags.home, a.flags.force, None);
        (o.fs, ExitAfter(command, InstallReport(o.result), a.flags))
      else if command == "uninstall" then
        var o := UninstallSpec(s, env, a.flags.home);
        (o.fs, ExitAfter(command, UninstallReport(o.result), a.flags))
      else if command == "update" then
        var o := UpdateSpec(s, env, a.flags.home, a.flags.force);
        (o.fs, ExitAfter(command, UpdateReport(o.result), a.flags))
      else if command == "doctor" then (s, ExitAfter(command, doctor, a.flags))
      else (s, 1)
  }
}
