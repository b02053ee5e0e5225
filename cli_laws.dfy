/** Properties of the command-line front end: the parser read as a sequence of tokens,
    the tallies behind the exit code, the agreement of the JSON branch with
    `printResult`, and the exit codes of `main` over the lifecycle operations. */
module CliLaws {
  import opened Fs
  import opened Collaborators
  import opened Install
  import opened Uninstall
  import opened Update
  import opened Cli

  // ---------------------------------------------------------------------------
  // The parser as tokens
  // ---------------------------------------------------------------------------

  /** What one step of the parser reads: a `--` switch, `--home` with the token after
      it (none when it is the last), or a plain word. */
  datatype Token = Switch(name: string) | HomeValue(value: Option<string>) | Word(text: string)

  /** The command line cut into tokens; `--home` swallows the next token whatever it
      is, so no word starts with `--`. */
  function Tokens(argv: seq<string>): (ts: seq<Token>)
    ensures forall i :: 0 <= i < |ts| && ts[i].Word? ==> !StartsWith(ts[i].text, "--")
    decreases |argv|
  {
    if argv == [] then []
    else if argv[0] == "--home" then
      [HomeValue(if |argv| > 1 then Some(argv[1]) else None)] + Tokens(if |argv| > 1 then argv[2..] else [])
    else if StartsWith(argv[0], "--") then [Switch(argv[0])] + Tokens(argv[1..])
    else [Word(argv[0])] + Tokens(argv[1..])
  }

  /** The first word, if any. */
  function FirstWord(ts: seq<Token>): (r: Option<string>)
    ensures r.Some? ==> Word(r.value) in ts
    ensures r.None? ==> forall i :: 0 <= i < |ts| ==> !ts[i].Word?
  {
    if ts == [] then None
    else if ts[0].Word? then Some(ts[0].text)
    else FirstWord(ts[1..])
  }

  /** The value of the last `--home`, or `h` when there is none. */
  function LastHome(ts: seq<Token>, h: Option<string>): (r: Option<string>)
    ensures r == h || HomeValue(r) in ts
    ensures (forall i :: 0 <= i < |ts| ==> !ts[i].HomeValue?) ==> r == h
  {
    if ts == [] then h
    else if ts[0].HomeValue? then LastHome(ts[1..], ts[0].value)
    else LastHome(ts[1..], h)
  }

  /** One token other than `--home` sets exactly the flag of its switch. */
  lemma ApplySwitches(arg: string, a: Args)
    requires arg != "--home"
    ensures var b := Apply(arg, a); var t := Tokens([arg])[0];
      && b.flags.version == (a.flags.version || t == Switch("--version"))
      && b.flags.force == (a.flags.force || t == Switch("--force"))
      && b.flags.json == (a.flags.json || t == Switch("--json"))
      && b.flags.strict == (a.flags.strict || t == Switch("--strict"))
      && b.flags.home == a.flags.home
  {
    assert [arg][0] == arg && [arg][1..] == [];
  }

  /** One token other than `--home` sets the command when it is the first word. */
  lemma ApplyCommand(arg: string, a: Args)
    requires arg != "--home"
    ensures var b := Apply(arg, a); var t := Tokens([arg])[0];
      && b.command == (if a.command.Some? || !t.Word? then a.command else Some(t.text))
      && b.flags.home == a.flags.home
  {
    assert [arg][0] == arg && [arg][1..] == [];
  }

  /** The token a single argument other than `--home` becomes heads the tokens of any
      command line starting with it. */
  lemma TokensHead(argv: seq<string>)
    requires argv != [] && argv[0] != "--home"
    ensures Tokens(argv) == [Tokens([argv[0]])[0]] + Tokens(argv[1..])
  {
    assert [argv[0]][0] == argv[0] && [argv[0]][1..] == [];
  }

  /** Reading the command line from any point: each switch flag ends up set when it was
      set before or its switch is among the tokens. */
  lemma {:induction false} InterpretSwitches(argv: seq<string>, a: Args)
    ensures var b := Interpret(argv, a); var ts := Tokens(argv);
      && b.flags.version == (a.flags.version || Switch("--version") in ts)
      && b.flags.force == (a.flags.force || Switch("--force") in ts)
      && b.flags.json == (a.flags.json || Switch("--json") in ts)
      && b.flags.strict == (a.flags.strict || Switch("--strict") in ts)
    decreases |argv|
  {
    if argv != [] {
      var ts := Tokens(argv);
      if argv[0] == "--home" {
        var rest := if |argv| > 1 then argv[2..] else [];
        assert ts[1..] == Tokens(rest);
        if |argv| > 1 {
          InterpretSwitches(rest, a.(flags := a.flags.(home := Some(argv[1]))));
        }
      } else {
        TokensHead(argv);
        ApplySwitches(argv[0], a);
        InterpretSwitches(argv[1..], Apply(argv[0], a));
      }
    }
  }

  /** Reading the command line from any point: the command stays the first word seen. */
  lemma {:induction false} InterpretCommand(argv: seq<string>, a: Args)
    ensures Interpret(argv, a).command == (if a.command.Some? then a.command else FirstWord(Tokens(argv)))
    decreases |argv|
  {
    if argv != [] {
      var ts := Tokens(argv);
      if argv[0] == "--home" {
        var rest := if |argv| > 1 then argv[2..] else [];
        assert ts[1..] == Tokens(rest);
        if |argv| > 1 {
          InterpretCommand(rest, a.(flags := a.flags.(home := Some(argv[1]))));
        }
      } else {
        TokensHead(argv);
        ApplyCommand(argv[0], a);
        InterpretCommand(argv[1..], Apply(argv[0], a));
      }
    }
  }

  /** Reading the command line from any point: the home is that of the last `--home`. */
  lemma {:induction false} InterpretHome(argv: seq<string>, a: Args)
    ensures Interpret(argv, a).flags.home == LastHome(Tokens(argv), a.flags.home)
    decreases |argv|
  {
    if argv != [] {
      var ts := Tokens(argv);
      if argv[0] == "--home" {
        var rest := if |argv| > 1 then argv[2..] else [];
        assert ts[1..] == Tokens(rest);
        if |argv| > 1 {
          InterpretHome(rest, a.(flags := a.flags.(home := Some(argv[1]))));
        }
      } else {
        TokensHead(argv);
        ApplyCommand(argv[0], a);
        InterpretHome(argv[1..], Apply(argv[0], a));
      }
    }
  }

  /** The three together. */
  lemma InterpretByTokens(argv: seq<string>, a: Args)
    ensures var b := Interpret(argv, a); var ts := Tokens(argv);
      && b.flags.version == (a.flags.version || Switch("--version") in ts)
      && b.flags.force == (a.flags.force || Switch("--force") in ts)
      && b.flags.json == (a.flags.json || Switch("--json") in ts)
      && b.flags.strict == (a.flags.strict || Switch("--strict") in ts)
      && b.command == (if a.command.Some? then a.command else FirstWord(ts))
      && b.flags.home == LastHome(ts, a.flags.home)
  {
    InterpretSwitches(argv, a);
    InterpretCommand(argv, a);
    InterpretHome(argv, a);
  }

  /** `parseArgs`: a flag is set exactly when its switch is among the tokens, the
      command is the first word, the home is the value of the last `--home`. */
  lemma ParseByTokens(argv: seq<string>)
    ensures var b := Parse(argv); var ts := Tokens(argv);
      && (b.flags.version <==> Switch("--version") in ts)
      && (b.flags.force <==> Switch("--force") in ts)
      && (b.flags.json <==> Switch("--json") in ts)
      && (b.flags.strict <==> Switch("--strict") in ts)
      && b.command == FirstWord(ts)
      && b.flags.home == LastHome(ts, None)
  {
    InterpretByTokens(argv, Defaults());
  }

  /** The token after `--home` is its value verbatim, even when it looks like a flag or
      a command: it sets none of them. */
  lemma HomeTakesNext(v: string, rest: seq<string>)
    ensures Tokens(["--home", v] + rest) == [HomeValue(Some(v))] + Tokens(rest)
    ensures Parse(["--home", v] + rest).command == Parse(rest).command
    ensures Parse(["--home", v] + rest).flags.(home := None) == Parse(rest).flags.(home := None)
    ensures Parse(["--home", v] + rest).flags.home == LastHome(Tokens(rest), Some(v))
  {
    var argv := ["--home", v] + rest;
    assert argv[0] == "--home" && argv[1] == v && argv[2..] == rest;
    var ts := Tokens(argv);
    assert ts == [HomeValue(Some(v))] + Tokens(rest);
    assert ts[1..] == Tokens(rest);
    ParseByTokens(argv);
    ParseByTokens(rest);
    InterpretByTokens(rest, Defaults().(flags := Defaults().flags.(home := Some(v))));
  }

  /** Giving a switch twice in a row is the same as giving it once. */
  lemma SwitchTwice(f: string, rest: seq<string>, a: Args)
    requires f in {"--version", "--force", "--json", "--strict"}
    ensures Interpret([f, f] + rest, a) == Interpret([f] + rest, a)
  {
    assert ([f, f] + rest)[0] == f && ([f, f] + rest)[1..] == [f] + rest;
    assert ([f] + rest)[0] == f && ([f] + rest)[1..] == rest;
  }

  // ---------------------------------------------------------------------------
  // normalizeStatus
  // ---------------------------------------------------------------------------

  /** Normalising twice is normalising once. */
  lemma NormalizeIdempotent(status: Option<string>)
    ensures NormalizeStatus(NormalizeStatus(status)) == NormalizeStatus(status)
  {
  }

  // ---------------------------------------------------------------------------
  // The tallies
  // ---------------------------------------------------------------------------

  predicate NoNullish(es: seq<Entry>) {
    forall i :: 0 <= i < |es| ==> es[i].Item?
  }

  /** Raw words that `normalizeStatus` does not map to `error`. */
  predicate Harmless(w: Option<Words>) {
    w.Some? ==> w.value.good !in {"fail", "error"} && w.value.warn !in {"fail", "error"}
  }

  lemma AnyStatusSplit(es: seq<Entry>, target: string)
    requires es != []
    ensures AnyStatus(es, target) <==>
      AnyStatus(es[..|es| - 1], target) || (es[|es| - 1].Item? && NormalizeStatus(es[|es| - 1].status) == Some(target))
  {
    var init := es[..|es| - 1];
    if AnyStatus(es, target) {
      var i :| 0 <= i < |es| && es[i].Item? && NormalizeStatus(es[i].status) == Some(target);
      if i < |es| - 1 {
        assert init[i] == es[i];
      }
    }
    if AnyStatus(init, target) {
      var i :| 0 <= i < |init| && init[i].Item? && NormalizeStatus(init[i].status) == Some(target);
      assert es[i] == init[i];
    }
  }

  /** A tallying loop that reads raw statuses throws exactly when some entry is null;
      doctor's never throws. */
  lemma {:induction false} TallyThrows(es: seq<Entry>, w: Option<Words>)
    ensures w.Some? ==> (TallyOf(es, w).None? <==> !NoNullish(es))
    ensures w.None? ==> TallyOf(es, w).Some?
    decreases |es|
  {
    if es != [] {
      var init := es[..|es| - 1];
      TallyThrows(init, w);
      assert NoNullish(es) <==> NoNullish(init) && es[|es| - 1].Item? by {
        if NoNullish(init) && es[|es| - 1].Item? {
          forall i | 0 <= i < |es| ensures es[i].Item? {
            if i < |es| - 1 { assert es[i] == init[i]; }
          }
        }
        if NoNullish(es) {
          forall i | 0 <= i < |init| ensures init[i].Item? {
            assert init[i] == es[i];
          }
        }
      }
    }
  }

  /** When a tallying loop finishes, it has counted an error exactly when some entry's
      status normalises to `error`, and (for doctor) a warning exactly when some
      normalises to `warn`; no entry is counted twice. */
  lemma {:induction false} TallyCounts(es: seq<Entry>, w: Option<Words>)
    requires Harmless(w)
    requires TallyOf(es, w).Some?
    ensures var c := TallyOf(es, w).value;
      && (c.bad > 0 <==> AnyStatus(es, "error"))
      && (w.None? ==> (c.warned > 0 <==> AnyStatus(es, "warn")))
      && c.good + c.warned + c.bad <= |es|
    decreases |es|
  {
    if es != [] {
      var init := es[..|es| - 1];
      assert TallyOf(init, w).Some?;
      TallyCounts(init, w);
      AnyStatusSplit(es, "error");
      AnyStatusSplit(es, "warn");
    }
  }

  // ---------------------------------------------------------------------------
  // printResult and the JSON branch
  // ---------------------------------------------------------------------------

  /** The exit codes of `printResult` for install: it throws exactly when there are
      file entries and one is null; otherwise it fails exactly when an entry's status
      normalises to `error`. */
  lemma PrintInstall(r: Report, strict: bool)
    requires !HasError(r)
    ensures PrintSpec("install", r, strict).Threw? <==> |r.files| > 0 && !NoNullish(r.files)
    ensures PrintSpec("install", r, strict).Printed? ==>
      (PrintSpec("install", r, strict).code == 1 <==> AnyStatus(r.files, "error")) &&
      PrintSpec("install", r, strict).code in {0, 1}
  {
    if |r.files| > 0 {
      TallyThrows(r.files, Some(InstallWords));
      if TallyOf(r.files, Some(InstallWords)).Some? {
        TallyCounts(r.files, Some(InstallWords));
      }
    }
  }

  /** The same for update, over its `updates` entries; without entries it succeeds. */
  lemma PrintUpdate(r: Report, strict: bool)
    requires !HasError(r)
    ensures PrintSpec("update", r, strict).Threw? <==> |r.updates| > 0 && !NoNullish(r.updates)
    ensures PrintSpec("update", r, strict).Printed? ==>
      (PrintSpec("update", r, strict).code == 1 <==> AnyStatus(r.updates, "error")) &&
      PrintSpec("update", r, strict).code in {0, 1}
  {
    if |r.updates| > 0 {
      TallyThrows(r.updates, Some(UpdateWords));
      if TallyOf(r.updates, Some(UpdateWords)).Some? {
        TallyCounts(r.updates, Some(UpdateWords));
      }
    }
  }

  /** Doctor never throws, and fails exactly when a check failed, or, in strict mode,
      when one warned. */
  lemma PrintDoctor(r: Report, strict: bool)
    requires !HasError(r)
    ensures PrintSpec("doctor", r, strict).Printed?
    ensures PrintSpec("doctor", r, strict).code == 1 <==>
      AnyStatus(r.checks, "error") || (strict && AnyStatus(r.checks, "warn"))
    ensures PrintSpec("doctor", r, strict).code in {0, 1}
  {
    TallyThrows(r.checks, None);
    TallyCounts(r.checks, None);
  }

  /** A non-empty error string fails every command; uninstall otherwise succeeds; an
      unknown command fails. */
  lemma PrintOthers(command: string, r: Report, strict: bool)
    ensures HasError(r) ==> PrintSpec(command, r, strict) == Printed(NoSummary, 1)
    ensures !HasError(r) && command == "uninstall" ==> PrintSpec(command, r, strict) == Printed(Removals(|r.removed|), 0)
    ensures command !in {"install", "uninstall", "update", "doctor"} ==> PrintSpec(command, r, strict).code == 1
  {
  }

  /** For the four commands, the JSON branch exits with the code `printResult` returns,
      as long as the entries `printResult` reads unguarded are not null. */
  lemma JsonAgrees(command: string, r: Report, strict: bool)
    requires command in {"install", "uninstall", "update", "doctor"}
    requires NoNullish(r.files) && NoNullish(r.updates)
    ensures PrintSpec(command, r, strict).Printed?
    ensures PrintSpec(command, r, strict).code == JsonExitCode(command, r, strict)
  {
    if !HasError(r) {
      if command == "install" {
        PrintInstall(r, strict);
        if |r.files| == 0 {
          assert !AnyStatus(r.files, "error");
        }
      } else if command == "update" {
        PrintUpdate(r, strict);
        if |r.updates| == 0 {
          assert !AnyStatus(r.updates, "error");
        }
      } else if command == "doctor" {
        PrintDoctor(r, strict);
      }
    }
  }

  /** Where the two differ: a null file entry makes `printResult` throw, which `main`
      turns into exit code 1, while the JSON branch skips it and exits 0. */
  lemma JsonDiffersOnNull()
    ensures PrintSpec("install", EmptyReport().(files := [Nullish]), false) == Threw
    ensures JsonExitCode("install", EmptyReport().(files := [Nullish]), false) == 0
    ensures ExitAfter("install", Some(EmptyReport().(files := [Nullish])), Flags(None, false, false, false, false)) == 1
    ensures ExitAfter("install", Some(EmptyReport().(files := [Nullish])), Flags(None, false, true, false, false)) == 0
  {
    var r := EmptyReport().(files := [Nullish]);
    assert r.files[..0] == [];
    assert !AnyStatus(r.files, "error");
  }

  /** After a command module has run, JSON mode and text mode exit alike, unless
      `printResult` would throw on a null entry. */
  lemma ExitIgnoresJson(command: string, result: Option<Report>, flags: Flags)
    requires command in {"install", "uninstall", "update", "doctor"}
    requires result.Some? ==> NoNullish(result.value.files) && NoNullish(result.value.updates)
    ensures ExitAfter(command, result, flags.(json := true)) == ExitAfter(command, result, flags.(json := false))
  {
    if result.Some? {
      JsonAgrees(command, result.value, flags.strict);
    }
  }

  // ---------------------------------------------------------------------------
  // main
  // ---------------------------------------------------------------------------

  /** `--version` anywhere among the tokens wins: exit 0 and nothing touched. */
  lemma VersionWins(s: Snapshot, env: Env, argv: seq<string>, doctor: Option<Report>)
    requires Switch("--version") in Tokens(argv)
    ensures RunCli(s, env, argv, doctor) == (s, 0)
  {
    ParseByTokens(argv);
  }

  /** Without `--version`: the word `help` exits 0, no word at all exits 1, and a word
      that names no command exits 1; none of them touches the filesystem. */
  lemma DispatchWithoutCommand(s: Snapshot, env: Env, argv: seq<string>, doctor: Option<Report>)
    requires Switch("--version") !in Tokens(argv)
    ensures FirstWord(Tokens(argv)) == Some("help") ==> RunCli(s, env, argv, doctor) == (s, 0)
    ensures FirstWord(Tokens(argv)).None? ==> RunCli(s, env, argv, doctor) == (s, 1)
    ensures FirstWord(Tokens(argv)).Some? &&
            FirstWord(Tokens(argv)).value !in {"help", "install", "uninstall", "update", "doctor"} ==>
            RunCli(s, env, argv, doctor) == (s, 1)
  {
    ParseByTokens(argv);
  }

  /** The exit code that follows an install result, in either mode. */
  lemma InstallResultExit(r: Result<InstallResult>, flags: Flags)
    ensures ExitAfter("install", InstallReport(r), flags) == if r.Ok? then 0 else 1
  {
    if r.Ok? {
      assert !AnyStatus(InstallReport(r).value.files, "error");
    }
  }

  /** The exit code that follows an uninstall result, in either mode. */
  lemma UninstallResultExit(r: Result<UninstallResult>, flags: Flags)
    ensures ExitAfter("uninstall", UninstallReport(r), flags) == if r.Ok? && r.value.Uninstalled? then 0 else 1
  {
  }

  /** The exit code that follows an update result, in either mode. */
  lemma UpdateResultExit(r: Result<UpdateResult>, flags: Flags)
    ensures ExitAfter("update", UpdateReport(r), flags) == if r.Ok? && !r.value.UpdateNotInstalled? then 0 else 1
  {
    if r.Ok? && !r.value.UpdateNotInstalled? {
      assert !AnyStatus(UpdateReport(r).value.updates, "error");
    }
  }

  /** `kilntwo install` exits 0 exactly when the install succeeded, in either mode. */
  lemma InstallExit(s: Snapshot, env: Env, argv: seq<string>, doctor: Option<Report>)
    requires !Parse(argv).flags.version && Parse(argv).command == Some("install")
    ensures var a := Parse(argv);
      var o := InstallSpec(s, env, a.flags.home, a.flags.force, None);
      RunCli(s, env, argv, doctor) == (o.fs, if o.result.Ok? then 0 else 1)
  {
    var a := Parse(argv);
    InstallResultExit(InstallSpec(s, env, a.flags.home, a.flags.force, None).result, a.flags);
  }

  /** `kilntwo uninstall` exits 0 exactly when there was an installation to remove and
      removing it succeeded. */
  lemma UninstallExit(s: Snapshot, env: Env, argv: seq<string>, doctor: Option<Report>)
    requires !Parse(argv).flags.version && Parse(argv).command == Some("uninstall")
    ensures var o := UninstallSpec(s, env, Parse(argv).flags.home);
      RunCli(s, env, argv, doctor) == (o.fs, if o.result.Ok? && o.result.value.Uninstalled? then 0 else 1)
  {
    var a := Parse(argv);
    UninstallResultExit(UninstallSpec(s, env, a.flags.home).result, a.flags);
  }

  /** `kilntwo update` exits 0 exactly when there was an installation and the update
      (or the finding that it is up to date) succeeded. */
  lemma UpdateExit(s: Snapshot, env: Env, argv: seq<string>, doctor: Option<Report>)
    requires !Parse(argv).flags.version && Parse(argv).command == Some("update")
    ensures var a := Parse(argv);
      var o := UpdateSpec(s, env, a.flags.home, a.flags.force);
      RunCli(s, env, argv, doctor) == (o.fs, if o.result.Ok? && !o.result.value.UpdateNotInstalled? then 0 else 1)
  {
    var a := Parse(argv);
    UpdateResultExit(UpdateSpec(s, env, a.flags.home, a.flags.force).result, a.flags);
  }

  /** `kilntwo doctor` fails exactly when a check failed, or, with `--strict`, warned
      (or when doctor itself threw, or reported an error). */
  lemma DoctorExit(s: Snapshot, env: Env, argv: seq<string>, doctor: Option<Report>)
    requires !Parse(argv).flags.version && Parse(argv).command == Some("doctor")
    ensures RunCli(s, env, argv, doctor).0 == s
    ensures RunCli(s, env, argv, doctor).1 == 1 <==>
      doctor.None? || HasError(doctor.value) || AnyStatus(doctor.value.checks, "error") ||
      (Parse(argv).flags.strict && AnyStatus(doctor.value.checks, "warn"))
  {
    if doctor.Some? && !HasError(doctor.value) {
      PrintDoctor(doctor.value, Parse(argv).flags.strict);
    }
  }
}
