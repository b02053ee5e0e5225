/** What `update` guarantees, and how install and uninstall fit together: uninstall
    removes exactly what the preceding install recorded, and a second update right
    after an update finds everything up to date. */
module UpdateLaws {
  import opened Fs
  import opened Collaborators
  import opened Paths
  import opened Install
  import opened InstallProofs
  import opened InstallLaws
  import opened Uninstall
  import opened UninstallLaws
  import opened Update

  // ---------------------------------------------------------------------------
  // Install, then uninstall
  // ---------------------------------------------------------------------------

  lemma DistinctConcat(x: seq<string>, y: seq<string>)
    requires Distinct(x) && Distinct(y) && forall d :: d in x ==> d !in y
    ensures Distinct(x + y)
  {
    forall i, j | 0 <= i < j < |x + y| ensures (x + y)[i] != (x + y)[j] {
      if j < |x| {
        assert (x + y)[i] == x[i] && (x + y)[j] == x[j];
      } else if i < |x| {
        assert (x + y)[i] == x[i] && (x + y)[j] == y[j - |x|];
        assert x[i] in x && y[j - |x|] in y;
      } else {
        assert (x + y)[i] == y[i - |x|] && (x + y)[j] == y[j - |x|];
      }
    }
  }

  /** With distinct destinations, the installed list repeats no path. */
  lemma {:induction false} InstalledDistinct(jobs: seq<Job>, acts: seq<Action>)
    requires |acts| == |jobs| && DistinctDests(jobs)
    ensures Distinct(InstalledOf(jobs, acts))
    decreases |jobs|
  {
    if jobs != [] {
      var rest := InstalledOf(jobs[1..], acts[1..]);
      assert DistinctDests(jobs[1..]) by {
        assert forall i :: 0 <= i < |jobs[1..]| ==> jobs[1..][i] == jobs[i + 1];
      }
      InstalledDistinct(jobs[1..], acts[1..]);
      InstalledFrom(jobs[1..], acts[1..]);
      forall d | d in InstalledPart(jobs[0], acts[0]) ensures d !in rest {
        assert d == jobs[0].dest;
        forall i | 0 <= i < |jobs[1..]| ensures jobs[1..][i].dest != d {
          assert jobs[1..][i] == jobs[i + 1];
        }
      }
      DistinctConcat(InstalledPart(jobs[0], acts[0]), rest);
    }
  }

  lemma PresentAll(ts: seq<string>, files: map<string, Content>)
    requires forall x :: x in ts ==> x in files
    ensures Present(ts, files) == ts && Absent(ts, files) == []
    decreases |ts|
  {
    if ts != [] {
      assert ts == [ts[0]] + ts[1..];
      PresentAll(ts[1..], files);
    }
  }

  /** The project document is none of the directories the prune loop tries. */
  lemma DocNotPruned(cwd: string, home: Option<string>, defaultHome: string)
    ensures ProjectClaudeMd(cwd) !in PrunedDirs(ResolvePaths(home, defaultHome))
  {
    var p := ResolvePaths(home, defaultHome);
    var doc := ProjectClaudeMd(cwd);
    assert doc == cwd + "/" + "CLAUDE.md";
    assert doc[|doc| - 1] == 'd';
    assert p.templatesDir[|p.templatesDir| - 1] == 's';
    assert p.kilntwoDir[|p.kilntwoDir| - 1] == 'o';
    assert p.commandsDir[|p.commandsDir| - 1] == 'w';
  }

  /** An install reports no path twice as installed. */
  lemma InstalledOnce(s: Snapshot, env: Env, home: Option<string>, force: bool, projectPath: Option<string>)
    requires WellFormed(env.assets)
    requires InstallSpec(s, env, home, force, projectPath).result.Ok?
    ensures Distinct(InstallSpec(s, env, home, force, projectPath).result.value.installed)
  {
    var p := ResolvePaths(home, env.defaultHome);
    var made := MkdirAll(s, OwnedDirs(p));
    var jobs := Jobs(env.assets, p);
    InstallNormalForm(s, env, home, force, projectPath);
    JobsDistinct(env.assets, home, env.defaultHome);
    InstalledDistinct(jobs, Decisions(made.fs, jobs, force, env.checksum).value);
  }

  /** The manifest an install writes lists, once each and in order, exactly the paths
      it reports as installed, all of them files. */
  lemma InstallRecordsInstalled(s: Snapshot, env: Env, home: Option<string>, force: bool, projectPath: Option<string>)
    requires WellFormed(env.assets) && RoundTrips(env.codec)
    requires InstallSpec(s, env, home, force, projectPath).result.Ok?
    ensures var o := InstallSpec(s, env, home, force, projectPath);
      var p := ResolvePaths(home, env.defaultHome);
      var m := ReadManifest(o.fs, p.manifestPath, env.codec);
      m.Ok? && m.value.Some? &&
      Targets(p.claudeDir, m.value.value.files) == o.result.value.installed &&
      Distinct(o.result.value.installed) &&
      forall x :: x in o.result.value.installed ==> x in o.fs.files
  {
    var o := InstallSpec(s, env, home, force, projectPath);
    var p := ResolvePaths(home, env.defaultHome);
    InstallManifest(s, env, home, force, projectPath);
    InstalledOnce(s, env, home, force, projectPath);
    var m := ReadManifest(o.fs, p.manifestPath, env.codec).value.value;
    TargetsOfRelative(p.claudeDir, o.result.value.installed, m.files);
  }

  /** Joining `c` back onto paths made relative to it gives the paths again. */
  lemma TargetsOfRelative(c: string, installed: seq<string>, entries: seq<FileEntry>)
    requires |entries| == |installed|
    requires forall k :: 0 <= k < |installed| ==> Under(c, installed[k]) && entries[k].path == installed[k][|c| + 1..]
    ensures Targets(c, entries) == installed
  {
    var ts := Targets(c, entries);
    forall k | 0 <= k < |installed| ensures ts[k] == installed[k] {
      assert installed[k][..|c| + 1] == c + "/";
      assert installed[k] == installed[k][..|c| + 1] + installed[k][|c| + 1..];
    }
  }

  /** A successful install leaves a valid tree holding the directories the prune loop
      tries, with neither the document nor the manifest a directory, and the document below
      directories only. */
  lemma InstallLeavesDirs(s: Snapshot, env: Env, home: Option<string>, force: bool)
    requires s.Valid() && WellFormed(env.assets)
    requires InstallSpec(s, env, home, force, None).result.Ok?
    ensures var o := InstallSpec(s, env, home, force, None);
      var p := ResolvePaths(home, env.defaultHome);
      o.fs.Valid() && ProjectClaudeMd(env.cwd) !in o.fs.dirs && p.manifestPath !in o.fs.dirs &&
      Ancestors(ProjectClaudeMd(env.cwd)) <= o.fs.dirs &&
      forall d :: d in PrunedDirs(p) ==> d in o.fs.dirs
  {
    var p := ResolvePaths(home, env.defaultHome);
    InstallNormalForm(s, env, home, force, None);
    InstallFrame(s, env, home, force, None);
    var made := MkdirAll(s, OwnedDirs(p));
    assert forall d :: d in PrunedDirs(p) ==> d in OwnedDirs(p);
    assert forall d :: d in PrunedDirs(p) ==> d in DirChain(d);
  }

  /** After the walk and the stripping, none of the pruned directories is a file. */
  lemma PrunedNotFiles(t: Snapshot, env: Env, home: Option<string>, listed: seq<string>)
    requires t.Valid()
    requires forall d :: d in PrunedDirs(ResolvePaths(home, env.defaultHome)) ==> d in t.dirs
    ensures var walked := UnlinkAll(t, listed);
      var stripped := StripDoc(walked.fs, ProjectClaudeMd(env.cwd), env.removeProtocol);
      forall i :: 0 <= i < |PrunedDirs(ResolvePaths(home, env.defaultHome))| ==>
        PrunedDirs(ResolvePaths(home, env.defaultHome))[i] !in stripped.fs.files
  {
    var p := ResolvePaths(home, env.defaultHome);
    var doc := ProjectClaudeMd(env.cwd);
    UnlinkAllShape(t, listed);
    var walked := UnlinkAll(t, listed);
    var stripped := StripDoc(walked.fs, doc, env.removeProtocol);
    DocNotPruned(env.cwd, home, env.defaultHome);
    forall i | 0 <= i < |PrunedDirs(p)| ensures PrunedDirs(p)[i] !in stripped.fs.files {
      var d := PrunedDirs(p)[i];
      assert d != doc && d in t.dirs && d !in t.files;
      assert Lookup(stripped.fs.files, d) == Lookup(walked.fs.files, d);
    }
  }

  /** `uninstall` over a tree whose manifest lists distinct files, none a directory,
      whose owned directories are there and whose document is not a directory but lies
      below directories only: it succeeds, removes every listed path and finds nothing
      missing. */
  lemma UninstallClean(t: Snapshot, env: Env, home: Option<string>, m: Manifest, listed: seq<string>)
    requires t.Valid()
    requires ReadManifest(t, ResolvePaths(home, env.defaultHome).manifestPath, env.codec) == Ok(Some(m))
    requires Targets(ResolvePaths(home, env.defaultHome).claudeDir, m.files) == listed
    requires Distinct(listed) && forall x :: x in listed ==> x in t.files
    requires ProjectClaudeMd(env.cwd) !in t.dirs && ResolvePaths(home, env.defaultHome).manifestPath !in t.dirs
    requires Ancestors(ProjectClaudeMd(env.cwd)) <= t.dirs
    requires forall d :: d in PrunedDirs(ResolvePaths(home, env.defaultHome)) ==> d in t.dirs
    ensures UninstallSpec(t, env, home).result == Ok(Uninstalled(listed, []))
  {
    var p := ResolvePaths(home, env.defaultHome);
    UnlinkAllShape(t, listed);
    UnlinkAllOrder(t, listed);
    PresentAll(listed, t.files);
    var walked := UnlinkAll(t, listed);
    PrunedNotFiles(t, env, home, listed);
    StripBelowDirs(walked.fs, ProjectClaudeMd(env.cwd), env.removeProtocol);
    var stripped := StripDoc(walked.fs, ProjectClaudeMd(env.cwd), env.removeProtocol);
    PruneAllLaw(stripped.fs, PrunedDirs(p));
    UninstallByParts(t, env, home, m);
  }

  /** `uninstall` once its manifest reads and each of its phases succeeds. */
  lemma UninstallByParts(t: Snapshot, env: Env, home: Option<string>, m: Manifest)
    requires var p := ResolvePaths(home, env.defaultHome);
      ReadManifest(t, p.manifestPath, env.codec) == Ok(Some(m)) &&
      var walked := UnlinkAll(t, Targets(p.claudeDir, m.files));
      walked.result.Ok? &&
      var stripped := StripDoc(walked.fs, ProjectClaudeMd(env.cwd), env.removeProtocol);
      stripped.result.Ok? && PruneAll(stripped.fs, PrunedDirs(p)).result.Ok? && p.manifestPath !in t.dirs
    ensures var p := ResolvePaths(home, env.defaultHome);
      var walked := UnlinkAll(t, Targets(p.claudeDir, m.files));
      UninstallSpec(t, env, home).result == Ok(Uninstalled(walked.result.value.removed, walked.result.value.notFound))
  {
    var p := ResolvePaths(home, env.defaultHome);
    var ts := Targets(p.claudeDir, m.files);
    UnlinkAllShape(t, ts);
    var stripped := StripDoc(UnlinkAll(t, ts).fs, ProjectClaudeMd(env.cwd), env.removeProtocol);
    PruneAllLaw(stripped.fs, PrunedDirs(p));
  }

  /** Stripping a document that is not a directory but lies below directories only
      succeeds. */
  lemma StripBelowDirs(s: Snapshot, doc: string, remove: Option<Content> -> Option<Content>)
    requires doc !in s.dirs && Ancestors(doc) <= s.dirs
    ensures StripDoc(s, doc, remove).result.Ok?
  {
  }

  /** Uninstall undoes install's bookkeeping: right after an install (into the working
      directory's document), `uninstall` succeeds, removes exactly the installed paths
      in their order, and finds none missing. */
  lemma UninstallAfterInstall(s: Snapshot, env: Env, home: Option<string>, force: bool)
    requires s.Valid() && WellFormed(env.assets) && RoundTrips(env.codec)
    requires InstallSpec(s, env, home, force, None).result.Ok?
    ensures var o := InstallSpec(s, env, home, force, None);
      UninstallSpec(o.fs, env, home).result == Ok(Uninstalled(o.result.value.installed, []))
  {
    var o := InstallSpec(s, env, home, force, None);
    var p := ResolvePaths(home, env.defaultHome);
    InstallRecordsInstalled(s, env, home, force, None);
    InstallLeavesDirs(s, env, home, force);
    var m := ReadManifest(o.fs, p.manifestPath, env.codec).value.value;
    UninstallClean(o.fs, env, home, m, o.result.value.installed);
  }

  // ---------------------------------------------------------------------------
  // `update`
  // ---------------------------------------------------------------------------

  /** With no manifest, `update` reports not-installed and changes nothing; that is the
      only way it reports so. A manifest it cannot read changes nothing either. */
  lemma UpdateWithoutManifest(s: Snapshot, env: Env, home: Option<string>, force: bool)
    ensures var p := ResolvePaths(home, env.defaultHome);
      var o := UpdateSpec(s, env, home, force);
      (o.result == Ok(UpdateNotInstalled) <==> !s.Exists(p.manifestPath)) &&
      (o.result == Ok(UpdateNotInstalled) ==> o.fs == s) &&
      (ReadManifest(s, p.manifestPath, env.codec).Fail? ==> o.fs == s)
  {
    var p := ResolvePaths(home, env.defaultHome);
    var m := ReadManifest(s, p.manifestPath, env.codec);
    if m.Ok? && m.value.Some? && !(m.value.value.kilnVersion == env.version && !force) {
      var u := UninstallSpec(s, env, home);
      if u.result.Ok? {
        var i := InstallSpec(u.fs, env, home, true, None);
      }
    }
  }

  /** `update` reports up to date exactly when the recorded version is the running one
      and it is not forced, and then changes nothing. */
  lemma UpdateUpToDate(s: Snapshot, env: Env, home: Option<string>, force: bool)
    ensures var p := ResolvePaths(home, env.defaultHome);
      var o := UpdateSpec(s, env, home, force);
      var m := ReadManifest(s, p.manifestPath, env.codec);
      ((o.result.Ok? && o.result.value.UpToDate?) <==>
        m.Ok? && m.value.Some? && m.value.value.kilnVersion == env.version && !force) &&
      (o.result.Ok? && o.result.value.UpToDate? ==> o == Outcome(s, Ok(UpToDate(env.version))))
  {
    var p := ResolvePaths(home, env.defaultHome);
    var m := ReadManifest(s, p.manifestPath, env.codec);
    if m.Ok? && m.value.Some? && !(m.value.value.kilnVersion == env.version && !force) {
      var u := UninstallSpec(s, env, home);
      if u.result.Ok? {
        var i := InstallSpec(u.fs, env, home, true, None);
      }
    }
  }

  /** Once the versions differ the caller's `force` makes no difference. */
  lemma UpdateIgnoresForce(s: Snapshot, env: Env, home: Option<string>)
    requires var m := ReadManifest(s, ResolvePaths(home, env.defaultHome).manifestPath, env.codec);
      m.Ok? && m.value.Some? && m.value.value.kilnVersion != env.version
    ensures UpdateSpec(s, env, home, false) == UpdateSpec(s, env, home, true)
  {
  }

  /** An update is an uninstall followed by a forced install into the working
      directory's document: `from` is the recorded version, `to` the running one,
      `removed` what the uninstall removed and `installed` what the install installed. */
  lemma UpdateComposes(s: Snapshot, env: Env, home: Option<string>, force: bool)
    requires UpdateSpec(s, env, home, force).result.Ok? && UpdateSpec(s, env, home, force).result.value.Updated?
    ensures var p := ResolvePaths(home, env.defaultHome);
      var o := UpdateSpec(s, env, home, force);
      var m := ReadManifest(s, p.manifestPath, env.codec);
      var u := UninstallSpec(s, env, home);
      m.Ok? && m.value.Some? && u.result.Ok? && u.result.value.Uninstalled? &&
      var i := InstallSpec(u.fs, env, home, true, None);
      i.result.Ok? && o.fs == i.fs &&
      o.result.value == Updated(m.value.value.kilnVersion, env.version, i.result.value.installed, u.result.value.removed)
  {
    var p := ResolvePaths(home, env.defaultHome);
    var m := ReadManifest(s, p.manifestPath, env.codec);
    assert m.Ok? && m.value.Some?;
    var u := UninstallSpec(s, env, home);
    assert u.result.Ok?;
    UninstallFindsManifest(s, env, home);
  }

  /** Once the manifest reads, a successful uninstall has found an installation. */
  lemma UninstallFindsManifest(s: Snapshot, env: Env, home: Option<string>)
    requires var p := ResolvePaths(home, env.defaultHome);
      var m := ReadManifest(s, p.manifestPath, env.codec);
      m.Ok? && m.value.Some?
    requires UninstallSpec(s, env, home).result.Ok?
    ensures UninstallSpec(s, env, home).result.value.Uninstalled?
  {
  }

  /** The forced install of an update skips nothing: it installs every destination of
      the asset tree, in order. */
  lemma UpdateInstallsEverything(s: Snapshot, env: Env, home: Option<string>, force: bool)
    requires WellFormed(env.assets)
    requires UpdateSpec(s, env, home, force).result.Ok? && UpdateSpec(s, env, home, force).result.value.Updated?
    ensures UpdateSpec(s, env, home, force).result.value.installed ==
      DestsOf(Jobs(env.assets, ResolvePaths(home, env.defaultHome)))
  {
    UpdateComposes(s, env, home, force);
    InstallNothingSkipped(UninstallSpec(s, env, home).fs, env, home, true, None);
  }

  /** After an update, the manifest records the running version, so a second update
      without `force` reports up to date and changes nothing. */
  lemma UpdateIdempotent(s: Snapshot, env: Env, home: Option<string>, force: bool)
    requires WellFormed(env.assets) && RoundTrips(env.codec)
    requires UpdateSpec(s, env, home, force).result.Ok? && UpdateSpec(s, env, home, force).result.value.Updated?
    ensures var o := UpdateSpec(s, env, home, force);
      UpdateSpec(o.fs, env, home, false) == Outcome(o.fs, Ok(UpToDate(env.version)))
  {
    UpdateComposes(s, env, home, force);
    InstallManifest(UninstallSpec(s, env, home).fs, env, home, true, None);
  }
}
