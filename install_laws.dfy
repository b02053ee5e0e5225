/** The guarantees of `install` (src/install.js:19-115), stated about Install.InstallSpec
    for every filesystem and every asset tree. */
module InstallLaws {
  import opened Fs
  import opened Collaborators
  import opened Paths
  import opened Install
  import opened InstallProofs

  /** A successful install is, step by step: the owned directories made, every
      decision taken on the filesystem as it then is, the copies applied, the project
      document stamped, and the manifest of the installed files written. */
  lemma InstallNormalForm(s: Snapshot, env: Env, home: Option<string>, force: bool, projectPath: Option<string>)
    requires WellFormed(env.assets)
    requires InstallSpec(s, env, home, force, projectPath).result.Ok?
    ensures var p := ResolvePaths(home, env.defaultHome);
      var made := MkdirAll(s, OwnedDirs(p));
      var jobs := Jobs(env.assets, p);
      var d := Decisions(made.fs, jobs, force, env.checksum);
      made.result.Ok? && d.Ok? && env.assets.protocol.Some? &&
      var acts := d.value;
      var doc := ProjectDoc(projectPath, env.cwd);
      var copied := Applied(s.files, jobs, acts);
      var stamped := copied[doc := env.insertProtocol(Lookup(copied, doc), env.assets.protocol.value, env.version)];
      var installed := InstalledOf(jobs, acts);
      var entries := ManifestFiles(Snapshot(stamped, made.fs.dirs), installed, p.claudeDir, env.checksum);
      doc !in made.fs.dirs && p.manifestPath !in made.fs.dirs && entries.Ok? &&
      Ancestors(doc) <= made.fs.dirs && Ancestors(p.manifestPath) <= made.fs.dirs &&
      InstallSpec(s, env, home, force, projectPath) == Outcome(
        Snapshot(stamped[p.manifestPath := env.codec.encode(Manifest(ManifestVersion, env.version, entries.value, MarkerBegin, MarkerEnd))],
                 made.fs.dirs),
        Ok(InstallResult(installed, SkippedOf(jobs, acts), env.version)))
  {
    var p := ResolvePaths(home, env.defaultHome);
    var made := MkdirAll(s, OwnedDirs(p));
    var jobs := Jobs(env.assets, p);
    JobsDistinct(env.assets, home, env.defaultHome);
    JobsDirsAbove(made.fs, env.assets, p);
    CopyAllByDecisions(made.fs, Lists([], []), jobs, force, env.checksum);
    var acts := Decisions(made.fs, jobs, force, env.checksum).value;
    assert [] + InstalledOf(jobs, acts) == InstalledOf(jobs, acts);
    assert [] + SkippedOf(jobs, acts) == SkippedOf(jobs, acts);
    assert made.fs.(files := Applied(made.fs.files, jobs, acts)) == Snapshot(Applied(s.files, jobs, acts), made.fs.dirs);
  }

  /** The project document is never the manifest: one ends in `CLAUDE.md`, the other
      in `manifest.json`. */
  lemma DocNotManifest(projectPath: Option<string>, cwd: string, p: Layout)
    requires p.manifestPath == Join(p.kilntwoDir, "manifest.json")
    ensures ProjectDoc(projectPath, cwd) != p.manifestPath
  {
    var root := if projectPath.Some? && projectPath.value != "" then projectPath.value else cwd;
    var doc := ProjectDoc(projectPath, cwd);
    assert doc == root + "/" + "CLAUDE.md";
    assert doc[|doc| - 1] == 'd';
    assert p.manifestPath[|p.manifestPath| - 1] == 'n';
  }

  /** The decision table on the reference: decisions taken on `made`, the snapshot
      after the directories were made from `s`, and applied to `s`'s files. */
  lemma DecisionAt(s: Snapshot, made: Snapshot, jobs: seq<Job>, acts: seq<Action>, force: bool, checksum: Content -> string, i: int)
    requires made.files == s.files && s.dirs <= made.dirs
    requires DistinctDests(jobs) && Decisions(made, jobs, force, checksum) == Ok(acts) && 0 <= i < |jobs|
    ensures var job := jobs[i];
      var f := Applied(s.files, jobs, acts);
      (force || !s.Exists(job.dest) ==>
         job.content.Some? && Lookup(f, job.dest) == job.content &&
         job.dest in InstalledOf(jobs, acts) && job.dest !in SkippedOf(jobs, acts)) &&
      (!force && s.Exists(job.dest) ==>
         job.dest in s.files && job.content.Some? && Lookup(f, job.dest) == Some(s.files[job.dest]) &&
         (job.dest in InstalledOf(jobs, acts) <==> checksum(s.files[job.dest]) == checksum(job.content.value)) &&
         (job.dest in SkippedOf(jobs, acts) <==> checksum(s.files[job.dest]) != checksum(job.content.value)))
  {
    DecisionsPointwise(made, jobs, force, checksum);
    AppliedAt(s.files, jobs, acts, i);
    ListsPartition(jobs, acts);
    assert Decide(made, jobs[i], force, checksum) == Ok(acts[i]);
  }

  /** What a successful install leaves at a path other than the project document and
      the manifest: what the reference's copies leave there. */
  lemma InstallFilesAt(s: Snapshot, env: Env, home: Option<string>, force: bool, projectPath: Option<string>, q: string)
    requires WellFormed(env.assets)
    requires InstallSpec(s, env, home, force, projectPath).result.Ok?
    requires q != ProjectDoc(projectPath, env.cwd) && q != ResolvePaths(home, env.defaultHome).manifestPath
    ensures var p := ResolvePaths(home, env.defaultHome);
      var made := MkdirAll(s, OwnedDirs(p));
      var jobs := Jobs(env.assets, p);
      var d := Decisions(made.fs, jobs, force, env.checksum);
      d.Ok? && Lookup(InstallSpec(s, env, home, force, projectPath).fs.files, q) == Lookup(Applied(s.files, jobs, d.value), q)
  {
    InstallNormalForm(s, env, home, force, projectPath);
  }

  /** The four-way decision, file by file. With `force`, or when nothing is at the
      destination, the shipped file is copied and listed as installed. Otherwise the
      existing file is left exactly as it is, and it is listed as installed when its
      fingerprint equals the shipped one and as skipped when it differs. */
  lemma InstallDecisionTable(s: Snapshot, env: Env, home: Option<string>, force: bool, projectPath: Option<string>, i: int)
    requires WellFormed(env.assets)
    requires InstallSpec(s, env, home, force, projectPath).result.Ok?
    requires 0 <= i < |Jobs(env.assets, ResolvePaths(home, env.defaultHome))|
    requires Jobs(env.assets, ResolvePaths(home, env.defaultHome))[i].dest != ProjectDoc(projectPath, env.cwd)
    ensures var o := InstallSpec(s, env, home, force, projectPath);
      var job := Jobs(env.assets, ResolvePaths(home, env.defaultHome))[i];
      (force || !s.Exists(job.dest) ==>
         job.content.Some? && Lookup(o.fs.files, job.dest) == job.content &&
         job.dest in o.result.value.installed && job.dest !in o.result.value.skipped) &&
      (!force && s.Exists(job.dest) ==>
         job.dest in s.files && job.content.Some? && Lookup(o.fs.files, job.dest) == Some(s.files[job.dest]) &&
         (job.dest in o.result.value.installed <==> env.checksum(s.files[job.dest]) == env.checksum(job.content.value)) &&
         (job.dest in o.result.value.skipped <==> env.checksum(s.files[job.dest]) != env.checksum(job.content.value)))
  {
    var p := ResolvePaths(home, env.defaultHome);
    var made := MkdirAll(s, OwnedDirs(p));
    var jobs := Jobs(env.assets, p);
    InstallNormalForm(s, env, home, force, projectPath);
    JobsDistinct(env.assets, home, env.defaultHome);
    var acts := Decisions(made.fs, jobs, force, env.checksum).value;
    DecisionAt(s, made.fs, jobs, acts, force, env.checksum, i);
    InstallFilesAt(s, env, home, force, projectPath, jobs[i].dest);
  }

  /** The reference lists every destination once. */
  lemma PartitionOf(jobs: seq<Job>, acts: seq<Action>)
    requires |acts| == |jobs| && DistinctDests(jobs)
    ensures var ins, sk, dests := InstalledOf(jobs, acts), SkippedOf(jobs, acts), DestsOf(jobs);
      |ins| + |sk| == |dests| &&
      (forall d :: d in ins || d in sk <==> d in dests) &&
      (forall d :: d in ins ==> d !in sk)
  {
    ListsCount(jobs, acts);
    ListsPartition(jobs, acts);
    InstalledFrom(jobs, acts);
    SkippedFrom(jobs, acts);
    var dests := DestsOf(jobs);
    forall d | d in dests ensures d in InstalledOf(jobs, acts) || d in SkippedOf(jobs, acts) {
      var k :| 0 <= k < |dests| && dests[k] == d;
      assert jobs[k].dest == d;
    }
  }

  /** Every shipped file is accounted for once: each destination is listed as installed
      or as skipped, never both, and nothing else is listed. */
  lemma InstallPartition(s: Snapshot, env: Env, home: Option<string>, force: bool, projectPath: Option<string>)
    requires WellFormed(env.assets)
    requires InstallSpec(s, env, home, force, projectPath).result.Ok?
    ensures var r := InstallSpec(s, env, home, force, projectPath).result.value;
      var dests := DestsOf(Jobs(env.assets, ResolvePaths(home, env.defaultHome)));
      |r.installed| + |r.skipped| == |dests| &&
      (forall d :: d in r.installed || d in r.skipped <==> d in dests) &&
      (forall d :: d in r.installed ==> d !in r.skipped)
  {
    var p := ResolvePaths(home, env.defaultHome);
    var made := MkdirAll(s, OwnedDirs(p));
    var jobs := Jobs(env.assets, p);
    InstallNormalForm(s, env, home, force, projectPath);
    JobsDistinct(env.assets, home, env.defaultHome);
    PartitionOf(jobs, Decisions(made.fs, jobs, force, env.checksum).value);
  }

  /** The protocol block and the manifest touch only the document and the manifest. */
  lemma FinishFrame(s: Snapshot, l: Lists, env: Env, p: Layout, projectPath: Option<string>)
    ensures var o := Finish(s, l, env, p, projectPath);
      o.fs.dirs == s.dirs &&
      (forall q :: q != ProjectDoc(projectPath, env.cwd) && q != p.manifestPath ==> Lookup(o.fs.files, q) == Lookup(s.files, q)) &&
      (s.Valid() ==> o.fs.Valid())
  {
  }

  /** Whatever the outcome, install creates no directory but the owned ones and their
      ancestors, removes none, writes no file but the shipped destinations, the project
      document and the manifest, and keeps a valid filesystem valid. */
  lemma InstallFrame(s: Snapshot, env: Env, home: Option<string>, force: bool, projectPath: Option<string>)
    ensures var o := InstallSpec(s, env, home, force, projectPath);
      var p := ResolvePaths(home, env.defaultHome);
      var dests := DestsOf(Jobs(env.assets, p));
      s.dirs <= o.fs.dirs &&
      (forall q :: q in o.fs.dirs ==> q in s.dirs || exists d :: d in OwnedDirs(p) && IsPrefix(q, d)) &&
      (forall q :: q !in dests && q != ProjectDoc(projectPath, env.cwd) && q != p.manifestPath ==>
         Lookup(o.fs.files, q) == Lookup(s.files, q)) &&
      (s.Valid() ==> o.fs.Valid())
  {
    var p := ResolvePaths(home, env.defaultHome);
    var made := MkdirAll(s, OwnedDirs(p));
    var jobs := Jobs(env.assets, p);
    if made.result.Ok? && ReadManifest(made.fs, p.manifestPath, env.codec).Ok? {
      CopyAllFrame(made.fs, Lists([], []), jobs, force, env.checksum);
      var copied := CopyAll(made.fs, Lists([], []), jobs, force, env.checksum);
      if copied.result.Ok? {
        FinishFrame(copied.fs, copied.result.value, env, p, projectPath);
      }
      forall q | q !in DestsOf(jobs) ensures forall i :: 0 <= i < |jobs| ==> jobs[i].dest != q {
        assert forall i :: 0 <= i < |jobs| ==> DestsOf(jobs)[i] == jobs[i].dest;
      }
    }
  }

  /** No decision skips when `force` is set or no destination exists. */
  lemma NoSkipDecisions(s: Snapshot, made: Snapshot, jobs: seq<Job>, acts: seq<Action>, force: bool, checksum: Content -> string)
    requires made.files == s.files && s.dirs <= made.dirs
    requires Decisions(made, jobs, force, checksum) == Ok(acts)
    requires force || forall job :: job in jobs ==> !s.Exists(job.dest)
    ensures Skipped !in acts
  {
    DecisionsPointwise(made, jobs, force, checksum);
    forall k | 0 <= k < |acts| ensures acts[k] != Skipped {
      assert Decide(made, jobs[k], force, checksum) == Ok(acts[k]);
      assert jobs[k] in jobs;
    }
  }

  /** With `force`, or on a first install where no destination exists yet, nothing is
      skipped: every shipped file is installed, in copy order. */
  lemma InstallNothingSkipped(s: Snapshot, env: Env, home: Option<string>, force: bool, projectPath: Option<string>)
    requires WellFormed(env.assets)
    requires InstallSpec(s, env, home, force, projectPath).result.Ok?
    requires force || forall job :: job in Jobs(env.assets, ResolvePaths(home, env.defaultHome)) ==> !s.Exists(job.dest)
    ensures var r := InstallSpec(s, env, home, force, projectPath).result.value;
      r.installed == DestsOf(Jobs(env.assets, ResolvePaths(home, env.defaultHome))) && r.skipped == []
  {
    var p := ResolvePaths(home, env.defaultHome);
    var made := MkdirAll(s, OwnedDirs(p));
    var jobs := Jobs(env.assets, p);
    InstallNormalForm(s, env, home, force, projectPath);
    var acts := Decisions(made.fs, jobs, force, env.checksum).value;
    NoSkipDecisions(s, made.fs, jobs, acts, force, env.checksum);
    NoSkipAllInstalled(jobs, acts);
  }

  /** The manifest reads back as version 1 of the record, with the package version, the
      protocol markers, and one entry per installed file, in order: its path relative to
      `claudeDir` and the fingerprint of what it now holds. */
  lemma InstallManifest(s: Snapshot, env: Env, home: Option<string>, force: bool, projectPath: Option<string>)
    requires WellFormed(env.assets) && RoundTrips(env.codec)
    requires InstallSpec(s, env, home, force, projectPath).result.Ok?
    ensures var o := InstallSpec(s, env, home, force, projectPath);
      var p := ResolvePaths(home, env.defaultHome);
      var installed := o.result.value.installed;
      var m := ReadManifest(o.fs, p.manifestPath, env.codec);
      m.Ok? && m.value.Some? &&
      m.value.value.manifestVersion == 1 && m.value.value.kilnVersion == env.version &&
      m.value.value.markerBegin == "kiln:protocol:begin" && m.value.value.markerEnd == "kiln:protocol:end" &&
      |m.value.value.files| == |installed| &&
      forall k :: 0 <= k < |installed| ==>
        Under(p.claudeDir, installed[k]) && installed[k] in o.fs.files &&
        m.value.value.files[k] == FileEntry(installed[k][|p.claudeDir| + 1..], env.checksum(o.fs.files[installed[k]]))
  {
    var p := ResolvePaths(home, env.defaultHome);
    var made := MkdirAll(s, OwnedDirs(p));
    var jobs := Jobs(env.assets, p);
    InstallNormalForm(s, env, home, force, projectPath);
    JobsDistinct(env.assets, home, env.defaultHome);
    var acts := Decisions(made.fs, jobs, force, env.checksum).value;
    InstalledFrom(jobs, acts);
    var installed := InstalledOf(jobs, acts);
    forall k | 0 <= k < |installed| ensures Under(p.claudeDir, installed[k]) && installed[k] != p.manifestPath {
      assert installed[k] in installed;
    }
    var doc := ProjectDoc(projectPath, env.cwd);
    var copied := Applied(s.files, jobs, acts);
    var stamped := copied[doc := env.insertProtocol(Lookup(copied, doc), env.assets.protocol.value, env.version)];
    var entries := ManifestFiles(Snapshot(stamped, made.fs.dirs), installed, p.claudeDir, env.checksum).value;
    var written := Manifest(ManifestVersion, env.version, entries, MarkerBegin, MarkerEnd);
    ManifestReadsBack(stamped, made.fs.dirs, p.manifestPath, env.codec, written);
  }

  /** A manifest written to a path that is not a directory reads back as written. */
  lemma ManifestReadsBack(files: map<string, Content>, dirs: set<string>, path: string, codec: Codec, m: Manifest)
    requires RoundTrips(codec) && path !in dirs
    ensures ReadManifest(Snapshot(files[path := codec.encode(m)], dirs), path, codec) == Ok(Some(m))
  {
  }

  /** The project document holds the stamped form of what it held before (when no
      shipped file is copied onto it). */
  lemma InstallStampsDoc(s: Snapshot, env: Env, home: Option<string>, force: bool, projectPath: Option<string>)
    requires WellFormed(env.assets)
    requires InstallSpec(s, env, home, force, projectPath).result.Ok?
    requires ProjectDoc(projectPath, env.cwd) !in DestsOf(Jobs(env.assets, ResolvePaths(home, env.defaultHome)))
    ensures var doc := ProjectDoc(projectPath, env.cwd);
      env.assets.protocol.Some? &&
      Lookup(InstallSpec(s, env, home, force, projectPath).fs.files, doc) ==
        Some(env.insertProtocol(Lookup(s.files, doc), env.assets.protocol.value, env.version))
  {
    var p := ResolvePaths(home, env.defaultHome);
    var made := MkdirAll(s, OwnedDirs(p));
    var jobs := Jobs(env.assets, p);
    var doc := ProjectDoc(projectPath, env.cwd);
    InstallNormalForm(s, env, home, force, projectPath);
    DocNotManifest(projectPath, env.cwd, p);
    var acts := Decisions(made.fs, jobs, force, env.checksum).value;
    forall k | 0 <= k < |jobs| ensures jobs[k].dest != doc {
      assert DestsOf(jobs)[k] == jobs[k].dest;
    }
    AppliedOutside(s.files, jobs, acts, doc);
  }

  // ---------------------------------------------------------------------------
  // Idempotence
  // ---------------------------------------------------------------------------

  /** Reading two snapshots that agree on the listed files gives the same entries. */
  lemma {:induction false} ManifestFilesFrame(s: Snapshot, t: Snapshot, installed: seq<string>, base: string, checksum: Content -> string)
    requires s.dirs == t.dirs
    requires forall x :: x in installed ==> Lookup(s.files, x) == Lookup(t.files, x)
    ensures ManifestFiles(s, installed, base, checksum) == ManifestFiles(t, installed, base, checksum)
    decreases |installed|
  {
    if installed != [] {
      assert Lookup(s.files, installed[0]) == Lookup(t.files, installed[0]);
      ManifestFilesFrame(s, t, installed[1..], base, checksum);
    }
  }

  /** The decisions, when every single one is known. */
  lemma {:induction false} DecisionsFromPointwise(s: Snapshot, jobs: seq<Job>, force: bool, checksum: Content -> string, acts: seq<Action>)
    requires |acts| == |jobs|
    requires forall i :: 0 <= i < |jobs| ==> Decide(s, jobs[i], force, checksum) == Ok(acts[i])
    ensures Decisions(s, jobs, force, checksum) == Ok(acts)
    decreases |jobs|
  {
    if jobs != [] {
      assert Decide(s, jobs[0], force, checksum) == Ok(acts[0]);
      forall i | 0 <= i < |jobs[1..]| ensures Decide(s, jobs[1..][i], force, checksum) == Ok(acts[1..][i]) {
        assert jobs[1..][i] == jobs[i + 1];
      }
      DecisionsFromPointwise(s, jobs[1..], force, checksum, acts[1..]);
      assert acts == [acts[0]] + acts[1..];
    }
  }

  /** On a second run every decision that did not skip keeps. */
  function Rerun(acts: seq<Action>): (r: seq<Action>)
    ensures |r| == |acts| && Copied !in r
    ensures forall i :: 0 <= i < |acts| ==> (r[i] == Skipped <==> acts[i] == Skipped)
  {
    seq(|acts|, i requires 0 <= i < |acts| => if acts[i] == Skipped then Skipped else Kept)
  }

  /** The second run's decisions, on a snapshot `t` whose destinations hold what the
      first run's reference left there. */
  lemma DecisionsAgain(s: Snapshot, made: Snapshot, t: Snapshot, jobs: seq<Job>, acts: seq<Action>, force: bool, checksum: Content -> string)
    requires made.files == s.files && t.dirs == made.dirs && t.Valid()
    requires DistinctDests(jobs) && Decisions(made, jobs, force, checksum) == Ok(acts)
    requires forall i :: 0 <= i < |jobs| ==> Lookup(t.files, jobs[i].dest) == Lookup(Applied(s.files, jobs, acts), jobs[i].dest)
    ensures Decisions(t, jobs, false, checksum) == Ok(Rerun(acts))
  {
    DecisionsPointwise(made, jobs, force, checksum);
    forall i | 0 <= i < |jobs| ensures Decide(t, jobs[i], false, checksum) == Ok(Rerun(acts)[i]) {
      assert Decide(made, jobs[i], force, checksum) == Ok(acts[i]);
      AppliedAt(s.files, jobs, acts, i);
    }
    DecisionsFromPointwise(t, jobs, false, checksum, Rerun(acts));
  }

  /** The second run copies nothing and lists what the first one listed. */
  lemma CopyAgain(s: Snapshot, made: Snapshot, t: Snapshot, jobs: seq<Job>, acts: seq<Action>, force: bool, checksum: Content -> string)
    requires made.files == s.files && t.dirs == made.dirs && t.Valid()
    requires DistinctDests(jobs) && DirsAbove(made, jobs) && Decisions(made, jobs, force, checksum) == Ok(acts)
    requires forall i :: 0 <= i < |jobs| ==> Lookup(t.files, jobs[i].dest) == Lookup(Applied(s.files, jobs, acts), jobs[i].dest)
    ensures CopyAll(t, Lists([], []), jobs, false, checksum) == Outcome(t, Ok(Lists(InstalledOf(jobs, acts), SkippedOf(jobs, acts))))
  {
    DecisionsAgain(s, made, t, jobs, acts, force, checksum);
    CopyAllByDecisions(t, Lists([], []), jobs, false, checksum);
    AppliedNoCopy(t.files, jobs, Rerun(acts));
    ListsBySkips(jobs, acts, Rerun(acts));
    assert [] + InstalledOf(jobs, acts) == InstalledOf(jobs, acts);
    assert [] + SkippedOf(jobs, acts) == SkippedOf(jobs, acts);
  }

  /** Stamping and recording again over what a first run left changes nothing. */
  lemma FinishAgain(t: Snapshot, l: Lists, env: Env, p: Layout, projectPath: Option<string>,
                    stamped: map<string, Content>, before: Option<Content>, entries: seq<FileEntry>)
    requires env.assets.protocol.Some? && StampIdempotent(env)
    requires ProjectDoc(projectPath, env.cwd) !in t.dirs && p.manifestPath !in t.dirs
    requires Ancestors(ProjectDoc(projectPath, env.cwd)) <= t.dirs && Ancestors(p.manifestPath) <= t.dirs
    requires ProjectDoc(projectPath, env.cwd) != p.manifestPath
    requires Lookup(stamped, ProjectDoc(projectPath, env.cwd)) == Some(env.insertProtocol(before, env.assets.protocol.value, env.version))
    requires ManifestFiles(Snapshot(stamped, t.dirs), l.installed, p.claudeDir, env.checksum) == Ok(entries)
    requires forall x :: x in l.installed ==> x != p.manifestPath
    requires t == Snapshot(stamped[p.manifestPath := env.codec.encode(Manifest(ManifestVersion, env.version, entries, MarkerBegin, MarkerEnd))], t.dirs)
    ensures Finish(t, l, env, p, projectPath) == Outcome(t, Ok(InstallResult(l.installed, l.skipped, env.version)))
  {
    var doc := ProjectDoc(projectPath, env.cwd);
    var protocol := env.assets.protocol.value;
    var stamp := env.insertProtocol(Lookup(t.files, doc), protocol, env.version);
    assert Lookup(t.files, doc) == Some(env.insertProtocol(before, protocol, env.version));
    assert stamp == env.insertProtocol(before, protocol, env.version);
    var stamped2 := WriteFile(t, doc, stamp);
    assert stamped2.fs == t;
    ManifestFilesFrame(t, Snapshot(stamped, t.dirs), l.installed, p.claudeDir, env.checksum);
    var m := Manifest(ManifestVersion, env.version, entries, MarkerBegin, MarkerEnd);
    assert t.files[p.manifestPath := env.codec.encode(m)] == t.files;
  }

  /** After a successful install the owned directories are all there and the manifest
      reads back. */
  lemma SecondRunStarts(s: Snapshot, env: Env, home: Option<string>, force: bool, projectPath: Option<string>)
    requires s.Valid() && WellFormed(env.assets) && RoundTrips(env.codec)
    requires InstallSpec(s, env, home, force, projectPath).result.Ok?
    ensures var o := InstallSpec(s, env, home, force, projectPath);
      var p := ResolvePaths(home, env.defaultHome);
      MkdirAll(o.fs, OwnedDirs(p)) == Outcome(o.fs, Ok(())) && ReadManifest(o.fs, p.manifestPath, env.codec).Ok?
  {
    InstallNormalForm(s, env, home, force, projectPath);
    InstallFrame(s, env, home, force, projectPath);
  }

  /** An install run that finds its directories, a readable manifest and nothing to
      copy goes straight on to stamping and recording. */
  lemma InstallOver(t: Snapshot, env: Env, home: Option<string>, projectPath: Option<string>, l: Lists)
    requires MkdirAll(t, OwnedDirs(ResolvePaths(home, env.defaultHome))) == Outcome(t, Ok(()))
    requires ReadManifest(t, ResolvePaths(home, env.defaultHome).manifestPath, env.codec).Ok?
    requires CopyAll(t, Lists([], []), Jobs(env.assets, ResolvePaths(home, env.defaultHome)), false, env.checksum) == Outcome(t, Ok(l))
    ensures InstallSpec(t, env, home, false, projectPath) == Finish(t, l, env, ResolvePaths(home, env.defaultHome), projectPath)
  {
  }

  /** The second run's copy phase over what a first run left. */
  lemma CopyAfterInstall(s: Snapshot, env: Env, home: Option<string>, force: bool, projectPath: Option<string>)
    requires s.Valid() && WellFormed(env.assets)
    requires ProjectDoc(projectPath, env.cwd) !in DestsOf(Jobs(env.assets, ResolvePaths(home, env.defaultHome)))
    requires InstallSpec(s, env, home, force, projectPath).result.Ok?
    ensures var o := InstallSpec(s, env, home, force, projectPath);
      var p := ResolvePaths(home, env.defaultHome);
      CopyAll(o.fs, Lists([], []), Jobs(env.assets, p), false, env.checksum) ==
        Outcome(o.fs, Ok(Lists(o.result.value.installed, o.result.value.skipped)))
  {
    var o := InstallSpec(s, env, home, force, projectPath);
    var p := ResolvePaths(home, env.defaultHome);
    var made := MkdirAll(s, OwnedDirs(p));
    var jobs := Jobs(env.assets, p);
    InstallNormalForm(s, env, home, force, projectPath);
    InstallFrame(s, env, home, force, projectPath);
    JobsDistinct(env.assets, home, env.defaultHome);
    JobsDirsAbove(made.fs, env.assets, p);
    var acts := Decisions(made.fs, jobs, force, env.checksum).value;
    var copied := Applied(s.files, jobs, acts);
    forall i | 0 <= i < |jobs| ensures Lookup(o.fs.files, jobs[i].dest) == Lookup(copied, jobs[i].dest) {
      assert DestsOf(jobs)[i] == jobs[i].dest;
      InstallFilesAt(s, env, home, force, projectPath, jobs[i].dest);
    }
    CopyAgain(s, made.fs, o.fs, jobs, acts, force, env.checksum);
  }

  /** The second run's stamping and recording over what a first run left. */
  lemma FinishAfterInstall(s: Snapshot, env: Env, home: Option<string>, force: bool, projectPath: Option<string>)
    requires s.Valid() && WellFormed(env.assets) && StampIdempotent(env)
    requires InstallSpec(s, env, home, force, projectPath).result.Ok?
    ensures var o := InstallSpec(s, env, home, force, projectPath);
      var p := ResolvePaths(home, env.defaultHome);
      Finish(o.fs, Lists(o.result.value.installed, o.result.value.skipped), env, p, projectPath) == o
  {
    var o := InstallSpec(s, env, home, force, projectPath);
    var p := ResolvePaths(home, env.defaultHome);
    var made := MkdirAll(s, OwnedDirs(p));
    var jobs := Jobs(env.assets, p);
    var doc := ProjectDoc(projectPath, env.cwd);
    InstallNormalForm(s, env, home, force, projectPath);
    JobsDistinct(env.assets, home, env.defaultHome);
    DocNotManifest(projectPath, env.cwd, p);
    var acts := Decisions(made.fs, jobs, force, env.checksum).value;
    var copied := Applied(s.files, jobs, acts);
    var installed := InstalledOf(jobs, acts);
    InstalledFrom(jobs, acts);
    var stamped := copied[doc := env.insertProtocol(Lookup(copied, doc), env.assets.protocol.value, env.version)];
    var entries := ManifestFiles(Snapshot(stamped, made.fs.dirs), installed, p.claudeDir, env.checksum);
    FinishAgain(o.fs, Lists(installed, SkippedOf(jobs, acts)), env, p, projectPath, stamped, Lookup(copied, doc), entries.value);
  }

  /** Install is idempotent: run again without `force` over what it installed, it
      changes nothing and reports the same installed and skipped files. */
  lemma InstallIdempotent(s: Snapshot, env: Env, home: Option<string>, force: bool, projectPath: Option<string>)
    requires s.Valid() && WellFormed(env.assets) && RoundTrips(env.codec) && StampIdempotent(env)
    requires ProjectDoc(projectPath, env.cwd) !in DestsOf(Jobs(env.assets, ResolvePaths(home, env.defaultHome)))
    requires InstallSpec(s, env, home, force, projectPath).result.Ok?
    ensures var o := InstallSpec(s, env, home, force, projectPath);
      InstallSpec(o.fs, env, home, false, projectPath) == o
  {
    var o := InstallSpec(s, env, home, force, projectPath);
    SecondRunStarts(s, env, home, force, projectPath);
    CopyAfterInstall(s, env, home, force, projectPath);
    FinishAfterInstall(s, env, home, force, projectPath);
    InstallOver(o.fs, env, home, projectPath, Lists(o.result.value.installed, o.result.value.skipped));
  }
}
