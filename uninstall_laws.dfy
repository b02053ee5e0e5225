/** What `uninstall` guarantees: the manifest walk splits the listed paths into those it
    deleted and those already gone, nothing unlisted is touched, only empty owned
    directories are pruned, and the manifest is gone afterwards. */
module UninstallLaws {
  import opened Fs
  import opened Collaborators
  import opened Paths
  import opened Install
  import opened InstallLaws
  import opened Uninstall

  // ---------------------------------------------------------------------------
  // The manifest walk
  // ---------------------------------------------------------------------------

  /** The walk never touches a directory, fails exactly when a listed path is a
      directory, alters no unlisted path, and on success leaves no listed path. */
  lemma {:induction false} UnlinkAllShape(s: Snapshot, ts: seq<string>)
    ensures var o := UnlinkAll(s, ts);
      o.fs.dirs == s.dirs && o.fs.files.Keys <= s.files.Keys && (s.Valid() ==> o.fs.Valid()) &&
      (o.result.Ok? <==> forall i :: 0 <= i < |ts| ==> ts[i] !in s.dirs) &&
      (o.result.Fail? ==> o.result.error.code == EISDIR && o.result.error.path in s.dirs && o.result.error.path in ts) &&
      (forall q :: q !in ts ==> Lookup(o.fs.files, q) == Lookup(s.files, q)) &&
      (o.result.Ok? ==> forall q :: q in ts ==> q !in o.fs.files)
    decreases |ts|
  {
    if ts != [] {
      var u := Unlink(s, ts[0]);
      assert forall q :: q in ts <==> q == ts[0] || q in ts[1..] by {
        assert ts == [ts[0]] + ts[1..];
      }
      if !(u.result.Fail? && u.result.error.code != ENOENT) {
        UnlinkAllShape(u.fs, ts[1..]);
        assert forall i :: 0 < i < |ts| ==> ts[i] == ts[1..][i - 1];
      }
    }
  }

  /** On success every listed path is counted once, and a path is among the removed
      exactly when it is listed and was a file beforehand. */
  lemma {:induction false} UnlinkAllTally(s: Snapshot, ts: seq<string>)
    ensures var o := UnlinkAll(s, ts);
      o.result.Ok? ==>
        multiset(o.result.value.removed) + multiset(o.result.value.notFound) == multiset(ts) &&
        forall x :: x in o.result.value.removed <==> x in ts && x in s.files
    decreases |ts|
  {
    if ts != [] {
      var u := Unlink(s, ts[0]);
      assert ts == [ts[0]] + ts[1..];
      if !(u.result.Fail? && u.result.error.code != ENOENT) {
        UnlinkAllTally(u.fs, ts[1..]);
      }
    }
  }

  /** The listed paths that are files of `files`, in listing order. */
  function Present(ts: seq<string>, files: map<string, Content>): (r: seq<string>)
    ensures forall x :: x in r <==> x in ts && x in files
  {
    if ts == [] then []
    else (if ts[0] in files then [ts[0]] else []) + Present(ts[1..], files)
  }

  /** The listed paths that are not files of `files`, in listing order. */
  function Absent(ts: seq<string>, files: map<string, Content>): (r: seq<string>)
    ensures forall x :: x in r <==> x in ts && x !in files
  {
    if ts == [] then []
    else (if ts[0] !in files then [ts[0]] else []) + Absent(ts[1..], files)
  }

  lemma {:induction false} PresentAbsentFrame(ts: seq<string>, files: map<string, Content>, k: string)
    requires k !in ts
    ensures Present(ts, files - {k}) == Present(ts, files) && Absent(ts, files - {k}) == Absent(ts, files)
    decreases |ts|
  {
    if ts != [] {
      assert ts == [ts[0]] + ts[1..];
      PresentAbsentFrame(ts[1..], files, k);
    }
  }

  /** With distinct listed paths the walk keeps manifest order: the removed are the
      listed paths that were files, the not-found the others. */
  lemma {:induction false} UnlinkAllOrder(s: Snapshot, ts: seq<string>)
    requires Distinct(ts)
    ensures var o := UnlinkAll(s, ts);
      o.result.Ok? ==> o.result.value == Tally(Present(ts, s.files), Absent(ts, s.files))
    decreases |ts|
  {
    if ts != [] {
      var u := Unlink(s, ts[0]);
      if !(u.result.Fail? && u.result.error.code != ENOENT) {
        assert Distinct(ts[1..]) by {
          assert forall i, j :: 0 <= i < j < |ts[1..]| ==> ts[1..][i] == ts[i + 1] && ts[1..][j] == ts[j + 1];
        }
        assert ts[0] !in ts[1..] by {
          assert forall i :: 0 <= i < |ts[1..]| ==> ts[1..][i] == ts[i + 1];
        }
        UnlinkAllOrder(u.fs, ts[1..]);
        PresentAbsentFrame(ts[1..], s.files, ts[0]);
        if u.result.Ok? {
          assert u.fs.files == s.files - {ts[0]};
        }
      }
    }
  }

  // ---------------------------------------------------------------------------
  // The prune loop
  // ---------------------------------------------------------------------------

  lemma EmptyDirShrinks(s: Snapshot, t: Snapshot, d: string)
    requires EmptyDir(s, d) && t.files.Keys <= s.files.Keys && t.dirs <= s.dirs
    ensures EmptyDir(t, d)
  {
  }

  /** The prune loop touches no file, only removes directories it was given, and each
      of those only while nothing lay inside it; so a directory with a file inside
      survives. It fails exactly when one of its directories is a regular file. */
  lemma {:induction false} PruneAllLaw(s: Snapshot, ds: seq<string>)
    ensures var o := PruneAll(s, ds);
      o.fs.files == s.files && o.fs.dirs <= s.dirs && (s.Valid() ==> o.fs.Valid()) &&
      (forall d :: d in s.dirs && d !in o.fs.dirs ==> d in ds && EmptyDir(o.fs, d)) &&
      (forall d, f :: d in s.dirs && f in s.files && Under(d, f) ==> d in o.fs.dirs) &&
      (o.result.Ok? <==> forall i :: 0 <= i < |ds| ==> ds[i] !in s.files)
    decreases |ds|
  {
    if ds != [] {
      var r := Rmdir(s, ds[0]);
      if !(r.result.Fail? && !Tolerated(r.result.error.code)) {
        PruneAllLaw(r.fs, ds[1..]);
        var o := PruneAll(r.fs, ds[1..]);
        assert forall i :: 0 < i < |ds| ==> ds[i] == ds[1..][i - 1];
        assert forall d :: d in ds[1..] ==> d in ds;
        if r.result.Ok? {
          EmptyDirShrinks(s, o.fs, ds[0]);
        }
      }
    }
  }

  // ---------------------------------------------------------------------------
  // `uninstall`
  // ---------------------------------------------------------------------------

  /** With no manifest, `uninstall` reports not-installed and changes nothing; that is
      the only way it reports so. A manifest it cannot read changes nothing either. */
  lemma UninstallNotInstalled(s: Snapshot, env: Env, home: Option<string>)
    ensures var p := ResolvePaths(home, env.defaultHome);
      var o := UninstallSpec(s, env, home);
      (o.result == Ok(NotInstalled) <==> !s.Exists(p.manifestPath)) &&
      (o.result == Ok(NotInstalled) ==> o.fs == s) &&
      (ReadManifest(s, p.manifestPath, env.codec).Fail? ==> o.fs == s)
  {
  }

  /** The lists `uninstall` reports are those of the walk over the listed paths. */
  lemma UninstalledByWalk(s: Snapshot, env: Env, home: Option<string>)
    requires UninstallSpec(s, env, home).result.Ok? && UninstallSpec(s, env, home).result.value.Uninstalled?
    ensures var p := ResolvePaths(home, env.defaultHome);
      var m := ReadManifest(s, p.manifestPath, env.codec);
      m.Ok? && m.value.Some? &&
      var w := UnlinkAll(s, Targets(p.claudeDir, m.value.value.files));
      var r := UninstallSpec(s, env, home).result.value;
      w.result.Ok? && r.removed == w.result.value.removed && r.notFound == w.result.value.notFound
  {
  }

  /** Every listed path lands in exactly one of `removed` and `notFound`, and in
      `removed` exactly when it was a file beforehand. */
  lemma UninstallPartition(s: Snapshot, env: Env, home: Option<string>)
    requires UninstallSpec(s, env, home).result.Ok? && UninstallSpec(s, env, home).result.value.Uninstalled?
    ensures var p := ResolvePaths(home, env.defaultHome);
      var r := UninstallSpec(s, env, home).result.value;
      var m := ReadManifest(s, p.manifestPath, env.codec);
      m.Ok? && m.value.Some? &&
      var ts := Targets(p.claudeDir, m.value.value.files);
      multiset(r.removed) + multiset(r.notFound) == multiset(ts) &&
      |r.removed| + |r.notFound| == |m.value.value.files| &&
      forall x :: x in r.removed <==> x in ts && x in s.files
  {
    UninstalledByWalk(s, env, home);
    var p := ResolvePaths(home, env.defaultHome);
    var ts := Targets(p.claudeDir, ReadManifest(s, p.manifestPath, env.codec).value.value.files);
    var t := UnlinkAll(s, ts).result.value;
    UnlinkAllTally(s, ts);
    assert |multiset(t.removed) + multiset(t.notFound)| == |multiset(ts)|;
  }

  /** With distinct listed paths, both lists keep manifest order. */
  lemma UninstallOrder(s: Snapshot, env: Env, home: Option<string>)
    requires UninstallSpec(s, env, home).result.Ok? && UninstallSpec(s, env, home).result.value.Uninstalled?
    requires var p := ResolvePaths(home, env.defaultHome);
      var m := ReadManifest(s, p.manifestPath, env.codec);
      m.Ok? && m.value.Some? && Distinct(Targets(p.claudeDir, m.value.value.files))
    ensures var p := ResolvePaths(home, env.defaultHome);
      var r := UninstallSpec(s, env, home).result.value;
      var ts := Targets(p.claudeDir, ReadManifest(s, p.manifestPath, env.codec).value.value.files);
      r.removed == Present(ts, s.files) && r.notFound == Absent(ts, s.files)
  {
    UninstalledByWalk(s, env, home);
    var p := ResolvePaths(home, env.defaultHome);
    UnlinkAllOrder(s, Targets(p.claudeDir, ReadManifest(s, p.manifestPath, env.codec).value.value.files));
  }

  /** Whatever the outcome, `uninstall` leaves every path the manifest does not list
      (other than the document and the manifest) as it was, removes a directory only
      if it is an owned one with nothing left inside, and keeps a valid filesystem
      valid. */
  lemma UninstallFrame(s: Snapshot, env: Env, home: Option<string>)
    requires s.Valid()
    ensures var p := ResolvePaths(home, env.defaultHome);
      var o := UninstallSpec(s, env, home);
      var m := ReadManifest(s, p.manifestPath, env.codec);
      var doc := ProjectClaudeMd(env.cwd);
      o.fs.Valid() && o.fs.dirs <= s.dirs &&
      (!(m.Ok? && m.value.Some?) ==> o.fs == s) &&
      (forall d :: d in s.dirs && d !in o.fs.dirs ==> d in PrunedDirs(p) && EmptyDir(o.fs, d)) &&
      (m.Ok? && m.value.Some? ==>
        forall q :: q !in Targets(p.claudeDir, m.value.value.files) && q != doc && q != p.manifestPath ==>
          Lookup(o.fs.files, q) == Lookup(s.files, q))
  {
    var p := ResolvePaths(home, env.defaultHome);
    var m := ReadManifest(s, p.manifestPath, env.codec);
    if m.Ok? && m.value.Some? {
      var ts := Targets(p.claudeDir, m.value.value.files);
      var walked := UnlinkAll(s, ts);
      UnlinkAllShape(s, ts);
      if walked.result.Ok? {
        var stripped := StripDoc(walked.fs, ProjectClaudeMd(env.cwd), env.removeProtocol);
        if stripped.result.Ok? {
          var pruned := PruneAll(stripped.fs, PrunedDirs(p));
          PruneAllLaw(stripped.fs, PrunedDirs(p));
          if pruned.result.Ok? {
            var last := Unlink(pruned.fs, p.manifestPath);
            forall d | d in s.dirs && d !in last.fs.dirs ensures d in PrunedDirs(p) && EmptyDir(last.fs, d) {
              EmptyDirShrinks(pruned.fs, last.fs, d);
            }
          }
        }
      }
    }
  }

  /** After a successful `uninstall` no listed path exists any more, neither as a file
      nor as a directory (unless it is the document, which the protocol editor may
      write back), the manifest is gone, and the document holds what the protocol
      editor made of it. */
  lemma UninstallRemoves(s: Snapshot, env: Env, home: Option<string>)
    requires s.Valid()
    requires UninstallSpec(s, env, home).result.Ok? && UninstallSpec(s, env, home).result.value.Uninstalled?
    ensures var p := ResolvePaths(home, env.defaultHome);
      var o := UninstallSpec(s, env, home);
      var m := ReadManifest(s, p.manifestPath, env.codec);
      var doc := ProjectClaudeMd(env.cwd);
      m.Ok? && m.value.Some? &&
      var ts := Targets(p.claudeDir, m.value.value.files);
      (forall x :: x in ts && x != doc ==> !o.fs.Exists(x)) &&
      !o.fs.Exists(p.manifestPath) &&
      (doc !in ts ==> Lookup(o.fs.files, doc) == env.removeProtocol(Lookup(s.files, doc)))
  {
    var p := ResolvePaths(home, env.defaultHome);
    var m := ReadManifest(s, p.manifestPath, env.codec);
    var doc := ProjectClaudeMd(env.cwd);
    var ts := Targets(p.claudeDir, m.value.value.files);
    DocNotManifest(None, env.cwd, p);
    UnlinkAllShape(s, ts);
    var walked := UnlinkAll(s, ts);
    var stripped := StripDoc(walked.fs, doc, env.removeProtocol);
    PruneAllLaw(stripped.fs, PrunedDirs(p));
    UninstalledByWalk(s, env, home);
    UninstallFrame(s, env, home);
    forall x | x in ts ensures x !in s.dirs {
      var k :| 0 <= k < |ts| && ts[k] == x;
    }
  }

  /** `kilntwoDir` survives `uninstall` whenever the manifest does not list itself:
      the manifest still lies inside it when the prune loop tries to remove it. */
  lemma UninstallKeepsKilntwo(s: Snapshot, env: Env, home: Option<string>)
    requires s.Valid()
    requires UninstallSpec(s, env, home).result.Ok? && UninstallSpec(s, env, home).result.value.Uninstalled?
    requires var p := ResolvePaths(home, env.defaultHome);
      var m := ReadManifest(s, p.manifestPath, env.codec);
      m.Ok? && m.value.Some? && p.manifestPath !in Targets(p.claudeDir, m.value.value.files)
    ensures var p := ResolvePaths(home, env.defaultHome);
      p.kilntwoDir in UninstallSpec(s, env, home).fs.dirs <==> p.kilntwoDir in s.dirs
  {
    var p := ResolvePaths(home, env.defaultHome);
    var m := ReadManifest(s, p.manifestPath, env.codec);
    var doc := ProjectClaudeMd(env.cwd);
    var ts := Targets(p.claudeDir, m.value.value.files);
    DocNotManifest(None, env.cwd, p);
    UnlinkAllShape(s, ts);
    var walked := UnlinkAll(s, ts);
    var stripped := StripDoc(walked.fs, doc, env.removeProtocol);
    assert p.manifestPath in stripped.fs.files by {
      assert Lookup(stripped.fs.files, p.manifestPath) == Lookup(s.files, p.manifestPath);
    }
    PruneAllLaw(stripped.fs, PrunedDirs(p));
  }
}
