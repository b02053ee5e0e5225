/** `uninstall`: delete every file the manifest lists, strip the protocol block from
    the document in the working directory, prune the owned directories that have
    become empty, and delete the manifest last. */
module Uninstall {
  import opened Fs
  import opened Collaborators
  import opened Paths

  /** What `uninstall` returns: `{ error: 'not-installed' }`, or the absolute paths it
      deleted and those that were already gone. */
  datatype UninstallResult = NotInstalled | Uninstalled(removed: seq<string>, notFound: seq<string>)

  /** The `removed` and `notFound` lists of the manifest walk. */
  datatype Tally = Tally(removed: seq<string>, notFound: seq<string>)

  /** The absolute path of every manifest entry: `path.join(claudeDir, file.path)`. */
  function Targets(claudeDir: string, entries: seq<FileEntry>): (r: seq<string>)
    ensures |r| == |entries|
    ensures forall i :: 0 <= i < |entries| ==> r[i] == Join(claudeDir, entries[i].path)
  {
    seq(|entries|, i requires 0 <= i < |entries| => Join(claudeDir, entries[i].path))
  }

  /** `t`'s paths in front of a successful outcome's; a failure passes through. */
  function Prefixed(t: Tally, o: Outcome<Tally>): Outcome<Tally>
  {
    if o.result.Fail? then o
    else Outcome(o.fs, Ok(Tally(t.removed + o.result.value.removed, t.notFound + o.result.value.notFound)))
  }

  /** The manifest walk: unlink each path in turn; a path that is not there goes to
      `notFound`, any other error is thrown. */
  function UnlinkAll(s: Snapshot, ts: seq<string>): Outcome<Tally>
    decreases |ts|
  {
    if ts == [] then Outcome(s, Ok(Tally([], [])))
    else
      var u := Unlink(s, ts[0]);
      if u.result.Fail? && u.result.error.code != ENOENT then Outcome(u.fs, Fail(u.result.error))
      else Prefixed(if u.result.Ok? then Tally([ts[0]], []) else Tally([], [ts[0]]), UnlinkAll(u.fs, ts[1..]))
  }

  /** `removeProtocol(doc)`: the document takes the content `remove` gives for its old
      content, and is deleted when that is absent; a directory in its place cannot be
      read, and writing the new content fails as any write does. Nothing else changes. */
  function StripDoc(s: Snapshot, doc: string, remove: Option<Content> -> Option<Content>): (o: Outcome<()>)
    ensures o.result.Ok? <==> doc !in s.dirs && (remove(Lookup(s.files, doc)).Some? ==> Ancestors(doc) <= s.dirs)
    ensures o.result.Fail? ==> o.fs == s && o.result.error.path == doc && (o.result.error.code == EISDIR <==> doc in s.dirs)
    ensures o.fs.dirs == s.dirs && (s.Valid() ==> o.fs.Valid())
    ensures o.result.Ok? ==> Lookup(o.fs.files, doc) == remove(Lookup(s.files, doc))
    ensures forall q :: q != doc ==> Lookup(o.fs.files, q) == Lookup(s.files, q)
  {
    if doc in s.dirs then Outcome(s, Fail(Fatal(EISDIR, doc)))
    else match remove(Lookup(s.files, doc))
      case None => Outcome(s.(files := s.files - {doc}), Ok(()))
      case Some(c) => WriteFile(s, doc, c)
  }

  /** The errors of `rmdirSync` the prune loop passes over. */
  predicate Tolerated(code: ErrorCode) {
    code == ENOENT || code == ENOTEMPTY || code == EEXIST
  }

  /** The prune loop: `rmdirSync` each directory in turn, passing over one that is
      missing or not empty. */
  function PruneAll(s: Snapshot, ds: seq<string>): Outcome<()>
    decreases |ds|
  {
    if ds == [] then Outcome(s, Ok(()))
    else
      var r := Rmdir(s, ds[0]);
      if r.result.Fail? && !Tolerated(r.result.error.code) then Outcome(r.fs, Fail(r.result.error))
      else PruneAll(r.fs, ds[1..])
  }

  /** The directories the prune loop tries, in its order. */
  function PrunedDirs(p: Layout): seq<string> {
    [p.templatesDir, p.kilntwoDir, p.commandsDir]
  }

  /** `uninstall`. */
  function UninstallSpec(s: Snapshot, env: Env, home: Option<string>): Outcome<UninstallResult>
  {
    var p := ResolvePaths(home, env.defaultHome);
    match ReadManifest(s, p.manifestPath, env.codec)
      case Fail(e) => Outcome(s, Fail(e))
      case Ok(None) => Outcome(s, Ok(NotInstalled))
      case Ok(Some(m)) =>
        var walked := UnlinkAll(s, Targets(p.claudeDir, m.files));
        if walked.result.Fail? then Outcome(walked.fs, Fail(walked.result.error))
        else
          var stripped := StripDoc(walked.fs, ProjectClaudeMd(env.cwd), env.removeProtocol);
          if stripped.result.Fail? then Outcome(stripped.fs, Fail(stripped.result.error))
          else
            var pruned := PruneAll(stripped.fs, PrunedDirs(p));
            if pruned.result.Fail? then Outcome(pruned.fs, Fail(pruned.result.error))
            else
              var last := Unlink(pruned.fs, p.manifestPath);
              if last.result.Fail? && last.result.error.code != ENOENT then Outcome(last.fs, Fail(last.result.error))
              else Outcome(last.fs, Ok(Uninstalled(walked.result.value.removed, walked.result.value.notFound)))
  }

  // ---------------------------------------------------------------------------
  // The imperative code
  // ---------------------------------------------------------------------------

  lemma PrefixedAssoc(t: Tally, h: Tally, o: Outcome<Tally>)
    ensures Prefixed(t, Prefixed(h, o)) == Prefixed(Tally(t.removed + h.removed, t.notFound + h.notFound), o)
  {
    if o.result.Ok? {
      assert t.removed + (h.removed + o.result.value.removed) == (t.removed + h.removed) + o.result.value.removed;
      assert t.notFound + (h.notFound + o.result.value.notFound) == (t.notFound + h.notFound) + o.result.value.notFound;
    }
  }

  lemma PrefixedEmpty(o: Outcome<Tally>)
    ensures Prefixed(Tally([], []), o) == o
  {
    if o.result.Ok? {
      assert [] + o.result.value.removed == o.result.value.removed;
      assert [] + o.result.value.notFound == o.result.value.notFound;
    }
  }

  /** One step of the manifest walk, given the outcome `u` of its unlink. */
  lemma UnlinkStep(s: Snapshot, ts: seq<string>, i: int, t: Tally, u: Outcome<()>)
    requires 0 <= i < |ts| && u == Unlink(s, ts[i])
    ensures u.result.Fail? && u.result.error.code != ENOENT ==>
      Prefixed(t, UnlinkAll(s, ts[i..])) == Outcome(u.fs, Fail(u.result.error))
    ensures !(u.result.Fail? && u.result.error.code != ENOENT) ==>
      Prefixed(t, UnlinkAll(s, ts[i..])) ==
      Prefixed(if u.result.Ok? then Tally(t.removed + [ts[i]], t.notFound) else Tally(t.removed, t.notFound + [ts[i]]),
               UnlinkAll(u.fs, ts[i + 1..]))
  {
    assert ts[i..][0] == ts[i] && ts[i..][1..] == ts[i + 1..];
    if !(u.result.Fail? && u.result.error.code != ENOENT) {
      var h := if u.result.Ok? then Tally([ts[i]], []) else Tally([], [ts[i]]);
      assert UnlinkAll(s, ts[i..]) == Prefixed(h, UnlinkAll(u.fs, ts[i + 1..]));
      PrefixedAssoc(t, h, UnlinkAll(u.fs, ts[i + 1..]));
      assert t.removed + [] == t.removed && t.notFound + [] == t.notFound;
    }
  }

  /** The loop over `manifest.files`. */
  method UnlinkLoop(fs: FileSystem, claudeDir: string, entries: seq<FileEntry>) returns (r: Result<Tally>)
    modifies fs
    ensures Outcome(fs.State(), r) == UnlinkAll(old(fs.State()), Targets(claudeDir, entries))
  {
    ghost var s0 := fs.State();
    ghost var ts := Targets(claudeDir, entries);
    var removed: seq<string> := [];
    var notFound: seq<string> := [];
    var i := 0;
    assert ts[0..] == ts;
    PrefixedEmpty(UnlinkAll(s0, ts));
    while i < |entries|
      invariant 0 <= i <= |entries|
      invariant UnlinkAll(s0, ts) == Prefixed(Tally(removed, notFound), UnlinkAll(fs.State(), ts[i..]))
    {
      var absolutePath := Join(claudeDir, entries[i].path);
      ghost var before := fs.State();
      var u := fs.UnlinkFile(absolutePath);
      UnlinkStep(before, ts, i, Tally(removed, notFound), Outcome(fs.State(), u));
      if u.Fail? {
        if u.error.code != ENOENT {
          return Fail(u.error);
        }
        notFound := notFound + [absolutePath];
      } else {
        removed := removed + [absolutePath];
      }
      i := i + 1;
    }
    assert ts[i..] == [];
    assert removed + [] == removed && notFound + [] == notFound;
    r := Ok(Tally(removed, notFound));
  }

  /** `removeProtocol` on the document. */
  method StripProtocol(fs: FileSystem, doc: string, remove: Option<Content> -> Option<Content>) returns (r: Result<()>)
    modifies fs
    ensures Outcome(fs.State(), r) == StripDoc(old(fs.State()), doc, remove)
  {
    if doc in fs.dirs {
      return Fail(Fatal(EISDIR, doc));
    }
    var stripped := remove(Lookup(fs.files, doc));
    if stripped.None? {
      if doc in fs.files {
        r := fs.UnlinkFile(doc);
      } else {
        r := Ok(());
      }
      assert fs.files == old(fs.files) - {doc};
    } else {
      r := fs.Write(doc, stripped.value);
    }
  }

  lemma PruneStep(s: Snapshot, ds: seq<string>, i: int, o: Outcome<()>)
    requires 0 <= i < |ds| && o == Rmdir(s, ds[i])
    ensures o.result.Fail? && !Tolerated(o.result.error.code) ==> PruneAll(s, ds[i..]) == Outcome(o.fs, Fail(o.result.error))
    ensures !(o.result.Fail? && !Tolerated(o.result.error.code)) ==> PruneAll(s, ds[i..]) == PruneAll(o.fs, ds[i + 1..])
  {
    assert ds[i..][0] == ds[i] && ds[i..][1..] == ds[i + 1..];
  }

  /** The loop over `[templatesDir, kilntwoDir, commandsDir]`. */
  method PruneLoop(fs: FileSystem, ds: seq<string>) returns (r: Result<()>)
    modifies fs
    ensures Outcome(fs.State(), r) == PruneAll(old(fs.State()), ds)
  {
    ghost var s0 := fs.State();
    var i := 0;
    assert ds[0..] == ds;
    while i < |ds|
      invariant 0 <= i <= |ds|
      invariant PruneAll(s0, ds) == PruneAll(fs.State(), ds[i..])
    {
      ghost var before := fs.State();
      var o := fs.RemoveDir(ds[i]);
      PruneStep(before, ds, i, Outcome(fs.State(), o));
      if o.Fail? && !Tolerated(o.error.code) {
        return Fail(o.error);
      }
      i := i + 1;
    }
    assert ds[i..] == [];
    r := Ok(());
  }

  /** `uninstall`. */
  method Uninstall(fs: FileSystem, env: Env, home: Option<string>) returns (r: Result<UninstallResult>)
    modifies fs
    ensures Outcome(fs.State(), r) == UninstallSpec(old(fs.State()), env, home)
  {
    var p := ResolvePaths(home, env.defaultHome);
    var manifest := ReadManifest(fs.State(), p.manifestPath, env.codec);
    if manifest.Fail? {
      return Fail(manifest.error);
    }
    if manifest.value.None? {
      return Ok(NotInstalled);
    }
    var tally := UnlinkLoop(fs, p.claudeDir, manifest.value.value.files);
    if tally.Fail? {
      return Fail(tally.error);
    }
    var stripped := StripProtocol(fs, ProjectClaudeMd(env.cwd), env.removeProtocol);
    if stripped.Fail? {
      return Fail(stripped.error);
    }
    var pruned := PruneLoop(fs, PrunedDirs(p));
    if pruned.Fail? {
      return Fail(pruned.error);
    }
    var last := fs.UnlinkFile(p.manifestPath);
    if last.Fail? && last.error.code != ENOENT {
      return Fail(last.error);
    }
    r := Ok(Uninstalled(tally.value.removed, tally.value.notFound));
  }
}
