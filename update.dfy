/** `update`: compare the recorded version with the running one; when they differ (or
    when forced) uninstall, then install again with `force` set. */
module Update {
  import opened Fs
  import opened Collaborators
  import opened Paths
  import opened Install
  import opened Uninstall

  /** What `update` returns: `{ error: 'not-installed', hint }`,
      `{ status: 'up-to-date', version }`, or
      `{ status: 'updated', from, to, installed, removed }`. */
  datatype UpdateResult =
    | UpdateNotInstalled
    | UpToDate(version: string)
    | Updated(from: string, to: string, installed: seq<string>, removed: seq<string>)

  /** The `removed` field of an uninstall result; the not-installed object has none. */
  function RemovedOf(u: UninstallResult): seq<string> {
    if u.Uninstalled? then u.removed else []
  }

  /** `update`. The uninstall and the install run on the same home; the install gets
      no project path, so it stamps the document in the working directory. */
  function UpdateSpec(s: Snapshot, env: Env, home: Option<string>, force: bool): Outcome<UpdateResult>
  {
    var p := ResolvePaths(home, env.defaultHome);
    match ReadManifest(s, p.manifestPath, env.codec)
      case Fail(e) => Outcome(s, Fail(e))
      case Ok(None) => Outcome(s, Ok(UpdateNotInstalled))
      case Ok(Some(m)) =>
        if m.kilnVersion == env.version && !force then Outcome(s, Ok(UpToDate(env.version)))
        else
          var u := UninstallSpec(s, env, home);
          if u.result.Fail? then Outcome(u.fs, Fail(u.result.error))
          else
            var i := InstallSpec(u.fs, env, home, true, None);
            if i.result.Fail? then Outcome(i.fs, Fail(i.result.error))
            else Outcome(i.fs, Ok(Updated(m.kilnVersion, env.version, i.result.value.installed, RemovedOf(u.result.value))))
  }

  /** `update`. */
  method Update(fs: FileSystem, env: Env, home: Option<string>, force: bool) returns (r: Result<UpdateResult>)
    modifies fs
    ensures Outcome(fs.State(), r) == UpdateSpec(old(fs.State()), env, home, force)
  {
    var p := ResolvePaths(home, env.defaultHome);
    var manifest := ReadManifest(fs.State(), p.manifestPath, env.codec);
    if manifest.Fail? {
      return Fail(manifest.error);
    }
    if manifest.value.None? {
      return Ok(UpdateNotInstalled);
    }
    var oldVersion := manifest.value.value.kilnVersion;
    if oldVersion == env.version && !force {
      return Ok(UpToDate(env.version));
    }
    var removed := Uninstall.Uninstall(fs, env, home);
    if removed.Fail? {
      return Fail(removed.error);
    }
    var installed := Install.Install(fs, env, home, true, None);
    if installed.Fail? {
      return Fail(installed.error);
    }
    r := Ok(Updated(oldVersion, env.version, installed.value.installed, RemovedOf(removed.value)));
  }
}
