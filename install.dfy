/** `install`: copy the shipped asset tree into the home layout under the four-way
    overwrite-or-skip decision, stamp the project document, and write a fresh
    manifest listing exactly what was installed. */
module Install {
  import opened Fs
  import opened Collaborators
  import opened Paths

  // ---------------------------------------------------------------------------
  // Listing a source directory: `.filter((entry) => entry.endsWith('.md')).sort()`
  // ---------------------------------------------------------------------------

  predicate EndsWith(s: string, suffix: string) {
    |suffix| <= |s| && s[|s| - |suffix|..] == suffix
  }

  /** The `.md` entries of a listing, in listing order. */
  function Markdown(names: seq<string>): (r: seq<string>)
    ensures forall n :: n in r <==> n in names && EndsWith(n, ".md")
    ensures Distinct(names) ==> Distinct(r)
  {
    if names == [] then []
    else (if EndsWith(names[0], ".md") then [names[0]] else []) + Markdown(names[1..])
  }

  predicate Distinct(s: seq<string>) {
    forall i, j :: 0 <= i < j < |s| ==> s[i] != s[j]
  }

  /** The order of the default `Array.prototype.sort`: lexicographic by character code. */
  predicate Below(a: string, b: string) {
    a == [] || (b != [] && (a[0] < b[0] || (a[0] == b[0] && Below(a[1..], b[1..]))))
  }

  lemma {:induction false} BelowTotal(a: string, b: string)
    ensures Below(a, b) || Below(b, a)
  {
    if a != [] && b != [] && a[0] == b[0] {
      BelowTotal(a[1..], b[1..]);
    }
  }

  lemma {:induction false} BelowTransitive(a: string, b: string, c: string)
    requires Below(a, b) && Below(b, c)
    ensures Below(a, c)
  {
    if a != [] && a[0] == b[0] && b[0] == c[0] {
      BelowTransitive(a[1..], b[1..], c[1..]);
    }
  }

  predicate Sorted(s: seq<string>) {
    forall i, j :: 0 <= i < j < |s| ==> Below(s[i], s[j])
  }

  function Insert(x: string, s: seq<string>): (r: seq<string>)
    ensures multiset(r) == multiset(s) + multiset{x}
    ensures forall y :: y in r <==> y == x || y in s
  {
    if s == [] then [x]
    else if Below(x, s[0]) then [x] + s
    else
      assert s == [s[0]] + s[1..];
      [s[0]] + Insert(x, s[1..])
  }

  lemma {:induction false} InsertSorted(x: string, s: seq<string>)
    requires Sorted(s)
    ensures Sorted(Insert(x, s))
  {
    if s == [] {
    } else if Below(x, s[0]) {
      forall j | 0 < j < |s| ensures Below(x, s[j]) {
        BelowTransitive(x, s[0], s[j]);
      }
    } else {
      BelowTotal(x, s[0]);
      InsertSorted(x, s[1..]);
      var t := Insert(x, s[1..]);
      forall j | 0 <= j < |t| ensures Below(s[0], t[j]) {
        assert t[j] in t;
        if t[j] != x {
          assert t[j] in s[1..];
          var k :| 0 <= k < |s[1..]| && s[1..][k] == t[j];
          assert s[k + 1] == t[j];
        }
      }
    }
  }

  lemma {:induction false} InsertDistinct(x: string, s: seq<string>)
    requires Distinct(s) && x !in s
    ensures Distinct(Insert(x, s))
  {
    if s != [] && !Below(x, s[0]) {
      InsertDistinct(x, s[1..]);
      assert s[0] !in s[1..];
      var t := Insert(x, s[1..]);
      assert Insert(x, s) == [s[0]] + t;
      assert s[0] !in t;
    }
  }

  /** The sorted form of a listing: ordered, and a permutation of the input. */
  function SortNames(s: seq<string>): (r: seq<string>)
    ensures Sorted(r) && multiset(r) == multiset(s)
    ensures Distinct(s) ==> Distinct(r)
  {
    if s == [] then []
    else
      var t := SortNames(s[1..]);
      SortStep(s, t);
      Insert(s[0], t)
  }

  /** Inserting the head into the sorted rest sorts the whole. */
  lemma SortStep(s: seq<string>, t: seq<string>)
    requires s != [] && Sorted(t) && multiset(t) == multiset(s[1..])
    requires Distinct(s[1..]) ==> Distinct(t)
    ensures Sorted(Insert(s[0], t)) && multiset(Insert(s[0], t)) == multiset(s)
    ensures Distinct(s) ==> Distinct(Insert(s[0], t))
  {
    assert s == [s[0]] + s[1..];
    InsertSorted(s[0], t);
    if Distinct(s) {
      assert s[0] !in s[1..];
      assert s[0] !in multiset(t);
      InsertDistinct(s[0], t);
    }
  }

  // ---------------------------------------------------------------------------
  // Copy jobs (src/install.js:33-49, 76-77)
  // ---------------------------------------------------------------------------

  /** One source file to install at `dest`; `content` is absent when the source
      cannot be read. */
  datatype Job = Job(name: string, src: string, dest: string, content: Option<Content>)

  /** One entry of `copyJobs`. */
  datatype Group = Group(srcDir: string, destDir: string, dir: SourceDir)

  function CopyGroups(a: Assets, p: Layout): seq<Group>
  {
    [ Group(Join(a.dir, "agents"), p.agentsDir, a.agents),
      Group(Join(Join(a.dir, "commands"), "kiln"), p.commandsDir, a.commands),
      Group(Join(a.dir, "templates"), p.templatesDir, a.templates) ]
  }

  function JobFor(g: Group, name: string): Job
    requires g.dir.Listing?
  {
    Job(name, Join(g.srcDir, name), Join(g.destDir, name), Lookup(g.dir.content, name))
  }

  function NamesOf(jobs: seq<Job>): seq<string>
  {
    seq(|jobs|, i requires 0 <= i < |jobs| => jobs[i].name)
  }

  /** The jobs of one group, in the order the inner loop visits them. */
  function GroupJobs(g: Group): seq<Job>
  {
    match g.dir
    case Unreadable => []
    case Listing(names, _) =>
      var filenames := SortNames(Markdown(names));
      seq(|filenames|, i requires 0 <= i < |filenames| => JobFor(g, filenames[i]))
  }

  /** A group copies nothing when its directory cannot be read; otherwise one file per
      `.md` entry, sorted by name and each entry exactly once, from `srcDir/name` to
      `destDir/name`. */
  lemma GroupJobsSpec(g: Group)
    ensures g.dir.Unreadable? ==> GroupJobs(g) == []
    ensures g.dir.Listing? ==> Sorted(NamesOf(GroupJobs(g))) && multiset(NamesOf(GroupJobs(g))) == multiset(Markdown(g.dir.names))
    ensures g.dir.Listing? && Distinct(g.dir.names) ==> Distinct(NamesOf(GroupJobs(g)))
    ensures forall i :: 0 <= i < |GroupJobs(g)| ==>
      var job := GroupJobs(g)[i];
      job.dest == Join(g.destDir, job.name) && job.src == Join(g.srcDir, job.name) &&
      job.content == Lookup(g.dir.content, job.name)
  {
    if g.dir.Listing? {
      assert NamesOf(GroupJobs(g)) == SortNames(Markdown(g.dir.names));
    }
  }

  function AllGroupJobs(gs: seq<Group>): seq<Job>
  {
    if gs == [] then [] else GroupJobs(gs[0]) + AllGroupJobs(gs[1..])
  }

  function NamesJob(a: Assets, p: Layout): Job
  {
    Job("names.json", Join(a.dir, "names.json"), Join(p.kilntwoDir, "names.json"), a.names)
  }

  /** Every source processed, in order: agents, commands, templates, then names.json. */
  function Jobs(a: Assets, p: Layout): seq<Job>
  {
    AllGroupJobs(CopyGroups(a, p)) + [NamesJob(a, p)]
  }

  // ---------------------------------------------------------------------------
  // The per-file decision (src/install.js:51-71, 78-89)
  // ---------------------------------------------------------------------------

  datatype Action = Copied | Kept | Skipped

  /** The decision for one job on the current filesystem, or the error the calls it
      makes throw: with `force`, or when the destination is absent, copy (failing as a
      write to the destination would); otherwise read both fingerprints and keep (as
      installed) when equal, skip when not. */
  function Decide(s: Snapshot, job: Job, force: bool, checksum: Content -> string): Result<Action>
  {
    if force || !s.Exists(job.dest) then
      if job.content.None? then Fail(Fatal(ENOENT, job.src))
      else if WriteError(s, job.dest).Some? then Fail(WriteError(s, job.dest).value)
      else Ok(Copied)
    else if job.dest in s.dirs then Fail(Fatal(EISDIR, job.dest))
    else if job.content.None? then Fail(Fatal(ENOENT, job.src))
    else if checksum(s.files[job.dest]) == checksum(job.content.value) then Ok(Kept)
    else Ok(Skipped)
  }

  /** The `installed` and `skipped` arrays. */
  datatype Lists = Lists(installed: seq<string>, skipped: seq<string>)

  function Step(s: Snapshot, l: Lists, job: Job, force: bool, checksum: Content -> string): Outcome<Lists>
  {
    match Decide(s, job, force, checksum)
    case Fail(e) => Outcome(s, Fail(e))
    case Ok(Copied) =>
      Outcome(s.(files := s.files[job.dest := job.content.value]), Ok(Lists(l.installed + [job.dest], l.skipped)))
    case Ok(Kept) => Outcome(s, Ok(Lists(l.installed + [job.dest], l.skipped)))
    case Ok(Skipped) => Outcome(s, Ok(Lists(l.installed, l.skipped + [job.dest])))
  }

  /** The copy loops: the jobs one after the other, stopping at the first error. */
  function CopyAll(s: Snapshot, l: Lists, jobs: seq<Job>, force: bool, checksum: Content -> string): Outcome<Lists>
    decreases |jobs|
  {
    if jobs == [] then Outcome(s, Ok(l))
    else
      var o := Step(s, l, jobs[0], force, checksum);
      if o.result.Fail? then o else CopyAll(o.fs, o.result.value, jobs[1..], force, checksum)
  }

  // ---------------------------------------------------------------------------
  // The whole of `install` (src/install.js:19-115)
  // ---------------------------------------------------------------------------

  function OwnedDirs(p: Layout): seq<string>
  {
    [p.agentsDir, p.commandsDir, p.kilntwoDir, p.templatesDir]
  }

  /** The `mkdirSync` calls one after the other: files are untouched, directories only
      added, every one a prefix of a requested path; after success each requested
      chain exists; validity is kept; and when everything is already there nothing
      changes. */
  function MkdirAll(s: Snapshot, ds: seq<string>): (o: Outcome<()>)
    ensures o.fs.files == s.files && s.dirs <= o.fs.dirs
    ensures forall q :: q in o.fs.dirs ==> q in s.dirs || exists d :: d in ds && IsPrefix(q, d)
    ensures o.result.Ok? ==> forall d :: d in ds ==> DirChain(d) <= o.fs.dirs
    ensures s.Valid() ==> o.fs.Valid()
    ensures (forall d :: d in ds ==> DirChain(d) <= s.dirs && DirChain(d) !! s.files.Keys) ==> o == Outcome(s, Ok(()))
    decreases |ds|
  {
    if ds == [] then Outcome(s, Ok(()))
    else
      var o := MkdirP(s, ds[0]);
      if o.result.Fail? then o else MkdirAll(o.fs, ds[1..])
  }

  const MarkerBegin: string := "kiln:protocol:begin"
  const MarkerEnd: string := "kiln:protocol:end"
  const ManifestVersion: int := 1

  /** `projectPath || process.cwd()` joined with `CLAUDE.md`. */
  function ProjectDoc(projectPath: Option<string>, cwd: string): string
  {
    ProjectClaudeMd(if projectPath.Some? && projectPath.value != "" then projectPath.value else cwd)
  }

  /** `path.relative(base, p)` for a `p` inside `base`; other paths are left as they
      are (install only asks about paths inside `claudeDir`). */
  function Relative(base: string, p: string): string
  {
    if Under(base, p) then p[|base| + 1..] else p
  }

  /** `installed.map((destPath) => ({ path: relative, checksum: computeChecksum(destPath) }))`. */
  function ManifestFiles(s: Snapshot, installed: seq<string>, base: string, checksum: Content -> string): (r: Result<seq<FileEntry>>)
    ensures r.Ok? <==> forall i :: 0 <= i < |installed| ==> installed[i] in s.files && installed[i] !in s.dirs
    ensures r.Ok? ==> |r.value| == |installed| && forall i :: 0 <= i < |installed| ==>
      r.value[i] == FileEntry(Relative(base, installed[i]), checksum(s.files[installed[i]]))
    decreases |installed|
  {
    if installed == [] then Ok([])
    else match ReadFile(s, installed[0])
      case Fail(e) => Fail(e)
      case Ok(c) =>
        match ManifestFiles(s, installed[1..], base, checksum)
        case Fail(e) => Fail(e)
        case Ok(rest) => Ok([FileEntry(Relative(base, installed[0]), checksum(c))] + rest)
  }

  datatype InstallResult = InstallResult(installed: seq<string>, skipped: seq<string>, version: string)

  /** After the copies: stamp the project document, then build and write the manifest. */
  function Finish(s: Snapshot, l: Lists, env: Env, p: Layout, projectPath: Option<string>): Outcome<InstallResult>
  {
    match env.assets.protocol
    case None => Outcome(s, Fail(Fatal(ENOENT, Join(env.assets.dir, "protocol.md"))))
    case Some(protocol) =>
      var doc := ProjectDoc(projectPath, env.cwd);
      var stamped := WriteFile(s, doc, env.insertProtocol(Lookup(s.files, doc), protocol, env.version));
      if stamped.result.Fail? then Outcome(stamped.fs, Fail(stamped.result.error))
      else match ManifestFiles(stamped.fs, l.installed, p.claudeDir, env.checksum)
        case Fail(e) => Outcome(stamped.fs, Fail(e))
        case Ok(entries) =>
          var m := Manifest(ManifestVersion, env.version, entries, MarkerBegin, MarkerEnd);
          var written := WriteFile(stamped.fs, p.manifestPath, env.codec.encode(m));
          if written.result.Fail? then Outcome(written.fs, Fail(written.result.error))
          else Outcome(written.fs, Ok(InstallResult(l.installed, l.skipped, env.version)))
  }

  /** The filesystem after `install({ home, force, projectPath })` and its result. */
  function InstallSpec(s: Snapshot, env: Env, home: Option<string>, force: bool, projectPath: Option<string>): Outcome<InstallResult>
  {
    var p := ResolvePaths(home, env.defaultHome);
    var made := MkdirAll(s, OwnedDirs(p));
    if made.result.Fail? then Outcome(made.fs, Fail(made.result.error))
    else match ReadManifest(made.fs, p.manifestPath, env.codec)
      case Fail(e) => Outcome(made.fs, Fail(e))
      case Ok(_) =>
        var copied := CopyAll(made.fs, Lists([], []), Jobs(env.assets, p), force, env.checksum);
        if copied.result.Fail? then Outcome(copied.fs, Fail(copied.result.error))
        else Finish(copied.fs, copied.result.value, env, p, projectPath)
  }

  // ---------------------------------------------------------------------------
  // The imperative code
  // ---------------------------------------------------------------------------

  /** One iteration of the inner copy loop, or the `names.json` block. */
  method ProcessJob(fs: FileSystem, l: Lists, job: Job, force: bool, checksum: Content -> string)
    returns (r: Result<Lists>)
    modifies fs
    ensures Outcome(fs.State(), r) == Step(old(fs.State()), l, job, force, checksum)
  {
    if force || !(job.dest in fs.files || job.dest in fs.dirs) {
      if job.content.None? {
        return Fail(Fatal(ENOENT, job.src));
      }
      var w := fs.Write(job.dest, job.content.value);
      if w.Fail? {
        return Fail(w.error);
      }
      return Ok(Lists(l.installed + [job.dest], l.skipped));
    }
    var destContent := ReadFile(fs.State(), job.dest);
    if destContent.Fail? {
      return Fail(destContent.error);
    }
    if job.content.None? {
      return Fail(Fatal(ENOENT, job.src));
    }
    if checksum(destContent.value) == checksum(job.content.value) {
      r := Ok(Lists(l.installed + [job.dest], l.skipped));
    } else {
      r := Ok(Lists(l.installed, l.skipped + [job.dest]));
    }
  }

  lemma CopyAllUnfold(s: Snapshot, l: Lists, jobs: seq<Job>, job: Job, rest: seq<Job>, force: bool, checksum: Content -> string)
    requires jobs == [job] + rest
    ensures CopyAll(s, l, jobs, force, checksum) ==
      var o := Step(s, l, job, force, checksum);
      if o.result.Fail? then o else CopyAll(o.fs, o.result.value, rest, force, checksum)
  {
    assert jobs[0] == job && jobs[1..] == rest;
  }

  lemma MkdirAllUnfold(s: Snapshot, ds: seq<string>, d: string, rest: seq<string>)
    requires ds == [d] + rest
    ensures MkdirAll(s, ds) == var o := MkdirP(s, d); if o.result.Fail? then o else MkdirAll(o.fs, rest)
  {
    assert ds[0] == d && ds[1..] == rest;
  }

  /** The four `mkdirSync(..., { recursive: true })` calls. */
  method MakeDirs(fs: FileSystem, p: Layout) returns (r: Result<()>)
    modifies fs
    ensures Outcome(fs.State(), r) == MkdirAll(old(fs.State()), OwnedDirs(p))
  {
    MkdirAllUnfold(fs.State(), OwnedDirs(p), p.agentsDir, [p.commandsDir, p.kilntwoDir, p.templatesDir]);
    r := fs.MkdirRecursive(p.agentsDir);
    if r.Fail? { return; }
    MkdirAllUnfold(fs.State(), [p.commandsDir, p.kilntwoDir, p.templatesDir], p.commandsDir, [p.kilntwoDir, p.templatesDir]);
    r := fs.MkdirRecursive(p.commandsDir);
    if r.Fail? { return; }
    MkdirAllUnfold(fs.State(), [p.kilntwoDir, p.templatesDir], p.kilntwoDir, [p.templatesDir]);
    r := fs.MkdirRecursive(p.kilntwoDir);
    if r.Fail? { return; }
    MkdirAllUnfold(fs.State(), [p.templatesDir], p.templatesDir, []);
    r := fs.MkdirRecursive(p.templatesDir);
  }

  lemma JobsStep(jobs: seq<Job>, j: int, rest: seq<Job>)
    requires 0 <= j < |jobs|
    ensures jobs[j..] + rest == [jobs[j]] + (jobs[j + 1..] + rest)
  {
  }

  /** One step of the copy loop, given its outcome `o`. */
  lemma CopyStep(s: Snapshot, l: Lists, job: Job, tail: seq<Job>, force: bool, checksum: Content -> string, o: Outcome<Lists>)
    requires o == Step(s, l, job, force, checksum)
    ensures o.result.Fail? ==> CopyAll(s, l, [job] + tail, force, checksum) == o
    ensures o.result.Ok? ==> CopyAll(s, l, [job] + tail, force, checksum) == CopyAll(o.fs, o.result.value, tail, force, checksum)
  {
    CopyAllUnfold(s, l, [job] + tail, job, tail, force, checksum);
  }

  /** One step of the inner copy loop, at position `j` of the group's jobs `gj`. */
  lemma GroupStep(s: Snapshot, l: Lists, gj: seq<Job>, j: int, rest: seq<Job>, force: bool, checksum: Content -> string, o: Outcome<Lists>)
    requires 0 <= j < |gj| && o == Step(s, l, gj[j], force, checksum)
    ensures o.result.Fail? ==> CopyAll(s, l, gj[j..] + rest, force, checksum) == o
    ensures o.result.Ok? ==> CopyAll(s, l, gj[j..] + rest, force, checksum) == CopyAll(o.fs, o.result.value, gj[j + 1..] + rest, force, checksum)
  {
    JobsStep(gj, j, rest);
    CopyStep(s, l, gj[j], gj[j + 1..] + rest, force, checksum, o);
  }

  /** The inner copy loop over the sorted `.md` entries of one source directory; `rest`
      stands for the jobs that follow. */
  method CopyGroup(fs: FileSystem, l: Lists, group: Group, force: bool, checksum: Content -> string, ghost rest: seq<Job>)
    returns (r: Result<Lists>)
    modifies fs
    ensures r.Fail? ==> CopyAll(old(fs.State()), l, GroupJobs(group) + rest, force, checksum) == Outcome(fs.State(), r)
    ensures r.Ok? ==> (CopyAll(old(fs.State()), l, GroupJobs(group) + rest, force, checksum) ==
      CopyAll(fs.State(), r.value, rest, force, checksum))
  {
    ghost var s0 := fs.State();
    ghost var gj := GroupJobs(group);
    if group.dir.Unreadable? {
      assert gj + rest == rest;
      return Ok(l);
    }
    var filenames := SortNames(Markdown(group.dir.names));
    var lists := l;
    var j := 0;
    assert gj[0..] == gj;
    while j < |filenames|
      invariant 0 <= j <= |filenames| == |gj|
      invariant CopyAll(s0, l, gj + rest, force, checksum) == CopyAll(fs.State(), lists, gj[j..] + rest, force, checksum)
    {
      var job := JobFor(group, filenames[j]);
      assert gj[j] == job;
      ghost var before := fs.State();
      var step := ProcessJob(fs, lists, job, force, checksum);
      GroupStep(before, lists, gj, j, rest, force, checksum, Outcome(fs.State(), step));
      if step.Fail? {
        return step;
      }
      lists := step.value;
      j := j + 1;
    }
    assert gj[j..] + rest == rest;
    r := Ok(lists);
  }

  lemma AllGroupJobsSplit(groups: seq<Group>, g: nat, rest: seq<Job>)
    requires g < |groups|
    ensures AllGroupJobs(groups[g..]) + rest == GroupJobs(groups[g]) + (AllGroupJobs(groups[g + 1..]) + rest)
  {
    assert groups[g..][1..] == groups[g + 1..];
    ConcatAssoc(GroupJobs(groups[g]), AllGroupJobs(groups[g + 1..]), rest);
  }

  lemma ConcatAssoc(a: seq<Job>, b: seq<Job>, c: seq<Job>)
    ensures (a + b) + c == a + (b + c)
  {
  }

  /** The outer copy loop over the entries of `copyJobs`; `rest` stands for the jobs
      that follow. */
  method CopyGroupsLoop(fs: FileSystem, groups: seq<Group>, force: bool, checksum: Content -> string, ghost rest: seq<Job>)
    returns (r: Result<Lists>)
    modifies fs
    ensures r.Fail? ==> CopyAll(old(fs.State()), Lists([], []), AllGroupJobs(groups) + rest, force, checksum) == Outcome(fs.State(), r)
    ensures r.Ok? ==> (CopyAll(old(fs.State()), Lists([], []), AllGroupJobs(groups) + rest, force, checksum) ==
      CopyAll(fs.State(), r.value, rest, force, checksum))
  {
    ghost var s0 := fs.State();
    var lists := Lists([], []);
    var g := 0;
    assert groups[0..] == groups;
    while g < |groups|
      invariant 0 <= g <= |groups|
      invariant CopyAll(s0, Lists([], []), AllGroupJobs(groups) + rest, force, checksum) ==
        CopyAll(fs.State(), lists, AllGroupJobs(groups[g..]) + rest, force, checksum)
    {
      AllGroupJobsSplit(groups, g, rest);
      var step := CopyGroup(fs, lists, groups[g], force, checksum, AllGroupJobs(groups[g + 1..]) + rest);
      if step.Fail? {
        return step;
      }
      lists := step.value;
      g := g + 1;
    }
    assert AllGroupJobs(groups[g..]) + rest == rest;
    r := Ok(lists);
  }

  /** The copy loops over `copyJobs`, then the `names.json` block. */
  method CopySources(fs: FileSystem, a: Assets, p: Layout, force: bool, checksum: Content -> string)
    returns (r: Result<Lists>)
    modifies fs
    ensures Outcome(fs.State(), r) == CopyAll(old(fs.State()), Lists([], []), Jobs(a, p), force, checksum)
  {
    var namesJob := NamesJob(a, p);
    var lists := CopyGroupsLoop(fs, CopyGroups(a, p), force, checksum, [namesJob]);
    if lists.Fail? {
      return lists;
    }
    CopyAllUnfold(fs.State(), lists.value, [namesJob], namesJob, [], force, checksum);
    r := ProcessJob(fs, lists.value, namesJob, force, checksum);
  }

  /** The protocol block and the manifest. */
  method Record(fs: FileSystem, l: Lists, env: Env, p: Layout, projectPath: Option<string>)
    returns (r: Result<InstallResult>)
    modifies fs
    ensures Outcome(fs.State(), r) == Finish(old(fs.State()), l, env, p, projectPath)
  {
    if env.assets.protocol.None? {
      return Fail(Fatal(ENOENT, Join(env.assets.dir, "protocol.md")));
    }
    var doc := ProjectDoc(projectPath, env.cwd);
    var stamp := fs.Write(doc, env.insertProtocol(Lookup(fs.files, doc), env.assets.protocol.value, env.version));
    if stamp.Fail? {
      return Fail(stamp.error);
    }
    var entries := ManifestFiles(fs.State(), l.installed, p.claudeDir, env.checksum);
    if entries.Fail? {
      return Fail(entries.error);
    }
    var manifest := Manifest(ManifestVersion, env.version, entries.value, MarkerBegin, MarkerEnd);
    var written := fs.Write(p.manifestPath, env.codec.encode(manifest));
    if written.Fail? {
      return Fail(written.error);
    }
    r := Ok(InstallResult(l.installed, l.skipped, env.version));
  }

  /** `install`. */
  method Install(fs: FileSystem, env: Env, home: Option<string>, force: bool, projectPath: Option<string>)
    returns (r: Result<InstallResult>)
    modifies fs
    ensures Outcome(fs.State(), r) == InstallSpec(old(fs.State()), env, home, force, projectPath)
  {
    var p := ResolvePaths(home, env.defaultHome);
    var made := MakeDirs(fs, p);
    if made.Fail? {
      return Fail(made.error);
    }
    var prior := ReadManifest(fs.State(), p.manifestPath, env.codec);
    if prior.Fail? {
      return Fail(prior.error);
    }
    var copied := CopySources(fs, env.assets, p, force, env.checksum);
    if copied.Fail? {
      return Fail(copied.error);
    }
    r := Record(fs, copied.value, env, p, projectPath);
  }
}
