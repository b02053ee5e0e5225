/** An abstract POSIX-like filesystem: regular files with text content and a set of
    directories, both keyed by '/'-joined path strings, together with the handful of
    Node `fs` calls the lifecycle engine makes. Each call is a pure function of the
    current snapshot returning the next snapshot and its outcome; the class
    FileSystem holds the snapshot as mutable fields and offers the same calls as
    methods proved to agree with those functions. */
module Fs {

  datatype Option<T> = None | Some(value: T)

  /** The content of a regular file. */
  type Content = seq<char>

  /** The error codes the core either tolerates or propagates. CORRUPT stands for the
      parse failure of a manifest file. */
  datatype ErrorCode = ENOENT | EISDIR | ENOTDIR | EEXIST | ENOTEMPTY | CORRUPT

  /** A failed call: its error code and the path it was about. */
  datatype Fatal = Fatal(code: ErrorCode, path: string)

  datatype Result<T> = Ok(value: T) | Fail(error: Fatal)

  /** A snapshot of the filesystem. */
  datatype Snapshot = Snapshot(files: map<string, Content>, dirs: set<string>) {
    /** A path is never both a regular file and a directory. */
    predicate Valid() { files.Keys !! dirs }

    /** `fs.existsSync`. */
    predicate Exists(p: string) { p in files || p in dirs }
  }

  /** The snapshot after a call, and what the call returned or threw. */
  datatype Outcome<R> = Outcome(fs: Snapshot, result: Result<R>)

  /** `path.join(a, b)` for already-normalised components. */
  function Join(a: string, b: string): string { a + "/" + b }

  predicate IsPrefix(pre: string, s: string) { |pre| <= |s| && s[..|pre|] == pre }

  /** `p` lies strictly inside directory `d`. */
  predicate Under(d: string, p: string) { IsPrefix(d + "/", p) }

  /** The directories `mkdir -p d` ensures: `d` and every proper ancestor that ends
      before a separator (the empty root prefix excluded). */
  function DirChain(d: string): (c: set<string>)
    ensures |d| > 0 ==> d in c
    ensures forall q :: q in c ==> IsPrefix(q, d)
  {
    assert |d| > 0 ==> d[..|d|] == d;
    set k | 0 < k <= |d| && (k == |d| || d[k] == '/') :: d[..k]
  }

  /** Nothing, neither file nor directory, lies inside `d`. */
  predicate EmptyDir(s: Snapshot, d: string) {
    (forall f :: f in s.files ==> !Under(d, f)) && (forall e :: e in s.dirs ==> !Under(d, e))
  }

  /** `fs.mkdirSync(d, { recursive: true })`: creates `d` and its missing ancestors;
      fails when one of them is a regular file. */
  function MkdirP(s: Snapshot, d: string): (o: Outcome<()>)
    ensures o.result.Ok? <==> DirChain(d) !! s.files.Keys
    ensures o.result.Ok? ==> o.fs == s.(dirs := s.dirs + DirChain(d))
    ensures o.result.Ok? ==> forall q :: q in o.fs.dirs ==> q in s.dirs || IsPrefix(q, d)
    ensures o.result.Fail? ==> o.fs == s && (o.result.error.code == EEXIST <==> d in s.files)
  {
    if DirChain(d) !! s.files.Keys then Outcome(s.(dirs := s.dirs + DirChain(d)), Ok(()))
    else Outcome(s, Fail(Fatal(if d in s.files then EEXIST else ENOTDIR, d)))
  }

  /** The proper ancestors of `p`: every prefix that ends before a separator (the empty
      root prefix excluded). */
  function Ancestors(p: string): set<string>
  {
    set k | 0 < k < |p| && p[k] == '/' :: p[..k]
  }

  /** Why `p` cannot be opened for writing, if it cannot: ENOTDIR when a proper ancestor
      is a regular file, ENOENT when one is missing, EISDIR when `p` is a directory. The
      model asks every proper ancestor to be a directory; on a filesystem where each
      entry's parent exists, that is what Node asks of the parent. */
  function WriteError(s: Snapshot, p: string): (e: Option<Fatal>)
    ensures e.None? <==> Ancestors(p) <= s.dirs && p !in s.dirs
    ensures e.Some? ==> e.value.path == p
    ensures e.Some? ==> (e.value.code == EISDIR <==> Ancestors(p) <= s.dirs)
    ensures e.Some? ==> (e.value.code == ENOTDIR <==> !(Ancestors(p) <= s.dirs) && !(Ancestors(p) !! s.files.Keys))
  {
    if !(Ancestors(p) <= s.dirs) then Some(Fatal(if Ancestors(p) !! s.files.Keys then ENOENT else ENOTDIR, p))
    else if p in s.dirs then Some(Fatal(EISDIR, p))
    else None
  }

  /** `fs.writeFileSync` / the destination side of `fs.copyFileSync`. */
  function WriteFile(s: Snapshot, p: string, c: Content): (o: Outcome<()>)
    ensures o.result.Ok? <==> Ancestors(p) <= s.dirs && p !in s.dirs
    ensures o.result.Ok? ==> o.fs.files == s.files[p := c] && o.fs.dirs == s.dirs
    ensures o.result.Fail? ==> o.fs == s && Some(o.result.error) == WriteError(s, p)
  {
    match WriteError(s, p)
    case Some(e) => Outcome(s, Fail(e))
    case None => Outcome(s.(files := s.files[p := c]), Ok(()))
  }

  /** `fs.readFileSync`. */
  function ReadFile(s: Snapshot, p: string): (r: Result<Content>)
    ensures r.Ok? <==> p in s.files && p !in s.dirs
    ensures r.Ok? ==> r.value == s.files[p]
  {
    if p in s.dirs then Fail(Fatal(EISDIR, p))
    else if p in s.files then Ok(s.files[p])
    else Fail(Fatal(ENOENT, p))
  }

  /** `fs.unlinkSync`: removes a regular file; ENOENT when nothing is there, EISDIR on
      a directory. */
  function Unlink(s: Snapshot, p: string): (o: Outcome<()>)
    ensures o.result.Ok? <==> p in s.files && p !in s.dirs
    ensures o.result.Ok? ==> o.fs == s.(files := s.files - {p})
    ensures o.result.Fail? ==> o.fs == s
    ensures o.result.Fail? ==> (o.result.error.code == ENOENT <==> !s.Exists(p))
  {
    if p in s.dirs then Outcome(s, Fail(Fatal(EISDIR, p)))
    else if p in s.files then Outcome(s.(files := s.files - {p}), Ok(()))
    else Outcome(s, Fail(Fatal(ENOENT, p)))
  }

  /** `fs.rmdirSync`: removes an empty directory only. */
  function Rmdir(s: Snapshot, d: string): (o: Outcome<()>)
    ensures o.result.Ok? <==> d in s.dirs && d !in s.files && EmptyDir(s, d)
    ensures o.result.Ok? ==> o.fs == s.(dirs := s.dirs - {d})
    ensures o.result.Fail? ==> o.fs == s
    ensures o.result.Fail? && o.result.error.code == ENOTEMPTY ==> !EmptyDir(s, d)
  {
    if d in s.files then Outcome(s, Fail(Fatal(ENOTDIR, d)))
    else if d !in s.dirs then Outcome(s, Fail(Fatal(ENOENT, d)))
    else if EmptyDir(s, d) then Outcome(s.(dirs := s.dirs - {d}), Ok(()))
    else Outcome(s, Fail(Fatal(ENOTEMPTY, d)))
  }

  /** The live filesystem. */
  class FileSystem {
    var files: map<string, Content>
    var dirs: set<string>

    function State(): Snapshot
      reads this
    {
      Snapshot(files, dirs)
    }

    constructor (s: Snapshot)
      ensures State() == s
    {
      files := s.files;
      dirs := s.dirs;
    }

    method MkdirRecursive(d: string) returns (r: Result<()>)
      modifies this
      ensures Outcome(State(), r) == MkdirP(old(State()), d)
    {
      var o := MkdirP(State(), d);
      files, dirs, r := o.fs.files, o.fs.dirs, o.result;
    }

    method Write(p: string, c: Content) returns (r: Result<()>)
      modifies this
      ensures Outcome(State(), r) == WriteFile(old(State()), p, c)
    {
      var e := WriteError(State(), p);
      if e.Some? {
        r := Fail(e.value);
      } else {
        files := files[p := c];
        r := Ok(());
      }
    }

    method UnlinkFile(p: string) returns (r: Result<()>)
      modifies this
      ensures Outcome(State(), r) == Unlink(old(State()), p)
    {
      if p in dirs {
        r := Fail(Fatal(EISDIR, p));
      } else if p in files {
        files := files - {p};
        r := Ok(());
      } else {
        r := Fail(Fatal(ENOENT, p));
      }
    }

    method RemoveDir(d: string) returns (r: Result<()>)
      modifies this
      ensures Outcome(State(), r) == Rmdir(old(State()), d)
    {
      var o := Rmdir(State(), d);
      dirs, r := o.fs.dirs, o.result;
    }
  }
}
