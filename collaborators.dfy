/** What the lifecycle engine consumes but does not define: the manifest record and its
    on-disk codec, the content fingerprint, the protocol-block editor of the project
    document, the shipped asset tree, and the ambient values of the process. Each
    foreign function becomes a function-valued field of Env, so nothing is assumed
    about it beyond being a (deterministic) function. */
module Collaborators {
  import opened Fs

  /** One owned file: its path relative to `claudeDir` and its fingerprint. */
  datatype FileEntry = FileEntry(path: string, checksum: string)

  /** The persisted manifest (its `installedAt` timestamp is not modelled). */
  datatype Manifest = Manifest(
    manifestVersion: int,
    kilnVersion: string,
    files: seq<FileEntry>,
    markerBegin: string,
    markerEnd: string)

  /** Serialisation of a manifest into a file and back. */
  datatype Codec = Codec(encode: Manifest -> Content, decode: Content -> Option<Manifest>)

  /** A manifest written by the codec reads back as itself. */
  ghost predicate RoundTrips(c: Codec) {
    forall m :: c.decode(c.encode(m)) == Some(m)
  }

  /** `readManifest`: absent means not installed (None); a directory in its place or
      content that does not parse is fatal. */
  function ReadManifest(s: Snapshot, path: string, codec: Codec): (r: Result<Option<Manifest>>)
    ensures r == Ok(None) <==> !s.Exists(path)
    ensures r.Ok? && r.value.Some? ==> path in s.files && codec.decode(s.files[path]) == r.value
  {
    if path in s.dirs then Fail(Fatal(EISDIR, path))
    else if path !in s.files then Ok(None)
    else match codec.decode(s.files[path])
      case None => Fail(Fatal(CORRUPT, path))
      case Some(m) => Ok(Some(m))
  }

  /** One shipped asset directory as `readdirSync` sees it: either it cannot be read, or
      it lists entry names in directory order, and `content` holds the bytes of each
      regular file (an entry without content, a dangling link say, cannot be copied). */
  datatype SourceDir = Unreadable | Listing(names: seq<string>, content: map<string, Content>)

  /** The shipped asset tree under `dir`. */
  datatype Assets = Assets(
    dir: string,
    agents: SourceDir,
    commands: SourceDir,
    templates: SourceDir,
    names: Option<Content>,
    protocol: Option<Content>)

  /** A directory listing never repeats a name. */
  predicate DistinctNames(d: SourceDir) {
    d.Listing? ==> forall i, j :: 0 <= i < j < |d.names| ==> d.names[i] != d.names[j]
  }

  /** A directory entry name never contains the separator. */
  predicate PlainNames(d: SourceDir) {
    d.Listing? ==> forall i :: 0 <= i < |d.names| ==> '/' !in d.names[i]
  }

  predicate WellFormed(a: Assets) {
    DistinctNames(a.agents) && DistinctNames(a.commands) && DistinctNames(a.templates) &&
    PlainNames(a.agents) && PlainNames(a.commands) && PlainNames(a.templates)
  }

  /** The process environment and the foreign functions.
      - defaultHome: `os.homedir()`; cwd: `process.cwd()`; version: the package version;
      - checksum: `computeChecksum` of a file's content;
      - insertProtocol: the new content of the project document from its old content
        (absent or present), the protocol text and the version;
      - removeProtocol: the new content of the project document from its old content,
        absent when the document is to be deleted. */
  datatype Env = Env(
    defaultHome: string,
    cwd: string,
    version: string,
    assets: Assets,
    checksum: Content -> string,
    codec: Codec,
    insertProtocol: (Option<Content>, Content, string) -> Content,
    removeProtocol: Option<Content> -> Option<Content>)

  /** Stamping an already stamped document changes nothing more: the property of
      `insertProtocol` that replaces the block between its markers in place. */
  ghost predicate StampIdempotent(env: Env) {
    env.assets.protocol.Some? ==>
      forall c: Option<Content> ::
        env.insertProtocol(Some(env.insertProtocol(c, env.assets.protocol.value, env.version)), env.assets.protocol.value, env.version)
        == env.insertProtocol(c, env.assets.protocol.value, env.version)
  }

  function Lookup(m: map<string, Content>, k: string): Option<Content>
  {
    if k in m then Some(m[k]) else None
  }
}
