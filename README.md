# kilntwo lifecycle engine and command line, in Dafny

kilntwo installs a set of agent, command and template files into a user's `~/.claude`
directory. It records what it installed in a manifest (`kilntwo/manifest.json`, holding a
relative path and a checksum per file). It also stamps a protocol block into the
project's `CLAUDE.md`. The operations are:

- `install`: copies the shipped assets, skipping files the user has edited unless forced.
- `uninstall`: walks the manifest and removes what it lists.
- `update`: reinstalls when the recorded version differs from the running one.

The `kilntwo` command line parses its arguments, runs one of these operations (or
`doctor`), prints the result and picks the exit code.

The model has these layers:

- **`Fs`** (`fs_model.dfy`): the filesystem as a value — a map of files and a set of
  directories. It has the Node primitives the engine uses: `mkdirSync({recursive})`,
  `writeFileSync`, `readFileSync`, `unlinkSync` and `rmdirSync`. Each returns the new
  state together with a result that either succeeds or fails with an error code. A class
  `FileSystem` wraps that value: its methods change it in place and are proved equal to
  the functions.
- **`Paths`** (`paths.dfy`): `resolvePaths`, `encodeProjectPath`, `projectMemoryDir` and
  `projectClaudeMd`.
- **`Collaborators`** (`collaborators.dfy`): what the engine uses but this project does
  not model. The manifest record travels through an encode/decode pair. `readManifest`,
  the checksum and the two protocol-marker operations are parameters of an `Env`.
- **`Install`, `Uninstall`, `Update`**: each operation has a pure specification function
  (`InstallSpec`, `UninstallSpec`, `UpdateSpec`). Each also has an imperative method on a
  `FileSystem`, with the loops of the source, proved to end in exactly the state and
  result the function gives.
  - A fatal error stops an operation where the source's exception would stop it, and it
    keeps the changes already made. The one exception is unlinking or removing a path
    that lies below a regular file, listed under "Left out".
  - The properties are lemmas about the specification functions, in `install_proofs.dfy`,
    `install_laws.dfy`, `uninstall_laws.dfy` and `update_laws.dfy`.
- **`Cli`** (`cli.dfy`, laws in `cli_laws.dfy`):
  - `parseArgs` is a loop method proved against a recursive reading of the argument list.
  - `printResult`'s counters are loops proved against a tally function.
  - The JSON branch's exit code is a function.
  - `RunCli` is `main` over the filesystem: it dispatches to the three lifecycle
    specifications.

The model follows the code where the code and the repository's tests disagree:

- `src/paths.js:12` builds the commands directory as `commands/kw`. `test/paths.test.js`
  expects `commands/kiln`. `Paths.CommandsDirIsKw` states the value the code builds.
- `install` also records `names.json` among the installed files (`src/install.js:75-90`).
  The end-to-end test counts only the `.md` assets. `UpdateLaws.UpdateInstallsEverything`
  and `InstallLaws.InstallNothingSkipped` include `names.json`, because `Jobs` ends with
  it.

Some consequences of the code that the lemmas make explicit:

- `uninstall` removes the `kilntwo` directory only if the manifest lists the manifest
  itself. The directory is pruned before the manifest file is deleted, so normally it is
  not empty yet (`UninstallLaws.UninstallKeepsKilntwo`).
- `uninstall` and `update` report "not installed" through an `error` string, so the
  command line exits 1 for them (`CliLaws.UninstallExit`, `CliLaws.UpdateExit`).
- For install and update, `printResult` reads `entry.status` without a guard on `files`
  and `updates` entries. A null entry makes it throw, and `main` exits 1. The JSON branch
  skips such entries (`CliLaws.JsonDiffersOnNull`). For every result without null
  entries the two exit codes agree (`CliLaws.JsonAgrees`). The engine never returns
  entries at all.

## Model

| member | source | states |
|---|---|---|
| Paths.Home | src/paths.js:5 | an absent or empty override falls back to the default home; a non-empty one is used as given |
| Paths.ResolvePaths | src/paths.js:4-17 | each owned path is its parent joined with the fixed component; all lie inside `claudeDir`; templates and manifest lie inside `kilntwoDir` |
| Paths.SplitThenJoin | src/paths.js:20 | splitting on one character and joining with another substitutes the one for the other, position by position |
| Paths.EncodeProjectPath | src/paths.js:19-21 | the result has the input's length, every `/` replaced by `-`, every other character kept, and no `/` left |
| Paths.ProjectMemoryDir | src/paths.js:23-32 | the memory directory is `claudeDir/projects/<encoded path>/memory` for the same override, so it lies inside `claudeDir` |
| Paths.ProjectClaudeMd | src/paths.js:34-36 | the document lies inside the project root and is named `CLAUDE.md` |
| Paths.CommandsDirIsKw | src/paths.js:12 | for home `/tmp/testhome` the commands directory is `.../commands/kw`, not `.../commands/kiln` |
| Paths.EncodeExample | src/paths.js:19-21 | `/DEV/foo` encodes to `-DEV-foo` |
| Fs.FileSystem.MkdirRecursive | src/install.js:22-25 | the in-place state becomes that of `mkdir -p`: every missing ancestor is created; EEXIST/ENOTDIR when a file is in the way |
| Fs.FileSystem.UnlinkFile | src/uninstall.js:25 | the in-place state and result are those of `unlinkSync`: ENOENT when absent, EISDIR on a directory |
| Fs.FileSystem.RemoveDir | src/uninstall.js:40 | the in-place state and result are those of `rmdirSync`: ENOENT, ENOTDIR, ENOTEMPTY |
| Install.SortNames | src/install.js:42 | the `.md` listing sorted by character codes: ordered, a permutation of the input, distinct when the input is |
| Install.GroupJobsSpec | src/install.js:39-49 | an unreadable source directory copies nothing; otherwise one job per `.md` entry, sorted, from `srcDir/name` to `destDir/name` |
| Install.Install | src/install.js:19-115 | the method's final filesystem and result are exactly `InstallSpec` of the initial filesystem |
| InstallProofs.JobsDistinct | src/install.js:33-37 | all destinations (three copy groups plus `names.json`) are distinct, lie inside `claudeDir`, and none is the manifest |
| InstallProofs.CopyAllByDecisions | src/install.js:39-90 | for distinct destinations that each lie below directories only, the copy loop equals taking every copy/keep/skip decision on the state after `mkdir`, then applying them |
| InstallProofs.JobsDirsAbove | src/install.js:22-49 | once the owned directories exist, every destination lies below directories only (entry names hold no separator) |
| InstallLaws.InstallNormalForm | src/install.js:19-115 | a successful install is: directories made, decisions taken, copies applied, document stamped, manifest of the installed files written; the document and the manifest lie below directories only |
| InstallLaws.InstallDecisionTable | src/install.js:51-71 | with `force` or a missing destination the shipped content is written and the path counted installed; otherwise the file stays, installed iff its checksum equals the source's, skipped iff not |
| InstallLaws.InstallPartition | src/install.js:30-31 | installed and skipped partition the destinations: no path in both, none outside, counts add up |
| InstallLaws.InstallFrame | src/install.js:19-115 | directories only grow and only by ancestors of the owned ones; any path that is not a destination, the document or the manifest is untouched; a valid filesystem stays valid |
| InstallLaws.InstallNothingSkipped | src/install.js:51-60 | with `force`, or when no destination exists, every destination is installed, in order, and nothing is skipped |
| InstallLaws.InstallManifest | src/install.js:98-112 | the manifest reads back with version 1, the running version, the two markers, and one entry per installed path (relative path, checksum of what is on disk) |
| InstallLaws.InstallStampsDoc | src/install.js:92-96 | the project document holds the protocol inserted into what it held before |
| InstallLaws.InstallIdempotent | src/install.js:19-115 | a second install without force on the result of the first changes nothing and returns the same result |
| UpdateLaws.InstalledOnce | src/install.js:30 | no path is reported installed twice |
| UpdateLaws.InstallRecordsInstalled | src/install.js:98-114 | the paths the manifest lists, joined to `claudeDir`, are exactly the installed list, and each is a file |
| Uninstall.UnlinkLoop | src/uninstall.js:22-34 | the loop's final filesystem and tally are those of `UnlinkAll` over the listed paths |
| Uninstall.StripDoc | src/uninstall.js:36 | the document gets the marker removal's result; it fails iff the document is a directory, or new content must be written and some proper ancestor of the document is not a directory; the code is EISDIR exactly in the first case; a failure changes nothing; other paths are untouched |
| Uninstall.PruneLoop | src/uninstall.js:38-52 | the loop's final state is that of `PruneAll`; ENOENT, ENOTEMPTY and EEXIST are tolerated |
| Uninstall.Uninstall | src/uninstall.js:10-63 | the method's final filesystem and result are exactly `UninstallSpec` of the initial one |
| UninstallLaws.UnlinkAllShape | src/uninstall.js:22-34 | the walk fails exactly when a listed path is a directory (EISDIR); otherwise every listed path is gone; unlisted paths and all directories are untouched |
| UninstallLaws.UnlinkAllTally | src/uninstall.js:24-31 | removed and not-found together are the listed paths as a multiset; a path is removed iff it was a file |
| UninstallLaws.UnlinkAllOrder | src/uninstall.js:22-34 | with distinct paths, removed and not-found are the present and the absent paths in manifest order |
| UninstallLaws.PruneAllLaw | src/uninstall.js:38-52 | files untouched; a directory disappears only if it is one of the three and empty; one with a file under it survives; fails iff one of the three is a file |
| UninstallLaws.UninstallNotInstalled | src/uninstall.js:14-17 | the result is not-installed iff nothing is at the manifest path, and then nothing changes; when the manifest cannot be read nothing changes |
| UninstallLaws.UninstallPartition | src/uninstall.js:19-34 | every listed path lands in exactly one of removed and not-found, counts add up, and removed holds exactly the listed paths that were files |
| UninstallLaws.UninstallOrder | src/uninstall.js:22-34 | with distinct listed paths the two lists keep manifest order |
| UninstallLaws.UninstallFrame | src/uninstall.js:10-63 | validity kept; directories only shrink, and only empty owned ones go; unlisted paths other than the document and the manifest are untouched; no manifest means no change |
| UninstallLaws.UninstallRemoves | src/uninstall.js:22-60 | listed paths other than the document no longer exist, neither as files nor as directories; the manifest is gone; the document holds the marker removal of its old content |
| UninstallLaws.UninstallKeepsKilntwo | src/uninstall.js:38-60 | unless the manifest lists itself, the `kilntwo` directory is there afterwards iff it was before |
| UpdateLaws.UninstallAfterInstall | src/uninstall.js:10-63 | uninstalling right after an install removes exactly the installed list and finds nothing missing |
| Update.Update | src/update.js:9-32 | the method's final filesystem and result are exactly `UpdateSpec` of the initial one |
| UpdateLaws.UpdateWithoutManifest | src/update.js:10-14 | not-installed iff there is no manifest, and then nothing changes |
| UpdateLaws.UpdateUpToDate | src/update.js:16-20 | up-to-date iff the recorded version equals the running one and `force` is off, and then nothing changes |
| UpdateLaws.UpdateIgnoresForce | src/update.js:18 | when the versions differ `force` makes no difference |
| UpdateLaws.UpdateComposes | src/update.js:22-31 | an update is the uninstall followed by a forced install, reporting the old and new versions, what was installed and what was removed |
| UpdateLaws.UpdateInstallsEverything | src/update.js:23 | the forced install of an update installs every destination, `names.json` included, in order |
| UpdateLaws.UpdateIdempotent | src/update.js:9-32 | after an update, a second update without force reports up-to-date and changes nothing |
| Cli.ParseArgs | bin/kilntwo.js:31-68 | the loop's result is `Parse` of the argument list |
| CliLaws.Tokens | bin/kilntwo.js:54-61 | `--home` consumes the next token, so no word starts with `--` |
| CliLaws.InterpretByTokens | bin/kilntwo.js:35-65 | from any point, each switch flag ends set iff it was set or its switch occurs; the command stays the first word; the home is the last `--home` value |
| CliLaws.ParseByTokens | bin/kilntwo.js:31-68 | a flag is set iff its switch is among the tokens; the command is the first word; the home is the value of the last `--home` (undefined when it is last) |
| CliLaws.HomeTakesNext | bin/kilntwo.js:54-58 | the token after `--home` becomes the home verbatim and sets no other flag and no command |
| CliLaws.SwitchTwice | bin/kilntwo.js:38-53 | repeating a switch changes nothing |
| Cli.NormalizeStatus | bin/kilntwo.js:73-78 | `pass`/`ok` map to `ok`, `fail`/`error` to `error`, `warn` to `warn`, each iff; anything else is returned unchanged |
| CliLaws.NormalizeIdempotent | bin/kilntwo.js:73-78 | normalising twice is normalising once |
| Cli.CountEntries | bin/kilntwo.js:97-110 | the counting loop's result is `TallyOf` of the entries |
| CliLaws.TallyThrows | bin/kilntwo.js:97-110 | the install/update loops throw iff some entry is null; the doctor loop never throws |
| CliLaws.TallyCounts | bin/kilntwo.js:187-201 | errors counted iff some status normalises to `error`; for doctor, warnings iff some normalises to `warn`; no entry counted twice |
| Cli.PrintResult | bin/kilntwo.js:80-208 | the method's summary and exit code are `PrintSpec` of the command, the result and the strict flag |
| CliLaws.PrintInstall | bin/kilntwo.js:86-125 | install exits 1 iff some file entry's status normalises to `error`; it throws iff there are entries and one is null |
| CliLaws.PrintUpdate | bin/kilntwo.js:142-179 | the same for update over its `updates` entries; without entries it exits 0 |
| CliLaws.PrintDoctor | bin/kilntwo.js:181-205 | doctor exits 1 iff some check failed, or (strict) some check warned |
| CliLaws.PrintOthers | bin/kilntwo.js:81-84 | a non-empty error string exits 1; uninstall exits 0 and reports the removed count; an unknown command exits 1 |
| CliLaws.JsonAgrees | bin/kilntwo.js:288-311 | for the four commands and no null entries, the JSON branch's exit code equals `printResult`'s |
| CliLaws.JsonDiffersOnNull | bin/kilntwo.js:97-100 | one null file entry: text mode throws and exits 1, JSON mode exits 0 |
| CliLaws.ExitIgnoresJson | bin/kilntwo.js:288-317 | after a command ran, `--json` does not change the exit code, unless `printResult` would throw on a null entry |
| CliLaws.VersionWins | bin/kilntwo.js:213-218 | a `--version` token exits 0 without touching the filesystem, whatever else is given |
| CliLaws.DispatchWithoutCommand | bin/kilntwo.js:220-230 | `help` exits 0, no command exits 1, an unknown command exits 1 (282-285); none touches the filesystem |
| CliLaws.InstallExit | bin/kilntwo.js:238-248 | `kilntwo install` runs the install on `--home`/`--force` and exits 0 iff it succeeded, in either output mode |
| CliLaws.UninstallExit | bin/kilntwo.js:249-259 | `kilntwo uninstall` exits 0 iff there was an installation and it was removed |
| CliLaws.UpdateExit | bin/kilntwo.js:260-270 | `kilntwo update` exits 0 iff there was an installation and it was updated or found up to date |
| CliLaws.DoctorExit | bin/kilntwo.js:271-281 | `kilntwo doctor` exits 1 iff doctor threw, reported an error, a check failed, or (strict) a check warned; the filesystem is untouched |

## Left out

- `src/manifest.js` and `src/markers.js` are not part of this model. Several things stand
  in for them:
  - `readManifest` is a function: a directory at the path is fatal, nothing at it means
    not installed, and content that does not decode is fatal.
  - The manifest format is an encode/decode pair. Lemmas that read back a written
    manifest require that they round-trip.
  - `computeChecksum` is an uninterpreted function of content, so two contents with the
    same SHA-256 count as equal.
  - `insertProtocol`/`removeProtocol` are uninterpreted updates of the document's
    content.
- Fs.WriteFile: a write fails with ENOTDIR when some directory above the path is a regular file, with ENOENT when one is missing, and with EISDIR when the path is a directory. Node checks only the parent. The model checks every proper ancestor, which is the same on a filesystem where each entry's parent exists.
- Fs.Unlink, Fs.Rmdir: a path below a regular file does not exist in the model, so both report ENOENT where Node reports ENOTDIR. For such a path the manifest walk counts it as not found and the prune loop passes over it. The source would throw there instead.
- Collaborators.WellFormed: asset listings are taken to hold plain entry names without `/`, as `readdirSync` returns them.
- `install` calls `readManifest(home)` and `uninstall` calls `readManifest({ manifestPath })`. Both are modelled as reading the layout's manifest path.
- The prior manifest `install` reads is used only for its failure (a corrupt or unreadable manifest aborts). Its contents are ignored, as in the code.
- InstallLaws.InstallIdempotent: requires that `insertProtocol` on a document it already stamped with the same protocol and version changes nothing. `src/markers.js` is not part of this model, so this is an assumption.
- InstallLaws.InstallIdempotent, InstallLaws.CopyAfterInstall, InstallLaws.InstallStampsDoc, InstallLaws.InstallDecisionTable, InstallLaws.InstallFilesAt: require that the project document is not one of the install destinations. The code does not rule this out; it happens only when the project root is one of the owned asset directories.
- `path.join` normalisation is not modelled (`..`, duplicate separators, trailing separators, the platform separator). Paths are joined with `/`, and the relative path in the manifest is the suffix after `claudeDir/`.
- `os.homedir()` and `process.cwd()` are inputs (`Env.defaultHome`, `Env.cwd`). The package version is `Env.version`. The asset tree is `Env.assets`, as listed once before the install.
- `Array.prototype.sort` compares UTF-16 code units. The model compares `char` values, which orders differently only for characters outside the Basic Multilingual Plane.
- The manifest's `installedAt` timestamp and the JSON text format are not modelled.
- `src/doctor.js` and `src/index.js` are not part of this model. `kilntwo doctor`'s result is an input of `RunCli`.
- Cli: console output, colours, `HELP_TEXT`, the `JSON.stringify` of the result, and the probing of the command modules are not modelled. The `main().catch` fallback is also left out. An exception from a command module is modelled as exit code 1.
- Cli.Report: a result object is read through the fields the front end uses. A field that is not an array reads as empty, an `error` that is not a string reads as absent, and entries are either nullish or carry an optional string status. Entry paths, names and messages are only printed, so they are not modelled.
- The operations are synchronous in the model. `async`/`await` and concurrent access to the filesystem are left out.
