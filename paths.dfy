/** The install layout under the home directory and the project-path helpers. */
module Paths {
  import opened Fs

  /** The directories and the manifest file the lifecycle engine owns. */
  datatype Layout = Layout(
    claudeDir: string,
    agentsDir: string,
    commandsDir: string,
    kilntwoDir: string,
    templatesDir: string,
    manifestPath: string)

  /** `homeOverride || os.homedir()`: an absent or empty override falls back to the
      default home directory, which the caller supplies. */
  function Home(homeOverride: Option<string>, defaultHome: string): (h: string)
    ensures homeOverride.Some? && homeOverride.value != "" ==> h == homeOverride.value
    ensures homeOverride == None || homeOverride == Some("") ==> h == defaultHome
  {
    if homeOverride.Some? && homeOverride.value != "" then homeOverride.value else defaultHome
  }

  /** `resolvePaths`. Every path it returns lies inside `claudeDir`, the templates
      directory and the manifest lie inside `kilntwoDir`, and each ends in the
      component the layout fixes. */
  function ResolvePaths(homeOverride: Option<string>, defaultHome: string): (p: Layout)
    ensures p.claudeDir == Join(Home(homeOverride, defaultHome), ".claude")
    ensures p.agentsDir == Join(p.claudeDir, "agents")
    ensures p.commandsDir == Join(Join(p.claudeDir, "commands"), "kw")
    ensures p.kilntwoDir == Join(p.claudeDir, "kilntwo")
    ensures p.templatesDir == Join(p.kilntwoDir, "templates")
    ensures p.manifestPath == Join(p.kilntwoDir, "manifest.json")
    ensures Under(p.claudeDir, p.agentsDir) && Under(p.claudeDir, p.commandsDir)
    ensures Under(p.claudeDir, p.kilntwoDir) && Under(p.claudeDir, p.templatesDir)
    ensures Under(p.claudeDir, p.manifestPath)
    ensures Under(p.kilntwoDir, p.templatesDir) && Under(p.kilntwoDir, p.manifestPath)
  {
    var claudeDir := Join(Home(homeOverride, defaultHome), ".claude");
    var kilntwoDir := Join(claudeDir, "kilntwo");
    Layout(
      claudeDir,
      Join(claudeDir, "agents"),
      Join(Join(claudeDir, "commands"), "kw"),
      kilntwoDir,
      Join(kilntwoDir, "templates"),
      Join(kilntwoDir, "manifest.json"))
  }

  /** `String.prototype.split` with a one-character separator: the pieces between
      separators, including empty ones at either end. */
  function Split(s: string, sep: char): (parts: seq<string>)
    ensures |parts| >= 1
    ensures forall i :: 0 <= i < |parts| ==> sep !in parts[i]
  {
    if s == [] then [""]
    else
      var rest := Split(s[1..], sep);
      if s[0] == sep then [""] + rest
      else [[s[0]] + rest[0]] + rest[1..]
  }

  /** `Array.prototype.join` with a one-character glue. */
  function JoinWith(parts: seq<string>, glue: char): string
  {
    if parts == [] then ""
    else if |parts| == 1 then parts[0]
    else parts[0] + [glue] + JoinWith(parts[1..], glue)
  }

  /** The character-wise substitution of `to` for every `from`. */
  predicate Substitutes(s: string, r: string, from: char, to: char) {
    |r| == |s| && forall i :: 0 <= i < |s| ==> r[i] == if s[i] == from then to else s[i]
  }

  /** Splitting on a character and joining with another replaces the one by the other,
      character by character. */
  lemma {:induction false} SplitThenJoin(s: string, from: char, to: char)
    ensures Substitutes(s, JoinWith(Split(s, from), to), from, to)
  {
    if s != [] {
      var rest := Split(s[1..], from);
      SplitThenJoin(s[1..], from, to);
      var jr := JoinWith(rest, to);
      if s[0] == from {
        assert JoinWith(Split(s, from), to) == [to] + jr by {
          assert Split(s, from) == [""] + rest;
        }
      } else {
        assert JoinWith(Split(s, from), to) == [s[0]] + jr by {
          var parts := Split(s, from);
          assert parts == [[s[0]] + rest[0]] + rest[1..];
          if |rest| == 1 {
            assert jr == rest[0];
          } else {
            assert parts[1..] == rest[1..];
            assert jr == rest[0] + [to] + JoinWith(rest[1..], to);
          }
        }
      }
    }
  }

  /** `encodeProjectPath`: the path with every separator replaced by '-', so the result
      has the same length, the same other characters, and no separator at all. */
  function EncodeProjectPath(absolutePath: string): (r: string)
    ensures Substitutes(absolutePath, r, '/', '-')
    ensures '/' !in r
  {
    SplitThenJoin(absolutePath, '/', '-');
    JoinWith(Split(absolutePath, '/'), '-')
  }

  /** `projectMemoryDir`: the per-project memory directory sits in `projects` under the
      same `claudeDir` that `resolvePaths` gives for the same override, in a single
      directory named by the encoded project path. */
  function ProjectMemoryDir(homeOverride: Option<string>, projectPath: string, defaultHome: string): (r: string)
    ensures r == ResolvePaths(homeOverride, defaultHome).claudeDir + "/projects/" + EncodeProjectPath(projectPath) + "/memory"
    ensures Under(ResolvePaths(homeOverride, defaultHome).claudeDir, r)
  {
    var home := Home(homeOverride, defaultHome);
    Join(Join(Join(Join(home, ".claude"), "projects"), EncodeProjectPath(projectPath)), "memory")
  }

  /** `projectClaudeMd`: the document inside the project root that carries the
      protocol block. */
  function ProjectClaudeMd(projectPath: string): (r: string)
    ensures Under(projectPath, r)
    ensures r[|projectPath| + 1..] == "CLAUDE.md"
  {
    Join(projectPath, "CLAUDE.md")
  }

  /** The test expectation `/tmp/testhome/.claude/commands/kiln` is not what the code
      builds: the commands directory ends in `kw`. */
  lemma CommandsDirIsKw()
    ensures ResolvePaths(Some("/tmp/testhome"), "").commandsDir == "/tmp/testhome/.claude/commands/kw"
    ensures ResolvePaths(Some("/tmp/testhome"), "").commandsDir != "/tmp/testhome/.claude/commands/kiln"
  {
  }

  /** The example of the tests: `/DEV/foo` encodes to `-DEV-foo`. */
  lemma EncodeExample()
    ensures EncodeProjectPath("/DEV/foo") == "-DEV-foo"
  {
    var r := EncodeProjectPath("/DEV/foo");
    assert |r| == 8;
    assert r == "-DEV-foo";
  }
}
