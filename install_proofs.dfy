/** What `install` guarantees, proved about Install.InstallSpec. The copy loop is first
    related to an independent reference: every per-file decision taken on the
    filesystem as it was before the loop, and the copies then applied together. */
module InstallProofs {
  import opened Fs
  import opened Collaborators
  import opened Paths
  import opened Install

  // ---------------------------------------------------------------------------
  // The reference: decisions on the initial state, applied afterwards
  // ---------------------------------------------------------------------------

  predicate DistinctDests(jobs: seq<Job>) {
    forall i, j :: 0 <= i < j < |jobs| ==> jobs[i].dest != jobs[j].dest
  }

  /** Every job's decision on the same snapshot, or the first error. */
  function Decisions(s: Snapshot, jobs: seq<Job>, force: bool, checksum: Content -> string): (r: Result<seq<Action>>)
    ensures r.Ok? ==> |r.value| == |jobs|
    decreases |jobs|
  {
    if jobs == [] then Ok([])
    else match Decide(s, jobs[0], force, checksum)
      case Fail(e) => Fail(e)
      case Ok(a) =>
        match Decisions(s, jobs[1..], force, checksum)
        case Fail(e) => Fail(e)
        case Ok(rest) => Ok([a] + rest)
  }

  /** The reference succeeds exactly when every single decision does, and then holds
      each job's decision at its position. */
  lemma {:induction false} DecisionsPointwise(s: Snapshot, jobs: seq<Job>, force: bool, checksum: Content -> string)
    ensures var r := Decisions(s, jobs, force, checksum);
      (r.Ok? <==> forall i :: 0 <= i < |jobs| ==> Decide(s, jobs[i], force, checksum).Ok?) &&
      (r.Ok? ==> forall i :: 0 <= i < |jobs| ==> Decide(s, jobs[i], force, checksum) == Ok(r.value[i]))
    decreases |jobs|
  {
    if jobs != [] {
      DecisionsPointwise(s, jobs[1..], force, checksum);
      assert forall i :: 0 < i < |jobs| ==> jobs[i] == jobs[1..][i - 1];
    }
  }

  function InstalledPart(job: Job, a: Action): seq<string> {
    if a != Skipped then [job.dest] else []
  }

  function SkippedPart(job: Job, a: Action): seq<string> {
    if a == Skipped then [job.dest] else []
  }

  /** One job's effect on the files. */
  function Apply(f: map<string, Content>, job: Job, a: Action): map<string, Content>
  {
    if a == Copied && job.content.Some? then f[job.dest := job.content.value] else f
  }

  function Applied(f: map<string, Content>, jobs: seq<Job>, acts: seq<Action>): map<string, Content>
    requires |acts| == |jobs|
    decreases |jobs|
  {
    if jobs == [] then f else Applied(Apply(f, jobs[0], acts[0]), jobs[1..], acts[1..])
  }

  function InstalledOf(jobs: seq<Job>, acts: seq<Action>): seq<string>
    requires |acts| == |jobs|
    decreases |jobs|
  {
    if jobs == [] then [] else InstalledPart(jobs[0], acts[0]) + InstalledOf(jobs[1..], acts[1..])
  }

  function SkippedOf(jobs: seq<Job>, acts: seq<Action>): seq<string>
    requires |acts| == |jobs|
    decreases |jobs|
  {
    if jobs == [] then [] else SkippedPart(jobs[0], acts[0]) + SkippedOf(jobs[1..], acts[1..])
  }

  /** A step of the loop is its decision, applied. */
  lemma StepByDecision(s: Snapshot, l: Lists, job: Job, force: bool, checksum: Content -> string)
    ensures var d := Decide(s, job, force, checksum);
      var o := Step(s, l, job, force, checksum);
      (d.Fail? ==> o == Outcome(s, Fail(d.error))) &&
      (d.Ok? ==> o == Outcome(s.(files := Apply(s.files, job, d.value)),
                             Ok(Lists(l.installed + InstalledPart(job, d.value), l.skipped + SkippedPart(job, d.value)))))
  {
    var d := Decide(s, job, force, checksum);
    if d == Ok(Copied) {
      assert job.content.Some?;
    } else if d == Ok(Kept) {
      assert s.(files := Apply(s.files, job, Kept)) == s;
      assert l.skipped + [] == l.skipped;
    } else if d == Ok(Skipped) {
      assert s.(files := Apply(s.files, job, Skipped)) == s;
      assert l.installed + [] == l.installed;
    }
  }

  /** Every proper ancestor of every destination is a directory. */
  predicate DirsAbove(s: Snapshot, jobs: seq<Job>) {
    forall i :: 0 <= i < |jobs| ==> Ancestors(jobs[i].dest) <= s.dirs
  }

  lemma DirsAboveTail(s: Snapshot, t: Snapshot, jobs: seq<Job>)
    requires jobs != [] && DirsAbove(s, jobs) && s.dirs == t.dirs
    ensures DirsAbove(t, jobs[1..])
  {
    assert forall i :: 0 <= i < |jobs[1..]| ==> jobs[1..][i] == jobs[i + 1];
  }

  /** Two snapshots that agree on the directories and on every destination of `jobs`,
      below directories only, lead to the same decisions. */
  lemma {:induction false} DecisionsFrame(s: Snapshot, t: Snapshot, jobs: seq<Job>, force: bool, checksum: Content -> string)
    requires s.dirs == t.dirs && DirsAbove(s, jobs)
    requires forall i :: 0 <= i < |jobs| ==> Lookup(s.files, jobs[i].dest) == Lookup(t.files, jobs[i].dest)
    ensures Decisions(s, jobs, force, checksum) == Decisions(t, jobs, force, checksum)
    decreases |jobs|
  {
    if jobs != [] {
      assert Lookup(s.files, jobs[0].dest) == Lookup(t.files, jobs[0].dest);
      assert Decide(s, jobs[0], force, checksum) == Decide(t, jobs[0], force, checksum);
      forall i | 0 <= i < |jobs[1..]| ensures Lookup(s.files, jobs[1..][i].dest) == Lookup(t.files, jobs[1..][i].dest) {
        assert jobs[1..][i] == jobs[i + 1];
      }
      DirsAboveTail(s, s, jobs);
      DecisionsFrame(s, t, jobs[1..], force, checksum);
    }
  }

  lemma ConcatAssoc(a: seq<string>, b: seq<string>, c: seq<string>)
    ensures a + b + c == a + (b + c)
  {
  }

  /** Applying one job changes no other destination of a list with distinct ones. */
  lemma ApplyFrame(s: Snapshot, jobs: seq<Job>, a: Action)
    requires jobs != [] && DistinctDests(jobs)
    ensures DistinctDests(jobs[1..])
    ensures forall i :: 0 <= i < |jobs[1..]| ==>
      Lookup(s.files, jobs[1..][i].dest) == Lookup(Apply(s.files, jobs[0], a), jobs[1..][i].dest)
  {
    forall i | 0 <= i < |jobs[1..]|
      ensures Lookup(s.files, jobs[1..][i].dest) == Lookup(Apply(s.files, jobs[0], a), jobs[1..][i].dest)
    {
      assert jobs[1..][i] == jobs[i + 1];
    }
  }

  /** With distinct destinations, each below directories only, the copy loop does
      exactly what the reference says: it fails with the first failing decision's error,
      and otherwise applies every copy and lists each destination as installed or
      skipped by its decision. */
  lemma {:induction false} CopyAllByDecisions(s: Snapshot, l: Lists, jobs: seq<Job>, force: bool, checksum: Content -> string)
    requires DistinctDests(jobs) && DirsAbove(s, jobs)
    ensures CopyAll(s, l, jobs, force, checksum).result.Fail? <==> Decisions(s, jobs, force, checksum).Fail?
    ensures Decisions(s, jobs, force, checksum).Fail? ==>
      CopyAll(s, l, jobs, force, checksum).result.error == Decisions(s, jobs, force, checksum).error &&
      CopyAll(s, l, jobs, force, checksum).fs.dirs == s.dirs
    ensures Decisions(s, jobs, force, checksum).Ok? ==>
      var acts := Decisions(s, jobs, force, checksum).value;
      CopyAll(s, l, jobs, force, checksum) == Outcome(s.(files := Applied(s.files, jobs, acts)),
        Ok(Lists(l.installed + InstalledOf(jobs, acts), l.skipped + SkippedOf(jobs, acts))))
    decreases |jobs|
  {
    if jobs != [] {
      var job := jobs[0];
      StepByDecision(s, l, job, force, checksum);
      var d0 := Decide(s, job, force, checksum);
      if d0.Ok? {
        var a := d0.value;
        var t := s.(files := Apply(s.files, job, a));
        var l' := Lists(l.installed + InstalledPart(job, a), l.skipped + SkippedPart(job, a));
        ApplyFrame(s, jobs, a);
        DirsAboveTail(s, t, jobs);
        DecisionsFrame(s, t, jobs[1..], force, checksum);
        CopyAllByDecisions(t, l', jobs[1..], force, checksum);
        var d := Decisions(s, jobs, force, checksum);
        var c := CopyAll(s, l, jobs, force, checksum);
        assert c == CopyAll(t, l', jobs[1..], force, checksum);
        if d.Ok? {
          var acts := d.value;
          assert acts[0] == a;
          assert acts[1..] == Decisions(s, jobs[1..], force, checksum).value;
          assert Applied(s.files, jobs, acts) == Applied(t.files, jobs[1..], acts[1..]);
          ConcatAssoc(l.installed, InstalledPart(job, a), InstalledOf(jobs[1..], acts[1..]));
          ConcatAssoc(l.skipped, SkippedPart(job, a), SkippedOf(jobs[1..], acts[1..]));
          assert InstalledOf(jobs, acts) == InstalledPart(job, a) + InstalledOf(jobs[1..], acts[1..]);
          assert SkippedOf(jobs, acts) == SkippedPart(job, a) + SkippedOf(jobs[1..], acts[1..]);
          assert t.(files := Applied(t.files, jobs[1..], acts[1..])) == s.(files := Applied(s.files, jobs, acts));
        }
      }
    } else {
      assert l.installed + [] == l.installed && l.skipped + [] == l.skipped;
      assert s.(files := s.files) == s;
    }
  }

  // ---------------------------------------------------------------------------
  // Properties of the reference
  // ---------------------------------------------------------------------------

  /** A path no job writes keeps its content. */
  lemma {:induction false} AppliedOutside(f: map<string, Content>, jobs: seq<Job>, acts: seq<Action>, p: string)
    requires |acts| == |jobs|
    requires forall i :: 0 <= i < |jobs| ==> jobs[i].dest != p
    ensures Lookup(Applied(f, jobs, acts), p) == Lookup(f, p)
    decreases |jobs|
  {
    if jobs != [] {
      AppliedOutside(Apply(f, jobs[0], acts[0]), jobs[1..], acts[1..], p);
    }
  }

  /** A destination holds its source content when it was copied, and is untouched
      otherwise. */
  lemma {:induction false} AppliedAt(f: map<string, Content>, jobs: seq<Job>, acts: seq<Action>, i: int)
    requires |acts| == |jobs| && DistinctDests(jobs) && 0 <= i < |jobs|
    ensures Lookup(Applied(f, jobs, acts), jobs[i].dest) ==
      if acts[i] == Copied && jobs[i].content.Some? then jobs[i].content else Lookup(f, jobs[i].dest)
    decreases |jobs|
  {
    if i == 0 {
      forall k | 0 <= k < |jobs[1..]| ensures jobs[1..][k].dest != jobs[0].dest {
        assert jobs[1..][k] == jobs[k + 1];
      }
      AppliedOutside(Apply(f, jobs[0], acts[0]), jobs[1..], acts[1..], jobs[0].dest);
    } else {
      assert DistinctDests(jobs[1..]);
      AppliedAt(Apply(f, jobs[0], acts[0]), jobs[1..], acts[1..], i - 1);
      assert jobs[1..][i - 1] == jobs[i];
    }
  }

  /** No decision copies: the files stay as they are. */
  lemma {:induction false} AppliedNoCopy(f: map<string, Content>, jobs: seq<Job>, acts: seq<Action>)
    requires |acts| == |jobs| && Copied !in acts
    ensures Applied(f, jobs, acts) == f
    decreases |jobs|
  {
    if jobs != [] {
      assert acts[0] != Copied && acts[1..] <= acts[1..];
      assert forall k :: 0 <= k < |acts[1..]| ==> acts[1..][k] == acts[k + 1];
      AppliedNoCopy(f, jobs[1..], acts[1..]);
    }
  }

  /** Everything listed as installed is a destination whose decision did not skip. */
  lemma {:induction false} InstalledFrom(jobs: seq<Job>, acts: seq<Action>)
    requires |acts| == |jobs|
    ensures forall d :: d in InstalledOf(jobs, acts) ==> exists i :: 0 <= i < |jobs| && jobs[i].dest == d && acts[i] != Skipped
    decreases |jobs|
  {
    if jobs != [] {
      InstalledFrom(jobs[1..], acts[1..]);
      forall d | d in InstalledOf(jobs, acts)
        ensures exists i :: 0 <= i < |jobs| && jobs[i].dest == d && acts[i] != Skipped
      {
        if d in InstalledOf(jobs[1..], acts[1..]) {
          var k :| 0 <= k < |jobs[1..]| && jobs[1..][k].dest == d && acts[1..][k] != Skipped;
          assert jobs[k + 1].dest == d && acts[k + 1] != Skipped;
        } else {
          assert jobs[0].dest == d && acts[0] != Skipped;
        }
      }
    }
  }

  /** Everything listed as skipped is a destination whose decision skipped. */
  lemma {:induction false} SkippedFrom(jobs: seq<Job>, acts: seq<Action>)
    requires |acts| == |jobs|
    ensures forall d :: d in SkippedOf(jobs, acts) ==> exists i :: 0 <= i < |jobs| && jobs[i].dest == d && acts[i] == Skipped
    decreases |jobs|
  {
    if jobs != [] {
      SkippedFrom(jobs[1..], acts[1..]);
      forall d | d in SkippedOf(jobs, acts)
        ensures exists i :: 0 <= i < |jobs| && jobs[i].dest == d && acts[i] == Skipped
      {
        if d in SkippedOf(jobs[1..], acts[1..]) {
          var k :| 0 <= k < |jobs[1..]| && jobs[1..][k].dest == d && acts[1..][k] == Skipped;
          assert jobs[k + 1].dest == d && acts[k + 1] == Skipped;
        } else {
          assert jobs[0].dest == d && acts[0] == Skipped;
        }
      }
    }
  }

  /** Every job is counted in exactly one of the two lists. */
  lemma {:induction false} ListsCount(jobs: seq<Job>, acts: seq<Action>)
    requires |acts| == |jobs|
    ensures |InstalledOf(jobs, acts)| + |SkippedOf(jobs, acts)| == |jobs|
    decreases |jobs|
  {
    if jobs != [] {
      ListsCount(jobs[1..], acts[1..]);
    }
  }

  /** With distinct destinations, a destination is listed as installed exactly when
      its decision did not skip, and as skipped exactly when it did. */
  lemma {:induction false} ListsPartition(jobs: seq<Job>, acts: seq<Action>)
    requires |acts| == |jobs| && DistinctDests(jobs)
    ensures forall i :: 0 <= i < |jobs| ==>
      (jobs[i].dest in InstalledOf(jobs, acts) <==> acts[i] != Skipped) &&
      (jobs[i].dest in SkippedOf(jobs, acts) <==> acts[i] == Skipped)
    decreases |jobs|
  {
    if jobs != [] {
      var rest := jobs[1..];
      assert DistinctDests(rest);
      ListsPartition(rest, acts[1..]);
      InstalledFrom(rest, acts[1..]);
      SkippedFrom(rest, acts[1..]);
      forall i | 0 <= i < |jobs|
        ensures (jobs[i].dest in InstalledOf(jobs, acts) <==> acts[i] != Skipped)
        ensures (jobs[i].dest in SkippedOf(jobs, acts) <==> acts[i] == Skipped)
      {
        if i == 0 {
          forall k | 0 <= k < |rest| ensures rest[k].dest != jobs[0].dest {
            assert rest[k] == jobs[k + 1];
          }
        } else {
          assert rest[i - 1] == jobs[i] && acts[1..][i - 1] == acts[i];
          assert jobs[i].dest != jobs[0].dest;
        }
      }
    }
  }

  /** The lists depend only on which decisions skip. */
  lemma {:induction false} ListsBySkips(jobs: seq<Job>, acts: seq<Action>, acts2: seq<Action>)
    requires |acts| == |jobs| == |acts2|
    requires forall i :: 0 <= i < |jobs| ==> (acts[i] == Skipped <==> acts2[i] == Skipped)
    ensures InstalledOf(jobs, acts) == InstalledOf(jobs, acts2)
    ensures SkippedOf(jobs, acts) == SkippedOf(jobs, acts2)
    decreases |jobs|
  {
    if jobs != [] {
      assert acts[0] == Skipped <==> acts2[0] == Skipped;
      ListsBySkips(jobs[1..], acts[1..], acts2[1..]);
    }
  }

  lemma {:induction false} NoSkipNoSkipped(jobs: seq<Job>, acts: seq<Action>)
    requires |acts| == |jobs| && Skipped !in acts
    ensures SkippedOf(jobs, acts) == []
    decreases |jobs|
  {
    if jobs != [] {
      assert forall k :: 0 <= k < |acts[1..]| ==> acts[1..][k] == acts[k + 1];
      NoSkipNoSkipped(jobs[1..], acts[1..]);
    }
  }

  /** Every destination is written in order when no decision skips: then every job is
      listed as installed, in order, and none as skipped. */
  lemma {:induction false} NoSkipAllInstalled(jobs: seq<Job>, acts: seq<Action>)
    requires |acts| == |jobs| && Skipped !in acts
    ensures InstalledOf(jobs, acts) == DestsOf(jobs)
    ensures SkippedOf(jobs, acts) == []
    decreases |jobs|
  {
    if jobs != [] {
      assert acts[1..] <= acts[1..] && forall k :: 0 <= k < |acts[1..]| ==> acts[1..][k] == acts[k + 1];
      NoSkipAllInstalled(jobs[1..], acts[1..]);
      assert DestsOf(jobs) == [jobs[0].dest] + DestsOf(jobs[1..]);
    }
  }

  function DestsOf(jobs: seq<Job>): (r: seq<string>)
    ensures |r| == |jobs| && forall i :: 0 <= i < |jobs| ==> r[i] == jobs[i].dest
  {
    seq(|jobs|, i requires 0 <= i < |jobs| => jobs[i].dest)
  }

  /** The copy loop writes nothing but destinations, never alters a directory, and keeps
      a valid filesystem valid, whether it fails or not. */
  lemma {:induction false} CopyAllFrame(s: Snapshot, l: Lists, jobs: seq<Job>, force: bool, checksum: Content -> string)
    ensures var c := CopyAll(s, l, jobs, force, checksum);
      c.fs.dirs == s.dirs &&
      (s.Valid() ==> c.fs.Valid()) &&
      forall q :: (forall i :: 0 <= i < |jobs| ==> jobs[i].dest != q) ==> Lookup(c.fs.files, q) == Lookup(s.files, q)
    decreases |jobs|
  {
    if jobs != [] {
      var o := Step(s, l, jobs[0], force, checksum);
      if o.result.Ok? {
        CopyAllFrame(o.fs, o.result.value, jobs[1..], force, checksum);
        assert forall i :: 0 <= i < |jobs[1..]| ==> jobs[1..][i] == jobs[i + 1];
      }
    }
  }

  // ---------------------------------------------------------------------------
  // The layout keeps the destinations apart
  // ---------------------------------------------------------------------------

  function CharAt(s: string, k: nat): char {
    if k < |s| then s[k] else ' '
  }

  lemma CharAfter(x: string, tail: string, rest: string, i: nat)
    requires i < |tail|
    ensures CharAt(x + tail + rest, |x| + i) == tail[i]
  {
    assert (x + tail + rest)[|x| + i] == tail[i];
  }

  lemma JoinInjective(d: string, x: string, y: string)
    requires Join(d, x) == Join(d, y)
    ensures x == y
  {
    assert x == Join(d, x)[|d| + 1..];
    assert y == Join(d, y)[|d| + 1..];
  }

  lemma ConcatDistinct(x: seq<Job>, y: seq<Job>)
    requires DistinctDests(x) && DistinctDests(y)
    requires forall i, j :: 0 <= i < |x| && 0 <= j < |y| ==> x[i].dest != y[j].dest
    ensures DistinctDests(x + y)
  {
    forall i, j | 0 <= i < j < |x + y| ensures (x + y)[i].dest != (x + y)[j].dest {
      if j < |x| {
        assert (x + y)[i] == x[i] && (x + y)[j] == x[j];
      } else if i < |x| {
        assert (x + y)[i] == x[i] && (x + y)[j] == y[j - |x|];
      } else {
        assert (x + y)[i] == y[i - |x|] && (x + y)[j] == y[j - |x|];
      }
    }
  }

  /** A group copies names that are distinct to destinations that are distinct. */
  lemma GroupDistinct(g: Group)
    requires DistinctNames(g.dir)
    ensures DistinctDests(GroupJobs(g))
  {
    var r := GroupJobs(g);
    GroupJobsSpec(g);
    if g.dir.Listing? {
      assert Distinct(g.dir.names);
      assert Distinct(NamesOf(r));
      forall i, j | 0 <= i < j < |r| ensures r[i].dest != r[j].dest {
        assert NamesOf(r)[i] == r[i].name && NamesOf(r)[j] == r[j].name;
        if r[i].dest == r[j].dest {
          JoinInjective(g.destDir, r[i].name, r[j].name);
        }
      }
    }
  }

  /** The jobs in their four blocks. */
  lemma JobsBlocks(a: Assets, p: Layout)
    ensures var gs := CopyGroups(a, p);
      Jobs(a, p) == GroupJobs(gs[0]) + GroupJobs(gs[1]) + GroupJobs(gs[2]) + [NamesJob(a, p)]
  {
    var gs := CopyGroups(a, p);
    assert gs[1..] == [gs[1], gs[2]] && gs[1..][1..] == [gs[2]] && gs[1..][1..][1..] == [];
    assert AllGroupJobs(gs[1..][1..]) == GroupJobs(gs[2]) + [];
    assert AllGroupJobs(gs[1..]) == GroupJobs(gs[1]) + AllGroupJobs(gs[1..][1..]);
    assert AllGroupJobs(gs) == GroupJobs(gs[0]) + AllGroupJobs(gs[1..]);
    ConcatAssocJobs(GroupJobs(gs[0]), GroupJobs(gs[1]), GroupJobs(gs[2]));
  }

  lemma ConcatAssocJobs(a: seq<Job>, b: seq<Job>, c: seq<Job>)
    ensures a + (b + c) == a + b + c && c + [] == c
  {
  }

  /** Which owned location a path inside `c` names, read off two characters. */
  function Kind(c: string, dest: string): int {
    if CharAt(dest, |c| + 1) == 'a' then 0
    else if CharAt(dest, |c| + 1) == 'c' then 1
    else if CharAt(dest, |c| + 9) == 't' then 2
    else if CharAt(dest, |c| + 9) == 'n' then 3
    else 4
  }

  predicate KindsAre(c: string, jobs: seq<Job>, n: int) {
    forall i :: 0 <= i < |jobs| ==> Kind(c, jobs[i].dest) == n && Under(c, jobs[i].dest)
  }

  predicate KindsBelow(c: string, jobs: seq<Job>, n: int) {
    forall i :: 0 <= i < |jobs| ==> Kind(c, jobs[i].dest) < n && Under(c, jobs[i].dest)
  }

  /** Appending a block of the next kind keeps the destinations distinct. */
  lemma AppendKind(c: string, x: seq<Job>, y: seq<Job>, n: int)
    requires DistinctDests(x) && DistinctDests(y) && KindsBelow(c, x, n) && KindsAre(c, y, n)
    ensures DistinctDests(x + y) && KindsBelow(c, x + y, n + 1)
  {
    ConcatDistinct(x, y);
    assert forall i :: 0 <= i < |x + y| ==> (x + y)[i] == if i < |x| then x[i] else y[i - |x|];
  }

  /** A path `c + sub + rest` with `sub` starting with a separator lies inside `c`. */
  lemma UnderChild(c: string, sub: string, rest: string)
    requires |sub| > 0 && sub[0] == '/'
    ensures Under(c, c + sub + rest)
  {
    assert (c + sub + rest)[..|c| + 1] == c + "/";
  }

  /** The kind of a path `c + sub + rest`, read off the characters of `sub`. */
  lemma KindOf(c: string, sub: string, rest: string, n: int)
    requires |sub| > 1 && sub[0] == '/'
    requires (n == 0 && sub[1] == 'a') || (n == 1 && sub[1] == 'c') ||
             (2 <= n <= 4 && |sub| > 9 && sub[1] == 'k' && sub[9] == "tnm"[n - 2])
    ensures Kind(c, c + sub + rest) == n && Under(c, c + sub + rest)
  {
    CharAfter(c, sub, rest, 1);
    if n >= 2 {
      CharAfter(c, sub, rest, 9);
    }
    UnderChild(c, sub, rest);
  }

  /** Each destination of a group is its directory joined with the job's name. */
  lemma GroupDests(g: Group)
    ensures forall i :: 0 <= i < |GroupJobs(g)| ==> GroupJobs(g)[i].dest == Join(g.destDir, GroupJobs(g)[i].name)
  {
  }

  /** A file `name` in directory `c + sub` has the kind the characters of `sub` give. */
  lemma JobKind(c: string, sub: string, name: string, n: int)
    requires |sub| > 1 && sub[0] == '/'
    requires (n == 0 && sub[1] == 'a') || (n == 1 && sub[1] == 'c') ||
             (n == 2 && |sub| > 9 && sub[1] == 'k' && sub[9] == 't')
    ensures Kind(c, Join(c + sub, name)) == n && Under(c, Join(c + sub, name))
  {
    assert Join(c + sub, name) == c + sub + ("/" + name);
    KindOf(c, sub, "/" + name, n);
  }

  /** Every destination of a group with directory `c + sub` lies inside `c` and has the
      kind the characters of `sub` give. */
  lemma GroupKind(g: Group, c: string, sub: string, n: int)
    requires |sub| > 1 && sub[0] == '/' && g.destDir == c + sub
    requires (n == 0 && sub[1] == 'a') || (n == 1 && sub[1] == 'c') ||
             (n == 2 && |sub| > 9 && sub[1] == 'k' && sub[9] == 't')
    ensures KindsAre(c, GroupJobs(g), n)
  {
    GroupDests(g);
    forall i | 0 <= i < |GroupJobs(g)| ensures Kind(c, GroupJobs(g)[i].dest) == n && Under(c, GroupJobs(g)[i].dest) {
      JobKind(c, sub, GroupJobs(g)[i].name, n);
    }
  }

  /** The owned locations of a layout spelled out below its `claudeDir`. */
  predicate Spelled(p: Layout) {
    var c := p.claudeDir;
    && p.agentsDir == c + "/agents"
    && p.commandsDir == c + "/commands/kw"
    && p.templatesDir == c + "/kilntwo/templates"
    && Join(p.kilntwoDir, "names.json") == c + "/kilntwo/names.json" + ""
    && p.manifestPath == c + "/kilntwo/manifest.json" + ""
  }

  lemma JoinTwice(c: string, x: string, y: string)
    ensures Join(Join(c, x), y) == c + ("/" + x + "/" + y)
  {
  }

  lemma SpelledDirs(c: string)
    ensures Join(c, "agents") == c + "/agents"
    ensures Join(Join(c, "commands"), "kw") == c + "/commands/kw"
    ensures Join(Join(c, "kilntwo"), "templates") == c + "/kilntwo/templates"
  {
    assert "/" + "agents" == "/agents";
    JoinTwice(c, "commands", "kw");
    assert "/" + "commands" + "/" + "kw" == "/commands/kw";
    JoinTwice(c, "kilntwo", "templates");
    assert "/" + "kilntwo" + "/" + "templates" == "/kilntwo/templates";
  }

  lemma SpelledFiles(c: string)
    ensures Join(Join(c, "kilntwo"), "names.json") == c + "/kilntwo/names.json" + ""
    ensures Join(Join(c, "kilntwo"), "manifest.json") == c + "/kilntwo/manifest.json" + ""
  {
    JoinTwice(c, "kilntwo", "names.json");
    assert "/" + "kilntwo" + "/" + "names.json" == "/kilntwo/names.json";
    JoinTwice(c, "kilntwo", "manifest.json");
    assert "/" + "kilntwo" + "/" + "manifest.json" == "/kilntwo/manifest.json";
  }

  lemma ResolvedSpelled(home: Option<string>, defaultHome: string)
    ensures Spelled(ResolvePaths(home, defaultHome))
  {
    SpelledDirs(ResolvePaths(home, defaultHome).claudeDir);
    SpelledFiles(ResolvePaths(home, defaultHome).claudeDir);
  }

  /** The kinds of the three copy groups. */
  lemma GroupKinds(a: Assets, p: Layout)
    requires Spelled(p)
    ensures var gs := CopyGroups(a, p);
      KindsAre(p.claudeDir, GroupJobs(gs[0]), 0) && KindsAre(p.claudeDir, GroupJobs(gs[1]), 1) &&
      KindsAre(p.claudeDir, GroupJobs(gs[2]), 2)
  {
    var c := p.claudeDir;
    var gs := CopyGroups(a, p);
    GroupKind(gs[0], c, "/agents", 0);
    GroupKind(gs[1], c, "/commands/kw", 1);
    GroupKind(gs[2], c, "/kilntwo/templates", 2);
  }

  /** The kinds of `names.json` and of the manifest. */
  lemma FileKinds(a: Assets, p: Layout)
    requires Spelled(p)
    ensures KindsAre(p.claudeDir, [NamesJob(a, p)], 3) && Kind(p.claudeDir, p.manifestPath) == 4
  {
    var c := p.claudeDir;
    KindOf(c, "/kilntwo/names.json", "", 3);
    KindOf(c, "/kilntwo/manifest.json", "", 4);
  }

  /** In the resolved layout every destination is distinct, lies inside `claudeDir`, and
      none is the manifest. */
  lemma JobsDistinct(a: Assets, home: Option<string>, defaultHome: string)
    requires WellFormed(a)
    ensures var p := ResolvePaths(home, defaultHome);
      var jobs := Jobs(a, p);
      DistinctDests(jobs) &&
      (forall i :: 0 <= i < |jobs| ==> jobs[i].dest != p.manifestPath && Under(p.claudeDir, jobs[i].dest))
  {
    var p := ResolvePaths(home, defaultHome);
    var c := p.claudeDir;
    var gs := CopyGroups(a, p);
    JobsBlocks(a, p);
    var g0, g1, g2, nj := GroupJobs(gs[0]), GroupJobs(gs[1]), GroupJobs(gs[2]), [NamesJob(a, p)];
    GroupDistinct(gs[0]);
    GroupDistinct(gs[1]);
    GroupDistinct(gs[2]);
    ResolvedSpelled(home, defaultHome);
    GroupKinds(a, p);
    FileKinds(a, p);
    AppendKind(c, [], g0, 0);
    assert [] + g0 == g0;
    AppendKind(c, g0, g1, 1);
    AppendKind(c, g0 + g1, g2, 2);
    AppendKind(c, g0 + g1 + g2, nj, 3);
  }

  // ---------------------------------------------------------------------------
  // The destinations lie in the owned directories
  // ---------------------------------------------------------------------------

  /** A name without a separator, joined to `d`, has no proper ancestor but those
      `mkdir -p d` makes. */
  lemma AncestorsOfJoin(d: string, n: string)
    requires '/' !in n
    ensures Ancestors(Join(d, n)) <= DirChain(d)
  {
    var p := Join(d, n);
    forall q | q in Ancestors(p) ensures q in DirChain(d) {
      var k :| 0 < k < |p| && p[k] == '/' && p[..k] == q;
      assert k <= |d|;
      assert p[..k] == d[..k];
    }
  }

  /** A group of plain names copies below its destination directory only. */
  lemma GroupDirsAbove(s: Snapshot, g: Group)
    requires PlainNames(g.dir) && DirChain(g.destDir) <= s.dirs
    ensures DirsAbove(s, GroupJobs(g))
  {
    GroupJobsSpec(g);
    if g.dir.Listing? {
      var r := GroupJobs(g);
      forall i | 0 <= i < |r| ensures Ancestors(r[i].dest) <= s.dirs {
        var n := r[i].name;
        assert NamesOf(r)[i] == n;
        assert n in multiset(NamesOf(r));
        assert n in Markdown(g.dir.names);
        var k :| 0 <= k < |g.dir.names| && g.dir.names[k] == n;
        AncestorsOfJoin(g.destDir, n);
      }
    }
  }

  lemma DirsAboveConcat(s: Snapshot, x: seq<Job>, y: seq<Job>)
    requires DirsAbove(s, x) && DirsAbove(s, y)
    ensures DirsAbove(s, x + y)
  {
    assert forall i :: 0 <= i < |x + y| ==> (x + y)[i] == if i < |x| then x[i] else y[i - |x|];
  }

  /** Groups of plain names copy below their destination directories only. */
  lemma {:induction false} AllGroupDirsAbove(s: Snapshot, gs: seq<Group>)
    requires forall g :: g in gs ==> PlainNames(g.dir) && DirChain(g.destDir) <= s.dirs
    ensures DirsAbove(s, AllGroupJobs(gs))
    decreases |gs|
  {
    if gs != [] {
      assert gs[0] in gs && forall g :: g in gs[1..] ==> g in gs;
      GroupDirsAbove(s, gs[0]);
      AllGroupDirsAbove(s, gs[1..]);
      DirsAboveConcat(s, GroupJobs(gs[0]), AllGroupJobs(gs[1..]));
    }
  }

  /** Once the owned directories are made, every shipped file's destination lies below
      directories only. */
  lemma JobsDirsAbove(s: Snapshot, a: Assets, p: Layout)
    requires WellFormed(a)
    requires forall d :: d in OwnedDirs(p) ==> DirChain(d) <= s.dirs
    ensures DirsAbove(s, Jobs(a, p))
  {
    var gs := CopyGroups(a, p);
    forall g | g in gs ensures PlainNames(g.dir) && DirChain(g.destDir) <= s.dirs {
      assert g.destDir in OwnedDirs(p);
    }
    AllGroupDirsAbove(s, gs);
    AncestorsOfJoin(p.kilntwoDir, "names.json");
    assert p.kilntwoDir in OwnedDirs(p);
    DirsAboveConcat(s, AllGroupJobs(gs), [NamesJob(a, p)]);
  }
}
