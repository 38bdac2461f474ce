/** Sending a whole path of branches to another cluster, or fetching it from there: applyPath in
    statemachines.go.
  */
module PathTransfers {
  import opened Snapshots
  import opened Registries
  import opened RegistryWorld
  import opened Transfers

  datatype Mode = Pushing | Pulling

  /** One filesystem of the path: where it was cloned from, and how much of it is needed; ""
      is everything. */
  datatype Segment = Segment(from: Option<Origin>, fs: FsId, target: SnapshotId)

  /** What happens while one segment is transferred, and afterwards. */
  datatype Env = Env(check: Attempt, attempts: seq<Attempt>, mounts: bool, reports: bool)

  /** A segment, and the destination when its transfer began. */
  datatype Start = Start(seg: Segment, dest: Store)

  datatype Applied = Applied(ok: bool, dest: Store, starts: seq<Start>, targets: seq<SnapshotId>)

  function TransferOne(mode: Mode, source: Store, dest: Store, seg: Segment, env: Env): Transfer {
    match mode
    case Pushing => Push(source, dest, seg.from, seg.fs, seg.target, env.attempts)
    case Pulling => Pull(source, dest, seg.from, seg.fs, seg.target, env.check, env.attempts)
  }

  /** The volume first, then the clones, each up to the origin of the next. */
  function SegmentsOf(path: Path): (segs: seq<Segment>)
    ensures |segs| == 1 + |path.clones|
  {
    seq(1 + |path.clones|, i requires 0 <= i <= |path.clones| => SegmentAt(path, i))
  }

  function SegmentAt(path: Path, i: nat): Segment
    requires i <= |path.clones|
  {
    var target := if i < |path.clones| then path.clones[i].clone.origin.snapshot else "";
    if i == 0 then Segment(None, path.topLevelId, target)
    else Segment(Some(path.clones[i - 1].clone.origin), path.clones[i - 1].clone.id, target)
  }

  function ApplySegments(mode: Mode, source: Store, dest: Store, segs: seq<Segment>, envs: seq<Env>): Applied
    requires |segs| == |envs|
    decreases segs
  {
    if segs == [] then Applied(true, dest, [], [])
    else
      var t := TransferOne(mode, source, dest, segs[0], envs[0]);
      if t.ok && envs[0].mounts && envs[0].reports then
        var rest := ApplySegments(mode, source, t.dest, segs[1..], envs[1..]);
        Applied(rest.ok, rest.dest, [Start(segs[0], dest)] + rest.starts, [t.target] + rest.targets)
      else Applied(false, t.dest, [Start(segs[0], dest)], [t.target])
  }

  method TransferSegment(mode: Mode, source: Store, dest: Store, seg: Segment, env: Env) returns (t: Transfer)
    requires |env.attempts| == MaxRetries
    ensures t == TransferOne(mode, source, dest, seg, env)
  {
    match mode {
      case Pushing => t := RetryPush(source, dest, seg.from, seg.fs, seg.target, env.attempts);
      case Pulling => t := RetryPull(source, dest, seg.from, seg.fs, seg.target, env.check, env.attempts);
    }
  }

  method ApplyPath(mode: Mode, source: Store, dest: Store, path: Path, envs: seq<Env>) returns (result: Applied)
    requires |envs| == 1 + |path.clones| && forall env <- envs :: |env.attempts| == MaxRetries
    ensures result == ApplySegments(mode, source, dest, SegmentsOf(path), envs)
  {
    var firstSnapshot := "";
    if |path.clones| != 0 {
      firstSnapshot := path.clones[0].clone.origin.snapshot;
    }
    var first := Segment(None, path.topLevelId, firstSnapshot);
    ghost var segs := SegmentsOf(path);
    assert segs[0] == first;
    var t := TransferSegment(mode, source, dest, first, envs[0]);
    result := Applied(true, t.dest, [Start(first, dest)], [t.target]);
    if !t.ok || !envs[0].mounts || !envs[0].reports {
      return result.(ok := false);
    }
    for i := 0 to |path.clones|
      invariant result.ok
      invariant ApplySegments(mode, source, dest, segs, envs) ==
                Continue(result, ApplySegments(mode, source, result.dest, segs[i + 1..], envs[i + 1..]))
    {
      var clone := path.clones[i].clone;
      var nextSnapshot := "";
      if |path.clones| > i + 1 {
        nextSnapshot := path.clones[i + 1].clone.origin.snapshot;
      }
      var seg := Segment(Some(clone.origin), clone.id, nextSnapshot);
      assert segs[i + 1] == seg;
      ghost var before := result;
      t := TransferSegment(mode, source, result.dest, seg, envs[i + 1]);
      NextSegment(mode, source, before, segs[i + 1..], envs[i + 1..]);
      assert segs[i + 1..][1..] == segs[i + 2..] && envs[i + 1..][1..] == envs[i + 2..];
      result := Applied(true, t.dest, result.starts + [Start(seg, result.dest)], result.targets + [t.target]);
      if !t.ok || !envs[i + 1].mounts || !envs[i + 1].reports {
        return result.(ok := false);
      }
    }
  }

  /** What was done so far, and then the rest. */
  function Continue(done: Applied, rest: Applied): Applied {
    Applied(rest.ok, rest.dest, done.starts + rest.starts, done.targets + rest.targets)
  }

  lemma NextSegment(mode: Mode, source: Store, done: Applied, segs: seq<Segment>, envs: seq<Env>)
    requires |segs| == |envs| > 0
    ensures var t := TransferOne(mode, source, done.dest, segs[0], envs[0]);
            var now := Applied(true, t.dest, done.starts + [Start(segs[0], done.dest)], done.targets + [t.target]);
            Continue(done, ApplySegments(mode, source, done.dest, segs, envs)) ==
              if t.ok && envs[0].mounts && envs[0].reports
              then Continue(now, ApplySegments(mode, source, t.dest, segs[1..], envs[1..]))
              else now.(ok := false)
  {
  }

  // ---------------------------------------------------------------------------
  // Safety
  // ---------------------------------------------------------------------------

  /** Each segment was cloned from the one before, at the snapshot that one is needed up to. */
  ghost predicate Follow(segs: seq<Segment>) {
    forall i {:trigger segs[i]} :: 0 < i < |segs| ==> segs[i].from == Some(Origin(segs[i - 1].fs, segs[i - 1].target))
  }

  ghost predicate OriginThere(dest: Store, seg: Segment) {
    seg.from.Some? && seg.from.value.snapshot != "" ==> Holds(dest, seg.from.value)
  }

  ghost predicate Grown(dest: Store, dest': Store) {
    forall fs :: Get(dest, fs) <= Get(dest', fs)
  }

  /** All that was started was started on top of its origin, and success means that
      everything needed has arrived. */
  ghost predicate Safe(source: Store, dest: Store, segs: seq<Segment>, r: Applied) {
    && Grown(dest, r.dest)
    && |r.starts| == |r.targets| <= |segs|
    && (forall i {:trigger r.starts[i]} :: 0 <= i < |r.starts| ==> r.starts[i].seg == segs[i] && OriginThere(r.starts[i].dest, segs[i]))
    && (r.ok ==> |r.targets| == |segs|)
    && (r.ok ==> forall i {:trigger r.targets[i]} :: 0 <= i < |segs| ==>
                   && Arrived(source, r.dest, segs[i].fs, r.targets[i])
                   && (segs[i].target != "" ==> r.targets[i] == segs[i].target))
  }

  lemma TransferOneSound(tree: Tree, mode: Mode, source: Store, dest: Store, seg: Segment, env: Env)
    requires Setting(tree, source, dest)
    ensures Sound(tree, source, dest, seg.fs, seg.target, TransferOne(mode, source, dest, seg, env))
  {
    match mode
    case Pushing => PushSound(tree, source, dest, seg.from, seg.fs, seg.target, env.attempts);
    case Pulling => PullSound(tree, source, dest, seg.from, seg.fs, seg.target, env.check, env.attempts);
  }

  lemma {:induction false} ApplySafe(tree: Tree, mode: Mode, source: Store, dest: Store, segs: seq<Segment>, envs: seq<Env>)
    requires |segs| == |envs| && Setting(tree, source, dest) && Follow(segs)
    requires segs != [] ==> OriginThere(dest, segs[0])
    ensures Safe(source, dest, segs, ApplySegments(mode, source, dest, segs, envs))
    ensures Setting(tree, source, ApplySegments(mode, source, dest, segs, envs).dest)
    decreases segs
  {
    if segs == [] {
    } else {
      TransferOneSound(tree, mode, source, dest, segs[0], envs[0]);
      var t := TransferOne(mode, source, dest, segs[0], envs[0]);
      if t.ok && envs[0].mounts && envs[0].reports {
        var later := segs[1..];
        assert forall i {:trigger later[i]} :: 0 <= i < |later| ==> later[i] == segs[i + 1];
        if later != [] && segs[0].target != "" { TargetHeld(source, t.dest, segs[0].fs, segs[0].target); }
        ApplySafe(tree, mode, source, t.dest, later, envs[1..]);
        SafeStep(source, dest, segs, t, ApplySegments(mode, source, t.dest, later, envs[1..]));
      }
    }
  }

  lemma TargetHeld(source: Store, dest: Store, fs: FsId, target: SnapshotId)
    requires Arrived(source, dest, fs, target)
    ensures target in Get(dest, fs)
  {
    var k := IndexOf(Get(source, fs), target);
    assert UpTo(source, fs, target)[k] == target && Get(dest, fs)[k] == UpTo(source, fs, target)[k];
  }

  lemma SafeStep(source: Store, dest: Store, segs: seq<Segment>, t: Transfer, rest: Applied)
    requires segs != [] && OriginThere(dest, segs[0])
    requires GrewAt(dest, t.dest, segs[0].fs)
    requires t.ok && Arrived(source, t.dest, segs[0].fs, t.target) && (segs[0].target != "" ==> t.target == segs[0].target)
    requires Safe(source, t.dest, segs[1..], rest)
    ensures Safe(source, dest, segs, Applied(rest.ok, rest.dest, [Start(segs[0], dest)] + rest.starts, [t.target] + rest.targets))
  {
    var r := Applied(rest.ok, rest.dest, [Start(segs[0], dest)] + rest.starts, [t.target] + rest.targets);
    forall fs ensures Get(dest, fs) <= Get(r.dest, fs) {
      assert Get(dest, fs) <= Get(t.dest, fs) <= Get(r.dest, fs);
    }
    forall i | 0 <= i < |r.starts| ensures r.starts[i].seg == segs[i] && OriginThere(r.starts[i].dest, segs[i]) {
      if i > 0 { assert r.starts[i] == rest.starts[i - 1]; }
    }
    if r.ok {
      forall i | 0 <= i < |segs|
        ensures Arrived(source, r.dest, segs[i].fs, r.targets[i]) && (segs[i].target != "" ==> r.targets[i] == segs[i].target)
      {
        if i > 0 { assert r.targets[i] == rest.targets[i - 1]; }
      }
    }
  }

  lemma PathFollows(path: Path)
    requires Linked(path.topLevelId, path.clones)
    ensures Follow(SegmentsOf(path)) && SegmentsOf(path)[0].from == None
  {
    var segs := SegmentsOf(path);
    forall i {:trigger segs[i]} | 0 < i < |segs|
      ensures segs[i].from == Some(Origin(segs[i - 1].fs, segs[i - 1].target))
    {
      assert path.clones[i - 1].clone.origin.fs == Before(path.topLevelId, path.clones, i - 1);
    }
  }

  /** Along a deduced path of any length, whatever goes wrong: no clone is begun before its
      origin has arrived, nothing the destination had is lost, and success means that it has
      every filesystem of the path, up to the snapshot the next one was taken from. */
  lemma ApplyPathSafe(tree: Tree, mode: Mode, source: Store, dest: Store, path: Path, envs: seq<Env>)
    requires Setting(tree, source, dest) && |envs| == 1 + |path.clones|
    requires Linked(path.topLevelId, path.clones)
    ensures Safe(source, dest, SegmentsOf(path), ApplySegments(mode, source, dest, SegmentsOf(path), envs))
  {
    PathFollows(path);
    ApplySafe(tree, mode, source, dest, SegmentsOf(path), envs);
  }

  // ---------------------------------------------------------------------------
  // Success without faults
  // ---------------------------------------------------------------------------

  function Goal(source: Store, seg: Segment): Option<SnapshotId> {
    if seg.target != "" then Some(seg.target) else Tip(Get(source, seg.fs))
  }

  /** The source has what is needed and the destination has nothing else. */
  ghost predicate Wanted(source: Store, dest: Store, seg: Segment) {
    var goal := Goal(source, seg);
    goal.Some? && goal.value in Get(source, seg.fs) && Get(dest, seg.fs) <= UpTo(source, seg.fs, goal.value)
  }

  ghost predicate AllWanted(source: Store, dest: Store, segs: seq<Segment>) {
    forall seg <- segs :: Wanted(source, dest, seg)
  }

  ghost predicate Clean(source: Store, seg: Segment, a: Attempt) {
    !a.fault && a.lag == 0 && |Get(source, seg.fs)| <= a.announced
  }

  ghost predicate Smooth(source: Store, seg: Segment, env: Env) {
    && Clean(source, seg, env.check) && (forall a <- env.attempts :: Clean(source, seg, a))
    && env.attempts != [] && env.mounts && env.reports
  }

  lemma {:induction false} PushNowhere(source: Store, dest: Store, from: Option<Origin>, fs: FsId, attempts: seq<Attempt>)
    requires Get(source, fs) == []
    ensures !Push(source, dest, from, fs, "", attempts).ok
    decreases attempts
  {
    if attempts == [] {
    } else {
      PushNowhere(source, dest, from, fs, attempts[1..]);
    }
  }

  lemma SmoothTransfer(tree: Tree, mode: Mode, source: Store, dest: Store, seg: Segment, env: Env)
    requires Setting(tree, source, dest) && Smooth(source, seg, env)
    requires seg.from.Some? ==> seg.from.value.fs != seg.fs && Holds(dest, seg.from.value)
    ensures TransferOne(mode, source, dest, seg, env).ok <==> Wanted(source, dest, seg)
  {
    var all := Get(source, seg.fs);
    TargetNamed(tree, all, 0);
    var goal := Goal(source, seg);
    var a := env.attempts[0];
    assert a in env.attempts && Clean(source, seg, a);
    assert Prefix(all, a.announced) == all && Prefix(all, env.check.announced) == all;
    if goal.Some? {
      match mode
      case Pushing =>
        assert Push(source, dest, seg.from, seg.fs, seg.target, env.attempts) == Push(source, dest, seg.from, seg.fs, goal.value, env.attempts);
        PushWithCurrentLists(tree, source, dest, seg.from, seg.fs, goal.value, env.attempts);
      case Pulling =>
        PullRecovers(tree, source, dest, seg.from, seg.fs, goal.value, env.check, env.attempts);
        assert CleanStart(env.attempts);
        assert Pull(source, dest, seg.from, seg.fs, seg.target, env.check, env.attempts) == Pull(source, dest, seg.from, seg.fs, goal.value, env.check, env.attempts);
    } else if mode == Pushing {
      PushNowhere(source, dest, seg.from, seg.fs, env.attempts);
    }
  }

  /** A transfer without faults that succeeds leaves exactly what is needed. */
  lemma SmoothEnds(tree: Tree, mode: Mode, source: Store, dest: Store, seg: Segment, env: Env)
    requires Setting(tree, source, dest) && Smooth(source, seg, env)
    requires seg.from.Some? ==> seg.from.value.fs != seg.fs && Holds(dest, seg.from.value)
    requires TransferOne(mode, source, dest, seg, env).ok
    ensures Wanted(source, dest, seg)
    ensures var t := TransferOne(mode, source, dest, seg, env);
            Get(t.dest, seg.fs) == UpTo(source, seg.fs, Goal(source, seg).value)
  {
    SmoothTransfer(tree, mode, source, dest, seg, env);
    SmoothTarget(tree, mode, source, dest, seg, env);
    TransferOneSound(tree, mode, source, dest, seg, env);
  }

  lemma SmoothTarget(tree: Tree, mode: Mode, source: Store, dest: Store, seg: Segment, env: Env)
    requires Setting(tree, source, dest) && Smooth(source, seg, env) && Goal(source, seg).Some?
    ensures Goal(source, seg).value == "" || TransferOne(mode, source, dest, seg, env).target == Goal(source, seg).value
    ensures Goal(source, seg).value != ""
  {
    var all, goal := Get(source, seg.fs), Goal(source, seg).value;
    TargetNamed(tree, all, 0);
    var a := env.attempts[0];
    assert a in env.attempts && Clean(source, seg, a);
    assert Prefix(all, a.announced) == all && Prefix(all, env.check.announced) == all;
    match mode
    case Pushing =>
      assert Push(source, dest, seg.from, seg.fs, seg.target, env.attempts) == Push(source, dest, seg.from, seg.fs, goal, env.attempts);
      PushSound(tree, source, dest, seg.from, seg.fs, goal, env.attempts);
    case Pulling =>
      assert Pull(source, dest, seg.from, seg.fs, seg.target, env.check, env.attempts) == Pull(source, dest, seg.from, seg.fs, goal, env.check, env.attempts);
      PullSound(tree, source, dest, seg.from, seg.fs, goal, env.check, env.attempts);
  }

  ghost predicate DistinctFilesystems(segs: seq<Segment>) {
    forall i, j :: 0 <= i < j < |segs| ==> segs[i].fs != segs[j].fs
  }

  /** Every origin is a snapshot. */
  ghost predicate OriginsNamed(segs: seq<Segment>) {
    forall seg <- segs :: seg.from.Some? ==> seg.from.value.snapshot != ""
  }

  lemma {:induction false} ApplyExact(tree: Tree, mode: Mode, source: Store, dest: Store, segs: seq<Segment>, envs: seq<Env>)
    requires |segs| == |envs| && Setting(tree, source, dest)
    requires Follow(segs) && DistinctFilesystems(segs) && OriginsNamed(segs)
    requires forall i :: 0 <= i < |segs| ==> Smooth(source, segs[i], envs[i])
    requires segs != [] && segs[0].from.Some? ==> segs[0].from.value.fs != segs[0].fs && Holds(dest, segs[0].from.value)
    ensures ApplySegments(mode, source, dest, segs, envs).ok <==> AllWanted(source, dest, segs)
    decreases segs
  {
    if segs == [] {
    } else {
      var t := TransferOne(mode, source, dest, segs[0], envs[0]);
      SmoothTransfer(tree, mode, source, dest, segs[0], envs[0]);
      TransferOneSound(tree, mode, source, dest, segs[0], envs[0]);
      if t.ok {
        var later := segs[1..];
        if later != [] {
          assert later[0] == segs[1] && segs[1] in segs;
          TargetHeld(source, t.dest, segs[0].fs, segs[0].target);
        }
        ApplyExact(tree, mode, source, t.dest, later, envs[1..]);
        LaterUntouched(source, dest, t.dest, segs);
      } else {
        assert segs[0] in segs;
      }
    }
  }

  /** The transfer of the first filesystem makes no difference to what is wanted of the others. */
  lemma LaterUntouched(source: Store, dest: Store, dest': Store, segs: seq<Segment>)
    requires segs != [] && DistinctFilesystems(segs) && GrewAt(dest, dest', segs[0].fs)
    ensures AllWanted(source, dest, segs) <==> Wanted(source, dest, segs[0]) && AllWanted(source, dest', segs[1..])
  {
    var later := segs[1..];
    assert segs == [segs[0]] + later;
    forall seg | seg in later ensures Wanted(source, dest', seg) <==> Wanted(source, dest, seg) {
      var i :| 0 <= i < |later| && later[i] == seg;
      assert segs[i + 1] == seg && Get(dest', seg.fs) == Get(dest, seg.fs);
    }
  }

  /** Only the filesystems of the segments change. */
  lemma {:induction false} OthersKept(tree: Tree, mode: Mode, source: Store, dest: Store, segs: seq<Segment>, envs: seq<Env>, g: FsId)
    requires |segs| == |envs| && Setting(tree, source, dest) && forall seg <- segs :: seg.fs != g
    ensures Get(ApplySegments(mode, source, dest, segs, envs).dest, g) == Get(dest, g)
    decreases segs
  {
    if segs == [] {
    } else {
      assert segs[0] in segs && forall seg <- segs[1..] :: seg in segs;
      TransferOneSound(tree, mode, source, dest, segs[0], envs[0]);
      OthersKept(tree, mode, source, TransferOne(mode, source, dest, segs[0], envs[0]).dest, segs[1..], envs[1..], g);
    }
  }

  lemma {:induction false} ApplyLeaves(tree: Tree, mode: Mode, source: Store, dest: Store, segs: seq<Segment>, envs: seq<Env>, k: nat)
    requires |segs| == |envs| && Setting(tree, source, dest) && k < |segs|
    requires Follow(segs) && DistinctFilesystems(segs) && OriginsNamed(segs)
    requires forall i :: 0 <= i < |segs| ==> Smooth(source, segs[i], envs[i])
    requires segs[0].from.Some? ==> segs[0].from.value.fs != segs[0].fs && Holds(dest, segs[0].from.value)
    requires ApplySegments(mode, source, dest, segs, envs).ok
    ensures Goal(source, segs[k]).Some? && Goal(source, segs[k]).value in Get(source, segs[k].fs)
    ensures Get(ApplySegments(mode, source, dest, segs, envs).dest, segs[k].fs) == UpTo(source, segs[k].fs, Goal(source, segs[k]).value)
    decreases segs
  {
    var t := TransferOne(mode, source, dest, segs[0], envs[0]);
    SmoothEnds(tree, mode, source, dest, segs[0], envs[0]);
    TransferOneSound(tree, mode, source, dest, segs[0], envs[0]);
    if k == 0 {
      FirstIsKept(tree, mode, source, t.dest, segs, envs);
    } else {
      var later := segs[1..];
      LaterSetting(source, segs, envs);
      TargetHeld(source, t.dest, segs[0].fs, segs[0].target);
      ApplyLeaves(tree, mode, source, t.dest, later, envs[1..], k - 1);
    }
  }

  lemma FirstIsKept(tree: Tree, mode: Mode, source: Store, dest: Store, segs: seq<Segment>, envs: seq<Env>)
    requires |segs| == |envs| > 0 && Setting(tree, source, dest) && DistinctFilesystems(segs)
    ensures Get(ApplySegments(mode, source, dest, segs[1..], envs[1..]).dest, segs[0].fs) == Get(dest, segs[0].fs)
  {
    assert forall seg <- segs[1..] :: seg.fs != segs[0].fs;
    OthersKept(tree, mode, source, dest, segs[1..], envs[1..], segs[0].fs);
  }

  lemma LaterSetting(source: Store, segs: seq<Segment>, envs: seq<Env>)
    requires |segs| == |envs| > 1
    requires Follow(segs) && DistinctFilesystems(segs) && OriginsNamed(segs)
    requires forall i :: 0 <= i < |segs| ==> Smooth(source, segs[i], envs[i])
    ensures Follow(segs[1..]) && DistinctFilesystems(segs[1..]) && OriginsNamed(segs[1..])
    ensures forall i :: 0 <= i < |segs| - 1 ==> Smooth(source, segs[1..][i], envs[1..][i])
    ensures segs[1..][0] == segs[1] && segs[1].from == Some(Origin(segs[0].fs, segs[0].target)) && segs[0].target != ""
    ensures segs[0].fs != segs[1].fs
  {
    assert segs[1] in segs && forall seg <- segs[1..] :: seg in segs;
    forall i {:trigger segs[1..][i]} | 0 < i < |segs| - 1
      ensures segs[1..][i].from == Some(Origin(segs[1..][i - 1].fs, segs[1..][i - 1].target))
    {
      assert segs[1..][i] == segs[i + 1] && segs[1..][i - 1] == segs[i];
    }
  }

  /** When nothing goes wrong, a deduced path is transferred exactly when, for each filesystem
      on it, the destination's list is part of what is needed of the source's: having more
      than the origin of the next branch is enough to make it fail. */
  lemma ApplyPathExact(tree: Tree, mode: Mode, source: Store, dest: Store, w: World, c: ClusterId,
                       name: VolumeName, branch: BranchName, path: Path, envs: seq<Env>)
    requires Setting(tree, source, dest) && |envs| == 1 + |path.clones|
    requires Inv(w) && c in w.regs && Deduces(w.regs[c], name, branch, path)
    requires forall x <- path.clones :: x.clone.origin.snapshot != ""
    requires forall i :: 0 <= i <= |path.clones| ==> Smooth(source, SegmentsOf(path)[i], envs[i])
    ensures ApplySegments(mode, source, dest, SegmentsOf(path), envs).ok <==> AllWanted(source, dest, SegmentsOf(path))
  {
    DeducedPathOk(w.births, w.regs[c], name, branch, path);
    PathFollows(path);
    DeducedIdsDistinct(w.births, w.regs[c], name, branch, path);
    PathOriginsNamed(path);
    ApplyExact(tree, mode, source, dest, SegmentsOf(path), envs);
  }

  lemma PathOriginsNamed(path: Path)
    requires forall x <- path.clones :: x.clone.origin.snapshot != ""
    ensures OriginsNamed(SegmentsOf(path))
  {
    var segs := SegmentsOf(path);
    forall i | 0 <= i < |segs| ensures segs[i].from.Some? ==> segs[i].from.value.snapshot != "" {
      if i > 0 { assert path.clones[i - 1] in path.clones; }
    }
  }

  lemma DeducedIdsDistinct(births: seq<Birth>, r: Reg, name: VolumeName, branch: BranchName, path: Path)
    requires BirthsOk(births) && Truthful(births, r) && Deduces(r, name, branch, path)
    ensures DistinctFilesystems(SegmentsOf(path))
  {
    TruthfulIsOrderly(births, r);
    var segs := SegmentsOf(path);
    forall i, j | 0 <= i < j < |segs| ensures segs[i].fs != segs[j].fs {
      SegmentsGetYounger(r, Age(births), path, i, j);
    }
  }

  lemma SegmentsGetYounger(r: Reg, age: FsId -> nat, path: Path, i: nat, j: nat)
    requires Aged(r, age) && IsChain(r, path.topLevelId, path.clones) && i < j <= |path.clones|
    ensures age(SegmentAt(path, i).fs) < age(SegmentAt(path, j).fs)
  {
    if i > 0 {
      ChainGetsYounger(r, age, path.topLevelId, path.clones, i - 1, j - 1);
    } else {
      FirstIsOldest(r, age, path.topLevelId, path.clones, j - 1);
    }
  }

  lemma FirstIsOldest(r: Reg, age: FsId -> nat, tl: FsId, cs: seq<CloneWithName>, j: nat)
    requires Aged(r, age) && IsChain(r, tl, cs) && j < |cs|
    ensures age(tl) < age(cs[j].clone.id)
  {
    var t :| Registered(r, t, cs[0].name, cs[0].clone);
    if j > 0 { ChainGetsYounger(r, age, tl, cs, 0, j); }
  }

  // ---------------------------------------------------------------------------
  // The same in terms of the path
  // ---------------------------------------------------------------------------

  /** No fault, lists up to date, every snapshot announced. */
  ghost predicate Untroubled(source: Store, a: Attempt) {
    !a.fault && a.lag == 0 && forall fs :: |Get(source, fs)| <= a.announced
  }

  ghost predicate AllSmooth(source: Store, env: Env) {
    && Untroubled(source, env.check) && (forall a <- env.attempts :: Untroubled(source, a))
    && env.attempts != [] && env.mounts && env.reports
  }

  /** What the destination may have of the filesystem before the i-th branch: no more than leads to
      the snapshot the branch was taken from. */
  ghost predicate LeadsToBranch(source: Store, dest: Store, path: Path, i: nat)
    requires i < |path.clones|
  {
    var fs := EndOf(path.topLevelId, path.clones[..i]);
    var x := path.clones[i].clone.origin.snapshot;
    x in Get(source, fs) && Get(dest, fs) <= UpTo(source, fs, x)
  }

  lemma SegmentOfPath(path: Path, i: nat)
    requires i <= |path.clones|
    ensures var seg := SegmentsOf(path)[i];
            && seg.fs == EndOf(path.topLevelId, path.clones[..i])
            && seg.target == (if i < |path.clones| then path.clones[i].clone.origin.snapshot else "")
  {
  }

  lemma WantedAt(tree: Tree, source: Store, dest: Store, path: Path, i: nat)
    requires Setting(tree, source, dest) && i <= |path.clones|
    requires forall x <- path.clones :: x.clone.origin.snapshot != ""
    ensures i < |path.clones| ==> (Wanted(source, dest, SegmentsOf(path)[i]) <==> LeadsToBranch(source, dest, path, i))
    ensures i == |path.clones| ==>
              var leaf := EndOf(path.topLevelId, path.clones);
              && (Wanted(source, dest, SegmentsOf(path)[i]) <==> Get(source, leaf) != [] && Get(dest, leaf) <= Get(source, leaf))
              && Goal(source, SegmentsOf(path)[i]) == Tip(Get(source, leaf))
  {
    SegmentOfPath(path, i);
    if i < |path.clones| {
      assert path.clones[i] in path.clones;
    } else {
      assert path.clones[..i] == path.clones;
      var leaf := EndOf(path.topLevelId, path.clones);
      if Get(source, leaf) != [] { AllUpToLast(tree, source, leaf); }
    }
  }

  lemma AllUpToLast(tree: Tree, source: Store, fs: FsId)
    requires IsHistory(tree, Get(source, fs)) && Get(source, fs) != []
    ensures UpTo(source, fs, Last(Get(source, fs))) == Get(source, fs)
  {
    HistoryDistinct(tree, Get(source, fs));
    IndexOfDistinct(Get(source, fs), |Get(source, fs)| - 1);
  }

  lemma AllWantedAlongPath(tree: Tree, source: Store, dest: Store, path: Path)
    requires Setting(tree, source, dest) && forall x <- path.clones :: x.clone.origin.snapshot != ""
    ensures var leaf := EndOf(path.topLevelId, path.clones);
            AllWanted(source, dest, SegmentsOf(path)) <==>
              && (forall i :: 0 <= i < |path.clones| ==> LeadsToBranch(source, dest, path, i))
              && Get(source, leaf) != [] && Get(dest, leaf) <= Get(source, leaf)
  {
    var segs := SegmentsOf(path);
    forall i | 0 <= i <= |path.clones|
      ensures i < |path.clones| ==> (Wanted(source, dest, segs[i]) <==> LeadsToBranch(source, dest, path, i))
    {
      WantedAt(tree, source, dest, path, i);
    }
    WantedAt(tree, source, dest, path, |path.clones|);
    if AllWanted(source, dest, segs) {
      forall i | 0 <= i < |segs| ensures Wanted(source, dest, segs[i]) { assert segs[i] in segs; }
    }
  }

  /** When nothing goes wrong: a deduced path is transferred if and only if, for every filesystem
      before the last, the destination has no more than leads to the origin of the next branch,
      and of the last, which must have a snapshot, nothing the source does not have.  Then it has
      all of the last, to its newest snapshot, and of the others all up to those origins. */
  lemma PathReachesLeaf(tree: Tree, mode: Mode, source: Store, dest: Store, w: World, c: ClusterId,
                        name: VolumeName, branch: BranchName, path: Path, envs: seq<Env>)
    requires Setting(tree, source, dest) && |envs| == 1 + |path.clones| && forall env <- envs :: AllSmooth(source, env)
    requires Inv(w) && c in w.regs && Deduces(w.regs[c], name, branch, path)
    requires forall x <- path.clones :: x.clone.origin.snapshot != ""
    ensures var r, leaf := ApplySegments(mode, source, dest, SegmentsOf(path), envs), EndOf(path.topLevelId, path.clones);
            && (r.ok <==>
                  && (forall i :: 0 <= i < |path.clones| ==> LeadsToBranch(source, dest, path, i))
                  && Get(source, leaf) != [] && Get(dest, leaf) <= Get(source, leaf))
            && (r.ok ==> Get(r.dest, leaf) == Get(source, leaf))
            && (r.ok ==> forall i :: 0 <= i < |path.clones| ==>
                  var fs := EndOf(path.topLevelId, path.clones[..i]);
                  && path.clones[i].clone.origin.snapshot in Get(source, fs)
                  && Get(r.dest, fs) == UpTo(source, fs, path.clones[i].clone.origin.snapshot))
  {
    var segs := SegmentsOf(path);
    forall i | 0 <= i < |segs| ensures Smooth(source, segs[i], envs[i]) { EnvSmooth(source, segs[i], envs, i); }
    ApplyPathExact(tree, mode, source, dest, w, c, name, branch, path, envs);
    AllWantedAlongPath(tree, source, dest, path);
    var r := ApplySegments(mode, source, dest, segs, envs);
    if r.ok {
      DeducedPathOk(w.births, w.regs[c], name, branch, path);
      PathFollows(path);
      DeducedIdsDistinct(w.births, w.regs[c], name, branch, path);
      PathOriginsNamed(path);
      forall i | 0 <= i < |path.clones|
        ensures var fs := EndOf(path.topLevelId, path.clones[..i]);
                && path.clones[i].clone.origin.snapshot in Get(source, fs)
                && Get(r.dest, fs) == UpTo(source, fs, path.clones[i].clone.origin.snapshot)
      {
        assert path.clones[i] in path.clones;
        SegmentOfPath(path, i);
        ApplyLeaves(tree, mode, source, dest, segs, envs, i);
      }
      LeafArrives(tree, mode, source, dest, path, envs);
    }
  }

  lemma EnvSmooth(source: Store, seg: Segment, envs: seq<Env>, i: nat)
    requires i < |envs| && forall env <- envs :: AllSmooth(source, env)
    ensures Smooth(source, seg, envs[i])
  {
    assert envs[i] in envs && AllSmooth(source, envs[i]);
  }

  lemma LeafArrives(tree: Tree, mode: Mode, source: Store, dest: Store, path: Path, envs: seq<Env>)
    requires Setting(tree, source, dest) && |envs| == 1 + |path.clones| && forall env <- envs :: AllSmooth(source, env)
    requires forall x <- path.clones :: x.clone.origin.snapshot != ""
    requires Follow(SegmentsOf(path)) && DistinctFilesystems(SegmentsOf(path)) && OriginsNamed(SegmentsOf(path))
    requires ApplySegments(mode, source, dest, SegmentsOf(path), envs).ok
    ensures var leaf := EndOf(path.topLevelId, path.clones);
            Get(ApplySegments(mode, source, dest, SegmentsOf(path), envs).dest, leaf) == Get(source, leaf)
  {
    var segs, n := SegmentsOf(path), |path.clones|;
    forall i | 0 <= i < |segs| ensures Smooth(source, segs[i], envs[i]) { EnvSmooth(source, segs[i], envs, i); }
    SegmentOfPath(path, n);
    WantedAt(tree, source, dest, path, n);
    ApplyLeaves(tree, mode, source, dest, segs, envs, n);
    assert path.clones[..n] == path.clones;
    AllUpToLast(tree, source, EndOf(path.topLevelId, path.clones));
  }

  /** A peer that is up to date with the volume, and so has the origin, cannot be sent a branch
      that was taken from an older snapshot of it. */
  lemma PeerAheadOfOrigin(env: Env)
    requires Smooth(map["v" := ["a", "b"], "x" := ["c"]], Segment(None, "v", "a"), env)
    requires Smooth(map["v" := ["a", "b"], "x" := ["c"]], Segment(Some(Origin("v", "a")), "x", ""), env)
    ensures var source: Store, dest: Store := map["v" := ["a", "b"], "x" := ["c"]], map["v" := ["a", "b"]];
            var path := Path("v", V, [CloneWithName("x", Clone("x", Origin("v", "a")))]);
            && Holds(dest, Origin("v", "a"))
            && !ApplySegments(Pushing, source, dest, SegmentsOf(path), [env, env]).ok
  {
    var source: Store, dest: Store := map["v" := ["a", "b"], "x" := ["c"]], map["v" := ["a", "b"]];
    var tree: Tree := map["a" := None, "b" := Some("a"), "c" := None];
    var path := Path("v", V, [CloneWithName("x", Clone("x", Origin("v", "a")))]);
    var segs := SegmentsOf(path);
    assert ["a", "b"][..1] == ["a"] && ["a"][..0] == [] && ["c"][..0] == [];
    assert IsHistory(tree, ["a"]) && IsHistory(tree, ["a", "b"]) && IsHistory(tree, ["c"]);
    assert segs[0] == Segment(None, "v", "a") && segs[1] == Segment(Some(Origin("v", "a")), "x", "");
    SmoothTransfer(tree, Pushing, source, dest, segs[0], env);
    assert UpTo(source, "v", "a") == ["a"];
    assert Get(dest, "v")[0] == "a" && |Get(dest, "v")| == 2;
  }
}
