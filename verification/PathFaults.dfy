/** When the transfer of a whole path succeeds, whatever faults there are: the exact conditions of
    Transfer.dfy, put together along the path.
  */
module PathFaults {
  import opened Snapshots
  import opened Registries
  import opened RegistryWorld
  import opened Transfers
  import opened PathTransfers

  /** The first attempt that has a target: at once if one is given, else when a snapshot is announced. */
  function FirstPin(source: Store, fs: FsId, target: SnapshotId, attempts: seq<Attempt>): (k: Option<nat>)
    ensures k.Some? ==> k.value < |attempts| && Pinned(source, fs, target, attempts[k.value]).Some?
  {
    if attempts == [] then None
    else if Pinned(source, fs, target, attempts[0]).Some? then Some(0)
    else
      match FirstPin(source, fs, target, attempts[1..])
      case None => None
      case Some(k) => Some(k + 1)
  }

  /** The attempts from the first that has a target, and that target. */
  function PinnedAt(source: Store, seg: Segment, attempts: seq<Attempt>, k: nat): SnapshotId
    requires FirstPin(source, seg.fs, seg.target, attempts) == Some(k)
  {
    Pinned(source, seg.fs, seg.target, attempts[k]).value
  }

  ghost predicate PushGoes(source: Store, dest: Store, seg: Segment, attempts: seq<Attempt>) {
    match FirstPin(source, seg.fs, seg.target, attempts)
    case None => false
    case Some(k) =>
      var t := PinnedAt(source, seg, attempts, k);
      t in Get(source, seg.fs) &&
      exists i :: 0 <= i < |attempts[k..]| && Decides(source, dest, seg.from, seg.fs, t, attempts[k..], i)
  }

  ghost predicate PullGoes(source: Store, dest: Store, seg: Segment, check: Attempt, attempts: seq<Attempt>) {
    match Pinned(source, seg.fs, seg.target, check)
    case None => false
    case Some(t) =>
      var now := Get(dest, seg.fs);
      var seen := Lagging(now, check.lag);
      && !check.fault && t in Prefix(Get(source, seg.fs), check.announced) && t in Get(source, seg.fs)
      && (seen == UpTo(source, seg.fs, t) ||
          (seen == now && Transferable(source, dest, seg.from, seg.fs, t) && CleanStart(attempts)))
  }

  ghost predicate SegmentGoes(mode: Mode, source: Store, dest: Store, seg: Segment, env: Env) {
    match mode
    case Pushing => PushGoes(source, dest, seg, env.attempts)
    case Pulling => PullGoes(source, dest, seg, env.check, env.attempts)
  }

  lemma {:induction false} PushFromPin(source: Store, dest: Store, seg: Segment, attempts: seq<Attempt>)
    ensures var k := FirstPin(source, seg.fs, seg.target, attempts);
            && (k.None? ==> !Push(source, dest, seg.from, seg.fs, seg.target, attempts).ok)
            && (k.Some? ==> Push(source, dest, seg.from, seg.fs, seg.target, attempts) ==
                            Push(source, dest, seg.from, seg.fs, PinnedAt(source, seg, attempts, k.value), attempts[k.value..]))
    decreases attempts
  {
    if attempts == [] {
    } else if Pinned(source, seg.fs, seg.target, attempts[0]).Some? {
      PinnedAtOnce(source, dest, seg, attempts);
    } else {
      PushFromPin(source, dest, seg, attempts[1..]);
      var k := FirstPin(source, seg.fs, seg.target, attempts[1..]);
      if k.Some? { assert attempts[1..][k.value..] == attempts[k.value + 1..]; }
      assert PushAttempt(source, dest, seg.from, seg.fs, seg.target, attempts[0]) == Transfer(false, dest, seg.target);
    }
  }

  lemma PinnedAtOnce(source: Store, dest: Store, seg: Segment, attempts: seq<Attempt>)
    requires attempts != [] && Pinned(source, seg.fs, seg.target, attempts[0]).Some?
    ensures FirstPin(source, seg.fs, seg.target, attempts) == Some(0) && attempts[0..] == attempts
    ensures Push(source, dest, seg.from, seg.fs, seg.target, attempts) ==
            Push(source, dest, seg.from, seg.fs, Pinned(source, seg.fs, seg.target, attempts[0]).value, attempts)
  {
    var t := Pinned(source, seg.fs, seg.target, attempts[0]).value;
    if seg.target == "" {
      assert Pinned(source, seg.fs, t, attempts[0]) == Some(t);
      assert PushAttempt(source, dest, seg.from, seg.fs, "", attempts[0]) == PushAttempt(source, dest, seg.from, seg.fs, t, attempts[0]);
    }
  }

  lemma PinNamed(tree: Tree, source: Store, fs: FsId, target: SnapshotId, a: Attempt)
    requires IsHistory(tree, Get(source, fs)) && "" !in tree && Pinned(source, fs, target, a).Some?
    ensures Pinned(source, fs, target, a).value != ""
  {
    TargetNamed(tree, Get(source, fs), a.announced);
  }

  lemma SegmentExact(tree: Tree, mode: Mode, source: Store, dest: Store, seg: Segment, env: Env)
    requires Setting(tree, source, dest)
    requires seg.from.Some? ==> seg.from.value.fs != seg.fs
    ensures TransferOne(mode, source, dest, seg, env).ok <==> SegmentGoes(mode, source, dest, seg, env)
  {
    match mode
    case Pushing =>
      var k := FirstPin(source, seg.fs, seg.target, env.attempts);
      PushFromPin(source, dest, seg, env.attempts);
      if k.Some? {
        PinNamed(tree, source, seg.fs, seg.target, env.attempts[k.value]);
        PushExact(tree, source, dest, seg.from, seg.fs, PinnedAt(source, seg, env.attempts, k.value), env.attempts[k.value..]);
      }
    case Pulling =>
      var t := Pinned(source, seg.fs, seg.target, env.check);
      if t.Some? {
        PinNamed(tree, source, seg.fs, seg.target, env.check);
        assert Pinned(source, seg.fs, t.value, env.check) == t;
        PullRecovers(tree, source, dest, seg.from, seg.fs, t.value, env.check, env.attempts);
      }
  }

  /** The destination when the transfer of a segment begins. */
  function DestAt(mode: Mode, source: Store, dest: Store, segs: seq<Segment>, envs: seq<Env>, i: nat): Store
    requires i <= |segs| == |envs|
  {
    ApplySegments(mode, source, dest, segs[..i], envs[..i]).dest
  }

  lemma DestAtTail(mode: Mode, source: Store, dest: Store, segs: seq<Segment>, envs: seq<Env>, i: nat)
    requires 0 < i <= |segs| == |envs|
    requires var t := TransferOne(mode, source, dest, segs[0], envs[0]); t.ok && envs[0].mounts && envs[0].reports
    ensures DestAt(mode, source, dest, segs, envs, i) ==
            DestAt(mode, source, TransferOne(mode, source, dest, segs[0], envs[0]).dest, segs[1..], envs[1..], i - 1)
  {
    assert segs[..i][1..] == segs[1..][..i - 1] && envs[..i][1..] == envs[1..][..i - 1];
  }

  ghost predicate GoesAt(mode: Mode, source: Store, dest: Store, segs: seq<Segment>, envs: seq<Env>, i: nat)
    requires i < |segs| == |envs|
  {
    SegmentGoes(mode, source, DestAt(mode, source, dest, segs, envs, i), segs[i], envs[i]) && envs[i].mounts && envs[i].reports
  }

  ghost predicate OriginsElsewhere(segs: seq<Segment>) {
    forall seg <- segs :: seg.from.Some? ==> seg.from.value.fs != seg.fs
  }

  lemma GoesTail(mode: Mode, source: Store, dest: Store, segs: seq<Segment>, envs: seq<Env>)
    requires |segs| == |envs| > 0
    requires var t := TransferOne(mode, source, dest, segs[0], envs[0]); t.ok && envs[0].mounts && envs[0].reports
    ensures var t := TransferOne(mode, source, dest, segs[0], envs[0]);
            (forall i :: 0 < i < |segs| ==> GoesAt(mode, source, dest, segs, envs, i)) <==>
            (forall i :: 0 <= i < |segs| - 1 ==> GoesAt(mode, source, t.dest, segs[1..], envs[1..], i))
  {
    var t := TransferOne(mode, source, dest, segs[0], envs[0]);
    forall i | 0 <= i < |segs| - 1
      ensures GoesAt(mode, source, dest, segs, envs, i + 1) <==> GoesAt(mode, source, t.dest, segs[1..], envs[1..], i)
    {
      DestAtTail(mode, source, dest, segs, envs, i + 1);
    }
    if forall i :: 0 <= i < |segs| - 1 ==> GoesAt(mode, source, t.dest, segs[1..], envs[1..], i) {
      forall i | 0 < i < |segs| ensures GoesAt(mode, source, dest, segs, envs, i) {
        assert GoesAt(mode, source, t.dest, segs[1..], envs[1..], i - 1);
      }
    }
  }

  lemma {:induction false} ApplyWithFaults(tree: Tree, mode: Mode, source: Store, dest: Store, segs: seq<Segment>, envs: seq<Env>)
    requires |segs| == |envs| && Setting(tree, source, dest) && OriginsElsewhere(segs)
    ensures ApplySegments(mode, source, dest, segs, envs).ok <==> forall i :: 0 <= i < |segs| ==> GoesAt(mode, source, dest, segs, envs, i)
    decreases segs
  {
    if segs == [] {
    } else {
      var t := TransferOne(mode, source, dest, segs[0], envs[0]);
      assert segs[..0] == [] && envs[..0] == [];
      assert DestAt(mode, source, dest, segs, envs, 0) == dest;
      assert segs[0] in segs;
      SegmentExact(tree, mode, source, dest, segs[0], envs[0]);
      TransferOneSound(tree, mode, source, dest, segs[0], envs[0]);
      if t.ok && envs[0].mounts && envs[0].reports {
        ApplyWithFaults(tree, mode, source, t.dest, segs[1..], envs[1..]);
        GoesTail(mode, source, dest, segs, envs);
        assert GoesAt(mode, source, dest, segs, envs, 0);
      } else {
        assert !GoesAt(mode, source, dest, segs, envs, 0);
      }
    }
  }

  /** A deduced path, any faults, lists of any age: the transfer succeeds if and only if, for every
      filesystem on the path, the exact condition of its own transfer holds of the destination as
      the ones before leave it. */
  lemma ApplyPathWithFaults(tree: Tree, mode: Mode, source: Store, dest: Store, w: World, c: ClusterId,
                            name: VolumeName, branch: BranchName, path: Path, envs: seq<Env>)
    requires Setting(tree, source, dest) && |envs| == 1 + |path.clones|
    requires Inv(w) && c in w.regs && Deduces(w.regs[c], name, branch, path)
    ensures ApplySegments(mode, source, dest, SegmentsOf(path), envs).ok <==>
              forall i :: 0 <= i <= |path.clones| ==> GoesAt(mode, source, dest, SegmentsOf(path), envs, i)
  {
    DeducedPathOk(w.births, w.regs[c], name, branch, path);
    DeducedOriginsElsewhere(w.births, w.regs[c], name, branch, path);
    ApplyWithFaults(tree, mode, source, dest, SegmentsOf(path), envs);
  }

  lemma DeducedOriginsElsewhere(births: seq<Birth>, r: Reg, name: VolumeName, branch: BranchName, path: Path)
    requires BirthsOk(births) && Truthful(births, r) && Deduces(r, name, branch, path)
    ensures OriginsElsewhere(SegmentsOf(path))
  {
    var segs := SegmentsOf(path);
    DeducedPathOk(births, r, name, branch, path);
    DeducedIdsDistinct(births, r, name, branch, path);
    PathFollows(path);
    forall i | 0 <= i < |segs| ensures segs[i].from.Some? ==> segs[i].from.value.fs != segs[i].fs {
      if i > 0 { assert segs[i].from.value.fs == segs[i - 1].fs; }
    }
  }

  // ---------------------------------------------------------------------------
  // Pushing to peers that load their lists now and then
  // ---------------------------------------------------------------------------

  /** The peer reports the list of this filesystem that it loaded last, the first time a current one. */
  ghost predicate FromPeer(source: Store, dest: Store, seg: Segment, env: Env, reloads: seq<bool>) {
    match FirstPin(source, seg.fs, seg.target, env.attempts)
    case None => true
    case Some(k) =>
      PeerReports(source, dest, seg.from, seg.fs, PinnedAt(source, seg, env.attempts, k), env.attempts[k..], reloads, Get(dest, seg.fs))
  }

  /** Possible, and tried without a fault once the peer has loaded its list since anything arrived. */
  ghost predicate Recovers(source: Store, dest: Store, seg: Segment, env: Env, reloads: seq<bool>)
    requires FromPeer(source, dest, seg, env, reloads)
  {
    match FirstPin(source, seg.fs, seg.target, env.attempts)
    case None => false
    case Some(k) =>
      var t, attempts := PinnedAt(source, seg, env.attempts, k), env.attempts[k..];
      && Transferable(source, dest, seg.from, seg.fs, t)
      && exists i :: 0 <= i < |attempts| && !attempts[i].fault && LoadedSince(source, dest, seg.from, seg.fs, t, attempts, reloads, i)
  }

  lemma PushGoesIffRecovers(tree: Tree, source: Store, dest: Store, seg: Segment, env: Env, reloads: seq<bool>)
    requires Setting(tree, source, dest) && FromPeer(source, dest, seg, env, reloads)
    requires seg.from.Some? ==> seg.from.value.fs != seg.fs
    ensures PushGoes(source, dest, seg, env.attempts) <==> Recovers(source, dest, seg, env, reloads)
  {
    var k := FirstPin(source, seg.fs, seg.target, env.attempts);
    if k.Some? {
      PinNamed(tree, source, seg.fs, seg.target, env.attempts[k.value]);
      var t, attempts := PinnedAt(source, seg, env.attempts, k.value), env.attempts[k.value..];
      PushExact(tree, source, dest, seg.from, seg.fs, t, attempts);
      PushRecovers(tree, source, dest, seg.from, seg.fs, t, attempts, reloads);
    }
  }

  /** Likewise for a path pushed to such a peer: it succeeds if and only if every segment recovers
      from its faults in time. */
  lemma PushedPathRecovers(tree: Tree, source: Store, dest: Store, w: World, c: ClusterId,
                           name: VolumeName, branch: BranchName, path: Path, envs: seq<Env>, reloads: seq<seq<bool>>)
    requires Setting(tree, source, dest) && |envs| == |reloads| == 1 + |path.clones|
    requires Inv(w) && c in w.regs && Deduces(w.regs[c], name, branch, path)
    requires forall i :: 0 <= i <= |path.clones| ==>
      FromPeer(source, DestAt(Pushing, source, dest, SegmentsOf(path), envs, i), SegmentsOf(path)[i], envs[i], reloads[i])
    ensures ApplySegments(Pushing, source, dest, SegmentsOf(path), envs).ok <==>
              forall i :: 0 <= i <= |path.clones| ==>
                && Recovers(source, DestAt(Pushing, source, dest, SegmentsOf(path), envs, i), SegmentsOf(path)[i], envs[i], reloads[i])
                && envs[i].mounts && envs[i].reports
  {
    var segs := SegmentsOf(path);
    ApplyPathWithFaults(tree, Pushing, source, dest, w, c, name, branch, path, envs);
    DeducedOriginsElsewhere(w.births, w.regs[c], name, branch, path);
    forall i | 0 <= i <= |path.clones|
      ensures GoesAt(Pushing, source, dest, segs, envs, i) <==>
                && Recovers(source, DestAt(Pushing, source, dest, segs, envs, i), segs[i], envs[i], reloads[i])
                && envs[i].mounts && envs[i].reports
    {
      DestAtKeepsSetting(tree, Pushing, source, dest, segs, envs, i);
      assert segs[i] in segs;
      PushGoesIffRecovers(tree, source, DestAt(Pushing, source, dest, segs, envs, i), segs[i], envs[i], reloads[i]);
    }
  }

  lemma {:induction false} DestAtKeepsSetting(tree: Tree, mode: Mode, source: Store, dest: Store, segs: seq<Segment>, envs: seq<Env>, i: nat)
    requires i <= |segs| == |envs| && Setting(tree, source, dest)
    ensures Setting(tree, source, DestAt(mode, source, dest, segs, envs, i))
    decreases i
  {
    if i == 0 {
      assert segs[..0] == [] && envs[..0] == [];
    } else {
      TransferOneSound(tree, mode, source, dest, segs[0], envs[0]);
      var t := TransferOne(mode, source, dest, segs[0], envs[0]);
      assert segs[..i][0] == segs[0] && envs[..i][0] == envs[0];
      if t.ok && envs[0].mounts && envs[0].reports {
        DestAtTail(mode, source, dest, segs, envs, i);
        DestAtKeepsSetting(tree, mode, source, t.dest, segs[1..], envs[1..], i - 1);
      }
    }
  }
}
