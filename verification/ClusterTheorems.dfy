/** The results about whole runs of the cluster. */
module ClusterTheorems {
  import opened Snapshots
  import opened Cluster
  import opened ClusterSafety

  lemma InitHolds(s: State)
    requires Init(s)
    ensures Inv(s)
  {
  }

  lemma StepKeeps(s: State, step: Step)
    requires Inv(s) && Enabled(s, step) && InTurn(s, step)
    ensures Inv(Perform(s, step))
  {
    match step
    case Claim(_) => ClaimKeeps(s, step);
    case Watch(_) => WatchKeeps(s, step);
    case HandleMaster(_, _, _) => HandleMasterKeeps(s, step);
    case HandleCreate(_, _, _) => HandleCreateKeeps(s, step);
    case Commit(_, _, _, _) => CommitKeeps(s, step);
    case Rollback(_, _, _, _, _) => RollbackKeeps(s, step);
    case Move(_, _, _) => MoveKeeps(s, step);
    case HandoffUnmount(_, _) => HandoffUnmountKeeps(s, step);
    case HandoffSnapshot(_, _, _, _) => HandoffSnapshotKeeps(s, step);
    case HandoffCheck(_, _) => HandoffCheckKeeps(s, step);
    case HandoffSwitch(_, _) => HandoffSwitchKeeps(s, step);
    case StartReceive(_, _) => StartReceiveKeeps(s, step);
    case FinishReceive(_, _) => FinishReceiveKeeps(s, step);
    case BackOff(_) => BackOffKeeps(s, step);
    case Discover(_) => DiscoverKeeps(s, step);
    case Announce(_) => AnnounceKeeps(s, step);
  }

  lemma {:induction false} RunKeeps(s: State, steps: seq<Step>)
    requires Init(s) && Run(s, steps).Some? && InOrder(s, steps)
    ensures Inv(Run(s, steps).value)
  {
    if steps == [] {
      InitHolds(s);
    } else {
      RunKeeps(s, steps[..|steps| - 1]);
      StepKeeps(Run(s, steps[..|steps| - 1]).value, Last(steps));
    }
  }

  // ---------------------------------------------------------------------------
  // Safety in every state of every run with in-order delivery
  // ---------------------------------------------------------------------------

  /** The filesystem is mounted nowhere but on the node the masters key names. */
  ghost predicate Exclusion(s: State) {
    forall n <- s.nodes :: s.nodes[n].mounted ==> s.masters != [] && Owner(s) == n
  }

  lemma AtMostOneMount(s: State, steps: seq<Step>)
    requires Init(s) && Run(s, steps).Some? && InOrder(s, steps)
    ensures Exclusion(Run(s, steps).value)
    ensures var t := Run(s, steps).value;
            forall n <- t.nodes, m <- t.nodes :: t.nodes[n].mounted && t.nodes[m].mounted ==> n == m
  {
    RunKeeps(s, steps);
  }

  /** Every acknowledged commit that no rollback has removed is on the current master, the
      acknowledged commits being in commit order there. */
  lemma AcknowledgedCommitsHeld(s: State, steps: seq<Step>)
    requires Init(s) && Run(s, steps).Some? && InOrder(s, steps)
    ensures var t := Run(s, steps).value;
            && (t.masters == [] ==> t.acked == [])
            && (t.masters != [] ==>
                  && Owner(t) in t.nodes
                  && Subsequence(t.acked, t.nodes[Owner(t)].disk)
                  && forall x <- t.acked :: x in t.nodes[Owner(t)].disk)
  {
    RunKeeps(s, steps);
    var t := Run(s, steps).value;
    if t.masters != [] {
      SubsequenceIn(t.acked, t.nodes[Owner(t)].disk);
    }
  }

  /** The only step that forgets an acknowledged commit is a rollback on the master to a
      snapshot before it. */
  lemma OnlyRollbackForgets(s: State, step: Step, x: SnapshotId)
    requires Inv(s) && Enabled(s, step) && InTurn(s, step)
    requires x in s.acked && x !in Perform(s, step).acked
    ensures step.Rollback? && Owner(s) == step.n && step.to in s.nodes[step.n].disk
    ensures var disk := s.nodes[step.n].disk;
            x in disk && IndexOf(disk, step.to) < IndexOf(disk, x)
  {
    assert NodeOk(s.masters, s.tree, step.n, s.nodes[step.n]) && MasterSafe(s);
    if step.Rollback? {
      var disk := s.nodes[step.n].disk;
      SubsequenceIn(s.acked, disk);
      var k := SliceIndex(disk, step.to);
      SurvivingHas(s.acked, disk[..k], x);
      InPrefix(disk, x, k);
    }
  }

  lemma InPrefix(s: seq<SnapshotId>, x: SnapshotId, k: nat)
    requires x in s && k <= |s|
    ensures IndexOf(s, x) < k ==> x in s[..k]
  {
    if IndexOf(s, x) < k { assert s[..k][IndexOf(s, x)] == x; }
  }

  lemma {:induction false} SurvivingHas(acked: seq<SnapshotId>, disk: seq<SnapshotId>, x: SnapshotId)
    ensures x in Surviving(acked, disk) <==> x in acked && x in disk
  {
    if acked == [] {
    } else {
      assert acked == acked[..|acked| - 1] + [Last(acked)];
      SurvivingHas(acked[..|acked| - 1], disk, x);
    }
  }

  /** A list of snapshots that some node holds, remembers or has announced. */
  ghost predicate Known(s: State, list: seq<SnapshotId>) {
    exists n <- s.nodes :: list == s.nodes[n].disk || list == s.nodes[n].mem || list in s.nodes[n].announced
  }

  /** All replicas are paths of one commit tree with one root, so that canApply never finds
      two of them unrelated, however stale the lists are that it is given. */
  lemma ReplicasShareHistory(s: State, steps: seq<Step>, a: seq<SnapshotId>, b: seq<SnapshotId>)
    requires Init(s) && Run(s, steps).Some? && InOrder(s, steps)
    requires Known(Run(s, steps).value, a) && Known(Run(s, steps).value, b)
    ensures IsHistory(Run(s, steps).value.tree, a) && IsHistory(Run(s, steps).value.tree, b)
    ensures CanApplyOutcome(a, b) != NoCommonSnapshots
  {
    RunKeeps(s, steps);
    var t := Run(s, steps).value;
    CanApplyExact(t.tree, a, b);
    if a != [] && b != [] {
      RootOf(t.tree, a);
      RootOf(t.tree, b);
    }
  }

  /** Rolling back never runs into the branch for a snapshot that the state machine does not
      know although ZFS does. */
  lemma RollbackKnowsSnapshot(s: State, steps: seq<Step>, step: Step)
    requires Init(s) && Run(s, steps).Some? && InOrder(s, steps)
    requires step.Rollback? && Enabled(Run(s, steps).value, step)
    requires RollsBack(Run(s, steps).value.nodes[step.n], step.to, step.stopOk, step.zfsOk)
    ensures SliceIndex(Run(s, steps).value.nodes[step.n].mem, step.to) > 0
  {
    RunKeeps(s, steps);
    var t := Run(s, steps).value;
    assert NodeOk(t.masters, t.tree, step.n, t.nodes[step.n]);
  }

  /** The masters key moves to another node only when that node's disk equals the master's. */
  lemma MastershipMovesWithData(s: State, steps: seq<Step>, step: Step)
    requires Init(s) && Run(s, steps).Some? && InOrder(s, steps)
    requires Enabled(Run(s, steps).value, step) && InTurn(Run(s, steps).value, step)
    requires Run(s, steps).value.masters != []
    requires Perform(Run(s, steps).value, step).masters != Run(s, steps).value.masters
    ensures var t := Run(s, steps).value;
            var u := Perform(t, step);
            && step.HandoffSwitch? && step.n == Owner(t)
            && Owner(u) in t.nodes
            && t.nodes[Owner(u)].disk == t.nodes[Owner(t)].disk == u.nodes[Owner(u)].disk
            && forall n <- u.nodes :: !u.nodes[n].mounted
  {
    RunKeeps(s, steps);
    var t := Run(s, steps).value;
    OthersUntouched(t, step);
    SwitchKeepsData(t, step.n);
  }

  /** At the moment of the switch the target has what the master has, and nobody has the
      filesystem mounted. */
  lemma SwitchKeepsData(t: State, n: NodeId)
    requires Inv(t) && n in t.nodes && t.nodes[n].phase.Handoff? && t.nodes[n].phase.step.Switching?
    ensures t.masters != [] && Owner(t) == n
    ensures t.nodes[n].phase.target in t.nodes && t.nodes[t.nodes[n].phase.target].disk == t.nodes[n].disk
    ensures forall m <- t.nodes :: !t.nodes[m].mounted
  {
    assert NodeOk(t.masters, t.tree, n, t.nodes[n]) && MasterSafe(t);
    forall m <- t.nodes ensures !t.nodes[m].mounted {
      assert NodeOk(t.masters, t.tree, m, t.nodes[m]);
    }
  }

  // ---------------------------------------------------------------------------
  // The cluster refines a single filesystem on a single machine
  // ---------------------------------------------------------------------------

  /** What the cluster as a whole holds: the snapshots of its current master. */
  function Contents(s: State): seq<SnapshotId> {
    if s.masters == [] || Owner(s) !in s.nodes then [] else s.nodes[Owner(s)].disk
  }

  /** What a step does to a filesystem that is one list of snapshots: it appends a new
      snapshot, cuts the list back, or leaves it alone. */
  ghost predicate SingleCopyStep(step: Step, before: seq<SnapshotId>, after: seq<SnapshotId>) {
    match step
    case Commit(_, id, zfsOk, _) => after == (if zfsOk then before + [id] else before)
    case HandoffSnapshot(_, id, zfsOk, _) => after == (if zfsOk then before + [id] else before)
    case Rollback(_, to, stopOk, zfsOk, _) =>
      after == (if stopOk && zfsOk && to in before then before[..IndexOf(before, to) + 1] else before)
    case _ => after == before
  }

  /** A step changes no disk but its own node's, and the masters key only by a claim or a switch. */
  lemma OthersUntouched(s: State, step: Step)
    requires Enabled(s, step)
    ensures var t := Perform(s, step);
            && t.nodes.Keys == s.nodes.Keys
            && (forall m <- s.nodes :: m != step.n ==> t.nodes[m] == s.nodes[m])
            && (step.Commit? || step.HandoffSnapshot? || step.Rollback? || step.FinishReceive? ||
                t.nodes[step.n].disk == s.nodes[step.n].disk)
            && (!step.Claim? && !step.HandoffSwitch? ==> t.masters == s.masters)
  {
  }

  /** Only the master changes what it holds otherwise than by receiving, and receiving
      changes nothing on the master. */
  lemma MasterDisk(s: State, step: Step)
    requires Inv(s) && Enabled(s, step)
    requires step.Commit? || step.HandoffSnapshot? || step.Rollback? || step.FinishReceive?
    ensures var n, t := step.n, Perform(s, step);
            s.masters != [] && Owner(s) == n ==> SingleCopyStep(step, s.nodes[n].disk, t.nodes[n].disk)
    ensures !step.FinishReceive? ==> s.masters != [] && Owner(s) == step.n
  {
    var n, node := step.n, s.nodes[step.n];
    assert NodeOk(s.masters, s.tree, n, node);
    if step.FinishReceive? {
      if Owner(s) == n {
        NothingAboveLeaf(s.tree, node.phase.source, node.disk, node.phase.base, node.phase.to, step.count);
      }
    } else if step.Rollback? {
      assert Engaged(node);
    } else {
      assert Engaged(node);
    }
  }

  lemma SwitchRefines(s: State, step: Step)
    requires Inv(s) && Enabled(s, step) && step.HandoffSwitch?
    ensures Contents(Perform(s, step)) == Contents(s)
  {
    OthersUntouched(s, step);
    SwitchKeepsData(s, step.n);
  }

  lemma ClaimRefines(s: State, step: Step)
    requires Inv(s) && Enabled(s, step) && step.Claim?
    ensures Contents(Perform(s, step)) == Contents(s)
  {
    assert Uncreated(s) && NodeOk(s.masters, s.tree, step.n, s.nodes[step.n]);
  }

  lemma DiskStepRefines(s: State, step: Step)
    requires Inv(s) && Enabled(s, step)
    requires step.Commit? || step.HandoffSnapshot? || step.Rollback? || step.FinishReceive?
    ensures SingleCopyStep(step, Contents(s), Contents(Perform(s, step)))
  {
    OthersUntouched(s, step);
    MasterDisk(s, step);
    assert s.masters != [] ==> Owner(s) in s.nodes;
  }

  lemma OtherStepRefines(s: State, step: Step)
    requires Enabled(s, step) && !step.Claim? && !step.HandoffSwitch?
    requires !step.Commit? && !step.HandoffSnapshot? && !step.Rollback? && !step.FinishReceive?
    ensures Contents(Perform(s, step)) == Contents(s)
  {
    OthersUntouched(s, step);
  }

  lemma StepRefinesSingleCopy(s: State, step: Step)
    requires Inv(s) && Enabled(s, step) && InTurn(s, step)
    ensures SingleCopyStep(step, Contents(s), Contents(Perform(s, step)))
  {
    match step
    case HandoffSwitch(_, _) => SwitchRefines(s, step);
    case Claim(_) => ClaimRefines(s, step);
    case Commit(_, _, _, _) => DiskStepRefines(s, step);
    case HandoffSnapshot(_, _, _, _) => DiskStepRefines(s, step);
    case Rollback(_, _, _, _, _) => DiskStepRefines(s, step);
    case FinishReceive(_, _) => DiskStepRefines(s, step);
    case _ => OtherStepRefines(s, step);
  }

  /** Applying the single-copy meaning of the steps one after the other. */
  ghost predicate SingleCopyRun(steps: seq<Step>, contents: seq<seq<SnapshotId>>) {
    && |contents| == |steps| + 1 && contents[0] == []
    && forall i :: 0 <= i < |steps| ==> SingleCopyStep(steps[i], contents[i], contents[i + 1])
  }

  lemma {:induction false} RunRefinesSingleCopy(s: State, steps: seq<Step>) returns (contents: seq<seq<SnapshotId>>)
    requires Init(s) && Run(s, steps).Some? && InOrder(s, steps)
    ensures SingleCopyRun(steps, contents) && Last(contents) == Contents(Run(s, steps).value)
  {
    if steps == [] {
      contents := [[]];
    } else {
      var before := steps[..|steps| - 1];
      var earlier := RunRefinesSingleCopy(s, before);
      RunKeeps(s, before);
      StepRefinesSingleCopy(Run(s, before).value, Last(steps));
      contents := earlier + [Contents(Run(s, steps).value)];
      SingleCopyAppend(steps, earlier, Contents(Run(s, steps).value));
    }
  }

  lemma SingleCopyAppend(steps: seq<Step>, contents: seq<seq<SnapshotId>>, after: seq<SnapshotId>)
    requires steps != [] && SingleCopyRun(steps[..|steps| - 1], contents)
    requires SingleCopyStep(Last(steps), Last(contents), after)
    ensures SingleCopyRun(steps, contents + [after])
  {
    var all := contents + [after];
    forall i | 0 <= i < |steps| ensures SingleCopyStep(steps[i], all[i], all[i + 1]) {
      if i < |steps| - 1 { assert steps[i] == steps[..|steps| - 1][i]; }
    }
  }
}
