/** The methods of the state machine make the steps of the cluster: what FsMachine.dfy proves of
    the object and what Cluster.dfy lets a node do are the same.
  */
module MachineSteps {
  import opened Snapshots
  import opened Cluster
  import opened ClusterTheorems
  import opened FsMachines
  import opened MountOrder

  /** Makes a step of the cluster by calling the method that the step stands for, and shows that
      the object and the masters key are then what the step makes of the node and of the key.
      Two kinds of step are the bookkeeping around the state machine, done here: how far the
      watch of the key has come, and that a "create" event is on its way. */
  method MakeStep(m: FsMachine, key: MastersKey, s: State, step: Step) returns (responses: seq<Response>)
    requires Enabled(s, step) && m.Value() == s.nodes[step.n] && key.values == s.masters
    requires Distinct(m.snapshots)   // in every reachable state, as the list is a history
    modifies m, key
    ensures m.Value() == Perform(s, step).nodes[step.n]
    ensures key.values == Perform(s, step).masters
    // what is answered "snapshotted" is acknowledged, and nothing else is
    ensures step.Commit? ==> Perform(s, step).acked == if responses == [Snapshotted] then s.acked + [step.id] else s.acked
    ensures !step.Commit? && !step.Rollback? ==> Perform(s, step).acked == s.acked
    ensures step.Rollback? && RolledBack !in responses && FailedStartContainers !in responses ==> Perform(s, step).acked == s.acked
  {
    responses := [];
    match step {
      case HandleMaster(_, _, _) => MakeEventStep(m, s, step);
      case HandleStray(_, _, _) => MakeEventStep(m, s, step);
      case HandleCreate(_, _, _) => MakeEventStep(m, s, step);
      case Commit(_, _, _, _) => responses := MakeDiskStep(m, s, step);
      case Rollback(_, _, _, _, _) => responses := MakeDiskStep(m, s, step);
      case FinishReceive(_, _) => responses := MakeDiskStep(m, s, step);
      case Discover(_) => m.Discover(true);
      case BackOff(_) => m.Discover(false);
      case Announce(_) => m.Announce();
      case _ => MakeOtherStep(m, key, s, step);
    }
  }

  method MakeEventStep(m: FsMachine, s: State, step: Step)
    requires Enabled(s, step) && m.Value() == s.nodes[step.n]
    requires step.HandleMaster? || step.HandleStray? || step.HandleCreate?
    modifies m
    ensures m.Value() == Perform(s, step).nodes[step.n]
    ensures Perform(s, step).masters == s.masters && Perform(s, step).acked == s.acked
  {
    match step {
      case HandleMaster(n, ok, inUse) =>
        var _ := m.HandleMasterEvent(s.masters[m.eventsTaken] == n, ok, inUse, false);
        m.eventsTaken := m.eventsTaken + 1;
      case HandleStray(_, _, ok) => var _ := m.HandleMasterEvent(true, ok, false, false);
      case HandleCreate(_, zfsOk, mountOk) => var _ := m.Create(zfsOk, mountOk);
    }
  }

  method MakeDiskStep(m: FsMachine, s: State, step: Step) returns (responses: seq<Response>)
    requires Enabled(s, step) && m.Value() == s.nodes[step.n] && Distinct(m.snapshots)
    requires step.Commit? || step.Rollback? || step.FinishReceive?
    modifies m
    ensures m.Value() == Perform(s, step).nodes[step.n]
    ensures Perform(s, step).masters == s.masters
    ensures step.Commit? ==> Perform(s, step).acked == if responses == [Snapshotted] then s.acked + [step.id] else s.acked
    ensures step.FinishReceive? ==> Perform(s, step).acked == s.acked
    ensures step.Rollback? && RolledBack !in responses && FailedStartContainers !in responses ==> Perform(s, step).acked == s.acked
  {
    responses := [];
    match step {
      case Commit(_, id, zfsOk, listOk) =>
        var response := m.Snapshot(id, zfsOk, listOk, Active);
        responses := [response];
      case Rollback(_, to, stopOk, zfsOk, startOk) => responses := m.Rollback(to, stopOk, zfsOk, startOk);
      case FinishReceive(_, count) =>
        m.Receive(Send(m.currentState.source, m.currentState.base, m.currentState.to).value, count);
    }
  }

  method MakeOtherStep(m: FsMachine, key: MastersKey, s: State, step: Step)
    requires Enabled(s, step) && m.Value() == s.nodes[step.n] && key.values == s.masters
    requires step.Claim? || step.Watch? || step.Move? || step.HandoffUnmount? || step.HandoffSnapshot? || step.HandoffCheck? ||
             step.HandoffSwitch? || step.StartReceive?
    modifies m, key
    ensures m.Value() == Perform(s, step).nodes[step.n]
    ensures key.values == Perform(s, step).masters && Perform(s, step).acked == s.acked
  {
    match step {
      case Claim(n) =>
        var _ := key.CreateIfAbsent(n);
        m.createPending := true;
      case Watch(_) => m.mastersSeen := m.mastersSeen + 1;
      case Move(_, target, inUse) => var _ := m.RequestMove(target, inUse);
      case HandoffUnmount(_, ok) => var _ := m.Unmount(ok, Handoff(m.currentState.target, Snapshotting));
      case HandoffSnapshot(_, id, zfsOk, listOk) =>
        var _ := m.Snapshot(id, zfsOk, listOk, Handoff(m.currentState.target, Waiting));
      case HandoffCheck(_, observed) =>
        var upToDate := m.CheckSlave(observed);
        if upToDate {
          m.currentState := Handoff(m.currentState.target, Switching);
        }
      case HandoffSwitch(n, reached) => var _ := m.SwitchOver(key, n, m.currentState.target, reached);
      case StartReceive(_, observed) => var _ := m.StartReceive(observed, s.nodes[s.masters[m.mastersSeen - 1]].disk);
    }
  }

  /** An "unmount" event that finds an inactive machine waiting makes that step, and backs off. */
  method MakeUnmountWhileWaiting(m: FsMachine, s: State, n: NodeId, ok: bool, inUse: bool)
    requires Enabled(s, HandleMaster(n, ok, inUse)) && s.nodes[n].phase.Inactive? && s.masters[s.nodes[n].handled] != n
    requires m.Value() == s.nodes[n]
    modifies m
    ensures var t := Perform(s, HandleMaster(n, ok, inUse));
            Enabled(t, BackOff(n)) && m.Value() == Perform(t, BackOff(n)).nodes[n]
  {
    var _ := m.HandleMasterEvent(false, ok, inUse, true);
    m.eventsTaken := m.eventsTaken + 1;
  }

  // ---------------------------------------------------------------------------
  // A whole handoff
  // ---------------------------------------------------------------------------

  /** What goes on while node n hands over: steps of other nodes, and what happens around the
      state machine of n itself: its lists are announced, its watch of the masters key goes on,
      and events are turned away. */
  predicate Background(n: NodeId, steps: seq<Step>) {
    forall step <- steps :: step.n != n || step.Announce? || step.Watch? || step.HandleMaster?
  }

  /** The same machine, apart from what goes on around it. */
  predicate SameMachine(a: Node, b: Node) {
    && a.phase == b.phase && a.present == b.present && a.mounted == b.mounted
    && a.disk == b.disk && a.mem == b.mem && a.createPending == b.createPending
  }

  predicate HandingOver(s: State, n: NodeId) {
    n in s.nodes && s.nodes[n].phase.Handoff? && s.masters != [] && Owner(s) == n
  }

  lemma BackgroundStep(s: State, n: NodeId, step: Step)
    requires HandingOver(s, n) && Enabled(s, step) && Background(n, [step])
    ensures HandingOver(Perform(s, step), n) && Perform(s, step).masters == s.masters
    ensures SameMachine(Perform(s, step).nodes[n], s.nodes[n])
  {
    OthersUntouched(s, step);
    assert step in [step];
  }

  lemma {:induction false} BackgroundRun(s: State, n: NodeId, steps: seq<Step>)
    requires HandingOver(s, n) && Run(s, steps).Some? && Background(n, steps)
    ensures var t := Run(s, steps).value;
            HandingOver(t, n) && t.masters == s.masters && SameMachine(t.nodes[n], s.nodes[n])
  {
    if steps == [] {
    } else {
      var before := steps[..|steps| - 1];
      assert Background(n, before);
      BackgroundRun(s, n, before);
      assert Last(steps) in steps;
      BackgroundStep(Run(s, before).value, n, Last(steps));
    }
  }

  /** What happens before a look at the target's list, and the list that is then in the cache. */
  datatype Look = Look(before: seq<Step>, observed: seq<SnapshotId>)

  function Lists(looks: seq<Look>): (lists: seq<seq<SnapshotId>>)
    ensures |lists| == |looks|
  {
    if looks == [] then [] else [looks[0].observed] + Lists(looks[1..])
  }

  predicate UpToDate(s: State, n: NodeId, observed: seq<SnapshotId>)
    requires n in s.nodes
  {
    CanApplyOutcome(s.nodes[n].mem, observed) == ToSnapsUpToDate
  }

  /** Every look shows a list that the target has announced by then, or none; `last` is what
      happens between the look that shows an up-to-date list and the switch. */
  ghost predicate Learns(s: State, n: NodeId, looks: seq<Look>, last: seq<Step>)
    requires HandingOver(s, n)
    decreases looks
  {
    looks == [] ||
    (Background(n, looks[0].before) && Run(s, looks[0].before).Some? &&
     (BackgroundRun(s, n, looks[0].before);
      var u := Run(s, looks[0].before).value;
      var check := HandoffCheck(n, looks[0].observed);
      Enabled(u, check) &&
      if UpToDate(s, n, looks[0].observed) then Background(n, last) && Run(Perform(u, check), last).Some?
      else Learns(u, n, looks[1..], last)))
  }

  /** The steps of n itself are those of a handoff and what goes on around it. */
  predicate OnlyHandsOver(n: NodeId, steps: seq<Step>) {
    forall step <- steps :: step.n != n || step.Announce? || step.Watch? || step.HandleMaster? ||
      step.HandoffUnmount? || step.HandoffSnapshot? || step.HandoffCheck? || step.HandoffSwitch?
  }

  lemma RunOne(s: State, step: Step)
    requires Enabled(s, step)
    ensures Run(s, [step]) == Some(Perform(s, step))
  {
    Extend(s, [], s, step, Perform(s, step));
    assert [] + [step] == [step];
  }

  /** One step after what happened before it. */
  lemma ThenOne(s: State, steps: seq<Step>, t: State, step: Step, n: NodeId) returns (all: seq<Step>)
    requires Run(s, steps) == Some(t) && Enabled(t, step) && OnlyHandsOver(n, steps) && OnlyHandsOver(n, [step])
    ensures Run(s, all) == Some(Perform(t, step)) && OnlyHandsOver(n, all)
  {
    Extend(s, steps, t, step, Perform(t, step));
    assert step in [step];
    all := steps + [step];
  }

  lemma ThenMore(s: State, steps: seq<Step>, t: State, more: seq<Step>, u: State, n: NodeId) returns (all: seq<Step>)
    requires Run(s, steps) == Some(t) && Run(t, more) == Some(u) && OnlyHandsOver(n, steps) && OnlyHandsOver(n, more)
    ensures Run(s, all) == Some(u) && OnlyHandsOver(n, all)
  {
    Join(s, steps, t, more, u);
    all := steps + more;
  }

  /** A look that shows an old list leaves everything as it was. */
  lemma CheckIs(u: State, n: NodeId, observed: seq<SnapshotId>)
    requires HandingOver(u, n) && Enabled(u, HandoffCheck(n, observed))
    ensures u.nodes[n].phase.step.Waiting?
    ensures Perform(u, HandoffCheck(n, observed)) ==
              if UpToDate(u, n, observed) then Put(u, n, u.nodes[n].(phase := Handoff(u.nodes[n].phase.target, Switching))) else u
  {
  }

  lemma SwitchIs(u: State, n: NodeId, reached: bool)
    requires HandingOver(u, n) && u.nodes[n].phase.step.Switching?
    ensures Enabled(u, HandoffSwitch(n, reached))
    ensures var t := Perform(u, HandoffSwitch(n, reached));
            && n in t.nodes && t.nodes[n] == u.nodes[n].(phase := Inactive)
            && t.masters == KeyAfter(u.masters, n, u.nodes[n].phase.target, true, reached)
  {
  }

  /** What the end of the handoff makes of a machine that waits. */
  function AfterLooks(waiting: Node, looks: seq<Look>, connected: bool): Node
    requires waiting.phase.Handoff?
  {
    if NotYet(waiting.mem, Lists(looks)) < |looks|
    then waiting.(phase := if connected then Inactive else Handoff(waiting.phase.target, Switching))
    else waiting
  }

  /** From the look that shows an up-to-date list on. */
  lemma SwitchAfterLook(u: State, n: NodeId, observed: seq<SnapshotId>, last: seq<Step>, connected: bool, reached: bool)
    returns (steps: seq<Step>, t: State)
    requires HandingOver(u, n) && Enabled(u, HandoffCheck(n, observed)) && UpToDate(u, n, observed)
    requires Background(n, last) && Run(Perform(u, HandoffCheck(n, observed)), last).Some?
    ensures Run(u, steps) == Some(t) && OnlyHandsOver(n, steps) && n in t.nodes
    ensures SameMachine(t.nodes[n], u.nodes[n].(phase := if connected then Inactive else Handoff(u.nodes[n].phase.target, Switching)))
    ensures t.masters == KeyAfter(u.masters, n, u.nodes[n].phase.target, true, connected && reached)
  {
    var check := HandoffCheck(n, observed);
    CheckIs(u, n, observed);
    RunOne(u, check);
    var v := Perform(u, check);
    BackgroundRun(v, n, last);
    t := Run(v, last).value;
    steps := ThenMore(u, [check], v, last, t, n);
    if connected {
      SwitchIs(t, n, reached);
      steps := ThenOne(u, steps, t, HandoffSwitch(n, reached), n);
      t := Perform(t, HandoffSwitch(n, reached));
    }
  }

  lemma {:induction false} LooksAndSwitch(s: State, n: NodeId, looks: seq<Look>, last: seq<Step>, connected: bool, reached: bool)
    returns (steps: seq<Step>, t: State)
    requires HandingOver(s, n) && s.nodes[n].phase.step.Waiting? && Learns(s, n, looks, last)
    ensures Run(s, steps) == Some(t) && OnlyHandsOver(n, steps) && n in t.nodes
    ensures SameMachine(t.nodes[n], AfterLooks(s.nodes[n], looks, connected))
    ensures t.masters == KeyAfter(s.masters, n, s.nodes[n].phase.target, NotYet(s.nodes[n].mem, Lists(looks)) < |looks|, connected && reached)
    decreases looks
  {
    if looks == [] {
      steps, t := [], s;
    } else {
      var before, observed := looks[0].before, looks[0].observed;
      BackgroundRun(s, n, before);
      var u := Run(s, before).value;
      CheckIs(u, n, observed);
      assert Lists(looks)[0] == observed && Lists(looks)[1..] == Lists(looks[1..]);
      var more;
      if UpToDate(s, n, observed) {
        more, t := SwitchAfterLook(u, n, observed, last, connected, reached);
        steps := ThenMore(s, before, u, more, t, n);
      } else {
        var looked := ThenOne(s, before, u, HandoffCheck(n, observed), n);
        more, t := LooksAndSwitch(u, n, looks[1..], last, connected, reached);
        steps := ThenMore(s, looked, u, more, t, n);
      }
    }
  }

  lemma UnmountIs(s: State, n: NodeId, ok: bool)
    requires HandingOver(s, n) && s.nodes[n].phase.step.Unmounting?
    ensures Enabled(s, HandoffUnmount(n, ok))
    ensures var t := Perform(s, HandoffUnmount(n, ok));
            && n in t.nodes && t.masters == s.masters
            && t.nodes[n] == if ok then s.nodes[n].(mounted := false, phase := Handoff(s.nodes[n].phase.target, Snapshotting))
                             else s.nodes[n].(phase := Discovering)
  {
  }

  lemma SnapshotIs(s: State, n: NodeId, id: SnapshotId, zfsOk: bool, listOk: bool)
    requires HandingOver(s, n) && s.nodes[n].phase.step.Snapshotting? && id !in s.tree
    ensures Enabled(s, HandoffSnapshot(n, id, zfsOk, listOk))
    ensures var t := Perform(s, HandoffSnapshot(n, id, zfsOk, listOk));
            && n in t.nodes && t.masters == s.masters
            && t.nodes[n] == TakeSnapshot(s.nodes[n], id, zfsOk, listOk, Handoff(s.nodes[n].phase.target, Waiting))
            && (zfsOk ==> id in t.tree && t.tree[id] == Tip(s.nodes[n].disk))
  {
  }

  /** What happens around a handoff: between the unmount and the snapshot, before each look, and
      before the switch. */
  ghost predicate Surroundings(s: State, n: NodeId, unmountOk: bool, between: seq<Step>, id: SnapshotId, zfsOk: bool, listOk: bool,
                               looks: seq<Look>, last: seq<Step>)
    requires HandingOver(s, n) && s.nodes[n].phase.step.Unmounting?
  {
    UnmountIs(s, n, unmountOk);
    unmountOk ==>
      var u := Perform(s, HandoffUnmount(n, true));
      && Background(n, between) && Run(u, between).Some?
      && (BackgroundRun(u, n, between);
          var v := Run(u, between).value;
          && id !in v.tree
          && (SnapshotIs(v, n, id, zfsOk, listOk);
              zfsOk && listOk ==> Learns(Perform(v, HandoffSnapshot(n, id, zfsOk, listOk)), n, looks, last)))
  }

  /** The whole of a handoff by the master is a run of the cluster: unmount, snapshot, a check for
      every list that is learnt, switch; or as far as it gets.  Other nodes go on all the time,
      and receive the snapshot meanwhile.  The machine and the masters key are at the end what
      HandOff makes of them. */
  lemma HandOffIsARun(s: State, n: NodeId, target: NodeId, unmountOk: bool, between: seq<Step>, id: SnapshotId, zfsOk: bool, listOk: bool,
                      looks: seq<Look>, last: seq<Step>, connected: bool, reached: bool)
    returns (steps: seq<Step>, t: State)
    requires HandingOver(s, n) && s.nodes[n].phase == Handoff(target, Unmounting)
    requires Surroundings(s, n, unmountOk, between, id, zfsOk, listOk, looks, last)
    ensures Run(s, steps) == Some(t) && OnlyHandsOver(n, steps) && n in t.nodes
    ensures SameMachine(t.nodes[n], HandedOff(s.nodes[n], target, unmountOk, id, zfsOk, listOk, Lists(looks), connected))
    ensures t.masters == KeyAfter(s.masters, n, target, Switches(s.nodes[n], unmountOk, id, zfsOk, listOk, Lists(looks)), connected && reached)
  {
    UnmountIs(s, n, unmountOk);
    RunOne(s, HandoffUnmount(n, unmountOk));
    t := Perform(s, HandoffUnmount(n, unmountOk));
    steps := [HandoffUnmount(n, unmountOk)];
    if unmountOk {
      var u := t;
      BackgroundRun(u, n, between);
      var v := Run(u, between).value;
      steps := ThenMore(s, steps, u, between, v, n);
      var more;
      more, t := SnapshotAndOn(v, n, target, id, zfsOk, listOk, looks, last, connected, reached);
      steps := ThenMore(s, steps, v, more, t, n);
    }
  }

  lemma SnapshotAndOn(v: State, n: NodeId, target: NodeId, id: SnapshotId, zfsOk: bool, listOk: bool,
                      looks: seq<Look>, last: seq<Step>, connected: bool, reached: bool)
    returns (steps: seq<Step>, t: State)
    requires HandingOver(v, n) && v.nodes[n].phase == Handoff(target, Snapshotting) && id !in v.tree
    requires zfsOk && listOk ==>
               Enabled(v, HandoffSnapshot(n, id, zfsOk, listOk)) && HandingOver(Perform(v, HandoffSnapshot(n, id, zfsOk, listOk)), n) &&
               Learns(Perform(v, HandoffSnapshot(n, id, zfsOk, listOk)), n, looks, last)
    ensures Run(v, steps) == Some(t) && OnlyHandsOver(n, steps) && n in t.nodes
    ensures var waiting := TakeSnapshot(v.nodes[n], id, zfsOk, listOk, Handoff(target, Waiting));
            var switches := zfsOk && listOk && NotYet(waiting.mem, Lists(looks)) < |looks|;
            && SameMachine(t.nodes[n], if zfsOk && listOk then AfterLooks(waiting, looks, connected) else waiting)
            && t.masters == KeyAfter(v.masters, n, target, switches, connected && reached)
  {
    var snap := HandoffSnapshot(n, id, zfsOk, listOk);
    SnapshotIs(v, n, id, zfsOk, listOk);
    RunOne(v, snap);
    steps, t := [snap], Perform(v, snap);
    if zfsOk && listOk {
      var more, w := LooksAndSwitch(t, n, looks, last, connected, reached);
      steps := ThenMore(v, steps, t, more, w, n);
      t := w;
    }
  }

  // ---------------------------------------------------------------------------
  // A handoff that completes
  // ---------------------------------------------------------------------------

  lemma {:induction false} QuietIsInOrder(s: State, steps: seq<Step>)
    requires Run(s, steps).Some? && NoStray(steps) && NoMove(steps)
    ensures InOrder(s, steps)
  {
    if steps == [] {
    } else {
      QuietIsInOrder(s, steps[..|steps| - 1]);
      assert Last(steps) in steps;
    }
  }

  const ALeaving: Node := ACreated(true).(phase := Handoff("b", Unmounting))
  const AUnmounted: Node := ALeaving.(mounted := false, phase := Handoff("b", Snapshotting))
  const AWaiting: Node := APledged(true).(announced := {[]})

  lemma LeavingIsReached() returns (s0: State, steps: seq<Step>)
    ensures Init(s0) && Run(s0, steps) == Some(Two(ALeaving, BMissing, ["a"], map[]))
    ensures InOrder(s0, steps)
  {
    s0 := Two(NewNode, NewNode, [], map[]);
    var before := CreatedOnA(true);
    var t := Two(ACreated(true), BMissing, ["a"], map[]);
    QuietIsInOrder(s0, before);
    var move := Move("a", "b", false);
    PutA(ACreated(true), BMissing, ["a"], map[], ALeaving);
    Extend(s0, before, t, move, Two(ALeaving, BMissing, ["a"], map[]));
    steps := before + [move];
    assert steps[..|steps| - 1] == before;
  }

  lemma LeavingUnmounts()
    ensures var s := Two(ALeaving, BMissing, ["a"], map[]);
            && Enabled(s, HandoffUnmount("a", true))
            && Perform(s, HandoffUnmount("a", true)) == Two(AUnmounted, BMissing, ["a"], map[])
  {
    PutA(ALeaving, BMissing, ["a"], map[], AUnmounted);
  }

  lemma UnmountedSnapshots()
    ensures var s := Two(AUnmounted, BMissing, ["a"], map[]);
            && Enabled(s, HandoffSnapshot("a", "x", true, true))
            && Perform(s, HandoffSnapshot("a", "x", true, true)) == Two(AWaiting, BMissing, ["a"], OneTree)
  {
    PutA(AUnmounted, BMissing, ["a"], OneTree, AWaiting);
    var s := Two(AUnmounted, BMissing, ["a"], map[]);
    assert TakeSnapshot(AUnmounted, "x", true, true, Handoff("b", Waiting)) == AWaiting;
    assert Grow(s, "x", AUnmounted, true) == Two(AUnmounted, BMissing, ["a"], OneTree);
  }

  /** The list is announced, and the target watches, receives and loads. */
  lemma TargetReceives() returns (steps: seq<Step>)
    ensures Run(Two(AWaiting, BMissing, ["a"], OneTree), steps)
            == Some(Two(APledged(true), BCopied, ["a"], OneTree))
    ensures Background("a", steps)
  {
    var s := Two(AWaiting, BMissing, ["a"], OneTree);
    var pledged := APledged(true);
    assert AWaiting.(announced := AWaiting.announced + {AWaiting.mem}) == pledged;
    PutA(AWaiting, BMissing, ["a"], OneTree, pledged);
    RunOne(s, Announce("a"));
    var receiving := ReceivingOnB(true);
    var received := ReceivedByB(true);
    Join(s, [Announce("a")], Two(pledged, BMissing, ["a"], OneTree),
                    receiving, Two(pledged, BReceiving, ["a"], OneTree));
    Join(s, [Announce("a")] + receiving, Two(pledged, BReceiving, ["a"], OneTree),
                    received, Two(pledged, BCopied, ["a"], OneTree));
    steps := [Announce("a")] + receiving + received;
  }

  lemma CopyIsLearnt(before: seq<Step>)
    requires Background("a", before)
    requires Run(Two(AWaiting, BMissing, ["a"], OneTree), before)
             == Some(Two(APledged(true), BCopied, ["a"], OneTree))
    ensures Learns(Two(AWaiting, BMissing, ["a"], OneTree), "a", [Look(before, ["x"])], [])
    ensures NotYet(["x"], Lists([Look(before, ["x"])])) == 0
  {
    assert LatestCommon(["x"], ["x"]) == 0;
    assert Lists([Look(before, ["x"])]) == [["x"]];
  }

  /** A handoff that is reached in order and has all of its surroundings, up to the switch: what
      HandOffIsARun says of completed handoffs is not said of none. */
  lemma HandOffCompletes() returns (s0: State, before: seq<Step>, s: State, looks: seq<Look>)
    ensures Init(s0) && Run(s0, before) == Some(s) && InOrder(s0, before)
    ensures HandingOver(s, "a") && s.nodes["a"].phase == Handoff("b", Unmounting)
    ensures Surroundings(s, "a", true, [], "x", true, true, looks, [])
    ensures Switches(s.nodes["a"], true, "x", true, true, Lists(looks))
  {
    s0, before := LeavingIsReached();
    s := Two(ALeaving, BMissing, ["a"], map[]);
    LeavingUnmounts();
    UnmountedSnapshots();
    var steps := TargetReceives();
    CopyIsLearnt(steps);
    looks := [Look(steps, ["x"])];
  }
}
