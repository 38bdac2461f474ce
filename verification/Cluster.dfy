/** One filesystem on any number of nodes: mounting, committing, rolling back, replicating
    and handing the filesystem over from one master to the next (statemachines.go, and the
    event loop of etcd.go).

    The state holds every node's state machine and the whole history of the "masters" key
    of etcd.  A step is one action of one node; what ZFS, the container runtime or the
    network may do is a parameter of the step.
  */
module Cluster {
  import opened Snapshots

  type NodeId = string

  datatype HandoffStep = Unmounting | Snapshotting | Waiting | Switching

  datatype Phase =
    | Discovering                                       // discovering, or backing off before it
    | Missing
    | Inactive
    | Active
    | Receiving(source: seq<SnapshotId>, base: Option<SnapshotId>, to: SnapshotId)
    | Handoff(target: NodeId, step: HandoffStep)

  datatype Node = Node(
    phase: Phase,
    present: bool,                   // the dataset exists
    mounted: bool,
    disk: seq<SnapshotId>,           // the snapshots ZFS holds
    mem: seq<SnapshotId>,            // filesystem.snapshots, as last loaded or appended to
    announced: set<seq<SnapshotId>>, // every list this node has ever put in etcd
    view: nat,                       // how many values of the masters key its watch has seen
    handled: nat,                    // how many of the events for them its state machine has taken
    createPending: bool              // a "create" event is on its way to the state machine
  )

  // ---------------------------------------------------------------------------
  // What one state machine does
  // ---------------------------------------------------------------------------

  const NewNode := Node(Discovering, false, false, [], [], {}, 0, 0, false)

  /** snapshot(): the new id reaches the list in memory only if listing it worked too. */
  function TakeSnapshot(n: Node, id: SnapshotId, zfsOk: bool, listOk: bool, next: Phase): Node {
    if !zfsOk then n.(phase := Discovering)
    else if !listOk then n.(disk := n.disk + [id], phase := Discovering)
    else n.(disk := n.disk + [id], mem := n.mem + [id], phase := next)
  }

  /** The length of the list that rolling back to a snapshot leaves; 0 if there is no such one. */
  function SliceIndex(snaps: seq<SnapshotId>, to: SnapshotId): nat {
    if to in snaps then IndexOf(snaps, to) + 1 else 0
  }

  predicate RollsBack(n: Node, to: SnapshotId, stopOk: bool, zfsOk: bool) {
    stopOk && zfsOk && to in n.disk
  }

  function RollBack(n: Node, to: SnapshotId, stopOk: bool, zfsOk: bool, startOk: bool): Node {
    if !RollsBack(n, to, stopOk, zfsOk) then n.(phase := Discovering)
    else
      n.(disk := n.disk[..SliceIndex(n.disk, to)],
         mem := if SliceIndex(n.mem, to) > 0 then n.mem[..SliceIndex(n.mem, to)] else n.mem,
         phase := if startOk then Active else Discovering)
  }

  function MountIt(n: Node, ok: bool): Node {
    if ok then n.(present := true, mounted := true, phase := Active) else n.(phase := Discovering)
  }

  function UnmountIt(n: Node, ok: bool, next: Phase): Node {
    if ok then n.(mounted := false, phase := next) else n.(phase := Discovering)
  }

  /** A "mount" or "unmount" event for a new value of the masters key. */
  function MasterEvent(n: Node, mine: bool, ok: bool, inUse: bool): Node {
    match n.phase
    case Active => if !mine && !inUse then UnmountIt(n, ok, Inactive) else n.(phase := Discovering)
    case Inactive => if mine then MountIt(n, ok) else n
    case Missing => n.(phase := Discovering)
    case _ => n
  }

  function Discovered(n: Node): Node {
    n.(mem := n.disk, announced := n.announced + {n.disk},
       phase := if !n.present then Missing else if n.mounted then Active else Inactive)
  }

  /** zfs recv: a full stream needs the dataset not to exist, an incremental one its base. */
  function Received(n: Node, stream: Stream, count: nat): Node
    requires count <= |stream.snaps|
  {
    if count > 0 && Tip(n.disk) == stream.base && (stream.base == None ==> !n.present)
    then n.(disk := Recv(n.disk, stream, count), present := true, phase := Discovering)
    else n.(phase := Discovering)
  }

  // ---------------------------------------------------------------------------
  // The cluster
  // ---------------------------------------------------------------------------

  datatype State = State(
    nodes: map<NodeId, Node>,
    masters: seq<NodeId>,            // all values the masters key has had, oldest first
    tree: Tree,                      // every snapshot ever taken, with its parent
    acked: seq<SnapshotId>           // commits answered "snapshotted" and not rolled back since
  )

  datatype Step =
    | Claim(n: NodeId)
    | Watch(n: NodeId)
    | HandleMaster(n: NodeId, ok: bool, inUse: bool)
    | HandleStray(n: NodeId, i: nat, ok: bool)
    | HandleCreate(n: NodeId, zfsOk: bool, mountOk: bool)
    | Commit(n: NodeId, id: SnapshotId, zfsOk: bool, listOk: bool)
    | Rollback(n: NodeId, to: SnapshotId, stopOk: bool, zfsOk: bool, startOk: bool)
    | Move(n: NodeId, target: NodeId, inUse: bool)
    | HandoffUnmount(n: NodeId, ok: bool)
    | HandoffSnapshot(n: NodeId, id: SnapshotId, zfsOk: bool, listOk: bool)
    | HandoffCheck(n: NodeId, observed: seq<SnapshotId>)
    | HandoffSwitch(n: NodeId, reached: bool)
    | StartReceive(n: NodeId, observed: seq<SnapshotId>)
    | FinishReceive(n: NodeId, count: nat)
    | BackOff(n: NodeId)
    | Discover(n: NodeId)
    | Announce(n: NodeId)

  predicate Init(s: State) {
    && (forall n <- s.nodes :: s.nodes[n] == NewNode)
    && s.masters == [] && s.tree == map[] && s.acked == []
  }

  function Owner(s: State): NodeId
    requires s.masters != []
  {
    Last(s.masters)
  }

  /** The last event of the masters key that the machine has taken made the node the master. */
  predicate Requestable(s: State, node: Node, n: NodeId) {
    0 < node.handled <= |s.masters| && s.masters[node.handled - 1] == n
  }

  /** The range a node would receive, and from whom, going by what it knows. */
  predicate CanReceive(s: State, n: NodeId, observed: seq<SnapshotId>)
    requires n in s.nodes
  {
    var node := s.nodes[n];
    var o := CanApplyOutcome(observed, node.mem);
    && 0 < node.view <= |s.masters|
    && o.Apply?
    && (var m := s.masters[node.view - 1];
        && m in s.nodes
        && observed in s.nodes[m].announced
        // the sender refuses unless it takes itself for the master
        && 0 < s.nodes[m].view <= |s.masters| && s.masters[s.nodes[m].view - 1] == m
        && Send(s.nodes[m].disk, o.from, o.to).Some?)
  }

  predicate Enabled(s: State, step: Step) {
    step.n in s.nodes &&
    var node := s.nodes[step.n];
    match step
    case Claim(_) => s.masters == []
    case Watch(_) => node.view < |s.masters|
    case HandleMaster(_, _, _) =>
      && node.handled < node.view <= |s.masters|
      && (node.phase.Missing? || node.phase.Inactive? || node.phase.Active? ||
          (node.phase.Handoff? && node.phase.step.Waiting?))
    case HandleStray(n, i, _) => i < node.view <= |s.masters| && s.masters[i] == n && node.phase.Inactive?
    case HandleCreate(_, _, _) => node.createPending && node.phase.Missing?
    case Commit(_, id, _, _) => node.phase.Active? && id !in s.tree
    case Rollback(_, _, _, _, _) => node.phase.Active?
    case Move(_, _, _) => node.phase.Active?
    case HandoffUnmount(_, _) => node.phase.Handoff? && node.phase.step.Unmounting?
    case HandoffSnapshot(_, id, _, _) => node.phase.Handoff? && node.phase.step.Snapshotting? && id !in s.tree
    case HandoffCheck(_, observed) =>
      && node.phase.Handoff? && node.phase.step.Waiting?
      // any list the target ever announced may still be what the cache holds, or none at all
      && (observed == [] || (node.phase.target in s.nodes && observed in s.nodes[node.phase.target].announced))
    case HandoffSwitch(_, _) => node.phase.Handoff? && node.phase.step.Switching?
    case StartReceive(n, observed) =>
      (node.phase.Inactive? || node.phase.Missing?) && CanReceive(s, n, observed)
    case FinishReceive(_, count) =>
      && node.phase.Receiving?
      && Send(node.phase.source, node.phase.base, node.phase.to).Some?
      && count <= |Send(node.phase.source, node.phase.base, node.phase.to).value.snaps|
    case BackOff(_) => node.phase.Missing? || node.phase.Inactive? || node.phase.Active?
    case Discover(_) => node.phase.Discovering?
    case Announce(_) => true
  }

  function Put(s: State, n: NodeId, node: Node): State {
    s.(nodes := s.nodes[n := node])
  }

  function Grow(s: State, id: SnapshotId, node: Node, zfsOk: bool): State {
    if zfsOk then s.(tree := s.tree[id := Tip(node.disk)]) else s
  }

  /** The acknowledged commits that a list still holds. */
  function Surviving(acked: seq<SnapshotId>, disk: seq<SnapshotId>): seq<SnapshotId> {
    if acked == [] then []
    else Surviving(acked[..|acked| - 1], disk) + (if Last(acked) in disk then [Last(acked)] else [])
  }

  function Perform(s: State, step: Step): State
    requires Enabled(s, step)
  {
    var node := s.nodes[step.n];
    match step
    case Claim(n) => Put(s, n, node.(createPending := true)).(masters := [n])
    case Watch(n) => Put(s, n, node.(view := node.view + 1))
    case HandleMaster(n, ok, inUse) =>
      Put(s, n, MasterEvent(node, s.masters[node.handled] == n, ok, inUse).(handled := node.handled + 1))
    case HandleStray(n, _, ok) => Put(s, n, MasterEvent(node, true, ok, false))
    case HandleCreate(n, zfsOk, mountOk) =>
      Put(s, n, if zfsOk then MountIt(node, mountOk).(present := true, createPending := false)
                else node.(phase := Discovering, createPending := false))
    case Commit(n, id, zfsOk, listOk) =>
      var t := Put(Grow(s, id, node, zfsOk), n, TakeSnapshot(node, id, zfsOk, listOk, Active));
      if zfsOk && listOk then t.(acked := s.acked + [id]) else t
    case Rollback(n, to, stopOk, zfsOk, startOk) =>
      var rolled := RollBack(node, to, stopOk, zfsOk, startOk);
      Put(s, n, rolled).(acked := if RollsBack(node, to, stopOk, zfsOk)
                                  then Surviving(s.acked, rolled.disk) else s.acked)
    case Move(n, target, inUse) =>
      Put(s, n, node.(phase := if inUse then Discovering else Handoff(target, Unmounting)))
    case HandoffUnmount(n, ok) =>
      Put(s, n, UnmountIt(node, ok, node.phase.(step := Snapshotting)))
    case HandoffSnapshot(n, id, zfsOk, listOk) =>
      Put(Grow(s, id, node, zfsOk), n, TakeSnapshot(node, id, zfsOk, listOk, node.phase.(step := Waiting)))
    case HandoffCheck(n, observed) =>
      if CanApplyOutcome(node.mem, observed) == ToSnapsUpToDate
      then Put(s, n, node.(phase := node.phase.(step := Switching)))
      else s
    case HandoffSwitch(n, reached) =>
      // a compare-and-set on the old value; its failure goes unnoticed
      var t := Put(s, n, node.(phase := Inactive));
      if reached && s.masters != [] && Owner(s) == n
      then t.(masters := s.masters + [node.phase.target]) else t
    case StartReceive(n, observed) =>
      var o := CanApplyOutcome(observed, node.mem);
      Put(s, n, node.(phase := Receiving(s.nodes[s.masters[node.view - 1]].disk, o.from, o.to)))
    case FinishReceive(n, count) =>
      Put(s, n, Received(node, Send(node.phase.source, node.phase.base, node.phase.to).value, count))
    case BackOff(n) => Put(s, n, node.(phase := Discovering))
    case Discover(n) => Put(s, n, Discovered(node))
    case Announce(n) => Put(s, n, node.(announced := node.announced + {node.mem}))
  }

  /** The state after a run of steps, if each was possible when it was taken. */
  function Run(s: State, steps: seq<Step>): Option<State> {
    if steps == [] then Some(s)
    else
      match Run(s, steps[..|steps| - 1])
      case None => None
      case Some(t) => if Enabled(t, Last(steps)) then Some(Perform(t, Last(steps))) else None
  }

  /** Events of the masters key reach each state machine in order, once each, and a request to
      move does not overtake the event that made the node the master. */
  predicate InTurn(s: State, step: Step)
    requires Enabled(s, step)
  {
    !step.HandleStray? && (step.Move? ==> Requestable(s, s.nodes[step.n], step.n))
  }

  predicate InOrder(s: State, steps: seq<Step>)
    requires Run(s, steps).Some?
  {
    steps == [] ||
    (InOrder(s, steps[..|steps| - 1]) && InTurn(Run(s, steps[..|steps| - 1]).value, Last(steps)))
  }
}
