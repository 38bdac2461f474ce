/** The state machine of one filesystem on one node as the object it is (fsMachine in
    types.go, its state functions in statemachines.go).  Every method is proved to change the
    object in the way the cluster model says a node changes.
  */
module FsMachines {
  import opened Snapshots
  import opened Cluster

  datatype Response =
    | Snapshotted | FailedSnapshot
    | RolledBack | NoSuchSnapshot | FailedRollback | FailedStopContainers | FailedStartContainers
    | Mounted | FailedMount | Unmounted | FailedUnmount | CannotUnmountInUse
    | HandingOff | CannotMoveInUse | Moved | FailedToConnect | Unhandled

  /** How many of the lists observed, one after the other, are not yet up to date. */
  function NotYet(snaps: seq<SnapshotId>, observed: seq<seq<SnapshotId>>): (k: nat)
    ensures k <= |observed|
    ensures forall i :: 0 <= i < k ==> CanApplyOutcome(snaps, observed[i]) != ToSnapsUpToDate
    ensures k < |observed| ==> CanApplyOutcome(snaps, observed[k]) == ToSnapsUpToDate
  {
    if observed == [] || CanApplyOutcome(snaps, observed[0]) == ToSnapsUpToDate then 0
    else 1 + NotYet(snaps, observed[1..])
  }

  /** What a handoff makes of a node, going by the lists of the target that it learns. */
  function HandedOff(n: Node, target: NodeId, unmountOk: bool, id: SnapshotId, zfsOk: bool, listOk: bool,
                     observed: seq<seq<SnapshotId>>, connected: bool): Node
  {
    if !unmountOk then n.(phase := Discovering)
    else
      var waiting := TakeSnapshot(n.(mounted := false), id, zfsOk, listOk, Handoff(target, Waiting));
      if zfsOk && listOk && NotYet(waiting.mem, observed) < |observed|
      then waiting.(phase := if connected then Inactive else Handoff(target, Switching))
      else waiting
  }

  /** Whether it comes to the switch. */
  predicate Switches(n: Node, unmountOk: bool, id: SnapshotId, zfsOk: bool, listOk: bool, observed: seq<seq<SnapshotId>>) {
    unmountOk && zfsOk && listOk && NotYet(n.mem + [id], observed) < |observed|
  }

  /** What it makes of the values of the masters key. */
  function KeyAfter(masters: seq<NodeId>, me: NodeId, target: NodeId, switches: bool, reached: bool): seq<NodeId> {
    if switches && reached && masters != [] && Last(masters) == me then masters + [target] else masters
  }

  /** The masters key of etcd, with all the values it has had. */
  class MastersKey {
    var values: seq<NodeId>

    method CreateIfAbsent(first: NodeId) returns (ok: bool)
      modifies this
      ensures ok <==> old(values) == []
      ensures values == if ok then [first] else old(values)
    {
      ok := values == [];
      if ok {
        values := [first];
      }
    }

    method CompareAndSet(prev: NodeId, next: NodeId) returns (ok: bool)
      modifies this
      ensures ok <==> old(values) != [] && Last(old(values)) == prev
      ensures values == if ok then old(values) + [next] else old(values)
    {
      ok := values != [] && Last(values) == prev;
      if ok {
        values := values + [next];
      }
    }
  }

  class FsMachine {
    var currentState: Phase
    var present: bool
    var mounted: bool
    var dataset: seq<SnapshotId>                // what ZFS holds
    var snapshots: seq<SnapshotId>              // filesystem.snapshots
    var announced: set<seq<SnapshotId>>
    var mastersSeen: nat
    var eventsTaken: nat
    var createPending: bool

    function Value(): Node
      reads this
    {
      Node(currentState, present, mounted, dataset, snapshots, announced, mastersSeen, eventsTaken, createPending)
    }

    constructor ()
      ensures Value() == NewNode
    {
      currentState, present, mounted, dataset, snapshots := Discovering, false, false, [], [];
      announced, mastersSeen, eventsTaken, createPending := {}, 0, 0, false;
    }

    /** snapshot(): create the snapshot, look whether it is there, then append it to the list. */
    method Snapshot(id: SnapshotId, zfsOk: bool, listOk: bool, next: Phase) returns (response: Response)
      modifies this
      ensures Value() == TakeSnapshot(old(Value()), id, zfsOk, listOk, next)
      ensures response == if zfsOk && listOk then Snapshotted else FailedSnapshot
      ensures dataset == if zfsOk then old(dataset) + [id] else old(dataset)
      ensures snapshots == if response == Snapshotted then old(snapshots) + [id] else old(snapshots)
      ensures currentState == if response == Snapshotted then next else Discovering
    {
      if !zfsOk {
        currentState := Discovering;
        return FailedSnapshot;
      }
      dataset := dataset + [id];
      if !listOk {
        currentState := Discovering;
        return FailedSnapshot;
      }
      snapshots := snapshots + [id];
      currentState := next;
      response := Snapshotted;
    }

    /** The "rollback" event of activeState.  ZFS may know a snapshot that the list does not:
        the request is then answered twice. */
    method Rollback(rollbackTo: SnapshotId, stopOk: bool, zfsOk: bool, startOk: bool)
      returns (responses: seq<Response>)
      requires Distinct(snapshots)   // ZFS has no two snapshots of one name
      modifies this
      ensures Value() == RollBack(old(Value()), rollbackTo, stopOk, zfsOk, startOk)
      ensures 1 <= |responses| <= 2
      ensures RollsBack(old(Value()), rollbackTo, stopOk, zfsOk) && startOk <==> Last(responses) == RolledBack
      ensures |responses| == 2 <==> stopOk && zfsOk && rollbackTo in old(dataset) && rollbackTo !in old(snapshots)
      ensures Last(responses) == RolledBack <==> stopOk && zfsOk && rollbackTo in old(dataset) && startOk
      ensures Last(responses) == FailedStartContainers <==> stopOk && zfsOk && rollbackTo in old(dataset) && !startOk
      ensures currentState == if Last(responses) == RolledBack then Active else Discovering
      ensures stopOk && zfsOk && rollbackTo in old(dataset) ==> dataset <= old(dataset) && Tip(dataset) == Some(rollbackTo)
      ensures !(stopOk && zfsOk && rollbackTo in old(dataset)) ==> dataset == old(dataset) && snapshots == old(snapshots)
    {
      var sliceIndex := -1;
      for i := 0 to |snapshots|
        modifies {}
        invariant sliceIndex == if rollbackTo in snapshots[..i] then SliceIndex(snapshots, rollbackTo) else -1
      {
        if snapshots[i] == rollbackTo {
          IndexOfDistinct(snapshots, i);
          sliceIndex := i + 1;
        }
        assert snapshots[..i + 1] == snapshots[..i] + [snapshots[i]];
      }
      assert snapshots[..|snapshots|] == snapshots;
      if !stopOk {
        currentState := Discovering;
        return [FailedStopContainers];
      }
      if !zfsOk || rollbackTo !in dataset {
        currentState := Discovering;
        return [FailedRollback];
      }
      dataset := dataset[..SliceIndex(dataset, rollbackTo)];
      responses := [];
      if sliceIndex > 0 {
        snapshots := snapshots[..sliceIndex];
      } else {
        responses := [NoSuchSnapshot];
      }
      if !startOk {
        currentState := Discovering;
        return responses + [FailedStartContainers];
      }
      responses := responses + [RolledBack];
      currentState := Active;
    }

    method Mount(ok: bool) returns (response: Response)
      modifies this
      ensures Value() == MountIt(old(Value()), ok)
      ensures response == if ok then Mounted else FailedMount
      ensures mounted == (ok || old(mounted)) && present == (ok || old(present))
      ensures currentState == if ok then Active else Discovering
    {
      if !ok {
        currentState := Discovering;
        return FailedMount;
      }
      present, mounted := true, true;
      currentState := Active;
      response := Mounted;
    }

    method Unmount(ok: bool, next: Phase) returns (response: Response)
      modifies this
      ensures Value() == UnmountIt(old(Value()), ok, next)
      ensures response == if ok then Unmounted else FailedUnmount
      ensures mounted == (!ok && old(mounted)) && currentState == if ok then next else Discovering
    {
      if !ok {
        currentState := Discovering;
        return FailedUnmount;
      }
      mounted := false;
      currentState := next;
      response := Unmounted;
    }

    /** A "mount" (`mine`) or "unmount" event, in whatever state it finds the machine.  An
        inactive machine looks for events twice: before it tries to receive, and while it
        waits (`waiting`).  Then it backs off after an event it has no use for. */
    method HandleMasterEvent(mine: bool, ok: bool, inUse: bool, waiting: bool) returns (response: Response)
      modifies this
      ensures Value() == if old(currentState) == Inactive && !mine && waiting then old(Value()).(phase := Discovering)
                         else MasterEvent(old(Value()), mine, ok, inUse)
      ensures response.Mounted? <==> mine && ok && old(currentState) == Inactive
      ensures response.Unmounted? <==> !mine && ok && !inUse && old(currentState) == Active
      ensures response.CannotUnmountInUse? <==> !mine && inUse && old(currentState) == Active
      ensures mounted == if response.Mounted? then true else if response.Unmounted? then false else old(mounted)
      ensures response.Mounted? ==> currentState == Active
      ensures response.Unmounted? ==> currentState == Inactive
      ensures old(currentState) == Active && !response.Unmounted? ==> currentState == Discovering
      ensures old(currentState).Handoff? ==> currentState == old(currentState)
      ensures old(currentState) == Missing ==> currentState == Discovering
      ensures old(currentState) == Inactive && !mine ==> currentState == if waiting then Discovering else Inactive
      ensures old(currentState) == Inactive && mine && !ok ==> currentState == Discovering
    {
      response := Unhandled;
      if currentState == Active {
        if mine {
          currentState := Discovering;
        } else if inUse {
          currentState := Discovering;
          response := CannotUnmountInUse;
        } else {
          response := Unmount(ok, Inactive);
        }
      } else if currentState == Inactive {
        if mine {
          response := Mount(ok);
        } else if waiting {
          currentState := Discovering;
        }
      } else if currentState == Missing {
        currentState := Discovering;
      }
    }

    /** Loads what ZFS has, and announces it.  If that fails the machine backs off, and will try again. */
    method Discover(ok: bool)
      modifies this
      ensures Value() == if ok then Discovered(old(Value())) else old(Value()).(phase := Discovering)
      ensures ok ==> snapshots == dataset && dataset in announced && old(announced) <= announced
      ensures currentState == if !ok then Discovering else if !present then Missing else if mounted then Active else Inactive
    {
      if !ok {
        currentState := Discovering;
        return;
      }
      snapshots := dataset;
      announced := announced + {dataset};
      currentState := if !present then Missing else if mounted then Active else Inactive;
    }

    /** The "create" event, taken while the dataset is missing. */
    method Create(zfsOk: bool, mountOk: bool) returns (response: Response)
      modifies this
      ensures Value() == if zfsOk then MountIt(old(Value()), mountOk).(present := true, createPending := false)
                         else old(Value()).(phase := Discovering, createPending := false)
      ensures response.Mounted? <==> zfsOk && mountOk
      ensures present == (zfsOk || old(present)) && !createPending && dataset == old(dataset)
      ensures response.Mounted? ==> present && mounted && currentState == Active
      ensures !response.Mounted? ==> currentState == Discovering && mounted == old(mounted)
    {
      createPending := false;
      if !zfsOk {
        currentState := Discovering;
        return FailedMount;
      }
      present := true;
      response := Mount(mountOk);
    }

    /** The end of receivingState: what of the stream ZFS took. */
    method Receive(stream: Stream, count: nat)
      requires count <= |stream.snaps|
      modifies this
      ensures Value() == Received(old(Value()), stream, count)
      ensures currentState == Discovering
      ensures dataset == if Tip(old(dataset)) == stream.base && (stream.base == None ==> !old(present))
                         then old(dataset) + stream.snaps[..count] else old(dataset)
    {
      if count > 0 && Tip(dataset) == stream.base && (stream.base == None ==> !present) {
        dataset := dataset + stream.snaps[..count];
        present := true;
      }
      currentState := Discovering;
    }

    method Announce()
      modifies this
      ensures Value() == old(Value()).(announced := old(announced) + {old(snapshots)})
    {
      announced := announced + {snapshots};
    }

    /** One look of handoffState at a list of the target's snapshots. */
    method CheckSlave(observed: seq<SnapshotId>) returns (slaveUpToDate: bool)
      ensures slaveUpToDate == (CanApplyOutcome(snapshots, observed) == ToSnapsUpToDate)
    {
      var outcome := CanApply(snapshots, observed);
      return outcome == ToSnapsUpToDate;
    }

    /** handoffState, given the lists of the target's snapshots as they are learnt.  The
        machine switches to inactive, answering "moved", exactly when one of them is up to
        date with its own list; a failed unmount is not answered at all, and nobody looks at
        the outcome of the compare-and-set.  Without a connection to etcd it answers that, and
        then uses the missing connection, so that the process crashes. */
    method HandOff(key: MastersKey, me: NodeId, target: NodeId, unmountOk: bool, id: SnapshotId, zfsOk: bool, listOk: bool,
                   observed: seq<seq<SnapshotId>>, connected: bool, reached: bool)
      returns (responses: seq<Response>, crashed: bool)
      modifies this, key
      ensures Value() == HandedOff(old(Value()), target, unmountOk, id, zfsOk, listOk, observed, connected)
      ensures key.values == KeyAfter(old(key.values), me, target, Switches(old(Value()), unmountOk, id, zfsOk, listOk, observed), connected && reached)
      ensures crashed <==> Switches(old(Value()), unmountOk, id, zfsOk, listOk, observed) && !connected
      ensures responses == if unmountOk && !(zfsOk && listOk) then [FailedSnapshot]
                           else if !Switches(old(Value()), unmountOk, id, zfsOk, listOk, observed) then []
                           else if connected then [Moved] else [FailedToConnect]
    {
      responses, crashed := [], false;
      var unmounted := Unmount(unmountOk, Handoff(target, Snapshotting));
      if unmounted != Unmounted {
        return;
      }
      var response := Snapshot(id, zfsOk, listOk, Handoff(target, Waiting));
      if response != Snapshotted {
        return [response], false;
      }
      var slaveUpToDate := WaitForSlave(observed);
      if slaveUpToDate {
        currentState := Handoff(target, Switching);
        if !connected {
          return [FailedToConnect], true;
        }
        var response := SwitchOver(key, me, target, reached);
        responses := [response];
      }
    }

    /** The end of handoffState: the outcome of the compare-and-set, which may not arrive, makes
        no difference to the machine. */
    method SwitchOver(key: MastersKey, me: NodeId, target: NodeId, reached: bool) returns (response: Response)
      modifies this, key
      ensures Value() == old(Value()).(phase := Inactive)
      ensures key.values == KeyAfter(old(key.values), me, target, true, reached)
      ensures reached && old(key.values) != [] && Last(old(key.values)) == me ==> key.values == old(key.values) + [target]
      ensures !(reached && old(key.values) != [] && Last(old(key.values)) == me) ==> key.values == old(key.values)
      ensures response == Moved && currentState == Inactive && mounted == old(mounted) && dataset == old(dataset)
    {
      if reached {
        var moved := key.CompareAndSet(me, target);
      }
      currentState := Inactive;
      return Moved;
    }

    /** The "move" event of activeState. */
    method RequestMove(target: NodeId, inUse: bool) returns (response: Response)
      modifies this
      ensures Value() == old(Value()).(phase := if inUse then Discovering else Handoff(target, Unmounting))
      ensures response == if inUse then CannotMoveInUse else HandingOff
    {
      if inUse {
        currentState := Discovering;
        return CannotMoveInUse;
      }
      currentState := Handoff(target, Unmounting);
      return HandingOff;
    }

    /** The beginning of receivingState: the range is decided once, from the master's list and
        this one; the master will send it from what it has then. */
    method StartReceive(masterSnaps: seq<SnapshotId>, source: seq<SnapshotId>) returns (started: bool)
      modifies this
      ensures started == CanApplyOutcome(masterSnaps, old(snapshots)).Apply?
      ensures var o := CanApplyOutcome(masterSnaps, old(snapshots));
              Value() == old(Value()).(phase := if o.Apply? then Receiving(source, o.from, o.to) else Discovering)
    {
      var outcome := CanApply(masterSnaps, snapshots);
      if !outcome.Apply? {
        currentState := Discovering;
        return false;
      }
      currentState := Receiving(source, outcome.from, outcome.to);
      return true;
    }

    /** Looks at one list after the other until one is up to date. */
    method WaitForSlave(observed: seq<seq<SnapshotId>>) returns (slaveUpToDate: bool)
      ensures slaveUpToDate == (NotYet(snapshots, observed) < |observed|)
    {
      for k := 0 to |observed|
        invariant NotYet(snapshots, observed) == k + NotYet(snapshots, observed[k..])
      {
        var upToDate := CheckSlave(observed[k]);
        if upToDate {
          assert NotYet(snapshots, observed[k..]) == 0;
          return true;
        }
        assert observed[k..][1..] == observed[k + 1..];
      }
      return false;
    }
  }
}
