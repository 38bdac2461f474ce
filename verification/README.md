# Dotmesh: replication, branches, deletion and transfers

A Dafny model of the part of the Dotmesh server that must not lose or mix up data, and proofs of what
that part is for.

A Dotmesh *filesystem* is a list of snapshots that only grows at its end, or is cut back by a
rollback.  Within a cluster one node is its *master*; the others keep replicas, and the master can
hand the filesystem over to one of them.  A *branch* is a filesystem cloned from a snapshot of
another one.  The registry gives names to volumes and branches; clusters send each other whole paths
of branches.

| file | what it models |
|---|---|
| `Snapshots.dfy` | histories in a commit tree, `canApply`, send and receive, `restrictSnapshots` |
| `Cluster.dfy` | one filesystem on any number of nodes as a machine of 17 kinds of step |
| `ClusterSafety.dfy` | the invariant of that machine, step by step |
| `ClusterTheorems.dfy` | the results about whole runs, and the refinement to a single copy |
| `ClusterHistory.dfy` | which commits are acknowledged and stay so, and what a receive leaves |
| `ClusterProgress.dfy` | what an active machine takes, how a slave catches up and a new master takes over |
| `MountOrder.dfy` | mount exclusion when events arrive late or twice |
| `FsMachine.dfy` | the state machine as an object |
| `MachineSteps.dfy` | the object's methods make the steps of `Cluster.dfy` (two steps are bookkeeping around it), and a whole handoff is a run of them, other nodes going on meanwhile |
| `Registry.dfy` | the registry as an object, beside the keys in etcd: lookups, path deduction, registering a path |
| `RegistryWorld.dfy` | clusters that create, branch and register each other's paths |
| `EtcdWorld.dfy` | the same, with what etcd holds beside what a node believes |
| `Transfer.dfy` | one filesystem sent to another cluster, with retries |
| `Paths.dfy` | a whole path of branches sent, segment by segment |
| `PathFaults.dfy` | when that succeeds, with any faults |
| `Deletion.dfy`, `VolumeDeletion.dfy` | deleting a volume with its branches, leaves first |
| `Naming.dfy` | creation, crash recovery and clean-up in etcd, all nodes at once |
| `StateCache.dfy` | the versioned state cache |
| `Prelude.dfy`, `Pipe.dfy` | the framing in front of a stream, and the byte pump |

A snapshot is represented by its id.  What ZFS, containers, etcd and the network may do is a
parameter of each step or call (success, failure, how many snapshots had arrived, how stale a list
is), so that every result holds for every choice of them.

Where the code does not keep what it is for, the model follows the code; there is a lemma with a
concrete case in which it fails and one that says exactly when it holds:

- Mount exclusion needs the events of the masters key in order, and requests to move behind them:
  `MountOrder.LateMountBreaksExclusion`, `MountOrder.OvertakingMoveBreaksExclusion`,
  `MountOrder.ExclusionExactlyWhen`, `MountOrder.AtMostOneExactlyWhen`.
- A transfer asks only whether the branch at the end of the path is missing at the destination.
  Registering the path can take the place of another branch of the same name on the way, and cut
  off what was taken from it: `RegistryWorld.ConflictOrphansABranch`, `RegistryWorld.RegisterKeepsDeductions`.  Deleting the
  volume then misses that branch: `VolumeDeletion.DeletionMissesABranch`,
  `VolumeDeletion.DeletionReachesAll`.  And the node believes what etcd refused:
  `RegistryWorld.CacheDiffersFromEtcd`, `Registries.CacheMatchesEtcd`, `EtcdWorld.NodesBelieveEtcd`.
- A peer that has more of a volume than the origin of a branch cannot be sent the branch:
  `PathTransfers.PeerAheadOfOrigin`, `PathTransfers.ApplyPathExact`.
- The retries of a transfer do not survive an attempt that broke off half way: a pull asks for the
  same range again (`Transfers.PullBrokenHalfWay`, `Transfers.PullRecovers`), and so does a push, because
  the peer reports a list that it does not load again after a failed receive
  (`Transfers.PushBrokenHalfWay`, `Transfers.PushRecovers`; `Transfers.PushExact` for any reports).
- The comment in `Delete` hopes that a deletion can be resumed.  It can if just the deleted clones are
  forgotten; as the registry's cache forgets all clones of the volume, it cannot in general:
  `Deletion.ResumeFindsSurvivors`, `Deletion.CacheDropOrphansAClone`, `Deletion.ResumeAfterCacheDrop`.
- The deletion of a name at the end of `Delete` may hit a new volume of that name:
  `Naming.UnregisterHitsTheNext`, `Naming.UnregisterExact`.
- A slow creation may end with a volume that no name stands for, as it was deleted meanwhile:
  `Naming.SlowCreator`, `Naming.CreatedHasEntry`.

## Model

| member | source | states |
|---|---|---|
| Snapshots.CanApply | cmd/dotmesh-server/pkg/main/snapshotlogic.go:48-144 | the set of ids and the backward scan compute the decision made from the two last ids and the latest common id |
| Snapshots.CanApplyExact | cmd/dotmesh-server/pkg/main/snapshotlogic.go:48-144 | on histories of one tree each of the six outcomes is returned if and only if the lists are related as it says: strict prefix, equal, ahead, diverged with the last common snapshot, unrelated, empty |
| Snapshots.CanApplyShallowOnGaps | cmd/dotmesh-server/pkg/main/snapshotlogic.go:110-124 | on a list with a gap the shallow test offers a fast-forward although the list is no prefix |
| Snapshots.ApplyMakesUpToDate | cmd/dotmesh-server/pkg/main/snapshotlogic.go:64-124 | sending and receiving any range that is offered makes a second decision "up to date", for any two lists of which the source's has no id twice |
| Snapshots.ApplyCopiesHistory | cmd/dotmesh-server/pkg/main/statemachines.go:1264-1443 | on histories the destination then equals the source |
| Snapshots.RecvKeepsHistory | cmd/dotmesh-server/pkg/main/statemachines.go:1264-1443 | a receive of any part of a stream leaves a history, a prefix of the sender's |
| Snapshots.RestrictSnapshots | cmd/dotmesh-server/pkg/main/utils.go:449-461 | the list up to and including the target, an error if the target is missing, all of it when no target is given |
| Snapshots.RestrictedTransferEndsAtTarget | cmd/dotmesh-server/pkg/main/statemachines.go:1651-1699 | with a target, "up to date" and a completed transfer both leave exactly the target as the newest snapshot; the source's list has no id twice |
| ClusterSafety.UpToDateMeansEqual | cmd/dotmesh-server/pkg/main/statemachines.go:394-441 | when the handoff sees the target up to date, in a list however stale, the target's disk equals the master's at that moment |
| ClusterTheorems.StepKeeps | cmd/dotmesh-server/pkg/main/statemachines.go:314-1443 | every kind of step but a stray mount event and a move that overtakes the mount event, with any failures, keeps the invariant of the cluster |
| ClusterTheorems.AtMostOneMount | cmd/dotmesh-server/pkg/main/etcd.go:476-504 | with events in order and moves behind them, in every state of every run the filesystem is mounted only on the node the masters key names, hence on one at most |
| ClusterTheorems.AcknowledgedCommitsHeld | cmd/dotmesh-server/pkg/main/statemachines.go:331-464 | in every state of every such run, commits and rollbacks coming at any time, the acknowledged commits that no rollback removed are on the current master's disk, in commit order |
| ClusterHistory.AckedExactly | cmd/dotmesh-server/pkg/main/statemachines.go:482-532 | in any run, with events in any order: a commit is acknowledged at the end if and only if some step took and answered it and no later rollback that happened cut it off |
| ClusterHistory.AckedInOrder | cmd/dotmesh-server/pkg/main/statemachines.go:482-532 | the acknowledged commits are in the order in which they were answered |
| ClusterHistory.ReceiveArrives | cmd/dotmesh-server/pkg/main/statemachines.go:1264-1443 | a receive of `count` snapshots on top of where the disk ends leaves exactly the sender's list up to there, and with the whole stream the snapshot asked for is the newest |
| ClusterHistory.OfferArrives | cmd/dotmesh-server/pkg/main/statemachines.go:1264-1443 | a node, with snapshots or without the filesystem, that takes up an offer and receives `count` of it has the list of the master it follows as far as that |
| ClusterProgress.SlaveCatchesUp | cmd/dotmesh-server/pkg/main/statemachines.go:1264-1443 | a slave behind an announced list of the master it follows can receive the rest, and after loading it has exactly that list and announces it |
| ClusterProgress.CommitWorks | cmd/dotmesh-server/pkg/main/statemachines.go:482-532 | an active machine takes a commit: the snapshot is at the end of disk and list, on top of the newest one, and acknowledged |
| ClusterProgress.RollbackWorks | cmd/dotmesh-server/pkg/main/statemachines.go:674-747 | an active machine takes a rollback to a snapshot it has: disk and list end there, what is acknowledged and still there stays so, and the machine stays active |
| ClusterProgress.NewMasterMounts | cmd/dotmesh-server/pkg/main/statemachines.go:926-930 | the node the masters key names mounts when its machine comes to the event |
| ClusterProgress.CommitsAndRollback | cmd/dotmesh-server/pkg/main/statemachines.go:674-747 | a run that creates, commits twice and rolls back to the first commit, which alone stays acknowledged and on disk |
| ClusterTheorems.OnlyRollbackForgets | cmd/dotmesh-server/pkg/main/statemachines.go:674-747 | an acknowledged commit is only ever forgotten by a rollback on the master to an earlier snapshot |
| ClusterTheorems.ReplicasShareHistory | cmd/dotmesh-server/pkg/main/statemachines.go:1264-1443 | all lists on disk, in memory or ever announced are paths of one tree with one root, so "no common snapshots" is never the outcome |
| ClusterTheorems.RollbackKnowsSnapshot | cmd/dotmesh-server/pkg/main/statemachines.go:714-730 | when ZFS rolls back, the list in memory has the snapshot too: the double answer never comes |
| ClusterTheorems.MastershipMovesWithData | cmd/dotmesh-server/pkg/main/statemachines.go:442-464 | the masters key moves only by a switch of its owner, to a node whose disk equals the owner's, with the filesystem mounted nowhere |
| ClusterTheorems.RunRefinesSingleCopy | cmd/dotmesh-server/pkg/main/statemachines.go:314-1443 | every such run of the cluster is a run of one list on one machine: commits append, rollbacks cut, all else (receiving, moving, crashing back to discovery) changes nothing |
| MountOrder.ExclusionExactlyWhen | cmd/dotmesh-server/pkg/main/etcd.go:465-471 | for runs with late and repeated mount events and moves that overtake them: exclusion holds throughout if and only if each mount happens on the node that is master at that moment |
| MountOrder.AtMostOneExactlyWhen | cmd/dotmesh-server/pkg/main/etcd.go:465-471 | for the same runs: there are never two mounts at once if and only if no mount happens while an earlier mount away from the master is still in force, and no mount away from the master while the master has it mounted: mounts in order alone never break it |
| MountOrder.LateMountBreaksExclusion | cmd/dotmesh-server/pkg/main/etcd.go:465-471 | a run from the initial state, with one mount event repeated, after which two nodes have the filesystem mounted |
| MountOrder.OvertakingMoveBreaksExclusion | cmd/dotmesh-server/pkg/main/etcd.go:465-471 | a run with all events of the masters key once and in order, and a move that overtakes the first, after which two nodes have it mounted |
| FsMachines.FsMachine.Snapshot | cmd/dotmesh-server/pkg/main/statemachines.go:482-532 | the method changes the machine as the cluster's step does, including the case of a snapshot taken but not listed |
| FsMachines.FsMachine.Rollback | cmd/dotmesh-server/pkg/main/statemachines.go:674-747 | the loop for the index, the cut of the list, and when there are two answers |
| FsMachines.FsMachine.Discover | cmd/dotmesh-server/pkg/main/statemachines.go:1208-1260 | loading the state of the dataset and announcing it, or backing off |
| FsMachines.FsMachine.HandleMasterEvent | cmd/dotmesh-server/pkg/main/statemachines.go:834-975 | what "mount" and "unmount" events do in each state, and at each of the two places where an inactive machine looks for events |
| FsMachines.FsMachine.HandOff | cmd/dotmesh-server/pkg/main/statemachines.go:314-467 | unmount, snapshot, wait until a list of the target is up to date, compare-and-set: what each exit leaves of the machine and of the masters key, what is answered, and that without a connection to etcd it crashes after its answer |
| MachineSteps.MakeStep | cmd/dotmesh-server/pkg/main/statemachines.go:314-1443 | the methods of the object and of the masters key, called for a step of the cluster, leave of both exactly what the step makes of the node and of the key; a commit is acknowledged if and only if the answer is "snapshotted"; the claim's "create" event and the progress of the watch are bookkeeping beside them |
| MachineSteps.MakeUnmountWhileWaiting | cmd/dotmesh-server/pkg/main/statemachines.go:961-975 | an "unmount" event that finds an inactive machine waiting leaves of it what taking the event and then backing off make of the node |
| MachineSteps.HandOffIsARun | cmd/dotmesh-server/pkg/main/statemachines.go:314-467 | for every way a handoff by the master can end, with any steps of other nodes, announcements and events before the snapshot, before each look at the target's list and before the switch: it is a run of the cluster, and leaves of the machine and of the masters key what the method makes of them |
| MachineSteps.HandOffCompletes | cmd/dotmesh-server/pkg/main/statemachines.go:394-464 | a handoff that a run in order reaches, and what goes on around it until the target is seen up to date: the completed handoffs of the row above exist |
| Registries.Registry.DeducePathToTopLevelFilesystem | cmd/dotmesh-server/pkg/main/registry.go:39-110 | on a registry without cycles the walk ends and what it gives is a chain from the volume to the branch; if no id is registered twice, there is an error only if there is no chain |
| Registries.Registry.LookupCloneByIdWithName | cmd/dotmesh-server/pkg/main/registry.go:460-471 | finds a clone with that id if and only if there is one, in any order of the maps |
| Registries.Registry.LookupFilesystemById | cmd/dotmesh-server/pkg/main/registry.go:477-505 | inverts the lookup by name: the answer's id is the one asked for, unless it is a clone with an empty name, and there is no answer only if no name has that id |
| Registries.Registry.MaybeCloneFilesystemId | cmd/dotmesh-server/pkg/main/registry.go:532-549 | the id a volume and branch name stand for, or an error |
| Registries.Registry.Exists | cmd/dotmesh-server/pkg/main/registry.go:508-529 | agrees with the lookup by name, "" standing for its error |
| Registries.Registry.RegisterPath | cmd/dotmesh-server/pkg/main/rpc.go:747-827 | claims the filesystems of the path that have no master, fails on a name that only etcd knows, else names the volume if the name is free and puts every clone of the path under its id, in the cache always and in etcd if absent |
| Registries.CacheMatchesEtcd | cmd/dotmesh-server/pkg/main/registry.go:308-327 | afterwards the node's clones are those in etcd if and only if no branch of the path stood for something else |
| RegistryWorld.CacheDiffersFromEtcd | cmd/dotmesh-server/pkg/main/registry.go:308-327 | in the run of the conflicting branch the node believes in the one, etcd holds the other |
| Registries.ChainUnique | cmd/dotmesh-server/pkg/main/registry.go:82-109 | there is only one chain between a volume and a filesystem |
| Registries.ChainExists | cmd/dotmesh-server/pkg/main/registry.go:82-109 | in a closed registry every filesystem of a volume hangs on a chain |
| RegistryWorld.StepKeeps | cmd/dotmesh-server/pkg/main/rpc.go:687-719 | creation, branching, deduction, the question whether a branch is missing and registration keep every registry true to how filesystems came about |
| RegistryWorld.DeductionIsAChain | cmd/dotmesh-server/pkg/main/registry.go:39-110 | in every reachable registry deduction ends, has one answer at most, and that starts at the volume, links each clone to the one before and ends at the branch asked for |
| RegistryWorld.BranchIsFound | cmd/dotmesh-server/pkg/main/rpc.go:687-719 | a new branch is found under its name, its path being that of its source and then the branch, taken from the source at the snapshot asked for |
| RegistryWorld.NamesKept | cmd/dotmesh-server/pkg/main/registry.go:532-549 | in runs without conflicting registrations every name goes on standing for the same filesystem |
| RegistryWorld.DeductionSucceeds | cmd/dotmesh-server/pkg/main/registry.go:39-110 | in every run without conflicting registrations the path of a branch can be deduced if and only if the branch exists |
| RegistryWorld.RegisterThenDeduce | cmd/dotmesh-server/pkg/main/rpc.go:801-820 | a deduced path registered on any cluster under any name is deduced there again, same volume id and clones, if and only if the name was free or already meant this volume |
| RegistryWorld.StepThenDeduce | cmd/dotmesh-server/pkg/main/rpc.go:801-820 | the same of the step on the cluster, the others being left alone |
| RegistryWorld.RegisterKeepsDeductions | cmd/dotmesh-server/pkg/main/rpc.go:801-820 | everything deduced before is still deduced if and only if the path's branches agree with those there, or the volume had no name there |
| RegistryWorld.ConflictOrphansABranch | cmd/dotmesh-server/pkg/main/registry.go:393-401 | a run in which two clusters branch under one name, and a transfer that finds its own branch missing registers the one on the way to it, so that another branch cannot be deduced any more |
| EtcdWorld.MakeNameStep | cmd/dotmesh-server/pkg/main/registry.go:212-327 | what is done to a node's registry and to the keys in etcd for each step, and when etcd refuses it |
| EtcdWorld.NodesBelieveEtcd | cmd/dotmesh-server/pkg/main/registry.go:308-327 | over whole runs: what the nodes believe is what etcd holds throughout if and only if every path registered in the run agrees with the branches that are there |
| RegistryWorld.IdsNameBranches | cmd/dotmesh-server/pkg/main/registry.go:477-505 | an id has one user-facing name if and only if no volume has two names |
| Transfers.AttemptPush | cmd/dotmesh-server/pkg/main/statemachines.go:1603-1731 | one attempt: pin the target, restrict, decide, send |
| Transfers.RetryPush | cmd/dotmesh-server/pkg/main/statemachines.go:1595-1754 | up to five attempts, each looking at both lists again, the target pinned by the first that finds one |
| Transfers.RetryPull | cmd/dotmesh-server/pkg/main/statemachines.go:2630-2773 | one decision, then up to five attempts at the same range |
| Transfers.PushSound | cmd/dotmesh-server/pkg/main/statemachines.go:1595-1754 | whatever fails and however stale the lists: success means all up to the target has arrived, nothing at the destination is lost, and no other filesystem changes |
| Transfers.PullSound | cmd/dotmesh-server/pkg/main/statemachines.go:2630-2773 | the same for pulls |
| Transfers.PushExact | cmd/dotmesh-server/pkg/main/statemachines.go:1595-1754 | for faults and reported lists of any age: a possible push succeeds if and only if some attempt goes without a fault while the reported list is what the destination has; one that is not possible, if and only if some attempt without a fault is shown a list that ends at the target |
| Transfers.PushRecovers | cmd/dotmesh-server/pkg/main/replication.go:228-264 | with a peer that reports what it loaded last: a push succeeds if and only if it is possible and, at some attempt without a fault, the peer has loaded its list since anything arrived |
| Transfers.PushBrokenHalfWay | cmd/dotmesh-server/pkg/main/statemachines.go:2443-2476 | a push of two snapshots of which one arrives before the fault fails in all further attempts, none of them faulty, unless the peer loads its list |
| Transfers.PushPins | cmd/dotmesh-server/pkg/main/statemachines.go:1606-1622 | without a target, attempts that find no snapshot do nothing, and the first that finds one fixes the target |
| Transfers.PullRecovers | cmd/dotmesh-server/pkg/main/statemachines.go:2630-2773 | for any age of the two lists: a pull succeeds if and only if its one look shows a list that ends at the target, or shows what the destination has, the transfer is possible, and nothing is received before an attempt without a fault |
| Transfers.PullBrokenHalfWay | cmd/dotmesh-server/pkg/main/statemachines.go:2727-2769 | a pull of two snapshots of which one arrives before the fault fails in all further attempts, none of them faulty |
| PathTransfers.ApplyPath | cmd/dotmesh-server/pkg/main/statemachines.go:2789-2962 | the loop transfers the volume up to the first origin and then each clone up to the next origin, stopping at the first failure |
| PathTransfers.ApplyPathSafe | cmd/dotmesh-server/pkg/main/statemachines.go:2789-2962 | for a path of any length and any failures: no clone is begun before its origin snapshot is there, nothing is lost, and success means that every filesystem of the path is there up to the snapshot needed |
| PathTransfers.ApplyPathExact | cmd/dotmesh-server/pkg/main/statemachines.go:2789-2962 | without faults and with lists up to date a deduced path is transferred if and only if, for each filesystem on it, the destination's list is a prefix of what is needed |
| PathTransfers.PathReachesLeaf | cmd/dotmesh-server/pkg/main/statemachines.go:2871-2962 | without faults, in terms of the path: it is transferred if and only if of each filesystem before the last the destination has no more than leads to the next branch's origin, the last one has snapshots and the destination no other; then the destination has all of the last one, and of the others all up to those origins |
| PathFaults.ApplyPathWithFaults | cmd/dotmesh-server/pkg/main/statemachines.go:2789-2962 | with any faults and lists of any age a deduced path is transferred if and only if the exact condition of `PushExact` or `PullRecovers` holds of each segment, for the destination as the segments before leave it |
| PathFaults.PushedPathRecovers | cmd/dotmesh-server/pkg/main/statemachines.go:2789-2962 | with peers that report what they loaded last, a path is pushed if and only if each segment is possible and tried without a fault once the peer has loaded what arrived |
| PathTransfers.PeerAheadOfOrigin | cmd/dotmesh-server/pkg/main/statemachines.go:1656-1674 | a destination that has the origin and one more snapshot is refused the branch |
| Deletion.SortFilesystemsInDeletionOrder | cmd/dotmesh-server/pkg/main/rpc.go:1371-1381 | for every order of the map: the root and all its clones, each once, every clone before its origin, appended to what was given |
| Deletion.CheckNotInUse | cmd/dotmesh-server/pkg/main/rpc.go:1347-1369 | succeeds if and only if no filesystem that would be deleted has a container count above zero |
| Deletion.Delete | cmd/dotmesh-server/pkg/main/rpc.go:1435-1485 | cut off anywhere, no survivor has a deleted origin; completed, exactly the volume and its clones are gone |
| Deletion.PrefixLeavesNoOrphans | cmd/dotmesh-server/pkg/main/rpc.go:1447-1485 | after deleting any prefix of the order no surviving filesystem has a deleted origin |
| Deletion.ResumeFindsSurvivors | cmd/dotmesh-server/pkg/main/rpc.go:1449-1454 | deleting again finds exactly the survivors when the registry has forgotten exactly the deleted |
| Deletion.ResumeAfterCacheDrop | cmd/dotmesh-server/pkg/main/registry.go:403-408 | when the cache forgets all clones, deleting again leaves no orphan if and only if no clone survived |
| Deletion.CacheDropOrphansAClone | cmd/dotmesh-server/pkg/main/registry.go:403-408 | two clones, one deleted: deleting again removes the volume under the other |
| VolumeDeletion.CollectOrigins | cmd/dotmesh-server/pkg/main/rpc.go:1414-1421 | the map of origins has exactly the clones of the volume, each with its origin |
| VolumeDeletion.DeletionReachesAll | cmd/dotmesh-server/pkg/main/rpc.go:1407-1445 | in every reachable registry, what is sorted for deletion is exactly what the volume's name stands for with some branch if and only if every branch still has its origin in the volume |
| VolumeDeletion.DeletesTheWholeVolume | cmd/dotmesh-server/pkg/main/rpc.go:1407-1445 | which is so in every run without conflicting registrations |
| VolumeDeletion.DeletionMissesABranch | cmd/dotmesh-server/pkg/main/rpc.go:1414-1421 | a run after which deleting the volume leaves a branch of it |
| VolumeDeletion.DeleteVolume | cmd/dotmesh-server/pkg/main/rpc.go:1383-1485 | from the registry on: found if the name is known, refused if anything is in use, cut off anywhere without orphans among what it collected |
| VolumeDeletion.DeleteAfterOneIsGone | cmd/dotmesh-server/pkg/main/registry.go:403-408 | after the cache has heard of one deleted branch, deleting again finds no branch at all and deletes the volume alone |
| Naming.StepKeeps | cmd/dotmesh-server/pkg/main/controller.go:700-798 | every access to etcd by a creating or cleaning process keeps ids and names consistent |
| Naming.OneVolumePerName | cmd/dotmesh-server/pkg/main/controller.go:700-798 | any number of processes creating, stopping anywhere: one id per name, one creator per name, and that holds the master key |
| Naming.OneWinner | cmd/dotmesh-server/pkg/main/controller.go:719-782 | of two processes that both read a name as absent, in any run of creations, at most one gets past its registration, and one that creates does so under its own id while the other has failed or not gone on |
| Naming.ProcessGoesOn | cmd/dotmesh-server/pkg/main/controller.go:700-798 | in any run a process keeps to its name and its id, and only goes on, gives up or finishes |
| Naming.RegistrationOutcome | cmd/dotmesh-server/pkg/main/controller.go:719-737 | a registration fails, leaving etcd alone, if and only if the name is taken at that moment |
| Naming.CheckOutcome | cmd/dotmesh-server/pkg/main/controller.go:738-763 | a process that found an entry gives up if and only if the volume has a master |
| Naming.ClaimOutcome | cmd/dotmesh-server/pkg/main/controller.go:770-788 | a claim fails, leaving the key alone, if and only if the key is taken |
| Naming.CreatedHasEntry | cmd/dotmesh-server/pkg/main/controller.go:700-798 | in any run, deletions and all, a process that created a volume finds it under its name if and only if no cleaner and no unconditional removal took that entry |
| Naming.SlowCreator | cmd/dotmesh-server/pkg/main/controller.go:766-782 | a run in which a volume is deleted and swept up between its registration and the claim, and is created all the same |
| Naming.CreationRun | cmd/dotmesh-server/pkg/main/registry.go:212-246 | a name never changes its id while volumes are only created |
| Naming.RetryCompletes | cmd/dotmesh-server/pkg/main/controller.go:706-782 | from any state earlier attempts left: a new attempt reuses a registered id that is unclaimed, fails on a claimed one leaving etcd alone, and registers a new id for a free name |
| Naming.SweepersSpareTheLiving | cmd/dotmesh-server/pkg/main/etcd.go:288-336 | any number of cleaners interleaved with re-creation: an entry whose id is not deleted stays as it is |
| Naming.SweepOutcome | cmd/dotmesh-server/pkg/main/etcd.go:299-336 | a cleaner goes on to delete if and only if the entry has the deleted id, and deletes if and only if it is still as it was read |
| Naming.SweepIsFinal | cmd/dotmesh-server/pkg/main/etcd.go:288-336 | once a cleaner is done, the deleted volume's entry is gone for the rest of the run |
| Naming.SweepCompletes | cmd/dotmesh-server/pkg/main/etcd.go:284-336 | a cleaner that is not disturbed removes exactly the deleted volume's entry and master key |
| Naming.UnregisterExact | cmd/dotmesh-server/pkg/main/registry.go:248-266 | over any run: living volumes keep their entries throughout if and only if each unconditional removal finds its name free or still standing for a deleted volume |
| Naming.UnregisterHitsTheNext | cmd/dotmesh-server/pkg/main/rpc.go:1499-1500 | a run in which it removes the entry of a new, living volume |
| StateCaches.StateCache.UpdateStates | cmd/dotmesh-server/pkg/main/etcd.go:842-893 | takes in a state only if strictly newer; empty and malformed values change nothing |
| StateCaches.NewestIsCached | cmd/dotmesh-server/pkg/main/etcd.go:842-893 | for any order and repetition, what is cached is the state with the greatest index seen, and nothing only if none was seen |
| StateCaches.CachesAgree | cmd/dotmesh-server/pkg/main/etcd.go:842-893 | two caches told the same states in different orders are equal |
| Preludes.DecodeEncode | cmd/dotmesh-server/pkg/main/utils.go:103-117 | base64, section 4 of RFC 4648, reads back every sequence of bytes |
| Preludes.AlphabetInOrder | cmd/dotmesh-server/pkg/main/utils.go:105-117 | the alphabet of base64 in its order, each symbol standing for one value |
| Preludes.TestVectors | cmd/dotmesh-server/pkg/main/utils.go:105-117 | vectors of section 10 of RFC 4648 |
| Preludes.UnusualTexts | cmd/dotmesh-server/pkg/main/utils.go:61-64 | unused bits in front of the padding are passed over; cut or foreign text is refused |
| Preludes.BreaksMakeNoDifference | cmd/dotmesh-server/pkg/main/utils.go:61-64 | a line break anywhere makes no difference to the decoder |
| Preludes.NeverEmitsMark | cmd/dotmesh-server/pkg/main/utils.go:36-38 | no '!' and no line break in base64 text |
| Preludes.ConsumePrelude | cmd/dotmesh-server/pkg/main/utils.go:40-74 | reading a byte at a time stops right behind the first end marker of the stream, decodes what is before it and leaves what is behind; without a marker it fails, at the end of the stream or where reading fails |
| Preludes.PreludeReadsBack | cmd/dotmesh-server/pkg/main/utils.go:36-117 | an encoded prelude followed by any bytes gives the prelude, and leaves exactly those bytes, and nothing else is possible |
| Pipes.Pipe | cmd/dotmesh-server/pkg/main/utils.go:298-408 | after any number of turns what is written is a prefix of what was read; the end is signalled once or, while running, not yet; it ends in the clean branch if and only if the reader came to its end with everything written; the signal does not tell that ending from the others; it stops at the first turn that does not go on, and reads and writes nothing of a cancelled one |
| Pipes.DeliveredInOrder | cmd/dotmesh-server/pkg/main/utils.go:365-372 | what was read is what the turns bring, in their order |
| Pipes.CountsAreHonest | cmd/dotmesh-server/pkg/main/utils.go:386-387 | the reported counts increase, and the last is all that was copied |

## Left out

Assumptions the results rest on:

- Ids of snapshots and filesystems are fresh when drawn (UUIDs), and not empty.
- Except in `MountOrder`: events of the masters key reach each state machine in order and once, and a
  request to move does not overtake the event that made the node the master.  The watch is
  connected before a filesystem is created.  Restarts of a node's process are not steps.
- New branch names are free where the branch is made, as the client checks
  (cmd/dm/pkg/remotes/api.go:158-170), and not empty.
- ZFS gives the snapshots of a dataset oldest first, cuts off a receive only between snapshots, and
  refuses an incremental package that does not start at the newest snapshot, also one whose first
  snapshots are there already (if it passed over those, a broken transfer would recover).

Not modelled:

- Snapshot metadata, sizes, dirty counts, progress and poll results (their index is bumped while the
  status is still "finished", so it says little), timeouts, retry delays, logging, tracing, metrics.
- ZFS, Docker, HTTP, gzip, certificates, users and authorization: effects with success or failure.
- JSON: the prelude is its serialized bytes, and registry entries are values.
- Liveness: a diverged slave stays diverged, a handoff may wait for ever.
- Transfers, branching and deletion are not steps of the cluster machine; a transfer sees a source
  that does not change meanwhile, and a destination that changes only by the transfer.
- In `RegistryWorld` and `EtcdWorld` one node stands for each cluster; the other nodes hear of a change
  through etcd.
- Changing collaborators, which writes an entry with the id the node remembers; `Filesystems()`,
  whose order is no order; promotion of a branch in the REPL.
- Parsing and printing of volume names, path helpers, the command line client: easy members only.
- `LookupFilesystemById` searching while another thread changes the maps: the locks are taken as given.
- Registries.Registry.DeducePathToTopLevelFilesystem: takes as given that clones have ages, which
  `RegistryWorld.DeductionIsAChain` proves of every reachable registry; on a cyclic registry the loop
  would not end.
- Registries.Registry.RegisterPath: errors of etcd other than a key that exists or is missing, and other
  nodes writing meanwhile, are not modelled.
- FsMachines.FsMachine.HandOff: requests turned away while it waits ("busy-handoff") are not modelled.
- Deletion.Delete: waiting for the deletion on other nodes is not modelled, nor that containers may
  start between the check and the deletion.
- Transfers.RetryPull: the status of the HTTP response is not looked at by the code; a failed response
  shows as a stream without a prelude, one of the faults.
- MachineSteps.HandOffIsARun: takes as given that the node is the master, as it is in every state that is
  reached in order; lists announced, the watch and events turned away count as surroundings of the machine.
- MachineSteps.MakeStep: takes as given that the list in memory has no snapshot twice, as it is a history
  in every reachable state.
- Pipes.Pipe: compression, flushing and closing are left out.
