/** What can be done from where: the requests an active machine takes, how a slave catches up, how
    a new master takes over; and a run in which commits are made and rolled back.
  */
module ClusterProgress {
  import opened Snapshots
  import opened Cluster
  import opened ClusterSafety
  import opened ClusterTheorems
  import opened ClusterHistory
  import opened MountOrder

  /** A commit that works. */
  lemma CommitWorks(s: State, n: NodeId, x: SnapshotId)
    requires n in s.nodes && s.nodes[n].phase.Active? && x !in s.tree
    ensures Enabled(s, Commit(n, x, true, true))
    ensures var t := Perform(s, Commit(n, x, true, true));
            && n in t.nodes && t.nodes[n].phase.Active?
            && t.nodes[n].disk == s.nodes[n].disk + [x] && t.nodes[n].mem == s.nodes[n].mem + [x]
            && t.acked == s.acked + [x] && x in t.tree && t.tree[x] == Tip(s.nodes[n].disk)
  {
  }

  /** A rollback that works: the disk and the list end at the snapshot, and the machine goes on. */
  lemma RollbackWorks(s: State, n: NodeId, to: SnapshotId)
    requires n in s.nodes && s.nodes[n].phase.Active? && s.nodes[n].mem == s.nodes[n].disk && to in s.nodes[n].disk
    ensures Enabled(s, Rollback(n, to, true, true, true))
    ensures var t := Perform(s, Rollback(n, to, true, true, true));
            && n in t.nodes && t.nodes[n].phase.Active?
            && t.nodes[n].disk == s.nodes[n].disk[..IndexOf(s.nodes[n].disk, to) + 1] == t.nodes[n].mem
            && t.masters == s.masters && t.tree == s.tree
            && forall x :: x in t.acked <==> x in s.acked && x in t.nodes[n].disk
  {
    forall x { SurvivingHas(s.acked, s.nodes[n].disk[..IndexOf(s.nodes[n].disk, to) + 1], x); }
  }

  lemma MoveWorks(s: State, n: NodeId, target: NodeId)
    requires n in s.nodes && s.nodes[n].phase.Active?
    ensures Enabled(s, Move(n, target, false))
    ensures Perform(s, Move(n, target, false)) == Put(s, n, s.nodes[n].(phase := Handoff(target, Unmounting)))
  {
  }

  /** The node that the masters key names mounts once its state machine comes to the event. */
  lemma NewMasterMounts(s: State, n: NodeId)
    requires n in s.nodes && s.masters != [] && Owner(s) == n && s.nodes[n].phase.Inactive?
    requires s.nodes[n].handled == |s.masters| - 1 && s.nodes[n].view == |s.masters|
    ensures Enabled(s, HandleMaster(n, true, false))
    ensures var t := Perform(s, HandleMaster(n, true, false));
            && n in t.nodes && t.nodes[n].mounted && t.nodes[n].phase.Active?
            && t.nodes[n].disk == s.nodes[n].disk && t.masters == s.masters
  {
  }

  // ---------------------------------------------------------------------------
  // A slave catches up
  // ---------------------------------------------------------------------------

  /** The node goes by a master that takes itself for one. */
  predicate Follows(s: State, n: NodeId, m: NodeId) {
    && n in s.nodes && m in s.nodes
    && 0 < s.nodes[n].view <= |s.masters| && s.masters[s.nodes[n].view - 1] == m
    && 0 < s.nodes[m].view <= |s.masters| && s.masters[s.nodes[m].view - 1] == m
  }

  lemma OfferIsMade(s: State, n: NodeId, m: NodeId, observed: seq<SnapshotId>)
    requires Inv(s) && Follows(s, n, m) && (s.nodes[n].phase.Missing? || s.nodes[n].phase.Inactive?)
    requires observed in s.nodes[m].announced && observed <= s.nodes[m].disk && s.nodes[n].disk < observed
    ensures Enabled(s, StartReceive(n, observed))
    ensures Send(s.nodes[m].disk, Tip(s.nodes[n].disk), Last(observed)).Some?
    ensures |Send(s.nodes[m].disk, Tip(s.nodes[n].disk), Last(observed)).value.snaps| == |observed| - |s.nodes[n].disk|
  {
    var now, all := s.nodes[n].disk, s.nodes[m].disk;
    MemIsDisk(s, n);
    assert NodeOk(s.masters, s.tree, n, s.nodes[n]) && NodeOk(s.masters, s.tree, m, s.nodes[m]);
    RangeOffered(s.tree, all, now, observed);
    OfferEnabled(s, n, m, observed);
  }

  lemma RangeOffered(tree: Tree, all: seq<SnapshotId>, now: seq<SnapshotId>, observed: seq<SnapshotId>)
    requires IsHistory(tree, all) && IsHistory(tree, now) && observed <= all && now < observed
    ensures CanApplyOutcome(observed, now) == Apply(Tip(now), Last(observed))
    ensures Send(all, Tip(now), Last(observed)).Some?
    ensures |Send(all, Tip(now), Last(observed)).value.snaps| == |observed| - |now|
  {
    assert all[..|observed|] == observed;
    HistoryPrefix(tree, all, |observed|);
    CanApplyExact(tree, observed, now);
    HistoryDistinct(tree, all);
    assert all[|observed| - 1] == Last(observed);
    RangeCut(all, |observed| - 1, now);
  }

  lemma OfferEnabled(s: State, n: NodeId, m: NodeId, observed: seq<SnapshotId>)
    requires Follows(s, n, m) && (s.nodes[n].phase.Missing? || s.nodes[n].phase.Inactive?)
    requires observed in s.nodes[m].announced && CanApplyOutcome(observed, s.nodes[n].mem).Apply?
    requires var o := CanApplyOutcome(observed, s.nodes[n].mem); Send(s.nodes[m].disk, o.from, o.to).Some?
    ensures Enabled(s, StartReceive(n, observed))
  {
  }

  lemma FinishIsEnabled(t: State, n: NodeId, sender: seq<SnapshotId>, base: Option<SnapshotId>, to: SnapshotId, count: nat)
    requires n in t.nodes && t.nodes[n].phase == Receiving(sender, base, to)
    requires Send(sender, base, to).Some? && count <= |Send(sender, base, to).value.snaps|
    ensures Enabled(t, FinishReceive(n, count))
    ensures n in Perform(t, FinishReceive(n, count)).nodes
    ensures Perform(t, FinishReceive(n, count)).nodes[n].phase.Discovering?
    ensures Perform(t, FinishReceive(n, count)).nodes[n].mounted == t.nodes[n].mounted
  {
  }

  lemma ThenLoads(u: State, n: NodeId)
    requires n in u.nodes && u.nodes[n].phase.Discovering? && u.nodes[n].present && !u.nodes[n].mounted
    ensures Enabled(u, Discover(n))
    ensures var after := Perform(u, Discover(n)).nodes[n];
            after.disk == after.mem == u.nodes[n].disk && after.disk in after.announced && after.phase.Inactive?
  {
  }

  lemma UnmountedWhileReceiving(t: State, n: NodeId)
    requires n in t.nodes && t.nodes[n].phase.Receiving? && NodeOk(t.masters, t.tree, n, t.nodes[n])
    ensures !t.nodes[n].mounted
  {
  }

  lemma MissingIsEmpty(s: State, n: NodeId)
    requires Inv(s) && n in s.nodes && s.nodes[n].phase.Missing?
    ensures !s.nodes[n].present && s.nodes[n].disk == []
  {
    assert NodeOk(s.masters, s.tree, n, s.nodes[n]);
  }

  /** A slave that is behind a list the master has announced can be offered the rest; when all of
      it has arrived and is loaded, the slave has exactly that list, and announces it. */
  lemma SlaveCatchesUp(s: State, n: NodeId, m: NodeId, observed: seq<SnapshotId>) returns (steps: seq<Step>, v: State)
    requires Inv(s) && Follows(s, n, m)
    requires s.nodes[n].phase.Missing? || (s.nodes[n].phase.Inactive? && s.nodes[n].disk != [])
    requires observed in s.nodes[m].announced && observed <= s.nodes[m].disk && s.nodes[n].disk < observed
    ensures Run(s, steps) == Some(v) && n in v.nodes
    ensures OnlyReceives(n, steps)
    ensures v.nodes[n].disk == v.nodes[n].mem == observed && observed in v.nodes[n].announced && v.nodes[n].phase.Inactive?
  {
    var begun, t := BeginsToCatchUp(s, n, m, observed);
    var more;
    more, v := WholeArrives(t, n, s.nodes[n].disk, s.nodes[m].disk, observed);
    Join(s, begun, t, more, v);
    steps := begun + more;
  }

  /** The node receives, and loads what it has. */
  predicate OnlyReceives(n: NodeId, steps: seq<Step>) {
    forall step <- steps :: step.n == n && (step.StartReceive? || step.FinishReceive? || step.Discover?)
  }

  lemma BeginsToCatchUp(s: State, n: NodeId, m: NodeId, observed: seq<SnapshotId>) returns (steps: seq<Step>, t: State)
    requires Inv(s) && Follows(s, n, m)
    requires s.nodes[n].phase.Missing? || (s.nodes[n].phase.Inactive? && s.nodes[n].disk != [])
    requires observed in s.nodes[m].announced && observed <= s.nodes[m].disk && s.nodes[n].disk < observed
    ensures Run(s, steps) == Some(t) && OnlyReceives(n, steps)
    ensures n in t.nodes && NodeOk(t.masters, t.tree, n, t.nodes[n])
    ensures t.nodes[n].disk == s.nodes[n].disk && t.nodes[n].phase == Receiving(s.nodes[m].disk, Tip(s.nodes[n].disk), Last(observed))
    ensures s.nodes[n].disk != [] || !t.nodes[n].present
    ensures Send(s.nodes[m].disk, Tip(s.nodes[n].disk), Last(observed)).Some?
    ensures |Send(s.nodes[m].disk, Tip(s.nodes[n].disk), Last(observed)).value.snaps| == |observed| - |s.nodes[n].disk|
  {
    OfferIsMade(s, n, m, observed);
    if s.nodes[n].phase.Missing? { MissingIsEmpty(s, n); }
    var sender;
    t, sender := TakesOffer(s, n, observed);
    StartIsRun(s, n, observed);
    steps := [StartReceive(n, observed)];
  }

  lemma StartIsRun(s: State, n: NodeId, observed: seq<SnapshotId>)
    requires Enabled(s, StartReceive(n, observed))
    ensures Run(s, [StartReceive(n, observed)]) == Some(Perform(s, StartReceive(n, observed)))
  {
    Extend(s, [], s, StartReceive(n, observed), Perform(s, StartReceive(n, observed)));
    assert [] + [StartReceive(n, observed)] == [StartReceive(n, observed)];
  }

  lemma WholeArrives(t: State, n: NodeId, before: seq<SnapshotId>, sender: seq<SnapshotId>, observed: seq<SnapshotId>)
    returns (steps: seq<Step>, v: State)
    requires n in t.nodes && NodeOk(t.masters, t.tree, n, t.nodes[n]) && observed != [] && before < observed && observed <= sender
    requires t.nodes[n].disk == before && t.nodes[n].phase == Receiving(sender, Tip(before), Last(observed))
    requires before != [] || !t.nodes[n].present
    requires Send(sender, Tip(before), Last(observed)).Some?
    requires |Send(sender, Tip(before), Last(observed)).value.snaps| == |observed| - |before|
    ensures Run(t, steps) == Some(v) && n in v.nodes
    ensures OnlyReceives(n, steps)
    ensures v.nodes[n].disk == v.nodes[n].mem == observed && observed in v.nodes[n].announced && v.nodes[n].phase.Inactive?
  {
    var count := |observed| - |before|;
    FinishIsEnabled(t, n, sender, Tip(before), Last(observed), count);
    UnmountedWhileReceiving(t, n);
    ReceiveArrives(t, n, before, sender, Last(observed), count);
    var u := Perform(t, FinishReceive(n, count));
    assert sender[..|observed|] == observed;
    ThenLoads(u, n);
    v := Perform(u, Discover(n));
    Extend(t, [], t, FinishReceive(n, count), u);
    Extend(t, [] + [FinishReceive(n, count)], u, Discover(n), v);
    steps := [] + [FinishReceive(n, count)] + [Discover(n)];
  }

  // ---------------------------------------------------------------------------
  // A run with commits and a rollback
  // ---------------------------------------------------------------------------

  /** A node on its own that has created the filesystem, with these snapshots. */
  function OnA(disk: seq<SnapshotId>, tree: Tree, acked: seq<SnapshotId>): State {
    Two(ACreated(true).(disk := disk, mem := disk), BMissing, ["a"], tree).(acked := acked)
  }

  lemma CommitOnA(disk: seq<SnapshotId>, tree: Tree, acked: seq<SnapshotId>, x: SnapshotId)
    requires x !in tree
    ensures Enabled(OnA(disk, tree, acked), Commit("a", x, true, true))
    ensures Perform(OnA(disk, tree, acked), Commit("a", x, true, true)) == OnA(disk + [x], tree[x := Tip(disk)], acked + [x])
  {
    var s, node := OnA(disk, tree, acked), ACreated(true).(disk := disk + [x], mem := disk + [x]);
    assert s.nodes["a" := node] == OnA(disk + [x], tree[x := Tip(disk)], acked + [x]).nodes;
  }

  lemma RollbackOnA(tree: Tree)
    ensures Enabled(OnA(["x", "y"], tree, ["x", "y"]), Rollback("a", "x", true, true, true))
    ensures Perform(OnA(["x", "y"], tree, ["x", "y"]), Rollback("a", "x", true, true, true)) == OnA(["x"], tree, ["x"])
  {
    var s, node := OnA(["x", "y"], tree, ["x", "y"]), ACreated(true).(disk := ["x"], mem := ["x"]);
    assert ["x", "y"][..1] == ["x"];
    assert Surviving([], ["x"]) == [];
    assert ["x"][..0] == [] && Surviving(["x"], ["x"]) == ["x"];
    assert Surviving(["x", "y"], ["x"]) == ["x"];
    assert s.nodes["a" := node] == OnA(["x"], tree, ["x"]).nodes;
  }

  /** "a" creates the filesystem, commits x and y, and rolls back to x: x is acknowledged, and is
      all there is. */
  lemma CommitsAndRollback() returns (s: State, steps: seq<Step>)
    ensures Init(s) && Run(s, steps).Some?
    ensures var t := Run(s, steps).value; t.acked == ["x"] && "a" in t.nodes && t.nodes["a"].disk == ["x"] && t.nodes["a"].phase.Active?
    ensures |steps| >= 3 && steps[|steps| - 3..] == [Commit("a", "x", true, true), Commit("a", "y", true, true), Rollback("a", "x", true, true, true)]
  {
    s := Two(NewNode, NewNode, [], map[]);
    var before := CreatedOnA(true);
    assert Two(ACreated(true), BMissing, ["a"], map[]) == OnA([], map[], []);
    var rest := CommitsThenRollback();
    Join(s, before, OnA([], map[], []), rest, OnA(["x"], XY, ["x"]));
    steps := before + rest;
  }

  lemma CommitsThenRollback() returns (steps: seq<Step>)
    ensures Run(OnA([], map[], []), steps) == Some(OnA(["x"], XY, ["x"]))
    ensures steps == [Commit("a", "x", true, true), Commit("a", "y", true, true), Rollback("a", "x", true, true, true)]
  {
    var two := TwoCommits();
    RollbackOnA(XY);
    var rollback := Rollback("a", "x", true, true, true);
    Extend(OnA([], map[], []), two, OnA(["x", "y"], XY, ["x", "y"]), rollback, OnA(["x"], XY, ["x"]));
    steps := two + [rollback];
  }

  const XY: Tree := map["x" := None, "y" := Some("x")]

  lemma TwoCommits() returns (steps: seq<Step>)
    ensures Run(OnA([], map[], []), steps) == Some(OnA(["x", "y"], XY, ["x", "y"]))
    ensures steps == [Commit("a", "x", true, true), Commit("a", "y", true, true)]
  {
    var t := OnA([] + ["x"], map["x" := None], [] + ["x"]);
    CommitOnA([], map[], [], "x");
    assert [] + ["x"] == ["x"] && ["x"] + ["y"] == ["x", "y"];
    CommitOnA(["x"], map["x" := None], ["x"], "y");
    Extend(OnA([], map[], []), [], OnA([], map[], []), Commit("a", "x", true, true), t);
    Extend(OnA([], map[], []), [] + [Commit("a", "x", true, true)], t, Commit("a", "y", true, true), OnA(["x", "y"], XY, ["x", "y"]));
    steps := [] + [Commit("a", "x", true, true)] + [Commit("a", "y", true, true)];
  }
}
