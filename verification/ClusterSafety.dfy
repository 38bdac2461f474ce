/** What holds in every state of every run of the cluster: one mount at a time, replicas
    that are histories of one commit tree, and no committed data lost by a handoff.
  */
module ClusterSafety {
  import opened Snapshots
  import opened Cluster

  // ---------------------------------------------------------------------------
  // The invariant
  // ---------------------------------------------------------------------------

  /** A snapshot nothing has been taken on top of. */
  ghost predicate Leaf(tree: Tree, x: SnapshotId) {
    x in tree && forall y <- tree :: tree[y] != Some(x)
  }

  /** Mounted, or in the middle of a handoff. */
  predicate Engaged(n: Node) {
    n.mounted || n.phase.Active? || n.phase.Handoff?
  }

  /** What the phase of one node says about its dataset. */
  predicate PhaseFits(n: Node) {
    && (n.mounted ==> n.present)
    && (!n.present ==> n.disk == [])
    && (!n.phase.Discovering? ==> n.mem == n.disk)
    && (n.phase.Active? ==> n.mounted)
    && (n.phase.Missing? ==> !n.present)
    && (n.phase.Inactive? || n.phase.Receiving? ==> !n.mounted)
    && (n.phase.Inactive? || n.phase.Handoff? ==> n.present)
    && (n.phase.Handoff? ==> n.mounted == n.phase.step.Unmounting?)
    && (n.phase.Receiving? && n.phase.base == None ==> n.disk == [])
  }

  ghost predicate HoldsHistories(tree: Tree, n: Node) {
    && IsHistory(tree, n.disk)
    && IsHistory(tree, n.mem)
    && (forall a <- n.announced :: IsHistory(tree, a))
    && (n.phase.Receiving? ==> IsHistory(tree, n.phase.source))
  }

  /** Whoever has heard of a snapshot from this node can find it on its disk. */
  ghost predicate Keeps(n: Node, x: SnapshotId) {
    && (x in n.mem ==> x in n.disk)
    && (forall a <- n.announced :: x in a ==> x in n.disk)
  }

  /** Waiting for, or just past, the moment the target is up to date with the last snapshot. */
  predicate Pledged(n: Node) {
    n.phase.Handoff? && (n.phase.step.Waiting? || n.phase.step.Switching?)
  }

  /** What holds of the node that the masters key names.  Until it has heard of its election
      it holds the newest snapshot of all, so that nothing can be received on top of it. */
  ghost predicate MasterOk(masters: seq<NodeId>, tree: Tree, node: Node) {
    && (|masters| > 1 && node.handled < |masters| ==> node.disk != [] && Leaf(tree, Last(node.disk)))
    && (node.phase.Receiving? ==> |masters| > 1 && node.handled < |masters|)
    && (node.disk == [] ==> tree == map[])
  }

  ghost predicate NodeOk(masters: seq<NodeId>, tree: Tree, n: NodeId, node: Node) {
    && node.handled <= node.view <= |masters|
    && PhaseFits(node)
    && HoldsHistories(tree, node)
    // only the master is engaged, and only once it knows that it is the master
    && (Engaged(node) ==>
          masters != [] && Last(masters) == n && (node.handled == |masters| || |masters| == 1))
    && (masters != [] && Last(masters) == n ==> MasterOk(masters, tree, node))
    && (node.createPending ==> masters == [n])
    && (node.phase.Receiving? ==> masters != [])
    && (node.phase.Handoff? ==> node.handled == |masters|)
    && (Pledged(node) ==> node.disk != [] && Leaf(tree, Last(node.disk)))
  }

  ghost predicate NodesOk(s: State) {
    && (forall n <- s.nodes :: NodeOk(s.masters, s.tree, n, s.nodes[n]))
    && (forall m <- s.masters :: m in s.nodes)
  }

  /** Every mastership that is over was taken note of by its owner before it ended it. */
  ghost predicate PastConsumed(s: State)
    requires NodesOk(s)
  {
    forall i :: 0 <= i < |s.masters| - 1 ==> s.nodes[s.masters[i]].handled > i
  }

  ghost predicate Uncreated(s: State) {
    s.masters == [] || exists n <- s.nodes :: s.nodes[n].createPending
  }

  ghost predicate NothingBeforeCreate(s: State) {
    Uncreated(s) ==> s.tree == map[] && s.acked == [] && forall m <- s.nodes :: !s.nodes[m].present
  }

  ghost predicate TreeOk(tree: Tree) {
    && (forall x <- tree, y <- tree :: tree[x] == None && tree[y] == None ==> x == y)
    && (forall x <- tree :: tree[x].Some? ==> tree[x].value in tree)
  }

  ghost predicate AllKeep(s: State, x: SnapshotId) {
    forall m <- s.nodes :: Keeps(s.nodes[m], x)
  }

  ghost predicate HandoffSafe(s: State, node: Node) {
    && (Pledged(node) ==> node.disk != [] && AllKeep(s, Last(node.disk)))
    && (node.phase.Handoff? && node.phase.step.Switching? ==>
          node.phase.target in s.nodes && s.nodes[node.phase.target].disk == node.disk)
  }

  /** Every element of `a` is in `d`, in the same order. */
  ghost predicate Subsequence(a: seq<SnapshotId>, d: seq<SnapshotId>)
    decreases |d|
  {
    if a == [] then true
    else if d == [] then false
    else if Last(a) == Last(d) then Subsequence(a[..|a| - 1], d[..|d| - 1])
    else Subsequence(a, d[..|d| - 1])
  }

  ghost predicate MasterSafe(s: State)
    requires NodesOk(s)
  {
    s.masters != [] ==>
      Subsequence(s.acked, s.nodes[Owner(s)].disk) && HandoffSafe(s, s.nodes[Owner(s)])
  }

  ghost predicate Inv(s: State) {
    && NodesOk(s)
    && PastConsumed(s)
    && NothingBeforeCreate(s)
    && TreeOk(s.tree)
    && MasterSafe(s)
  }

  // ---------------------------------------------------------------------------
  // Facts about histories that the steps rest on
  // ---------------------------------------------------------------------------

  lemma {:induction false} HistoryParent(tree: Tree, s: seq<SnapshotId>, i: int)
    requires IsHistory(tree, s)
    ensures 0 < i < |s| ==> s[i] in tree && tree[s[i]] == Some(s[i - 1])
  {
    if i <= 0 || i >= |s| - 1 {
    } else {
      HistoryParent(tree, s[..|s| - 1], i);
    }
  }

  /** A leaf can only be the last snapshot of a history. */
  lemma LeafIsLast(tree: Tree, s: seq<SnapshotId>, x: SnapshotId)
    requires IsHistory(tree, s) && Leaf(tree, x) && x in s
    ensures Last(s) == x
  {
    var i :| 0 <= i < |s| && s[i] == x;
    HistoryParent(tree, s, i + 1);
  }

  /** Nothing can be received on top of a leaf. */
  lemma NothingAboveLeaf(tree: Tree, source: seq<SnapshotId>, disk: seq<SnapshotId>,
                         base: Option<SnapshotId>, to: SnapshotId, count: nat)
    requires IsHistory(tree, source) && IsHistory(tree, disk)
    requires disk != [] && Leaf(tree, Last(disk))
    requires Send(source, base, to).Some? && count <= |Send(source, base, to).value.snaps|
    ensures Recv(disk, Send(source, base, to).value, count) == disk
  {
    if Tip(disk) == base {
      RecvKeepsHistory(tree, source, disk, base, to, 0);
      assert source[|disk| - 1] == Last(disk);
      LeafIsLast(tree, source, Last(disk));
      HistoryDistinct(tree, source);
      assert false;
    }
  }

  lemma {:induction false} RootOf(tree: Tree, s: seq<SnapshotId>)
    requires IsHistory(tree, s) && s != []
    ensures s[0] in tree && tree[s[0]] == None
  {
    if |s| <= 1 {
    } else {
      RootOf(tree, s[..|s| - 1]);
    }
  }

  lemma AppendHistory(tree: Tree, s: seq<SnapshotId>, x: SnapshotId)
    requires IsHistory(tree, s) && x !in tree
    ensures IsHistory(tree[x := Tip(s)], s + [x])
  {
    HistoryGrows(tree, s, x, Tip(s));
    assert (s + [x])[..|s|] == s;
  }

  lemma SubsequenceAppend(a: seq<SnapshotId>, d: seq<SnapshotId>, x: SnapshotId)
    requires Subsequence(a, d)
    ensures Subsequence(a + [x], d + [x])
  {
    assert (a + [x])[..|a|] == a && (d + [x])[..|d|] == d;
  }

  lemma {:induction false} SubsequenceIn(a: seq<SnapshotId>, d: seq<SnapshotId>)
    requires Subsequence(a, d)
    ensures forall x <- a :: x in d
    decreases |d|
  {
    if a == [] {
    } else {
      assert d == d[..|d| - 1] + [Last(d)] && a == a[..|a| - 1] + [Last(a)];
      SubsequenceIn(if Last(a) == Last(d) then a[..|a| - 1] else a, d[..|d| - 1]);
    }
  }

  lemma SubsequenceSkip(a: seq<SnapshotId>, d: seq<SnapshotId>, x: SnapshotId)
    requires Subsequence(a, d) && x !in d
    ensures Subsequence(a, d + [x])
  {
    SubsequenceIn(a, d);
    assert (d + [x])[..|d|] == d;
  }

  lemma {:induction false} SurvivingAll(a: seq<SnapshotId>, d: seq<SnapshotId>)
    requires forall x <- a :: x in d
    ensures Surviving(a, d) == a
  {
    if a == [] {
    } else {
      SurvivingAll(a[..|a| - 1], d);
    }
  }

  /** Cutting a list back leaves exactly the acknowledged commits of the part that stays. */
  lemma {:induction false} SurvivingCut(a: seq<SnapshotId>, d: seq<SnapshotId>, k: nat)
    requires Subsequence(a, d) && Distinct(d) && k <= |d|
    ensures Subsequence(Surviving(a, d[..k]), d[..k])
    decreases |d|
  {
    SubsequenceIn(a, d);
    if a == [] {
    } else if k == |d| {
      assert d[..k] == d;
      SurvivingAll(a, d);
    } else {
      var d' := d[..|d| - 1];
      assert d'[..k] == d[..k];
      if Last(a) == Last(d) {
        SurvivingCut(a[..|a| - 1], d', k);
        assert Last(d) !in d[..k];
        assert Surviving(a, d[..k]) == Surviving(a[..|a| - 1], d[..k]);
      } else {
        SurvivingCut(a, d', k);
      }
    }
  }

  // ---------------------------------------------------------------------------
  // Every step keeps the invariant
  // ---------------------------------------------------------------------------

  /** One node may load what its disk holds and announce what it knows. */
  ghost predicate Reloads(was: Node, node: Node) {
    && node.disk == was.disk
    && (node.mem == was.mem || node.mem == was.disk)
    && (forall a <- node.announced :: a in was.announced || a == was.mem || a == was.disk)
  }

  lemma ReloadKeeps(s: State, n: NodeId, node: Node, x: SnapshotId)
    requires n in s.nodes && Reloads(s.nodes[n], node) && AllKeep(s, x)
    ensures AllKeep(Put(s, n, node), x)
  {
    assert Keeps(s.nodes[n], x);
    assert Keeps(node, x);
  }

  /** A change to one node that leaves its disk alone. */
  lemma LocalChange(s: State, n: NodeId, node: Node)
    requires Inv(s) && n in s.nodes && NodeOk(s.masters, s.tree, n, node)
    requires var was := s.nodes[n];
             && Reloads(was, node) && node.present == was.present
             && node.handled >= was.handled && node.createPending == was.createPending
             && (Pledged(node) ==> was.phase == node.phase)
    ensures Inv(Put(s, n, node))
  {
    var t := Put(s, n, node);
    assert Uncreated(t) ==> Uncreated(s);
    if t.masters != [] {
      var o := s.nodes[Owner(s)];
      assert HandoffSafe(s, o);
      if Pledged(t.nodes[Owner(s)]) {
        ReloadKeeps(s, n, node, Last(o.disk));
      }
    }
  }

  lemma ClaimKeeps(s: State, step: Step)
    requires Inv(s) && step.Claim? && Enabled(s, step)
    ensures Inv(Perform(s, step))
  {
    var t := Perform(s, step);
    forall m <- t.nodes ensures NodeOk(t.masters, t.tree, m, t.nodes[m]) {
      assert NodeOk(s.masters, s.tree, m, s.nodes[m]);
      assert !s.nodes[m].present && !Engaged(s.nodes[m]);
    }
  }

  lemma WatchKeeps(s: State, step: Step)
    requires Inv(s) && step.Watch? && Enabled(s, step)
    ensures Inv(Perform(s, step))
  {
    var node := s.nodes[step.n];
    var after := node.(view := node.view + 1);
    assert NodeOk(s.masters, s.tree, step.n, node);
    assert NodeOk(s.masters, s.tree, step.n, after);
    LocalChange(s, step.n, after);
    assert Perform(s, step) == Put(s, step.n, after);
  }

  lemma MasterEventOk(masters: seq<NodeId>, tree: Tree, n: NodeId, node: Node, ok: bool, inUse: bool)
    requires NodeOk(masters, tree, n, node) && node.handled < node.view
    requires !node.phase.Receiving? && !node.phase.Discovering?
    requires masters[node.handled] == n ==> node.handled == |masters| - 1
    ensures NodeOk(masters, tree, n,
                   MasterEvent(node, masters[node.handled] == n, ok, inUse).(handled := node.handled + 1))
  {
  }

  lemma HandleMasterOk(s: State, n: NodeId, ok: bool, inUse: bool, after: Node)
    requires Inv(s) && n in s.nodes && s.nodes[n].handled < s.nodes[n].view <= |s.masters|
    requires !s.nodes[n].phase.Receiving? && !s.nodes[n].phase.Discovering?
    requires var node := s.nodes[n];
             after == MasterEvent(node, s.masters[node.handled] == n, ok, inUse).(handled := node.handled + 1)
    ensures Inv(Put(s, n, after))
  {
    var node := s.nodes[n];
    assert NodeOk(s.masters, s.tree, n, node);
    assert s.masters[node.handled] == n ==> node.handled == |s.masters| - 1;
    MasterEventOk(s.masters, s.tree, n, node, ok, inUse);
    LocalChange(s, n, after);
  }

  lemma HandleMasterIs(s: State, step: Step) returns (after: Node)
    requires step.HandleMaster? && Enabled(s, step)
    ensures var node := s.nodes[step.n];
            && node.handled < node.view <= |s.masters| && !node.phase.Receiving? && !node.phase.Discovering?
            && after == MasterEvent(node, s.masters[node.handled] == step.n, step.ok, step.inUse).(handled := node.handled + 1)
    ensures Perform(s, step) == Put(s, step.n, after)
  {
    after := Perform(s, step).nodes[step.n];
  }

  lemma HandleMasterKeeps(s: State, step: Step)
    requires Inv(s) && step.HandleMaster? && Enabled(s, step)
    ensures Inv(Perform(s, step))
  {
    var after := HandleMasterIs(s, step);
    HandleMasterOk(s, step.n, step.ok, step.inUse, after);
  }

  lemma MoveKeeps(s: State, step: Step)
    requires Inv(s) && step.Move? && Enabled(s, step) && InTurn(s, step)
    ensures Inv(Perform(s, step))
  {
    LocalChange(s, step.n, Perform(s, step).nodes[step.n]);
  }

  lemma HandoffUnmountKeeps(s: State, step: Step)
    requires Inv(s) && step.HandoffUnmount? && Enabled(s, step)
    ensures Inv(Perform(s, step))
  {
    LocalChange(s, step.n, Perform(s, step).nodes[step.n]);
  }

  lemma BackingOffOk(s: State, n: NodeId)
    requires Inv(s) && n in s.nodes && !s.nodes[n].phase.Discovering?
    ensures Inv(Put(s, n, s.nodes[n].(phase := Discovering)))
  {
    assert NodeOk(s.masters, s.tree, n, s.nodes[n]);
    LocalChange(s, n, s.nodes[n].(phase := Discovering));
  }

  lemma BackOffKeeps(s: State, step: Step)
    requires Inv(s) && step.BackOff? && Enabled(s, step)
    ensures Inv(Perform(s, step))
  {
    BackingOffOk(s, step.n);
  }

  lemma DiscoverKeeps(s: State, step: Step)
    requires Inv(s) && step.Discover? && Enabled(s, step)
    ensures Inv(Perform(s, step))
  {
    LocalChange(s, step.n, Discovered(s.nodes[step.n]));
  }

  lemma AnnounceKeeps(s: State, step: Step)
    requires Inv(s) && step.Announce? && Enabled(s, step)
    ensures Inv(Perform(s, step))
  {
    var node := s.nodes[step.n];
    LocalChange(s, step.n, node.(announced := node.announced + {node.mem}));
  }

  lemma HandleCreateKeeps(s: State, step: Step)
    requires Inv(s) && step.HandleCreate? && Enabled(s, step)
    ensures Inv(Perform(s, step))
  {
    var t := Perform(s, step);
    assert NodeOk(s.masters, s.tree, step.n, s.nodes[step.n]);
    assert Uncreated(s);
    assert NodeOk(t.masters, t.tree, step.n, t.nodes[step.n]);
    assert !Uncreated(t) by {
      forall m <- t.nodes ensures !t.nodes[m].createPending {
        assert NodeOk(s.masters, s.tree, m, s.nodes[m]);
      }
    }
  }

  lemma GrowHistories(tree: Tree, n: Node, x: SnapshotId, parent: Option<SnapshotId>)
    requires HoldsHistories(tree, n) && x !in tree
    ensures HoldsHistories(tree[x := parent], n)
  {
    HistoryGrows(tree, n.disk, x, parent);
    HistoryGrows(tree, n.mem, x, parent);
    forall a <- n.announced ensures IsHistory(tree[x := parent], a) {
      HistoryGrows(tree, a, x, parent);
    }
    if n.phase.Receiving? { HistoryGrows(tree, n.phase.source, x, parent); }
  }

  lemma TreeGrows(tree: Tree, disk: seq<SnapshotId>, x: SnapshotId)
    requires TreeOk(tree) && IsHistory(tree, disk) && x !in tree && (disk == [] ==> tree == map[])
    ensures TreeOk(tree[x := Tip(disk)]) && Leaf(tree[x := Tip(disk)], x)
  {
    HistoryInTree(tree, disk);
  }

  /** The master takes a snapshot; the other nodes are none the wiser. */
  lemma GrowNodes(s: State, n: NodeId, x: SnapshotId, node: Node)
    requires Inv(s) && n in s.nodes && Engaged(s.nodes[n]) && x !in s.tree
    requires NodeOk(s.masters, s.tree[x := Tip(s.nodes[n].disk)], n, node)
    ensures NodesOk(Put(Grow(s, x, s.nodes[n], true), n, node))
  {
    var t := Put(Grow(s, x, s.nodes[n], true), n, node);
    assert NodeOk(s.masters, s.tree, n, s.nodes[n]);
    forall m <- t.nodes ensures NodeOk(t.masters, t.tree, m, t.nodes[m]) {
      if m != n {
        assert NodeOk(s.masters, s.tree, m, s.nodes[m]);
        GrowHistories(s.tree, s.nodes[m], x, Tip(s.nodes[n].disk));
      }
    }
  }

  /** The node that takes a snapshot, whatever becomes of it. */
  lemma SnapshotOk(masters: seq<NodeId>, tree: Tree, n: NodeId, node: Node, x: SnapshotId, listOk: bool, next: Phase)
    requires NodeOk(masters, tree, n, node) && TreeOk(tree) && x !in tree
    requires (next == Active && node.phase == Active) ||
             (node.phase.Handoff? && node.phase.step.Snapshotting? && next == node.phase.(step := Waiting))
    ensures NodeOk(masters, tree[x := Tip(node.disk)], n, TakeSnapshot(node, x, true, listOk, next))
  {
    AppendHistory(tree, node.disk, x);
    GrowHistories(tree, node, x, Tip(node.disk));
    TreeGrows(tree, node.disk, x);
  }

  lemma CreatedStays(s: State, t: State, n: NodeId, node: Node)
    requires Inv(s) && n in s.nodes && s.nodes[n].present && !node.createPending
    requires t.nodes == s.nodes[n := node] && t.masters != []
    ensures NothingBeforeCreate(t)
  {
    assert !Uncreated(s);
  }

  /** A change to the disk of the master, by the master. */
  lemma MasterChange(s: State, t: State, n: NodeId, node: Node)
    requires Inv(s) && n in s.nodes && Engaged(s.nodes[n]) && s.nodes[n].present
    requires t.nodes == s.nodes[n := node] && t.masters == s.masters
    requires NodesOk(t) && TreeOk(t.tree) && !node.createPending && node.handled == s.nodes[n].handled
    requires Subsequence(t.acked, node.disk) && HandoffSafe(t, node)
    ensures Inv(t)
  {
    assert NodeOk(s.masters, s.tree, n, s.nodes[n]);
    CreatedStays(s, t, n, node);
  }

  /** A snapshot the master takes outside a handoff. */
  lemma CommitOk(s: State, n: NodeId, x: SnapshotId, listOk: bool)
    requires Inv(s) && n in s.nodes && s.nodes[n].phase.Active? && x !in s.tree
    ensures var t := Put(Grow(s, x, s.nodes[n], true), n, TakeSnapshot(s.nodes[n], x, true, listOk, Active));
            Inv(if listOk then t.(acked := s.acked + [x]) else t)
  {
    var node := s.nodes[n];
    var after := TakeSnapshot(node, x, true, listOk, Active);
    var t := Put(Grow(s, x, node, true), n, after);
    assert NodeOk(s.masters, s.tree, n, node) && MasterSafe(s);
    SnapshotOk(s.masters, s.tree, n, node, x, listOk, Active);
    GrowNodes(s, n, x, after);
    TreeGrows(s.tree, node.disk, x);
    NewlyAcked(s.tree, s.acked, node.disk, x);
    assert !Uncreated(s);
    MasterChange(s, if listOk then t.(acked := s.acked + [x]) else t, n, after);
  }

  lemma NewlyAcked(tree: Tree, acked: seq<SnapshotId>, disk: seq<SnapshotId>, x: SnapshotId)
    requires IsHistory(tree, disk) && x !in tree && Subsequence(acked, disk)
    ensures Subsequence(acked, disk + [x]) && Subsequence(acked + [x], disk + [x])
  {
    HistoryInTree(tree, disk);
    SubsequenceAppend(acked, disk, x);
    SubsequenceSkip(acked, disk, x);
  }

  lemma CommitKeeps(s: State, step: Step)
    requires Inv(s) && step.Commit? && Enabled(s, step)
    ensures Inv(Perform(s, step))
  {
    if step.zfsOk {
      CommitOk(s, step.n, step.id, step.listOk);
    } else {
      BackingOffOk(s, step.n);
    }
  }

  /** The snapshot the master takes for a handoff: nobody else can have heard of it. */
  lemma HandoffSnapshotOk(s: State, n: NodeId, x: SnapshotId, listOk: bool)
    requires Inv(s) && n in s.nodes && x !in s.tree
    requires s.nodes[n].phase.Handoff? && s.nodes[n].phase.step.Snapshotting?
    ensures Inv(Put(Grow(s, x, s.nodes[n], true), n,
                    TakeSnapshot(s.nodes[n], x, true, listOk, s.nodes[n].phase.(step := Waiting))))
  {
    var node := s.nodes[n];
    var after := TakeSnapshot(node, x, true, listOk, node.phase.(step := Waiting));
    var t := Put(Grow(s, x, node, true), n, after);
    assert NodeOk(s.masters, s.tree, n, node) && MasterSafe(s);
    SnapshotOk(s.masters, s.tree, n, node, x, listOk, node.phase.(step := Waiting));
    GrowNodes(s, n, x, after);
    TreeGrows(s.tree, node.disk, x);
    NewlyAcked(s.tree, s.acked, node.disk, x);
    NewSnapshotKept(s, t, n, x);
    assert !Uncreated(s);
    MasterChange(s, t, n, after);
  }

  /** When one node has a new snapshot, no node says that it has it without having it. */
  lemma NewSnapshotKept(s: State, t: State, n: NodeId, x: SnapshotId)
    requires NodesOk(s) && n in s.nodes && x !in s.tree
    requires n in t.nodes && t.nodes == s.nodes[n := t.nodes[n]]
    requires x in t.nodes[n].disk && t.nodes[n].announced == s.nodes[n].announced
    ensures AllKeep(t, x)
  {
    forall m <- t.nodes ensures Keeps(t.nodes[m], x) {
      assert NodeOk(s.masters, s.tree, m, s.nodes[m]);
      UnheardOf(s.tree, s.nodes[m], x);
    }
  }

  lemma HandoffSnapshotKeeps(s: State, step: Step)
    requires Inv(s) && step.HandoffSnapshot? && Enabled(s, step)
    ensures Inv(Perform(s, step))
  {
    if step.zfsOk {
      HandoffSnapshotOk(s, step.n, step.id, step.listOk);
    } else {
      BackingOffOk(s, step.n);
    }
  }

  /** Nobody knows a snapshot that was never taken. */
  lemma UnheardOf(tree: Tree, n: Node, x: SnapshotId)
    requires HoldsHistories(tree, n) && x !in tree
    ensures x !in n.disk && x !in n.mem && forall a <- n.announced :: x !in a
  {
    HistoryInTree(tree, n.disk);
    HistoryInTree(tree, n.mem);
    forall a <- n.announced ensures x !in a {
      HistoryInTree(tree, a);
    }
  }

  /** Being up to date is all it takes: once any list the target has announced reads as up
      to date, the target's disk is the master's. */
  lemma UpToDateMeansEqual(s: State, n: NodeId, observed: seq<SnapshotId>)
    requires Inv(s) && n in s.nodes && Pledged(s.nodes[n])
    requires var target := s.nodes[n].phase.target;
             observed == [] || (target in s.nodes && observed in s.nodes[target].announced)
    requires CanApplyOutcome(s.nodes[n].mem, observed) == ToSnapsUpToDate
    ensures var target := s.nodes[n].phase.target;
            target in s.nodes && s.nodes[target].disk == s.nodes[n].disk
  {
    var node := s.nodes[n];
    assert NodeOk(s.masters, s.tree, n, node) && HandoffSafe(s, node);
    var target := node.phase.target;
    assert target in s.nodes && NodeOk(s.masters, s.tree, target, s.nodes[target]);
    CanApplyExact(s.tree, node.mem, observed);
    var x := Last(node.disk);
    assert x in observed && Keeps(s.nodes[target], x);
    LeafIsLast(s.tree, s.nodes[target].disk, x);
    SameTip(s.tree, s.nodes[target].disk, node.disk);
  }

  lemma HandoffCheckKeeps(s: State, step: Step)
    requires Inv(s) && step.HandoffCheck? && Enabled(s, step)
    ensures Inv(Perform(s, step))
  {
    var n, node := step.n, s.nodes[step.n];
    if CanApplyOutcome(node.mem, step.observed) == ToSnapsUpToDate {
      UpToDateMeansEqual(s, n, step.observed);
      assert NodeOk(s.masters, s.tree, n, node) && HandoffSafe(s, node);
      var after := node.(phase := node.phase.(step := Switching));
      var t := Put(s, n, after);
      assert NodeOk(s.masters, s.tree, n, after);
      assert Uncreated(t) ==> Uncreated(s);
      ReloadKeeps(s, n, after, Last(node.disk));
      assert Perform(s, step) == t;
    }
  }

  /** The compare-and-set that ends one mastership and starts the next. */
  lemma SwitchOk(s: State, n: NodeId)
    requires Inv(s) && n in s.nodes && s.nodes[n].phase.Handoff? && s.nodes[n].phase.step.Switching?
    ensures Inv(Put(s, n, s.nodes[n].(phase := Inactive)).(masters := s.masters + [s.nodes[n].phase.target]))
  {
    var node := s.nodes[n];
    var after := node.(phase := Inactive);
    var t := Put(s, n, after).(masters := s.masters + [node.phase.target]);
    assert NodeOk(s.masters, s.tree, n, node) && MasterSafe(s);
    SwitchNodes(s, n, after);
    CreatedStays(s, t, n, after);
    SwitchPast(s, n, after);
    assert t.nodes[Owner(t)].disk == node.disk;
  }

  lemma SwitchPast(s: State, n: NodeId, after: Node)
    requires NodesOk(s) && PastConsumed(s) && n in s.nodes && s.masters != [] && Owner(s) == n
    requires s.nodes[n].handled == after.handled == |s.masters|
    ensures forall i :: 0 <= i < |s.masters| ==> s.nodes[n := after][s.masters[i]].handled > i
  {
  }

  lemma SwitchNodes(s: State, n: NodeId, after: Node)
    requires Inv(s) && n in s.nodes && s.nodes[n].phase.Handoff? && s.nodes[n].phase.step.Switching?
    requires after == s.nodes[n].(phase := Inactive)
    ensures NodesOk(Put(s, n, after).(masters := s.masters + [s.nodes[n].phase.target]))
  {
    var node := s.nodes[n];
    var t := Put(s, n, after).(masters := s.masters + [node.phase.target]);
    assert NodeOk(s.masters, s.tree, n, node) && MasterSafe(s) && !Uncreated(s);
    assert NodeOk(s.masters, s.tree, n, after);
    forall m <- t.nodes ensures NodeOk(t.masters, t.tree, m, t.nodes[m]) {
      assert NodeOk(s.masters, s.tree, m, s.nodes[m]);
      NewMasterOk(s.masters, s.tree, node.phase.target, m, t.nodes[m]);
    }
  }

  /** A node on which nothing is going on may see the masters key change. */
  lemma NewMasterOk(masters: seq<NodeId>, tree: Tree, target: NodeId, m: NodeId, node: Node)
    requires NodeOk(masters, tree, m, node) && !Engaged(node) && !node.createPending && masters != []
    requires m == target ==> node.disk != [] && Leaf(tree, Last(node.disk))
    ensures NodeOk(masters + [target], tree, m, node)
  {
  }

  lemma HandoffSwitchKeeps(s: State, step: Step)
    requires Inv(s) && step.HandoffSwitch? && Enabled(s, step)
    ensures Inv(Perform(s, step))
  {
    var n, node := step.n, s.nodes[step.n];
    assert NodeOk(s.masters, s.tree, n, node);
    if step.reached {
      SwitchOk(s, n);
    } else {
      LocalChange(s, n, node.(phase := Inactive));
    }
  }

  /** A master that knows it is one has nobody to receive from but itself. */
  lemma NothingToReceive(s: State, n: NodeId, observed: seq<SnapshotId>)
    requires n in s.nodes && s.masters != [] && Owner(s) == n && NodeOk(s.masters, s.tree, n, s.nodes[n])
    requires s.nodes[n].phase.Inactive? || s.nodes[n].phase.Missing?
    requires CanReceive(s, n, observed)
    ensures |s.masters| > 1 && s.nodes[n].handled < |s.masters|
  {
    var node := s.nodes[n];
    assert node.mem == node.disk;
    HistoryDistinct(s.tree, node.disk);
    var o := CanApplyOutcome(observed, node.mem);
    OfferStartsAtTip(observed, node.mem);
    NothingBeyondTip(node.disk, o.to);
  }

  lemma OfferStartsAtTip(observed: seq<SnapshotId>, mem: seq<SnapshotId>)
    requires CanApplyOutcome(observed, mem).Apply?
    ensures CanApplyOutcome(observed, mem).from == Tip(mem)
  {
  }

  /** No filesystem can send anything after its own newest snapshot. */
  lemma NothingBeyondTip(disk: seq<SnapshotId>, to: SnapshotId)
    requires Distinct(disk)
    ensures Send(disk, Tip(disk), to) == None
  {
    if disk != [] { IndexOfDistinct(disk, |disk| - 1); }
  }

  lemma StartReceiveOk(s: State, n: NodeId, observed: seq<SnapshotId>)
    requires Inv(s) && n in s.nodes && (s.nodes[n].phase.Inactive? || s.nodes[n].phase.Missing?)
    requires CanReceive(s, n, observed)
    ensures var node := s.nodes[n];
            var o := CanApplyOutcome(observed, node.mem);
            Inv(Put(s, n, node.(phase := Receiving(s.nodes[s.masters[node.view - 1]].disk, o.from, o.to))))
  {
    var node := s.nodes[n];
    var m := s.masters[node.view - 1];
    var o := CanApplyOutcome(observed, node.mem);
    assert NodeOk(s.masters, s.tree, n, node) && NodeOk(s.masters, s.tree, m, s.nodes[m]);
    if Owner(s) == n { NothingToReceive(s, n, observed); }
    LocalChange(s, n, node.(phase := Receiving(s.nodes[m].disk, o.from, o.to)));
  }

  lemma StartReceiveIs(s: State, step: Step)
    requires step.StartReceive? && Enabled(s, step)
    ensures CanReceive(s, step.n, step.observed) && (s.nodes[step.n].phase.Inactive? || s.nodes[step.n].phase.Missing?)
    ensures var node := s.nodes[step.n];
            var o := CanApplyOutcome(step.observed, node.mem);
            Perform(s, step) == Put(s, step.n, node.(phase := Receiving(s.nodes[s.masters[node.view - 1]].disk, o.from, o.to)))
  {
  }

  lemma StartReceiveKeeps(s: State, step: Step)
    requires Inv(s) && step.StartReceive? && Enabled(s, step)
    ensures Inv(Perform(s, step))
  {
    StartReceiveIs(s, step);
    StartReceiveOk(s, step.n, step.observed);
  }

  lemma SlaveGrows(s: State, n: NodeId, node: Node)
    requires Inv(s) && n in s.nodes && s.masters != [] && Owner(s) != n && s.tree != map[]
    requires var was := s.nodes[n];
             && was.disk <= node.disk && node.mem == was.mem && node.announced == was.announced
             && node.handled == was.handled && node.createPending == was.createPending && !Pledged(node)
    requires NodeOk(s.masters, s.tree, n, node)
    requires s.nodes[n].disk != [] && Leaf(s.tree, Last(s.nodes[n].disk)) ==> node.disk == s.nodes[n].disk
    ensures Inv(Put(s, n, node))
  {
    var t := Put(s, n, node);
    var o := s.nodes[Owner(s)];
    assert MasterSafe(s) && NodeOk(s.masters, s.tree, Owner(s), o);
    if Pledged(o) {
      GrownKeeps(s, n, node, Last(o.disk));
    }
    assert Uncreated(t) ==> Uncreated(s);
  }

  lemma ReceivedOk(s: State, n: NodeId, count: nat)
    requires Inv(s) && n in s.nodes && s.nodes[n].phase.Receiving?
    requires var p := s.nodes[n].phase;
             Send(p.source, p.base, p.to).Some? && count <= |Send(p.source, p.base, p.to).value.snaps|
    ensures var p := s.nodes[n].phase;
            Inv(Put(s, n, Received(s.nodes[n], Send(p.source, p.base, p.to).value, count)))
  {
    var node := s.nodes[n];
    var source, base, to := node.phase.source, node.phase.base, node.phase.to;
    var stream := Send(source, base, to).value;
    var after := Received(node, stream, count);
    assert NodeOk(s.masters, s.tree, n, node);
    if count == 0 || Tip(node.disk) != base || (base == None && node.present) {
      BackingOffOk(s, n);
    } else if node.disk != [] && Leaf(s.tree, Last(node.disk)) {
      NothingAboveLeaf(s.tree, source, node.disk, base, to, count);
      BackingOffOk(s, n);
    } else {
      RecvKeepsHistory(s.tree, source, node.disk, base, to, count);
      assert s.tree != map[] by { HistoryInTree(s.tree, source); }
      SlaveGrows(s, n, after);
    }
  }

  lemma FinishReceiveKeeps(s: State, step: Step)
    requires Inv(s) && step.FinishReceive? && Enabled(s, step)
    ensures Inv(Perform(s, step))
  {
    ReceivedOk(s, step.n, step.count);
  }

  lemma GrownKeeps(s: State, n: NodeId, node: Node, x: SnapshotId)
    requires n in s.nodes && s.nodes[n].disk <= node.disk
    requires node.mem == s.nodes[n].mem && node.announced == s.nodes[n].announced && AllKeep(s, x)
    ensures AllKeep(Put(s, n, node), x)
  {
    assert Keeps(s.nodes[n], x);
    assert Keeps(node, x);
  }

  lemma RollbackKeeps(s: State, step: Step)
    requires Inv(s) && step.Rollback? && Enabled(s, step)
    ensures Inv(Perform(s, step))
  {
    var n, node := step.n, s.nodes[step.n];
    assert NodeOk(s.masters, s.tree, n, node) && MasterSafe(s);
    var after := RollBack(node, step.to, step.stopOk, step.zfsOk, step.startOk);
    if !RollsBack(node, step.to, step.stopOk, step.zfsOk) {
      BackingOffOk(s, n);
    } else {
      var k := SliceIndex(node.disk, step.to);
      HistoryPrefix(s.tree, node.disk, k);
      HistoryDistinct(s.tree, node.disk);
      SurvivingCut(s.acked, node.disk, k);
      assert !Uncreated(s);
      assert NodeOk(s.masters, s.tree, n, after);
      MasterChange(s, Perform(s, step), n, after);
    }
  }
}
