/** What happens to commits and to replicated snapshots over time: which commits are acknowledged
    and stay so, and that what is sent arrives.
  */
module ClusterHistory {
  import opened Snapshots
  import opened Cluster
  import opened ClusterSafety
  import opened ClusterTheorems
  import opened MountOrder

  // ---------------------------------------------------------------------------
  // Acknowledged commits
  // ---------------------------------------------------------------------------

  predicate Acknowledges(step: Step, x: SnapshotId) {
    step.Commit? && step.id == x && step.zfsOk && step.listOk
  }

  /** The step is a rollback that happens, to a snapshot that is not after x; or on a node that
      does not have x. */
  predicate CutsOff(s: State, step: Step, x: SnapshotId)
    requires Enabled(s, step)
  {
    step.Rollback? && step.stopOk && step.zfsOk &&
    var disk := s.nodes[step.n].disk;
    step.to in disk && x !in disk[..IndexOf(disk, step.to) + 1]
  }

  ghost predicate CutsOffAt(s: State, steps: seq<Step>, j: nat, x: SnapshotId)
    requires j < |steps|
  {
    Enabled(StateAt(s, steps, j), steps[j]) && CutsOff(StateAt(s, steps, j), steps[j], x)
  }

  /** Step i acknowledged x, and no later step cut it off. */
  ghost predicate AckedAt(s: State, steps: seq<Step>, i: nat, x: SnapshotId)
    requires i < |steps|
  {
    Acknowledges(steps[i], x) && forall j :: i < j < |steps| ==> !CutsOffAt(s, steps, j, x)
  }

  lemma StepOnAcked(s: State, step: Step, x: SnapshotId)
    requires Enabled(s, step)
    ensures x in Perform(s, step).acked <==> Acknowledges(step, x) || (x in s.acked && !CutsOff(s, step, x))
  {
    if step.Rollback? {
      var node := s.nodes[step.n];
      SurvivingHas(s.acked, RollBack(node, step.to, step.stopOk, step.zfsOk, step.startOk).disk, x);
    }
  }

  lemma SameStateBefore(s: State, steps: seq<Step>, j: nat)
    requires steps != [] && j < |steps|
    ensures StateAt(s, steps[..|steps| - 1], j) == StateAt(s, steps, j)
  {
    assert steps[..|steps| - 1][..j] == steps[..j];
  }

  lemma AckedAtLast(s: State, steps: seq<Step>, init: seq<Step>, x: SnapshotId)
    requires steps != [] && init == steps[..|steps| - 1]
    ensures (exists i :: 0 <= i < |steps| && AckedAt(s, steps, i, x)) <==>
              Acknowledges(Last(steps), x) ||
              (!CutsOffAt(s, steps, |steps| - 1, x) && exists i :: 0 <= i < |init| && AckedAt(s, init, i, x))
  {
    forall j | 0 <= j < |init| ensures CutsOffAt(s, init, j, x) <==> CutsOffAt(s, steps, j, x) {
      SameStateBefore(s, steps, j);
    }
    forall i | 0 <= i < |init|
      ensures AckedAt(s, steps, i, x) <==> AckedAt(s, init, i, x) && !CutsOffAt(s, steps, |steps| - 1, x)
    {
      AckedAtEarlier(s, steps, init, i, x);
    }
    if Acknowledges(Last(steps), x) { assert AckedAt(s, steps, |steps| - 1, x); }
    if i :| 0 <= i < |steps| && AckedAt(s, steps, i, x) && i != |steps| - 1 {
      assert AckedAt(s, init, i, x);
    }
    if i :| 0 <= i < |init| && AckedAt(s, init, i, x) && !CutsOffAt(s, steps, |steps| - 1, x) {
      assert AckedAt(s, steps, i, x);
    }
  }

  lemma AckedAtEarlier(s: State, steps: seq<Step>, init: seq<Step>, i: nat, x: SnapshotId)
    requires steps != [] && init == steps[..|steps| - 1] && i < |init|
    requires forall j :: 0 <= j < |init| ==> (CutsOffAt(s, init, j, x) <==> CutsOffAt(s, steps, j, x))
    ensures AckedAt(s, steps, i, x) <==> AckedAt(s, init, i, x) && !CutsOffAt(s, steps, |steps| - 1, x)
  {
    assert init[i] == steps[i];
    if AckedAt(s, steps, i, x) {
      forall j | i < j < |init| ensures !CutsOffAt(s, init, j, x) {
        assert !CutsOffAt(s, steps, j, x);
      }
    }
    if AckedAt(s, init, i, x) && !CutsOffAt(s, steps, |steps| - 1, x) {
      forall j | i < j < |steps| ensures !CutsOffAt(s, steps, j, x) {
        if j < |init| { assert !CutsOffAt(s, init, j, x); }
      }
    }
  }

  /** In every run, whatever the order of events: a commit is acknowledged at the end if and only if
      some step took and answered it, and no rollback after that cut it off. */
  lemma {:induction false} AckedExactly(s: State, steps: seq<Step>, x: SnapshotId)
    requires Init(s) && Run(s, steps).Some?
    ensures x in Run(s, steps).value.acked <==> exists i :: 0 <= i < |steps| && AckedAt(s, steps, i, x)
  {
    if steps == [] {
    } else {
      var init := steps[..|steps| - 1];
      AckedExactly(s, init, x);
      AckedAtLast(s, steps, init, x);
      StepOnAcked(Run(s, init).value, Last(steps), x);
    }
  }

  /** The commits that were answered, in order. */
  function Commits(steps: seq<Step>): seq<SnapshotId> {
    if steps == [] then []
    else
      var before := Commits(steps[..|steps| - 1]);
      if Acknowledges(Last(steps), if Last(steps).Commit? then Last(steps).id else "") then before + [Last(steps).id] else before
  }

  lemma {:induction false} SurvivingInOrder(a: seq<SnapshotId>, d: seq<SnapshotId>, disk: seq<SnapshotId>)
    requires Subsequence(a, d)
    ensures Subsequence(Surviving(a, disk), d)
    decreases |d|
  {
    if a == [] || d == [] {
    } else if Last(a) == Last(d) {
      SurvivingInOrder(a[..|a| - 1], d[..|d| - 1], disk);
      var init := Surviving(a[..|a| - 1], disk);
      if Last(a) in disk {
        assert (init + [Last(a)])[..|init|] == init;
      } else {
        SubsequenceLonger(init, d[..|d| - 1], Last(d));
        assert init + [] == init && d[..|d| - 1] + [Last(d)] == d;
      }
    } else {
      SurvivingInOrder(a, d[..|d| - 1], disk);
      SubsequenceLonger(Surviving(a, disk), d[..|d| - 1], Last(d));
      assert d[..|d| - 1] + [Last(d)] == d;
    }
  }

  lemma {:induction false} SubsequenceLonger(a: seq<SnapshotId>, d: seq<SnapshotId>, y: SnapshotId)
    requires Subsequence(a, d)
    ensures Subsequence(a, d + [y])
    decreases |d|, 1
  {
    assert (d + [y])[..|d|] == d;
    if a == [] || Last(a) != y {
    } else {
      SubsequenceShorter(a, d);
    }
  }

  lemma {:induction false} SubsequenceShorter(a: seq<SnapshotId>, d: seq<SnapshotId>)
    requires a != [] && Subsequence(a, d)
    ensures Subsequence(a[..|a| - 1], d)
    decreases |d|, 0
  {
    if Last(a) == Last(d) {
      SubsequenceLonger(a[..|a| - 1], d[..|d| - 1], Last(d));
      assert d[..|d| - 1] + [Last(d)] == d;
    } else {
      SubsequenceShorter(a, d[..|d| - 1]);
      SubsequenceLonger(a[..|a| - 1], d[..|d| - 1], Last(d));
      assert d[..|d| - 1] + [Last(d)] == d;
    }
  }

  /** The acknowledged commits are in the order in which they were answered. */
  lemma {:induction false} AckedInOrder(s: State, steps: seq<Step>)
    requires Init(s) && Run(s, steps).Some?
    ensures Subsequence(Run(s, steps).value.acked, Commits(steps))
  {
    if steps == [] {
    } else {
      var init := steps[..|steps| - 1];
      AckedInOrder(s, init);
      AckedInOrderStep(Run(s, init).value, Last(steps), Commits(init));
    }
  }

  lemma AckedInOrderStep(s: State, step: Step, commits: seq<SnapshotId>)
    requires Enabled(s, step) && Subsequence(s.acked, commits)
    ensures Subsequence(Perform(s, step).acked,
                        if step.Commit? && step.zfsOk && step.listOk then commits + [step.id] else commits)
  {
    AckedAfter(s, step);
    if step.Rollback? {
      SurvivingInOrder(s.acked, commits, Perform(s, step).nodes[step.n].disk);
    } else if step.Commit? {
      SubsequenceBoth(s.acked, commits, step.id);
    }
  }

  lemma AckedAfter(s: State, step: Step)
    requires Enabled(s, step)
    ensures step.Commit? ==> Perform(s, step).acked == if step.zfsOk && step.listOk then s.acked + [step.id] else s.acked
    ensures step.Rollback? ==> step.n in Perform(s, step).nodes
    ensures step.Rollback? ==> Perform(s, step).acked == s.acked || Perform(s, step).acked == Surviving(s.acked, Perform(s, step).nodes[step.n].disk)
    ensures !step.Commit? && !step.Rollback? ==> Perform(s, step).acked == s.acked
  {
  }

  lemma SubsequenceBoth(a: seq<SnapshotId>, d: seq<SnapshotId>, x: SnapshotId)
    requires Subsequence(a, d)
    ensures Subsequence(a + [x], d + [x])
  {
    assert (a + [x])[..|a|] == a && (d + [x])[..|d|] == d;
  }

  // ---------------------------------------------------------------------------
  // Receiving
  // ---------------------------------------------------------------------------

  /** A receive that is under way, of a stream that starts where the disk ends, leaves exactly the
      sender's list up to what has arrived; the whole stream ends at the snapshot offered. */
  lemma ReceiveArrives(t: State, n: NodeId, before: seq<SnapshotId>, sender: seq<SnapshotId>, to: SnapshotId, count: nat)
    requires Enabled(t, FinishReceive(n, count)) && NodeOk(t.masters, t.tree, n, t.nodes[n])
    requires t.nodes[n].disk == before && t.nodes[n].phase == Receiving(sender, Tip(before), to)
    requires before != [] || !t.nodes[n].present
    ensures before <= sender && to in sender && |before| + count <= IndexOf(sender, to) + 1
    ensures var after := Perform(t, FinishReceive(n, count)).nodes[n];
            && after.disk == sender[..|before| + count]
            && (|before| + count == IndexOf(sender, to) + 1 ==> Tip(after.disk) == Some(to))
            && (count > 0 ==> after.present)
  {
    var stream := Send(sender, Tip(before), to).value;
    PartArrives(t.tree, sender, before, to, stream, count);
    WhatArrives(t, n, count, stream);
    TipUpTo(sender, to);
  }

  lemma WhatArrives(t: State, n: NodeId, count: nat, stream: Stream)
    requires Enabled(t, FinishReceive(n, count)) && PhaseFits(t.nodes[n])
    requires var p := t.nodes[n].phase; Send(p.source, p.base, p.to) == Some(stream)
    requires Tip(t.nodes[n].disk) == stream.base && (t.nodes[n].disk != [] || !t.nodes[n].present)
    ensures var after := Perform(t, FinishReceive(n, count)).nodes[n];
            after.disk == t.nodes[n].disk + stream.snaps[..count] && (count > 0 ==> after.present)
  {
  }

  lemma PartArrives(tree: Tree, sender: seq<SnapshotId>, before: seq<SnapshotId>, to: SnapshotId, stream: Stream, count: nat)
    requires IsHistory(tree, sender) && IsHistory(tree, before)
    requires Send(sender, Tip(before), to) == Some(stream) && count <= |stream.snaps|
    ensures before <= sender && to in sender && |before| + count <= IndexOf(sender, to) + 1
    ensures stream.base == Tip(before) && before + stream.snaps[..count] == sender[..|before| + count]
  {
    StreamBeyondTip(tree, sender, before, to);
    PartOfStream(sender, before, IndexOf(sender, to) + 1, stream.snaps, count);
  }

  lemma TipUpTo(s: seq<SnapshotId>, x: SnapshotId)
    requires x in s
    ensures Tip(s[..IndexOf(s, x) + 1]) == Some(x)
  {
  }

  /** Only an empty dataset that is there already receives nothing: a full stream is refused. */
  lemma EmptyDatasetRefuses(s: State, n: NodeId, count: nat)
    requires Inv(s) && Enabled(s, FinishReceive(n, count))
    requires s.nodes[n].present && s.nodes[n].disk == [] && s.nodes[n].phase.base == None
    ensures Perform(s, FinishReceive(n, count)).nodes[n].disk == []
  {
    assert NodeOk(s.masters, s.tree, n, s.nodes[n]);
  }

  /** A node that takes up what it is offered, and of which then `count` snapshots arrive: if it has
      the filesystem with some snapshots, or does not have it at all, its disk is then the
      sender's list as far as it came, and all of it if the whole stream came. */
  lemma OfferArrives(s: State, n: NodeId, observed: seq<SnapshotId>, count: nat) returns (t: State)
    requires Inv(s) && Enabled(s, StartReceive(n, observed))
    requires s.nodes[n].disk != [] || !s.nodes[n].present
    ensures t == Perform(s, StartReceive(n, observed))
    ensures Enabled(t, FinishReceive(n, count)) ==>
              var before, sender := s.nodes[n].disk, s.nodes[s.masters[s.nodes[n].view - 1]].disk;
              var after := Perform(t, FinishReceive(n, count)).nodes[n].disk;
              && observed != [] && Last(observed) in sender
              && |before| + count <= IndexOf(sender, Last(observed)) + 1
              && before <= sender && after == sender[..|before| + count]
              && (|before| + count == IndexOf(sender, Last(observed)) + 1 ==> Tip(after) == Tip(observed))
  {
    var sender;
    t, sender := TakesOffer(s, n, observed);
    ArrivesIfEnabled(t, n, s.nodes[n].disk, sender, observed, count);
  }

  lemma ArrivesIfEnabled(t: State, n: NodeId, before: seq<SnapshotId>, sender: seq<SnapshotId>, observed: seq<SnapshotId>, count: nat)
    requires n in t.nodes && NodeOk(t.masters, t.tree, n, t.nodes[n]) && observed != []
    requires t.nodes[n].disk == before && t.nodes[n].phase == Receiving(sender, Tip(before), Last(observed))
    requires before != [] || !t.nodes[n].present
    ensures Enabled(t, FinishReceive(n, count)) ==>
              var after := Perform(t, FinishReceive(n, count)).nodes[n].disk;
              && Last(observed) in sender
              && |before| + count <= IndexOf(sender, Last(observed)) + 1
              && before <= sender && after == sender[..|before| + count]
              && (|before| + count == IndexOf(sender, Last(observed)) + 1 ==> Tip(after) == Tip(observed))
  {
    if Enabled(t, FinishReceive(n, count)) {
      ReceiveArrives(t, n, before, sender, Last(observed), count);
    }
  }

  lemma TakesOffer(s: State, n: NodeId, observed: seq<SnapshotId>) returns (t: State, sender: seq<SnapshotId>)
    requires Inv(s) && Enabled(s, StartReceive(n, observed))
    ensures t == Perform(s, StartReceive(n, observed)) && n in t.nodes && NodeOk(t.masters, t.tree, n, t.nodes[n])
    ensures sender == s.nodes[s.masters[s.nodes[n].view - 1]].disk
    ensures t.nodes[n].disk == s.nodes[n].disk && t.nodes[n].present == s.nodes[n].present && observed != []
    ensures t.nodes[n].phase == Receiving(sender, Tip(s.nodes[n].disk), Last(observed))
  {
    t := Perform(s, StartReceive(n, observed));
    StartReceiveKeeps(s, StartReceive(n, observed));
    sender := OfferTaken(s, n, observed, t);
    assert NodeOk(t.masters, t.tree, n, t.nodes[n]);
  }

  /** What a node that begins to receive has taken: the sender's list and the offered range. */
  lemma OfferTaken(s: State, n: NodeId, observed: seq<SnapshotId>, t: State) returns (sender: seq<SnapshotId>)
    requires Inv(s) && Enabled(s, StartReceive(n, observed)) && t == Perform(s, StartReceive(n, observed))
    ensures n in t.nodes && observed != []
    ensures sender == s.nodes[s.masters[s.nodes[n].view - 1]].disk
    ensures t.nodes[n].disk == s.nodes[n].disk && t.nodes[n].present == s.nodes[n].present
    ensures t.nodes[n].phase == Receiving(sender, Tip(s.nodes[n].disk), Last(observed))
  {
    var before := s.nodes[n];
    StartReceiveIs(s, StartReceive(n, observed));
    MemIsDisk(s, n);
    OfferStartsAtTip(observed, before.mem);
    OfferEnds(observed, before.mem);
    sender := s.nodes[s.masters[before.view - 1]].disk;
  }

  lemma MemIsDisk(s: State, n: NodeId)
    requires Inv(s) && n in s.nodes && !s.nodes[n].phase.Discovering?
    ensures s.nodes[n].mem == s.nodes[n].disk
  {
    assert NodeOk(s.masters, s.tree, n, s.nodes[n]);
  }

  lemma OfferEnds(from: seq<SnapshotId>, to: seq<SnapshotId>)
    requires CanApplyOutcome(from, to).Apply?
    ensures from != [] && CanApplyOutcome(from, to).to == Last(from)
  {
  }
}
