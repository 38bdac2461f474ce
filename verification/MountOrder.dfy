/** Mount exclusion without the assumption that events arrive in order.

    Events are handed to a state machine from fresh threads, and all of them are handed over
    again when a watch reconnects, so that a "mount" may be handled when it is no longer
    true.  HandleStray is that step.  A request to move may also overtake the "mount" event
    that goes before it.  Exclusion then fails, and this module says exactly when.
  */
module MountOrder {
  import opened Snapshots
  import opened Cluster
  import opened ClusterTheorems

  /** The step mounts the filesystem where it was not mounted before. */
  predicate Mounts(s: State, step: Step)
    requires Enabled(s, step)
  {
    !s.nodes[step.n].mounted && Perform(s, step).nodes[step.n].mounted
  }

  /** The check the event handler could make: is this node the master now? */
  predicate AtMaster(s: State, step: Step) {
    s.masters != [] && Owner(s) == step.n
  }

  /** Past the unmount of its handoff a node has the filesystem unmounted. */
  ghost predicate HandoffsUnmounted(s: State) {
    forall n <- s.nodes :: s.nodes[n].phase.Handoff? && !s.nodes[n].phase.step.Unmounting? ==> !s.nodes[n].mounted
  }

  lemma HandoffsUnmountedStep(s: State, step: Step)
    requires HandoffsUnmounted(s) && Enabled(s, step)
    ensures HandoffsUnmounted(Perform(s, step))
  {
    OthersUntouched(s, step);
    OwnHandoffUnmounted(s, step);
    var t := Perform(s, step);
    forall n <- t.nodes ensures t.nodes[n].phase.Handoff? && !t.nodes[n].phase.step.Unmounting? ==> !t.nodes[n].mounted {
      if n != step.n { assert t.nodes[n] == s.nodes[n]; }
    }
  }

  lemma OwnHandoffUnmounted(s: State, step: Step)
    requires HandoffsUnmounted(s) && Enabled(s, step)
    ensures var node := Perform(s, step).nodes[step.n];
            node.phase.Handoff? && !node.phase.step.Unmounting? ==> !node.mounted
  {
    var node := s.nodes[step.n];
    assert node.phase.Handoff? && !node.phase.step.Unmounting? ==> !node.mounted;
  }

  /** One node changes, and the masters key only if that node ends its mastership, or there was
      none, with nothing mounted or unmounted meanwhile. */
  ghost predicate OneNodeStep(s: State, t: State, n: NodeId) {
    && n in s.nodes && t.nodes.Keys == s.nodes.Keys
    && (forall m <- s.nodes :: m != n ==> t.nodes[m] == s.nodes[m])
    && (t.masters == s.masters ||
        (t.nodes[n].mounted == s.nodes[n].mounted && (s.masters == [] || (Owner(s) == n && !s.nodes[n].mounted))))
  }

  lemma StepIsOneNodeStep(s: State, step: Step)
    requires HandoffsUnmounted(s) && Enabled(s, step)
    ensures OneNodeStep(s, Perform(s, step), step.n)
  {
    OthersUntouched(s, step);
    if step.Claim? || step.HandoffSwitch? { MastershipEndsUnmounted(s, step); }
  }

  lemma MastershipEndsUnmounted(s: State, step: Step)
    requires HandoffsUnmounted(s) && Enabled(s, step) && (step.Claim? || step.HandoffSwitch?)
    ensures var t := Perform(s, step);
            && t.nodes[step.n].mounted == s.nodes[step.n].mounted
            && (t.masters != s.masters && s.masters != [] ==> Owner(s) == step.n && !s.nodes[step.n].mounted)
  {
  }

  lemma OneNodeExclusion(s: State, t: State, n: NodeId)
    requires OneNodeStep(s, t, n) && Exclusion(s)
    ensures Exclusion(t) <==> (!s.nodes[n].mounted && t.nodes[n].mounted ==> s.masters != [] && Owner(s) == n)
  {
    assert forall m <- s.nodes :: m != n ==> t.nodes[m].mounted == s.nodes[m].mounted;
  }

  /** Exclusion survives a step exactly when the step does not mount away from the master. */
  lemma StepExclusion(s: State, step: Step)
    requires HandoffsUnmounted(s) && Exclusion(s) && Enabled(s, step)
    ensures Exclusion(Perform(s, step)) <==> (Mounts(s, step) ==> AtMaster(s, step))
  {
    StepIsOneNodeStep(s, step);
    OneNodeExclusion(s, Perform(s, step), step.n);
  }

  lemma {:induction false} RunPrefix(s: State, steps: seq<Step>, k: nat)
    requires k <= |steps| && Run(s, steps).Some?
    ensures Run(s, steps[..k]).Some?
    ensures k < |steps| ==> Enabled(Run(s, steps[..k]).value, steps[k])
    ensures k < |steps| ==> Run(s, steps[..k + 1]) == Some(Perform(Run(s, steps[..k]).value, steps[k]))
  {
    if k == |steps| {
      assert steps[..k] == steps;
    } else if k == |steps| - 1 {
      assert steps[..k + 1] == steps;
    } else {
      var init := steps[..|steps| - 1];
      RunPrefix(s, init, k);
      assert init[..k] == steps[..k] && init[..k + 1] == steps[..k + 1];
    }
  }

  /** The state a run has reached after its first k steps. */
  function StateAt(s: State, steps: seq<Step>, k: nat): State
    requires k <= |steps|
  {
    match Run(s, steps[..k]) case Some(t) => t case None => s
  }

  lemma {:induction false} HandoffsStayUnmounted(s: State, steps: seq<Step>, k: nat)
    requires Init(s) && Run(s, steps).Some? && k <= |steps|
    ensures HandoffsUnmounted(StateAt(s, steps, k))
  {
    if k == 0 {
    } else {
      HandoffsStayUnmounted(s, steps, k - 1);
      RunPrefix(s, steps, k - 1);
      HandoffsUnmountedStep(StateAt(s, steps, k - 1), steps[k - 1]);
    }
  }

  lemma {:induction false} MountedAtMasters(s: State, steps: seq<Step>, k: nat)
    requires Init(s) && Run(s, steps).Some? && k <= |steps|
    requires forall i :: 0 <= i < k ==>
      Enabled(StateAt(s, steps, i), steps[i]) &&
      (Mounts(StateAt(s, steps, i), steps[i]) ==> AtMaster(StateAt(s, steps, i), steps[i]))
    ensures Exclusion(StateAt(s, steps, k)) && HandoffsUnmounted(StateAt(s, steps, k))
  {
    if k == 0 {
    } else {
      MountedAtMasters(s, steps, k - 1);
      HandoffsStayUnmounted(s, steps, k);
      RunPrefix(s, steps, k - 1);
      StepExclusion(StateAt(s, steps, k - 1), steps[k - 1]);
    }
  }

  /** Whatever the order events arrive in: the filesystem is never mounted away from the
      master throughout a run if and only if no step of the run mounts it on a node that is
      not the master at that moment. */
  lemma ExclusionExactlyWhen(s: State, steps: seq<Step>)
    requires Init(s) && Run(s, steps).Some?
    ensures (forall k :: 0 <= k <= |steps| ==> Exclusion(StateAt(s, steps, k)))
       <==> (forall k :: 0 <= k < |steps| ==>
               Enabled(StateAt(s, steps, k), steps[k]) &&
               (Mounts(StateAt(s, steps, k), steps[k]) ==> AtMaster(StateAt(s, steps, k), steps[k])))
  {
    forall k | 0 <= k < |steps| ensures Enabled(StateAt(s, steps, k), steps[k]) {
      RunPrefix(s, steps, k);
    }
    if forall k :: 0 <= k <= |steps| ==> Exclusion(StateAt(s, steps, k)) {
      forall k | 0 <= k < |steps|
        ensures Mounts(StateAt(s, steps, k), steps[k]) ==> AtMaster(StateAt(s, steps, k), steps[k])
      {
        HandoffsStayUnmounted(s, steps, k);
        RunPrefix(s, steps, k);
        assert Exclusion(StateAt(s, steps, k)) && Exclusion(StateAt(s, steps, k + 1));
        StepExclusion(StateAt(s, steps, k), steps[k]);
      }
    }
    if forall k :: 0 <= k < |steps| ==>
         Enabled(StateAt(s, steps, k), steps[k]) &&
         (Mounts(StateAt(s, steps, k), steps[k]) ==> AtMaster(StateAt(s, steps, k), steps[k]))
    {
      forall k | 0 <= k <= |steps| ensures Exclusion(StateAt(s, steps, k)) {
        MountedAtMasters(s, steps, k);
      }
    }
  }

  /** No two nodes have the filesystem mounted. */
  ghost predicate AtMostOne(s: State) {
    forall n <- s.nodes, m <- s.nodes :: s.nodes[n].mounted && s.nodes[m].mounted ==> n == m
  }

  ghost predicate NobodyElse(s: State, step: Step) {
    forall n <- s.nodes :: n != step.n ==> !s.nodes[n].mounted
  }

  lemma StepAtMostOne(s: State, step: Step)
    requires AtMostOne(s) && Enabled(s, step)
    ensures AtMostOne(Perform(s, step)) <==> (Mounts(s, step) ==> NobodyElse(s, step))
  {
    OthersUntouched(s, step);
    OneNodeChanges(s, Perform(s, step), step.n);
  }

  lemma OneNodeChanges(s: State, t: State, n: NodeId)
    requires AtMostOne(s) && n in s.nodes && t.nodes.Keys == s.nodes.Keys
    requires forall m <- s.nodes :: m != n ==> t.nodes[m] == s.nodes[m]
    ensures AtMostOne(t) <==>
              (!s.nodes[n].mounted && t.nodes[n].mounted ==> forall m <- s.nodes :: m != n ==> !s.nodes[m].mounted)
  {
  }

  lemma {:induction false} NeverTwo(s: State, steps: seq<Step>, k: nat)
    requires Init(s) && Run(s, steps).Some? && k <= |steps|
    requires forall i :: 0 <= i < k ==>
      Enabled(StateAt(s, steps, i), steps[i]) &&
      (Mounts(StateAt(s, steps, i), steps[i]) ==> NobodyElse(StateAt(s, steps, i), steps[i]))
    ensures AtMostOne(StateAt(s, steps, k))
  {
    if k == 0 {
    } else {
      NeverTwo(s, steps, k - 1);
      RunPrefix(s, steps, k - 1);
      StepAtMostOne(StateAt(s, steps, k - 1), steps[k - 1]);
    }
  }

  /** An event for a mastership that is not the current one mounts the filesystem. */
  predicate Away(s: State, step: Step)
    requires Enabled(s, step)
  {
    Mounts(s, step) && !AtMaster(s, step)
  }

  /** Step j mounted the filesystem away from the master, and it is mounted there ever since. */
  ghost predicate InForce(s: State, steps: seq<Step>, j: nat, k: nat)
    requires j < k <= |steps|
  {
    && Enabled(StateAt(s, steps, j), steps[j]) && Away(StateAt(s, steps, j), steps[j])
    && forall i :: j < i <= k ==>
         steps[j].n in StateAt(s, steps, i).nodes && StateAt(s, steps, i).nodes[steps[j].n].mounted
  }

  predicate MasterUnmounted(s: State) {
    s.masters != [] && Owner(s) in s.nodes ==> !s.nodes[Owner(s)].mounted
  }

  /** Mounted where the masters key does not say. */
  predicate Misplaced(s: State, n: NodeId) {
    n in s.nodes && s.nodes[n].mounted && !(s.masters != [] && Owner(s) == n)
  }

  /** Nothing but an away mount leaves the filesystem mounted away from the master: a mastership
      ends only with the filesystem unmounted. */
  lemma OnlyAwayMountsMisplace(s: State, step: Step, n: NodeId)
    requires HandoffsUnmounted(s) && Enabled(s, step) && Misplaced(Perform(s, step), n)
    ensures Misplaced(s, n) || (step.n == n && Away(s, step))
  {
    StepIsOneNodeStep(s, step);
    OneNodeMisplaces(s, Perform(s, step), step.n, n);
  }

  lemma OneNodeMisplaces(s: State, t: State, n: NodeId, m: NodeId)
    requires OneNodeStep(s, t, n) && Misplaced(t, m)
    ensures Misplaced(s, m) || (m == n && !s.nodes[n].mounted && !(s.masters != [] && Owner(s) == n))
  {
  }

  lemma NothingMountedAtFirst(s: State, steps: seq<Step>, n: NodeId)
    requires Init(s)
    ensures !Misplaced(StateAt(s, steps, 0), n)
  {
    assert steps[..0] == [];
  }

  /** What is not so at first, and becomes so only for a cause, is so ever since its last cause. */
  lemma {:induction false} SinceLastCause(holds: seq<bool>, cause: seq<bool>, k: nat) returns (j: nat)
    requires k < |holds| == |cause| + 1 && !holds[0] && holds[k]
    requires forall i :: 0 <= i < k && holds[i + 1] ==> holds[i] || cause[i]
    ensures j < k && cause[j] && forall i :: j < i <= k ==> holds[i]
    decreases k
  {
    if k == 1 || !holds[k - 1] {
      j := k - 1;
    } else {
      j := SinceLastCause(holds, cause, k - 1);
    }
  }

  /** Where the filesystem is mounted away from the master, an away mount is in force. */
  lemma AwayMountInForce(s: State, steps: seq<Step>, k: nat, n: NodeId) returns (j: nat)
    requires Init(s) && Run(s, steps).Some? && k <= |steps| && Misplaced(StateAt(s, steps, k), n)
    ensures j < k && steps[j].n == n && InForce(s, steps, j, k)
  {
    var holds := seq(k + 1, i requires 0 <= i <= k => Misplaced(StateAt(s, steps, i), n));
    var cause := seq(k, i requires 0 <= i < k => AwayAt(s, steps, i, n));
    forall i | 0 <= i < k && holds[i + 1] ensures holds[i] || cause[i] {
      MisplacedBefore(s, steps, i, n);
    }
    NothingMountedAtFirst(s, steps, n);
    j := SinceLastCause(holds, cause, k);
    assert AwayAt(s, steps, j, n);
    forall i | j < i <= k ensures Misplaced(StateAt(s, steps, i), n) {
      assert holds[i];
    }
  }

  predicate AwayAt(s: State, steps: seq<Step>, k: nat, n: NodeId)
    requires k < |steps|
  {
    steps[k].n == n && Enabled(StateAt(s, steps, k), steps[k]) && Away(StateAt(s, steps, k), steps[k])
  }

  lemma MisplacedBefore(s: State, steps: seq<Step>, k: nat, n: NodeId)
    requires Init(s) && Run(s, steps).Some? && k < |steps| && Misplaced(StateAt(s, steps, k + 1), n)
    ensures Misplaced(StateAt(s, steps, k), n) || AwayAt(s, steps, k, n)
  {
    RunPrefix(s, steps, k);
    HandoffsStayUnmounted(s, steps, k);
    OnlyAwayMountsMisplace(StateAt(s, steps, k), steps[k], n);
  }

  lemma InForceMounted(s: State, steps: seq<Step>, j: nat, k: nat)
    requires j < k <= |steps| && InForce(s, steps, j, k)
    ensures steps[j].n in StateAt(s, steps, k).nodes && StateAt(s, steps, k).nodes[steps[j].n].mounted
  {
  }

  lemma NobodyElseIff(s: State, steps: seq<Step>, k: nat)
    requires Init(s) && Run(s, steps).Some? && k < |steps|
    requires Enabled(StateAt(s, steps, k), steps[k]) && Mounts(StateAt(s, steps, k), steps[k])
    ensures var t, step := StateAt(s, steps, k), steps[k];
            NobodyElse(t, step) <==>
              (forall j :: 0 <= j < k ==> !InForce(s, steps, j, k)) && (AtMaster(t, step) || MasterUnmounted(t))
  {
    var t, step := StateAt(s, steps, k), steps[k];
    if NobodyElse(t, step) {
      forall j | 0 <= j < k ensures !InForce(s, steps, j, k) {
        if InForce(s, steps, j, k) { InForceMounted(s, steps, j, k); }
      }
    } else {
      var m :| m in t.nodes && m != step.n && t.nodes[m].mounted;
      if Misplaced(t, m) {
        var j := AwayMountInForce(s, steps, k, m);
      }
    }
  }

  /** Likewise for the weaker property that two nodes never have it mounted at once.  It holds
      throughout a run if and only if no mount at all happens while an away mount is in force,
      and no away mount while the master is mounted.  So what breaks it are away mounts alone:
      where there are none the events in order keep it. */
  lemma AtMostOneExactlyWhen(s: State, steps: seq<Step>)
    requires Init(s) && Run(s, steps).Some?
    ensures (forall k :: 0 <= k <= |steps| ==> AtMostOne(StateAt(s, steps, k)))
       <==> (forall k :: 0 <= k < |steps| ==>
               Enabled(StateAt(s, steps, k), steps[k]) &&
               (Mounts(StateAt(s, steps, k), steps[k]) ==>
                  && (forall j :: 0 <= j < k ==> !InForce(s, steps, j, k))
                  && (Away(StateAt(s, steps, k), steps[k]) ==> MasterUnmounted(StateAt(s, steps, k)))))
  {
    forall k | 0 <= k < |steps|
      ensures Enabled(StateAt(s, steps, k), steps[k])
      ensures Mounts(StateAt(s, steps, k), steps[k]) ==>
                (NobodyElse(StateAt(s, steps, k), steps[k]) <==>
                   && (forall j :: 0 <= j < k ==> !InForce(s, steps, j, k))
                   && (Away(StateAt(s, steps, k), steps[k]) ==> MasterUnmounted(StateAt(s, steps, k))))
    {
      RunPrefix(s, steps, k);
      if Mounts(StateAt(s, steps, k), steps[k]) { NobodyElseIff(s, steps, k); }
    }
    NeverTwoExactly(s, steps);
  }

  lemma NeverTwoExactly(s: State, steps: seq<Step>)
    requires Init(s) && Run(s, steps).Some?
    requires forall k :: 0 <= k < |steps| ==> Enabled(StateAt(s, steps, k), steps[k])
    ensures (forall k :: 0 <= k <= |steps| ==> AtMostOne(StateAt(s, steps, k)))
       <==> (forall k :: 0 <= k < |steps| ==>
               (Mounts(StateAt(s, steps, k), steps[k]) ==> NobodyElse(StateAt(s, steps, k), steps[k])))
  {
    if forall k :: 0 <= k <= |steps| ==> AtMostOne(StateAt(s, steps, k)) {
      forall k | 0 <= k < |steps|
        ensures Mounts(StateAt(s, steps, k), steps[k]) ==> NobodyElse(StateAt(s, steps, k), steps[k])
      {
        RunPrefix(s, steps, k);
        assert AtMostOne(StateAt(s, steps, k)) && AtMostOne(StateAt(s, steps, k + 1));
        StepAtMostOne(StateAt(s, steps, k), steps[k]);
      }
    } else {
      var k :| 0 <= k <= |steps| && !AtMostOne(StateAt(s, steps, k));
      if forall i :: 0 <= i < k ==>
           (Mounts(StateAt(s, steps, i), steps[i]) ==> NobodyElse(StateAt(s, steps, i), steps[i])) {
        NeverTwo(s, steps, k);
      }
    }
  }

  // ---------------------------------------------------------------------------
  // A run that ends with two mounts
  // ---------------------------------------------------------------------------

  /** A cluster of two nodes. */
  function Two(a: Node, b: Node, masters: seq<NodeId>, tree: Tree): State {
    State(map["a" := a, "b" := b], masters, tree, [])
  }

  lemma Extend(s: State, steps: seq<Step>, t: State, step: Step, u: State)
    requires Run(s, steps) == Some(t) && Enabled(t, step) && Perform(t, step) == u
    ensures Run(s, steps + [step]) == Some(u)
  {
    assert (steps + [step])[..|steps|] == steps;
  }

  lemma PutA(a: Node, b: Node, masters: seq<NodeId>, tree: Tree, to: Node)
    ensures Put(Two(a, b, masters, tree), "a", to) == Two(to, b, masters, tree)
  {
    assert Put(Two(a, b, masters, tree), "a", to).nodes == Two(to, b, masters, tree).nodes;
  }

  lemma PutB(a: Node, b: Node, masters: seq<NodeId>, tree: Tree, to: Node)
    ensures Put(Two(a, b, masters, tree), "b", to) == Two(a, to, masters, tree)
  {
    assert Put(Two(a, b, masters, tree), "b", to).nodes == Two(a, to, masters, tree).nodes;
  }

  lemma {:induction false} RunJoined(s: State, steps: seq<Step>, more: seq<Step>)
    requires Run(s, steps).Some?
    ensures Run(s, steps + more) == Run(Run(s, steps).value, more)
    decreases |more|
  {
    if more == [] {
      assert steps + more == steps;
    } else {
      RunJoined(s, steps, more[..|more| - 1]);
      LastOfJoined(steps, more);
    }
  }

  lemma LastOfJoined(steps: seq<Step>, more: seq<Step>)
    requires more != []
    ensures (steps + more)[..|steps + more| - 1] == steps + more[..|more| - 1] && Last(steps + more) == Last(more)
  {
  }

  lemma Join(s: State, steps: seq<Step>, t: State, more: seq<Step>, u: State)
    requires Run(s, steps) == Some(t) && Run(t, more) == Some(u)
    ensures Run(s, steps + more) == Some(u)
    ensures NoStray(steps) && NoStray(more) ==> NoStray(steps + more)
    ensures NoMove(steps) && NoMove(more) ==> NoMove(steps + more)
  {
    RunJoined(s, steps, more);
  }

  /** Two steps one after the other. */
  lemma Both(s: State, a: Step, t: State, b: Step, u: State) returns (steps: seq<Step>)
    requires Enabled(s, a) && Perform(s, a) == t && Enabled(t, b) && Perform(t, b) == u
    requires !a.HandleStray? && !b.HandleStray?
    ensures Run(s, steps) == Some(u) && NoStray(steps)
    ensures !a.Move? && !b.Move? ==> NoMove(steps)
    ensures a.n == b.n == "b" ==> OnlyB(steps)
  {
    Extend(s, [], s, a, t);
    Extend(s, [] + [a], t, b, u);
    steps := [] + [a] + [b];
  }

  /** No event comes late or twice. */
  ghost predicate NoStray(steps: seq<Step>) {
    forall step <- steps :: !step.HandleStray?
  }

  ghost predicate NoMove(steps: seq<Step>) {
    forall step <- steps :: !step.Move?
  }

  ghost predicate OnlyB(steps: seq<Step>) {
    forall step <- steps :: step.n == "b"
  }

  const BMissing := NewNode.(phase := Missing, announced := {[]})
  const AClaimed := BMissing.(createPending := true)
  const OneTree: Tree := map["x" := None]

  /** After creating the filesystem; the "mount" event has been taken or not. */
  function ACreated(taken: bool): Node {
    NewNode.(phase := Active, present := true, mounted := true, announced := {[]}, view := 1, handled := if taken then 1 else 0)
  }

  function APledged(taken: bool): Node {
    Node(Handoff("b", Waiting), true, false, ["x"], ["x"], {[], ["x"]}, 1, if taken then 1 else 0, false)
  }

  const BReceiving := BMissing.(view := 1, phase := Receiving(["x"], None, "x"))
  const BCopied := Node(Inactive, true, false, ["x"], ["x"], {[], ["x"]}, 1, 0, false)
  const BMaster := BCopied.(view := 2, handled := 2, mounted := true, phase := Active)

  lemma DiscoverBoth() returns (steps: seq<Step>)
    ensures Run(Two(NewNode, NewNode, [], map[]), steps) == Some(Two(BMissing, BMissing, [], map[])) && NoStray(steps)
    ensures NoMove(steps)
  {
    assert Discovered(NewNode) == BMissing;
    PutA(NewNode, NewNode, [], map[], BMissing);
    PutB(BMissing, NewNode, [], map[], BMissing);
    steps := Both(Two(NewNode, NewNode, [], map[]), Discover("a"), Two(BMissing, NewNode, [], map[]),
                  Discover("b"), Two(BMissing, BMissing, [], map[]));
  }

  lemma ClaimOnA() returns (steps: seq<Step>)
    ensures Run(Two(BMissing, BMissing, [], map[]), steps) == Some(Two(AClaimed.(view := 1), BMissing, ["a"], map[])) && NoStray(steps)
    ensures NoMove(steps)
  {
    PutA(BMissing, BMissing, [], map[], AClaimed);
    PutA(AClaimed, BMissing, ["a"], map[], AClaimed.(view := 1));
    steps := Both(Two(BMissing, BMissing, [], map[]), Claim("a"), Two(AClaimed, BMissing, ["a"], map[]),
                  Watch("a"), Two(AClaimed.(view := 1), BMissing, ["a"], map[]));
  }

  lemma CreateOnA() returns (steps: seq<Step>)
    ensures Run(Two(AClaimed.(view := 1), BMissing, ["a"], map[]), steps) == Some(Two(ACreated(false), BMissing, ["a"], map[])) && NoStray(steps)
    ensures NoMove(steps)
  {
    var s := Two(AClaimed.(view := 1), BMissing, ["a"], map[]);
    PutA(AClaimed.(view := 1), BMissing, ["a"], map[], ACreated(false));
    Extend(s, [], s, HandleCreate("a", true, true), Two(ACreated(false), BMissing, ["a"], map[]));
    steps := [] + [HandleCreate("a", true, true)];
  }

  lemma TakeOnA() returns (steps: seq<Step>)
    ensures Run(Two(ACreated(false), BMissing, ["a"], map[]), steps) == Some(Two(ACreated(true), BMissing, ["a"], map[])) && NoStray(steps)
    ensures NoMove(steps)
  {
    var backing := ACreated(true).(phase := Discovering);
    assert Discovered(backing) == ACreated(true);
    PutA(ACreated(false), BMissing, ["a"], map[], backing);
    PutA(backing, BMissing, ["a"], map[], ACreated(true));
    steps := Both(Two(ACreated(false), BMissing, ["a"], map[]), HandleMaster("a", true, false), Two(backing, BMissing, ["a"], map[]),
                  Discover("a"), Two(ACreated(true), BMissing, ["a"], map[]));
  }

  /** "a" creates the filesystem. */
  lemma CreatedOnA(taken: bool) returns (steps: seq<Step>)
    ensures Run(Two(NewNode, NewNode, [], map[]), steps) == Some(Two(ACreated(taken), BMissing, ["a"], map[])) && NoStray(steps)
    ensures NoMove(steps)
  {
    var s := Two(NewNode, NewNode, [], map[]);
    steps := DiscoverBoth();
    var more := ClaimOnA();
    Join(s, steps, Two(BMissing, BMissing, [], map[]), more, Two(AClaimed.(view := 1), BMissing, ["a"], map[]));
    steps := steps + more;
    more := CreateOnA();
    Join(s, steps, Two(AClaimed.(view := 1), BMissing, ["a"], map[]), more, Two(ACreated(false), BMissing, ["a"], map[]));
    steps := steps + more;
    if taken {
      more := TakeOnA();
      Join(s, steps, Two(ACreated(false), BMissing, ["a"], map[]), more, Two(ACreated(true), BMissing, ["a"], map[]));
      steps := steps + more;
    }
  }

  lemma UnmountOnA(taken: bool) returns (steps: seq<Step>)
    ensures Run(Two(ACreated(taken), BMissing, ["a"], map[]), steps)
            == Some(Two(ACreated(taken).(mounted := false, phase := Handoff("b", Snapshotting)), BMissing, ["a"], map[]))
    ensures NoStray(steps)
  {
    var moving := ACreated(taken).(phase := Handoff("b", Unmounting));
    var unmounted := moving.(mounted := false, phase := Handoff("b", Snapshotting));
    PutA(ACreated(taken), BMissing, ["a"], map[], moving);
    PutA(moving, BMissing, ["a"], map[], unmounted);
    steps := Both(Two(ACreated(taken), BMissing, ["a"], map[]), Move("a", "b", false), Two(moving, BMissing, ["a"], map[]),
                  HandoffUnmount("a", true), Two(unmounted, BMissing, ["a"], map[]));
  }

  lemma SnapshotOnA(taken: bool) returns (steps: seq<Step>)
    ensures Run(Two(ACreated(taken).(mounted := false, phase := Handoff("b", Snapshotting)), BMissing, ["a"], map[]), steps)
            == Some(Two(APledged(taken), BMissing, ["a"], OneTree))
    ensures NoStray(steps)
  {
    var unmounted := ACreated(taken).(mounted := false, phase := Handoff("b", Snapshotting));
    var waiting := APledged(taken).(announced := {[]});
    PutA(unmounted, BMissing, ["a"], OneTree, waiting);
    assert TakeSnapshot(unmounted, "x", true, true, unmounted.phase.(step := Waiting)) == waiting;
    assert Grow(Two(unmounted, BMissing, ["a"], map[]), "x", unmounted, true) == Two(unmounted, BMissing, ["a"], OneTree);
    assert waiting.(announced := waiting.announced + {waiting.mem}) == APledged(taken);
    PutA(waiting, BMissing, ["a"], OneTree, APledged(taken));
    steps := Both(Two(unmounted, BMissing, ["a"], map[]), HandoffSnapshot("a", "x", true, true), Two(waiting, BMissing, ["a"], OneTree),
                  Announce("a"), Two(APledged(taken), BMissing, ["a"], OneTree));
  }

  lemma SendOne()
    ensures Send(["x"], None, "x") == Some(Stream(None, ["x"]))
    ensures Recv([], Stream(None, ["x"]), 1) == ["x"]
  {
    assert ["x"][..1] == ["x"];
  }

  /** ... "b" receives the snapshot ... */
  lemma ReceivingOnB(taken: bool) returns (steps: seq<Step>)
    ensures Run(Two(APledged(taken), BMissing, ["a"], OneTree), steps) == Some(Two(APledged(taken), BReceiving, ["a"], OneTree)) && NoStray(steps)
    ensures OnlyB(steps)
  {
    var watching := BMissing.(view := 1);
    SendOne();
    PutB(APledged(taken), BMissing, ["a"], OneTree, watching);
    assert CanReceive(Two(APledged(taken), watching, ["a"], OneTree), "b", ["x"]);
    PutB(APledged(taken), watching, ["a"], OneTree, BReceiving);
    steps := Both(Two(APledged(taken), BMissing, ["a"], OneTree), Watch("b"), Two(APledged(taken), watching, ["a"], OneTree),
                  StartReceive("b", ["x"]), Two(APledged(taken), BReceiving, ["a"], OneTree));
  }

  lemma ReceivedByB(taken: bool) returns (steps: seq<Step>)
    ensures Run(Two(APledged(taken), BReceiving, ["a"], OneTree), steps) == Some(Two(APledged(taken), BCopied, ["a"], OneTree)) && NoStray(steps)
    ensures OnlyB(steps)
  {
    SendOne();
    var received := BReceiving.(phase := Discovering, present := true, disk := ["x"]);
    PutB(APledged(taken), BReceiving, ["a"], OneTree, received);
    assert Discovered(received) == BCopied;
    PutB(APledged(taken), received, ["a"], OneTree, BCopied);
    steps := Both(Two(APledged(taken), BReceiving, ["a"], OneTree), FinishReceive("b", 1), Two(APledged(taken), received, ["a"], OneTree),
                  Discover("b"), Two(APledged(taken), BCopied, ["a"], OneTree));
  }

  /** ... becomes the master ... */
  lemma SwitchedToB(taken: bool) returns (steps: seq<Step>)
    ensures Run(Two(APledged(taken), BCopied, ["a"], OneTree), steps)
            == Some(Two(APledged(taken).(phase := Inactive), BCopied, ["a", "b"], OneTree))
    ensures NoStray(steps)
  {
    assert LatestCommon(["x"], ["x"]) == 0;
    var switching := APledged(taken).(phase := Handoff("b", Switching));
    var after := APledged(taken).(phase := Inactive);
    PutA(APledged(taken), BCopied, ["a"], OneTree, switching);
    PutA(switching, BCopied, ["a"], OneTree, after);
    steps := Both(Two(APledged(taken), BCopied, ["a"], OneTree), HandoffCheck("a", ["x"]), Two(switching, BCopied, ["a"], OneTree),
                  HandoffSwitch("a", true), Two(after, BCopied, ["a", "b"], OneTree));
  }

  /** ... and mounts ... */
  lemma WatchedByB(a: Node) returns (steps: seq<Step>)
    ensures Run(Two(a, BCopied, ["a", "b"], OneTree), steps) == Some(Two(a, BCopied.(handled := 1, view := 2), ["a", "b"], OneTree))
    ensures NoStray(steps)
  {
    var b1 := BCopied.(handled := 1);
    PutB(a, BCopied, ["a", "b"], OneTree, b1);
    PutB(a, b1, ["a", "b"], OneTree, b1.(view := 2));
    steps := Both(Two(a, BCopied, ["a", "b"], OneTree), HandleMaster("b", true, false), Two(a, b1, ["a", "b"], OneTree),
                  Watch("b"), Two(a, b1.(view := 2), ["a", "b"], OneTree));
  }

  lemma MountedByB(a: Node) returns (steps: seq<Step>)
    ensures Run(Two(a, BCopied.(handled := 1, view := 2), ["a", "b"], OneTree), steps) == Some(Two(a, BMaster, ["a", "b"], OneTree))
    ensures NoStray(steps)
  {
    var b2 := BCopied.(handled := 1, view := 2);
    var s := Two(a, b2, ["a", "b"], OneTree);
    PutB(a, b2, ["a", "b"], OneTree, BMaster);
    Extend(s, [], s, HandleMaster("b", true, false), Two(a, BMaster, ["a", "b"], OneTree));
    steps := [] + [HandleMaster("b", true, false)];
  }

  lemma PledgedByA(taken: bool) returns (steps: seq<Step>)
    ensures Run(Two(ACreated(taken), BMissing, ["a"], map[]), steps) == Some(Two(APledged(taken), BCopied, ["a"], OneTree)) && NoStray(steps)
  {
    var s := Two(ACreated(taken), BMissing, ["a"], map[]);
    steps := UnmountOnA(taken);
    var more := SnapshotOnA(taken);
    Join(s, steps, Two(ACreated(taken).(mounted := false, phase := Handoff("b", Snapshotting)), BMissing, ["a"], map[]),
         more, Two(APledged(taken), BMissing, ["a"], OneTree));
    steps := steps + more;
    more := ReceivingOnB(taken);
    Join(s, steps, Two(APledged(taken), BMissing, ["a"], OneTree), more, Two(APledged(taken), BReceiving, ["a"], OneTree));
    steps := steps + more;
    more := ReceivedByB(taken);
    Join(s, steps, Two(APledged(taken), BReceiving, ["a"], OneTree), more, Two(APledged(taken), BCopied, ["a"], OneTree));
    steps := steps + more;
  }

  lemma TakenOverByB(taken: bool) returns (steps: seq<Step>)
    ensures Run(Two(APledged(taken), BCopied, ["a"], OneTree), steps)
            == Some(Two(APledged(taken).(phase := Inactive), BMaster, ["a", "b"], OneTree))
    ensures NoStray(steps)
  {
    var s := Two(APledged(taken), BCopied, ["a"], OneTree);
    var a := APledged(taken).(phase := Inactive);
    steps := SwitchedToB(taken);
    var more := WatchedByB(a);
    Join(s, steps, Two(a, BCopied, ["a", "b"], OneTree), more, Two(a, BCopied.(handled := 1, view := 2), ["a", "b"], OneTree));
    steps := steps + more;
    more := MountedByB(a);
    Join(s, steps, Two(a, BCopied.(handled := 1, view := 2), ["a", "b"], OneTree), more, Two(a, BMaster, ["a", "b"], OneTree));
    steps := steps + more;
  }

  /** The filesystem is with "b", mounted there, and "a" has taken its own "mount" event or not. */
  lemma HandedToB(taken: bool) returns (steps: seq<Step>)
    ensures Run(Two(NewNode, NewNode, [], map[]), steps)
            == Some(Two(APledged(taken).(phase := Inactive), BMaster, ["a", "b"], OneTree))
    ensures NoStray(steps)
  {
    var s := Two(NewNode, NewNode, [], map[]);
    steps := CreatedOnA(taken);
    var more := PledgedByA(taken);
    Join(s, steps, Two(ACreated(taken), BMissing, ["a"], map[]), more, Two(APledged(taken), BCopied, ["a"], OneTree));
    steps := steps + more;
    more := TakenOverByB(taken);
    Join(s, steps, Two(APledged(taken), BCopied, ["a"], OneTree), more,
         Two(APledged(taken).(phase := Inactive), BMaster, ["a", "b"], OneTree));
    steps := steps + more;
  }

  lemma MountsAgain(taken: bool, step: Step) returns (u: State)
    requires step == if taken then HandleStray("a", 0, true) else HandleMaster("a", true, false)
    ensures var t := Two(APledged(taken).(phase := Inactive), BMaster, ["a", "b"], OneTree);
            && Enabled(t, step) && Perform(t, step) == u
            && u.nodes.Keys == {"a", "b"} && u.masters == ["a", "b"] && u.nodes["a"].mounted && u.nodes["b"].mounted
  {
    u := Perform(Two(APledged(taken).(phase := Inactive), BMaster, ["a", "b"], OneTree), step);
  }

  /** A run in which the mount event for a mastership that is over comes again: the
      filesystem ends up mounted on two nodes at once. */
  lemma LateMountBreaksExclusion() returns (s: State, steps: seq<Step>)
    ensures Init(s) && Run(s, steps).Some?
    ensures var t := Run(s, steps).value;
            && "a" in t.nodes && "b" in t.nodes && t.masters == ["a", "b"]
            && t.nodes["a"].mounted && t.nodes["b"].mounted
  {
    s := Two(NewNode, NewNode, [], map[]);
    steps := HandedToB(true);
    var u := MountsAgain(true, HandleStray("a", 0, true));
    Extend(s, steps, Two(APledged(true).(phase := Inactive), BMaster, ["a", "b"], OneTree), HandleStray("a", 0, true), u);
    steps := steps + [HandleStray("a", 0, true)];
  }

  /** A run in which all events of the masters key come once and in order, but the request to
      move overtakes the first of them: the mount comes after the switch. */
  lemma OvertakingMoveBreaksExclusion() returns (s: State, steps: seq<Step>)
    ensures Init(s) && Run(s, steps).Some? && NoStray(steps)
    ensures var t := Run(s, steps).value;
            && "a" in t.nodes && "b" in t.nodes && t.masters == ["a", "b"]
            && t.nodes["a"].mounted && t.nodes["b"].mounted
  {
    s := Two(NewNode, NewNode, [], map[]);
    steps := HandedToB(false);
    var u := MountsAgain(false, HandleMaster("a", true, false));
    Extend(s, steps, Two(APledged(false).(phase := Inactive), BMaster, ["a", "b"], OneTree), HandleMaster("a", true, false), u);
    steps := steps + [HandleMaster("a", true, false)];
  }
}
