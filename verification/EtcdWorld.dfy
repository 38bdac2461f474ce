/** The same clusters with the names in etcd beside what a node believes: every step that changes
    the one changes the other, but not always in the same way.
  */
module EtcdWorld {
  import opened Snapshots
  import opened Registries
  import opened RegistryWorld

  /** What each cluster's etcd holds. */
  type Etcds = map<ClusterId, Reg>

  ghost predicate SameClusters(w: World, etcds: Etcds) {
    etcds.Keys == w.regs.Keys
  }

  /** A name that etcd has already is refused, and the step does not happen. */
  ghost predicate EtcdAllows(w: World, etcds: Etcds, step: Step)
    requires Enabled(w, step) && SameClusters(w, etcds)
  {
    match step
    case Create(c, name, _) => name !in etcds[c].topLevel
    case Register(c, _, volume, _) => volume in etcds[c].topLevel ==> volume in w.regs[c].topLevel
    case _ => true
  }

  /** Keys of clones are only set if they are absent, and nobody looks whether they were. */
  function EtcdAfter(w: World, etcds: Etcds, step: Step): Etcds
    requires Enabled(w, step) && SameClusters(w, etcds)
  {
    match step
    case Create(c, name, id) => etcds[c := etcds[c].(topLevel := etcds[c].topLevel[name := id])]
    case Branch(c, name, source, newName, id, snapshot) =>
      var r := w.regs[c];
      etcds[c := WithCloneIfAbsent(etcds[c], r.topLevel[name], newName, Clone(id, Origin(SourceOf(r, name, source).value, snapshot)))]
    case Register(c, path, volume, _) =>
      var named := if volume in w.regs[c].topLevel then etcds[c]
                   else etcds[c].(topLevel := etcds[c].topLevel[volume := path.topLevelId]);
      etcds[c := WithClonesIfAbsent(named, path.topLevelId, path.clones)]
    case _ => etcds
  }

  /** What is done to the objects for a step: the node's registry and the keys in its etcd. */
  method MakeNameStep(registry: Registry, etcd: Etcd, me: NodeId, w: World, etcds: Etcds, step: Step) returns (ok: bool)
    requires Inv(w) && Enabled(w, step) && SameClusters(w, etcds)
    requires registry.Value() == w.regs[step.c] && etcd.Names() == etcds[step.c]
    modifies registry, etcd
    ensures ok <==> EtcdAllows(w, etcds, step)
    ensures ok ==> registry.Value() == Perform(w, step).regs[step.c] && etcd.Names() == EtcdAfter(w, etcds, step)[step.c]
    ensures !ok ==> registry.Value() == w.regs[step.c] && etcd.Names() == etcds[step.c]
  {
    ok := true;
    match step {
      case Create(_, name, id) => ok := registry.RegisterFilesystem(etcd, name, id);
      case Branch(_, name, source, newName, id, snapshot) =>
        var origin := registry.MaybeCloneFilesystemId(name, if source == DefaultBranch then "" else source);
        registry.RegisterClone(etcd, newName, registry.topLevelFilesystems[name], Clone(id, Origin(origin.value, snapshot)));
      case Register(_, path, volume, _) =>
        forall v | v in registry.topLevelFilesystems ensures registry.topLevelFilesystems[v] != "" {
          assert NewVolume(w.regs[step.c].topLevel[v]) in w.births;
        }
        assert PathOk(w.births, path) && path.topLevelId != "";
        ok := registry.RegisterPath(etcd, me, path.(topLevelName := volume));
        if ok { OnlyClones(etcds[step.c], path.topLevelId, path.clones, w.regs[step.c], volume); }
      case _ =>
    }
  }

  /** Names of volumes and keys of clones do not meet. */
  lemma OnlyClones(r: Reg, tl: FsId, cs: seq<CloneWithName>, cache: Reg, volume: VolumeName)
    ensures var named := if volume in cache.topLevel then r else r.(topLevel := r.topLevel[volume := tl]);
            WithClonesIfAbsent(named, tl, cs) == WithClonesIfAbsent(r, tl, cs).(topLevel := named.topLevel)
  {
    ClonesOnly(r, r.topLevel[volume := tl], tl, cs);
    ClonesOnly(r, r.topLevel, tl, cs);
    assert r.(topLevel := r.topLevel) == r;
  }

  ghost predicate RunBeside(w: World, etcds: Etcds, steps: seq<Step>, w': World, etcds': Etcds)
    requires SameClusters(w, etcds)
    decreases steps
  {
    if steps == [] then w == w' && etcds == etcds'
    else
      && Enabled(w, steps[0]) && EtcdAllows(w, etcds, steps[0])
      && RunBeside(Perform(w, steps[0]), EtcdAfter(w, etcds, steps[0]), steps[1..], w', etcds')
  }

  /** In every state of the run each node believes what its etcd holds. */
  ghost predicate AgreeThroughout(w: World, etcds: Etcds, steps: seq<Step>)
    requires SameClusters(w, etcds)
    decreases steps
  {
    w.regs == etcds &&
    (steps == [] ||
     (Enabled(w, steps[0]) && AgreeThroughout(Perform(w, steps[0]), EtcdAfter(w, etcds, steps[0]), steps[1..])))
  }

  /** Setting keys that are absent or the same changes what setting them regardless would. */
  lemma {:induction false} CompatibleSame(r: Reg, tl: FsId, cs: seq<CloneWithName>)
    requires DistinctNames(cs) && BranchesCompatible(r, tl, cs)
    ensures WithClonesIfAbsent(r, tl, cs) == WithClones(r, tl, cs)
  {
    if cs == [] {
    } else {
      var before, x := cs[..|cs| - 1], Last(cs);
      assert forall y <- before :: y in cs;
      CompatibleSame(r, tl, before);
      LastNameNew(cs);
      assert x in cs && !HasName(before, x.name);
      var t := WithClones(r, tl, before);
      if NameTaken(t, tl, x.name) {
        WithClonesHas(r, tl, before, tl, x.name, t.clones[tl][x.name]);
        assert Registered(t, tl, x.name, t.clones[tl][x.name]);
        assert t.clones[tl][x.name] == x.clone;
        SetAgain(t, tl, x.name);
      }
    }
  }

  lemma SetAgain(r: Reg, tl: FsId, name: BranchName)
    requires NameTaken(r, tl, name)
    ensures WithClone(r, tl, name, r.clones[tl][name]) == r
  {
    assert r.clones[tl][name := r.clones[tl][name]] == r.clones[tl];
    assert r.clones[tl := r.clones[tl]] == r.clones;
  }

  /** A step from agreement leads to agreement exactly when it is no conflicting registration. */
  lemma StepAgrees(w: World, step: Step)
    requires Inv(w) && Enabled(w, step)
    ensures Perform(w, step).regs == EtcdAfter(w, w.regs, step) <==> Compatible(w, step)
  {
    match step
    case Register(c, path, volume, target) => RegisterAgrees(w, c, path, volume, target);
    case _ => OtherStepAgrees(w, step);
  }

  lemma OtherStepAgrees(w: World, step: Step)
    requires Enabled(w, step) && !step.Register?
    ensures Perform(w, step).regs == EtcdAfter(w, w.regs, step)
  {
    match step
    case Branch(c, name, _, newName, _, _) => assert !NameTaken(w.regs[c], w.regs[c].topLevel[name], newName);
    case _ =>
  }

  lemma RegisterAgrees(w: World, c: ClusterId, path: Path, volume: VolumeName, target: BranchName)
    requires Inv(w) && Enabled(w, Register(c, path, volume, target))
    ensures Perform(w, Register(c, path, volume, target)).regs == EtcdAfter(w, w.regs, Register(c, path, volume, target)) <==>
            BranchesCompatible(w.regs[c], path.topLevelId, path.clones)
  {
    RegistrationAgrees(w, c, path, volume);
    var r := w.regs[c];
    var named := if volume in r.topLevel then r else r.(topLevel := r.topLevel[volume := path.topLevelId]);
    var cache, etcd := WithPath(r, path.(topLevelName := volume)), WithClonesIfAbsent(named, path.topLevelId, path.clones);
    assert w.regs[c := cache][c] == cache && w.regs[c := etcd][c] == etcd;
  }

  lemma RegistrationAgrees(w: World, c: ClusterId, path: Path, volume: VolumeName)
    requires Inv(w) && c in w.regs && path in w.paths
    ensures var r := w.regs[c];
            var named := if volume in r.topLevel then r else r.(topLevel := r.topLevel[volume := path.topLevelId]);
            WithPath(r, path.(topLevelName := volume)) == WithClonesIfAbsent(named, path.topLevelId, path.clones)
            <==> BranchesCompatible(r, path.topLevelId, path.clones)
  {
    var r, tl, cs := w.regs[c], path.topLevelId, path.clones;
    var named := Named(r, path.(topLevelName := volume));
    assert PathOk(w.births, path) && tl != "";
    assert forall n, x :: Registered(named, tl, n, x) <==> Registered(r, tl, n, x);
    assert BranchesCompatible(named, tl, cs) <==> BranchesCompatible(r, tl, cs);
    if BranchesCompatible(named, tl, cs) {
      CompatibleSame(named, tl, cs);
    } else {
      CacheMatchesEtcd(named, tl, cs);
    }
  }

  lemma {:induction false} AgreementRun(w: World, steps: seq<Step>, w': World, etcds': Etcds)
    requires Inv(w) && RunBeside(w, w.regs, steps, w', etcds')
    ensures AgreeThroughout(w, w.regs, steps) <==> CompatibleRun(w, steps, w')
    ensures CompatibleRun(w, steps, w') ==> etcds' == w'.regs
    decreases steps
  {
    if steps == [] {
    } else {
      StepKeeps(w, steps[0]);
      StepAgrees(w, steps[0]);
      if Compatible(w, steps[0]) {
        AgreementRun(Perform(w, steps[0]), steps[1..], w', etcds');
      } else {
        assert !AgreeThroughout(Perform(w, steps[0]), EtcdAfter(w, w.regs, steps[0]), steps[1..]);
      }
    }
  }

  /** While they agree, etcd refuses nothing that a node would do. */
  lemma {:induction false} NothingRefused(w: World, steps: seq<Step>, w': World)
    requires Inv(w) && CompatibleRun(w, steps, w')
    ensures RunBeside(w, w.regs, steps, w', w'.regs)
    decreases steps
  {
    if steps == [] {
    } else {
      StepKeeps(w, steps[0]);
      StepAgrees(w, steps[0]);
      NothingRefused(Perform(w, steps[0]), steps[1..], w');
    }
  }

  /** From the beginning on, what the nodes believe is what etcd holds throughout a run if and only
      if every path that is registered in it agrees with the branches that are there. */
  lemma NodesBelieveEtcd(w0: World, steps: seq<Step>, w: World, etcds: Etcds)
    requires Init(w0) && RunBeside(w0, w0.regs, steps, w, etcds)
    ensures AgreeThroughout(w0, w0.regs, steps) <==> CompatibleRun(w0, steps, w)
    ensures CompatibleRun(w0, steps, w) ==> etcds == w.regs
  {
    AgreementRun(w0, steps, w, etcds);
  }
}
