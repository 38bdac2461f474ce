/** What Delete finds to delete in a registry: it collects the origins of the branches of a
    volume and sorts them (rpc.go).
  */
module VolumeDeletion {
  import opened Snapshots
  import opened Registries
  import opened RegistryWorld
  import Deletion

  ghost predicate IsOrigins(clones: map<BranchName, Clone>, origins: Deletion.Origins) {
    && (forall n <- clones :: clones[n].id in origins && origins[clones[n].id] == clones[n].origin.fs)
    && (forall f <- origins :: exists n <- clones :: clones[n].id == f)
  }

  /** Every branch of the volume was taken from the volume or from another branch of it. */
  ghost predicate VolumeClosed(r: Reg, tl: FsId) {
    forall n, c :: Registered(r, tl, n, c) ==> InVolume(r, tl, c.origin.fs)
  }

  /** The branches are visited in whatever order the map yields them. */
  method CollectOrigins(clones: map<BranchName, Clone>) returns (origins: Deletion.Origins)
    requires forall n <- clones, n' <- clones :: clones[n].id == clones[n'].id ==> n == n'
    ensures IsOrigins(clones, origins)
  {
    origins := map[];
    var names := clones.Keys;
    while names != {}
      invariant names <= clones.Keys
      invariant forall n :: n in clones.Keys - names ==> clones[n].id in origins && origins[clones[n].id] == clones[n].origin.fs
      invariant forall f <- origins :: exists n :: n in clones.Keys - names && clones[n].id == f
      decreases names
    {
      var name :| name in names;
      ghost var earlier, before := names, origins;
      names := names - {name};
      origins := origins[clones[name].id := clones[name].origin.fs];
      forall f | f in origins ensures exists n :: n in clones.Keys - names && clones[n].id == f {
        if f in before {
          var n :| n in clones.Keys - earlier && clones[n].id == f;
          assert n in clones.Keys - names;
        } else {
          assert name in clones.Keys - names;
        }
      }
    }
  }

  lemma {:induction false} BranchBelowVolume(births: seq<Birth>, r: Reg, tl: FsId, origins: Deletion.Origins, f: FsId)
    requires BirthsOk(births) && Truthful(births, r) && VolumeClosed(r, tl) && IsOrigins(ClonesFor(r, tl), origins)
    requires Deletion.Acyclic(origins, Age(births)) && InVolume(r, tl, f)
    ensures Deletion.Below(origins, Age(births), f, tl)
    decreases AgeIn(births, f)
  {
    if f == tl {
    } else {
      var n, c :| Registered(r, tl, n, c) && c.id == f;
      assert n in ClonesFor(r, tl) && ClonesFor(r, tl)[n] == c;
      assert Age(births)(origins[f]) < Age(births)(f);
      BranchBelowVolume(births, r, tl, origins, c.origin.fs);
    }
  }

  lemma OriginsAcyclic(births: seq<Birth>, r: Reg, tl: FsId, origins: Deletion.Origins)
    requires BirthsOk(births) && Truthful(births, r) && IsOrigins(ClonesFor(r, tl), origins)
    ensures Deletion.Acyclic(origins, Age(births))
  {
    TruthfulIsOrderly(births, r);
    forall f | f in origins ensures Age(births)(origins[f]) < Age(births)(f) {
      var n :| n in ClonesFor(r, tl) && ClonesFor(r, tl)[n].id == f;
      assert Registered(r, tl, n, ClonesFor(r, tl)[n]);
    }
  }

  /** In every registry that is reached, whatever paths were registered: deleting a volume
      reaches the volume and all its branches, and nothing else, if and only if every branch
      still has its origin in the volume. */
  lemma DeletionReachesAll(w0: World, steps: seq<Step>, w: World, c: ClusterId, name: VolumeName, origins: Deletion.Origins)
    requires Init(w0) && Run(w0, steps, w) && c in w.regs && name in w.regs[c].topLevel
    requires IsOrigins(ClonesFor(w.regs[c], w.regs[c].topLevel[name]), origins)
    ensures var r, tl := w.regs[c], w.regs[c].topLevel[name];
            && Deletion.Acyclic(origins, Age(w.births))
            && (VolumeClosed(r, tl) <==>
                  forall f :: f in Deletion.Subtree(origins, Age(w.births), tl) <==> exists branch :: FilesystemIdOf(r, name, branch) == Some(f))
  {
    RunKeeps(w0, steps, w);
    var r, tl := w.regs[c], w.regs[c].topLevel[name];
    var age := Age(w.births);
    OriginsAcyclic(w.births, r, tl, origins);
    forall f ensures InVolume(r, tl, f) <==> exists branch :: FilesystemIdOf(r, name, branch) == Some(f) {
      VolumeIsNamed(w.births, r, name, f);
    }
    if VolumeClosed(r, tl) {
      forall f ensures f in Deletion.Subtree(origins, age, tl) <==> InVolume(r, tl, f) {
        SubtreeIsVolume(w.births, r, tl, origins, f);
      }
    } else {
      var n, x :| Registered(r, tl, n, x) && !InVolume(r, tl, x.origin.fs);
      BranchOutOfReach(w.births, r, tl, origins, n, x);
      assert InVolume(r, tl, x.id);
    }
  }

  /** In runs without conflicting registrations that is always so. */
  lemma DeletesTheWholeVolume(w0: World, steps: seq<Step>, w: World, c: ClusterId, name: VolumeName)
    requires Init(w0) && CompatibleRun(w0, steps, w) && c in w.regs && name in w.regs[c].topLevel
    ensures Run(w0, steps, w) && VolumeClosed(w.regs[c], w.regs[c].topLevel[name])
  {
    CompatibleRunKeeps(w0, steps, w);
  }

  /** A branch whose origin is not in the volume is not found. */
  lemma BranchOutOfReach(births: seq<Birth>, r: Reg, tl: FsId, origins: Deletion.Origins, n: BranchName, x: Clone)
    requires BirthsOk(births) && Truthful(births, r) && IsOrigins(ClonesFor(r, tl), origins)
    requires Deletion.Acyclic(origins, Age(births)) && NewVolume(tl) in births
    requires Registered(r, tl, n, x) && !InVolume(r, tl, x.origin.fs)
    ensures x.id !in Deletion.Subtree(origins, Age(births), tl)
  {
    var clones := ClonesFor(r, tl);
    assert n in clones && clones[n] == x;
    SameIdDifferentKind(births, tl, n, x);
    assert origins[x.id] == x.origin.fs && x.origin.fs != tl;
    assert Deletion.Below(origins, Age(births), x.id, tl) ==> Deletion.Below(origins, Age(births), x.origin.fs, tl);
    if x.origin.fs in origins {
      var n' :| n' in clones && clones[n'].id == x.origin.fs;
      assert Registered(r, tl, n', clones[n']);
    }
  }

  lemma SameIdDifferentKind(births: seq<Birth>, tl: FsId, n: BranchName, x: Clone)
    requires BirthsOk(births) && NewVolume(tl) in births && BirthOf(tl, CloneWithName(n, x)) in births
    ensures x.id != tl
  {
    if x.id == tl { SameIdSameBirth(births, NewVolume(tl), BirthOf(tl, CloneWithName(n, x))); }
  }

  lemma CutOff(r: Reg)
    requires r == Shared(BAfter)
    ensures V in r.topLevel && r.topLevel[V] == "v" && FilesystemIdOf(r, V, "y") == Some("c")
    ensures Registered(r, "v", "y", BY) && !InVolume(r, "v", BY.origin.fs)
  {
    assert forall n, c :: Registered(r, "v", n, c) ==> c == AX || c == BY || c == AW;
  }

  /** The run that cuts branch y off from its volume: deleting the volume on cluster B leaves y. */
  lemma DeletionMissesABranch() returns (w0: World, steps: seq<Step>, w: World)
    ensures Init(w0) && Run(w0, steps, w) && "B" in w.regs && V in w.regs["B"].topLevel
    ensures FilesystemIdOf(w.regs["B"], V, "y") == Some("c")
    ensures forall origins :: IsOrigins(ClonesFor(w.regs["B"], "v"), origins) && Deletion.Acyclic(origins, Age(w.births)) ==>
              "c" !in Deletion.Subtree(origins, Age(w.births), "v")
  {
    w0, steps, w := ConflictOrphansABranch();
    var r := w.regs["B"];
    RunKeeps(w0, steps, w);
    CutOff(r);
    forall origins | IsOrigins(ClonesFor(r, "v"), origins) && Deletion.Acyclic(origins, Age(w.births))
      ensures "c" !in Deletion.Subtree(origins, Age(w.births), "v")
    {
      BranchOutOfReach(w.births, r, "v", origins, "y", BY);
    }
  }

  // ---------------------------------------------------------------------------
  // Delete, from the registry on
  // ---------------------------------------------------------------------------

  /** Looks the volume up, collects its branches, and deletes what it finds, cut off after any
      number of deletions. */
  method DeleteVolume(registry: Registry, name: VolumeName, containers: map<FsId, nat>, stopAfter: nat, ghost age: FsId -> nat)
    returns (found: Option<FsId>, origins: Deletion.Origins, accepted: bool, deleted: seq<FsId>, complete: bool)
    requires Aged(registry.Value(), age) && UniqueClones(registry.Value())
    ensures found == FilesystemIdOf(registry.Value(), name, "")
    ensures found.None? ==> deleted == []
    ensures found.Some? ==>
              && IsOrigins(ClonesFor(registry.Value(), found.value), origins) && Deletion.Acyclic(origins, age)
              && (accepted <==> forall f <- Deletion.Subtree(origins, age, found.value) :: f in containers ==> containers[f] == 0)
              && Deletion.NoOrphans(origins, set f | f in deleted)
              && (complete ==> (set f | f in deleted) == Deletion.Subtree(origins, age, found.value))
              && (accepted && !complete ==> |deleted| == stopAfter)
              && (forall f <- deleted :: f in Deletion.Subtree(origins, age, found.value) && (f in containers ==> containers[f] == 0))
  {
    origins, accepted, deleted, complete := map[], false, [], false;
    found := registry.MaybeCloneFilesystemId(name, "");
    if found == None {
      return;
    }
    var clones := registry.ClonesOf(found.value);
    forall n, n' | n in clones && n' in clones && clones[n].id == clones[n'].id ensures n == n' {
      assert Registered(registry.Value(), found.value, n, clones[n]) && Registered(registry.Value(), found.value, n', clones[n']);
    }
    origins := CollectOrigins(clones);
    forall f | f in origins ensures age(origins[f]) < age(f) {
      var n :| n in clones && clones[n].id == f;
      assert Registered(registry.Value(), found.value, n, clones[n]);
    }
    accepted, deleted, complete := Deletion.Delete(containers, found.value, origins, stopAfter, age);
  }

  /** Deleting again once the cache has heard that one branch is gone: no branch is found any
      more, and the volume itself is all that is deleted. */
  method DeleteAfterOneIsGone(registry: Registry, name: VolumeName, gone: BranchName, containers: map<FsId, nat>, stopAfter: nat, ghost age: FsId -> nat)
    returns (found: Option<FsId>, origins: Deletion.Origins, accepted: bool, deleted: seq<FsId>, complete: bool)
    requires Aged(registry.Value(), age) && UniqueClones(registry.Value())
    requires name in registry.topLevelFilesystems
    modifies registry
    ensures found == Some(old(registry.topLevelFilesystems)[name])
    ensures origins == map[]
    ensures forall f <- deleted :: f == found.value
    ensures complete ==> found.value in deleted
    ensures accepted <==> (found.value in containers ==> containers[found.value] == 0)
  {
    var id := registry.MaybeCloneFilesystemId(name, "");
    registry.DeleteCloneFromEtcd(gone, id.value);
    found, origins, accepted, deleted, complete := DeleteVolume(registry, name, containers, stopAfter, age);
    NoClonesLeft(registry.Value(), id.value, origins);
    assert found == id;
    assert Deletion.Subtree(map[], age, id.value) == {id.value};
    assert complete ==> id.value in set f | f in deleted;
  }

  lemma NoClonesLeft(r: Reg, tl: FsId, origins: Deletion.Origins)
    requires IsOrigins(ClonesFor(r, tl), origins) && forall n, c :: !Registered(r, tl, n, c)
    ensures origins == map[]
  {
    assert forall n :: n in ClonesFor(r, tl) ==> Registered(r, tl, n, ClonesFor(r, tl)[n]);
  }

  lemma SubtreeIsVolume(births: seq<Birth>, r: Reg, tl: FsId, origins: Deletion.Origins, f: FsId)
    requires BirthsOk(births) && Truthful(births, r) && VolumeClosed(r, tl) && IsOrigins(ClonesFor(r, tl), origins)
    requires Deletion.Acyclic(origins, Age(births))
    ensures f in Deletion.Subtree(origins, Age(births), tl) <==> InVolume(r, tl, f)
  {
    var clones := ClonesFor(r, tl);
    if f in origins {
      var n :| n in clones && clones[n].id == f;
      assert Registered(r, tl, n, clones[n]);
    }
    if InVolume(r, tl, f) {
      BranchBelowVolume(births, r, tl, origins, f);
      if f != tl {
        var n, x :| Registered(r, tl, n, x) && x.id == f;
        assert n in clones && clones[n] == x;
      }
    }
  }

  lemma VolumeIsNamed(births: seq<Birth>, r: Reg, name: VolumeName, f: FsId)
    requires BirthsOk(births) && Truthful(births, r) && name in r.topLevel
    ensures InVolume(r, r.topLevel[name], f) <==> exists branch :: FilesystemIdOf(r, name, branch) == Some(f)
  {
    var tl := r.topLevel[name];
    TruthfulIsOrderly(births, r);
    if f == tl {
      assert FilesystemIdOf(r, name, "") == Some(f);
    } else if InVolume(r, tl, f) {
      var n, x :| Registered(r, tl, n, x) && x.id == f;
      assert n != "";
      assert FilesystemIdOf(r, name, n) == Some(f);
    }
    if branch :| FilesystemIdOf(r, name, branch) == Some(f) {
      BranchOriginBorn(births, r, name, branch);
    }
  }
}
