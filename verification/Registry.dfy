/** The registry of volumes and branches (registry.go), and the reconstruction of a path of
    branches on another cluster (registerFilesystemBecomeMaster in rpc.go).
  */
module Registries {
  import opened Snapshots

  type BranchName = string

  datatype VolumeName = VolumeName(namespace: string, name: string)
  datatype Origin = Origin(fs: FsId, snapshot: SnapshotId)
  datatype Clone = Clone(id: FsId, origin: Origin)
  datatype CloneWithName = CloneWithName(name: BranchName, clone: Clone)
  datatype Path = Path(topLevelId: FsId, topLevelName: VolumeName, clones: seq<CloneWithName>)

  /** Volumes by name, and per volume id its branches by name. */
  datatype Reg = Reg(topLevel: map<VolumeName, FsId>, clones: map<FsId, map<BranchName, Clone>>)

  predicate Registered(r: Reg, tl: FsId, name: BranchName, clone: Clone) {
    tl in r.clones && name in r.clones[tl] && r.clones[tl][name] == clone
  }

  ghost predicate IsListed(r: Reg, c: CloneWithName) {
    exists tl :: Registered(r, tl, c.name, c.clone)
  }

  /** The filesystem a volume name and a branch name stand for; "" is the master branch. */
  function FilesystemIdOf(r: Reg, name: VolumeName, branch: BranchName): Option<FsId> {
    if name !in r.topLevel then None
    else if branch == "" then Some(r.topLevel[name])
    else
      var tl := r.topLevel[name];
      if tl in r.clones && branch in r.clones[tl] then Some(r.clones[tl][branch].id) else None
  }

  // ---------------------------------------------------------------------------
  // Chains of clones
  // ---------------------------------------------------------------------------

  /** Clones the registry knows, each taken from the one before it, the first from `start`. */
  ghost predicate IsChain(r: Reg, start: FsId, cs: seq<CloneWithName>)
    decreases cs
  {
    cs == [] || (IsListed(r, cs[0]) && cs[0].clone.origin.fs == start && IsChain(r, cs[0].clone.id, cs[1..]))
  }

  function EndOf(start: FsId, cs: seq<CloneWithName>): FsId {
    if cs == [] then start else Last(cs).clone.id
  }

  /** What deducing the path to a branch should give. */
  ghost predicate Deduces(r: Reg, name: VolumeName, branch: BranchName, path: Path) {
    && path.topLevelName == name
    && name in r.topLevel && r.topLevel[name] == path.topLevelId
    && IsChain(r, path.topLevelId, path.clones)
    && FilesystemIdOf(r, name, branch) == Some(EndOf(path.topLevelId, path.clones))
  }

  /** A clone is younger than what it was taken from. */
  ghost predicate Aged(r: Reg, age: FsId -> nat) {
    forall tl, n, c {:trigger Registered(r, tl, n, c)} :: Registered(r, tl, n, c) ==> age(c.origin.fs) < age(c.id)
  }

  /** No filesystem id is registered twice as a clone. */
  ghost predicate UniqueClones(r: Reg) {
    forall tl, n, c, tl', n', c' {:trigger Registered(r, tl, n, c), Registered(r, tl', n', c')} ::
      Registered(r, tl, n, c) && Registered(r, tl', n', c') && c.id == c'.id ==> tl == tl' && n == n'
  }

  /** Every clone was taken from its volume or from another clone of the same volume. */
  ghost predicate Closed(r: Reg) {
    forall tl, n, c {:trigger Registered(r, tl, n, c)} :: Registered(r, tl, n, c) ==> InVolume(r, tl, c.origin.fs)
  }

  ghost predicate InVolume(r: Reg, tl: FsId, fs: FsId) {
    fs == tl || exists n, c :: Registered(r, tl, n, c) && c.id == fs
  }

  lemma {:induction false} ChainInit(r: Reg, start: FsId, cs: seq<CloneWithName>)
    requires IsChain(r, start, cs) && cs != []
    ensures IsChain(r, start, cs[..|cs| - 1]) && IsListed(r, Last(cs))
    ensures Last(cs).clone.origin.fs == EndOf(start, cs[..|cs| - 1])
    decreases cs
  {
    if |cs| == 1 {
    } else {
      ChainInit(r, cs[0].clone.id, cs[1..]);
      assert cs[1..][..|cs| - 2] == cs[..|cs| - 1][1..];
    }
  }

  lemma {:induction false} ChainAges(r: Reg, age: FsId -> nat, start: FsId, cs: seq<CloneWithName>)
    requires Aged(r, age) && IsChain(r, start, cs)
    ensures cs != [] ==> age(start) < age(EndOf(start, cs))
    decreases cs
  {
    if cs == [] {
    } else {
      var tl :| Registered(r, tl, cs[0].name, cs[0].clone);
      ChainAges(r, age, cs[0].clone.id, cs[1..]);
    }
  }

  /** There is only one chain from a volume to a filesystem. */
  lemma {:induction false} ChainUnique(r: Reg, age: FsId -> nat, start: FsId, cs: seq<CloneWithName>, ds: seq<CloneWithName>)
    requires Aged(r, age) && UniqueClones(r)
    requires IsChain(r, start, cs) && IsChain(r, start, ds) && EndOf(start, cs) == EndOf(start, ds)
    ensures cs == ds
    decreases |cs|
  {
    ChainAges(r, age, start, cs);
    ChainAges(r, age, start, ds);
    if cs == [] {
    } else {
      ChainInit(r, start, cs);
      ChainInit(r, start, ds);
      var tl :| Registered(r, tl, Last(cs).name, Last(cs).clone);
      var tl' :| Registered(r, tl', Last(ds).name, Last(ds).clone);
      assert Last(cs) == Last(ds);
      ChainUnique(r, age, start, cs[..|cs| - 1], ds[..|ds| - 1]);
      assert cs == cs[..|cs| - 1] + [Last(cs)] && ds == ds[..|ds| - 1] + [Last(ds)];
    }
  }

  /** Everything in a volume of a closed registry hangs on a chain from the volume. */
  lemma {:induction false} ChainExists(r: Reg, age: FsId -> nat, tl: FsId, fs: FsId) returns (cs: seq<CloneWithName>)
    requires Aged(r, age) && Closed(r) && InVolume(r, tl, fs)
    ensures IsChain(r, tl, cs) && EndOf(tl, cs) == fs
    decreases age(fs)
  {
    if fs == tl {
      cs := [];
    } else {
      var n, c :| Registered(r, tl, n, c) && c.id == fs;
      var before := ChainExists(r, age, tl, c.origin.fs);
      cs := before + [CloneWithName(n, c)];
      ChainAppend(r, tl, before, CloneWithName(n, c));
    }
  }

  lemma {:induction false} ChainAppend(r: Reg, start: FsId, cs: seq<CloneWithName>, c: CloneWithName)
    requires IsChain(r, start, cs) && IsListed(r, c) && c.clone.origin.fs == EndOf(start, cs)
    ensures IsChain(r, start, cs + [c])
    decreases cs
  {
    if cs == [] {
      assert [c][1..] == [];
      assert cs + [c] == [c];
    } else {
      ChainAppend(r, cs[0].clone.id, cs[1..], c);
      assert (cs + [c])[1..] == cs[1..] + [c];
    }
  }

  // ---------------------------------------------------------------------------
  // Registering a path on another cluster
  // ---------------------------------------------------------------------------

  function WithClone(r: Reg, tl: FsId, name: BranchName, clone: Clone): Reg {
    r.(clones := r.clones[tl := (if tl in r.clones then r.clones[tl] else map[])[name := clone]])
  }

  function WithClones(r: Reg, tl: FsId, cs: seq<CloneWithName>): Reg {
    if cs == [] then r
    else WithClone(WithClones(r, tl, cs[..|cs| - 1]), tl, Last(cs).name, Last(cs).clone)
  }

  /** The volume gets its name only if the name is free; the clones go under the id in the path. */
  function WithPath(r: Reg, path: Path): Reg {
    WithClones(Named(r, path), path.topLevelId, path.clones)
  }

  function Named(r: Reg, path: Path): Reg {
    if path.topLevelName in r.topLevel || path.topLevelId == "" then r
    else r.(topLevel := r.topLevel[path.topLevelName := path.topLevelId])
  }

  predicate NameTaken(r: Reg, tl: FsId, name: BranchName) {
    tl in r.clones && name in r.clones[tl]
  }

  /** The keys of clones in etcd: one that is there stays as it is. */
  function WithCloneIfAbsent(r: Reg, tl: FsId, name: BranchName, clone: Clone): Reg {
    if NameTaken(r, tl, name) then r else WithClone(r, tl, name, clone)
  }

  function WithClonesIfAbsent(r: Reg, tl: FsId, cs: seq<CloneWithName>): Reg {
    if cs == [] then r
    else WithCloneIfAbsent(WithClonesIfAbsent(r, tl, cs[..|cs| - 1]), tl, Last(cs).name, Last(cs).clone)
  }

  ghost predicate DistinctNames(cs: seq<CloneWithName>) {
    forall i, j :: 0 <= i < j < |cs| ==> cs[i].name != cs[j].name
  }

  ghost predicate HasName(cs: seq<CloneWithName>, n: BranchName) {
    exists x <- cs :: x.name == n
  }

  lemma HasNameLast(cs: seq<CloneWithName>, n: BranchName)
    requires cs != []
    ensures HasName(cs, n) <==> Last(cs).name == n || HasName(cs[..|cs| - 1], n)
    ensures forall x :: x in cs <==> x == Last(cs) || x in cs[..|cs| - 1]
  {
    assert cs == cs[..|cs| - 1] + [Last(cs)];
  }

  lemma {:induction false} WithClonesHas(r: Reg, tl: FsId, cs: seq<CloneWithName>, tl': FsId, n: BranchName, c: Clone)
    requires DistinctNames(cs)
    ensures Registered(WithClones(r, tl, cs), tl', n, c) <==>
              if tl' == tl && HasName(cs, n) then CloneWithName(n, c) in cs else Registered(r, tl', n, c)
    ensures WithClones(r, tl, cs).topLevel == r.topLevel
  {
    if cs == [] {
    } else {
      WithClonesHas(r, tl, cs[..|cs| - 1], tl', n, c);
      HasNameLast(cs, n);
      var before := WithClones(r, tl, cs[..|cs| - 1]);
      WithCloneHas(before, tl, Last(cs).name, Last(cs).clone, tl', n, c);
      if n == Last(cs).name {
        LastNameNew(cs);
      }
    }
  }

  lemma WithCloneHas(r: Reg, tl: FsId, name: BranchName, clone: Clone, tl': FsId, n: BranchName, c: Clone)
    ensures Registered(WithClone(r, tl, name, clone), tl', n, c) <==>
              if tl' == tl && n == name then c == clone else Registered(r, tl', n, c)
  {
  }

  lemma LastNameNew(cs: seq<CloneWithName>)
    requires cs != [] && DistinctNames(cs)
    ensures forall x <- cs[..|cs| - 1] :: x.name != Last(cs).name
  {
  }

  lemma {:induction false} WithClonesIfAbsentHas(r: Reg, tl: FsId, cs: seq<CloneWithName>, tl': FsId, n: BranchName, c: Clone)
    requires DistinctNames(cs)
    ensures NameTaken(WithClonesIfAbsent(r, tl, cs), tl', n) <==> NameTaken(r, tl', n) || (tl' == tl && HasName(cs, n))
    ensures Registered(WithClonesIfAbsent(r, tl, cs), tl', n, c) <==>
              Registered(r, tl', n, c) || (tl' == tl && CloneWithName(n, c) in cs && !NameTaken(r, tl, n))
  {
    if cs == [] {
    } else {
      var x := Last(cs);
      WithClonesIfAbsentHas(r, tl, cs[..|cs| - 1], tl', n, c);
      WithClonesIfAbsentHas(r, tl, cs[..|cs| - 1], tl, x.name, x.clone);
      HasNameLast(cs, n);
      LastNameNew(cs);
      WithCloneHas(WithClonesIfAbsent(r, tl, cs[..|cs| - 1]), tl, x.name, x.clone, tl', n, c);
    }
  }

  ghost predicate SameClones(a: Reg, b: Reg) {
    forall tl, n, c :: Registered(a, tl, n, c) <==> Registered(b, tl, n, c)
  }

  /** What the node believes after registering a path is what etcd holds, given that it was so
      before, exactly when no branch of the path stands for something else already: RegisterClone
      passes over the refusal of etcd. */
  lemma CacheMatchesEtcd(r: Reg, tl: FsId, cs: seq<CloneWithName>)
    requires DistinctNames(cs)
    ensures SameClones(WithClones(r, tl, cs), WithClonesIfAbsent(r, tl, cs)) <==> BranchesCompatible(r, tl, cs)
  {
    var cache, etcd := WithClones(r, tl, cs), WithClonesIfAbsent(r, tl, cs);
    if BranchesCompatible(r, tl, cs) {
      forall tl', n, c ensures Registered(cache, tl', n, c) <==> Registered(etcd, tl', n, c) {
        WithClonesHas(r, tl, cs, tl', n, c);
        WithClonesIfAbsentHas(r, tl, cs, tl', n, c);
        CompatibleName(r, tl, cs, n, c);
      }
    } else {
      var x, c :| x in cs && Registered(r, tl, x.name, c) && c != x.clone;
      WithClonesHas(r, tl, cs, tl, x.name, c);
      WithClonesIfAbsentHas(r, tl, cs, tl, x.name, c);
      OneOfThatName(cs, x, c);
      assert Registered(etcd, tl, x.name, c) && !Registered(cache, tl, x.name, c);
    }
  }

  lemma OneOfThatName(cs: seq<CloneWithName>, x: CloneWithName, c: Clone)
    requires DistinctNames(cs) && x in cs && c != x.clone
    ensures HasName(cs, x.name) && CloneWithName(x.name, c) !in cs
  {
  }

  lemma CompatibleName(r: Reg, tl: FsId, cs: seq<CloneWithName>, n: BranchName, c: Clone)
    requires BranchesCompatible(r, tl, cs) && DistinctNames(cs)
    ensures HasName(cs, n) && Registered(r, tl, n, c) ==> CloneWithName(n, c) in cs
    ensures CloneWithName(n, c) in cs ==> HasName(cs, n) && (NameTaken(r, tl, n) ==> Registered(r, tl, n, c))
  {
    if HasName(cs, n) && Registered(r, tl, n, c) {
      var x :| x in cs && x.name == n;
      assert x == CloneWithName(n, x.clone);
    }
    if CloneWithName(n, c) in cs {
      assert CloneWithName(n, c).name == n;
      assert NameTaken(r, tl, n) ==> Registered(r, tl, n, r.clones[tl][n]);
    }
  }

  /** No branch name of the path stands for something else in the registry. */
  ghost predicate BranchesCompatible(r: Reg, tl: FsId, cs: seq<CloneWithName>) {
    forall x <- cs :: forall c :: Registered(r, tl, x.name, c) ==> c == x.clone
  }

  // ---------------------------------------------------------------------------
  // The registry as an object
  // ---------------------------------------------------------------------------

  class Registry {
    var topLevelFilesystems: map<VolumeName, FsId>
    var cloneMaps: map<FsId, map<BranchName, Clone>>

    function Value(): Reg
      reads this
    {
      Reg(topLevelFilesystems, cloneMaps)
    }

    constructor ()
      ensures Value() == Reg(map[], map[])
    {
      topLevelFilesystems, cloneMaps := map[], map[];
    }

    /** An empty id stands for the deletion of the entry. */
    method UpdateFilesystemFromEtcd(name: VolumeName, id: FsId)
      modifies this
      ensures Value() == old(Value()).(topLevel := if id == "" then old(Value()).topLevel - {name}
                                                   else old(Value()).topLevel[name := id])
    {
      if id == "" {
        topLevelFilesystems := topLevelFilesystems - {name};
      } else {
        topLevelFilesystems := topLevelFilesystems[name := id];
      }
    }

    method UpdateCloneFromEtcd(name: BranchName, topLevelFilesystemId: FsId, clone: Clone)
      modifies this
      ensures Value() == WithClone(old(Value()), topLevelFilesystemId, name, clone)
    {
      if topLevelFilesystemId !in cloneMaps {
        cloneMaps := cloneMaps[topLevelFilesystemId := map[]];
      }
      cloneMaps := cloneMaps[topLevelFilesystemId := cloneMaps[topLevelFilesystemId][name := clone]];
    }

    /** The deletion of one clone makes the cache forget all clones of the volume. */
    method DeleteCloneFromEtcd(name: BranchName, topLevelFilesystemId: FsId)
      modifies this
      ensures Value().topLevel == old(Value()).topLevel
      ensures forall tl, n, c :: Registered(Value(), tl, n, c) <==>
                tl != topLevelFilesystemId && Registered(old(Value()), tl, n, c)
    {
      cloneMaps := cloneMaps - {topLevelFilesystemId};
    }

    method MaybeCloneFilesystemId(name: VolumeName, cloneName: BranchName) returns (id: Option<FsId>)
      ensures id == FilesystemIdOf(Value(), name, cloneName)
    {
      if name !in topLevelFilesystems {
        return None;
      }
      var tlfId := topLevelFilesystems[name];
      if cloneName != "" {
        if tlfId !in cloneMaps || cloneName !in cloneMaps[tlfId] {
          return None;
        }
        tlfId := cloneMaps[tlfId][cloneName].id;
      }
      return Some(tlfId);
    }

    /** The id, or "" if there is no such branch. */
    method Exists(name: VolumeName, cloneName: BranchName) returns (id: FsId)
      ensures id != "" ==> FilesystemIdOf(Value(), name, cloneName) == Some(id)
      ensures FilesystemIdOf(Value(), name, cloneName).Some? ==> FilesystemIdOf(Value(), name, cloneName) == Some(id)
      ensures FilesystemIdOf(Value(), name, cloneName).None? ==> id == ""
    {
      if name !in topLevelFilesystems {
        return "";
      }
      id := topLevelFilesystems[name];
      if cloneName != "" {
        if id !in cloneMaps {
          return "";
        }
        var clones := cloneMaps[id];
        if cloneName !in clones {
          return "";
        }
        id := clones[cloneName].id;
      }
    }

    /** Finds a clone by its id, whatever order the maps are walked in. */
    method LookupCloneByIdWithName(filesystemId: FsId) returns (found: Option<CloneWithName>)
      ensures found.Some? ==> IsListed(Value(), found.value) && found.value.clone.id == filesystemId
      ensures found.None? ==> forall tl, n, c :: Registered(Value(), tl, n, c) ==> c.id != filesystemId
    {
      var volumes := cloneMaps.Keys;
      while volumes != {}
        invariant volumes <= cloneMaps.Keys
        invariant forall tl, n, c :: Registered(Value(), tl, n, c) && tl !in volumes ==> c.id != filesystemId
        decreases volumes
      {
        var tl :| tl in volumes;
        volumes := volumes - {tl};
        var cloneMap := cloneMaps[tl];
        var names := cloneMap.Keys;
        while names != {}
          invariant names <= cloneMap.Keys
          invariant forall n :: n in cloneMap.Keys - names ==> cloneMap[n].id != filesystemId
          decreases names
        {
          var cloneName :| cloneName in names;
          names := names - {cloneName};
          if cloneMap[cloneName].id == filesystemId {
            assert Registered(Value(), tl, cloneName, cloneMap[cloneName]);
            return Some(CloneWithName(cloneName, cloneMap[cloneName]));
          }
        }
      }
      return None;
    }

    /** The user-facing name of a filesystem id.  A clone whose volume is not registered is
        passed over; one with the empty name would pass for the master branch. */
    method LookupFilesystemById(filesystemId: FsId) returns (found: Option<(VolumeName, BranchName)>)
      ensures found.Some? ==>
                || FilesystemIdOf(Value(), found.value.0, found.value.1) == Some(filesystemId)
                || (found.value.1 == "" && found.value.0 in topLevelFilesystems &&
                    exists c :: Registered(Value(), topLevelFilesystems[found.value.0], "", c) && c.id == filesystemId)
      ensures found.None? ==> forall name, branch :: FilesystemIdOf(Value(), name, branch) != Some(filesystemId)
    {
      var volumes := topLevelFilesystems.Keys;
      while volumes != {}
        invariant volumes <= topLevelFilesystems.Keys
        invariant forall v :: v in topLevelFilesystems.Keys - volumes ==> topLevelFilesystems[v] != filesystemId
        decreases volumes
      {
        var v :| v in volumes;
        volumes := volumes - {v};
        if topLevelFilesystems[v] == filesystemId {
          return Some((v, ""));
        }
      }
      var owners := cloneMaps.Keys;
      while owners != {}
        invariant owners <= cloneMaps.Keys
        invariant forall v, n :: v in topLevelFilesystems && topLevelFilesystems[v] in cloneMaps.Keys - owners ==>
                    n in cloneMaps[topLevelFilesystems[v]] ==>
                    cloneMaps[topLevelFilesystems[v]][n].id != filesystemId
        decreases owners
      {
        var tl :| tl in owners;
        owners := owners - {tl};
        var cloneMap := cloneMaps[tl];
        var names := cloneMap.Keys;
        while names != {}
          invariant names <= cloneMap.Keys
          invariant (exists v :: v in topLevelFilesystems && topLevelFilesystems[v] == tl) ==>
                      forall n :: n in cloneMap.Keys - names ==> cloneMap[n].id != filesystemId
          decreases names
        {
          var cloneName :| cloneName in names;
          names := names - {cloneName};
          if cloneMap[cloneName].id == filesystemId {
            var candidates := topLevelFilesystems.Keys;
            while candidates != {}
              invariant candidates <= topLevelFilesystems.Keys
              invariant forall v :: v in topLevelFilesystems.Keys - candidates ==> topLevelFilesystems[v] != tl
              decreases candidates
            {
              var v :| v in candidates;
              candidates := candidates - {v};
              if topLevelFilesystems[v] == tl {
                assert Registered(Value(), tl, cloneName, cloneMap[cloneName]);
                return Some((v, cloneName));
              }
            }
          }
        }
      }
      return None;
    }

    /** Walks from the branch to its volume.  The walk ends because clones get older on the
        way; the answer is the one chain from the volume to the branch. */
    method DeducePathToTopLevelFilesystem(name: VolumeName, cloneName: BranchName, ghost age: FsId -> nat)
      returns (path: Option<Path>)
      requires Aged(Value(), age)
      ensures path.Some? ==> Deduces(Value(), name, cloneName, path.value)
      ensures path.None? && UniqueClones(Value()) ==> forall p :: !Deduces(Value(), name, cloneName, p)
    {
      if name !in topLevelFilesystems {
        return None;
      }
      var tlfId := topLevelFilesystems[name];
      var filesystemId := MaybeCloneFilesystemId(name, cloneName);
      if filesystemId == None {
        return None;
      }
      var nextFilesystemId := filesystemId.value;
      var clist: seq<CloneWithName> := [];
      while nextFilesystemId != tlfId
        invariant IsChain(Value(), nextFilesystemId, clist) && EndOf(nextFilesystemId, clist) == filesystemId.value
        invariant UniqueClones(Value()) ==> forall p :: Deduces(Value(), name, cloneName, p) ==>
                    exists cs :: IsChain(Value(), tlfId, cs) && EndOf(tlfId, cs) == nextFilesystemId
        decreases age(nextFilesystemId)
      {
        var found := LookupCloneByIdWithName(nextFilesystemId);
        if found == None {
          forall p ensures UniqueClones(Value()) ==> !Deduces(Value(), name, cloneName, p) {
            if UniqueClones(Value()) && Deduces(Value(), name, cloneName, p) {
              var cs :| IsChain(Value(), tlfId, cs) && EndOf(tlfId, cs) == nextFilesystemId;
              ChainInit(Value(), tlfId, cs);
            }
          }
          return None;
        }
        var c := found.value;
        assert ([c] + clist)[1..] == clist;
        forall p | UniqueClones(Value()) && Deduces(Value(), name, cloneName, p)
          ensures exists cs :: IsChain(Value(), tlfId, cs) && EndOf(tlfId, cs) == c.clone.origin.fs
        {
          var cs :| IsChain(Value(), tlfId, cs) && EndOf(tlfId, cs) == nextFilesystemId;
          ChainInit(Value(), tlfId, cs);
          assert Last(cs) == c by {
            var tl :| Registered(Value(), tl, Last(cs).name, Last(cs).clone);
            var tl' :| Registered(Value(), tl', c.name, c.clone);
          }
        }
        clist := [c] + clist;
        nextFilesystemId := c.clone.origin.fs;
      }
      return Some(Path(nextFilesystemId, name, clist));
    }

    method ClonesOf(filesystemId: FsId) returns (clones: map<BranchName, Clone>)
      ensures clones == ClonesFor(Value(), filesystemId)
    {
      if filesystemId !in cloneMaps {
        return map[];
      }
      return cloneMaps[filesystemId];
    }

    /** Fails if etcd has the name; only then is the cache updated. */
    method RegisterFilesystem(etcd: Etcd, name: VolumeName, id: FsId) returns (ok: bool)
      modifies this, etcd`filesystems
      ensures ok == (name !in old(etcd.filesystems))
      ensures !ok ==> Value() == old(Value()) && etcd.filesystems == old(etcd.filesystems)
      ensures ok ==> etcd.filesystems == old(etcd.filesystems)[name := id]
      ensures ok ==> Value() == old(Value()).(topLevel := if id == "" then old(Value()).topLevel - {name}
                                                          else old(Value()).topLevel[name := id])
    {
      if name in etcd.filesystems {
        return false;
      }
      etcd.filesystems := etcd.filesystems[name := id];
      UpdateFilesystemFromEtcd(name, id);
      return true;
    }

    /** Updates the cache first; nobody looks whether etcd took the clone. */
    method RegisterClone(etcd: Etcd, name: BranchName, topLevelFilesystemId: FsId, clone: Clone)
      modifies this, etcd`clones
      ensures Value() == WithClone(old(Value()), topLevelFilesystemId, name, clone)
      ensures etcd.Names() == WithCloneIfAbsent(old(etcd.Names()), topLevelFilesystemId, name, clone)
    {
      UpdateCloneFromEtcd(name, topLevelFilesystemId, clone);
      if topLevelFilesystemId !in etcd.clones {
        etcd.clones := etcd.clones[topLevelFilesystemId := map[name := clone]];
      } else if name !in etcd.clones[topLevelFilesystemId] {
        etcd.clones := etcd.clones[topLevelFilesystemId := etcd.clones[topLevelFilesystemId][name := clone]];
      }
    }

    /** registerFilesystemBecomeMaster: claims the filesystems of the path that nobody is master
        of, then names the volume if this node does not know the name, then adds the clones. */
    method RegisterPath(etcd: Etcd, me: NodeId, path: Path) returns (ok: bool)
      requires forall v <- topLevelFilesystems :: topLevelFilesystems[v] != ""
      modifies this, etcd
      ensures forall f :: f in etcd.masters <==> f in old(etcd.masters) || f in PathIds(path)
      ensures forall f <- etcd.masters :: etcd.masters[f] == if f in old(etcd.masters) then old(etcd.masters)[f] else me
      ensures ok <==> (path.topLevelName in old(etcd.filesystems) ==> path.topLevelName in old(topLevelFilesystems))
      ensures !ok ==> Value() == old(Value()) && etcd.Names() == old(etcd.Names())
      ensures ok ==> Value() == WithPath(old(Value()), path)
      ensures ok ==> etcd.clones == WithClonesIfAbsent(old(etcd.Names()), path.topLevelId, path.clones).clones
      ensures ok ==> etcd.filesystems == if path.topLevelName in old(topLevelFilesystems) then old(etcd.filesystems)
                                         else old(etcd.filesystems)[path.topLevelName := path.topLevelId]
    {
      var filesystemIds := PathIds(path);
      for i := 0 to |filesystemIds|
        modifies etcd`masters
        invariant forall f :: f in etcd.masters <==> f in old(etcd.masters) || f in filesystemIds[..i]
        invariant forall f <- etcd.masters :: etcd.masters[f] == if f in old(etcd.masters) then old(etcd.masters)[f] else me
      {
        assert filesystemIds[..i + 1] == filesystemIds[..i] + [filesystemIds[i]];
        if filesystemIds[i] !in etcd.masters {
          etcd.masters := etcd.masters[filesystemIds[i] := me];
        }
      }
      assert filesystemIds[..|filesystemIds|] == filesystemIds;
      var existing := Exists(path.topLevelName, "");
      if existing == "" {
        ok := RegisterFilesystem(etcd, path.topLevelName, path.topLevelId);
        if !ok {
          return;
        }
        assert path.topLevelName !in old(topLevelFilesystems);
        assert old(topLevelFilesystems) - {path.topLevelName} == old(topLevelFilesystems);
      }
      assert Value() == Named(old(Value()), path);
      RegisterClones(etcd, path.topLevelId, path.clones);
      ClonesOnly(old(etcd.Names()), etcd.filesystems, path.topLevelId, path.clones);
      return true;
    }

    method RegisterClones(etcd: Etcd, topLevelFilesystemId: FsId, clones: seq<CloneWithName>)
      modifies this, etcd`clones
      ensures Value() == WithClones(old(Value()), topLevelFilesystemId, clones)
      ensures etcd.Names() == WithClonesIfAbsent(old(etcd.Names()), topLevelFilesystemId, clones)
    {
      for i := 0 to |clones|
        invariant Value() == WithClones(old(Value()), topLevelFilesystemId, clones[..i])
        invariant etcd.Names() == WithClonesIfAbsent(old(etcd.Names()), topLevelFilesystemId, clones[..i])
      {
        RegisterClone(etcd, clones[i].name, topLevelFilesystemId, clones[i].clone);
        assert clones[..i + 1][..i] == clones[..i];
      }
      assert clones[..|clones|] == clones;
    }
  }

  function ClonesFor(r: Reg, tl: FsId): map<BranchName, Clone> {
    if tl in r.clones then r.clones[tl] else map[]
  }

  type NodeId = string

  /** The keys of etcd that registering a path writes. */
  class Etcd {
    var masters: map<FsId, NodeId>
    var filesystems: map<VolumeName, FsId>
    var clones: map<FsId, map<BranchName, Clone>>

    function Names(): Reg
      reads this
    {
      Reg(filesystems, clones)
    }
  }

  function PathIds(path: Path): (ids: seq<FsId>)
    ensures forall f :: f in ids <==> f == path.topLevelId || exists x <- path.clones :: x.clone.id == f
  {
    var cs := path.clones;
    var ids := seq(|cs|, i requires 0 <= i < |cs| => cs[i].clone.id);
    assert forall i :: 0 <= i < |cs| ==> cs[i] in cs && ids[i] == cs[i].clone.id;
    [path.topLevelId] + ids
  }

  /** The names of volumes have no part in the registration of clones. */
  lemma {:induction false} ClonesOnly(r: Reg, topLevel: map<VolumeName, FsId>, tl: FsId, cs: seq<CloneWithName>)
    ensures WithClonesIfAbsent(r.(topLevel := topLevel), tl, cs) == WithClonesIfAbsent(r, tl, cs).(topLevel := topLevel)
  {
    if cs == [] {
    } else {
      ClonesOnly(r, topLevel, tl, cs[..|cs| - 1]);
    }
  }
}
