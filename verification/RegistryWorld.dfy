/** Clusters that create volumes, branch them, and register each other's paths of branches:
    what holds of every registry such clusters can reach.
  */
module RegistryWorld {
  import opened Snapshots
  import opened Registries

  type ClusterId = string

  const DefaultBranch: BranchName := "master"

  /** How a filesystem came about. */
  datatype Birth =
    | NewVolume(id: FsId)
    | NewBranch(id: FsId, volume: FsId, name: BranchName, origin: Origin)
  {
    function Volume(): FsId { if NewVolume? then id else volume }
  }

  /** A branch that a transfer found missing where it is to go. */
  datatype Missing = Missing(c: ClusterId, name: VolumeName, branch: BranchName)

  /** The registries, every filesystem ever created in order of creation, every path that was
      ever deduced somewhere, and every branch that was ever found missing. */
  datatype World = World(regs: map<ClusterId, Reg>, births: seq<Birth>, paths: set<Path>, missing: set<Missing>)

  datatype Step =
    | Create(c: ClusterId, name: VolumeName, id: FsId)
    | Branch(c: ClusterId, name: VolumeName, source: BranchName, newName: BranchName, id: FsId, snapshot: SnapshotId)
    | Deduce(c: ClusterId, name: VolumeName, branch: BranchName, path: Path)
    | FindMissing(c: ClusterId, name: VolumeName, branch: BranchName)
    | Register(c: ClusterId, path: Path, volume: VolumeName, target: BranchName)

  /** The filesystem a new branch is taken from. */
  function SourceOf(r: Reg, name: VolumeName, source: BranchName): Option<FsId> {
    FilesystemIdOf(r, name, if source == DefaultBranch then "" else source)
  }

  ghost predicate Fresh(births: seq<Birth>, id: FsId) {
    id != "" && forall b <- births :: b.id != id
  }

  ghost predicate Enabled(w: World, step: Step) {
    step.c in w.regs &&
    var r := w.regs[step.c];
    match step
    case Create(_, name, id) => name !in r.topLevel && Fresh(w.births, id)
    case Branch(_, name, source, newName, id, _) =>
      && Fresh(w.births, id)
      && SourceOf(r, name, source).Some?
      && newName != "" && newName != DefaultBranch
      && FilesystemIdOf(r, name, newName).None?
    case Deduce(_, name, branch, path) => Deduces(r, name, branch, path)
    case FindMissing(_, name, branch) => FilesystemIdOf(r, name, branch).None?
    // a transfer asks first; by the time it registers the path the answer may be out of date
    case Register(c, path, volume, target) => path in w.paths && Missing(c, volume, target) in w.missing
  }

  function Perform(w: World, step: Step): World
    requires Enabled(w, step)
  {
    var r := w.regs[step.c];
    match step
    case Create(c, name, id) =>
      w.(regs := w.regs[c := r.(topLevel := r.topLevel[name := id])], births := w.births + [NewVolume(id)])
    case Branch(c, name, source, newName, id, snapshot) =>
      var tl := r.topLevel[name];
      var origin := Origin(SourceOf(r, name, source).value, snapshot);
      w.(regs := w.regs[c := WithClone(r, tl, newName, Clone(id, origin))],
         births := w.births + [NewBranch(id, tl, newName, origin)])
    case Deduce(_, _, _, path) => w.(paths := w.paths + {path})
    case FindMissing(c, name, branch) => w.(missing := w.missing + {Missing(c, name, branch)})
    case Register(c, path, newName, _) =>
      w.(regs := w.regs[c := WithPath(r, path.(topLevelName := newName))])
  }

  ghost predicate Run(w: World, steps: seq<Step>, w': World)
    decreases steps
  {
    if steps == [] then w == w'
    else Enabled(w, steps[0]) && Run(Perform(w, steps[0]), steps[1..], w')
  }

  ghost predicate Init(w: World) {
    w.births == [] && w.paths == {} && w.missing == {} && forall c <- w.regs :: w.regs[c] == Reg(map[], map[])
  }

  // ---------------------------------------------------------------------------
  // The invariant
  // ---------------------------------------------------------------------------

  function BirthOf(tl: FsId, x: CloneWithName): Birth {
    NewBranch(x.clone.id, tl, x.name, x.clone.origin)
  }

  /** A branch comes after what it was taken from, in the same volume. */
  ghost predicate Descends(births: seq<Birth>, i: nat)
    requires i < |births|
  {
    births[i].NewBranch? ==> exists j :: 0 <= j < i && births[j].id == births[i].origin.fs && births[j].Volume() == births[i].volume
  }

  ghost predicate BirthsOk(births: seq<Birth>) {
    && (forall i, j :: 0 <= i < j < |births| ==> births[i].id != births[j].id)
    && (forall i :: 0 <= i < |births| ==> births[i].id != "" && Descends(births, i))
    && (forall b <- births :: b.NewBranch? ==> b.name != "")
  }

  /** A registry tells the truth about how filesystems came about. */
  ghost predicate Truthful(births: seq<Birth>, r: Reg) {
    && (forall tl, n, c {:trigger Registered(r, tl, n, c)} :: Registered(r, tl, n, c) ==> BirthOf(tl, CloneWithName(n, c)) in births)
    && (forall name <- r.topLevel :: NewVolume(r.topLevel[name]) in births)
  }

  /** A path is a line of descent from its volume. */
  ghost predicate PathOk(births: seq<Birth>, path: Path) {
    && NewVolume(path.topLevelId) in births
    && (forall x <- path.clones :: BirthOf(path.topLevelId, x) in births)
    && DistinctNames(path.clones)
    && Linked(path.topLevelId, path.clones)
  }

  /** The first clone was taken from the volume, and each other one from the one before. */
  ghost predicate Linked(tl: FsId, cs: seq<CloneWithName>) {
    forall i :: 0 <= i < |cs| ==> cs[i].clone.origin.fs == Before(tl, cs, i)
  }

  function Before(tl: FsId, cs: seq<CloneWithName>, i: nat): FsId
    requires i <= |cs|
  {
    if i == 0 then tl else cs[i - 1].clone.id
  }

  ghost predicate Inv(w: World) {
    && BirthsOk(w.births)
    && (forall c <- w.regs :: Truthful(w.births, w.regs[c]))
    && (forall p <- w.paths :: PathOk(w.births, p))
  }

  function AgeIn(births: seq<Birth>, id: FsId): nat {
    if births == [] then 0
    else if Last(births).id == id then |births|
    else AgeIn(births[..|births| - 1], id)
  }

  function Age(births: seq<Birth>): FsId -> nat {
    id => AgeIn(births, id)
  }

  lemma {:induction false} AgeIsPosition(births: seq<Birth>, i: nat)
    requires i < |births| && forall a, b :: 0 <= a < b < |births| ==> births[a].id != births[b].id
    ensures AgeIn(births, births[i].id) == i + 1
  {
    if i == |births| - 1 {
    } else {
      AgeIsPosition(births[..|births| - 1], i);
    }
  }

  lemma SameIdSameBirth(births: seq<Birth>, a: Birth, b: Birth)
    requires BirthsOk(births) && a in births && b in births && a.id == b.id
    ensures a == b
  {
    var i :| 0 <= i < |births| && births[i] == a;
    var j :| 0 <= j < |births| && births[j] == b;
    assert i == j;
  }

  /** The walk that deduces a path ends, and finds the clone there is, in any truthful registry. */
  lemma TruthfulIsOrderly(births: seq<Birth>, r: Reg)
    requires BirthsOk(births) && Truthful(births, r)
    ensures Aged(r, Age(births)) && UniqueClones(r)
    ensures forall tl, c :: !Registered(r, tl, "", c)
  {
    forall tl, n, c | Registered(r, tl, n, c) ensures Age(births)(c.origin.fs) < Age(births)(c.id) {
      var i :| 0 <= i < |births| && births[i] == BirthOf(tl, CloneWithName(n, c));
      assert Descends(births, i);
      var j :| 0 <= j < i && births[j].id == births[i].origin.fs;
      AgeIsPosition(births, i);
      AgeIsPosition(births, j);
    }
    forall tl, n, c, tl', n', c' | Registered(r, tl, n, c) && Registered(r, tl', n', c') && c.id == c'.id
      ensures tl == tl' && n == n'
    {
      SameIdSameBirth(births, BirthOf(tl, CloneWithName(n, c)), BirthOf(tl', CloneWithName(n', c')));
    }
    forall tl, c ensures !Registered(r, tl, "", c) {
      assert Registered(r, tl, "", c) ==> BirthOf(tl, CloneWithName("", c)) in births;
    }
  }

  lemma OriginSameVolume(births: seq<Birth>, b: Birth, o: Birth)
    requires BirthsOk(births) && b in births && o in births && b.NewBranch? && b.origin.fs == o.id
    ensures b.volume == o.Volume()
  {
    var i :| 0 <= i < |births| && births[i] == b;
    assert Descends(births, i);
    var j :| 0 <= j < i && births[j].id == b.origin.fs && births[j].Volume() == b.volume;
    SameIdSameBirth(births, births[j], o);
  }

  /** A chain from a filesystem stays in the volume of that filesystem. */
  lemma {:induction false} ChainDescends(births: seq<Birth>, r: Reg, start: Birth, cs: seq<CloneWithName>)
    requires BirthsOk(births) && Truthful(births, r) && start in births && IsChain(r, start.id, cs)
    ensures forall x <- cs :: Registered(r, start.Volume(), x.name, x.clone)
    ensures Linked(start.id, cs)
    decreases cs
  {
    if cs == [] {
    } else {
      var b := HeadBirth(births, r, start, cs[0]);
      ChainDescends(births, r, b, cs[1..]);
      HeadAndRest(cs);
      LinkedCons(start.id, cs);
    }
  }

  /** A clone of a filesystem was born in the same volume. */
  lemma HeadBirth(births: seq<Birth>, r: Reg, start: Birth, x: CloneWithName) returns (b: Birth)
    requires BirthsOk(births) && Truthful(births, r) && start in births
    requires IsListed(r, x) && x.clone.origin.fs == start.id
    ensures b in births && b.id == x.clone.id && b.Volume() == start.Volume()
    ensures Registered(r, start.Volume(), x.name, x.clone)
  {
    var tl :| Registered(r, tl, x.name, x.clone);
    b := BirthOf(tl, x);
    assert x == CloneWithName(x.name, x.clone);
    OriginSameVolume(births, b, start);
  }

  lemma HeadAndRest(cs: seq<CloneWithName>)
    requires cs != []
    ensures forall x <- cs :: x == cs[0] || x in cs[1..]
  {
    assert cs == [cs[0]] + cs[1..];
  }

  lemma LinkedCons(start: FsId, cs: seq<CloneWithName>)
    requires cs != [] && cs[0].clone.origin.fs == start && Linked(cs[0].clone.id, cs[1..])
    ensures Linked(start, cs)
  {
    forall i | 0 <= i < |cs| ensures cs[i].clone.origin.fs == Before(start, cs, i) {
      if i > 0 { assert cs[i] == cs[1..][i - 1] && (i > 1 ==> cs[i - 1] == cs[1..][i - 2]); }
    }
  }

  /** Clones that are linked and registered under their volume form a chain. */
  lemma {:induction false} LinkedIsChain(r: Reg, tl: FsId, start: FsId, cs: seq<CloneWithName>)
    requires Linked(start, cs) && forall x <- cs :: Registered(r, tl, x.name, x.clone)
    ensures IsChain(r, start, cs)
    decreases cs
  {
    if cs == [] {
    } else {
      assert Registered(r, tl, cs[0].name, cs[0].clone);
      forall i | 0 <= i < |cs| - 1
        ensures cs[1..][i].clone.origin.fs == Before(cs[0].clone.id, cs[1..], i)
      {
        assert cs[i + 1].clone.origin.fs == Before(start, cs, i + 1);
      }
      LinkedIsChain(r, tl, cs[0].clone.id, cs[1..]);
    }
  }

  /** Ids on a chain differ, so names do: the chain lies in one volume of one registry. */
  lemma ChainNamesDistinct(births: seq<Birth>, r: Reg, tl: FsId, cs: seq<CloneWithName>)
    requires BirthsOk(births) && Truthful(births, r) && IsChain(r, tl, cs)
    requires forall x <- cs :: Registered(r, tl, x.name, x.clone)
    ensures DistinctNames(cs)
  {
    TruthfulIsOrderly(births, r);
    forall i, j | 0 <= i < j < |cs| ensures cs[i].name != cs[j].name {
      ChainGetsYounger(r, Age(births), tl, cs, i, j);
      assert cs[i].clone != cs[j].clone;
      assert Registered(r, tl, cs[i].name, cs[i].clone) && Registered(r, tl, cs[j].name, cs[j].clone);
    }
  }

  lemma {:induction false} ChainGetsYounger(r: Reg, age: FsId -> nat, start: FsId, cs: seq<CloneWithName>, i: nat, j: nat)
    requires Aged(r, age) && IsChain(r, start, cs) && i < j < |cs|
    ensures age(cs[i].clone.id) < age(cs[j].clone.id)
    decreases cs
  {
    if i == 0 {
      ChainTail(r, start, cs, j + 1);
      assert cs[1..j + 1] != [] && Last(cs[1..j + 1]) == cs[j];
      ChainAges(r, age, cs[0].clone.id, cs[1..j + 1]);
    } else {
      ChainGetsYounger(r, age, cs[0].clone.id, cs[1..], i - 1, j - 1);
    }
  }

  lemma {:induction false} ChainTail(r: Reg, start: FsId, cs: seq<CloneWithName>, k: nat)
    requires IsChain(r, start, cs) && 1 <= k <= |cs|
    ensures IsChain(r, cs[0].clone.id, cs[1..k])
    decreases cs
  {
    if k == 1 {
    } else {
      ChainTail(r, cs[0].clone.id, cs[1..], k - 1);
      assert cs[1..k][0] == cs[1..][0] == cs[1];
      assert cs[1..k][1..] == cs[1..][1..k - 1];
    }
  }

  lemma DeducedPathOk(births: seq<Birth>, r: Reg, name: VolumeName, branch: BranchName, path: Path)
    requires BirthsOk(births) && Truthful(births, r) && Deduces(r, name, branch, path)
    ensures PathOk(births, path)
    ensures forall x <- path.clones :: Registered(r, path.topLevelId, x.name, x.clone)
  {
    ChainDescends(births, r, NewVolume(path.topLevelId), path.clones);
    ChainNamesDistinct(births, r, path.topLevelId, path.clones);
    forall x | x in path.clones ensures BirthOf(path.topLevelId, x) in births {
      assert Registered(r, path.topLevelId, x.name, x.clone) && x == CloneWithName(x.name, x.clone);
    }
  }

  // ---------------------------------------------------------------------------
  // Every step keeps it
  // ---------------------------------------------------------------------------

  lemma BirthsGrow(births: seq<Birth>, b: Birth)
    requires BirthsOk(births) && Fresh(births, b.id)
    requires b.NewBranch? ==> b.name != "" && exists o <- births :: o.id == b.origin.fs && o.Volume() == b.volume
    ensures BirthsOk(births + [b])
  {
    var all := births + [b];
    forall i | 0 <= i < |all| ensures all[i].id != "" && Descends(all, i) {
      if i < |births| {
        assert Descends(births, i);
        if births[i].NewBranch? {
          var j :| 0 <= j < i && births[j].id == births[i].origin.fs && births[j].Volume() == births[i].volume;
          assert all[j] == births[j];
        }
      } else if b.NewBranch? {
        var o :| o in births && o.id == b.origin.fs && o.Volume() == b.volume;
        var j :| 0 <= j < |births| && births[j] == o;
        assert all[j] == o;
      }
    }
  }

  lemma BranchOriginBorn(births: seq<Birth>, r: Reg, name: VolumeName, branch: BranchName)
    requires BirthsOk(births) && Truthful(births, r) && FilesystemIdOf(r, name, branch).Some?
    ensures exists o <- births :: o.id == FilesystemIdOf(r, name, branch).value && o.Volume() == r.topLevel[name]
    ensures InVolume(r, r.topLevel[name], FilesystemIdOf(r, name, branch).value)
  {
    var tl := r.topLevel[name];
    if branch == "" {
      assert NewVolume(tl) in births && NewVolume(tl).Volume() == tl;
    } else {
      var c := r.clones[tl][branch];
      assert Registered(r, tl, branch, c);
      var o := BirthOf(tl, CloneWithName(branch, c));
      assert o in births && o.Volume() == tl;
    }
  }

  lemma TruthfulWithPath(births: seq<Birth>, r: Reg, path: Path)
    requires BirthsOk(births) && Truthful(births, r) && PathOk(births, path)
    ensures Truthful(births, WithPath(r, path))
  {
    var r' := WithPath(r, path);
    var named := Named(r, path);
    forall tl, n, c | Registered(r', tl, n, c) ensures BirthOf(tl, CloneWithName(n, c)) in births {
      WithClonesHas(named, path.topLevelId, path.clones, tl, n, c);
      assert Registered(named, tl, n, c) == Registered(r, tl, n, c);
    }
    WithClonesHas(named, path.topLevelId, path.clones, "", "", Clone("", Origin("", "")));
  }

  lemma TruthfulWithClone(births: seq<Birth>, r: Reg, tl: FsId, name: BranchName, clone: Clone)
    requires Truthful(births, r)
    ensures Truthful(births + [NewBranch(clone.id, tl, name, clone.origin)], WithClone(r, tl, name, clone))
  {
    var all := births + [NewBranch(clone.id, tl, name, clone.origin)];
    forall tl', n, x | Registered(WithClone(r, tl, name, clone), tl', n, x) ensures BirthOf(tl', CloneWithName(n, x)) in all {
      WithCloneHas(r, tl, name, clone, tl', n, x);
    }
  }

  lemma TruthfulGrows(births: seq<Birth>, more: seq<Birth>, r: Reg)
    requires Truthful(births, r)
    ensures Truthful(births + more, r)
  {
  }

  lemma PathOkGrows(births: seq<Birth>, more: seq<Birth>, path: Path)
    requires PathOk(births, path)
    ensures PathOk(births + more, path)
  {
  }

  /** More births, and a change of one registry that they account for. */
  lemma InvGrows(w: World, c: ClusterId, r: Reg, more: seq<Birth>)
    requires Inv(w) && BirthsOk(w.births + more) && Truthful(w.births + more, r)
    ensures Inv(w.(regs := w.regs[c := r], births := w.births + more))
  {
    forall d | d in w.regs ensures Truthful(w.births + more, w.regs[d]) {
      TruthfulGrows(w.births, more, w.regs[d]);
    }
    forall p | p in w.paths ensures PathOk(w.births + more, p) {
      PathOkGrows(w.births, more, p);
    }
  }

  lemma CreateKeeps(w: World, c: ClusterId, name: VolumeName, id: FsId)
    requires Inv(w) && Enabled(w, Create(c, name, id))
    ensures Inv(Perform(w, Create(c, name, id)))
  {
    var r := w.regs[c];
    var r', births := r.(topLevel := r.topLevel[name := id]), w.births + [NewVolume(id)];
    BirthsGrow(w.births, NewVolume(id));
    assert forall tl, n, x :: Registered(r', tl, n, x) ==> Registered(r, tl, n, x);
    TruthfulGrows(w.births, [NewVolume(id)], r);
    InvGrows(w, c, r', [NewVolume(id)]);
  }

  lemma BranchKeeps(w: World, c: ClusterId, name: VolumeName, source: BranchName, newName: BranchName, id: FsId, snapshot: SnapshotId)
    requires Inv(w) && Enabled(w, Branch(c, name, source, newName, id, snapshot))
    ensures Inv(Perform(w, Branch(c, name, source, newName, id, snapshot)))
  {
    var r := w.regs[c];
    BranchOriginBorn(w.births, r, name, if source == DefaultBranch then "" else source);
    var tl := r.topLevel[name];
    var clone := Clone(id, Origin(SourceOf(r, name, source).value, snapshot));
    BirthsGrow(w.births, NewBranch(id, tl, newName, clone.origin));
    TruthfulWithClone(w.births, r, tl, newName, clone);
    InvGrows(w, c, WithClone(r, tl, newName, clone), [NewBranch(id, tl, newName, clone.origin)]);
  }

  lemma StepKeeps(w: World, step: Step)
    requires Inv(w) && Enabled(w, step)
    ensures Inv(Perform(w, step))
  {
    var r := w.regs[step.c];
    match step
    case Create(c, name, id) => CreateKeeps(w, c, name, id);
    case Branch(c, name, source, newName, id, snapshot) => BranchKeeps(w, c, name, source, newName, id, snapshot);
    case Deduce(_, name, branch, path) => DeducedPathOk(w.births, r, name, branch, path);
    case FindMissing(_, _, _) =>
    case Register(c, path, newName, _) =>
      assert PathOk(w.births, path.(topLevelName := newName));
      TruthfulWithPath(w.births, r, path.(topLevelName := newName));
      assert w.births + [] == w.births;
      InvGrows(w, c, WithPath(r, path.(topLevelName := newName)), []);
  }

  lemma {:induction false} RunKeeps(w: World, steps: seq<Step>, w': World)
    requires Inv(w) && Run(w, steps, w')
    ensures Inv(w')
    decreases steps
  {
    if steps == [] {
    } else {
      StepKeeps(w, steps[0]);
      RunKeeps(Perform(w, steps[0]), steps[1..], w');
    }
  }

  /** In every registry that clusters can reach, whatever paths they registered, deduction
      ends and has at most one answer: the first origin is the volume, every other origin
      is the clone before, and the last clone is the branch that was asked for. */
  lemma DeductionIsAChain(w0: World, steps: seq<Step>, w: World, c: ClusterId)
    requires Init(w0) && Run(w0, steps, w) && c in w.regs
    ensures Aged(w.regs[c], Age(w.births)) && UniqueClones(w.regs[c])
    ensures forall name, branch, p :: Deduces(w.regs[c], name, branch, p) ==>
              && Linked(p.topLevelId, p.clones)
              && (p.clones == [] <==> branch == "")
              && (p.clones != [] ==> Last(p.clones).name == branch && FilesystemIdOf(w.regs[c], name, branch) == Some(Last(p.clones).clone.id))
    ensures forall name, branch, p, q :: Deduces(w.regs[c], name, branch, p) && Deduces(w.regs[c], name, branch, q) ==> p == q
  {
    RunKeeps(w0, steps, w);
    var r := w.regs[c];
    TruthfulIsOrderly(w.births, r);
    forall name, branch, p | Deduces(r, name, branch, p)
      ensures Linked(p.topLevelId, p.clones) && (p.clones == [] <==> branch == "") && (p.clones != [] ==> Last(p.clones).name == branch)
    {
      DeducedPathOk(w.births, r, name, branch, p);
      DeducedLeaf(w.births, r, name, branch, p);
    }
    forall name, branch, p, q | Deduces(r, name, branch, p) && Deduces(r, name, branch, q) ensures p == q {
      ChainUnique(r, Age(w.births), p.topLevelId, p.clones, q.clones);
    }
  }

  /** The branch whose path it is has the name of the last clone, or is the master branch. */
  lemma DeducedLeaf(births: seq<Birth>, r: Reg, name: VolumeName, branch: BranchName, path: Path)
    requires BirthsOk(births) && Truthful(births, r) && Deduces(r, name, branch, path)
    ensures branch == if path.clones == [] then "" else Last(path.clones).name
  {
    TruthfulIsOrderly(births, r);
    DeducedPathOk(births, r, name, branch, path);
    var tl := path.topLevelId;
    if path.clones != [] {
      ChainAges(r, Age(births), tl, path.clones);
      assert branch != "";
      assert Registered(r, tl, Last(path.clones).name, Last(path.clones).clone);
      assert Registered(r, tl, branch, r.clones[tl][branch]);
    } else if branch != "" {
      var c := r.clones[tl][branch];
      assert Registered(r, tl, branch, c);
      SameIdSameBirth(births, BirthOf(tl, CloneWithName(branch, c)), NewVolume(tl));
    }
  }

  // ---------------------------------------------------------------------------
  // Deduction succeeds as long as registered paths do not conflict
  // ---------------------------------------------------------------------------

  ghost predicate AllClosed(w: World) {
    forall c <- w.regs :: Closed(w.regs[c])
  }

  /** Every path that is registered agrees with the branches the cluster already has. */
  ghost predicate Compatible(w: World, step: Step)
    requires Enabled(w, step)
  {
    step.Register? ==> BranchesCompatible(w.regs[step.c], step.path.topLevelId, step.path.clones)
  }

  ghost predicate CompatibleRun(w: World, steps: seq<Step>, w': World)
    decreases steps
  {
    if steps == [] then w == w'
    else Enabled(w, steps[0]) && Compatible(w, steps[0]) && CompatibleRun(Perform(w, steps[0]), steps[1..], w')
  }

  lemma InVolumeGrows(r: Reg, r': Reg, tl: FsId, fs: FsId)
    requires InVolume(r, tl, fs)
    requires forall n, c :: Registered(r, tl, n, c) ==> Registered(r', tl, n, c)
    ensures InVolume(r', tl, fs)
  {
    if fs != tl {
      var n, c :| Registered(r, tl, n, c) && c.id == fs;
      assert Registered(r', tl, n, c);
    }
  }

  /** A path that does not conflict adds its clones and changes nothing else. */
  lemma WithPathHas(r: Reg, path: Path, tl: FsId, n: BranchName, c: Clone)
    requires DistinctNames(path.clones)
    ensures BranchesCompatible(r, path.topLevelId, path.clones) ==>
              (Registered(WithPath(r, path), tl, n, c) <==>
                 Registered(r, tl, n, c) || (tl == path.topLevelId && CloneWithName(n, c) in path.clones))
    ensures tl != path.topLevelId ==> (Registered(WithPath(r, path), tl, n, c) <==> Registered(r, tl, n, c))
    ensures tl == path.topLevelId && CloneWithName(n, c) in path.clones ==> Registered(WithPath(r, path), tl, n, c)
    ensures WithPath(r, path).topLevel == Named(r, path).topLevel
  {
    var cs := path.clones;
    WithClonesHas(Named(r, path), path.topLevelId, cs, tl, n, c);
    assert Registered(Named(r, path), tl, n, c) == Registered(r, tl, n, c);
    if HasName(cs, n) {
      var x :| x in cs && x.name == n;
      assert x == CloneWithName(n, x.clone);
    }
    assert CloneWithName(n, c) in cs ==> HasName(cs, n) by {
      if CloneWithName(n, c) in cs { assert CloneWithName(n, c).name == n; }
    }
  }

  lemma ClosedWithPath(births: seq<Birth>, r: Reg, path: Path)
    requires PathOk(births, path) && Closed(r) && BranchesCompatible(r, path.topLevelId, path.clones)
    ensures Closed(WithPath(r, path))
  {
    var r' := WithPath(r, path);
    var cs := path.clones;
    forall tl, n, c { WithPathHas(r, path, tl, n, c); }
    forall tl, n, c | Registered(r', tl, n, c) ensures InVolume(r', tl, c.origin.fs) {
      if Registered(r, tl, n, c) {
        InVolumeGrows(r, r', tl, c.origin.fs);
      } else {
        assert tl == path.topLevelId;
        var i :| 0 <= i < |cs| && cs[i] == CloneWithName(n, c);
        if i > 0 {
          assert cs[i - 1] == CloneWithName(cs[i - 1].name, cs[i - 1].clone);
          assert Registered(r', tl, cs[i - 1].name, cs[i - 1].clone);
        }
      }
    }
  }

  lemma StepKeepsClosed(w: World, step: Step)
    requires Inv(w) && AllClosed(w) && Enabled(w, step) && Compatible(w, step)
    ensures AllClosed(Perform(w, step))
  {
    var c := step.c;
    var r, r' := w.regs[c], Perform(w, step).regs[c];
    match step
    case Create(_, _, _) =>
      forall tl, n, x | Registered(r', tl, n, x) ensures InVolume(r', tl, x.origin.fs) {
        assert Registered(r, tl, n, x);
        InVolumeGrows(r, r', tl, x.origin.fs);
      }
    case Branch(_, name, source, newName, id, snapshot) =>
      var tl := r.topLevel[name];
      var clone := Clone(id, Origin(SourceOf(r, name, source).value, snapshot));
      BranchOriginBorn(w.births, r, name, if source == DefaultBranch then "" else source);
      forall tl', n, x | Registered(r', tl', n, x) ensures InVolume(r', tl', x.origin.fs) {
        WithCloneHas(r, tl, newName, clone, tl', n, x);
        forall n', x' | Registered(r, tl', n', x') ensures Registered(r', tl', n', x') {
          WithCloneHas(r, tl, newName, clone, tl', n', x');
        }
        InVolumeGrows(r, r', tl', x.origin.fs);
      }
    case Deduce(_, _, _, _) =>
    case FindMissing(_, _, _) =>
    case Register(_, path, newName, _) =>
      ClosedWithPath(w.births, r, path.(topLevelName := newName));
  }

  lemma {:induction false} CompatibleRunKeeps(w: World, steps: seq<Step>, w': World)
    requires Inv(w) && AllClosed(w) && CompatibleRun(w, steps, w')
    ensures Inv(w') && AllClosed(w') && Run(w, steps, w')
    decreases steps
  {
    if steps == [] {
    } else {
      StepKeeps(w, steps[0]);
      StepKeepsClosed(w, steps[0]);
      CompatibleRunKeeps(Perform(w, steps[0]), steps[1..], w');
    }
  }

  /** Without conflicts, the path of every branch there is can be deduced in every
      registry that is reached. */
  lemma DeductionSucceeds(w0: World, steps: seq<Step>, w: World, c: ClusterId, name: VolumeName, branch: BranchName)
    requires Init(w0) && CompatibleRun(w0, steps, w) && c in w.regs
    ensures (exists p :: Deduces(w.regs[c], name, branch, p)) <==> FilesystemIdOf(w.regs[c], name, branch).Some?
  {
    CompatibleRunKeeps(w0, steps, w);
    if FilesystemIdOf(w.regs[c], name, branch).Some? {
      var p := ClosedDeduces(w.births, w.regs[c], name, branch);
    }
  }

  lemma ClosedDeduces(births: seq<Birth>, r: Reg, name: VolumeName, branch: BranchName) returns (p: Path)
    requires BirthsOk(births) && Truthful(births, r) && Closed(r) && FilesystemIdOf(r, name, branch).Some?
    ensures Deduces(r, name, branch, p)
  {
    TruthfulIsOrderly(births, r);
    BranchOriginBorn(births, r, name, branch);
    var tl := r.topLevel[name];
    var cs := ChainExists(r, Age(births), tl, FilesystemIdOf(r, name, branch).value);
    p := Path(tl, name, cs);
  }

  /** A new branch is found under its name, and its path is the path of its source and the branch,
      taken from the snapshot that was asked for. */
  lemma BranchIsFound(w: World, c: ClusterId, name: VolumeName, source: BranchName, newName: BranchName, id: FsId, snapshot: SnapshotId)
    returns (p: Path)
    requires Inv(w) && AllClosed(w) && Enabled(w, Branch(c, name, source, newName, id, snapshot))
    ensures var src := if source == "master" then "" else source;
            && Deduces(w.regs[c], name, src, p)
            && Deduces(Perform(w, Branch(c, name, source, newName, id, snapshot)).regs[c], name, newName,
                       p.(clones := p.clones + [CloneWithName(newName, Clone(id, Origin(EndOf(p.topLevelId, p.clones), snapshot)))]))
  {
    var src := if source == "master" then "" else source;
    var r := w.regs[c];
    p := ClosedDeduces(w.births, r, name, src);
    DeducedPathOk(w.births, r, name, src, p);
    var tl, clone := p.topLevelId, Clone(id, Origin(EndOf(p.topLevelId, p.clones), snapshot));
    BranchExtends(r, name, p, newName, clone);
  }

  lemma BranchExtends(r: Reg, name: VolumeName, p: Path, newName: BranchName, clone: Clone)
    requires name in r.topLevel && r.topLevel[name] == p.topLevelId == EndOf(p.topLevelId, []) && p.topLevelName == name
    requires Linked(p.topLevelId, p.clones) && forall x <- p.clones :: Registered(r, p.topLevelId, x.name, x.clone)
    requires newName != "" && !NameTaken(r, p.topLevelId, newName) && clone.origin.fs == EndOf(p.topLevelId, p.clones)
    ensures Deduces(WithClone(r, p.topLevelId, newName, clone), name, newName, p.(clones := p.clones + [CloneWithName(newName, clone)]))
  {
    var tl := p.topLevelId;
    var r' := WithClone(r, tl, newName, clone);
    forall x | x in p.clones ensures Registered(r', tl, x.name, x.clone) {
      assert Registered(r, tl, x.name, x.clone);
    }
    LinkedIsChain(r', tl, tl, p.clones);
    assert Registered(r', tl, newName, clone);
    ChainAppend(r', tl, p.clones, CloneWithName(newName, clone));
  }

  lemma CreatedIsFound(w: World, c: ClusterId, name: VolumeName, id: FsId)
    requires Enabled(w, Create(c, name, id))
    ensures Deduces(Perform(w, Create(c, name, id)).regs[c], name, "", Path(id, name, []))
  {
  }

  /** Without conflicts, every name goes on standing for the same filesystem. */
  lemma {:induction false} NamesKept(w: World, steps: seq<Step>, w': World, c: ClusterId, name: VolumeName, branch: BranchName)
    requires Inv(w) && CompatibleRun(w, steps, w') && c in w.regs && FilesystemIdOf(w.regs[c], name, branch).Some?
    ensures c in w'.regs && FilesystemIdOf(w'.regs[c], name, branch) == FilesystemIdOf(w.regs[c], name, branch)
    decreases steps
  {
    if steps == [] {
    } else {
      StepKeeps(w, steps[0]);
      NameKept(w, steps[0], c, name, branch);
      NamesKept(Perform(w, steps[0]), steps[1..], w', c, name, branch);
    }
  }

  lemma NameKept(w: World, step: Step, c: ClusterId, name: VolumeName, branch: BranchName)
    requires Inv(w) && Enabled(w, step) && Compatible(w, step) && c in w.regs && FilesystemIdOf(w.regs[c], name, branch).Some?
    ensures c in Perform(w, step).regs
    ensures FilesystemIdOf(Perform(w, step).regs[c], name, branch) == FilesystemIdOf(w.regs[c], name, branch)
  {
    match step
    case Register(d, path, volume, _) =>
      if c == d { NameKeptByPath(w.births, w.regs[c], path.(topLevelName := volume), name, branch); }
    case _ =>
  }

  lemma NameKeptByPath(births: seq<Birth>, r: Reg, path: Path, name: VolumeName, branch: BranchName)
    requires PathOk(births, path) && BranchesCompatible(r, path.topLevelId, path.clones) && FilesystemIdOf(r, name, branch).Some?
    ensures FilesystemIdOf(WithPath(r, path), name, branch) == FilesystemIdOf(r, name, branch)
  {
    var tl := r.topLevel[name];
    WithPathHas(r, path, tl, branch, Clone("", Origin("", "")));
    if branch != "" {
      var c := r.clones[tl][branch];
      assert Registered(r, tl, branch, c);
      WithPathHas(r, path, tl, branch, c);
    }
  }

  // ---------------------------------------------------------------------------
  // Registering a path on another cluster
  // ---------------------------------------------------------------------------

  /** A path that one cluster deduced, registered on another under a name of its own:
      deducing the same branch there gives back the same volume id and the same clones
      exactly when the name was free there or already meant this volume. */
  lemma RegisterThenDeduce(w: World, d: ClusterId, name: VolumeName, branch: BranchName, path: Path,
                           c: ClusterId, newName: VolumeName)
    requires Inv(w) && d in w.regs && c in w.regs && Deduces(w.regs[d], name, branch, path)
    ensures var r := w.regs[c];
            var renamed := path.(topLevelName := newName);
            Deduces(WithPath(r, renamed), newName, branch, renamed) <==>
              newName !in r.topLevel || r.topLevel[newName] == path.topLevelId
  {
    var r := w.regs[c];
    var renamed := path.(topLevelName := newName);
    var r' := WithPath(r, renamed);
    DeducedPathOk(w.births, w.regs[d], name, branch, path);
    DeducedLeaf(w.births, w.regs[d], name, branch, path);
    var tl, cs := path.topLevelId, path.clones;
    forall n, x { WithPathHas(r, renamed, tl, n, x); }
    WithPathHas(r, renamed, tl, "", Clone("", Origin("", "")));
    forall x | x in cs ensures Registered(r', tl, x.name, x.clone) {
      assert x == CloneWithName(x.name, x.clone);
    }
    LinkedIsChain(r', tl, tl, cs);
    if cs != [] {
      assert Last(cs) in cs;
      assert BirthOf(tl, Last(cs)) in w.births;
      assert branch != "";
    }
  }

  /** The same of the step. */
  lemma StepThenDeduce(w: World, d: ClusterId, name: VolumeName, branch: BranchName, path: Path,
                       c: ClusterId, volume: VolumeName, target: BranchName)
    requires Inv(w) && d in w.regs && Deduces(w.regs[d], name, branch, path)
    requires Enabled(w, Register(c, path, volume, target))
    ensures Deduces(Perform(w, Register(c, path, volume, target)).regs[c], volume, branch, path.(topLevelName := volume)) <==>
              volume !in w.regs[c].topLevel || w.regs[c].topLevel[volume] == path.topLevelId
    ensures forall e <- w.regs :: e != c ==> Perform(w, Register(c, path, volume, target)).regs[e] == w.regs[e]
  {
    RegisterThenDeduce(w, d, name, branch, path, c, volume);
  }

  /** What the cluster could deduce before, it still deduces, exactly when the branches of
      the path agree with those it has, or it did not know the volume by any name. */
  lemma RegisterKeepsDeductions(w: World, c: ClusterId, path: Path)
    requires Inv(w) && c in w.regs && Closed(w.regs[c]) && PathOk(w.births, path)
    ensures var r := w.regs[c];
            (forall name, branch, p :: Deduces(r, name, branch, p) ==> Deduces(WithPath(r, path), name, branch, p)) <==>
              (path.topLevelId in r.topLevel.Values ==> BranchesCompatible(r, path.topLevelId, path.clones))
  {
    var r := w.regs[c];
    if path.topLevelId in r.topLevel.Values ==> BranchesCompatible(r, path.topLevelId, path.clones) {
      forall name, branch, p | Deduces(r, name, branch, p) ensures Deduces(WithPath(r, path), name, branch, p) {
        DeductionKept(w.births, r, path, name, branch, p);
      }
    } else {
      var x, clone :| x in path.clones && Registered(r, path.topLevelId, x.name, clone) && clone != x.clone;
      var name :| name in r.topLevel && r.topLevel[name] == path.topLevelId;
      DeductionLost(w.births, r, path, name, x, clone);
    }
  }

  lemma VolumeStaysNamed(r: Reg, path: Path, name: VolumeName)
    requires DistinctNames(path.clones) && name in r.topLevel
    ensures name in WithPath(r, path).topLevel && WithPath(r, path).topLevel[name] == r.topLevel[name]
  {
    WithPathHas(r, path, "", "", Clone("", Origin("", "")));
  }

  lemma DeductionKept(births: seq<Birth>, r: Reg, path: Path, name: VolumeName, branch: BranchName, p: Path)
    requires BirthsOk(births) && Truthful(births, r) && PathOk(births, path) && Deduces(r, name, branch, p)
    requires path.topLevelId in r.topLevel.Values ==> BranchesCompatible(r, path.topLevelId, path.clones)
    ensures Deduces(WithPath(r, path), name, branch, p)
  {
    var r' := WithPath(r, path);
    var tl := p.topLevelId;
    assert tl in r.topLevel.Values;
    DeducedPathOk(births, r, name, branch, p);
    DeducedLeaf(births, r, name, branch, p);
    VolumeStaysNamed(r, path, name);
    forall x | x in p.clones ensures Registered(r', tl, x.name, x.clone) {
      WithPathHas(r, path, tl, x.name, x.clone);
    }
    LinkedIsChain(r', tl, tl, p.clones);
    if p.clones != [] {
      assert Registered(r', tl, branch, Last(p.clones).clone);
    }
  }

  lemma DeductionLost(births: seq<Birth>, r: Reg, path: Path, name: VolumeName, x: CloneWithName, clone: Clone)
    requires BirthsOk(births) && Truthful(births, r) && PathOk(births, path) && Closed(r)
    requires x in path.clones && Registered(r, path.topLevelId, x.name, clone) && clone != x.clone
    requires name in r.topLevel && r.topLevel[name] == path.topLevelId
    ensures exists p :: Deduces(r, name, x.name, p) && !Deduces(WithPath(r, path), name, x.name, p)
  {
    var tl := path.topLevelId;
    TruthfulIsOrderly(births, r);
    var p := ClosedDeduces(births, r, name, x.name);
    assert x == CloneWithName(x.name, x.clone);
    WithPathHas(r, path, tl, x.name, x.clone);
    var old', new' := BirthOf(tl, CloneWithName(x.name, clone)), BirthOf(tl, x);
    if clone.id == x.clone.id { SameIdSameBirth(births, old', new'); }
    assert FilesystemIdOf(r, name, x.name) == Some(clone.id);
    assert FilesystemIdOf(WithPath(r, path), name, x.name) == Some(x.clone.id);
  }

  lemma {:induction false} RunAppend(w: World, steps: seq<Step>, w': World, step: Step)
    requires Run(w, steps, w') && Enabled(w', step)
    ensures Run(w, steps + [step], Perform(w', step))
    decreases steps
  {
    if steps == [] {
      assert steps + [step] == [step] && [step][1..] == [];
    } else {
      RunAppend(Perform(w, steps[0]), steps[1..], w', step);
      assert (steps + [step])[1..] == steps[1..] + [step];
    }
  }

  const V: VolumeName := VolumeName("admin", "v")
  const AX: Clone := Clone("a", Origin("v", "s"))
  const AW: Clone := Clone("d", Origin("a", "t"))
  const BX: Clone := Clone("b", Origin("v", "s"))
  const BY: Clone := Clone("c", Origin("b", "u"))

  type Clones = map<FsId, map<BranchName, Clone>>

  const AFirst: Clones := map["v" := map["x" := AX]]
  const AClones: Clones := map["v" := map["x" := AX, "w" := AW]]
  const BFirst: Clones := map["v" := map["x" := BX]]
  const BClones: Clones := map["v" := map["x" := BX, "y" := BY]]
  const BAfter: Clones := map["v" := map["x" := AX, "y" := BY, "w" := AW]]

  function Shared(clones: Clones): Reg {
    Reg(map[V := "v"], clones)
  }

  /** Clusters A and B share volume V, whose path has been registered on B. */
  function Both(a: Clones, b: Clones, births: seq<Birth>, more: set<Path>, missing: set<Missing>): World {
    World(map["A" := Shared(a), "B" := Shared(b)], births, {PathV} + more, {Missing("B", V, "")} + missing)
  }

  lemma PutA(a: Clones, b: Clones, births: seq<Birth>, a': Clones)
    ensures Both(a, b, births, {}, {}).regs["A" := Shared(a')] == Both(a', b, births, {}, {}).regs
  {
  }

  lemma PutB(a: Clones, b: Clones, births: seq<Birth>, paths: set<Path>, missing: set<Missing>, b': Clones)
    ensures Both(a, b, births, paths, missing).regs["B" := Shared(b')] == Both(a, b', births, paths, missing).regs
  {
  }

  const PathV: Path := Path("v", V, [])
  const PathW: Path := Path("v", V, [CloneWithName("x", AX), CloneWithName("w", AW)])

  lemma CreatedAndDeduced() returns (w0: World, steps: seq<Step>)
    ensures Init(w0) && Run(w0, steps, World(map["A" := Shared(map[]), "B" := Reg(map[], map[])], [NewVolume("v")], {PathV}, {}))
  {
    w0 := World(map["A" := Reg(map[], map[]), "B" := Reg(map[], map[])], [], {}, {});
    var w1 := World(map["A" := Shared(map[]), "B" := Reg(map[], map[])], [NewVolume("v")], {}, {});
    RunAppend(w0, [], w0, Create("A", V, "v"));
    assert Perform(w0, Create("A", V, "v")) == w1;
    assert Enabled(w1, Deduce("A", V, "", PathV));
    RunAppend(w0, [] + [Create("A", V, "v")], w1, Deduce("A", V, "", PathV));
    steps := [] + [Create("A", V, "v")] + [Deduce("A", V, "", PathV)];
  }

  lemma SharedVolume() returns (w0: World, steps: seq<Step>)
    ensures Init(w0) && Run(w0, steps, Both(map[], map[], [NewVolume("v")], {}, {}))
  {
    w0, steps := CreatedAndDeduced();
    var w2 := World(map["A" := Shared(map[]), "B" := Reg(map[], map[])], [NewVolume("v")], {PathV}, {});
    var w3 := w2.(missing := {Missing("B", V, "")});
    assert Perform(w2, FindMissing("B", V, "")) == w3;
    RunAppend(w0, steps, w2, FindMissing("B", V, ""));
    assert Perform(w3, Register("B", PathV, V, "")) == Both(map[], map[], [NewVolume("v")], {}, {});
    RunAppend(w0, steps + [FindMissing("B", V, "")], w3, Register("B", PathV, V, ""));
    steps := steps + [FindMissing("B", V, "")] + [Register("B", PathV, V, "")];
  }

  const AfterA: seq<Birth> := [NewVolume("v"), NewBranch("a", "v", "x", AX.origin), NewBranch("d", "v", "w", AW.origin)]

  lemma BranchOnA(w0: World, before: seq<Step>, a: Clones, births: seq<Birth>, source: BranchName, name: BranchName, clone: Clone, a': Clones)
    requires Run(w0, before, Both(a, map[], births, {}, {}))
    requires SourceOf(Shared(a), V, source) == Some(clone.origin.fs) && FilesystemIdOf(Shared(a), V, name).None?
    requires Fresh(births, clone.id) && name != "" && name != DefaultBranch
    requires WithClone(Shared(a), "v", name, clone) == Shared(a')
    ensures Run(w0, before + [Branch("A", V, source, name, clone.id, clone.origin.snapshot)],
                Both(a', map[], births + [NewBranch(clone.id, "v", name, clone.origin)], {}, {}))
  {
    var w, s := Both(a, map[], births, {}, {}), Branch("A", V, source, name, clone.id, clone.origin.snapshot);
    PutA(a, map[], births, a');
    RunAppend(w0, before, w, s);
  }

  lemma BranchOnB(w0: World, before: seq<Step>, b: Clones, births: seq<Birth>, source: BranchName, name: BranchName, clone: Clone, b': Clones)
    requires Run(w0, before, Both(AClones, b, births, {}, {}))
    requires SourceOf(Shared(b), V, source) == Some(clone.origin.fs) && FilesystemIdOf(Shared(b), V, name).None?
    requires Fresh(births, clone.id) && name != "" && name != DefaultBranch
    requires WithClone(Shared(b), "v", name, clone) == Shared(b')
    ensures Run(w0, before + [Branch("B", V, source, name, clone.id, clone.origin.snapshot)],
                Both(AClones, b', births + [NewBranch(clone.id, "v", name, clone.origin)], {}, {}))
  {
    var w, s := Both(AClones, b, births, {}, {}), Branch("B", V, source, name, clone.id, clone.origin.snapshot);
    PutB(AClones, b, births, {}, {}, b');
    RunAppend(w0, before, w, s);
  }

  /** A branches x from the volume, and w from x; B branches another x from it, and y from that x. */
  lemma ABranches(w0: World, before: seq<Step>) returns (steps: seq<Step>)
    requires Run(w0, before, Both(map[], map[], [NewVolume("v")], {}, {}))
    ensures Run(w0, steps, Both(AClones, map[], AfterA, {}, {}))
  {
    BranchOnA(w0, before, map[], [NewVolume("v")], "master", "x", AX, AFirst);
    steps := before + [Branch("A", V, "master", "x", "a", "s")];
    var births := [NewVolume("v")] + [NewBranch("a", "v", "x", AX.origin)];
    BranchOnA(w0, steps, AFirst, births, "x", "w", AW, AClones);
    steps := steps + [Branch("A", V, "x", "w", "d", "t")];
    assert births + [NewBranch("d", "v", "w", AW.origin)] == AfterA;
  }

  lemma BBranches(w0: World, before: seq<Step>) returns (steps: seq<Step>, births: seq<Birth>)
    requires Run(w0, before, Both(AClones, map[], AfterA, {}, {}))
    ensures Run(w0, steps, Both(AClones, BClones, births, {}, {}))
  {
    BranchOnB(w0, before, map[], AfterA, "master", "x", BX, BFirst);
    steps := before + [Branch("B", V, "master", "x", "b", "s")];
    births := AfterA + [NewBranch("b", "v", "x", BX.origin)];
    steps, births := BBranchesAgain(w0, steps, births);
  }

  lemma BBranchesAgain(w0: World, before: seq<Step>, born: seq<Birth>) returns (steps: seq<Step>, births: seq<Birth>)
    requires Run(w0, before, Both(AClones, BFirst, born, {}, {})) && Fresh(born, "c")
    ensures Run(w0, steps, Both(AClones, BClones, births, {}, {}))
  {
    BranchOnB(w0, before, BFirst, born, "x", "y", BY, BClones);
    steps, births := before + [Branch("B", V, "x", "y", "c", "u")], born + [NewBranch("c", "v", "y", BY.origin)];
  }

  lemma ADeducesW()
    ensures Deduces(Shared(AClones), V, "w", PathW)
  {
    var a := Shared(AClones);
    assert Registered(a, "v", "x", AX) && Registered(a, "v", "w", AW);
    assert IsListed(a, CloneWithName("x", AX)) && IsListed(a, CloneWithName("w", AW));
    var cs := PathW.clones;
    assert cs[1..] == [CloneWithName("w", AW)] && cs[1..][1..] == [];
    assert cs[0].clone.origin.fs == "v" && cs[1].clone.origin.fs == "a";
    assert IsChain(a, "a", cs[1..]);
    assert IsChain(a, "v", cs);
    assert AClones["v"]["w"] == AW;
  }

  lemma WRegisteredOnB()
    ensures FilesystemIdOf(Shared(BClones), V, "w").None?
    ensures WithPath(Shared(BClones), PathW.(topLevelName := V)) == Shared(BAfter)
  {
    var r, cs := Shared(BClones), PathW.clones;
    assert PathW.(topLevelName := V) == PathW && Named(r, PathW) == r;
    assert cs[..1] == [CloneWithName("x", AX)] && cs[..1][..0] == [];
    assert WithClones(r, "v", cs[..1]) == WithClone(r, "v", "x", AX);
    assert WithClones(r, "v", cs) == WithClone(WithClone(r, "v", "x", AX), "v", "w", AW);
    assert BClones["v"]["x" := AX]["w" := AW] == BAfter["v"];
    assert BClones["v" := BClones["v"]["x" := AX]]["v" := BAfter["v"]] == BAfter;
  }

  lemma ATransfersW(w0: World, before: seq<Step>, births: seq<Birth>) returns (steps: seq<Step>)
    requires Run(w0, before, Both(AClones, BClones, births, {}, {}))
    ensures Run(w0, steps, Both(AClones, BAfter, births, {PathW}, {Missing("B", V, "w")}))
  {
    ADeducesW();
    WRegisteredOnB();
    var w, find := Both(AClones, BClones, births, {}, {}), FindMissing("B", V, "w");
    RunAppend(w0, before, w, find);
    var w', deduce := Both(AClones, BClones, births, {}, {Missing("B", V, "w")}), Deduce("A", V, "w", PathW);
    assert Perform(w, find) == w';
    RunAppend(w0, before + [find], w', deduce);
    var w'', register := Both(AClones, BClones, births, {PathW}, {Missing("B", V, "w")}), Register("B", PathW, V, "w");
    assert Perform(w', deduce) == w'';
    PutB(AClones, BClones, births, {PathW}, {Missing("B", V, "w")}, BAfter);
    RunAppend(w0, before + [find] + [deduce], w'', register);
    steps := before + [find] + [deduce] + [register];
  }

  /** Branch names are compared on one cluster only, and a transfer asks for the branch at the end
      of the path only.  A's w is missing on B; with it comes A's x, which takes the place of
      B's x, and the path of y cannot be deduced any more. */
  lemma ConflictOrphansABranch() returns (w0: World, steps: seq<Step>, w: World)
    ensures Init(w0) && Run(w0, steps, w) && "B" in w.regs
    ensures w.regs["B"] == Shared(BAfter)
    ensures FilesystemIdOf(w.regs["B"], V, "y").Some? && forall p :: !Deduces(w.regs["B"], V, "y", p)
  {
    w0, steps := SharedVolume();
    steps := ABranches(w0, steps);
    var births;
    steps, births := BBranches(w0, steps);
    steps := ATransfersW(w0, steps, births);
    w := Both(AClones, BAfter, births, {PathW}, {Missing("B", V, "w")});
    forall p ensures !Deduces(w.regs["B"], V, "y", p) {
      if Deduces(w.regs["B"], V, "y", p) {
        NoChainToY(w.regs["B"], p.clones);
      }
    }
  }

  lemma NoChainToY(r: Reg, cs: seq<CloneWithName>)
    requires r == Shared(BAfter) && IsChain(r, "v", cs)
    ensures EndOf("v", cs) != "c"
  {
    if cs == [] {
    } else {
      ChainInit(r, "v", cs);
      NoChainToB(r, cs[..|cs| - 1]);
    }
  }

  lemma NoChainToB(r: Reg, cs: seq<CloneWithName>)
    requires r == Shared(BAfter) && IsChain(r, "v", cs)
    ensures EndOf("v", cs) != "b"
  {
    if cs == [] {
    } else {
      ChainInit(r, "v", cs);
    }
  }

  /** In that run cluster B believes in A's x, while etcd keeps B's. */
  lemma CacheDiffersFromEtcd()
    ensures !SameClones(WithClones(Shared(BClones), "v", PathW.clones), WithClonesIfAbsent(Shared(BClones), "v", PathW.clones))
  {
    var r := Shared(BClones);
    assert PathW.clones[0] in PathW.clones;
    assert Registered(r, "v", "x", BX) && BX != AX;
    assert !BranchesCompatible(r, "v", PathW.clones);
    CacheMatchesEtcd(r, "v", PathW.clones);
  }

  // ---------------------------------------------------------------------------
  // From ids back to names
  // ---------------------------------------------------------------------------

  /** A filesystem id has one user-facing name, so that looking up an id undoes looking up
      a name, exactly when no volume is registered under two names. */
  lemma IdsNameBranches(w: World, c: ClusterId)
    requires Inv(w) && c in w.regs
    ensures var r := w.regs[c];
            (forall n, b, n', b' :: FilesystemIdOf(r, n, b).Some? && FilesystemIdOf(r, n, b) == FilesystemIdOf(r, n', b') ==> n == n' && b == b')
            <==> (forall n <- r.topLevel, n' <- r.topLevel :: r.topLevel[n] == r.topLevel[n'] ==> n == n')
  {
    var r := w.regs[c];
    if forall n <- r.topLevel, n' <- r.topLevel :: r.topLevel[n] == r.topLevel[n'] ==> n == n' {
      forall n, b, n', b' | FilesystemIdOf(r, n, b).Some? && FilesystemIdOf(r, n, b) == FilesystemIdOf(r, n', b')
        ensures n == n' && b == b'
      {
        SameIdSameBranch(w.births, r, n, b, n', b');
      }
    } else {
      var n, n' :| n in r.topLevel && n' in r.topLevel && r.topLevel[n] == r.topLevel[n'] && n != n';
      assert FilesystemIdOf(r, n, "") == FilesystemIdOf(r, n', "");
    }
  }

  lemma SameIdSameBranch(births: seq<Birth>, r: Reg, n: VolumeName, b: BranchName, n': VolumeName, b': BranchName)
    requires BirthsOk(births) && Truthful(births, r)
    requires FilesystemIdOf(r, n, b).Some? && FilesystemIdOf(r, n, b) == FilesystemIdOf(r, n', b')
    ensures b == b' && r.topLevel[n] == r.topLevel[n']
  {
    SameIdSameBirth(births, NamedBirth(births, r, n, b), NamedBirth(births, r, n', b'));
  }

  /** How the filesystem with this name came about. */
  ghost function NamedBirth(births: seq<Birth>, r: Reg, n: VolumeName, b: BranchName): (birth: Birth)
    requires BirthsOk(births) && Truthful(births, r) && FilesystemIdOf(r, n, b).Some?
    ensures birth in births && Some(birth.id) == FilesystemIdOf(r, n, b)
    ensures birth.Volume() == r.topLevel[n]
    ensures b == if birth.NewVolume? then "" else birth.name
  {
    var tl := r.topLevel[n];
    if b == "" then NewVolume(tl)
    else
      var c := r.clones[tl][b];
      assert Registered(r, tl, b, c);
      BirthOf(tl, CloneWithName(b, c))
  }
}
