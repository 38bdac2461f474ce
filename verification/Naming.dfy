/** Names of volumes in etcd: any number of nodes creating volumes, and any number of nodes
    cleaning up after deleted ones, all at once (CreateFilesystem in controller.go,
    cleanupDeletedFilesystems in etcd.go, the end of Delete in rpc.go).

    A step is one access to etcd.  Between its steps a process may wait for ever, which is what
    a crash looks like to the others.
  */
module Naming {
  import opened Snapshots
  import opened Registries

  type ProcId = nat

  datatype Entry = Entry(id: FsId, owner: string)
  datatype Claim = Claim(fs: FsId, claimant: ProcId)

  /** Where a process is: the first five creating, the others cleaning up. */
  datatype Pc =
    | Absent(name: VolumeName, id: FsId)
    | Found(name: VolumeName, id: FsId)
    | Claiming(name: VolumeName, id: FsId)
    | Created(name: VolumeName, id: FsId)
    | Failed
    | Sweeping(fs: FsId, name: VolumeName)
    | Deleting(fs: FsId, name: VolumeName, entry: Entry)
    | Swept(fs: FsId, name: VolumeName)

  /** The keys in etcd, the processes, and what happened so far: every id ever drawn, the name
      each id was registered under, the successful claims in order. */
  datatype State = State(
    registry: map<VolumeName, Entry>,
    masters: map<FsId, ProcId>,
    deleted: set<FsId>,
    procs: map<ProcId, Pc>,
    drawn: set<FsId>,
    registered: map<FsId, VolumeName>,
    claims: seq<Claim>)

  datatype Step =
    | ReadName(p: ProcId, name: VolumeName, id: FsId)
    | RegisterName(p: ProcId, owner: string)
    | CheckMaster(p: ProcId)
    | ClaimMaster(p: ProcId)
    | MarkDeleted(fs: FsId)
    | BeginSweep(p: ProcId, fs: FsId)
    | RemoveMaster(p: ProcId)
    | ReadEntry(p: ProcId)
    | CompareAndDelete(p: ProcId)
    | Unregister(fs: FsId)

  predicate Creating(step: Step) {
    step.ReadName? || step.RegisterName? || step.CheckMaster? || step.ClaimMaster?
  }

  predicate At(s: State, p: ProcId, pc: Pc) {
    p in s.procs && s.procs[p] == pc
  }

  predicate Enabled(s: State, step: Step) {
    match step
    case ReadName(p, _, id) => p !in s.procs && id !in s.drawn
    case RegisterName(p, _) => p in s.procs && s.procs[p].Absent?
    case CheckMaster(p) => p in s.procs && s.procs[p].Found?
    case ClaimMaster(p) => p in s.procs && s.procs[p].Claiming?
    case MarkDeleted(fs) => fs in s.registered
    case BeginSweep(p, fs) => p !in s.procs && fs in s.deleted && fs in s.registered
    case RemoveMaster(p) => p in s.procs && s.procs[p].Sweeping?
    case ReadEntry(p) => p in s.procs && s.procs[p].Sweeping?
    case CompareAndDelete(p) => p in s.procs && s.procs[p].Deleting?
    case Unregister(fs) => fs in s.deleted && fs in s.registered
  }

  function Move(s: State, p: ProcId, pc: Pc): State {
    s.(procs := s.procs[p := pc])
  }

  function Perform(s: State, step: Step): State
    requires Enabled(s, step)
  {
    match step
    case ReadName(p, name, id) =>
      if name in s.registry then Move(s, p, Found(name, s.registry[name].id))
      else Move(s, p, Absent(name, id)).(drawn := s.drawn + {id})
    case RegisterName(p, owner) =>
      var pc := s.procs[p];
      if pc.name in s.registry then Move(s, p, Failed)
      else Move(s, p, Claiming(pc.name, pc.id)).(registry := s.registry[pc.name := Entry(pc.id, owner)],
                                                 registered := s.registered[pc.id := pc.name])
    case CheckMaster(p) =>
      var pc := s.procs[p];
      Move(s, p, if pc.id in s.masters then Failed else Claiming(pc.name, pc.id))
    case ClaimMaster(p) =>
      var pc := s.procs[p];
      if pc.id in s.masters then Move(s, p, Failed)
      else Move(s, p, Created(pc.name, pc.id)).(masters := s.masters[pc.id := p], claims := s.claims + [Claim(pc.id, p)])
    case MarkDeleted(fs) => s.(deleted := s.deleted + {fs})
    case BeginSweep(p, fs) => Move(s, p, Sweeping(fs, s.registered[fs]))
    case RemoveMaster(p) => s.(masters := s.masters - {s.procs[p].fs})
    case ReadEntry(p) =>
      var pc := s.procs[p];
      if pc.name in s.registry && s.registry[pc.name].id == pc.fs then Move(s, p, Deleting(pc.fs, pc.name, s.registry[pc.name]))
      else Move(s, p, Swept(pc.fs, pc.name))
    case CompareAndDelete(p) =>
      var pc := s.procs[p];
      var s' := Move(s, p, Swept(pc.fs, pc.name));
      if pc.name in s.registry && s.registry[pc.name] == pc.entry then s'.(registry := s.registry - {pc.name}) else s'
    case Unregister(fs) => s.(registry := s.registry - {s.registered[fs]})
  }

  predicate Run(s: State, steps: seq<Step>, s': State)
    decreases steps
  {
    if steps == [] then s == s' else Enabled(s, steps[0]) && Run(Perform(s, steps[0]), steps[1..], s')
  }

  predicate Init(s: State) {
    s == State(map[], map[], {}, map[], {}, map[], [])
  }

  // ---------------------------------------------------------------------------
  // What every step keeps
  // ---------------------------------------------------------------------------

  /** An id was registered once, under one name. */
  predicate Named(s: State, id: FsId, name: VolumeName) {
    id in s.registered && s.registered[id] == name
  }

  ghost predicate PcOk(s: State, p: ProcId)
    requires p in s.procs
  {
    match s.procs[p]
    case Absent(_, id) => id in s.drawn && id !in s.registered
    case Found(name, id) => Named(s, id, name)
    case Claiming(name, id) => Named(s, id, name)
    case Created(name, id) => Named(s, id, name)
    case Failed => true
    case Sweeping(fs, name) => fs in s.deleted && Named(s, fs, name)
    case Deleting(fs, name, entry) =>
      fs in s.deleted && Named(s, fs, name) && entry.id == fs && (name in s.registry && s.registry[name].id == fs ==> s.registry[name] == entry)
    case Swept(fs, name) => Named(s, fs, name) && (name in s.registry ==> s.registry[name].id != fs)
  }

  ghost predicate Inv(s: State) {
    && (forall name <- s.registry :: Named(s, s.registry[name].id, name))
    && (forall id <- s.registered :: id in s.drawn)
    && (forall id <- s.masters :: id in s.registered)
    && (forall p <- s.procs :: PcOk(s, p))
    && (forall p <- s.procs, q <- s.procs :: s.procs[p].Absent? && s.procs[q].Absent? && s.procs[p].id == s.procs[q].id ==> p == q)
  }

  /** Ids, names and deletions are only added, and new entries are for new ids. */
  ghost predicate Frame(s: State, s': State) {
    && s.deleted <= s'.deleted && s.drawn <= s'.drawn
    && (forall id <- s.registered :: Named(s', id, s.registered[id]))
    && (forall name <- s'.registry ::
          (name in s.registry && s'.registry[name] == s.registry[name]) || s'.registry[name].id !in s.registered)
  }

  lemma PcStays(s: State, s': State, p: ProcId)
    requires Frame(s, s') && p in s.procs && p in s'.procs && s'.procs[p] == s.procs[p] && PcOk(s, p)
    requires s.procs[p].Absent? ==> s.procs[p].id !in s'.registered
    ensures PcOk(s', p)
  {
  }

  lemma RegisterKeeps(s: State, step: Step)
    requires Inv(s) && Enabled(s, step) && step.RegisterName?
    ensures Inv(Perform(s, step))
  {
    var s' := Perform(s, step);
    assert PcOk(s, step.p);
    forall p | p in s'.procs ensures PcOk(s', p) {
      if p != step.p { PcStays(s, s', p); }
    }
  }

  lemma SweepReadKeeps(s: State, step: Step)
    requires Inv(s) && Enabled(s, step) && (step.BeginSweep? || step.ReadEntry?)
    ensures Inv(Perform(s, step))
  {
    var s' := Perform(s, step);
    assert step.ReadEntry? ==> PcOk(s, step.p);
    assert PcOk(s', step.p);
    OthersKeep(s, s', step.p);
  }

  lemma SweepDeleteKeeps(s: State, p: ProcId)
    requires Inv(s) && Enabled(s, CompareAndDelete(p))
    ensures Inv(Perform(s, CompareAndDelete(p)))
  {
    var pc := s.procs[p];
    assert PcOk(s, p);
    if pc.name in s.registry && s.registry[pc.name] == pc.entry {
      var t := s.(registry := s.registry - {pc.name});
      FrameKeeps(s, t);
      SweptKeeps(t, p, pc.fs, pc.name);
    } else {
      SweptKeeps(s, p, pc.fs, pc.name);
    }
  }

  lemma SweptKeeps(s: State, p: ProcId, fs: FsId, name: VolumeName)
    requires Inv(s) && Named(s, fs, name) && (name in s.registry ==> s.registry[name].id != fs)
    ensures Inv(Move(s, p, Swept(fs, name)))
  {
    var s' := Move(s, p, Swept(fs, name));
    assert PcOk(s', p);
    OthersKeep(s, s', p);
  }

  lemma StepKeeps(s: State, step: Step)
    requires Inv(s) && Enabled(s, step)
    ensures Inv(Perform(s, step))
  {
    var s' := Perform(s, step);
    match step
    case RegisterName(_, _) => RegisterKeeps(s, step);
    case BeginSweep(_, _) => SweepReadKeeps(s, step);
    case ReadEntry(_) => SweepReadKeeps(s, step);
    case CompareAndDelete(p) => SweepDeleteKeeps(s, p);
    case MarkDeleted(_) => FrameKeeps(s, s');
    case Unregister(_) => FrameKeeps(s, s');
    case RemoveMaster(_) => FrameKeeps(s, s');
    case ReadName(_, _, _) => ReaderKeeps(s, step);
    case CheckMaster(_) => ReaderKeeps(s, step);
    case ClaimMaster(_) => ClaimKeeps(s, step);
  }

  lemma ReaderKeeps(s: State, step: Step)
    requires Inv(s) && Enabled(s, step) && (step.ReadName? || step.CheckMaster?)
    ensures Inv(Perform(s, step))
  {
    var s' := Perform(s, step);
    assert step.CheckMaster? ==> PcOk(s, step.p);
    assert PcOk(s', step.p);
    OthersKeep(s, s', step.p);
  }

  lemma ClaimKeeps(s: State, step: Step)
    requires Inv(s) && Enabled(s, step) && step.ClaimMaster?
    ensures Inv(Perform(s, step))
  {
    var s' := Perform(s, step);
    assert PcOk(s, step.p);
    assert PcOk(s', step.p);
    OthersKeep(s, s', step.p);
  }

  lemma FrameKeeps(s: State, s': State)
    requires Inv(s) && Frame(s, s') && s'.procs == s.procs && s'.registered == s.registered && s'.drawn == s.drawn
    requires s'.masters.Keys <= s.masters.Keys && s'.registry.Keys <= s.registry.Keys && forall n <- s'.registry :: s'.registry[n] == s.registry[n]
    ensures Inv(s')
  {
    forall p | p in s'.procs ensures PcOk(s', p) { PcStays(s, s', p); }
  }

  lemma OthersKeep(s: State, s': State, me: ProcId)
    requires Inv(s) && s'.registry == s.registry && s'.registered == s.registered && s'.deleted == s.deleted
    requires s.drawn <= s'.drawn && s'.masters.Keys <= s.registered.Keys
    requires me in s'.procs && s'.procs == s.procs[me := s'.procs[me]] && PcOk(s', me)
    requires s'.procs[me].Absent? ==> s'.procs[me].id !in s.drawn
    ensures Inv(s')
  {
    forall p | p in s'.procs ensures PcOk(s', p) {
      if p != me { PcStays(s, s', p); }
    }
  }

  lemma {:induction false} RunKeeps(s: State, steps: seq<Step>, s': State)
    requires Inv(s) && Run(s, steps, s')
    ensures Inv(s')
    decreases steps
  {
    if steps == [] {
    } else {
      StepKeeps(s, steps[0]);
      RunKeeps(Perform(s, steps[0]), steps[1..], s');
    }
  }

  // ---------------------------------------------------------------------------
  // Creation
  // ---------------------------------------------------------------------------

  /** While nothing is deleted: the name an id was registered under still means that id, and
      the master keys are the claims. */
  ghost predicate ClaimsOk(s: State) {
    && (forall id <- s.registered :: s.registered[id] in s.registry && s.registry[s.registered[id]].id == id)
    && (forall i, j :: 0 <= i < j < |s.claims| ==> s.claims[i].fs != s.claims[j].fs)
    && (forall fs, p :: Claim(fs, p) in s.claims <==> fs in s.masters && s.masters[fs] == p)
    && (forall p <- s.procs :: s.procs[p].Created? ==> Claim(s.procs[p].id, p) in s.claims)
  }

  lemma CreationKeepsClaims(s: State, step: Step)
    requires Inv(s) && ClaimsOk(s) && Enabled(s, step) && Creating(step)
    ensures ClaimsOk(Perform(s, step))
    ensures forall name <- s.registry :: name in Perform(s, step).registry && Perform(s, step).registry[name] == s.registry[name]
  {
    match step
    case ClaimMaster(p) => ClaimKeepsClaims(s, p);
    case RegisterName(p, owner) => RegisterKeepsClaims(s, p, owner);
    case _ =>
  }

  lemma ClaimKeepsClaims(s: State, p: ProcId)
    requires Inv(s) && ClaimsOk(s) && Enabled(s, ClaimMaster(p))
    ensures ClaimsOk(Perform(s, ClaimMaster(p)))
  {
    var pc := s.procs[p];
    if pc.id !in s.masters {
      forall i | 0 <= i < |s.claims| ensures s.claims[i].fs != pc.id {
        assert Claim(s.claims[i].fs, s.claims[i].claimant) in s.claims;
      }
    }
  }

  lemma RegisterKeepsClaims(s: State, p: ProcId, owner: string)
    requires Inv(s) && ClaimsOk(s) && Enabled(s, RegisterName(p, owner))
    ensures ClaimsOk(Perform(s, RegisterName(p, owner)))
  {
    var s' := Perform(s, RegisterName(p, owner));
    assert PcOk(s, p);
    forall id | id in s'.registered ensures s'.registered[id] in s'.registry && s'.registry[s'.registered[id]].id == id {
      assert id in s.registered ==> s.registered[id] in s.registry;
    }
  }

  /** Any number of nodes creating volumes of any names, each stopping anywhere: a name never
      changes its id once it has one, only one id is ever registered under it, and at most
      one process creates the volume, the one that holds the master key. */
  lemma {:induction false} CreationRun(s: State, steps: seq<Step>, s': State)
    requires Inv(s) && ClaimsOk(s) && Run(s, steps, s') && forall step <- steps :: Creating(step)
    ensures Inv(s') && ClaimsOk(s')
    ensures forall name <- s.registry :: name in s'.registry && s'.registry[name] == s.registry[name]
    decreases steps
  {
    if steps == [] {
    } else {
      StepKeeps(s, steps[0]);
      CreationKeepsClaims(s, steps[0]);
      CreationRun(Perform(s, steps[0]), steps[1..], s');
    }
  }

  lemma OneVolumePerName(s0: State, steps: seq<Step>, s: State)
    requires Init(s0) && Run(s0, steps, s) && forall step <- steps :: Creating(step)
    ensures forall a <- s.registered, b <- s.registered :: s.registered[a] == s.registered[b] ==> a == b
    ensures forall p <- s.procs, q <- s.procs ::
              s.procs[p].Created? && s.procs[q].Created? && s.procs[p].name == s.procs[q].name ==> p == q
    ensures forall p <- s.procs :: s.procs[p].Created? ==>
              var Created(name, id) := s.procs[p];
              name in s.registry && s.registry[name].id == id && id in s.masters && s.masters[id] == p
  {
    CreationRun(s0, steps, s);
    forall p | p in s.procs && s.procs[p].Created?
      ensures s.procs[p].name in s.registry && s.registry[s.procs[p].name].id == s.procs[p].id
      ensures s.procs[p].id in s.masters && s.masters[s.procs[p].id] == p
    {
      assert PcOk(s, p);
    }
  }

  // ---------------------------------------------------------------------------
  // The life of one process
  // ---------------------------------------------------------------------------

  /** Where a process may be later: it keeps to its name and its id, and goes on or gives up. */
  predicate Later(a: Pc, b: Pc) {
    match a
    case Absent(name, id) => b == a || b == Claiming(name, id) || b == Created(name, id) || b == Failed
    case Found(name, id) => b == a || b == Claiming(name, id) || b == Created(name, id) || b == Failed
    case Claiming(name, id) => b == a || b == Created(name, id) || b == Failed
    case Created(_, _) => b == a
    case Failed => b == a
    case Sweeping(fs, name) => b == a || (b.Deleting? && b.fs == fs && b.name == name) || b == Swept(fs, name)
    case Deleting(fs, name, _) => b == a || b == Swept(fs, name)
    case Swept(_, _) => b == a
  }

  lemma {:induction false} ProcessGoesOn(s: State, steps: seq<Step>, s': State, p: ProcId)
    requires Run(s, steps, s') && p in s.procs
    ensures p in s'.procs && Later(s.procs[p], s'.procs[p])
    decreases steps
  {
    if steps == [] {
    } else {
      var next := Perform(s, steps[0]);
      ProcessStep(s, steps[0], p);
      ProcessGoesOn(next, steps[1..], s', p);
      LaterStill(s.procs[p], next.procs[p], s'.procs[p]);
    }
  }

  lemma ProcessStep(s: State, step: Step, p: ProcId)
    requires Enabled(s, step) && p in s.procs
    ensures p in Perform(s, step).procs && Later(s.procs[p], Perform(s, step).procs[p])
  {
  }

  lemma LaterStill(a: Pc, b: Pc, c: Pc)
    requires Later(a, b) && Later(b, c)
    ensures Later(a, c)
  {
  }

  /** The registration of a process that read the name as absent: it fails, and changes nothing in
      etcd, if and only if the name is taken at that moment; else the name is its own. */
  lemma RegistrationOutcome(s: State, p: ProcId, name: VolumeName, id: FsId, owner: string)
    requires At(s, p, Absent(name, id))
    ensures Enabled(s, RegisterName(p, owner))
    ensures var s' := Perform(s, RegisterName(p, owner));
            && (s'.procs[p] == Failed <==> name in s.registry)
            && (s'.procs[p] == Claiming(name, id) <==> name !in s.registry)
            && (name in s.registry ==> s'.registry == s.registry && s'.registered == s.registered)
            && (name !in s.registry ==> s'.registry == s.registry[name := Entry(id, owner)])
            && s'.masters == s.masters
  {
  }

  /** A process that starts on a name goes by the entry that is there, or draws an id. */
  lemma ReadOutcome(s: State, p: ProcId, name: VolumeName, id: FsId)
    requires p !in s.procs && id !in s.drawn
    ensures Enabled(s, ReadName(p, name, id))
    ensures var s' := Perform(s, ReadName(p, name, id));
            && p in s'.procs && s'.registry == s.registry && s'.masters == s.masters
            && (forall i :: s'.procs[p] == Found(name, i) <==> name in s.registry && s.registry[name].id == i)
            && (s'.procs[p] == Absent(name, id) <==> name !in s.registry)
  {
  }

  /** A process that found an entry gives up if and only if the volume has a master already. */
  lemma CheckOutcome(s: State, p: ProcId, name: VolumeName, id: FsId)
    requires At(s, p, Found(name, id))
    ensures Enabled(s, CheckMaster(p))
    ensures var s' := Perform(s, CheckMaster(p));
            && (s'.procs[p] == Failed <==> id in s.masters)
            && (s'.procs[p] == Claiming(name, id) <==> id !in s.masters)
            && s'.registry == s.registry && s'.masters == s.masters
  {
  }

  /** A cleaner goes on to delete an entry if and only if it has the deleted id, and then deletes
      it if and only if it is still as it was read. */
  lemma SweepOutcome(s: State, p: ProcId, fs: FsId, name: VolumeName, entry: Entry)
    ensures At(s, p, Sweeping(fs, name)) ==>
              && Enabled(s, ReadEntry(p))
              && (At(Perform(s, ReadEntry(p)), p, Deleting(fs, name, entry)) <==> name in s.registry && s.registry[name] == entry && entry.id == fs)
              && (At(Perform(s, ReadEntry(p)), p, Swept(fs, name)) <==> !(name in s.registry && s.registry[name].id == fs))
              && Perform(s, ReadEntry(p)).registry == s.registry
    ensures At(s, p, Deleting(fs, name, entry)) ==>
              && Enabled(s, CompareAndDelete(p)) && At(Perform(s, CompareAndDelete(p)), p, Swept(fs, name))
              && Perform(s, CompareAndDelete(p)).registry ==
                 if name in s.registry && s.registry[name] == entry then s.registry - {name} else s.registry
  {
  }

  /** The claim of a master key: it fails, and leaves the key alone, if and only if it is taken. */
  lemma ClaimOutcome(s: State, p: ProcId, name: VolumeName, id: FsId)
    requires At(s, p, Claiming(name, id))
    ensures Enabled(s, ClaimMaster(p))
    ensures var s' := Perform(s, ClaimMaster(p));
            && (s'.procs[p] == Failed <==> id in s.masters)
            && (s'.procs[p] == Created(name, id) <==> id !in s.masters)
            && s'.masters == (if id in s.masters then s.masters else s.masters[id := p])
            && s'.registry == s.registry
  {
  }

  /** Of several processes that all read a name as absent, at most one gets past its registration,
      and so at most one creates the volume, under its own id. */
  lemma OneWinner(s0: State, before: seq<Step>, s: State, steps: seq<Step>, s': State,
                  p: ProcId, q: ProcId, name: VolumeName, i: FsId, j: FsId)
    requires Init(s0) && Run(s0, before, s) && Run(s, steps, s')
    requires (forall step <- before :: Creating(step)) && forall step <- steps :: Creating(step)
    requires p != q && At(s, p, Absent(name, i)) && At(s, q, Absent(name, j))
    ensures p in s'.procs && q in s'.procs
    ensures s'.procs[p] in {Absent(name, i), Failed} || s'.procs[q] in {Absent(name, j), Failed}
    ensures s'.procs[p] == Created(name, i) ==> name in s'.registry && s'.registry[name].id == i && s'.procs[q] in {Absent(name, j), Failed}
  {
    CreationRun(s0, before, s);
    CreationRun(s, steps, s');
    ProcessGoesOn(s, steps, s', p);
    ProcessGoesOn(s, steps, s', q);
    assert i != j;
    assert PcOk(s', p) && PcOk(s', q);
  }

  /** Whatever state earlier attempts left behind, a new attempt on its own ends with the
      volume created under the registered id if that was not claimed yet, or under a new id
      if the name was free; else it fails and leaves etcd alone. */
  lemma RetryCompletes(s: State, p: ProcId, name: VolumeName, id: FsId, owner: string) returns (steps: seq<Step>, s': State)
    requires Inv(s) && p !in s.procs && id !in s.drawn
    ensures Run(s, steps, s') && (forall step <- steps :: Creating(step)) && p in s'.procs
    ensures name in s.registry ==> s'.registry == s.registry
    ensures name in s.registry && s.registry[name].id !in s.masters ==> s'.procs[p] == Created(name, s.registry[name].id)
    ensures name in s.registry && s.registry[name].id in s.masters ==> s'.procs[p] == Failed && s'.masters == s.masters
    ensures name !in s.registry ==>
              && s' == State(s.registry[name := Entry(id, owner)], s.masters[id := p], s.deleted, s.procs[p := Created(name, id)],
                             s.drawn + {id}, s.registered[id := name], s.claims + [Claim(id, p)])
  {
    var read := ReadName(p, name, id);
    var s1 := Perform(s, read);
    var next := if name in s.registry then CheckMaster(p) else RegisterName(p, owner);
    var s2 := Perform(s1, next);
    RunTwo(s, read, next);
    steps, s' := [read, next], s2;
    if s2.procs[p].Claiming? {
      s' := Perform(s2, ClaimMaster(p));
      RunOne(s2, ClaimMaster(p));
      RunAppend(s, steps, s2, [ClaimMaster(p)], s');
      steps := steps + [ClaimMaster(p)];
    }
  }

  // ---------------------------------------------------------------------------
  // Cleaning up
  // ---------------------------------------------------------------------------

  /** Any number of nodes cleaning up, while names are created anew: what is not deleted
      keeps its entry. */
  lemma {:induction false} SweepersSpareTheLiving(s: State, steps: seq<Step>, s': State, name: VolumeName)
    requires Inv(s) && Run(s, steps, s') && forall step <- steps :: !step.Unregister?
    requires name in s.registry && s.registry[name].id !in s'.deleted
    ensures name in s'.registry && s'.registry[name] == s.registry[name]
    decreases steps
  {
    if steps == [] {
    } else {
      var next := Perform(s, steps[0]);
      DeletionsAccumulate(next, steps[1..], s');
      StepKeeps(s, steps[0]);
      if steps[0].CompareAndDelete? { assert PcOk(s, steps[0].p); }
      SweepersSpareTheLiving(next, steps[1..], s', name);
    }
  }

  lemma {:induction false} DeletionsAccumulate(s: State, steps: seq<Step>, s': State)
    requires Run(s, steps, s')
    ensures s.deleted <= s'.deleted
    decreases steps
  {
    if steps == [] {
    } else {
      DeletionsAccumulate(Perform(s, steps[0]), steps[1..], s');
    }
  }

  /** Once a node has finished cleaning up after a volume, the volume's entry is gone, and
      will not come back: an entry that is there belongs to another volume. */
  lemma SweepIsFinal(s0: State, steps: seq<Step>, s: State, later: seq<Step>, s': State, p: ProcId)
    requires Init(s0) && Run(s0, steps, s) && Run(s, later, s')
    requires p in s.procs && s.procs[p].Swept?
    ensures var Swept(fs, name) := s.procs[p];
            name in s'.registry ==> s'.registry[name].id != fs
  {
    RunKeeps(s0, steps, s);
    SweptStays(s, later, s', p);
    RunKeeps(s, later, s');
    assert PcOk(s', p);
  }

  lemma {:induction false} SweptStays(s: State, steps: seq<Step>, s': State, p: ProcId)
    requires Run(s, steps, s') && p in s.procs && s.procs[p].Swept?
    ensures At(s', p, s.procs[p])
    decreases steps
  {
    if steps == [] {
    } else {
      SweptStays(Perform(s, steps[0]), steps[1..], s', p);
    }
  }

  /** The entries of living volumes stay as they are. */
  ghost predicate LivingKept(s: State, s': State) {
    forall n <- s.registry :: s.registry[n].id !in s.deleted ==> n in s'.registry && s'.registry[n] == s.registry[n]
  }

  /** In every step of a run the entries of living volumes stay as they are. */
  ghost predicate AlwaysKept(s: State, steps: seq<Step>, s': State)
    requires Run(s, steps, s')
    decreases steps
  {
    steps == [] || (LivingKept(s, Perform(s, steps[0])) && AlwaysKept(Perform(s, steps[0]), steps[1..], s'))
  }

  /** Every deletion at the end of Delete finds its name free, or still standing for a volume
      that is deleted. */
  ghost predicate AlwaysDue(s: State, steps: seq<Step>, s': State)
    requires Run(s, steps, s')
    decreases steps
  {
    steps == [] || ((steps[0].Unregister? ==> Due(s, s.registered[steps[0].fs])) && AlwaysDue(Perform(s, steps[0]), steps[1..], s'))
  }

  ghost predicate Due(s: State, name: VolumeName) {
    name in s.registry ==> s.registry[name].id in s.deleted
  }

  /** However creation, cleaning and the deletions at the end of Delete interleave: living
      volumes keep their entries throughout if and only if each such deletion is due at the
      moment it happens.  No other step ever harms them. */
  lemma {:induction false} UnregisterExact(s: State, steps: seq<Step>, s': State)
    requires Inv(s) && Run(s, steps, s')
    ensures AlwaysKept(s, steps, s') <==> AlwaysDue(s, steps, s')
    decreases steps
  {
    if steps == [] {
    } else {
      StepKeeps(s, steps[0]);
      if steps[0].CompareAndDelete? { assert PcOk(s, steps[0].p); }
      UnregisterExact(Perform(s, steps[0]), steps[1..], s');
    }
  }

  predicate HasEntry(s: State, id: FsId) {
    id in s.registered && s.registered[id] in s.registry && s.registry[s.registered[id]].id == id
  }

  /** The step removes the entry of this volume: a cleaner's deletion that finds it unchanged, or
      the deletion at the end of Delete when it stands under the name. */
  predicate TakesEntry(s: State, step: Step, id: FsId)
    requires Enabled(s, step)
  {
    match step
    case CompareAndDelete(p) =>
      s.procs[p].fs == id && s.procs[p].name in s.registry && s.registry[s.procs[p].name] == s.procs[p].entry
    case Unregister(fs) =>
      s.registered[fs] in s.registry && s.registry[s.registered[fs]].id == id
    case _ => false
  }

  ghost predicate NeverTaken(s: State, steps: seq<Step>, s': State, id: FsId)
    requires Run(s, steps, s')
    decreases steps
  {
    steps == [] || (!TakesEntry(s, steps[0], id) && NeverTaken(Perform(s, steps[0]), steps[1..], s', id))
  }

  lemma StepOnEntry(s: State, step: Step, id: FsId)
    requires Inv(s) && Enabled(s, step)
    ensures id in s.registered ==>
              id in Perform(s, step).registered &&
              (HasEntry(Perform(s, step), id) <==> HasEntry(s, id) && !TakesEntry(s, step, id))
    ensures id !in s.registered && id in Perform(s, step).registered ==> HasEntry(Perform(s, step), id)
    ensures id !in s.registered ==> !TakesEntry(s, step, id)
  {
    if step.CompareAndDelete? || step.RegisterName? { assert PcOk(s, step.p); }
  }

  /** Over any run, deletions and all: a volume that was registered has its entry at the end if
      and only if no step took it. */
  lemma {:induction false} EntryUnlessTaken(s: State, steps: seq<Step>, s': State, id: FsId)
    requires Inv(s) && Run(s, steps, s') && id in s'.registered && (id in s.registered ==> HasEntry(s, id))
    ensures HasEntry(s', id) <==> NeverTaken(s, steps, s', id)
    decreases steps
  {
    if steps == [] {
    } else {
      StepKeeps(s, steps[0]);
      StepOnEntry(s, steps[0], id);
      if TakesEntry(s, steps[0], id) {
        EntryGone(Perform(s, steps[0]), steps[1..], s', id);
      } else {
        EntryUnlessTaken(Perform(s, steps[0]), steps[1..], s', id);
      }
    }
  }

  lemma {:induction false} EntryGone(s: State, steps: seq<Step>, s': State, id: FsId)
    requires Inv(s) && Run(s, steps, s') && id in s.registered && !HasEntry(s, id)
    ensures !HasEntry(s', id)
    decreases steps
  {
    if steps == [] {
    } else {
      StepKeeps(s, steps[0]);
      StepOnEntry(s, steps[0], id);
      EntryGone(Perform(s, steps[0]), steps[1..], s', id);
    }
  }

  /** A process that has created a volume finds it under its name exactly when nothing took the
      entry since it was registered: creation does not look at it again. */
  lemma CreatedHasEntry(s0: State, steps: seq<Step>, s: State, p: ProcId)
    requires Init(s0) && Run(s0, steps, s) && p in s.procs && s.procs[p].Created?
    ensures var Created(name, id) := s.procs[p];
            (name in s.registry && s.registry[name].id == id) <==> NeverTaken(s0, steps, s, id)
  {
    RunKeeps(s0, steps, s);
    assert PcOk(s, p);
    EntryUnlessTaken(s0, steps, s, s.procs[p].id);
  }

  /** A process registers a name and is slow; the volume is deleted and swept up; then the process
      claims the master key and has created a volume that no name stands for. */
  lemma SlowCreator(name: VolumeName) returns (s0: State, steps: seq<Step>, s: State)
    ensures Init(s0) && Run(s0, steps, s)
    ensures At(s, 0, Created(name, "old")) && "old" in s.masters && name !in s.registry
  {
    s0 := State(map[], map[], {}, map[], {}, map[], []);
    RunTwo(s0, ReadName(0, name, "old"), RegisterName(0, "o"));
    steps := [ReadName(0, name, "old"), RegisterName(0, "o")];
    var s1 := State(map[name := Entry("old", "o")], map[], {}, map[0 := Claiming(name, "old")], {"old"}, map["old" := name], []);
    assert Perform(Perform(s0, ReadName(0, name, "old")), RegisterName(0, "o")) == s1;
    var more;
    more, s := SweptBeforeClaim(name, s1);
    RunAppend(s0, steps, s1, more, s);
    steps := steps + more;
  }

  lemma SweptBeforeClaim(name: VolumeName, s1: State) returns (steps: seq<Step>, s: State)
    requires s1 == State(map[name := Entry("old", "o")], map[], {}, map[0 := Claiming(name, "old")], {"old"}, map["old" := name], [])
    ensures Run(s1, steps, s)
    ensures At(s, 0, Created(name, "old")) && "old" in s.masters && name !in s.registry
  {
    assert PcOk(s1, 0);
    var s2 := Perform(s1, MarkDeleted("old"));
    RunOne(s1, MarkDeleted("old"));
    StepKeeps(s1, MarkDeleted("old"));
    var swept, s3 := SweepCompletes(s2, 1, "old");
    RunAppend(s1, [MarkDeleted("old")], s2, swept, s3);
    s := Perform(s3, ClaimMaster(0));
    RunOne(s3, ClaimMaster(0));
    RunAppend(s1, [MarkDeleted("old")] + swept, s3, [ClaimMaster(0)], s);
    steps := [MarkDeleted("old")] + swept + [ClaimMaster(0)];
  }

  /** A node that cleans up after a volume without being disturbed removes the volume's entry
      if it is still there, and no other. */
  lemma SweepCompletes(s: State, p: ProcId, fs: FsId) returns (steps: seq<Step>, s': State)
    requires Inv(s) && p !in s.procs && fs in s.deleted && fs in s.registered
    ensures Run(s, steps, s') && s'.masters == s.masters - {fs}
    ensures s'.registry == map n | n in s.registry && s.registry[n].id != fs :: s.registry[n]
    ensures s' == s.(registry := s'.registry, masters := s'.masters, procs := s.procs[p := Swept(fs, s.registered[fs])])
  {
    var s1 := Perform(s, BeginSweep(p, fs));
    var s2 := Perform(s1, RemoveMaster(p));
    RunTwo(s, BeginSweep(p, fs), RemoveMaster(p));
    var finish;
    finish, s' := SweepFinishes(s2, p, fs);
    steps := [BeginSweep(p, fs), RemoveMaster(p)] + finish;
    RunAppend(s, [BeginSweep(p, fs), RemoveMaster(p)], s2, finish, s');
    assert s.procs[p := Sweeping(fs, s.registered[fs])][p := Swept(fs, s.registered[fs])] == s.procs[p := Swept(fs, s.registered[fs])];
  }

  lemma SweepFinishes(s: State, p: ProcId, fs: FsId) returns (steps: seq<Step>, s': State)
    requires fs in s.registered && At(s, p, Sweeping(fs, s.registered[fs]))
    requires forall name <- s.registry :: Named(s, s.registry[name].id, name)
    ensures Run(s, steps, s')
    ensures s' == s.(registry := map n | n in s.registry && s.registry[n].id != fs :: s.registry[n],
                     procs := s.procs[p := Swept(fs, s.registered[fs])])
  {
    var s1 := Perform(s, ReadEntry(p));
    if s1.procs[p].Deleting? {
      s' := Perform(s1, CompareAndDelete(p));
      RunTwo(s, ReadEntry(p), CompareAndDelete(p));
      steps := [ReadEntry(p), CompareAndDelete(p)];
      assert s1.procs[p := Swept(fs, s.registered[fs])] == s.procs[p := Swept(fs, s.registered[fs])];
    } else {
      s' := s1;
      RunOne(s, ReadEntry(p));
      steps := [ReadEntry(p)];
    }
    assert s'.registry == map n | n in s.registry && s.registry[n].id != fs :: s.registry[n];
  }

  lemma RunTwo(s: State, a: Step, b: Step)
    requires Enabled(s, a) && Enabled(Perform(s, a), b)
    ensures Run(s, [a, b], Perform(Perform(s, a), b))
  {
    RunOne(Perform(s, a), b);
    assert [a, b][1..] == [b];
  }

  lemma RunOne(s: State, step: Step)
    requires Enabled(s, step)
    ensures Run(s, [step], Perform(s, step))
  {
    assert [step][1..] == [];
  }

  /** A node sweeps up after a deleted volume, the name is taken anew, and then the deletion
      that is still under way removes the new entry. */
  lemma UnregisterHitsTheNext(name: VolumeName) returns (s0: State, steps: seq<Step>, s: State)
    ensures Init(s0) && Run(s0, steps, s)
    ensures "new" in s.masters && "new" !in s.deleted && Named(s, "new", name) && name !in s.registry
  {
    s0 := State(map[], map[], {}, map[], {}, map[], []);
    var s2, s3, more;
    steps, s2 := CreatedThenDeleted(s0, name);
    RunKeeps(s0, steps, s2);
    more, s3 := SweepCompletes(s2, 1, "old");
    RunKeeps(s2, more, s3);
    RunAppend(s0, steps, s2, more, s3);
    steps := steps + more;
    more, s := CreatedThenUnregistered(s3, name);
    RunAppend(s0, steps, s3, more, s);
    steps := steps + more;
  }

  lemma CreatedThenDeleted(s0: State, name: VolumeName) returns (steps: seq<Step>, s: State)
    requires Init(s0)
    ensures Run(s0, steps, s) && s.deleted == {"old"} && s.drawn == {"old"} && s.procs.Keys == {0}
    ensures s.registered == map["old" := name] && s.registry.Keys == {name} && s.registry[name].id == "old"
  {
    var created, s1 := RetryCompletes(s0, 0, name, "old", "o");
    s := Perform(s1, MarkDeleted("old"));
    RunOne(s1, MarkDeleted("old"));
    RunAppend(s0, created, s1, [MarkDeleted("old")], s);
    steps := created + [MarkDeleted("old")];
  }

  lemma CreatedThenUnregistered(s: State, name: VolumeName) returns (steps: seq<Step>, s': State)
    requires Inv(s) && name !in s.registry && 2 !in s.procs && "new" !in s.drawn
    requires "old" in s.deleted && Named(s, "old", name) && "new" !in s.deleted
    ensures Run(s, steps, s')
    ensures "new" in s'.masters && "new" !in s'.deleted && Named(s', "new", name) && name !in s'.registry
  {
    var again, s4 := RetryCompletes(s, 2, name, "new", "o");
    s' := Perform(s4, Unregister("old"));
    RunOne(s4, Unregister("old"));
    RunAppend(s, again, s4, [Unregister("old")], s');
    steps := again + [Unregister("old")];
  }

  lemma {:induction false} RunAppend(s: State, steps: seq<Step>, s': State, more: seq<Step>, s'': State)
    requires Run(s, steps, s') && Run(s', more, s'')
    ensures Run(s, steps + more, s'')
    decreases steps
  {
    if steps == [] {
      assert steps + more == more;
    } else {
      RunAppend(Perform(s, steps[0]), steps[1..], s', more, s'');
      assert (steps + more)[1..] == steps[1..] + more;
    }
  }
}
