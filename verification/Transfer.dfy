/** Transfers between clusters: the filesystems on a path of branches are sent one after the
    other, each up to the snapshot the next one was taken from (retryPush, retryPull and
    applyPath in statemachines.go).
  */
module Transfers {
  import opened Snapshots
  import opened Registries

  /** The snapshots of every filesystem of a cluster. */
  type Store = map<FsId, seq<SnapshotId>>

  function Get(store: Store, fs: FsId): seq<SnapshotId> {
    if fs in store then store[fs] else []
  }

  ghost predicate Holds(store: Store, o: Origin) {
    o.snapshot in Get(store, o.fs)
  }

  ghost predicate Histories(tree: Tree, store: Store) {
    forall fs :: IsHistory(tree, Get(store, fs))
  }

  /** The snapshots of a filesystem up to one of them. */
  function UpTo(store: Store, fs: FsId, target: SnapshotId): seq<SnapshotId>
    requires target in Get(store, fs)
  {
    Get(store, fs)[..IndexOf(Get(store, fs), target) + 1]
  }

  /** The destination has everything up to the target. */
  ghost predicate Arrived(source: Store, dest: Store, fs: FsId, target: SnapshotId) {
    target in Get(source, fs) && UpTo(source, fs, target) <= Get(dest, fs)
  }

  /** What happens around one attempt: how many snapshots of the source are announced, by how
      many the reported list of the destination lags behind, whether anything goes wrong, and
      then how many snapshots are received all the same. */
  datatype Attempt = Attempt(announced: nat, lag: nat, fault: bool, received: nat)

  function Prefix(s: seq<SnapshotId>, n: nat): seq<SnapshotId> {
    if n < |s| then s[..n] else s
  }

  function Lagging(s: seq<SnapshotId>, lag: nat): seq<SnapshotId> {
    if lag < |s| then s[..|s| - lag] else []
  }

  /** Every part of a list may be announced, and every part may be what is reported. */
  lemma AnyAge(s: seq<SnapshotId>, part: seq<SnapshotId>)
    requires part <= s
    ensures Prefix(s, |part|) == part && Lagging(s, |s| - |part|) == part
  {
  }

  datatype Transfer = Transfer(ok: bool, dest: Store, target: SnapshotId)

  /** A stream with no base is a clone of the origin, if there is one, which has to be there. */
  predicate Accepts(dest: Store, from: Option<Origin>, fs: FsId, stream: Stream) {
    && Tip(Get(dest, fs)) == stream.base
    && (stream.base.None? && from.Some? ==> from.value.snapshot in Get(dest, from.value.fs))
  }

  /** Sends a range once. */
  function SendOnce(source: Store, dest: Store, from: Option<Origin>, fs: FsId,
                    base: Option<SnapshotId>, target: SnapshotId, a: Attempt): Transfer
  {
    match Send(Get(source, fs), base, target)
    case None => Transfer(false, dest, target)
    case Some(stream) =>
      if !Accepts(dest, from, fs, stream) then Transfer(false, dest, target)
      else
        var n := if a.fault && a.received < |stream.snaps| then a.received else |stream.snaps|;
        Transfer(!a.fault, dest[fs := Recv(Get(dest, fs), stream, n)], target)
  }

  // ---------------------------------------------------------------------------
  // Pushing
  // ---------------------------------------------------------------------------

  function PushOnce(source: Store, dest: Store, from: Option<Origin>, fs: FsId, target: SnapshotId, a: Attempt): Transfer {
    match Restricted(Get(source, fs), target)
    case Err(_) => Transfer(false, dest, target)
    case Ok(local) =>
      var o := CanApplyOutcome(local, Lagging(Get(dest, fs), a.lag));
      if o == ToSnapsUpToDate then Transfer(!a.fault, dest, target)
      else if o.Apply? then SendOnce(source, dest, from, fs, o.from, target, a)
      else Transfer(false, dest, target)
  }

  /** With no target, the newest announced snapshot becomes the target, and stays it. */
  function Pinned(source: Store, fs: FsId, target: SnapshotId, a: Attempt): Option<SnapshotId> {
    if target != "" then Some(target) else Tip(Prefix(Get(source, fs), a.announced))
  }

  function PushAttempt(source: Store, dest: Store, from: Option<Origin>, fs: FsId, target: SnapshotId, a: Attempt): Transfer {
    match Pinned(source, fs, target, a)
    case None => Transfer(false, dest, target)
    case Some(t) => PushOnce(source, dest, from, fs, t, a)
  }

  function Push(source: Store, dest: Store, from: Option<Origin>, fs: FsId, target: SnapshotId, attempts: seq<Attempt>): Transfer
    decreases attempts
  {
    if attempts == [] then Transfer(false, dest, target)
    else
      var once := PushAttempt(source, dest, from, fs, target, attempts[0]);
      if once.ok then once else Push(source, once.dest, from, fs, once.target, attempts[1..])
  }

  const MaxRetries: nat := 5

  method AttemptPush(source: Store, dest: Store, from: Option<Origin>, fs: FsId, toSnapshotId: SnapshotId, a: Attempt)
    returns (result: Transfer)
    ensures result == PushAttempt(source, dest, from, fs, toSnapshotId, a)
  {
    var target := toSnapshotId;
    if target == "" {
      var snaps := Prefix(Get(source, fs), a.announced);
      if |snaps| == 0 {
        return Transfer(false, dest, target);
      }
      target := snaps[|snaps| - 1];
    }
    var localSnaps := RestrictSnapshots(Get(source, fs), target);
    if localSnaps.Err? {
      return Transfer(false, dest, target);
    }
    var outcome := CanApply(localSnaps.value, Lagging(Get(dest, fs), a.lag));
    match outcome {
      case ToSnapsUpToDate => return Transfer(!a.fault, dest, target);
      case Apply(base, _) => return SendOnce(source, dest, from, fs, base, target, a);
      case _ => return Transfer(false, dest, target);
    }
  }

  /** Every attempt looks at both lists again. */
  method RetryPush(source: Store, dest: Store, from: Option<Origin>, fs: FsId, toSnapshotId: SnapshotId, attempts: seq<Attempt>)
    returns (result: Transfer)
    requires |attempts| == MaxRetries
    ensures result == Push(source, dest, from, fs, toSnapshotId, attempts)
  {
    result := Transfer(false, dest, toSnapshotId);
    var retry := 0;
    while retry < MaxRetries
      invariant 0 <= retry <= MaxRetries && !result.ok
      invariant Push(source, dest, from, fs, toSnapshotId, attempts) ==
                Push(source, result.dest, from, fs, result.target, attempts[retry..])
    {
      assert attempts[retry..][0] == attempts[retry] && attempts[retry..][1..] == attempts[retry + 1..];
      result := AttemptPush(source, result.dest, from, fs, result.target, attempts[retry]);
      if result.ok {
        return;
      }
      retry := retry + 1;
    }
  }

  // ---------------------------------------------------------------------------
  // Pulling
  // ---------------------------------------------------------------------------

  /** The same range is asked for again and again. */
  function PullRange(source: Store, dest: Store, from: Option<Origin>, fs: FsId,
                     base: Option<SnapshotId>, target: SnapshotId, attempts: seq<Attempt>): Transfer
    decreases attempts
  {
    if attempts == [] then Transfer(false, dest, target)
    else
      var once := SendOnce(source, dest, from, fs, base, target, attempts[0]);
      if once.ok then once else PullRange(source, once.dest, from, fs, base, target, attempts[1..])
  }

  function Pull(source: Store, dest: Store, from: Option<Origin>, fs: FsId, target: SnapshotId,
                check: Attempt, attempts: seq<Attempt>): Transfer
  {
    match Pinned(source, fs, target, check)
    case None => Transfer(false, dest, target)
    case Some(t) =>
      match Restricted(Prefix(Get(source, fs), check.announced), t)
      case Err(_) => Transfer(false, dest, t)
      case Ok(remote) =>
        var o := CanApplyOutcome(remote, Lagging(Get(dest, fs), check.lag));
        if o == ToSnapsUpToDate then Transfer(!check.fault, dest, t)
        else if o.Apply? && !check.fault then PullRange(source, dest, from, fs, o.from, t, attempts)
        else Transfer(false, dest, t)
  }

  method RetryPull(source: Store, dest: Store, from: Option<Origin>, fs: FsId, toSnapshotId: SnapshotId,
                   check: Attempt, attempts: seq<Attempt>)
    returns (result: Transfer)
    requires |attempts| == MaxRetries
    ensures result == Pull(source, dest, from, fs, toSnapshotId, check, attempts)
  {
    var remoteSnaps := Prefix(Get(source, fs), check.announced);
    var target := toSnapshotId;
    if target == "" {
      if |remoteSnaps| == 0 {
        return Transfer(false, dest, target);
      }
      target := remoteSnaps[|remoteSnaps| - 1];
    }
    var restricted := RestrictSnapshots(remoteSnaps, target);
    if restricted.Err? {
      return Transfer(false, dest, target);
    }
    var outcome := CanApply(restricted.value, Lagging(Get(dest, fs), check.lag));
    if outcome == ToSnapsUpToDate {
      return Transfer(!check.fault, dest, target);
    }
    if !outcome.Apply? || check.fault {
      return Transfer(false, dest, target);
    }
    result := PullRepeatedly(source, dest, from, fs, outcome.from, target, attempts);
  }

  method PullRepeatedly(source: Store, dest: Store, from: Option<Origin>, fs: FsId,
                        base: Option<SnapshotId>, target: SnapshotId, attempts: seq<Attempt>)
    returns (result: Transfer)
    requires |attempts| == MaxRetries
    ensures result == PullRange(source, dest, from, fs, base, target, attempts)
  {
    result := Transfer(false, dest, target);
    var retry := 0;
    while retry < MaxRetries
      invariant 0 <= retry <= MaxRetries && !result.ok && result.target == target
      invariant PullRange(source, dest, from, fs, base, target, attempts) ==
                PullRange(source, result.dest, from, fs, base, target, attempts[retry..])
    {
      assert attempts[retry..][0] == attempts[retry] && attempts[retry..][1..] == attempts[retry + 1..];
      result := SendOnce(source, result.dest, from, fs, base, target, attempts[retry]);
      if result.ok {
        return;
      }
      retry := retry + 1;
    }
  }

  // ---------------------------------------------------------------------------
  // What a transfer does, however it goes
  // ---------------------------------------------------------------------------

  /** Both clusters hold histories of the same filesystems, and no snapshot is nameless. */
  ghost predicate Setting(tree: Tree, source: Store, dest: Store) {
    Histories(tree, source) && Histories(tree, dest) && "" !in tree
  }

  /** The destination's list of one filesystem grew at its end; no other list changed. */
  ghost predicate GrewAt(dest: Store, dest': Store, fs: FsId) {
    Get(dest, fs) <= Get(dest', fs) && forall g :: g != fs ==> Get(dest', g) == Get(dest, g)
  }

  /** A transfer that says it succeeded did, and no transfer loses or damages anything. */
  ghost predicate Sound(tree: Tree, source: Store, dest: Store, fs: FsId, target: SnapshotId, t: Transfer) {
    && Setting(tree, source, t.dest)
    && GrewAt(dest, t.dest, fs)
    && (target != "" ==> t.target == target)
    && (t.ok ==> t.target != "" && Arrived(source, t.dest, fs, t.target))
    && NotBeyond(source, dest, fs, t)
  }

  /** Nothing is sent from after the target. */
  ghost predicate NotBeyond(source: Store, dest: Store, fs: FsId, t: Transfer) {
    t.target in Get(source, fs) && Get(dest, fs) <= UpTo(source, fs, t.target) ==>
      Get(t.dest, fs) <= UpTo(source, fs, t.target)
  }

  lemma TargetNamed(tree: Tree, s: seq<SnapshotId>, n: nat)
    requires IsHistory(tree, s) && "" !in tree
    ensures Distinct(s) && "" !in s
    ensures IsHistory(tree, Prefix(s, n)) && IsHistory(tree, Lagging(s, n))
    ensures Prefix(s, n) <= s && Lagging(s, n) <= s
  {
    HistoryDistinct(tree, s);
    HistoryInTree(tree, s);
    if n < |s| {
      HistoryPrefix(tree, s, n);
      HistoryPrefix(tree, s, |s| - n);
    }
  }

  /** The restricted list of any announced part of a history is the history up to the target. */
  lemma RestrictedIsUpTo(tree: Tree, source: Store, fs: FsId, n: nat, target: SnapshotId)
    requires IsHistory(tree, Get(source, fs)) && "" !in tree && target != ""
    ensures var r := Restricted(Prefix(Get(source, fs), n), target);
            && (r.Ok? <==> target in Prefix(Get(source, fs), n))
            && (r.Ok? ==> target in Get(source, fs) && r.value == UpTo(source, fs, target))
            && (r.Ok? ==> IsHistory(tree, r.value) && Tip(r.value) == Some(target))
  {
    var all := Get(source, fs);
    var part := Prefix(all, n);
    TargetNamed(tree, all, n);
    if target in part {
      var k := IndexOf(part, target);
      assert all[k] == part[k] == target;
      IndexOfDistinct(all, k);
      assert part[..k + 1] == all[..k + 1];
      HistoryPrefix(tree, all, k + 1);
    }
  }

  /** A range that starts at the tip of some list leads from there to the target. */
  lemma SendOnceSound(tree: Tree, source: Store, dest: Store, from: Option<Origin>, fs: FsId,
                      base: Option<SnapshotId>, target: SnapshotId, a: Attempt)
    requires Setting(tree, source, dest) && target != ""
    ensures Sound(tree, source, dest, fs, target, SendOnce(source, dest, from, fs, base, target, a))
  {
    var all, now := Get(source, fs), Get(dest, fs);
    var t := SendOnce(source, dest, from, fs, base, target, a);
    var sent := Send(all, base, target);
    if sent.Some? && Accepts(dest, from, fs, sent.value) {
      var n := if a.fault && a.received < |sent.value.snaps| then a.received else |sent.value.snaps|;
      RecvKeepsHistory(tree, all, now, base, target, n);
      PutKeeps(tree, source, dest, fs, Recv(now, sent.value, n));
      StreamReachesTarget(tree, all, now, base, target);
    }
  }

  lemma PutKeeps(tree: Tree, source: Store, dest: Store, fs: FsId, s: seq<SnapshotId>)
    requires Setting(tree, source, dest) && IsHistory(tree, s) && Get(dest, fs) <= s
    ensures Setting(tree, source, dest[fs := s]) && GrewAt(dest, dest[fs := s], fs)
  {
    var after := dest[fs := s];
    forall g ensures IsHistory(tree, Get(after, g)) {
      assert g != fs ==> Get(after, g) == Get(dest, g);
    }
  }

  lemma StreamReachesTarget(tree: Tree, all: seq<SnapshotId>, now: seq<SnapshotId>, base: Option<SnapshotId>, target: SnapshotId)
    requires IsHistory(tree, all) && IsHistory(tree, now) && Tip(now) == base
    requires Send(all, base, target).Some?
    ensures |now| + |Send(all, base, target).value.snaps| == IndexOf(all, target) + 1
  {
    if base.Some? {
      HistoriesAgree(tree, all, now, IndexOf(all, base.value), |now| - 1);
    }
  }

  lemma PushOnceSound(tree: Tree, source: Store, dest: Store, from: Option<Origin>, fs: FsId, target: SnapshotId, a: Attempt)
    requires Setting(tree, source, dest) && target != ""
    ensures Sound(tree, source, dest, fs, target, PushOnce(source, dest, from, fs, target, a))
  {
    TargetRestricts(tree, source, fs, target);
    if target in Get(source, fs) {
      var part, reported := UpTo(source, fs, target), Lagging(Get(dest, fs), a.lag);
      TargetNamed(tree, Get(dest, fs), a.lag);
      HistoryPrefix(tree, Get(source, fs), IndexOf(Get(source, fs), target) + 1);
      CanApplyExact(tree, part, reported);
      var o := CanApplyOutcome(part, reported);
      if o.Apply? { SendOnceSound(tree, source, dest, from, fs, o.from, target, a); }
    }
  }

  lemma PushAttemptSound(tree: Tree, source: Store, dest: Store, from: Option<Origin>, fs: FsId, target: SnapshotId, a: Attempt)
    requires Setting(tree, source, dest)
    ensures Sound(tree, source, dest, fs, target, PushAttempt(source, dest, from, fs, target, a))
  {
    TargetNamed(tree, Get(source, fs), a.announced);
    match Pinned(source, fs, target, a)
    case None =>
    case Some(t) => PushOnceSound(tree, source, dest, from, fs, t, a);
  }

  /** A failed attempt, and what the others make of what it left behind. */
  lemma SoundThen(tree: Tree, source: Store, dest: Store, fs: FsId, target: SnapshotId, once: Transfer, rest: Transfer)
    requires Sound(tree, source, dest, fs, target, once) && Sound(tree, source, once.dest, fs, once.target, rest)
    requires once.target == "" ==> once.dest == dest
    ensures Sound(tree, source, dest, fs, target, rest)
  {
    assert Get(dest, fs) <= Get(once.dest, fs) <= Get(rest.dest, fs);
  }

  lemma UnpinnedDoesNothing(tree: Tree, source: Store, dest: Store, from: Option<Origin>, fs: FsId, target: SnapshotId, a: Attempt)
    requires IsHistory(tree, Get(source, fs)) && "" !in tree
    ensures var once := PushAttempt(source, dest, from, fs, target, a); once.target == "" ==> once == Transfer(false, dest, target)
  {
    TargetNamed(tree, Get(source, fs), a.announced);
    match Pinned(source, fs, target, a)
    case None =>
    case Some(t) => assert PushAttempt(source, dest, from, fs, target, a).target == t;
  }

  lemma {:induction false} PushSound(tree: Tree, source: Store, dest: Store, from: Option<Origin>, fs: FsId,
                                     target: SnapshotId, attempts: seq<Attempt>)
    requires Setting(tree, source, dest)
    ensures Sound(tree, source, dest, fs, target, Push(source, dest, from, fs, target, attempts))
    decreases attempts
  {
    if attempts == [] {
    } else {
      PushAttemptSound(tree, source, dest, from, fs, target, attempts[0]);
      UnpinnedDoesNothing(tree, source, dest, from, fs, target, attempts[0]);
      var once := PushAttempt(source, dest, from, fs, target, attempts[0]);
      if !once.ok {
        PushSound(tree, source, once.dest, from, fs, once.target, attempts[1..]);
        SoundThen(tree, source, dest, fs, target, once, Push(source, once.dest, from, fs, once.target, attempts[1..]));
      }
    }
  }

  lemma {:induction false} PullRangeSound(tree: Tree, source: Store, dest: Store, from: Option<Origin>, fs: FsId,
                                          base: Option<SnapshotId>, target: SnapshotId, attempts: seq<Attempt>)
    requires Setting(tree, source, dest) && target != ""
    ensures Sound(tree, source, dest, fs, target, PullRange(source, dest, from, fs, base, target, attempts))
    decreases attempts
  {
    if attempts == [] {
    } else {
      SendOnceSound(tree, source, dest, from, fs, base, target, attempts[0]);
      var once := SendOnce(source, dest, from, fs, base, target, attempts[0]);
      if !once.ok {
        PullRangeSound(tree, source, once.dest, from, fs, base, target, attempts[1..]);
      }
    }
  }

  lemma PullSound(tree: Tree, source: Store, dest: Store, from: Option<Origin>, fs: FsId, target: SnapshotId,
                  check: Attempt, attempts: seq<Attempt>)
    requires Setting(tree, source, dest)
    ensures Sound(tree, source, dest, fs, target, Pull(source, dest, from, fs, target, check, attempts))
  {
    TargetNamed(tree, Get(source, fs), check.announced);
    TargetNamed(tree, Get(dest, fs), check.lag);
    match Pinned(source, fs, target, check)
    case None =>
    case Some(t) =>
      RestrictedIsUpTo(tree, source, fs, check.announced, t);
      var remote := Restricted(Prefix(Get(source, fs), check.announced), t);
      if remote.Ok? {
        var reported := Lagging(Get(dest, fs), check.lag);
        CanApplyExact(tree, remote.value, reported);
        var o := CanApplyOutcome(remote.value, reported);
        if o.Apply? { PullRangeSound(tree, source, dest, from, fs, o.from, t, attempts); }
      }
  }

  // ---------------------------------------------------------------------------
  // When a transfer succeeds
  // ---------------------------------------------------------------------------

  /** The destination has only what leads to the target, and the origin if it has nothing. */
  ghost predicate Transferable(source: Store, dest: Store, from: Option<Origin>, fs: FsId, target: SnapshotId) {
    && target in Get(source, fs)
    && Get(dest, fs) <= UpTo(source, fs, target)
    && (Get(dest, fs) == [] && from.Some? ==> Holds(dest, from.value))
  }

  /** What a list of the destination, current or not, makes canApply decide. */
  lemma RangeOffered(tree: Tree, source: Store, fs: FsId, target: SnapshotId, seen: seq<SnapshotId>)
    requires IsHistory(tree, Get(source, fs)) && IsHistory(tree, seen) && target in Get(source, fs)
    ensures var part := UpTo(source, fs, target);
            var o := CanApplyOutcome(part, seen);
            && (o == ToSnapsUpToDate <==> seen == part)
            && (o.Apply? <==> seen < part)
            && (o.Apply? ==> o.from == Tip(seen) && Send(Get(source, fs), o.from, target).Some?)
  {
    var all := Get(source, fs);
    var k := IndexOf(all, target);
    var part := UpTo(source, fs, target);
    HistoryDistinct(tree, all);
    HistoryPrefix(tree, all, k + 1);
    CanApplyExact(tree, part, seen);
    if seen < part {
      RangeCut(all, k, seen);
    }
  }

  /** One attempt at a range that starts where the destination ends. */
  lemma SendFromTip(tree: Tree, source: Store, dest: Store, from: Option<Origin>, fs: FsId, target: SnapshotId, a: Attempt)
    requires Setting(tree, source, dest) && target in Get(source, fs) && Get(dest, fs) < UpTo(source, fs, target)
    requires from.Some? ==> from.value.fs != fs
    ensures var base, once := Tip(Get(dest, fs)), SendOnce(source, dest, from, fs, Tip(Get(dest, fs)), target, a);
            && (once.ok <==> !a.fault && Transferable(source, dest, from, fs, target))
            && (Transferable(source, once.dest, from, fs, target) <==> Transferable(source, dest, from, fs, target))
            && (Transferable(source, dest, from, fs, target) && a.fault && a.received > 0 ==> Tip(Get(once.dest, fs)) != base)
            && (a.fault && a.received == 0 ==> Get(once.dest, fs) == Get(dest, fs))
            && (!Transferable(source, dest, from, fs, target) ==> once.dest == dest)
  {
    var now := Get(dest, fs);
    RangeOffered(tree, source, fs, target, now);
    if now == [] && from.Some? && from.value.snapshot !in Get(dest, from.value.fs) {
      assert SendOnce(source, dest, from, fs, Tip(now), target, a) == Transfer(false, dest, target);
    } else {
      SendAccepted(tree, source, dest, from, fs, target, a);
    }
  }

  lemma SendAccepted(tree: Tree, source: Store, dest: Store, from: Option<Origin>, fs: FsId, target: SnapshotId, a: Attempt)
    requires Setting(tree, source, dest) && target in Get(source, fs) && Get(dest, fs) < UpTo(source, fs, target)
    requires Send(Get(source, fs), Tip(Get(dest, fs)), target).Some?
    requires Get(dest, fs) == [] && from.Some? ==> from.value.snapshot in Get(dest, from.value.fs)
    ensures var now, once := Get(dest, fs), SendOnce(source, dest, from, fs, Tip(Get(dest, fs)), target, a);
            && (once.ok <==> !a.fault)
            && once.dest == dest[fs := Get(once.dest, fs)]
            && Get(once.dest, fs) <= UpTo(source, fs, target)
            && (a.fault && a.received > 0 ==> Tip(Get(once.dest, fs)) != Tip(now))
            && (a.fault && a.received == 0 ==> Get(once.dest, fs) == now)
            && (now != [] ==> Get(once.dest, fs) != [])
  {
    var all, now := Get(source, fs), Get(dest, fs);
    var stream := Send(all, Tip(now), target).value;
    StreamReachesTarget(tree, all, now, Tip(now), target);
    SendBase(all, Tip(now), target);
    var n := if a.fault && a.received < |stream.snaps| then a.received else |stream.snaps|;
    ReceivedPart(tree, all, now, target, n);
  }

  lemma SendBase(all: seq<SnapshotId>, base: Option<SnapshotId>, target: SnapshotId)
    requires Send(all, base, target).Some?
    ensures Send(all, base, target).value.base == base
  {
  }

  /** Part of a stream that starts at the tip leaves part of the history up to the target. */
  lemma ReceivedPart(tree: Tree, all: seq<SnapshotId>, now: seq<SnapshotId>, target: SnapshotId, n: nat)
    requires IsHistory(tree, all) && IsHistory(tree, now)
    requires Send(all, Tip(now), target).Some? && n <= |Send(all, Tip(now), target).value.snaps|
    ensures var after := Recv(now, Send(all, Tip(now), target).value, n);
            && after <= all[..IndexOf(all, target) + 1]
            && (n > 0 ==> Tip(after) != Tip(now))
            && (n == 0 ==> after == now)
            && (n > 0 ==> after != [])
  {
    var after := Recv(now, Send(all, Tip(now), target).value, n);
    RecvKeepsHistory(tree, all, now, Tip(now), target, n);
    StreamReachesTarget(tree, all, now, Tip(now), target);
    assert after == all[..|now| + n];
    if n > 0 && Tip(after) == Tip(now) {
      SameTip(tree, after, now);
    }
  }

  /** A range that starts elsewhere than where the destination ends is refused. */
  lemma SendFromElsewhere(tree: Tree, source: Store, dest: Store, from: Option<Origin>, fs: FsId, target: SnapshotId,
                          a: Attempt, seen: seq<SnapshotId>)
    requires Setting(tree, source, dest) && IsHistory(tree, seen) && seen != Get(dest, fs)
    ensures SendOnce(source, dest, from, fs, Tip(seen), target, a) == Transfer(false, dest, target)
  {
    if Tip(seen) == Tip(Get(dest, fs)) { SameTip(tree, seen, Get(dest, fs)); }
  }

  /** One attempt, however stale the reported list is. */
  lemma PushAttemptExact(tree: Tree, source: Store, dest: Store, from: Option<Origin>, fs: FsId, target: SnapshotId, a: Attempt)
    requires Setting(tree, source, dest) && target != ""
    requires from.Some? ==> from.value.fs != fs
    ensures var once, now := PushAttempt(source, dest, from, fs, target, a), Get(dest, fs);
            var seen := Lagging(now, a.lag);
            && once.target == target
            && (once.ok <==>
                  !a.fault && target in Get(source, fs) &&
                  (seen == UpTo(source, fs, target) || (seen == now && Transferable(source, dest, from, fs, target))))
            && (Transferable(source, once.dest, from, fs, target) <==> Transferable(source, dest, from, fs, target))
            && (!Transferable(source, dest, from, fs, target) || seen != now ==> once.dest == dest)
  {
    var all, now := Get(source, fs), Get(dest, fs);
    assert PushAttempt(source, dest, from, fs, target, a) == PushOnce(source, dest, from, fs, target, a);
    TargetRestricts(tree, source, fs, target);
    if target in all {
      if Lagging(now, a.lag) == now {
        ToldTheTruth(tree, source, dest, from, fs, target, a);
      } else {
        ToldAnOldList(tree, source, dest, from, fs, target, a);
      }
    }
  }

  lemma TargetRestricts(tree: Tree, source: Store, fs: FsId, target: SnapshotId)
    requires IsHistory(tree, Get(source, fs)) && "" !in tree && target != ""
    ensures target in Get(source, fs) ==> Restricted(Get(source, fs), target) == Ok(UpTo(source, fs, target))
    ensures target !in Get(source, fs) ==> Restricted(Get(source, fs), target).Err?
  {
    assert Prefix(Get(source, fs), |Get(source, fs)|) == Get(source, fs);
    RestrictedIsUpTo(tree, source, fs, |Get(source, fs)|, target);
  }

  lemma ToldTheTruth(tree: Tree, source: Store, dest: Store, from: Option<Origin>, fs: FsId, target: SnapshotId, a: Attempt)
    requires Setting(tree, source, dest) && target != "" && target in Get(source, fs)
    requires from.Some? ==> from.value.fs != fs
    requires Lagging(Get(dest, fs), a.lag) == Get(dest, fs)
    requires Restricted(Get(source, fs), target) == Ok(UpTo(source, fs, target))
    ensures var once := PushOnce(source, dest, from, fs, target, a);
            && (once.ok <==> !a.fault && Transferable(source, dest, from, fs, target))
            && (Transferable(source, once.dest, from, fs, target) <==> Transferable(source, dest, from, fs, target))
            && (!Transferable(source, dest, from, fs, target) ==> once.dest == dest)
  {
    var now := Get(dest, fs);
    RangeOffered(tree, source, fs, target, now);
    if now < UpTo(source, fs, target) {
      SendFromTip(tree, source, dest, from, fs, target, a);
    }
  }

  lemma ToldAnOldList(tree: Tree, source: Store, dest: Store, from: Option<Origin>, fs: FsId, target: SnapshotId, a: Attempt)
    requires Setting(tree, source, dest) && target != "" && target in Get(source, fs)
    requires Lagging(Get(dest, fs), a.lag) != Get(dest, fs)
    requires Restricted(Get(source, fs), target) == Ok(UpTo(source, fs, target))
    ensures var once := PushOnce(source, dest, from, fs, target, a);
            once.dest == dest && (once.ok <==> !a.fault && Lagging(Get(dest, fs), a.lag) == UpTo(source, fs, target))
  {
    var seen := Lagging(Get(dest, fs), a.lag);
    TargetNamed(tree, Get(dest, fs), a.lag);
    RangeOffered(tree, source, fs, target, seen);
    SendFromElsewhere(tree, source, dest, from, fs, target, a, seen);
  }

  /** The destination before an attempt. */
  function DestBefore(source: Store, dest: Store, from: Option<Origin>, fs: FsId, target: SnapshotId, attempts: seq<Attempt>, i: nat): Store
    requires i <= |attempts|
  {
    Push(source, dest, from, fs, target, attempts[..i]).dest
  }

  /** An attempt without a fault that is told what the destination has; or, where no attempt
      should succeed, what it would have if it were up to date. */
  ghost predicate Decides(source: Store, dest: Store, from: Option<Origin>, fs: FsId, target: SnapshotId, attempts: seq<Attempt>, i: nat)
    requires i < |attempts| && target in Get(source, fs)
  {
    var now := Get(DestBefore(source, dest, from, fs, target, attempts, i), fs);
    var seen := Lagging(now, attempts[i].lag);
    !attempts[i].fault && if Transferable(source, dest, from, fs, target) then seen == now else seen == UpTo(source, fs, target)
  }

  lemma DestBeforeTail(source: Store, dest: Store, from: Option<Origin>, fs: FsId, target: SnapshotId, attempts: seq<Attempt>, i: nat)
    requires 0 < i <= |attempts|
    ensures var once := PushAttempt(source, dest, from, fs, target, attempts[0]);
            DestBefore(source, dest, from, fs, target, attempts, i) ==
              if once.ok then once.dest else DestBefore(source, once.dest, from, fs, once.target, attempts[1..], i - 1)
  {
    assert attempts[..i][0] == attempts[0] && attempts[..i][1..] == attempts[1..][..i - 1];
  }

  /** A push over faulty connections to a peer that reports lists of any age.  If it is possible
      at all, it succeeds exactly when some attempt goes without a fault while the reported
      list is what the destination has; if it is not, exactly when some attempt without a
      fault is shown a list that ends at the target. */
  lemma {:induction false} PushExact(tree: Tree, source: Store, dest: Store, from: Option<Origin>, fs: FsId,
                                     target: SnapshotId, attempts: seq<Attempt>)
    requires Setting(tree, source, dest) && target != ""
    requires from.Some? ==> from.value.fs != fs
    ensures Push(source, dest, from, fs, target, attempts).ok <==>
              target in Get(source, fs) && exists i :: 0 <= i < |attempts| && Decides(source, dest, from, fs, target, attempts, i)
    decreases attempts
  {
    if attempts == [] {
      assert !Push(source, dest, from, fs, target, attempts).ok;
    } else {
      var once := PushAttempt(source, dest, from, fs, target, attempts[0]);
      PushAttemptExact(tree, source, dest, from, fs, target, attempts[0]);
      PushAttemptSound(tree, source, dest, from, fs, target, attempts[0]);
      if target in Get(source, fs) {
        FirstDecides(source, dest, from, fs, target, attempts);
        if !once.ok {
          PushExact(tree, source, once.dest, from, fs, target, attempts[1..]);
          LaterDecides(source, dest, from, fs, target, attempts);
        }
      } else if !once.ok {
        PushExact(tree, source, once.dest, from, fs, target, attempts[1..]);
      }
    }
  }

  lemma FirstDecides(source: Store, dest: Store, from: Option<Origin>, fs: FsId, target: SnapshotId, attempts: seq<Attempt>)
    requires attempts != [] && target in Get(source, fs)
    ensures var now := Get(dest, fs);
            var seen := Lagging(now, attempts[0].lag);
            Decides(source, dest, from, fs, target, attempts, 0) <==>
              !attempts[0].fault && if Transferable(source, dest, from, fs, target) then seen == now else seen == UpTo(source, fs, target)
  {
    assert attempts[..0] == [];
  }

  lemma LaterDecides(source: Store, dest: Store, from: Option<Origin>, fs: FsId, target: SnapshotId, attempts: seq<Attempt>)
    requires attempts != [] && target in Get(source, fs)
    requires var once := PushAttempt(source, dest, from, fs, target, attempts[0]);
             && !once.ok && once.target == target
             && (Transferable(source, once.dest, from, fs, target) <==> Transferable(source, dest, from, fs, target))
    ensures var once := PushAttempt(source, dest, from, fs, target, attempts[0]);
            (exists i :: 0 <= i < |attempts| && Decides(source, dest, from, fs, target, attempts, i)) <==>
              Decides(source, dest, from, fs, target, attempts, 0) ||
              exists i :: 0 <= i < |attempts| - 1 && Decides(source, once.dest, from, fs, target, attempts[1..], i)
  {
    var once := PushAttempt(source, dest, from, fs, target, attempts[0]);
    forall i | 0 <= i < |attempts| - 1
      ensures Decides(source, dest, from, fs, target, attempts, i + 1) <==> Decides(source, once.dest, from, fs, target, attempts[1..], i)
    {
      DestBeforeTail(source, dest, from, fs, target, attempts, i + 1);
    }
    if i :| 0 < i < |attempts| && Decides(source, dest, from, fs, target, attempts, i) {
      assert Decides(source, once.dest, from, fs, target, attempts[1..], i - 1);
    }
  }

  /** With no target, the attempts before one that is announced a snapshot do nothing. */
  lemma {:induction false} PushPins(source: Store, dest: Store, from: Option<Origin>, fs: FsId, attempts: seq<Attempt>, k: nat)
    requires k < |attempts| && forall j :: 0 <= j < k ==> attempts[j].announced == 0
    requires Get(source, fs) != [] && attempts[k].announced > 0
    ensures Push(source, dest, from, fs, "", attempts) ==
            Push(source, dest, from, fs, Last(Prefix(Get(source, fs), attempts[k].announced)), attempts[k..])
    decreases k
  {
    if k > 0 {
      PushPins(source, dest, from, fs, attempts[1..], k - 1);
      assert attempts[1..][k - 1..] == attempts[k..];
    } else {
      assert attempts[0..] == attempts;
    }
  }

  // ---------------------------------------------------------------------------
  // A peer that loads its list now and then
  // ---------------------------------------------------------------------------

  /** The list the peer loaded last.  It loads it after a receive that was completed; after one
      that broke off it does not, until ten minutes have passed. */
  function Loaded(source: Store, dest: Store, from: Option<Origin>, fs: FsId, target: SnapshotId,
                  attempts: seq<Attempt>, reloads: seq<bool>, loaded: seq<SnapshotId>, i: nat): seq<SnapshotId>
    requires i < |attempts| == |reloads|
  {
    if reloads[i] then Get(DestBefore(source, dest, from, fs, target, attempts, i), fs)
    else if i == 0 then loaded
    else Loaded(source, dest, from, fs, target, attempts, reloads, loaded, i - 1)
  }

  /** Every attempt is told the list that was loaded last. */
  ghost predicate PeerReports(source: Store, dest: Store, from: Option<Origin>, fs: FsId, target: SnapshotId,
                              attempts: seq<Attempt>, reloads: seq<bool>, loaded: seq<SnapshotId>)
  {
    |reloads| == |attempts| &&
    forall i :: 0 <= i < |attempts| ==>
      Lagging(Get(DestBefore(source, dest, from, fs, target, attempts, i), fs), attempts[i].lag)
      == Loaded(source, dest, from, fs, target, attempts, reloads, loaded, i)
  }

  /** Something arrived during an attempt. */
  ghost predicate Grows(source: Store, dest: Store, from: Option<Origin>, fs: FsId, target: SnapshotId, attempts: seq<Attempt>, j: nat)
    requires j < |attempts|
  {
    Get(DestBefore(source, dest, from, fs, target, attempts, j + 1), fs) != Get(DestBefore(source, dest, from, fs, target, attempts, j), fs)
  }

  /** Since anything arrived, the peer has loaded its list again. */
  ghost predicate LoadedSince(source: Store, dest: Store, from: Option<Origin>, fs: FsId, target: SnapshotId,
                              attempts: seq<Attempt>, reloads: seq<bool>, i: nat)
    requires i < |attempts| == |reloads|
  {
    forall j :: 0 <= j < i && Grows(source, dest, from, fs, target, attempts, j) ==> exists k :: j < k <= i && reloads[k]
  }

  lemma {:induction false} DestOnlyGrows(tree: Tree, source: Store, dest: Store, from: Option<Origin>, fs: FsId, target: SnapshotId,
                                         attempts: seq<Attempt>, i: nat)
    requires Setting(tree, source, dest) && i < |attempts|
    ensures Get(DestBefore(source, dest, from, fs, target, attempts, i), fs) <= Get(DestBefore(source, dest, from, fs, target, attempts, i + 1), fs)
    decreases i
  {
    var once := PushAttempt(source, dest, from, fs, target, attempts[0]);
    PushAttemptSound(tree, source, dest, from, fs, target, attempts[0]);
    DestBeforeTail(source, dest, from, fs, target, attempts, i + 1);
    if i == 0 {
      assert attempts[..0] == [] && attempts[1..][..0] == [];
    } else {
      DestBeforeTail(source, dest, from, fs, target, attempts, i);
      if !once.ok { DestOnlyGrows(tree, source, once.dest, from, fs, once.target, attempts[1..], i - 1); }
    }
  }

  lemma {:induction false} LoadedIsCurrent(tree: Tree, source: Store, dest: Store, from: Option<Origin>, fs: FsId, target: SnapshotId,
                                           attempts: seq<Attempt>, reloads: seq<bool>, i: nat)
    requires Setting(tree, source, dest) && i < |attempts| == |reloads|
    ensures var list := Loaded(source, dest, from, fs, target, attempts, reloads, Get(dest, fs), i);
            var now := Get(DestBefore(source, dest, from, fs, target, attempts, i), fs);
            list <= now && (list == now <==> LoadedSince(source, dest, from, fs, target, attempts, reloads, i))
    decreases i
  {
    if reloads[i] {
    } else if i == 0 {
      assert attempts[..0] == [];
    } else {
      LoadedIsCurrent(tree, source, dest, from, fs, target, attempts, reloads, i - 1);
      DestOnlyGrows(tree, source, dest, from, fs, target, attempts, i - 1);
      SinceStep(source, dest, from, fs, target, attempts, reloads, i);
    }
  }

  lemma SinceStep(source: Store, dest: Store, from: Option<Origin>, fs: FsId, target: SnapshotId,
                  attempts: seq<Attempt>, reloads: seq<bool>, i: nat)
    requires 0 < i < |attempts| == |reloads| && !reloads[i]
    ensures LoadedSince(source, dest, from, fs, target, attempts, reloads, i) <==>
              LoadedSince(source, dest, from, fs, target, attempts, reloads, i - 1) && !Grows(source, dest, from, fs, target, attempts, i - 1)
  {
    if LoadedSince(source, dest, from, fs, target, attempts, reloads, i) {
      forall j | 0 <= j < i - 1 && Grows(source, dest, from, fs, target, attempts, j) ensures exists k :: j < k <= i - 1 && reloads[k] {
        var k :| j < k <= i && reloads[k];
      }
    }
  }

  /** A push to such a peer succeeds exactly when it is possible and some attempt without a fault
      finds that nothing has arrived since the peer last loaded its list.  An attempt that
      broke off half way is survived only if the peer loads its list again. */
  lemma PushRecovers(tree: Tree, source: Store, dest: Store, from: Option<Origin>, fs: FsId, target: SnapshotId,
                     attempts: seq<Attempt>, reloads: seq<bool>)
    requires Setting(tree, source, dest) && target != ""
    requires from.Some? ==> from.value.fs != fs
    requires PeerReports(source, dest, from, fs, target, attempts, reloads, Get(dest, fs))
    ensures Push(source, dest, from, fs, target, attempts).ok <==>
              && Transferable(source, dest, from, fs, target)
              && exists i :: 0 <= i < |attempts| && !attempts[i].fault && LoadedSince(source, dest, from, fs, target, attempts, reloads, i)
  {
    PushExact(tree, source, dest, from, fs, target, attempts);
    forall i | 0 <= i < |attempts|
      ensures target in Get(source, fs) ==>
                (Decides(source, dest, from, fs, target, attempts, i) <==>
                   && Transferable(source, dest, from, fs, target) && !attempts[i].fault
                   && LoadedSince(source, dest, from, fs, target, attempts, reloads, i))
    {
      LoadedIsCurrent(tree, source, dest, from, fs, target, attempts, reloads, i);
      if target in Get(source, fs) && !Transferable(source, dest, from, fs, target) {
        NothingArrives(tree, source, dest, from, fs, target, attempts, i);
        ListLoadedEarly(tree, source, dest, from, fs, target, attempts, reloads, i);
      }
    }
  }

  /** What is not possible changes nothing. */
  lemma {:induction false} NothingArrives(tree: Tree, source: Store, dest: Store, from: Option<Origin>, fs: FsId, target: SnapshotId,
                                          attempts: seq<Attempt>, i: nat)
    requires Setting(tree, source, dest) && target != "" && i <= |attempts|
    requires from.Some? ==> from.value.fs != fs
    requires !Transferable(source, dest, from, fs, target)
    ensures DestBefore(source, dest, from, fs, target, attempts, i) == dest
    decreases i
  {
    if i == 0 {
      assert attempts[..0] == [];
    } else {
      PushAttemptExact(tree, source, dest, from, fs, target, attempts[0]);
      DestBeforeTail(source, dest, from, fs, target, attempts, i);
      NothingArrives(tree, source, dest, from, fs, target, attempts[1..], i - 1);
    }
  }

  lemma {:induction false} ListLoadedEarly(tree: Tree, source: Store, dest: Store, from: Option<Origin>, fs: FsId, target: SnapshotId,
                                           attempts: seq<Attempt>, reloads: seq<bool>, i: nat)
    requires Setting(tree, source, dest) && target != "" && i < |attempts| == |reloads|
    requires from.Some? ==> from.value.fs != fs
    requires target in Get(source, fs) && !Transferable(source, dest, from, fs, target)
    ensures Loaded(source, dest, from, fs, target, attempts, reloads, Get(dest, fs), i) == Get(dest, fs) != UpTo(source, fs, target)
    decreases i
  {
    NothingArrives(tree, source, dest, from, fs, target, attempts, i);
    if reloads[i] || i == 0 {
    } else {
      ListLoadedEarly(tree, source, dest, from, fs, target, attempts, reloads, i - 1);
    }
  }

  /** While every attempt is told what the destination has, one without a fault is enough. */
  lemma PushWithCurrentLists(tree: Tree, source: Store, dest: Store, from: Option<Origin>, fs: FsId, target: SnapshotId, attempts: seq<Attempt>)
    requires Setting(tree, source, dest) && target != "" && forall a <- attempts :: a.lag == 0
    requires from.Some? ==> from.value.fs != fs
    ensures Push(source, dest, from, fs, target, attempts).ok <==>
              Transferable(source, dest, from, fs, target) && exists a <- attempts :: !a.fault
  {
    PushExact(tree, source, dest, from, fs, target, attempts);
    if target in Get(source, fs) {
      forall i | 0 <= i < |attempts|
        ensures Decides(source, dest, from, fs, target, attempts, i) <==> Transferable(source, dest, from, fs, target) && !attempts[i].fault
      {
        CurrentDecides(tree, source, dest, from, fs, target, attempts, i);
      }
    }
  }

  lemma CurrentDecides(tree: Tree, source: Store, dest: Store, from: Option<Origin>, fs: FsId, target: SnapshotId,
                       attempts: seq<Attempt>, i: nat)
    requires Setting(tree, source, dest) && target != "" && target in Get(source, fs)
    requires from.Some? ==> from.value.fs != fs
    requires i < |attempts| && attempts[i].lag == 0
    ensures Decides(source, dest, from, fs, target, attempts, i) <==> Transferable(source, dest, from, fs, target) && !attempts[i].fault
  {
    var now := Get(DestBefore(source, dest, from, fs, target, attempts, i), fs);
    assert Lagging(now, 0) == now;
    if !Transferable(source, dest, from, fs, target) { NothingArrives(tree, source, dest, from, fs, target, attempts, i); }
  }

  /** Told a list that has stayed behind, no attempt gets anywhere, fault or no fault. */
  lemma {:induction false} PushStuck(tree: Tree, source: Store, dest: Store, from: Option<Origin>, fs: FsId, target: SnapshotId,
                                     attempts: seq<Attempt>, behind: nat)
    requires Setting(tree, source, dest) && target != "" && Transferable(source, dest, from, fs, target)
    requires from.Some? ==> from.value.fs != fs
    requires 0 < behind <= |Get(dest, fs)| && forall a <- attempts :: a.lag == behind
    ensures Push(source, dest, from, fs, target, attempts) == Transfer(false, dest, target)
    decreases attempts
  {
    if attempts == [] {
      assert Push(source, dest, from, fs, target, attempts) == Transfer(false, dest, target);
    } else {
      assert attempts[0] in attempts;
      PushAttemptExact(tree, source, dest, from, fs, target, attempts[0]);
      PushStuck(tree, source, dest, from, fs, target, attempts[1..], behind);
    }
  }

  /** An attempt without a fault, and nothing received before it. */
  ghost predicate CleanStart(attempts: seq<Attempt>) {
    exists i :: 0 <= i < |attempts| && !attempts[i].fault && forall j :: 0 <= j < i ==> attempts[j].received == 0
  }

  lemma CleanStartTail(attempts: seq<Attempt>)
    requires attempts != [] && attempts[0].fault
    ensures CleanStart(attempts) <==> attempts[0].received == 0 && CleanStart(attempts[1..])
  {
    var rest := attempts[1..];
    if CleanStart(attempts) {
      var i :| 0 <= i < |attempts| && !attempts[i].fault && forall j :: 0 <= j < i ==> attempts[j].received == 0;
      assert rest[i - 1] == attempts[i] && forall j :: 0 <= j < i - 1 ==> rest[j] == attempts[j + 1];
    }
    if attempts[0].received == 0 && CleanStart(rest) {
      var i :| 0 <= i < |rest| && !rest[i].fault && forall j :: 0 <= j < i ==> rest[j].received == 0;
      assert attempts[i + 1] == rest[i];
      forall j | 0 <= j < i + 1 ensures attempts[j].received == 0 {
        if j > 0 { assert attempts[j] == rest[j - 1]; }
      }
    }
  }

  /** The wrong range is refused every time. */
  lemma {:induction false} PullStuck(source: Store, dest: Store, from: Option<Origin>, fs: FsId,
                                     base: Option<SnapshotId>, target: SnapshotId, attempts: seq<Attempt>)
    requires Tip(Get(dest, fs)) != base
    ensures !PullRange(source, dest, from, fs, base, target, attempts).ok
    decreases attempts
  {
    if attempts == [] {
    } else {
      PullStuck(source, dest, from, fs, base, target, attempts[1..]);
    }
  }

  lemma {:induction false} PullRangeExact(tree: Tree, source: Store, dest: Store, from: Option<Origin>, fs: FsId,
                                          target: SnapshotId, attempts: seq<Attempt>)
    requires Setting(tree, source, dest) && target in Get(source, fs) && Get(dest, fs) < UpTo(source, fs, target)
    requires from.Some? ==> from.value.fs != fs
    ensures PullRange(source, dest, from, fs, Tip(Get(dest, fs)), target, attempts).ok <==>
              Transferable(source, dest, from, fs, target) && CleanStart(attempts)
    decreases attempts
  {
    if attempts == [] {
    } else {
      var base := Tip(Get(dest, fs));
      SendFromTip(tree, source, dest, from, fs, target, attempts[0]);
      TargetNamed(tree, Get(source, fs), 0);
      SendOnceSound(tree, source, dest, from, fs, base, target, attempts[0]);
      var once := SendOnce(source, dest, from, fs, base, target, attempts[0]);
      if !once.ok {
        if attempts[0].fault { CleanStartTail(attempts); }
        if Tip(Get(once.dest, fs)) == base {
          SameTip(tree, Get(once.dest, fs), Get(dest, fs));
          PullRangeExact(tree, source, once.dest, from, fs, target, attempts[1..]);
        } else {
          PullStuck(source, once.dest, from, fs, base, target, attempts[1..]);
        }
      }
    }
  }

  /** A pull asks for the same range every time: it succeeds exactly when it is let off as up to
      date, or it is possible, starts from the list the destination has, and no attempt
      received anything before one without a fault. */
  lemma PullRecovers(tree: Tree, source: Store, dest: Store, from: Option<Origin>, fs: FsId, target: SnapshotId,
                     check: Attempt, attempts: seq<Attempt>)
    requires Setting(tree, source, dest) && target != ""
    requires from.Some? ==> from.value.fs != fs
    ensures var now := Get(dest, fs);
            var seen := Lagging(now, check.lag);
            Pull(source, dest, from, fs, target, check, attempts).ok <==>
              && !check.fault && target in Prefix(Get(source, fs), check.announced) && target in Get(source, fs)
              && (seen == UpTo(source, fs, target) ||
                  (seen == now && Transferable(source, dest, from, fs, target) && CleanStart(attempts)))
  {
    var all, now := Get(source, fs), Get(dest, fs);
    var seen := Lagging(now, check.lag);
    TargetNamed(tree, now, check.lag);
    RestrictedIsUpTo(tree, source, fs, check.announced, target);
    if target in Prefix(all, check.announced) {
      RangeOffered(tree, source, fs, target, seen);
      if seen < UpTo(source, fs, target) {
        if seen == now {
          PullRangeExact(tree, source, dest, from, fs, target, attempts);
        } else {
          if Tip(seen) == Tip(now) { SameTip(tree, seen, now); }
          PullStuck(source, dest, from, fs, Tip(seen), target, attempts);
        }
      }
    }
  }

  // ---------------------------------------------------------------------------
  // One attempt breaks off half way
  // ---------------------------------------------------------------------------

  const Three: Store := map["v" := ["a", "b", "c"]]
  const Two: Store := map["v" := ["a", "b"]]
  const One: Store := map["v" := ["a"]]
  const ThreeTree: Tree := map["a" := None, "b" := Some("a"), "c" := Some("b")]

  /** An attempt of which one snapshot arrives, and then attempts without a fault. */
  function BrokenThenFine(behind: nat): seq<Attempt> {
    [Attempt(3, 0, true, 1)] + seq(4, _ => Attempt(3, behind, false, 0))
  }

  lemma ThreeSetting(dest: Store)
    requires dest == One || dest == Two
    ensures Setting(ThreeTree, Three, dest) && Transferable(Three, dest, None, "v", "c")
  {
    assert ["a", "b", "c"][..2] == ["a", "b"] && ["a", "b"][..1] == ["a"] && ["a"][..0] == [];
    assert IsHistory(ThreeTree, ["a"]);
    assert IsHistory(ThreeTree, ["a", "b"]);
    assert IsHistory(ThreeTree, ["a", "b", "c"]);
    IndexOfThree();
    assert UpTo(Three, "v", "c") == ["a", "b", "c"];
  }

  lemma IndexOfThree()
    ensures IndexOf(["a", "b", "c"], "a") == 0 && IndexOf(["a", "b", "c"], "c") == 2
  {
    var s := ["a", "b", "c"];
    IndexOfDistinct(s, 0);
    IndexOfDistinct(s, 2);
    assert s[0] == "a" && s[2] == "c";
  }

  lemma PullBrokenHalfWay(check: Attempt)
    requires check == Attempt(3, 0, false, 0)
    ensures Transferable(Three, One, None, "v", "c")
    ensures !Pull(Three, One, None, "v", "c", check, BrokenThenFine(0)).ok
  {
    ThreeSetting(One);
    PullRecovers(ThreeTree, Three, One, None, "v", "c", check, BrokenThenFine(0));
    assert UpTo(Three, "v", "c") != ["a"] by { IndexOfThree(); }
    var attempts := BrokenThenFine(0);
    assert attempts[0].fault && attempts[0].received == 1;
  }

  lemma FirstBreaksOff(a: Attempt)
    requires a == Attempt(3, 0, true, 1)
    ensures PushAttempt(Three, One, None, "v", "c", a) == Transfer(false, Two, "c")
  {
    OfferedAfterA();
    var stream := Stream(Some("a"), ["b", "c"]);
    assert stream.snaps[..1] == ["b"] && ["a"] + ["b"] == ["a", "b"];
    assert Recv(["a"], stream, 1) == ["a", "b"];
    assert One["v" := ["a", "b"]] == Two;
    assert SendOnce(Three, One, None, "v", Some("a"), "c", a) == Transfer(false, Two, "c");
    assert Lagging(["a"], 0) == ["a"];
  }

  lemma OfferedAfterA()
    ensures Restricted(["a", "b", "c"], "c") == Ok(["a", "b", "c"])
    ensures CanApplyOutcome(["a", "b", "c"], ["a"]) == Apply(Some("a"), "c")
    ensures Send(["a", "b", "c"], Some("a"), "c") == Some(Stream(Some("a"), ["b", "c"]))
  {
    var all := ["a", "b", "c"];
    IndexOfThree();
    assert all[..3] == all && all[1..3] == ["b", "c"];
    assert all[..2] == ["a", "b"] && ["a", "b"][..1] == ["a"];
    assert LatestCommon(all, ["a"]) == LatestCommon(["a", "b"], ["a"]) == LatestCommon(["a"], ["a"]) == 0;
  }

  /** The peer does not load its list again, so that all further attempts ask for the range that
      begins at "a"; had it done so, the next one would have succeeded. */
  lemma PushBrokenHalfWay()
    ensures |BrokenThenFine(1)| == MaxRetries && Transferable(Three, One, None, "v", "c")
    ensures PeerReports(Three, One, None, "v", "c", BrokenThenFine(1), seq(5, _ => false), Get(One, "v"))
    ensures !Push(Three, One, None, "v", "c", BrokenThenFine(1)).ok
    ensures Push(Three, One, None, "v", "c", BrokenThenFine(0)).ok
  {
    ThreeSetting(One);
    BrokenPushReports();
    BrokenPushFails();
    ReloadedPushSucceeds();
  }

  lemma BrokenPushReports()
    ensures PeerReports(Three, One, None, "v", "c", BrokenThenFine(1), seq(5, _ => false), Get(One, "v"))
  {
    var attempts, reloads := BrokenThenFine(1), seq(5, _ => false);
    forall i | 0 <= i < 5
      ensures Lagging(Get(DestBefore(Three, One, None, "v", "c", attempts, i), "v"), attempts[i].lag)
              == Loaded(Three, One, None, "v", "c", attempts, reloads, Get(One, "v"), i)
    {
      assert forall j :: 0 < j < 5 ==> attempts[j] == Attempt(3, 1, false, 0);
      StillOld(attempts, reloads, i);
    }
  }

  lemma BrokenPushFails()
    ensures !Push(Three, One, None, "v", "c", BrokenThenFine(1)).ok
  {
    var attempts := BrokenThenFine(1);
    ThreeSetting(Two);
    FirstBreaksOff(attempts[0]);
    PushStuck(ThreeTree, Three, Two, None, "v", "c", attempts[1..], 1);
  }

  lemma ReloadedPushSucceeds()
    ensures Push(Three, One, None, "v", "c", BrokenThenFine(0)).ok
  {
    var fine := BrokenThenFine(0);
    ThreeSetting(One);
    assert fine[1] in fine && !fine[1].fault;
    PushWithCurrentLists(ThreeTree, Three, One, None, "v", "c", fine);
  }

  /** After the attempt that broke off, nothing changes at the destination. */
  lemma StaysTwo(attempts: seq<Attempt>, i: nat)
    requires 0 < i <= |attempts| && attempts[0] == Attempt(3, 0, true, 1) && forall j :: 0 < j < |attempts| ==> attempts[j].lag == 1
    ensures DestBefore(Three, One, None, "v", "c", attempts, i) == Two
  {
    var rest := attempts[1..][..i - 1];
    FirstBreaksOff(attempts[0]);
    ThreeSetting(Two);
    DestBeforeTail(Three, One, None, "v", "c", attempts, i);
    assert forall j :: 0 <= j < |rest| ==> rest[j] == attempts[j + 1];
    PushStuck(ThreeTree, Three, Two, None, "v", "c", rest, 1);
  }

  lemma {:induction false} NeverLoaded(attempts: seq<Attempt>, reloads: seq<bool>, loaded: seq<SnapshotId>, i: nat)
    requires i < |attempts| == |reloads| && forall j :: 0 <= j < |reloads| ==> !reloads[j]
    ensures Loaded(Three, One, None, "v", "c", attempts, reloads, loaded, i) == loaded
    decreases i
  {
    if i == 0 {
    } else {
      NeverLoaded(attempts, reloads, loaded, i - 1);
    }
  }

  lemma StillOld(attempts: seq<Attempt>, reloads: seq<bool>, i: nat)
    requires i < |attempts| == |reloads| && attempts[0] == Attempt(3, 0, true, 1)
    requires forall j :: 0 < j < |attempts| ==> attempts[j].lag == 1
    requires forall j :: 0 <= j < |reloads| ==> !reloads[j]
    ensures Loaded(Three, One, None, "v", "c", attempts, reloads, Get(One, "v"), i) == ["a"]
    ensures Lagging(Get(DestBefore(Three, One, None, "v", "c", attempts, i), "v"), attempts[i].lag) == ["a"]
  {
    assert ["a", "b"][..1] == ["a"];
    NeverLoaded(attempts, reloads, Get(One, "v"), i);
    if i == 0 {
      assert attempts[..0] == [];
    } else {
      StaysTwo(attempts, i);
    }
  }
}
