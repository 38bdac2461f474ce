/** Histories of snapshots, and the decision whether one list of snapshots can be
    brought up to date from another (snapshotlogic.go, and restrictSnapshots in utils.go).

    A snapshot is represented by its id.  A filesystem holds its snapshots oldest first.
  */
module Snapshots {

  type SnapshotId = string
  type FsId = string

  datatype Option<+T> = None | Some(value: T)

  datatype Result<+T> = Ok(value: T) | Err(error: string)

  function Last<T>(s: seq<T>): T
    requires s != []
  {
    s[|s| - 1]
  }

  /** The newest snapshot of a list, if there is one. */
  function Tip(s: seq<SnapshotId>): Option<SnapshotId> {
    if s == [] then None else Some(Last(s))
  }

  ghost predicate Distinct<T(!new)>(s: seq<T>) {
    forall i, j :: 0 <= i < j < |s| ==> s[i] != s[j]
  }

  // ---------------------------------------------------------------------------
  // The commit tree
  // ---------------------------------------------------------------------------

  /** Every snapshot ever taken of a filesystem, with the snapshot it was taken on top of. */
  type Tree = map<SnapshotId, Option<SnapshotId>>

  /** A list is a history when it is the path of its last snapshot from the root of the tree. */
  ghost predicate IsHistory(tree: Tree, s: seq<SnapshotId>) {
    s == [] ||
    (Last(s) in tree && tree[Last(s)] == Tip(s[..|s| - 1]) && IsHistory(tree, s[..|s| - 1]))
  }

  lemma {:induction false} HistoryPrefix(tree: Tree, s: seq<SnapshotId>, k: nat)
    requires IsHistory(tree, s) && k <= |s|
    ensures IsHistory(tree, s[..k])
  {
    if k < |s| {
      HistoryPrefix(tree, s[..|s| - 1], k);
      assert s[..|s| - 1][..k] == s[..k];
    } else {
      assert s[..k] == s;
    }
  }

  /** A history is determined by its tip. */
  lemma {:induction false} SameTip(tree: Tree, a: seq<SnapshotId>, b: seq<SnapshotId>)
    requires IsHistory(tree, a) && IsHistory(tree, b) && Tip(a) == Tip(b)
    ensures a == b
  {
    if a == [] {
    } else {
      SameTip(tree, a[..|a| - 1], b[..|b| - 1]);
      assert a == a[..|a| - 1] + [Last(a)] && b == b[..|b| - 1] + [Last(b)];
    }
  }

  /** Two histories that share a snapshot share everything up to it. */
  lemma HistoriesAgree(tree: Tree, a: seq<SnapshotId>, b: seq<SnapshotId>, i: nat, j: nat)
    requires IsHistory(tree, a) && IsHistory(tree, b)
    requires i < |a| && j < |b| && a[i] == b[j]
    ensures i == j && a[..i + 1] == b[..j + 1]
  {
    HistoryPrefix(tree, a, i + 1);
    HistoryPrefix(tree, b, j + 1);
    SameTip(tree, a[..i + 1], b[..j + 1]);
    assert |a[..i + 1]| == |b[..j + 1]|;
  }

  /** No snapshot occurs twice in a history. */
  lemma HistoryDistinct(tree: Tree, s: seq<SnapshotId>)
    requires IsHistory(tree, s)
    ensures Distinct(s)
  {
    forall i, j | 0 <= i < j < |s| ensures s[i] != s[j] {
      if s[i] == s[j] { HistoriesAgree(tree, s, s, i, j); }
    }
  }

  lemma {:induction false} HistoryInTree(tree: Tree, s: seq<SnapshotId>)
    requires IsHistory(tree, s)
    ensures forall x <- s :: x in tree
  {
    if s == [] {
    } else {
      HistoryInTree(tree, s[..|s| - 1]);
      assert s == s[..|s| - 1] + [Last(s)];
    }
  }

  /** Taking a snapshot nobody has heard of leaves every history a history. */
  lemma {:induction false} HistoryGrows(tree: Tree, s: seq<SnapshotId>, x: SnapshotId, parent: Option<SnapshotId>)
    requires IsHistory(tree, s) && x !in tree
    ensures IsHistory(tree[x := parent], s)
  {
    if s == [] {
    } else {
      HistoryGrows(tree, s[..|s| - 1], x, parent);
    }
  }

  // ---------------------------------------------------------------------------
  // canApply
  // ---------------------------------------------------------------------------

  datatype Outcome =
    | Apply(from: Option<SnapshotId>, to: SnapshotId)
    | NoFromSnaps
    | NoCommonSnapshots
    | ToSnapsUpToDate
    | ToSnapsAhead(latestCommon: SnapshotId)
    | ToSnapsDiverged(latestCommon: SnapshotId)

  /** The index of the last snapshot of `from` that `to` also has, or -1. */
  function LatestCommon(from: seq<SnapshotId>, to: seq<SnapshotId>): (i: int)
    ensures -1 <= i < |from|
    ensures 0 <= i ==> from[i] in to
    ensures forall j :: i < j < |from| ==> from[j] !in to
  {
    if from == [] then -1
    else if Last(from) in to then |from| - 1
    else LatestCommon(from[..|from| - 1], to)
  }

  /** What canApply decides: it looks at the two last ids and the latest common one only. */
  function CanApplyOutcome(from: seq<SnapshotId>, to: seq<SnapshotId>): Outcome {
    if from == [] then NoFromSnaps
    else if to == [] then Apply(None, Last(from))
    else
      var i := LatestCommon(from, to);
      if i < 0 then NoCommonSnapshots
      else if from[i] == Last(to) then
        if from[i] == Last(from) then ToSnapsUpToDate else Apply(Some(from[i]), Last(from))
      else if from[i] == Last(from) then ToSnapsAhead(from[i])
      else ToSnapsDiverged(from[i])
  }

  method CanApply(fromSnaps: seq<SnapshotId>, toSnaps: seq<SnapshotId>) returns (outcome: Outcome)
    ensures outcome == CanApplyOutcome(fromSnaps, toSnaps)
  {
    if |fromSnaps| == 0 {
      return NoFromSnaps;
    }
    if |toSnaps| == 0 {
      return Apply(None, fromSnaps[|fromSnaps| - 1]);
    }

    var toSnapKeys: set<SnapshotId> := {};
    for k := 0 to |toSnaps|
      invariant toSnapKeys == set x | x in toSnaps[..k]
    {
      toSnapKeys := toSnapKeys + {toSnaps[k]};
    }
    assert toSnaps[..|toSnaps|] == toSnaps;

    var latestCommon: Option<SnapshotId> := None;
    var i := |fromSnaps| - 1;
    while i >= 0
      invariant -1 <= i < |fromSnaps|
      invariant latestCommon == None
      invariant LatestCommon(fromSnaps, toSnaps) == LatestCommon(fromSnaps[..i + 1], toSnaps)
    {
      assert Last(fromSnaps[..i + 1]) == fromSnaps[i];
      assert fromSnaps[..i + 1][..i] == fromSnaps[..i];
      if fromSnaps[i] in toSnapKeys {
        latestCommon := Some(fromSnaps[i]);
        break;
      }
      i := i - 1;
    }
    if latestCommon == None {
      return NoCommonSnapshots;
    }
    if latestCommon.value == toSnaps[|toSnaps| - 1] {
      if latestCommon.value == fromSnaps[|fromSnaps| - 1] {
        return ToSnapsUpToDate;
      }
      return Apply(latestCommon, fromSnaps[|fromSnaps| - 1]);
    }
    if latestCommon.value == fromSnaps[|fromSnaps| - 1] {
      return ToSnapsAhead(latestCommon.value);
    }
    return ToSnapsDiverged(latestCommon.value);
  }

  /** The length of the longest common prefix. */
  function CommonPrefix(a: seq<SnapshotId>, b: seq<SnapshotId>): (n: nat)
    ensures n <= |a| && n <= |b| && a[..n] == b[..n]
    ensures n < |a| && n < |b| ==> a[n] != b[n]
  {
    if a == [] || b == [] || a[0] != b[0] then 0
    else
      var n := CommonPrefix(a[1..], b[1..]);
      assert a[..n + 1] == [a[0]] + a[1..][..n] && b[..n + 1] == [b[0]] + b[1..][..n];
      n + 1
  }

  lemma {:induction false} CommonPrefixMaximal(a: seq<SnapshotId>, b: seq<SnapshotId>, k: nat)
    requires k <= |a| && k <= |b| && a[..k] == b[..k]
    ensures k <= CommonPrefix(a, b)
  {
    if k == 0 {
    } else {
      assert a[0] == a[..k][0] == b[..k][0] == b[0];
      assert a[1..][..k - 1] == a[..k][1..] == b[..k][1..] == b[1..][..k - 1];
      CommonPrefixMaximal(a[1..], b[1..], k - 1);
    }
  }

  lemma PrefixIffCommon(a: seq<SnapshotId>, b: seq<SnapshotId>)
    ensures a <= b <==> CommonPrefix(a, b) == |a|
    ensures b <= a <==> CommonPrefix(a, b) == |b|
    ensures a == b <==> CommonPrefix(a, b) == |a| == |b|
  {
    assert a[..|a|] == a && b[..|b|] == b;
    if a <= b { CommonPrefixMaximal(a, b, |a|); }
    if b <= a { CommonPrefixMaximal(a, b, |b|); }
  }

  lemma LatestCommonIsCommonPrefix(tree: Tree, from: seq<SnapshotId>, to: seq<SnapshotId>)
    requires IsHistory(tree, from) && IsHistory(tree, to)
    ensures LatestCommon(from, to) == CommonPrefix(from, to) - 1
  {
    var i, n := LatestCommon(from, to), CommonPrefix(from, to);
    if n > 0 {
      assert from[n - 1] == from[..n][n - 1] == to[..n][n - 1] == to[n - 1];
    }
    if i >= 0 {
      var j :| 0 <= j < |to| && to[j] == from[i];
      HistoriesAgree(tree, from, to, i, j);
      CommonPrefixMaximal(from, to, i + 1);
    }
  }

  /** The two comparisons of ids that canApply makes, in terms of the common prefix. */
  lemma LastIdsTellPrefixes(tree: Tree, from: seq<SnapshotId>, to: seq<SnapshotId>)
    requires IsHistory(tree, from) && IsHistory(tree, to)
    requires CommonPrefix(from, to) > 0
    ensures var n := CommonPrefix(from, to);
            && from[n - 1] == to[n - 1]
            && (from[n - 1] == Last(to) <==> n == |to|)
            && (from[n - 1] == Last(from) <==> n == |from|)
            && from[0] == to[0]
  {
    var n := CommonPrefix(from, to);
    HistoryDistinct(tree, from);
    HistoryDistinct(tree, to);
    assert from[n - 1] == from[..n][n - 1] == to[..n][n - 1] == to[n - 1];
    assert from[0] == from[..n][0] == to[..n][0] == to[0];
  }

  /** On histories the shallow test of canApply is exact: each outcome is returned
      precisely when the two histories are related in the way its name says. */
  lemma CanApplyExact(tree: Tree, from: seq<SnapshotId>, to: seq<SnapshotId>)
    requires IsHistory(tree, from) && IsHistory(tree, to)
    ensures var o := CanApplyOutcome(from, to);
            && (o == NoFromSnaps <==> from == [])
            && (o.Apply? <==> to < from)
            && (o.Apply? ==> o.from == Tip(to) && Some(o.to) == Tip(from))
            && (o == ToSnapsUpToDate <==> from != [] && from == to)
            && (o.ToSnapsAhead? <==> from != [] && from < to)
            && (o.ToSnapsAhead? ==> Some(o.latestCommon) == Tip(from))
            && (o == NoCommonSnapshots <==> from != [] && to != [] && from[0] != to[0])
            && (o.ToSnapsDiverged? <==> 0 < CommonPrefix(from, to) < |from| && CommonPrefix(from, to) < |to|)
            && (o.ToSnapsDiverged? ==> o.latestCommon == from[CommonPrefix(from, to) - 1])
  {
    LatestCommonIsCommonPrefix(tree, from, to);
    PrefixIffCommon(from, to);
    if CommonPrefix(from, to) > 0 {
      LastIdsTellPrefixes(tree, from, to);
    }
  }

  /** Between lists that are not histories the test is only what it looks at: here the
      destination lacks the first snapshot of the source and is offered a fast-forward. */
  lemma CanApplyShallowOnGaps()
    ensures CanApplyOutcome(["a", "b", "c"], ["b"]) == Apply(Some("b"), "c")
    ensures !(["b"] <= ["a", "b", "c"])
  {
    assert ["a", "b", "c"][..2] == ["a", "b"];
    assert LatestCommon(["a", "b", "c"], ["b"]) == LatestCommon(["a", "b"], ["b"]) == 1;
  }

  // ---------------------------------------------------------------------------
  // Sending and receiving a range
  // ---------------------------------------------------------------------------

  /** A replication stream: the snapshots after `base`, up to the one asked for. */
  datatype Stream = Stream(base: Option<SnapshotId>, snaps: seq<SnapshotId>)

  function IndexOf(s: seq<SnapshotId>, x: SnapshotId): (i: nat)
    requires x in s
    ensures i < |s| && s[i] == x && x !in s[..i]
  {
    if s[0] == x then 0 else
      assert s == [s[0]] + s[1..];
      var i := IndexOf(s[1..], x);
      assert s[..i + 1] == [s[0]] + s[1..][..i];
      i + 1
  }

  lemma {:induction false} IndexOfFirst(s: seq<SnapshotId>, k: nat)
    requires k < |s| && s[k] !in s[..k]
    ensures IndexOf(s, s[k]) == k
  {
    if k == 0 {
    } else {
      assert s[0] in s[..k] && s[..k] == [s[0]] + s[1..][..k - 1];
      IndexOfFirst(s[1..], k - 1);
    }
  }

  lemma IndexOfDistinct(s: seq<SnapshotId>, i: nat)
    requires i < |s| && Distinct(s)
    ensures IndexOf(s, s[i]) == i
  {
    IndexOfFirst(s, i);
  }

  /** zfs send of the range (base, to], which fails when the filesystem lacks an end of it. */
  function Send(disk: seq<SnapshotId>, base: Option<SnapshotId>, to: SnapshotId): Option<Stream> {
    if to !in disk then None
    else
      var end := IndexOf(disk, to) + 1;
      match base
      case None => Some(Stream(None, disk[..end]))
      case Some(b) =>
        if b in disk && IndexOf(disk, b) + 1 < end
        then Some(Stream(base, disk[IndexOf(disk, b) + 1..end]))
        else None
  }

  /** zfs recv: a stream applies only on top of its base.  A receive that breaks off part
      way leaves the first `count` snapshots of the stream. */
  function Recv(disk: seq<SnapshotId>, stream: Stream, count: nat): seq<SnapshotId>
    requires count <= |stream.snaps|
  {
    if Tip(disk) == stream.base then disk + stream.snaps[..count] else disk
  }

  /** Whatever canApply allows, sending and receiving it makes the destination up to date, if
      the source has no snapshot twice. */
  lemma ApplyMakesUpToDate(from: seq<SnapshotId>, to: seq<SnapshotId>)
    requires CanApplyOutcome(from, to).Apply? && Distinct(from)
    ensures var o := CanApplyOutcome(from, to);
            && o.from == Tip(to)
            && Send(from, o.from, o.to).Some?
            && (var stream := Send(from, o.from, o.to).value;
                var after := Recv(to, stream, |stream.snaps|);
                && CanApplyOutcome(from, after) == ToSnapsUpToDate
                && Tip(after) == Tip(from)
                && to <= after)
  {
    var o := CanApplyOutcome(from, to);
    IndexOfDistinct(from, |from| - 1);
    if to != [] {
      IndexOfDistinct(from, LatestCommon(from, to));
    }
    var stream := Send(from, o.from, o.to).value;
    var after := Recv(to, stream, |stream.snaps|);
    assert stream.snaps != [] && Last(stream.snaps) == Last(from);
    assert stream.snaps[..|stream.snaps|] == stream.snaps;
    assert after == to + stream.snaps && Last(after) == Last(from);
    assert Last(from) in after;
  }

  /** On histories the destination ends up with exactly the history of the source. */
  lemma ApplyCopiesHistory(tree: Tree, from: seq<SnapshotId>, to: seq<SnapshotId>)
    requires IsHistory(tree, from) && IsHistory(tree, to) && CanApplyOutcome(from, to).Apply?
    ensures var o := CanApplyOutcome(from, to);
            && Send(from, o.from, o.to).Some?
            && (var stream := Send(from, o.from, o.to).value;
                Recv(to, stream, |stream.snaps|) == from)
  {
    HistoryDistinct(tree, from);
    ApplyMakesUpToDate(from, to);
    var o := CanApplyOutcome(from, to);
    var stream := Send(from, o.from, o.to).value;
    RecvKeepsHistory(tree, from, to, o.from, o.to, |stream.snaps|);
    SameTip(tree, Recv(to, stream, |stream.snaps|), from);
  }

  lemma PrefixAndPart(s: seq<SnapshotId>, i: nat, end: nat, count: nat)
    requires i + count <= end <= |s|
    ensures s[..i] + s[i..end][..count] == s[..i + count]
  {
    assert s[i..end][..count] == s[i..i + count];
  }

  lemma PartOfStream(sender: seq<SnapshotId>, before: seq<SnapshotId>, end: nat, snaps: seq<SnapshotId>, count: nat)
    requires before <= sender && |before| <= end <= |sender| && snaps == sender[|before|..end] && count <= |snaps|
    ensures |before| + count <= end && before + snaps[..count] == sender[..|before| + count]
  {
    PrefixAndPart(sender, |before|, end, count);
    assert before == sender[..|before|];
  }

  /** The tip of a history, found in another one, ends what they have in common. */
  lemma TipInSource(tree: Tree, source: seq<SnapshotId>, disk: seq<SnapshotId>)
    requires IsHistory(tree, source) && IsHistory(tree, disk) && disk != [] && Last(disk) in source
    ensures IndexOf(source, Last(disk)) == |disk| - 1 && disk <= source
  {
    var b := IndexOf(source, Last(disk));
    HistoriesAgree(tree, source, disk, b, |disk| - 1);
    assert disk[..|disk|] == disk;
  }

  /** A stream that starts at the tip of a history is what the sender's history has beyond it, up
      to the snapshot that was asked for. */
  lemma StreamBeyondTip(tree: Tree, source: seq<SnapshotId>, disk: seq<SnapshotId>, to: SnapshotId)
    requires IsHistory(tree, source) && IsHistory(tree, disk) && Send(source, Tip(disk), to).Some?
    ensures to in source && disk <= source && |disk| <= IndexOf(source, to) <= |source| - 1
    ensures Send(source, Tip(disk), to) == Some(Stream(Tip(disk), source[|disk|..IndexOf(source, to) + 1]))
  {
    if disk == [] {
      assert source[..IndexOf(source, to) + 1] == source[0..IndexOf(source, to) + 1];
    } else {
      TipInSource(tree, source, disk);
    }
  }

  /** A stream that was cut from a history and applies to another one extends it to a history. */
  lemma RecvKeepsHistory(tree: Tree, source: seq<SnapshotId>, disk: seq<SnapshotId>,
                         base: Option<SnapshotId>, to: SnapshotId, count: nat)
    requires IsHistory(tree, source) && IsHistory(tree, disk)
    requires Send(source, base, to).Some? && count <= |Send(source, base, to).value.snaps|
    ensures IsHistory(tree, Recv(disk, Send(source, base, to).value, count))
    ensures Tip(disk) == base ==>
              && disk < source && |disk| + count <= |source|
              && Recv(disk, Send(source, base, to).value, count) == source[..|disk| + count]
  {
    if Tip(disk) == base {
      StreamBeyondTip(tree, source, disk, to);
      StreamNotEmpty(source, base, to);
      var stream := Send(source, base, to).value;
      PartOfStream(source, disk, IndexOf(source, to) + 1, stream.snaps, count);
      HistoryPrefix(tree, source, |disk| + count);
    } else {
      StreamBase(source, base, to);
    }
  }

  lemma StreamBase(source: seq<SnapshotId>, base: Option<SnapshotId>, to: SnapshotId)
    requires Send(source, base, to).Some?
    ensures Send(source, base, to).value.base == base && to in source
  {
  }

  lemma StreamNotEmpty(source: seq<SnapshotId>, base: Option<SnapshotId>, to: SnapshotId)
    requires Send(source, base, to).Some?
    ensures Send(source, base, to).value.snaps != []
  {
  }

  /** From the end of any shorter list on, a range of a longer one can be cut. */
  lemma RangeCut(all: seq<SnapshotId>, k: nat, seen: seq<SnapshotId>)
    requires k < |all| && Distinct(all) && seen < all[..k + 1]
    ensures Send(all, Tip(seen), all[k]).Some?
    ensures |Send(all, Tip(seen), all[k]).value.snaps| == k + 1 - |seen|
  {
    IndexOfDistinct(all, k);
    if seen != [] {
      assert Last(seen) == all[..k + 1][|seen| - 1];
      IndexOfDistinct(all, |seen| - 1);
    }
  }

  // ---------------------------------------------------------------------------
  // restrictSnapshots
  // ---------------------------------------------------------------------------

  /** The list up to and including the target; the whole list when no target is named. */
  function Restricted(snaps: seq<SnapshotId>, target: SnapshotId): Result<seq<SnapshotId>> {
    if target == "" then Ok(snaps)
    else if target in snaps then Ok(snaps[..IndexOf(snaps, target) + 1])
    else Err("unable to find snapshot")
  }

  method RestrictSnapshots(localSnaps: seq<SnapshotId>, toSnapshotId: SnapshotId)
    returns (result: Result<seq<SnapshotId>>)
    ensures result == Restricted(localSnaps, toSnapshotId)
    ensures toSnapshotId == "" ==> result == Ok(localSnaps)
    ensures toSnapshotId != "" ==> (result.Ok? <==> toSnapshotId in localSnaps)
    ensures toSnapshotId != "" && result.Ok? ==>
              result.value <= localSnaps && Tip(result.value) == Some(toSnapshotId) && toSnapshotId !in result.value[..|result.value| - 1]
  {
    if toSnapshotId != "" {
      var newLocalSnaps: seq<SnapshotId> := [];
      for k := 0 to |localSnaps|
        invariant newLocalSnaps == localSnaps[..k] && toSnapshotId !in newLocalSnaps
      {
        newLocalSnaps := newLocalSnaps + [localSnaps[k]];
        assert localSnaps[..k + 1] == localSnaps[..k] + [localSnaps[k]];
        if localSnaps[k] == toSnapshotId {
          IndexOfFirst(localSnaps, k);
          return Ok(newLocalSnaps);
        }
      }
      assert localSnaps[..|localSnaps|] == localSnaps;
      return Err("unable to find snapshot");
    }
    return Ok(localSnaps);
  }

  /** Aiming at a target: both "up to date" and a completed transfer mean that the
      destination's newest snapshot is exactly that target, for any two lists of which the
      source's has no snapshot twice. */
  lemma RestrictedTransferEndsAtTarget(source: seq<SnapshotId>, dest: seq<SnapshotId>, target: SnapshotId)
    requires target != "" && target in source && Distinct(source)
    ensures var restricted := Restricted(source, target).value;
            var o := CanApplyOutcome(restricted, dest);
            && (o == ToSnapsUpToDate ==> Tip(dest) == Some(target))
            && (o.Apply? ==>
                  && o.to == target && o.from == Tip(dest) && Send(source, o.from, target).Some?
                  && (var stream := Send(source, o.from, target).value;
                      Tip(Recv(dest, stream, |stream.snaps|)) == Some(target)))
  {
    var restricted := Restricted(source, target).value;
    var o := CanApplyOutcome(restricted, dest);
    var t := IndexOf(source, target);
    assert Last(restricted) == target && Distinct(restricted);
    if o.Apply? {
      ApplyMakesUpToDate(restricted, dest);
      SendFromPrefix(source, t, o.from);
    }
  }

  /** A range that ends at a snapshot is cut from the part of the list up to it. */
  lemma SendFromPrefix(source: seq<SnapshotId>, t: nat, base: Option<SnapshotId>)
    requires t < |source| && Distinct(source)
    requires base.Some? ==> base.value in source[..t + 1]
    ensures Send(source, base, source[t]) == Send(source[..t + 1], base, source[t])
  {
    var part := source[..t + 1];
    IndexOfDistinct(source, t);
    IndexOfDistinct(part, t);
    assert source[..t + 1] == part[..t + 1];
    if base.Some? {
      var b :| 0 <= b < |part| && part[b] == base.value;
      IndexOfDistinct(source, b);
      IndexOfDistinct(part, b);
      assert source[b + 1..t + 1] == part[b + 1..t + 1];
    }
  }
}
