/** Deleting a filesystem together with its clones, leaves first (rpc.go). */
module Deletion {
  import opened Snapshots

  /** Each clone with the filesystem it is a clone of. */
  type Origins = map<FsId, FsId>

  /** Origins form a forest: a clone was created after what it is a clone of. */
  ghost predicate Acyclic(origins: Origins, age: FsId -> nat) {
    forall c <- origins :: age(origins[c]) < age(c)
  }

  /** `f` is `root` or a clone of it, directly or not. */
  ghost predicate Below(origins: Origins, age: FsId -> nat, f: FsId, root: FsId)
    requires Acyclic(origins, age)
    decreases age(f)
  {
    f == root || (f in origins && Below(origins, age, origins[f], root))
  }

  ghost function Subtree(origins: Origins, age: FsId -> nat, root: FsId): set<FsId>
    requires Acyclic(origins, age)
  {
    set f | f in origins.Keys + {root} && Below(origins, age, f, root)
  }

  /** Clones stand before what they are clones of. */
  ghost predicate LeavesFirst(s: seq<FsId>, origins: Origins) {
    forall i, j :: 0 <= i < |s| && 0 <= j < |s| && s[i] in origins && origins[s[i]] == s[j] ==> i < j
  }

  /** The root and all its clones, each once, every clone before its origin. */
  ghost predicate DeletionOrder(s: seq<FsId>, origins: Origins, age: FsId -> nat, root: FsId)
    requires Acyclic(origins, age)
  {
    (forall f :: f in s <==> f in Subtree(origins, age, root)) && Distinct(s) && LeavesFirst(s, origins)
  }

  // ---------------------------------------------------------------------------
  // The forest
  // ---------------------------------------------------------------------------

  lemma {:induction false} BelowAge(origins: Origins, age: FsId -> nat, f: FsId, root: FsId)
    requires Acyclic(origins, age) && Below(origins, age, f, root)
    ensures f == root || age(root) < age(f)
    decreases age(f)
  {
    if f == root {
    } else {
      BelowAge(origins, age, origins[f], root);
    }
  }

  lemma {:induction false} BelowTransitive(origins: Origins, age: FsId -> nat, f: FsId, g: FsId, h: FsId)
    requires Acyclic(origins, age) && Below(origins, age, f, g) && Below(origins, age, g, h)
    ensures Below(origins, age, f, h)
    decreases age(f)
  {
    if f == g {
    } else {
      BelowTransitive(origins, age, origins[f], g, h);
    }
  }

  /** What is below the root is the root or below one of its clones. */
  lemma {:induction false} BelowChild(origins: Origins, age: FsId -> nat, f: FsId, root: FsId) returns (c: FsId)
    requires Acyclic(origins, age) && Below(origins, age, f, root) && f != root
    ensures c in origins && origins[c] == root && Below(origins, age, f, c)
    decreases age(f)
  {
    if origins[f] == root {
      c := f;
    } else {
      c := BelowChild(origins, age, origins[f], root);
    }
  }

  /** Two clones of one filesystem have nothing below them in common. */
  lemma {:induction false} SiblingsApart(origins: Origins, age: FsId -> nat, f: FsId, c: FsId, d: FsId)
    requires Acyclic(origins, age) && c in origins && d in origins && origins[c] == origins[d]
    requires Below(origins, age, f, c) && Below(origins, age, f, d)
    ensures c == d
    decreases age(f)
  {
    if f == c {
      if f != d { BelowAge(origins, age, origins[c], d); }
    } else if f == d {
      BelowAge(origins, age, origins[d], c);
    } else {
      SiblingsApart(origins, age, origins[f], c, d);
    }
  }

  // ---------------------------------------------------------------------------
  // sortFilesystemsInDeletionOrder
  // ---------------------------------------------------------------------------

  /** What the loop over the clones has appended so far. */
  ghost predicate Appended(s: seq<FsId>, done: set<FsId>, origins: Origins, age: FsId -> nat)
    requires Acyclic(origins, age)
  {
    && (forall f :: f in s <==> exists c :: c in done && Below(origins, age, f, c))
    && Distinct(s)
    && LeavesFirst(s, origins)
  }

  lemma DistinctAppend(s: seq<FsId>, t: seq<FsId>)
    requires Distinct(s) && Distinct(t) && forall f <- s :: f !in t
    ensures Distinct(s + t)
  {
    forall i, j | 0 <= i < j < |s + t| ensures (s + t)[i] != (s + t)[j] {
      if i < |s| <= j { assert s[i] in s && t[j - |s|] in t; }
    }
  }

  lemma AppendSibling(origins: Origins, age: FsId -> nat, root: FsId,
                      s: seq<FsId>, done: set<FsId>, c: FsId, t: seq<FsId>)
    requires Acyclic(origins, age) && c in origins && origins[c] == root && c !in done
    requires forall d <- done :: d in origins && origins[d] == root
    requires Appended(s, done, origins, age) && DeletionOrder(t, origins, age, c)
    ensures Appended(s + t, done + {c}, origins, age)
  {
    forall f ensures f in s + t <==> exists d :: d in done + {c} && Below(origins, age, f, d) {
      if f in t { assert Below(origins, age, f, c); }
      if f in s {
        var d :| d in done && Below(origins, age, f, d);
        assert d in done + {c};
      }
      if d :| d in done + {c} && Below(origins, age, f, d) {
        if d == c { assert f in Subtree(origins, age, c); } else { assert f in s; }
      }
    }
    forall f | f in s ensures f !in t {
      var d :| d in done && Below(origins, age, f, d);
      if Below(origins, age, f, c) { SiblingsApart(origins, age, f, c, d); }
    }
    DistinctAppend(s, t);
    forall i, j | 0 <= i < |s + t| && 0 <= j < |s + t| && (s + t)[i] in origins && origins[(s + t)[i]] == (s + t)[j]
      ensures i < j
    {
      if j < |s| <= i {
        CloneStays(origins, age, root, s[j], t[i - |s|], s, done);
      }
    }
  }

  /** A clone of something appended by an earlier turn of the loop was appended then too. */
  lemma CloneStays(origins: Origins, age: FsId -> nat, root: FsId, parent: FsId, f: FsId, s: seq<FsId>, done: set<FsId>)
    requires Acyclic(origins, age) && Appended(s, done, origins, age)
    requires parent in s && f in origins && origins[f] == parent
    ensures f in s
  {
    var d :| d in done && Below(origins, age, parent, d);
    assert Below(origins, age, f, d);
  }

  lemma AppendRoot(origins: Origins, age: FsId -> nat, root: FsId, s: seq<FsId>, done: set<FsId>)
    requires Acyclic(origins, age) && Appended(s, done, origins, age)
    requires done == set c | c in origins && origins[c] == root
    ensures DeletionOrder(s + [root], origins, age, root)
  {
    forall f ensures f in s + [root] <==> f in Subtree(origins, age, root) {
      if f in s {
        var c :| c in done && Below(origins, age, f, c);
        BelowTransitive(origins, age, f, c, root);
      }
      if f in Subtree(origins, age, root) && f != root {
        var c := BelowChild(origins, age, f, root);
        assert c in done;
      }
    }
    forall f | f in s ensures f != root && (root in origins ==> origins[root] != f) {
      var c :| c in done && Below(origins, age, f, c);
      BelowAge(origins, age, f, c);
    }
    DistinctAppend(s, [root]);
    forall i, j | 0 <= i <= |s| && 0 <= j <= |s| && (s + [root])[i] in origins && origins[(s + [root])[i]] == (s + [root])[j]
      ensures i < j
    {
      if j < |s| { assert s[j] in s; }
    }
  }

  /** The clones of `rootId` are visited in whatever order the map yields them. */
  method SortFilesystemsInDeletionOrder(already: seq<FsId>, rootId: FsId, origins: Origins, ghost age: FsId -> nat)
    returns (sorted: seq<FsId>)
    requires Acyclic(origins, age)
    ensures already <= sorted && |already| < |sorted|
    ensures DeletionOrder(sorted[|already|..], origins, age, rootId)
    ensures sorted[|sorted| - 1] == rootId
    decreases Subtree(origins, age, rootId)
  {
    sorted := already;
    var unvisited := origins.Keys;
    ghost var done: set<FsId> := {};
    while unvisited != {}
      invariant unvisited <= origins.Keys
      invariant done == set c | c in origins.Keys - unvisited && origins[c] == rootId
      invariant already <= sorted
      invariant Appended(sorted[|already|..], done, origins, age)
      decreases unvisited
    {
      var child :| child in unvisited;
      unvisited := unvisited - {child};
      if origins[child] == rootId {
        SmallerSubtree(origins, age, child);
        var before := sorted;
        sorted := SortFilesystemsInDeletionOrder(sorted, child, origins, age);
        AppendSibling(origins, age, rootId, before[|already|..], done, child, sorted[|before|..]);
        assert sorted[|already|..] == before[|already|..] + sorted[|before|..];
        done := done + {child};
      }
    }
    AppendRoot(origins, age, rootId, sorted[|already|..], done);
    assert (sorted + [rootId])[|already|..] == sorted[|already|..] + [rootId];
    sorted := sorted + [rootId];
  }

  lemma SmallerSubtree(origins: Origins, age: FsId -> nat, child: FsId)
    requires Acyclic(origins, age) && child in origins
    ensures Subtree(origins, age, child) < Subtree(origins, age, origins[child])
  {
    var root := origins[child];
    forall f | f in Subtree(origins, age, child) ensures f in Subtree(origins, age, root) {
      BelowTransitive(origins, age, f, child, root);
    }
    assert root in Subtree(origins, age, root);
    if Below(origins, age, root, child) { BelowAge(origins, age, root, child); }
  }

  // ---------------------------------------------------------------------------
  // checkNotInUse
  // ---------------------------------------------------------------------------

  function InUse(containers: map<FsId, nat>, f: FsId): (n: nat)
    ensures n == 0 <==> (f in containers ==> containers[f] == 0)
  {
    if f in containers then containers[f] else 0
  }

  /** Succeeds exactly when nothing that would be deleted has a container. */
  method CheckNotInUse(containers: map<FsId, nat>, fsid: FsId, origins: Origins, ghost age: FsId -> nat)
    returns (ok: bool)
    requires Acyclic(origins, age)
    ensures ok <==> forall f <- Subtree(origins, age, fsid) :: f in containers ==> containers[f] == 0
    decreases Subtree(origins, age, fsid)
  {
    var containersInUse := InUse(containers, fsid);
    if containersInUse > 0 {
      assert fsid in Subtree(origins, age, fsid);
      return false;
    }
    var unvisited := origins.Keys;
    while unvisited != {}
      invariant unvisited <= origins.Keys
      invariant forall c, f :: c in origins.Keys - unvisited && origins[c] == fsid && Below(origins, age, f, c) ==>
                  InUse(containers, f) == 0
      decreases unvisited
    {
      var child :| child in unvisited;
      unvisited := unvisited - {child};
      if origins[child] == fsid {
        SmallerSubtree(origins, age, child);
        var childOk := CheckNotInUse(containers, child, origins, age);
        if !childOk {
          return false;
        }
        assert forall f :: Below(origins, age, f, child) ==> f in Subtree(origins, age, child);
      }
    }
    forall f | f in Subtree(origins, age, fsid) ensures InUse(containers, f) == 0 {
      if f != fsid {
        var c := BelowChild(origins, age, f, fsid);
      }
    }
    return true;
  }

  // ---------------------------------------------------------------------------
  // Deleting in that order, and being interrupted
  // ---------------------------------------------------------------------------

  /** No filesystem outlives what it is a clone of. */
  ghost predicate NoOrphans(origins: Origins, deleted: set<FsId>) {
    forall c <- origins :: c !in deleted ==> origins[c] !in deleted
  }

  /** Delete: checks, sorts, then deletes one filesystem after the other.  It may be cut off
      after any number of deletions. */
  method Delete(containers: map<FsId, nat>, rootId: FsId, origins: Origins, stopAfter: nat, ghost age: FsId -> nat)
    returns (accepted: bool, deleted: seq<FsId>, complete: bool)
    requires Acyclic(origins, age)
    ensures accepted <==> forall f <- Subtree(origins, age, rootId) :: f in containers ==> containers[f] == 0
    ensures !accepted ==> deleted == [] && !complete
    ensures NoOrphans(origins, set f | f in deleted)
    ensures complete ==> (set f | f in deleted) == Subtree(origins, age, rootId)
    ensures accepted && !complete ==> |deleted| == stopAfter
    ensures Distinct(deleted)
    ensures forall f <- deleted :: f in Subtree(origins, age, rootId) && (f in containers ==> containers[f] == 0)
  {
    deleted, complete := [], false;
    accepted := CheckNotInUse(containers, rootId, origins, age);
    if !accepted {
      return;
    }
    var order := SortFilesystemsInDeletionOrder([], rootId, origins, age);
    assert order[0..] == order;
    var k := 0;
    while k < |order| && k < stopAfter
      invariant k <= |order| && k <= stopAfter && deleted == order[..k]
    {
      deleted := deleted + [order[k]];
      k := k + 1;
    }
    PrefixLeavesNoOrphans(origins, age, rootId, order, k);
    complete := k == |order|;
    assert order[..|order|] == order;
  }

  /** After deleting any prefix of the order, no survivor has a deleted origin. */
  lemma PrefixLeavesNoOrphans(origins: Origins, age: FsId -> nat, root: FsId, order: seq<FsId>, k: nat)
    requires Acyclic(origins, age) && DeletionOrder(order, origins, age, root) && k <= |order|
    ensures NoOrphans(origins, set f | f in order[..k])
  {
    forall c | c in origins && origins[c] in order[..k] ensures c in order[..k] {
      var j :| 0 <= j < k && order[j] == origins[c];
      assert order[j] in order;
      assert Below(origins, age, c, root);
      assert c in Subtree(origins, age, root);
      var i :| 0 <= i < |order| && order[i] == c;
      assert order[..k][i] == c;
    }
  }

  /** What is left of the origins once the registry has forgotten the deleted clones. */
  function Without(origins: Origins, deleted: set<FsId>): Origins {
    origins - deleted
  }

  lemma {:induction false} BelowWithout(origins: Origins, age: FsId -> nat, f: FsId, root: FsId, deleted: set<FsId>)
    requires Acyclic(origins, age) && NoOrphans(origins, deleted) && f !in deleted
    ensures Below(Without(origins, deleted), age, f, root) <==> Below(origins, age, f, root)
    decreases age(f)
  {
    if f == root || f !in origins {
    } else {
      BelowWithout(origins, age, origins[f], root, deleted);
    }
  }

  /** Deleting again after an interruption picks up where the first attempt left off: in a
      registry that has forgotten just the deleted clones, the second order is made of
      exactly the survivors. */
  lemma ResumeFindsSurvivors(origins: Origins, age: FsId -> nat, root: FsId, order: seq<FsId>, k: nat, again: seq<FsId>)
    requires Acyclic(origins, age) && DeletionOrder(order, origins, age, root) && k <= |order| && root in order[k..]
    requires DeletionOrder(again, Without(origins, set f | f in order[..k]), age, root)
    ensures forall f :: f in again <==> f in order[k..]
  {
    var deleted := set f | f in order[..k];
    PrefixLeavesNoOrphans(origins, age, root, order, k);
    assert order == order[..k] + order[k..];
    assert root !in deleted by {
      var r :| k <= r < |order| && order[r] == root;
      assert forall j :: 0 <= j < k ==> order[j] != order[r];
    }
    forall f ensures f in again <==> f in order[k..] {
      assert f in again <==> f in Subtree(Without(origins, deleted), age, root);
      SurvivorsBelow(origins, age, root, f, deleted);
      if f in order[k..] { StillThere(order, k, f); }
    }
  }

  lemma StillThere(order: seq<FsId>, k: nat, f: FsId)
    requires Distinct(order) && k <= |order| && f in order[k..]
    ensures f in order && f !in order[..k]
  {
    var i :| k <= i < |order| && order[i] == f;
    assert forall j :: 0 <= j < k ==> order[j] != order[i];
  }

  lemma SurvivorsBelow(origins: Origins, age: FsId -> nat, root: FsId, f: FsId, deleted: set<FsId>)
    requires Acyclic(origins, age) && NoOrphans(origins, deleted) && root !in deleted
    ensures f in Subtree(Without(origins, deleted), age, root) <==> f in Subtree(origins, age, root) && f !in deleted
  {
    if f !in deleted { BelowWithout(origins, age, f, root, deleted); }
  }

  /** But the cache of the registry forgets all clones of a volume as soon as it hears that
      one is gone (DeleteCloneFromEtcd).  Deleting again then finds the root alone, which is
      right exactly when no clone survives. */
  lemma ResumeAfterCacheDrop(origins: Origins, age: FsId -> nat, root: FsId, order: seq<FsId>, k: nat, again: seq<FsId>)
    requires Acyclic(origins, age) && DeletionOrder(order, origins, age, root) && k <= |order| && root in order[k..]
    requires DeletionOrder(again, map[], age, root)
    ensures forall f :: f in again <==> f == root
    ensures NoOrphans(origins, (set f | f in order[..k]) + (set f | f in again))
       <==> forall f <- order[k..] :: f == root
  {
    assert forall f :: f in again <==> f in Subtree(map[], age, root);
    var gone := (set f | f in order[..k]) + (set f | f in again);
    assert gone == (set f | f in order[..k]) + {root};
    if forall f <- order[k..] :: f == root {
      assert order == order[..k] + order[k..];
      assert forall f :: f in gone <==> f in order;
      PrefixLeavesNoOrphans(origins, age, root, order, |order|);
      assert order[..|order|] == order;
      assert gone == set f | f in order[..|order|];
    } else {
      var f :| f in order[k..] && f != root;
      SurvivorOrphaned(origins, age, root, order, k, f);
    }
  }

  lemma SurvivorOrphaned(origins: Origins, age: FsId -> nat, root: FsId, order: seq<FsId>, k: nat, f: FsId)
    requires Acyclic(origins, age) && DeletionOrder(order, origins, age, root) && k <= |order|
    requires f in order[k..] && f != root
    ensures !NoOrphans(origins, (set g | g in order[..k]) + {root})
  {
    assert order == order[..k] + order[k..];
    assert f in order && f in Subtree(origins, age, root);
    var i :| k <= i < |order| && order[i] == f;
    assert forall j :: 0 <= j < k ==> order[j] != order[i];
    PrefixLeavesNoOrphans(origins, age, root, order, k);
    OrphanBelow(origins, age, f, root, set g | g in order[..k]);
  }

  /** Above a surviving clone of a deleted root there is an orphan. */
  lemma {:induction false} OrphanBelow(origins: Origins, age: FsId -> nat, f: FsId, root: FsId, deleted: set<FsId>)
    requires Acyclic(origins, age) && NoOrphans(origins, deleted)
    requires Below(origins, age, f, root) && f != root && f !in deleted
    ensures !NoOrphans(origins, deleted + {root})
    decreases age(f)
  {
    if origins[f] != root {
      OrphanBelow(origins, age, origins[f], root, deleted);
    } else {
      assert f !in deleted + {root} && origins[f] in deleted + {root};
    }
  }

  /** A volume with two clones, the first of which is gone: deleting again destroys the
      volume while the other clone still depends on it. */
  lemma CacheDropOrphansAClone(age: FsId -> nat)
    requires age("vol") < age("b1") && age("vol") < age("b2")
    ensures var origins: Origins := map["b1" := "vol", "b2" := "vol"];
            && DeletionOrder(["b1", "b2", "vol"], origins, age, "vol")
            && DeletionOrder(["vol"], map[], age, "vol")
            && !NoOrphans(origins, {"b1"} + {"vol"})
  {
    var origins: Origins := map["b1" := "vol", "b2" := "vol"];
    assert Below(origins, age, "b1", "vol") && Below(origins, age, "b2", "vol");
    assert "b2" in origins && origins["b2"] == "vol";
  }
}
