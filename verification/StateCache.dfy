/** The cache of every filesystem's state on every server, fed by etcd in any order
    (updateStates in etcd.go).
  */
module StateCaches {
  import opened Snapshots

  type Server = string
  type Metadata = map<string, string>

  datatype Value = Empty | Malformed | State(metadata: Metadata)

  /** A node of etcd: the state of a filesystem on a server, as of an index. */
  datatype Update = Update(server: Server, fs: FsId, value: Value, modifiedIndex: nat)

  datatype Cached = Cached(metadata: Metadata, version: nat)

  type Cache = map<Server, map<FsId, Cached>>

  function Lookup(cache: Cache, server: Server, fs: FsId): Option<Cached> {
    if server in cache && fs in cache[server] then Some(cache[server][fs]) else None
  }

  function Store(cache: Cache, server: Server, fs: FsId, c: Cached): Cache {
    cache[server := (if server in cache then cache[server] else map[])[fs := c]]
  }

  /** Only a state that is strictly newer than the cached one is taken in. */
  function Absorb(cache: Cache, u: Update): Cache {
    var known := Lookup(cache, u.server, u.fs);
    if u.value.State? && (known.Some? ==> known.value.version < u.modifiedIndex)
    then Store(cache, u.server, u.fs, Cached(u.value.metadata, u.modifiedIndex))
    else cache
  }

  function AbsorbAll(us: seq<Update>): Cache {
    if us == [] then map[] else Absorb(AbsorbAll(us[..|us| - 1]), Last(us))
  }

  class StateCache {
    var globalStateCache: Cache

    constructor ()
      ensures globalStateCache == AbsorbAll([])
    {
      globalStateCache := map[];
    }

    /** An empty value is meant to remove the state, but the test in front of the removal is
        the wrong way round, so that nothing is removed. */
    method UpdateStates(node: Update) returns (ok: bool)
      modifies this
      ensures ok == !node.value.Malformed?
      ensures globalStateCache == Absorb(old(globalStateCache), node)
      ensures !node.value.State? ==> globalStateCache == old(globalStateCache)
      ensures var known := Lookup(old(globalStateCache), node.server, node.fs);
              known.Some? && known.value.version >= node.modifiedIndex ==> globalStateCache == old(globalStateCache)
      ensures var known := Lookup(old(globalStateCache), node.server, node.fs);
              node.value.State? && (known.Some? ==> known.value.version < node.modifiedIndex) ==>
                Lookup(globalStateCache, node.server, node.fs) == Some(Cached(node.value.metadata, node.modifiedIndex))
      ensures forall server, fs :: (server, fs) != (node.server, node.fs) ==>
                Lookup(globalStateCache, server, fs) == Lookup(old(globalStateCache), server, fs)
    {
      var server, filesystem := node.server, node.fs;
      match node.value {
        case Empty =>
          if server !in globalStateCache {
            // Removes the filesystem from a map that is not there.
          }
          return true;
        case Malformed => return false;
        case State(metadata) =>
          if server !in globalStateCache {
            globalStateCache := globalStateCache[server := map[]];
          } else if filesystem in globalStateCache[server] {
            if globalStateCache[server][filesystem].version >= node.modifiedIndex {
              return true;
            }
          }
          globalStateCache := globalStateCache[server := globalStateCache[server][filesystem := Cached(metadata, node.modifiedIndex)]];
          return true;
      }
    }
  }

  /** A state of this filesystem on this server. */
  predicate About(u: Update, server: Server, fs: FsId) {
    u.server == server && u.fs == fs && u.value.State?
  }

  ghost predicate Seen(us: seq<Update>, server: Server, fs: FsId) {
    exists u <- us :: About(u, server, fs)
  }

  lemma SeenLast(us: seq<Update>, server: Server, fs: FsId)
    requires us != []
    ensures forall u :: u in us <==> u in us[..|us| - 1] || u == Last(us)
    ensures Seen(us, server, fs) <==> Seen(us[..|us| - 1], server, fs) || About(Last(us), server, fs)
  {
    assert us == us[..|us| - 1] + [Last(us)];
    assert forall u :: u in us <==> u in us[..|us| - 1] || u == Last(us);
  }

  /** Whatever was delivered, in whatever order and however often, what is cached is the
      newest state seen, and there is none only if none was seen. */
  lemma {:induction false} NewestIsCached(us: seq<Update>, server: Server, fs: FsId)
    ensures var c := Lookup(AbsorbAll(us), server, fs);
            && (c.Some? <==> Seen(us, server, fs))
            && (c.Some? ==> Update(server, fs, State(c.value.metadata), c.value.version) in us)
            && (c.Some? ==> forall u <- us :: About(u, server, fs) ==> u.modifiedIndex <= c.value.version)
  {
    if us == [] {
    } else {
      NewestIsCached(us[..|us| - 1], server, fs);
      SeenLast(us, server, fs);
    }
  }

  /** One index of etcd stands for one value of a key. */
  ghost predicate Consistent(us: seq<Update>) {
    forall u <- us, v <- us :: u.server == v.server && u.fs == v.fs && u.modifiedIndex == v.modifiedIndex ==> u == v
  }

  /** Two nodes that were told the same states, each in its own order and any number of times,
      have the same cache: empty and malformed updates make no difference. */
  lemma CachesAgree(us: seq<Update>, vs: seq<Update>)
    requires Consistent(us + vs)
    requires forall u: Update :: u.value.State? ==> (u in us <==> u in vs)
    ensures AbsorbAll(us) == AbsorbAll(vs)
  {
    forall server, fs ensures Lookup(AbsorbAll(us), server, fs) == Lookup(AbsorbAll(vs), server, fs) {
      NewestIsCached(us, server, fs);
      NewestIsCached(vs, server, fs);
      SameStatesSeen(us, vs, server, fs);
      var a, b := Lookup(AbsorbAll(us), server, fs), Lookup(AbsorbAll(vs), server, fs);
      if a.Some? {
        var u := Update(server, fs, State(a.value.metadata), a.value.version);
        assert u in us + vs && u in vs && About(u, server, fs);
        var v := Update(server, fs, State(b.value.metadata), b.value.version);
        assert v in us + vs && v in us && About(v, server, fs);
        assert u.modifiedIndex == v.modifiedIndex;
      }
    }
    NoEmptyServers(us);
    NoEmptyServers(vs);
    SameLookupsSameCache(AbsorbAll(us), AbsorbAll(vs));
  }

  lemma SameStatesSeen(us: seq<Update>, vs: seq<Update>, server: Server, fs: FsId)
    requires forall u: Update :: u.value.State? ==> (u in us <==> u in vs)
    ensures Seen(us, server, fs) <==> Seen(vs, server, fs)
  {
    if Seen(us, server, fs) {
      var u :| u in us && About(u, server, fs);
      assert u in vs;
    }
    if Seen(vs, server, fs) {
      var u :| u in vs && About(u, server, fs);
      assert u in us;
    }
  }

  lemma {:induction false} NoEmptyServers(us: seq<Update>)
    ensures forall server <- AbsorbAll(us) :: AbsorbAll(us)[server] != map[]
  {
    if us == [] {
    } else {
      NoEmptyServers(us[..|us| - 1]);
      var u := Last(us);
      if u.server in AbsorbAll(us) && u.value.State? {
        assert Lookup(AbsorbAll(us), u.server, u.fs).Some?;
        assert u.fs in AbsorbAll(us)[u.server];
      }
    }
  }

  lemma SameLookupsSameCache(a: Cache, b: Cache)
    requires forall server <- a :: a[server] != map[]
    requires forall server <- b :: b[server] != map[]
    requires forall server, fs :: Lookup(a, server, fs) == Lookup(b, server, fs)
    ensures a == b
  {
    forall server ensures server in a <==> server in b {
      if server in a {
        var fs :| fs in a[server];
        assert Lookup(a, server, fs) == Lookup(b, server, fs);
      }
      if server in b {
        var fs :| fs in b[server];
        assert Lookup(a, server, fs) == Lookup(b, server, fs);
      }
    }
    forall server | server in a ensures a[server] == b[server] {
      forall fs ensures fs in a[server] <==> fs in b[server] {
        assert Lookup(a, server, fs) == Lookup(b, server, fs);
      }
      forall fs | fs in a[server] ensures a[server][fs] == b[server][fs] {
        assert Lookup(a, server, fs) == Lookup(b, server, fs);
      }
    }
  }
}
