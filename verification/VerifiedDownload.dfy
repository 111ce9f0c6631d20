/** What a download promises whatever the peers do, and when it succeeds. */
module VerifiedDownload {
  import opened Bytes
  import opened Retrieval
  import opened Download

  // ----- rounds -----

  /** At most one round for the wrapper level and one for the content. */
  lemma {:induction false} RoundsBounded(lib: Lib, world: World, s: RState, round: nat)
    ensures Rounds(lib, world, s, round).rounds <= round + if s.rootResolved then 1 else 2
    decreases !s.rootResolved, |Required(s)|
  {
    var full := SupplyRound(lib, world, round, Required(s), 0, s);
    if !Complete(s) && full.Ok? {
      assert Required(s)[0..] == Required(s);
      var next := AdvanceState(lib, full.value);
      if next.Ok? {
        RoundsBounded(lib, world, next.value, round + 1);
      }
    }
  }

  lemma AtMostTwoRounds(lib: Lib, world: World, address: Address)
    ensures DownloadOutcome(lib, world, address).rounds <= 2
  {
    var first := Fetch(lib, address, world.first);
    if first.Ok? && BeginState(lib, address, first.value).Ok? {
      RoundsBounded(lib, world, BeginState(lib, address, first.value).value, 0);
    }
  }

  // ----- nodes can refuse but cannot change the result -----

  ghost predicate LookupWithin(lookup: Lookup, contents: iset<Bytes>) {
    lookup.Listed? ==> forall i :: 0 <= i < |lookup.attempts| ==>
      match lookup.attempts[i] case Replied(Success(_, c)) => c in contents case _ => true
  }

  /** `contents` holds all chunk contents any peer would ever send. */
  ghost predicate WorldWithin(world: World, contents: iset<Bytes>) {
    && LookupWithin(world.first, contents)
    && forall round, i, a :: LookupWithin(world.later(round, i, a), contents)
  }

  ghost predicate StoreWithin(store: Store, contents: iset<Bytes>) {
    forall a :: a in store ==> store[a] in contents
  }

  lemma {:induction false} FetchedWithin(lib: Lib, address: Address, attempts: seq<Attempt>, contents: iset<Bytes>)
    requires LookupWithin(Listed(attempts), contents) && FirstServed(lib, address, attempts).Ok?
    ensures FirstServed(lib, address, attempts).value in contents
  {
    assert attempts[0] == Listed(attempts).attempts[0];
    if GetVerified(lib, address, attempts[0]).None? {
      assert LookupWithin(Listed(attempts[1..]), contents);
      FetchedWithin(lib, address, attempts[1..], contents);
    }
  }

  lemma FetchWithin(lib: Lib, address: Address, lookup: Lookup, contents: iset<Bytes>)
    requires LookupWithin(lookup, contents) && Fetch(lib, address, lookup).Ok?
    ensures Fetch(lib, address, lookup).value in contents
  {
    FetchedWithin(lib, address, lookup.attempts, contents);
  }

  /** A round adds verified chunks and touches none it had. */
  lemma {:induction false} RoundKeepsSound(lib: Lib, world: World, round: nat, addrs: seq<Address>, i: nat, s: RState,
                                           had: Store, contents: iset<Bytes>)
    requires i <= |addrs| && SupplyRound(lib, world, round, addrs, i, s).Ok?
    requires Sound(lib, s.cache) && StoreWithin(s.cache, contents) && WorldWithin(world, contents)
    requires SubStore(had, s.cache) && forall k :: 0 <= k < |addrs| ==> addrs[k] !in had
    ensures var full := SupplyRound(lib, world, round, addrs, i, s).value;
      Sound(lib, full.cache) && StoreWithin(full.cache, contents) && SubStore(had, full.cache)
    decreases |addrs| - i
  {
    if i < |addrs| {
      var lookup := world.later(round, i, addrs[i]);
      FetchWithin(lib, addrs[i], lookup, contents);
      var next := SupplyState(lib, s, addrs[i], Fetch(lib, addrs[i], lookup).value).value;
      RoundKeepsSound(lib, world, round, addrs, i + 1, next, had, contents);
    }
  }

  lemma RoundKeepsAll(lib: Lib, world: World, s: RState, round: nat, contents: iset<Bytes>)
    requires Sound(lib, s.cache) && StoreWithin(s.cache, contents) && WorldWithin(world, contents)
    requires SupplyRound(lib, world, round, Required(s), 0, s).Ok?
    ensures var full := SupplyRound(lib, world, round, Required(s), 0, s).value;
      Sound(lib, full.cache) && StoreWithin(full.cache, contents) && SubStore(s.cache, full.cache)
  {
    assert forall k :: 0 <= k < |Required(s)| ==> Required(s)[k] in Required(s);
    RoundKeepsSound(lib, world, round, Required(s), 0, s, s.cache, contents);
  }

  /** Whatever a download returns, its own verified chunks resolve to it. */
  lemma {:induction false} RoundsResolve(lib: Lib, world: World, s: RState, round: nat, contents: iset<Bytes>)
    requires Sound(lib, s.cache) && StoreWithin(s.cache, contents) && WorldWithin(world, contents)
    requires s.rootResolved ==> !s.map_.isChild
    ensures var o := Rounds(lib, world, s, round);
      && Sound(lib, o.cache) && StoreWithin(o.cache, contents) && SubStore(s.cache, o.cache)
      && (o.result.Ok? ==> ResolveMap(lib, s.map_, o.cache) == Some(o.result.value))
    decreases !s.rootResolved, |Required(s)|
  {
    var supplied := SupplyRound(lib, world, round, Required(s), 0, s);
    if !Complete(s) && supplied.Ok? {
      var full := supplied.value;
      assert Required(s)[0..] == Required(s);
      RoundKeepsAll(lib, world, s, round, contents);
      var advanced := AdvanceState(lib, full);
      if advanced.Ok? {
        RoundsResolve(lib, world, advanced.value, round + 1, contents);
        if !s.rootResolved {
          RootGrows(lib, s.map_, full.cache, Rounds(lib, world, advanced.value, round + 1).cache, lib.maxDepth);
        }
      }
    }
  }

  /** The data map a download works from, and that it resolves over the chunks it verified. */
  lemma DownloadResolves(lib: Lib, world: World, address: Address, contents: iset<Bytes>) returns (mapBytes: Bytes,
                         m: DataMap)
    requires WorldWithin(world, contents) && DownloadOutcome(lib, world, address).result.Ok?
    ensures var o := DownloadOutcome(lib, world, address);
      && lib.Hash(mapBytes) == address && mapBytes in contents && lib.parseMap(mapBytes) == Some(m)
      && Sound(lib, o.cache) && StoreWithin(o.cache, contents)
      && ResolveMap(lib, m, o.cache) == Some(o.result.value)
  {
    mapBytes := Fetch(lib, address, world.first).value;
    FetchWithin(lib, address, world.first, contents);
    m := lib.parseMap(mapBytes).value;
    RoundsResolve(lib, world, BeginState(lib, address, mapBytes).value, 0, contents);
  }

  /** Two downloads of one address that both succeed return the same bytes, whatever their peers did. */
  lemma DownloadsAgree(lib: Lib, world1: World, world2: World, address: Address, contents: iset<Bytes>)
    requires CollisionFree(lib, contents) && WorldWithin(world1, contents) && WorldWithin(world2, contents)
    requires DownloadOutcome(lib, world1, address).result.Ok? && DownloadOutcome(lib, world2, address).result.Ok?
    ensures DownloadOutcome(lib, world1, address).result == DownloadOutcome(lib, world2, address).result
  {
    var bytes1, m1 := DownloadResolves(lib, world1, address, contents);
    var bytes2, m2 := DownloadResolves(lib, world2, address, contents);
    assert bytes1 == bytes2;
    var s, t := DownloadOutcome(lib, world1, address).cache, DownloadOutcome(lib, world2, address).cache;
    SoundStoresAgree(lib, s, t, contents);
    ResolveAgrees(lib, m1, s, t);
  }

  /** And they are the bytes the address resolves to in any content-addressed store that resolves it. */
  lemma DownloadIsReference(lib: Lib, world: World, address: Address, store: Store, contents: iset<Bytes>)
    requires CollisionFree(lib, contents) && WorldWithin(world, contents)
    requires Sound(lib, store) && StoreWithin(store, contents) && Resolve(lib, store, address).Some?
    requires DownloadOutcome(lib, world, address).result.Ok?
    ensures DownloadOutcome(lib, world, address).result == Ok(Resolve(lib, store, address).value)
  {
    var mapBytes, m := DownloadResolves(lib, world, address, contents);
    assert mapBytes == store[address];
    var known := DownloadOutcome(lib, world, address).cache;
    SoundStoresAgree(lib, known, store, contents);
    ResolveAgrees(lib, m, known, store);
  }

  // ----- when it succeeds -----

  /** Some listed peer connects and serves the chunk; nothing is said about the others. */
  predicate ServedBy(lookup: Lookup, address: Address, content: Bytes) {
    lookup.Listed? && exists k :: 0 <= k < |lookup.attempts| && lookup.attempts[k] == Replied(Success(address, content))
  }

  ghost predicate Serves(world: World, store: Store, target: Address) {
    && target in store && ServedBy(world.first, target, store[target])
    && forall round, i, a :: a in store ==> ServedBy(world.later(round, i, a), a, store[a])
  }

  lemma {:induction false} ServedIsFetched(lib: Lib, address: Address, content: Bytes, attempts: seq<Attempt>, k: nat)
    requires k < |attempts| && attempts[k] == Replied(Success(address, content)) && lib.Hash(content) == address
    ensures FirstServed(lib, address, attempts).Ok?
  {
    if k > 0 && GetVerified(lib, address, attempts[0]).None? {
      ServedIsFetched(lib, address, content, attempts[1..], k - 1);
    }
  }

  /** One working peer is enough: no other peer can make the fetch fail or return something else. */
  lemma FetchFinds(lib: Lib, address: Address, lookup: Lookup, content: Bytes, contents: iset<Bytes>)
    requires CollisionFree(lib, contents) && LookupWithin(lookup, contents) && content in contents
    requires ServedBy(lookup, address, content) && lib.Hash(content) == address
    ensures Fetch(lib, address, lookup) == Ok(content)
  {
    var k :| 0 <= k < |lookup.attempts| && lookup.attempts[k] == Replied(Success(address, content));
    ServedIsFetched(lib, address, content, lookup.attempts, k);
    FetchWithin(lib, address, lookup, contents);
  }

  ghost predicate Network(lib: Lib, world: World, store: Store, target: Address, contents: iset<Bytes>) {
    && CollisionFree(lib, contents) && WorldWithin(world, contents)
    && Sound(lib, store) && StoreWithin(store, contents) && Serves(world, store, target)
  }

  lemma {:induction false} ServedRound(lib: Lib, world: World, store: Store, target: Address, contents: iset<Bytes>,
                                       round: nat, addrs: seq<Address>, i: nat, s: RState)
    requires Network(lib, world, store, target, contents)
    requires i <= |addrs| && SubStore(s.cache, store) && forall k :: 0 <= k < |addrs| ==> addrs[k] in store
    ensures var r := SupplyRound(lib, world, round, addrs, i, s);
      r.Ok? && SubStore(r.value.cache, store)
    decreases |addrs| - i
  {
    if i < |addrs| {
      FetchFinds(lib, addrs[i], world.later(round, i, addrs[i]), store[addrs[i]], contents);
      var next := SupplyState(lib, s, addrs[i], store[addrs[i]]).value;
      ServedRound(lib, world, store, target, contents, round, addrs, i + 1, next);
    }
  }

  /** Once the root map is known and its chunks are out there, the download completes. */
  lemma ServedRootFinishes(lib: Lib, world: World, store: Store, target: Address, contents: iset<Bytes>, s: RState,
                           round: nat)
    requires Network(lib, world, store, target, contents)
    requires s.rootResolved && SubStore(s.cache, store) && Gather(store, s.map_.infos).Some?
    requires lib.decrypt(s.map_, Gather(store, s.map_.infos).value).Some?
    ensures Rounds(lib, world, s, round).result == Ok(lib.decrypt(s.map_, Gather(store, s.map_.infos).value).value)
  {
    if Complete(s) {
      GatherAgrees(s.cache, store, s.map_.infos);
    } else {
      var addrs := Required(s);
      forall k | 0 <= k < |addrs| ensures addrs[k] in store {
        assert addrs[k] in addrs;
      }
      ServedRound(lib, world, store, target, contents, round, addrs, 0, s);
      assert addrs[0..] == addrs;
      var full := SupplyRound(lib, world, round, addrs, 0, s).value;
      GatherAgrees(full.cache, store, s.map_.infos);
    }
  }

  lemma {:induction false} MissingFromEmpty(infos: seq<Address>)
    ensures Missing(infos, map[]) == infos
  {
    if infos != [] {
      MissingFromEmpty(infos[1..]);
    }
  }

  /** A wrapper level is fetched in full, and the walk then sees exactly that level. */
  lemma ServedWrapperLevel(lib: Lib, world: World, store: Store, target: Address, contents: iset<Bytes>, m: DataMap)
    requires Network(lib, world, store, target, contents)
    requires m.isChild && Gather(store, m.infos).Some?
    ensures var full := SupplyRound(lib, world, 0, m.infos, 0, RState(m, false, map[]));
      full.Ok? && full.value == RState(m, false, Restrict(store, m.infos))
  {
    var s := RState(m, false, map[]);
    forall k | 0 <= k < |m.infos| ensures m.infos[k] in store { }
    ServedRound(lib, world, store, target, contents, 0, m.infos, 0, s);
    var full := SupplyRound(lib, world, 0, m.infos, 0, s).value;
    assert m.infos[0..] == m.infos;
    assert full.cache == Restrict(store, m.infos);
  }

  /**
   With one working peer per address, a download of something that resolves succeeds exactly when
   every wrapper below the outermost one lists only chunks that the outermost one lists too: one
   wrapper level always works, a deeper nest does not unless its chunks happen to be held already.
   */
  lemma DownloadSucceedsIff(lib: Lib, world: World, store: Store, address: Address, contents: iset<Bytes>)
    requires Network(lib, world, store, address, contents) && Resolve(lib, store, address).Some?
    ensures var m := lib.parseMap(store[address]).value;
      var result := DownloadOutcome(lib, world, address).result;
      var shallow := forall w, a :: w in Wrappers(lib, m, store, lib.maxDepth) && a in w.infos ==> a in m.infos;
      && (shallow ==> result == Ok(Resolve(lib, store, address).value))
      && (!shallow ==> result == Err(RetrievalFailed(RootUnresolved)))
  {
    FetchFinds(lib, address, world.first, store[address], contents);
    var m := lib.parseMap(store[address]).value;
    var s := RState(m, !m.isChild, map[]);
    assert DownloadOutcome(lib, world, address) == Rounds(lib, world, s, 0);
    if !m.isChild {
      ServedRootFinishes(lib, world, store, address, contents, s, 0);
    } else {
      MissingFromEmpty(m.infos);
      ServedWrapperLevel(lib, world, store, address, contents, m);
      ConfinedWalk(lib, m, store, m.infos, lib.maxDepth);
      var level := Restrict(store, m.infos);
      var full := RState(m, false, level);
      assert m.infos[0..] == m.infos;
      assert Required(full) == [];
      if GetRoot(lib, m, level, lib.maxDepth).Some? {
        RootGrows(lib, m, level, store, lib.maxDepth);
        var root := GetRoot(lib, m, store, lib.maxDepth).value;
        ServedRootFinishes(lib, world, store, address, contents, RState(root, true, level), 1);
      }
    }
  }
}
