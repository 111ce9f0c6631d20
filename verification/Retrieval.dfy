/** The retrieval state machine: verified chunks in, data map resolved, plaintext out. */
module Retrieval {
  import opened Bytes
  import opened Primitives

  type Address = Bytes32

  /** A data map: the addresses it lists, whether it is a wrapper, and the rest of its contents. */
  datatype DataMap = DataMap(infos: seq<Address>, isChild: bool, secrets: Bytes)

  /**
   The functions retrieval relies on. `parseMap` reads the client's own data-map chunk, `parseInner` is how
   the library reads a map inside a wrapper; `decrypt` takes the listed chunks in the map's order;
   `maxDepth` is how many wrapper levels the library's root-map walk follows.
   */
  datatype Lib = Lib(
    crypto: Crypto,
    parseMap: Bytes -> Option<DataMap>,
    parseInner: Bytes -> Option<DataMap>,
    decrypt: (DataMap, seq<Bytes>) -> Option<Bytes>,
    maxDepth: nat)
  {
    /** A chunk's address. */
    function Hash(content: Bytes): Address {
      crypto.blake3(content)
    }
  }

  type Store = map<Address, Bytes>

  datatype RetrievalError = ChunkRejected | NotADataMap | RootUnresolved | Incomplete | DecryptionFailed

  // ----- the library's root-map walk -----

  /** The chunks at `infos`, if the store has them all. */
  function Gather(store: Store, infos: seq<Address>): (r: Option<seq<Bytes>>)
    ensures r.Some? <==> forall i :: 0 <= i < |infos| ==> infos[i] in store
  {
    if infos == [] then Some([])
    else if infos[0] !in store then None
    else
      match Gather(store, infos[1..])
      case None => None
      case Some(others) => Some([store[infos[0]]] + others)
  }

  /** The map inside a wrapper, once its chunks are there. */
  function Unwrap(lib: Lib, m: DataMap, store: Store): Option<DataMap> {
    match Gather(store, m.infos)
    case None => None
    case Some(chunks) =>
      match lib.decrypt(m, chunks)
      case None => None
      case Some(bytes) => lib.parseInner(bytes)
  }

  /** Follows wrappers down to the root map, asking the store for every wrapper chunk on the way. */
  function GetRoot(lib: Lib, m: DataMap, store: Store, depth: nat): (r: Option<DataMap>)
    ensures r.Some? ==> !r.value.isChild
    decreases depth
  {
    if !m.isChild then Some(m)
    else if depth == 0 then None
    else
      match Unwrap(lib, m, store)
      case None => None
      case Some(inner) => GetRoot(lib, inner, store, depth - 1)
  }

  // ----- the state machine on values -----

  datatype RState = RState(map_: DataMap, rootResolved: bool, cache: Store)

  /** The listed addresses the cache lacks, in order, repeats included. */
  function Missing(infos: seq<Address>, cache: Store): (r: seq<Address>)
    ensures r == [] <==> forall i :: 0 <= i < |infos| ==> infos[i] in cache
    ensures forall a :: a in r <==> a in infos && a !in cache
  {
    if infos == [] then []
    else if infos[0] in cache then Missing(infos[1..], cache)
    else [infos[0]] + Missing(infos[1..], cache)
  }

  lemma {:induction false} MissingStep(infos: seq<Address>, others: seq<Address>, cache: Store)
    requires infos != [] && infos[1..] == others
    ensures Missing(infos, cache) == (if infos[0] in cache then [] else [infos[0]]) + Missing(others, cache)
  {
  }

  /** What is missing is asked for in the order it is listed, and as often. */
  lemma {:induction false} MissingInOrder(infos: seq<Address>, cache: Store, a: Address)
    ensures Missing(infos + [a], cache) == Missing(infos, cache) + if a in cache then [] else [a]
  {
    if infos == [] {
      MissingStep(infos + [a], [], cache);
    } else {
      var others := infos[1..];
      MissingInOrder(others, cache, a);
      MissingStep(infos, others, cache);
      MissingStep(infos + [a], others + [a], cache);
      Regroup(if infos[0] in cache then [] else [infos[0]], Missing(others, cache), if a in cache then [] else [a]);
    }
  }

  function Required(s: RState): seq<Address> {
    Missing(s.map_.infos, s.cache)
  }

  predicate Complete(s: RState) {
    s.rootResolved && Required(s) == []
  }

  function BeginState(lib: Lib, address: Address, bytes: Bytes): (r: Result<RState, RetrievalError>)
    ensures r == Err(ChunkRejected) <==> lib.Hash(bytes) != address
    ensures r.Ok? <==> lib.Hash(bytes) == address && lib.parseMap(bytes).Some?
    ensures r.Ok? ==>
      && Some(r.value.map_) == lib.parseMap(bytes)
      && r.value.rootResolved == !r.value.map_.isChild && r.value.cache == map[]
  {
    if lib.Hash(bytes) != address then Err(ChunkRejected) else
    match lib.parseMap(bytes)
    case None => Err(NotADataMap)
    case Some(m) => Ok(RState(m, !m.isChild, map[]))
  }

  function SupplyState(lib: Lib, s: RState, address: Address, bytes: Bytes): (r: Result<RState, RetrievalError>)
    ensures r.Err? <==> lib.Hash(bytes) != address
    ensures r.Ok? ==>
      && r.value.map_ == s.map_ && r.value.rootResolved == s.rootResolved
      && r.value.cache.Keys == s.cache.Keys + {address} && r.value.cache[address] == bytes
      && forall a :: a in s.cache && a != address ==> r.value.cache[a] == s.cache[a]
  {
    if lib.Hash(bytes) != address then Err(ChunkRejected) else Ok(s.(cache := s.cache[address := bytes]))
  }

  /** The walk sees the cache and nothing else, and runs only once the current level is complete. */
  function AdvanceState(lib: Lib, s: RState): (r: Result<RState, RetrievalError>)
    ensures s.rootResolved || Required(s) != [] ==> r == Ok(s)
    ensures !s.rootResolved && r.Ok? && Required(s) == [] ==> r.value.rootResolved && !r.value.map_.isChild
    ensures r.Ok? ==> r.value.cache == s.cache
  {
    if s.rootResolved || Required(s) != [] then Ok(s) else
    match GetRoot(lib, s.map_, s.cache, lib.maxDepth)
    case None => Err(RootUnresolved)
    case Some(root) => Ok(RState(root, true, s.cache))
  }

  function FinishState(lib: Lib, s: RState): Result<Bytes, RetrievalError> {
    if !Complete(s) then Err(Incomplete) else
    match lib.decrypt(s.map_, Gather(s.cache, s.map_.infos).value)
    case None => Err(DecryptionFailed)
    case Some(plaintext) => Ok(plaintext)
  }

  /** Every chunk held hashes to the address it is held under. */
  predicate Sound(lib: Lib, store: Store) {
    forall a :: a in store ==> lib.Hash(store[a]) == a
  }

  // ----- the same as an object updated in place -----

  class Retrieval {
    const lib: Lib
    var map_: DataMap
    var rootResolved: bool
    var cache: Store

    ghost predicate Valid()
      reads this
    {
      Sound(lib, cache)
    }

    function View(): RState
      reads this
    {
      RState(map_, rootResolved, cache)
    }

    constructor (lib: Lib, m: DataMap)
      ensures Valid() && this.lib == lib && View() == RState(m, !m.isChild, map[])
    {
      this.lib, map_, rootResolved, cache := lib, m, !m.isChild, map[];
    }

    static method Begin(lib: Lib, address: Address, bytes: Bytes) returns (r: Result<Retrieval, RetrievalError>)
      ensures r.Err? ==> BeginState(lib, address, bytes) == Err(r.error)
      ensures r.Ok? ==> fresh(r.value) && r.value.Valid() && r.value.lib == lib
      ensures r.Ok? ==> BeginState(lib, address, bytes) == Ok(r.value.View())
    {
      if lib.Hash(bytes) != address {
        return Err(ChunkRejected);
      }
      var parsed := lib.parseMap(bytes);
      if parsed.None? {
        return Err(NotADataMap);
      }
      var it := new Retrieval(lib, parsed.value);
      r := Ok(it);
    }

    method Supply(address: Address, bytes: Bytes) returns (r: Result<(), RetrievalError>)
      requires Valid()
      modifies this
      ensures Valid()
      ensures r.Ok? ==> SupplyState(lib, old(View()), address, bytes) == Ok(View())
      ensures r.Err? ==> SupplyState(lib, old(View()), address, bytes) == Err(r.error) && View() == old(View())
    {
      if lib.Hash(bytes) != address {
        return Err(ChunkRejected);
      }
      cache := cache[address := bytes];
      r := Ok(());
    }

    method Advance() returns (r: Result<(), RetrievalError>)
      requires Valid()
      modifies this
      ensures Valid()
      ensures r.Ok? ==> AdvanceState(lib, old(View())) == Ok(View())
      ensures r.Err? ==> AdvanceState(lib, old(View())) == Err(r.error) && View() == old(View())
    {
      if rootResolved || Missing(map_.infos, cache) != [] {
        return Ok(());
      }
      var root := GetRoot(lib, map_, cache, lib.maxDepth);
      if root.None? {
        return Err(RootUnresolved);
      }
      map_ := root.value;
      rootResolved := true;
      r := Ok(());
    }
  }

  // ----- the reference: resolving an address over a content-addressed store -----

  function ResolveMap(lib: Lib, m: DataMap, store: Store): Option<Bytes> {
    match GetRoot(lib, m, store, lib.maxDepth)
    case None => None
    case Some(root) =>
      match Gather(store, root.infos)
      case None => None
      case Some(chunks) => lib.decrypt(root, chunks)
  }

  function Resolve(lib: Lib, store: Store, address: Address): Option<Bytes> {
    if address !in store then None else
    match lib.parseMap(store[address])
    case None => None
    case Some(m) => ResolveMap(lib, m, store)
  }

  /** No two of these byte strings share a hash. */
  ghost predicate CollisionFree(lib: Lib, contents: iset<Bytes>) {
    forall x, y :: x in contents && y in contents && lib.Hash(x) == lib.Hash(y) ==> x == y
  }

  predicate Agree(s: Store, t: Store) {
    forall a :: a in s && a in t ==> s[a] == t[a]
  }

  lemma SoundStoresAgree(lib: Lib, s: Store, t: Store, contents: iset<Bytes>)
    requires Sound(lib, s) && Sound(lib, t) && CollisionFree(lib, contents)
    requires forall a :: a in s ==> s[a] in contents
    requires forall a :: a in t ==> t[a] in contents
    ensures Agree(s, t)
  {
  }

  lemma {:induction false} GatherAgrees(s: Store, t: Store, infos: seq<Address>)
    requires Agree(s, t) && Gather(s, infos).Some? && Gather(t, infos).Some?
    ensures Gather(s, infos) == Gather(t, infos)
  {
    if infos != [] {
      GatherAgrees(s, t, infos[1..]);
    }
  }

  lemma {:induction false} RootAgrees(lib: Lib, m: DataMap, s: Store, t: Store, depth: nat)
    requires Agree(s, t) && GetRoot(lib, m, s, depth).Some? && GetRoot(lib, m, t, depth).Some?
    ensures GetRoot(lib, m, s, depth) == GetRoot(lib, m, t, depth)
    decreases depth
  {
    if m.isChild {
      GatherAgrees(s, t, m.infos);
      RootAgrees(lib, Unwrap(lib, m, s).value, s, t, depth - 1);
    }
  }

  /** Stores that agree where both know something never resolve a map differently. */
  lemma ResolveAgrees(lib: Lib, m: DataMap, s: Store, t: Store)
    requires Agree(s, t) && ResolveMap(lib, m, s).Some? && ResolveMap(lib, m, t).Some?
    ensures ResolveMap(lib, m, s) == ResolveMap(lib, m, t)
  {
    RootAgrees(lib, m, s, t, lib.maxDepth);
    GatherAgrees(s, t, GetRoot(lib, m, s, lib.maxDepth).value.infos);
  }

  predicate SubStore(s: Store, t: Store) {
    forall a :: a in s ==> a in t && t[a] == s[a]
  }

  /** A walk that succeeds on some chunks succeeds the same way on more. */
  lemma {:induction false} RootGrows(lib: Lib, m: DataMap, s: Store, t: Store, depth: nat)
    requires SubStore(s, t) && GetRoot(lib, m, s, depth).Some?
    ensures GetRoot(lib, m, t, depth) == GetRoot(lib, m, s, depth)
    decreases depth
  {
    if m.isChild {
      GatherAgrees(s, t, m.infos);
      RootGrows(lib, Unwrap(lib, m, s).value, s, t, depth - 1);
    }
  }

  /** The wrapper maps the walk passes through, outermost first. */
  function Wrappers(lib: Lib, m: DataMap, store: Store, depth: nat): seq<DataMap>
    decreases depth
  {
    if !m.isChild || depth == 0 then [] else
    [m] + match Unwrap(lib, m, store) case None => [] case Some(inner) => Wrappers(lib, inner, store, depth - 1)
  }

  function Restrict(store: Store, infos: seq<Address>): (r: Store)
    ensures SubStore(r, store)
    ensures forall a :: a in r <==> a in infos && a in store
  {
    map a | a in infos && a in store :: store[a]
  }

  /** A walk confined to some addresses gets through exactly when every wrapper on the way stays within them. */
  lemma {:induction false} ConfinedWalk(lib: Lib, m: DataMap, store: Store, infos: seq<Address>, depth: nat)
    requires GetRoot(lib, m, store, depth).Some?
    ensures GetRoot(lib, m, Restrict(store, infos), depth).Some?
       <==> forall w, a :: w in Wrappers(lib, m, store, depth) && a in w.infos ==> a in infos
    decreases depth
  {
    if m.isChild {
      var inner := Unwrap(lib, m, store).value;
      var small := Restrict(store, infos);
      assert Wrappers(lib, m, store, depth) == [m] + Wrappers(lib, inner, store, depth - 1);
      assert m in Wrappers(lib, m, store, depth);
      ConfinedWalk(lib, inner, store, infos, depth - 1);
      if Gather(small, m.infos).Some? {
        GatherAgrees(small, store, m.infos);
        assert forall i :: 0 <= i < |m.infos| ==> m.infos[i] in small;
        assert forall a :: a in m.infos ==> a in infos;
      } else {
        var i :| 0 <= i < |m.infos| && m.infos[i] !in small;
        assert m.infos[i] in store;
        assert m.infos[i] in m.infos && m.infos[i] !in infos;
      }
    }
  }
}
