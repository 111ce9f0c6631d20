/** Upload through the store protocol, lose some peers, download: the data comes back. */
module EndToEnd {
  import opened Bytes
  import opened Download
  import opened Payment
  import opened Primitives
  import opened Retrieval
  import opened SignedPayload
  import opened Split
  import opened StoreMajority
  import opened StoreTrace
  import opened Upload
  import opened VerifiedDownload
  import StoreProtocol

  /** A download's world together with the ids of the peers each of its lookups lists. */
  datatype NamedWorld = NamedWorld(world: World, first: seq<Bytes32>, later: (nat, nat, Address) -> seq<Bytes32>)

  /** The peers that said they have the item's chunk: by a verified report, or by accepting it. */
  ghost function Holders(c: Crypto, p: Parts, item: Item): set<Bytes32> {
    if p.payRun == [] then Reporters(c, p.quoteRun, item.address)
      else AcceptingPeers(p.putRun, item.address, item.content)
  }

  /** The node's reply says that it has the chunk, and carries its own signed quote for it. */
  predicate SaysStored(c: Crypto, e: Event, a: Address, id: Bytes32) {
    && e.QuoteAsked? && e.peerId == id && e.response.Some? && e.response.value.alreadyStored
    && ParseQuote(e.response.value.quote).Ok?
    && var q := ParseQuote(e.response.value.quote).value;
       && q.content == a && c.blake3(q.pubKey) == id && |q.pubKey| == 1952 && |q.signature| == 3309
       && c.mlDsaVerify(q.pubKey, SigPayload(q), q.signature)
  }

  /** The node was sent this chunk and answered that it stored it, or had it already. */
  predicate TookChunk(e: Event, item: Item, id: Bytes32) {
    && e.PutSent? && e.peerId == id && e.address == item.address && e.content == item.content
    && (e.reply.Stored? || e.reply.AlreadyExists?)
  }

  /** Each holder said so itself during the run. */
  lemma HoldersSaidSo(c: Crypto, p: Parts, item: Item, id: Bytes32)
    requires id in Holders(c, p, item)
    ensures (exists k :: 0 <= k < |p.quoteRun| && SaysStored(c, p.quoteRun[k], item.address, id))
         || (exists k :: 0 <= k < |p.putRun| && TookChunk(p.putRun[k], item, id))
  {
    if p.payRun == [] {
      var k :| 0 <= k < |p.quoteRun| && IsVerifiedReport(c, p.quoteRun[k], item.address) && p.quoteRun[k].peerId == id;
      assert SaysStored(c, p.quoteRun[k], item.address, id);
    } else {
      var k :| 0 <= k < |p.putRun| && IsAcceptedPut(p.putRun[k]) && p.putRun[k].address == item.address
        && p.putRun[k].content == item.content && p.putRun[k].peerId == id;
      assert TookChunk(p.putRun[k], item, id);
    }
  }

  /** Those of the first seven listed peers that a later lookup does not list, or that do not reply to it. */
  ghost function Silent(peers: seq<PeerInfo>, lookup: Lookup, names: seq<Bytes32>): set<Bytes32>
    requires |peers| >= CLOSE_GROUP_SIZE
  {
    set i | 0 <= i < CLOSE_GROUP_SIZE && !Replies(lookup, names, peers[i].peerId) :: peers[i].peerId
  }

  predicate Replies(lookup: Lookup, names: seq<Bytes32>, id: Bytes32) {
    && lookup.Listed? && |names| == |lookup.attempts|
    && exists k :: 0 <= k < |names| && names[k] == id && lookup.attempts[k].Replied?
  }

  /** A holder that replies serves the item. Other peers may answer anything. */
  ghost predicate HoldersKeep(lookup: Lookup, names: seq<Bytes32>, holders: set<Bytes32>, item: Item) {
    lookup.Listed? && |names| == |lookup.attempts| ==>
      forall k :: 0 <= k < |names| && names[k] in holders && lookup.attempts[k].Replied? ==>
        lookup.attempts[k] == Replied(Success(item.address, item.content))
  }

  /** At most three of the seven peers an item was stored with are silent, and its holders keep it. */
  ghost predicate QuorumLeft(c: Crypto, p: Parts, item: Item, lookup: Lookup, names: seq<Bytes32>) {
    && p.discovered.Discovered? && p.discovered.peers.Some? && |p.discovered.peers.value| >= CLOSE_GROUP_SIZE
    && |Silent(p.discovered.peers.value, lookup, names)| < CLOSE_GROUP_MAJORITY
    && HoldersKeep(lookup, names, Holders(c, p, item), item)
  }

  ghost predicate QuorumFor(c: Crypto, items: seq<Item>, runs: seq<Parts>, a: Address, lookup: Lookup,
                            names: seq<Bytes32>) {
    && |runs| == |items|
    && forall i :: 0 <= i < |items| && items[i].address == a ==> QuorumLeft(c, runs[i], items[i], lookup, names)
  }

  ghost predicate QuorumWorld(c: Crypto, items: seq<Item>, runs: seq<Parts>, target: Address, w: NamedWorld) {
    && QuorumFor(c, items, runs, target, w.world.first, w.first)
    && forall round, j, a :: QuorumFor(c, items, runs, a, w.world.later(round, j, a), w.later(round, j, a))
  }

  /** Discovery listed seven different peers first, for every item. */
  ghost predicate DistinctListings(runs: seq<Parts>) {
    forall i :: 0 <= i < |runs| ==>
      runs[i].discovered.Discovered? && runs[i].discovered.peers.Some? && DistinctPeers(runs[i].discovered.peers.value)
  }

  /** At least four of the seven listed peers said they have the item. */
  ghost predicate Held(c: Crypto, p: Parts, item: Item) {
    && p.discovered.Discovered? && p.discovered.peers.Some? && |p.discovered.peers.value| >= CLOSE_GROUP_SIZE
    && |Holders(c, p, item)| >= CLOSE_GROUP_MAJORITY
    && Holders(c, p, item) <= PeersAt(Below(CLOSE_GROUP_SIZE), p.discovered.peers.value)
  }

  ghost predicate AllHeld(c: Crypto, items: seq<Item>, runs: seq<Parts>) {
    |runs| == |items| && forall i :: 0 <= i < |items| ==> Held(c, runs[i], items[i])
  }

  /** A finished store of an item leaves it with at least four of the seven peers. */
  lemma FourHolders(c: Crypto, p: Parts, item: Item, token: Bytes20, vault: Bytes20)
    requires StoreRun(c, p, item.address, item.content, token, vault, Ok(()))
    requires p.discovered.peers.Some? && DistinctPeers(p.discovered.peers.value)
    ensures Held(c, p, item)
  {
    if p.payRun == [] {
      UnpaidMeansFourPeers(c, p, item.address, item.content, token, vault);
      ReportersAreListed(c, p.quoteRun, item.address, |item.content|, p.discovered.peers.value, p.quoted);
    } else {
      PaidMeansFourPeers(c, p, item.address, item.content, token, vault);
      AcceptorsAreListed(c, p, item.address, item.content, token, vault);
    }
  }

  lemma ReportersAreListed(c: Crypto, run: seq<Event>, address: Bytes32, size: nat, peers: seq<PeerInfo>,
                           quoted: seq<QuotedPeer>)
    requires QuotePhaseRun(c, run, address, size, peers, quoted)
    ensures Reporters(c, run, address) <= PeersAt(Below(CLOSE_GROUP_SIZE), peers)
  {
    StoredPositionsAreReporters(c, run, address, size, peers, quoted);
  }

  lemma AcceptorsAreListed(c: Crypto, p: Parts, address: Bytes32, content: Bytes, token: Bytes20, vault: Bytes20)
    requires StoreRun(c, p, address, content, token, vault, Ok(())) && p.payRun != []
    ensures p.discovered.peers.Some?
    ensures AcceptingPeers(p.putRun, address, content) <= PeersAt(Below(CLOSE_GROUP_SIZE), p.discovered.peers.value)
  {
    var peers, run := p.discovered.peers.value, p.putRun;
    forall id | id in AcceptingPeers(run, address, content) ensures id in PeersAt(Below(CLOSE_GROUP_SIZE), peers) {
      var k :| 0 <= k < |run| && IsAcceptedPut(run[k]) && run[k].peerId == id;
      var i := run[k].position;
      assert id == p.quoted[i].peerId;
      assert QuoteOnRecord(c, p.quoteRun, address, peers, p.quoted, i);
      assert i in Below(CLOSE_GROUP_SIZE);
    }
  }

  /** Four holders and three silent peers among seven leave a holder that serves. */
  lemma QuorumServes(c: Crypto, p: Parts, item: Item, lookup: Lookup, names: seq<Bytes32>)
    requires QuorumLeft(c, p, item, lookup, names) && Held(c, p, item)
    ensures ServedBy(lookup, item.address, item.content)
  {
    var peers := p.discovered.peers.value;
    var id := OutsideSmaller(Holders(c, p, item), Silent(peers, lookup, names));
    assert id in PeersAt(Below(CLOSE_GROUP_SIZE), peers);
    var i :| i in Below(CLOSE_GROUP_SIZE) && i < |peers| && peers[i].peerId == id;
    assert Replies(lookup, names, id);
    var k :| 0 <= k < |names| && names[k] == id && lookup.attempts[k].Replied?;
    assert lookup.attempts[k] == Replied(Success(item.address, item.content));
  }

  lemma UploadIsHeld(c: Crypto, items: seq<Item>, runs: seq<Parts>, token: Bytes20, vault: Bytes20)
    requires |runs| == |items| && DistinctListings(runs) &&
      StoreProtocol.AllStored(c, runs, items, token, vault, |runs|)
    ensures AllHeld(c, items, runs)
  {
    forall i | 0 <= i < |items| ensures Held(c, runs[i], items[i]) {
      FourHolders(c, runs[i], items[i], token, vault);
    }
  }

  /** Every chunk of the store is one of the items. */
  predicate Holds(items: seq<Item>, store: Store) {
    forall a :: a in store ==> Item(a, store[a]) in items
  }

  lemma LookupServes(c: Crypto, store: Store, items: seq<Item>, runs: seq<Parts>, a: Address, lookup: Lookup,
                     names: seq<Bytes32>)
    requires Holds(items, store) && a in store && AllHeld(c, items, runs)
    requires QuorumFor(c, items, runs, a, lookup, names)
    ensures ServedBy(lookup, a, store[a])
  {
    var i :| 0 <= i < |items| && items[i] == Item(a, store[a]);
    QuorumServes(c, runs[i], items[i], lookup, names);
  }

  lemma FirstServes(c: Crypto, store: Store, items: seq<Item>, runs: seq<Parts>, target: Address, w: NamedWorld)
    requires Holds(items, store) && target in store && AllHeld(c, items, runs)
    requires QuorumWorld(c, items, runs, target, w)
    ensures ServedBy(w.world.first, target, store[target])
  {
    LookupServes(c, store, items, runs, target, w.world.first, w.first);
  }

  lemma LaterServes(c: Crypto, store: Store, items: seq<Item>, runs: seq<Parts>, target: Address, w: NamedWorld,
                    round: nat, j: nat, a: Address)
    requires Holds(items, store) && a in store && AllHeld(c, items, runs)
    requires QuorumWorld(c, items, runs, target, w)
    ensures ServedBy(w.world.later(round, j, a), a, store[a])
  {
    LookupServes(c, store, items, runs, a, w.world.later(round, j, a), w.later(round, j, a));
  }

  lemma StoreServed(c: Crypto, store: Store, items: seq<Item>, runs: seq<Parts>, target: Address, w: NamedWorld)
    requires Holds(items, store) && target in store && AllHeld(c, items, runs)
    requires QuorumWorld(c, items, runs, target, w)
    ensures Serves(w.world, store, target)
  {
    FirstServes(c, store, items, runs, target, w);
    forall round, j, a | a in store ensures ServedBy(w.world.later(round, j, a), a, store[a]) {
      LaterServes(c, store, items, runs, target, w, round, j, a);
    }
  }

  /**
   After an upload that ended well, with seven different peers listed for every item: as long as at most three
   of an item's seven peers are silent and the peers that said they have it keep it, downloading the returned
   address gives the data, exactly when its wrappers are shallow.
   */
  lemma UploadOutlivesThreePeers(lib: Lib, enc: Encryptor, data: Bytes, runs: seq<Parts>, token: Bytes20,
                                 vault: Bytes20,
                                 address: Address, w: NamedWorld, contents: iset<Bytes>)
    requires LibraryContract(lib, enc) && Prepare(lib, enc, data).Ok?
    requires CollisionFree(lib, contents) && WorldWithin(w.world, contents)
    requires ItemsWithin(Prepare(lib, enc, data).value.items, contents)
    requires StoreProtocol.Uploaded(lib.crypto, Prepare(lib, enc, data), runs, token, vault, Ok(address))
    requires DistinctListings(runs)
    requires QuorumWorld(lib.crypto, Prepare(lib, enc, data).value.items, runs, address, w)
    ensures var m := enc.shrink(enc.encrypt(data).value.map_).value.map_;
      var wrappers := Wrappers(lib, m, StoreOf(Prepare(lib, enc, data).value.items), lib.maxDepth);
      var shallow := forall v, a :: v in wrappers && a in v.infos ==> a in m.infos;
      && (DownloadOutcome(lib, w.world, address).result == Ok(data) <==> shallow)
      && (|wrappers| <= 1 ==> shallow)
  {
    var p := Prepare(lib, enc, data).value;
    ItemsAreNamedByHash(lib, enc, data);
    UploadResolves(lib, enc, data, contents);
    StoreOfItems(lib, p.items);
    UploadIsHeld(lib.crypto, p.items, runs, token, vault);
    StoreServed(lib.crypto, StoreOf(p.items), p.items, runs, p.mapAddress, w);
    DownloadReturnsUpload(lib, enc, data, w.world, contents);
  }
}
