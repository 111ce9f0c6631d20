/** The client that stores a chunk: it runs the protocol against a world it does not control. */
module StoreProtocol {
  import opened Bytes
  import MsgPack
  import opened Payment
  import opened Primitives
  import opened SignedPayload
  import opened Split
  import opened U256
  import opened Calldata
  import opened StoreTrace
  import Retrieval
  import Tunnel
  import Upload

  /** How the network and the wallet answer, by the number of interactions that came before: any answers at all. */
  datatype World = World(
    discover: nat -> Option<seq<PeerInfo>>,
    dial: nat -> Dial,
    quote: nat -> Option<QuoteReply>,
    pay: nat -> PayReply,
    put: nat -> PutReply,
    others: nat -> Interference)

  /** A transport that opens takes this client's hello and brings a frame back. */
  datatype Dial = NoTransport | Answered(ek: Bytes, accept: Bytes)

  /** Whom a dial pinned to `peerId` reaches, if anyone. */
  function Reached(c: Crypto, dial: Dial, peerId: Bytes32): (r: Option<Bytes32>)
    ensures r.Some? ==> r.value == peerId
    ensures r.Some? <==> dial.Answered? && Tunnel.FinishHandshake(c, dial.ek, dial.accept, Some(peerId)).Ok?
  {
    match dial
    case NoTransport => None
    case Answered(ek, accept) =>
      match Tunnel.FinishHandshake(c, ek, accept, Some(peerId))
      case Err(_) => None
      case Ok(established) =>
        Tunnel.PinnedHandshake(c, ek, accept, peerId, established);
        Some(established.peerId)
  }

  datatype Connection = Connection(peerId: Bytes32, openedAt: nat)

  /**
   What other tasks sharing the pool do while this one waits: evict some peers, pool connections of their own
   to others.
   */
  datatype Interference = Interference(evicted: set<Bytes32>, added: map<Bytes32, nat>)

  function Disturbed(pool: map<Bytes32, Connection>, others: Interference): map<Bytes32, Connection> {
    map id | id in (pool.Keys - others.evicted) + others.added.Keys ::
      if id in others.added then Connection(id, others.added[id]) else pool[id]
  }

  datatype QuotesResult = Collected | AlreadyStored | NotCollected(position: nat) | Lost(position: nat)

  /** What comes of the next listed peer. */
  datatype PeerResult = Kept(q: QuotedPeer, conn: Connection) | Majority | Refusing | Gone

  datatype UploadError = NotPrepared(why: Upload.PrepareError) | NotStored(item: nat, failure: StoreError)

  // ----- steps of the phases, on traces -----

  /** What was tried at one peer: refused on every event but perhaps the last, which is the outcome. */
  predicate QuotedAfter(c: Crypto, run: seq<Event>, position: nat, peerId: Bytes32, address: Bytes32, size: nat,
                        outcome: QuoteOutcome) {
    && QuoteTries(c, run, position, peerId, address, size)
    && run != [] && run[|run| - 1].QuoteAsked? && run[|run| - 1].outcome == outcome
    && Count(run, IsAsked) <= QUOTE_ATTEMPTS
    && (outcome.Refused? ==> forall a: nat :: a < QUOTE_ATTEMPTS ==> QuoteRefused(run, position, a))
  }

  lemma StoredByTries(c: Crypto, run: seq<Event>, position: nat, peerId: Bytes32, address: Bytes32, size: nat,
                      outcome: QuoteOutcome)
    requires QuotedAfter(c, run, position, peerId, address, size, outcome)
    ensures StoredPositions(run) == if outcome.Valid? && outcome.alreadyStored then {position} else {}
  {
    var last := |run| - 1;
    assert IsStoredReport(run[last]) ==> position in StoredPositions(run);
  }

  lemma QuoteStaysOnRecord(c: Crypto, run: seq<Event>, more: seq<Event>, address: Bytes32,
                           peers: seq<PeerInfo>, quoted: seq<QuotedPeer>, q: seq<QuotedPeer>, i: nat)
    requires i < |peers| && i < |quoted| && QuoteOnRecord(c, run, address, peers, quoted, i)
    requires quoted <= q
    ensures QuoteOnRecord(c, run + more, address, peers, q, i)
  {
    var k :| 0 <= k < |run| && run[k].QuoteAsked? && run[k].position == i && run[k].peerId == peers[i].peerId
      && run[k].outcome.Valid? && run[k].outcome.quote == quoted[i].quote &&
        run[k].outcome.commitment == quoted[i].commitment;
    assert (run + more)[k] == run[k];
  }

  lemma QuoteRefusedStays(run: seq<Event>, tries: seq<Event>, position: nat, attempt: nat)
    requires QuoteRefused(tries, position, attempt)
    ensures QuoteRefused(run + tries, position, attempt)
  {
    var k :| 0 <= k < |tries| && tries[k].QuoteAsked? && tries[k].position == position && tries[k].attempt == attempt
      && tries[k].outcome.Refused?;
    assert (run + tries)[|run| + k] == tries[k];
  }

  lemma RefusedEarlierStays(run: seq<Event>, more: seq<Event>, position: nat, attempt: nat)
    requires QuoteRefused(run, position, attempt)
    ensures QuoteRefused(run + more, position, attempt)
  {
    var k :| 0 <= k < |run| && run[k].QuoteAsked? && run[k].position == position && run[k].attempt == attempt
      && run[k].outcome.Refused?;
    assert (run + more)[k] == run[k];
  }

  /** `n` refused attempts at one peer, and nothing else that counts. */
  predicate TriedSoFar(c: Crypto, run: seq<Event>, position: nat, peerId: Bytes32, address: Bytes32, size: nat,
                       n: nat) {
    && QuoteTries(c, run, position, peerId, address, size) && Count(run, IsAsked) == n <= QUOTE_ATTEMPTS
    && (forall k :: 0 <= k < |run| && run[k].QuoteAsked? ==> run[k].outcome.Refused? && run[k].attempt < n)
    && (forall a: nat :: a < n ==> QuoteRefused(run, position, a))
  }

  lemma TryCounts(step: seq<Event>)
    requires 1 <= |step| <= 2 && step[|step| - 1].QuoteAsked?
    requires |step| == 2 ==> step[0].Dialed?
    ensures Count(step, IsAsked) == 1
  {
    CountNone(step[..|step| - 1], IsAsked);
  }

  predicate TryEvent(c: Crypto, e: Event, position: nat, attempt: nat, peerId: Bytes32, address: Bytes32, size: nat) {
    e.QuoteAsked? && e.position == position && e.attempt == attempt && AsksFor(c, e, peerId, address, size)
  }

  lemma TriesExtend(c: Crypto, run: seq<Event>, step: seq<Event>, position: nat, peerId: Bytes32, address: Bytes32,
                    size: nat, attempt: nat)
    requires TriedSoFar(c, run, position, peerId, address, size, attempt) && attempt < QUOTE_ATTEMPTS
    requires 1 <= |step| <= 2 && TryEvent(c, step[|step| - 1], position, attempt, peerId, address, size)
    requires |step| == 2 ==> step[0].Dialed? && step[0].peerId == peerId
    requires attempt > 0 ==> |step| == 2
    ensures QuoteTries(c, run + step, position, peerId, address, size)
  {
    var all := run + step;
    forall k | 0 <= k < |run| && run[k].QuoteAsked? && run[k].attempt > 0 ensures JustDialed(all, k, peerId) {
      assert JustDialed(run, k, peerId);
    }
    assert attempt > 0 ==> JustDialed(all, |all| - 1, peerId);
  }

  lemma TryExtends(c: Crypto, run: seq<Event>, step: seq<Event>, position: nat, peerId: Bytes32, address: Bytes32,
                   size: nat, attempt: nat)
    requires TriedSoFar(c, run, position, peerId, address, size, attempt) && attempt < QUOTE_ATTEMPTS
    requires 1 <= |step| <= 2 && TryEvent(c, step[|step| - 1], position, attempt, peerId, address, size)
    requires |step| == 2 ==> step[0].Dialed? && step[0].peerId == peerId
    requires attempt > 0 ==> |step| == 2
    ensures var outcome := step[|step| - 1].outcome;
      && (outcome.Refused? ==> TriedSoFar(c, run + step, position, peerId, address, size, attempt + 1))
      && (outcome.Valid? || attempt + 1 == QUOTE_ATTEMPTS ==>
            QuotedAfter(c, run + step, position, peerId, address, size, outcome))
  {
    var all, outcome := run + step, step[|step| - 1].outcome;
    TriesExtend(c, run, step, position, peerId, address, size, attempt);
    CountConcat(run, step, IsAsked);
    TryCounts(step);
    assert all[|all| - 1] == step[|step| - 1];
    if outcome.Refused? {
      forall a: nat | a < attempt + 1 ensures QuoteRefused(all, position, a) {
        if a < attempt {
          RefusedEarlierStays(run, step, position, a);
        }
      }
    }
  }

  lemma TriesAndEvict(c: Crypto, run: seq<Event>, position: nat, peerId: Bytes32, address: Bytes32, size: nat)
    requires QuoteTries(c, run, position, peerId, address, size)
    requires forall k :: 0 <= k < |run| && run[k].QuoteAsked? ==> run[k].outcome.Refused?
    ensures QuoteTries(c, run + [Evicted(peerId)], position, peerId, address, size)
  {
    var all := run + [Evicted(peerId)];
    forall k | 0 <= k < |run| && run[k].QuoteAsked? && run[k].attempt > 0 ensures JustDialed(all, k, peerId) {
      assert JustDialed(run, k, peerId);
    }
  }

  lemma EvictExtends(c: Crypto, run: seq<Event>, position: nat, peerId: Bytes32, address: Bytes32, size: nat, n: nat)
    requires TriedSoFar(c, run, position, peerId, address, size, n)
    ensures TriedSoFar(c, run + [Evicted(peerId)], position, peerId, address, size, n)
  {
    TriesAndEvict(c, run, position, peerId, address, size);
    CountConcat(run, [Evicted(peerId)], IsAsked);
    CountNone([Evicted(peerId)], IsAsked);
    forall a: nat | a < n ensures QuoteRefused(run + [Evicted(peerId)], position, a) {
      RefusedEarlierStays(run, [Evicted(peerId)], position, a);
    }
  }

  /** The first `n` peers were asked; those that gave a quote did so in order. */
  ghost predicate Asked(c: Crypto, run: seq<Event>, address: Bytes32, size: nat, peers: seq<PeerInfo>,
                        quoted: seq<QuotedPeer>, n: nat) {
    && |quoted| <= n <= CLOSE_GROUP_SIZE <= |peers|
    && AskedInOrder(run)
    && AskedOfListed(c, run, address, size, peers)
    && (forall k :: 0 <= k < |run| ==> IsQuoteEvent(run[k]) && (run[k].QuoteAsked? ==> run[k].position < n))
    && (forall i :: 0 <= i < |quoted| ==> QuoteOnRecord(c, run, address, peers, quoted, i))
    && Count(run, IsAsked) <= QUOTE_ATTEMPTS * n
    && (forall i :: i in StoredPositions(run) ==> i < n)
  }

  lemma OrderedMore(run: seq<Event>, tries: seq<Event>, n: nat)
    requires AskedInOrder(run) && AskedInOrder(tries)
    requires forall k :: 0 <= k < |run| && run[k].QuoteAsked? ==> run[k].position < n
    requires forall k :: 0 <= k < |tries| && tries[k].QuoteAsked? ==> tries[k].position == n
    ensures AskedInOrder(run + tries)
  {
  }

  lemma ListedMore(c: Crypto, run: seq<Event>, tries: seq<Event>, address: Bytes32, size: nat, peers: seq<PeerInfo>,
                   n: nat)
    requires n < CLOSE_GROUP_SIZE <= |peers|
    requires AskedOfListed(c, run, address, size, peers) && QuoteTries(c, tries, n, peers[n].peerId, address, size)
    ensures AskedOfListed(c, run + tries, address, size, peers)
  {
  }

  lemma RecordsStay(c: Crypto, run: seq<Event>, more: seq<Event>, address: Bytes32, peers: seq<PeerInfo>,
                    quoted: seq<QuotedPeer>)
    requires |quoted| <= |peers| && forall i :: 0 <= i < |quoted| ==> QuoteOnRecord(c, run, address, peers, quoted, i)
    ensures forall i :: 0 <= i < |quoted| ==> QuoteOnRecord(c, run + more, address, peers, quoted, i)
  {
    forall i | 0 <= i < |quoted| ensures QuoteOnRecord(c, run + more, address, peers, quoted, i) {
      QuoteStaysOnRecord(c, run, more, address, peers, quoted, quoted, i);
    }
  }

  lemma AskedOneMore(c: Crypto, run: seq<Event>, tries: seq<Event>, address: Bytes32, size: nat, peers: seq<PeerInfo>,
                     quoted: seq<QuotedPeer>, n: nat, outcome: QuoteOutcome)
    requires Asked(c, run, address, size, peers, quoted, n) && n < CLOSE_GROUP_SIZE
    requires QuotedAfter(c, tries, n, peers[n].peerId, address, size, outcome)
    ensures Asked(c, run + tries, address, size, peers, quoted, n + 1)
    ensures |StoredPositions(run + tries)| == |StoredPositions(run)| + if outcome.Valid? &&
      outcome.alreadyStored then 1 else 0
    ensures outcome.Refused? ==> forall a: nat :: a < QUOTE_ATTEMPTS ==> QuoteRefused(run + tries, n, a)
  {
    CountConcat(run, tries, IsAsked);
    PositionsOfConcat(run, tries);
    StoredByTries(c, tries, n, peers[n].peerId, address, size, outcome);
    OrderedMore(run, tries, n);
    ListedMore(c, run, tries, address, size, peers, n);
    RecordsStay(c, run, tries, address, peers, quoted);
    if outcome.Refused? {
      forall a: nat | a < QUOTE_ATTEMPTS ensures QuoteRefused(run + tries, n, a) {
        QuoteRefusedStays(run, tries, n, a);
      }
    }
  }

  lemma AskedIsPhase(c: Crypto, run: seq<Event>, address: Bytes32, size: nat, peers: seq<PeerInfo>,
                     quoted: seq<QuotedPeer>, n: nat)
    requires Asked(c, run, address, size, peers, quoted, n)
    ensures QuotePhaseRun(c, run, address, size, peers, quoted)
  {
  }

  function QuotedBy(peerId: Bytes32, outcome: QuoteOutcome): QuotedPeer
    requires outcome.Valid?
  {
    QuotedPeer(peerId, outcome.quote, outcome.commitment)
  }

  /** The run so far ends with a verified quote of the peer at position `n`. */
  predicate JustQuoted(c: Crypto, run: seq<Event>, address: Bytes32, peerId: Bytes32, n: nat, outcome: QuoteOutcome) {
    && outcome.Valid? && Verified(c, outcome.quote, address, peerId)
    && run != [] && run[|run| - 1].QuoteAsked? && run[|run| - 1].position == n && run[|run| - 1].peerId == peerId
    && run[|run| - 1].outcome == outcome
  }

  lemma QuotedIsOnRecord(c: Crypto, run: seq<Event>, address: Bytes32, peers: seq<PeerInfo>, q: seq<QuotedPeer>,
                         outcome: QuoteOutcome)
    requires 0 < |q| <= |peers| && JustQuoted(c, run, address, peers[|q| - 1].peerId, |q| - 1, outcome)
    requires q[|q| - 1] == QuotedBy(peers[|q| - 1].peerId, outcome)
    ensures QuoteOnRecord(c, run, address, peers, q, |q| - 1)
  {
  }

  lemma RecordsMore(c: Crypto, run: seq<Event>, address: Bytes32, peers: seq<PeerInfo>, quoted: seq<QuotedPeer>,
                    outcome: QuoteOutcome)
    requires |quoted| < |peers| && JustQuoted(c, run, address, peers[|quoted|].peerId, |quoted|, outcome)
    requires forall i :: 0 <= i < |quoted| ==> QuoteOnRecord(c, run, address, peers, quoted, i)
    ensures var q := quoted + [QuotedBy(peers[|quoted|].peerId, outcome)];
      forall i :: 0 <= i < |q| ==> QuoteOnRecord(c, run, address, peers, q, i)
  {
    var q := quoted + [QuotedBy(peers[|quoted|].peerId, outcome)];
    assert run + [] == run;
    forall i | 0 <= i < |q| ensures QuoteOnRecord(c, run, address, peers, q, i) {
      if i < |quoted| {
        QuoteStaysOnRecord(c, run, [], address, peers, quoted, q, i);
      } else {
        QuotedIsOnRecord(c, run, address, peers, q, outcome);
      }
    }
  }

  lemma AskedAndQuoted(c: Crypto, run: seq<Event>, address: Bytes32, size: nat, peers: seq<PeerInfo>,
                       quoted: seq<QuotedPeer>, outcome: QuoteOutcome)
    requires |quoted| < CLOSE_GROUP_SIZE && Asked(c, run, address, size, peers, quoted, |quoted| + 1)
    requires JustQuoted(c, run, address, peers[|quoted|].peerId, |quoted|, outcome)
    ensures Asked(c, run, address, size, peers, quoted + [QuotedBy(peers[|quoted|].peerId, outcome)], |quoted| + 1)
  {
    RecordsMore(c, run, address, peers, quoted, outcome);
  }

  /** Dialing once more asks nothing. */
  lemma AskedAndDialed(c: Crypto, run: seq<Event>, dial: seq<Event>, address: Bytes32, size: nat, peers: seq<PeerInfo>,
                       quoted: seq<QuotedPeer>, n: nat)
    requires Asked(c, run, address, size, peers, quoted, n)
    requires forall k :: 0 <= k < |dial| ==> dial[k].Dialed?
    ensures Asked(c, run + dial, address, size, peers, quoted, n)
    ensures StoredPositions(run + dial) == StoredPositions(run)
  {
    CountConcat(run, dial, IsAsked);
    CountNone(dial, IsAsked);
    PositionsOfConcat(run, dial);
    assert StoredPositions(dial) == {};
    RecordsStay(c, run, dial, address, peers, quoted);
  }

  lemma QuotedAndDialed(c: Crypto, run: seq<Event>, dial: seq<Event>, address: Bytes32, size: nat, peers: seq<PeerInfo>,
                        quoted: seq<QuotedPeer>, outcome: QuoteOutcome)
    requires |quoted| < CLOSE_GROUP_SIZE && Asked(c, run, address, size, peers, quoted, |quoted| + 1)
    requires JustQuoted(c, run, address, peers[|quoted|].peerId, |quoted|, outcome)
    requires forall k :: 0 <= k < |dial| ==> dial[k].Dialed?
    ensures Asked(c, run + dial, address, size, peers, quoted, |quoted| + 1)
    ensures Asked(c, run + dial, address, size, peers, quoted + [QuotedBy(peers[|quoted|].peerId, outcome)],
      |quoted| + 1)
    ensures StoredPositions(run + dial) == StoredPositions(run)
    ensures dial == [Dialed(peers[|quoted|].peerId, false)] ==>
      LostAfterQuote(run + dial, |quoted|, peers[|quoted|].peerId)
  {
    AskedAndQuoted(c, run, address, size, peers, quoted, outcome);
    AskedAndDialed(c, run, dial, address, size, peers, quoted, |quoted| + 1);
    AskedAndDialed(c, run, dial, address, size, peers, quoted + [QuotedBy(peers[|quoted|].peerId, outcome)],
      |quoted| + 1);
  }

  /** PUTs to one peer: the k-th try is the k-th event, and only the last can be accepted. */
  predicate PutTries(run: seq<Event>, position: nat, peerId: Bytes32, address: Bytes32, content: Bytes, proof: Bytes,
                     accepted: bool) {
    && |run| <= QUOTE_ATTEMPTS && run != []
    && (forall k :: 0 <= k < |run| ==>
          && run[k].PutSent?
          && run[k] == PutSent(position, k, peerId, address, content, proof, run[k].reply)
          && (IsAcceptedPut(run[k]) <==> accepted && k == |run| - 1))
    && (!accepted ==> |run| == QUOTE_ATTEMPTS)
  }

  lemma AcceptedByTries(run: seq<Event>, position: nat, peerId: Bytes32, address: Bytes32, content: Bytes,
                        proof: Bytes, accepted: bool)
    requires PutTries(run, position, peerId, address, content, proof, accepted)
    ensures AcceptedPositions(run) == if accepted then {position} else {}
    ensures Count(run, IsPut) <= QUOTE_ATTEMPTS
    ensures !accepted ==> forall a: nat :: a < QUOTE_ATTEMPTS ==> PutTried(run, position, a)
  {
    CountAll(run, IsPut);
    var last := |run| - 1;
    assert IsAcceptedPut(run[last]) ==> run[last].position in AcceptedPositions(run);
    if !accepted {
      forall a: nat | a < QUOTE_ATTEMPTS ensures PutTried(run, position, a) {
        assert run[a].attempt == a;
      }
    }
  }

  lemma PutTriedStays(run: seq<Event>, more: seq<Event>, position: nat, attempt: nat)
    requires PutTried(run, position, attempt) || PutTried(more, position, attempt)
    ensures PutTried(run + more, position, attempt)
  {
    if PutTried(run, position, attempt) {
      var k :| 0 <= k < |run| && run[k].PutSent? && run[k].position == position && run[k].attempt == attempt;
      assert (run + more)[k] == run[k];
    } else {
      var k :| 0 <= k < |more| && more[k].PutSent? && more[k].position == position && more[k].attempt == attempt;
      assert (run + more)[|run| + k] == more[k];
    }
  }

  lemma PutOrderMore(run: seq<Event>, tries: seq<Event>, n: nat)
    requires forall k :: 0 <= k < |run| ==> run[k].PutSent? && run[k].position < n
    requires forall k :: 0 <= k < |tries| ==> tries[k].PutSent? && tries[k].position == n
    requires forall k :: 0 <= k < |tries| - 1 ==> !IsAcceptedPut(tries[k])
    requires PutInOrder(run)
    ensures forall k :: 0 <= k < |run + tries| ==> (run + tries)[k].PutSent?
    ensures PutInOrder(run + tries)
  {
  }

  lemma PutsForMore(run: seq<Event>, tries: seq<Event>, quoted: seq<QuotedPeer>, n: nat, address: Bytes32,
                    content: Bytes,
                    proof: Bytes, accepted: bool)
    requires n < |quoted| && PutsFor(run, quoted, n, address, content, proof)
    requires PutTries(tries, n, quoted[n].peerId, address, content, proof, accepted)
    ensures PutsFor(run + tries, quoted, n + 1, address, content, proof)
    ensures forall k :: 0 <= k < |tries| ==> tries[k].PutSent? && tries[k].position == n
    ensures forall k :: 0 <= k < |tries| - 1 ==> !IsAcceptedPut(tries[k])
  {
  }

  lemma TriedOrAccepted(run: seq<Event>, tries: seq<Event>, n: nat)
    requires forall i: nat, a: nat :: i < n && i !in AcceptedPositions(run) && a < QUOTE_ATTEMPTS ==>
      PutTried(run, i, a)
    requires n !in AcceptedPositions(tries) ==> forall a: nat :: a < QUOTE_ATTEMPTS ==> PutTried(tries, n, a)
    requires AcceptedPositions(run + tries) == AcceptedPositions(run) + AcceptedPositions(tries)
    ensures forall i: nat, a: nat :: i < n + 1 && i !in AcceptedPositions(run + tries) && a < QUOTE_ATTEMPTS ==>
      PutTried(run + tries, i, a)
  {
    forall i: nat, a: nat | i < n + 1 && i !in AcceptedPositions(run + tries) && a < QUOTE_ATTEMPTS
      ensures PutTried(run + tries, i, a)
    {
      PutTriedStays(run, tries, i, a);
    }
  }

  lemma PutsToOneMore(run: seq<Event>, tries: seq<Event>, quoted: seq<QuotedPeer>, n: nat, address: Bytes32,
                      content: Bytes,
                      proof: Bytes, accepted: bool)
    requires n < |quoted| && PutsTo(run, quoted, n, address, content, proof)
    requires forall i :: i in AcceptedPositions(run) ==> i < n
    requires PutTries(tries, n, quoted[n].peerId, address, content, proof, accepted)
    ensures PutsTo(run + tries, quoted, n + 1, address, content, proof)
    ensures forall i :: i in AcceptedPositions(run + tries) ==> i < n + 1
    ensures |AcceptedPositions(run + tries)| == |AcceptedPositions(run)| + if accepted then 1 else 0
  {
    CountConcat(run, tries, IsPut);
    PositionsOfConcat(run, tries);
    AcceptedByTries(tries, n, quoted[n].peerId, address, content, proof, accepted);
    PutsForMore(run, tries, quoted, n, address, content, proof, accepted);
    PutOrderMore(run, tries, n);
    TriedOrAccepted(run, tries, n);
  }

  /** Verified quotes have keys and signatures of the scheme's lengths, so the proof always has an encoding. */
  lemma CollectedProofFits(peerQuotes: seq<PeerQuote>, txHash: Bytes32, sidecars: seq<Bytes>)
    requires |peerQuotes| == CLOSE_GROUP_SIZE && |sidecars| <= CLOSE_GROUP_SIZE
    requires forall i :: 0 <= i < |peerQuotes| ==> FixedKeyLengths(peerQuotes[i].quote)
    requires forall blob | blob in sidecars :: |blob| < MsgPack.MAX_LENGTH
    ensures ProofFits(SingleNodeProof(peerQuotes, txHash, sidecars))
  {
    forall pq | pq in peerQuotes ensures QuoteFits(pq.quote) {
      var i :| 0 <= i < |peerQuotes| && peerQuotes[i] == pq;
    }
  }

  lemma QuotesHaveFixedLengths(c: Crypto, run: seq<Event>, address: Bytes32, size: nat, peers: seq<PeerInfo>,
                               quoted: seq<QuotedPeer>)
    requires QuotePhaseRun(c, run, address, size, peers, quoted)
    ensures forall i :: 0 <= i < |quoted| ==> FixedKeyLengths(quoted[i].quote)
  {
    forall i | 0 <= i < |quoted| ensures FixedKeyLengths(quoted[i].quote) {
      assert QuoteOnRecord(c, run, address, peers, quoted, i);
    }
  }

  lemma PaidAsSplit(c: Crypto, run: seq<Event>, quotes: seq<Quote>, approve: Bytes, payForQuotes: Bytes,
                    token: Bytes20, vault: Bytes20)
    requires 1 <= |run| <= 2 && (forall k :: 0 <= k < |run| ==> run[k].Paid?)
    requires Priced(c, quotes, vault, approve, payForQuotes)
    requires run[0].to == token && run[0].calldata == approve
    requires |run| == 2 ==> run[0].answer.PayText? && run[1].to == vault && run[1].calldata == payForQuotes
    ensures PayPhaseRun(c, run, quotes, token, vault)
  {
  }

  // ----- each way a run can end -----

  lemma EndsAtDiscovery(c: Crypto, p: Parts, address: Bytes32, content: Bytes, token: Bytes20, vault: Bytes20,
                        r: StoreError)
    requires p.discovered.Discovered? && p.discovered.address == address
    requires p.quoteRun == p.payRun == p.putRun == []
    requires r == match p.discovered.peers case None => DiscoveryFailed case Some(_) => TooFewPeers
    requires p.discovered.peers.Some? ==> |p.discovered.peers.value| < CLOSE_GROUP_SIZE
    ensures StoreRun(c, p, address, content, token, vault, Err(r))
  {
    assert StoredPositions([]) == {} && AcceptedPositions([]) == {};
  }

  lemma EndsWithQuotes(c: Crypto, p: Parts, address: Bytes32, content: Bytes, token: Bytes20, vault: Bytes20,
                       r: Result<(), StoreError>)
    requires p.discovered.Discovered? && p.discovered.address == address && p.discovered.peers.Some?
    requires QuotePhaseRun(c, p.quoteRun, address, |content|, p.discovered.peers.value, p.quoted)
    requires p.payRun == p.putRun == []
    requires r.Ok? <==> |StoredPositions(p.quoteRun)| >= CLOSE_GROUP_MAJORITY
    requires r.Ok? ==> StopsAtMajority(p.quoteRun)
    requires r.Err? ==> Explained(p, r.error)
    ensures StoreRun(c, p, address, content, token, vault, r)
  {
    assert AcceptedPositions([]) == {};
  }

  /** Paying and putting, once seven quotes are there. */
  ghost predicate Settled(c: Crypto, quoted: seq<QuotedPeer>, payRun: seq<Event>, putRun: seq<Event>,
                          address: Bytes32, content: Bytes,
                          token: Bytes20, vault: Bytes20, r: Result<(), StoreError>) {
    && PayPhaseRun(c, payRun, QuotesOf(quoted), token, vault) && payRun != []
    && (putRun != [] ==>
          && |payRun| == 2 && payRun[1].answer.PayText? && payRun[1].answer.txHash.Some?
          && PutPhaseRun(putRun, quoted, address, content, payRun[1].answer.txHash.value))
    && match r
       case Ok(_) => |AcceptedPositions(putRun)| >= CLOSE_GROUP_MAJORITY
       case Err(PaymentFailed) => putRun == [] && payRun[|payRun| - 1].answer.PayFailed?
       case Err(BadTxHash) => |payRun| == 2 && putRun == [] && payRun[1].answer == PayText(None)
       case Err(TooFewAccepted(n)) => putRun != [] && n == |AcceptedPositions(putRun)| < CLOSE_GROUP_MAJORITY
       case Err(_) => false
  }

  lemma EndsSettled(c: Crypto, p: Parts, address: Bytes32, content: Bytes, token: Bytes20, vault: Bytes20,
                    r: Result<(), StoreError>)
    requires p.discovered.Discovered? && p.discovered.address == address && p.discovered.peers.Some?
    requires QuotePhaseRun(c, p.quoteRun, address, |content|, p.discovered.peers.value, p.quoted)
    requires |p.quoted| == CLOSE_GROUP_SIZE && |StoredPositions(p.quoteRun)| < CLOSE_GROUP_MAJORITY
    requires Settled(c, p.quoted, p.payRun, p.putRun, address, content, token, vault, r)
    ensures StoreRun(c, p, address, content, token, vault, r)
  {
    assert AcceptedPositions([]) == {};
  }

  lemma SettledByPuts(c: Crypto, quoted: seq<QuotedPeer>, payRun: seq<Event>, putRun: seq<Event>, address: Bytes32,
                      content: Bytes, token: Bytes20, vault: Bytes20, txHash: Bytes32, accepted: nat)
    requires PayPhaseRun(c, payRun, QuotesOf(quoted), token, vault)
    requires |payRun| == 2 && payRun[1].answer == PayText(Some(txHash))
    requires PutPhaseRun(putRun, quoted, address, content, txHash) && putRun != []
    requires accepted == |AcceptedPositions(putRun)|
    ensures Settled(c, quoted, payRun, putRun, address, content, token, vault,
                    if accepted < CLOSE_GROUP_MAJORITY then Err(TooFewAccepted(accepted)) else Ok(()))
  {
  }

  ghost function Runs(runs: seq<Parts>): seq<Event> {
    if runs == [] then [] else Runs(runs[..|runs| - 1]) + WholeRun(runs[|runs| - 1])
  }

  lemma RunsAppend(runs: seq<Parts>, p: Parts)
    ensures Runs(runs + [p]) == Runs(runs) + WholeRun(p)
  {
    assert (runs + [p])[..|runs|] == runs;
  }

  /** The first `n` runs each stored the item of the same index. */
  ghost predicate AllStored(c: Crypto, runs: seq<Parts>, items: seq<Upload.Item>, token: Bytes20, vault: Bytes20,
                            n: nat) {
    && n <= |runs| && n <= |items|
    && forall i :: 0 <= i < n ==> StoreRun(c, runs[i], items[i].address, items[i].content, token, vault, Ok(()))
  }

  /** The items before `item` were stored and `item` was not; nothing after it was tried. */
  ghost predicate StoppedAt(c: Crypto, runs: seq<Parts>, items: seq<Upload.Item>, token: Bytes20, vault: Bytes20,
                            item: nat, failure: StoreError) {
    && AllStored(c, runs, items, token, vault, item)
    && |runs| == item + 1 <= |items|
    && StoreRun(c, runs[item], items[item].address, items[item].content, token, vault, Err(failure))
  }

  lemma StoredStay(c: Crypto, runs: seq<Parts>, p: Parts, items: seq<Upload.Item>, token: Bytes20, vault: Bytes20,
                   i: nat)
    requires i < |runs| <= |items| && AllStored(c, runs, items, token, vault, |runs|)
    ensures StoreRun(c, (runs + [p])[i], items[i].address, items[i].content, token, vault, Ok(()))
  {
    assert (runs + [p])[i] == runs[i];
  }

  lemma AllStay(c: Crypto, runs: seq<Parts>, p: Parts, items: seq<Upload.Item>, token: Bytes20, vault: Bytes20)
    requires |runs| <= |items| && AllStored(c, runs, items, token, vault, |runs|)
    ensures AllStored(c, runs + [p], items, token, vault, |runs|)
  {
    forall i | 0 <= i < |runs|
      ensures StoreRun(c, (runs + [p])[i], items[i].address, items[i].content, token, vault, Ok(()))
    {
      StoredStay(c, runs, p, items, token, vault, i);
    }
  }

  lemma OneMoreStored(c: Crypto, runs: seq<Parts>, items: seq<Upload.Item>, token: Bytes20, vault: Bytes20, n: nat)
    requires n < |runs| && n < |items| && AllStored(c, runs, items, token, vault, n)
    requires StoreRun(c, runs[n], items[n].address, items[n].content, token, vault, Ok(()))
    ensures AllStored(c, runs, items, token, vault, n + 1)
  {
  }

  lemma NextStored(c: Crypto, runs: seq<Parts>, p: Parts, items: seq<Upload.Item>, token: Bytes20, vault: Bytes20,
                   stored: Result<(), StoreError>)
    requires |runs| < |items| && AllStored(c, runs, items, token, vault, |runs|)
    requires StoreRun(c, p, items[|runs|].address, items[|runs|].content, token, vault, stored)
    ensures stored.Ok? ==> AllStored(c, runs + [p], items, token, vault, |runs| + 1)
    ensures stored.Err? ==> StoppedAt(c, runs + [p], items, token, vault, |runs|, stored.error)
  {
    AllStay(c, runs, p, items, token, vault);
    assert (runs + [p])[|runs|] == p;
    if stored.Ok? {
      OneMoreStored(c, runs + [p], items, token, vault, |runs|);
    }
  }

  /** `Ok` is the address of the data map, after every item was stored. */
  ghost predicate Uploaded(c: Crypto, prepared: Result<Upload.Prepared, Upload.PrepareError>, runs: seq<Parts>,
                           token: Bytes20, vault: Bytes20,
                           r: Result<Bytes32, UploadError>) {
    match prepared
    case Err(why) => r == Err(NotPrepared(why)) && runs == []
    case Ok(all) => (
      match r
      case Ok(address) => address == all.mapAddress && |runs| == |all.items| &&
        AllStored(c, runs, all.items, token, vault, |runs|)
      case Err(NotStored(item, failure)) => StoppedAt(c, runs, all.items, token, vault, item, failure)
      case Err(NotPrepared(_)) => false)
  }

  // ----- the client -----

  class WasmClient {
    const lib: Retrieval.Lib
    const world: World
    var pool: map<Bytes32, Connection>
    var clock: nat
    ghost var trace: seq<Event>

    /** Pooled connections are keyed by the peer they reach. */
    ghost predicate Valid()
      reads this
    {
      && clock == |trace|
      && forall id | id in pool :: pool[id].peerId == id
    }

    /** The connection to the bootstrap node is open already, and pooled like any other. */
    constructor (lib: Retrieval.Lib, world: World, bootstrap: Connection)
      ensures Valid() && trace == [] && pool == map[bootstrap.peerId := bootstrap]
      ensures this.lib == lib && this.world == world
    {
      this.lib, this.world := lib, world;
      pool, clock, trace := map[bootstrap.peerId := bootstrap], 0, [];
    }

    /** One interaction: it is recorded, and while it is awaited other tasks may change the pool. */
    method Log(ghost e: Event)
      requires Valid()
      modifies this
      ensures Valid() && trace == old(trace) + [e] && pool == Disturbed(old(pool), world.others(|old(trace)|))
    {
      trace := trace + [e];
      pool := Disturbed(pool, world.others(clock));
      clock := clock + 1;
    }

    /** No other task runs between looking a peer up and having its connection, unless it has to be dialed. */
    method ConnectionFor(peer: PeerInfo) returns (conn: Option<Connection>, ghost run: seq<Event>)
      requires Valid()
      modifies this
      ensures Valid() && trace == old(trace) + run
      ensures peer.peerId in old(pool) ==> run == [] && pool == old(pool) && conn == Some(pool[peer.peerId])
      ensures peer.peerId !in old(pool) ==>
        && run == [Dialed(peer.peerId, conn.Some?)]
        && conn.Some? == Reached(lib.crypto, world.dial(|old(trace)|), peer.peerId).Some?
        && var others := Disturbed(old(pool), world.others(|old(trace)|));
           pool == if conn.Some? then others[peer.peerId := Connection(peer.peerId, |old(trace)|)] else others
      ensures conn.Some? ==> peer.peerId in pool && conn.value == pool[peer.peerId] && conn.value.peerId == peer.peerId
    {
      if peer.peerId in pool {
        conn, run := Some(pool[peer.peerId]), [];
        return;
      }
      var openedAt := clock;
      var reached := Reached(lib.crypto, world.dial(clock), peer.peerId);
      run := [Dialed(peer.peerId, reached.Some?)];
      Log(Dialed(peer.peerId, reached.Some?));
      match reached {
        case None => conn := None;
        case Some(id) =>
          conn := Some(Connection(id, openedAt));
          pool := pool[peer.peerId := conn.value];
      }
    }

    method Evict(peerId: Bytes32) returns (ghost run: seq<Event>)
      requires Valid()
      modifies this
      ensures Valid() && trace == old(trace) + run && run == [Evicted(peerId)]
      ensures pool == Disturbed(old(pool), world.others(|old(trace)|)) - {peerId}
    {
      run := [Evicted(peerId)];
      Log(Evicted(peerId));
      pool := pool - {peerId};
    }

    /** One connect, quote and verify attempt. */
    method TryQuote(position: nat, attempt: nat, peer: PeerInfo, address: Bytes32, size: nat)
      returns (outcome: QuoteOutcome, ghost run: seq<Event>)
      requires Valid()
      modifies this
      ensures Valid() && trace == old(trace) + run
      ensures |run| == (if peer.peerId in old(pool) then 1 else 2)
      ensures |run| == 2 ==>
        run[0] == Dialed(peer.peerId, Reached(lib.crypto, world.dial(|old(trace)|), peer.peerId).Some?)
      ensures var connected := peer.peerId in old(pool) ||
                Reached(lib.crypto, world.dial(|old(trace)|), peer.peerId).Some?;
        var reply := if connected then world.quote(|trace| - 1) else None;
        && run[|run| - 1] == QuoteAsked(position, attempt, peer.peerId, address, size, reply, outcome)
        && outcome == if connected then CheckQuote(lib.crypto, reply, address, peer.peerId) else Refused(NoConnection)
      ensures TryEvent(lib.crypto, run[|run| - 1], position, attempt, peer.peerId, address, size)
    {
      var conn;
      conn, run := ConnectionFor(peer);
      var reply := if conn.Some? then world.quote(clock) else None;
      outcome := if conn.Some? then CheckQuote(lib.crypto, reply, address, peer.peerId) else Refused(NoConnection);
      run := run + [QuoteAsked(position, attempt, peer.peerId, address, size, reply, outcome)];
      Log(QuoteAsked(position, attempt, peer.peerId, address, size, reply, outcome));
    }

    /** Up to three attempts; between them the pooled connection is dropped, so each retry dials again. */
    method QuotePeer(position: nat, peer: PeerInfo, address: Bytes32, size: nat)
      returns (outcome: QuoteOutcome, ghost run: seq<Event>)
      requires Valid()
      modifies this
      ensures Valid() && trace == old(trace) + run
      ensures QuotedAfter(lib.crypto, run, position, peer.peerId, address, size, outcome)
      ensures outcome.Valid? ==> Verified(lib.crypto, outcome.quote, address, peer.peerId)
    {
      run := [];
      outcome := Refused(NoReply);
      for attempt := 0 to QUOTE_ATTEMPTS
        invariant Valid() && trace == old(trace) + run
        invariant TriedSoFar(lib.crypto, run, position, peer.peerId, address, size, attempt)
        invariant 0 < attempt < QUOTE_ATTEMPTS ==> peer.peerId !in pool
        invariant outcome.Refused?
        invariant attempt == QUOTE_ATTEMPTS ==>
          QuotedAfter(lib.crypto, run, position, peer.peerId, address, size, outcome)
      {
        ghost var step;
        outcome, step := TryQuote(position, attempt, peer, address, size);
        TryExtends(lib.crypto, run, step, position, peer.peerId, address, size, attempt);
        Regroup(old(trace), run, step);
        run := run + step;
        if outcome.Valid? {
          return;
        }
        if attempt + 1 < QUOTE_ATTEMPTS {
          ghost var evicted := Evict(peer.peerId);
          EvictExtends(lib.crypto, run, position, peer.peerId, address, size, attempt + 1);
          Regroup(old(trace), run, evicted);
          run := run + evicted;
        }
      }
    }

    /** The next listed peer is asked. */
    method AskNext(address: Bytes32, size: nat, peers: seq<PeerInfo>, ghost quoted: seq<QuotedPeer>, i: nat,
                   ghost run: seq<Event>)
      returns (outcome: QuoteOutcome, ghost tries: seq<Event>)
      requires Valid() && |quoted| == i < CLOSE_GROUP_SIZE && Asked(lib.crypto, run, address, size, peers, quoted, i)
      modifies this
      ensures Valid() && trace == old(trace) + tries
      ensures Asked(lib.crypto, run + tries, address, size, peers, quoted, i + 1)
      ensures |StoredPositions(run + tries)|
           == |StoredPositions(run)| + if outcome.Valid? && outcome.alreadyStored then 1 else 0
      ensures outcome.Refused? ==> forall a: nat :: a < QUOTE_ATTEMPTS ==> QuoteRefused(run + tries, i, a)
      ensures outcome.Valid? ==> JustQuoted(lib.crypto, run + tries, address, peers[i].peerId, i, outcome)
    {
      outcome, tries := QuotePeer(i, peers[i], address, size);
      AskedOneMore(lib.crypto, run, tries, address, size, peers, quoted, i, outcome);
    }

    /**
     The connection kept for the PUT to a peer that just quoted. It is lost when it was evicted and cannot be
     dialed.
     */
    method HoldConnection(address: Bytes32, size: nat, peers: seq<PeerInfo>, quoted: seq<QuotedPeer>,
                          outcome: QuoteOutcome,
                          ghost run: seq<Event>)
      returns (conn: Option<Connection>, ghost dial: seq<Event>)
      requires Valid() && |quoted| < CLOSE_GROUP_SIZE &&
        Asked(lib.crypto, run, address, size, peers, quoted, |quoted| + 1)
      requires JustQuoted(lib.crypto, run, address, peers[|quoted|].peerId, |quoted|, outcome)
      modifies this
      ensures Valid() && trace == old(trace) + dial
      ensures Asked(lib.crypto, run + dial, address, size, peers, quoted, |quoted| + 1)
      ensures StoredPositions(run + dial) == StoredPositions(run)
      ensures conn.None? <==>
        && peers[|quoted|].peerId !in old(pool)
        && Reached(lib.crypto, world.dial(|old(trace)|), peers[|quoted|].peerId).None?
      ensures conn.None? ==> LostAfterQuote(run + dial, |quoted|, peers[|quoted|].peerId)
      ensures conn.Some? ==>
        && conn.value.peerId == peers[|quoted|].peerId
        && Asked(lib.crypto, run + dial, address, size, peers, quoted + [QuotedBy(peers[|quoted|].peerId,
          outcome)], |quoted| + 1)
    {
      conn, dial := ConnectionFor(peers[|quoted|]);
      QuotedAndDialed(lib.crypto, run, dial, address, size, peers, quoted, outcome);
    }

    /** One turn of the quote loop: ask the next peer, count its report, hold its connection. */
    method QuoteNext(address: Bytes32, size: nat, peers: seq<PeerInfo>, quoted: seq<QuotedPeer>, alreadyStored: nat,
                     ghost run: seq<Event>)
      returns (result: PeerResult, stored: nat, ghost step: seq<Event>)
      requires Valid() && |quoted| < CLOSE_GROUP_SIZE && Asked(lib.crypto, run, address, size, peers, quoted, |quoted|)
      requires alreadyStored == |StoredPositions(run)| < CLOSE_GROUP_MAJORITY
      modifies this
      ensures Valid() && trace == old(trace) + step
      ensures stored == |StoredPositions(run + step)| && (result.Majority? <==> stored >= CLOSE_GROUP_MAJORITY)
      ensures match result
        case Kept(q, conn) =>
          conn.peerId == q.peerId && Asked(lib.crypto, run + step, address, size, peers, quoted + [q], |quoted| + 1)
        case Majority =>
          QuotePhaseRun(lib.crypto, run + step, address, size, peers, quoted) && StopsAtMajority(run + step)
        case Refusing =>
          && QuotePhaseRun(lib.crypto, run + step, address, size, peers, quoted)
          && forall a: nat :: a < QUOTE_ATTEMPTS ==> QuoteRefused(run + step, |quoted|, a)
        case Gone =>
          && QuotePhaseRun(lib.crypto, run + step, address, size, peers, quoted)
          && LostAfterQuote(run + step, |quoted|, peers[|quoted|].peerId)
    {
      var outcome;
      outcome, step := AskNext(address, size, peers, quoted, |quoted|, run);
      stored := alreadyStored;
      if outcome.Refused? {
        AskedIsPhase(lib.crypto, run + step, address, size, peers, quoted, |quoted| + 1);
        return Refusing, stored, step;
      }
      if outcome.alreadyStored {
        stored := stored + 1;
        if stored >= CLOSE_GROUP_MAJORITY {
          AskedIsPhase(lib.crypto, run + step, address, size, peers, quoted, |quoted| + 1);
          return Majority, stored, step;
        }
      }
      // Pooled by now, unless another task evicted it during the quote.
      var conn;
      ghost var dial;
      conn, dial := HoldConnection(address, size, peers, quoted, outcome, run + step);
      Regroup(old(trace), step, dial);
      Regroup(run, step, dial);
      step := step + dial;
      match conn {
        case None =>
          AskedIsPhase(lib.crypto, run + step, address, size, peers, quoted, |quoted| + 1);
          result := Gone;
        case Some(held) =>
          result := Kept(QuotedBy(peers[|quoted|].peerId, outcome), held);
      }
    }

    /** Quotes from the first seven listed peers, unless a majority of them already has the chunk. */
    method QuotePhase(address: Bytes32, size: nat, peers: seq<PeerInfo>)
      returns (result: QuotesResult, quoted: seq<QuotedPeer>, conns: seq<Connection>, ghost run: seq<Event>)
      requires Valid() && |peers| >= CLOSE_GROUP_SIZE
      modifies this
      ensures Valid() && trace == old(trace) + run
      ensures QuotePhaseRun(lib.crypto, run, address, size, peers, quoted)
      ensures |conns| == |quoted| && forall i :: 0 <= i < |quoted| ==> conns[i].peerId == quoted[i].peerId
      ensures result.AlreadyStored? <==> |StoredPositions(run)| >= CLOSE_GROUP_MAJORITY
      ensures result.AlreadyStored? ==> StopsAtMajority(run)
      ensures result.Collected? ==> |quoted| == CLOSE_GROUP_SIZE
      ensures result.NotCollected? ==>
        && result.position == |quoted| < CLOSE_GROUP_SIZE
        && forall a: nat :: a < QUOTE_ATTEMPTS ==> QuoteRefused(run, result.position, a)
      ensures result.Lost? ==>
        && result.position == |quoted| < CLOSE_GROUP_SIZE
        && LostAfterQuote(run, result.position, peers[result.position].peerId)
    {
      quoted, conns, run := [], [], [];
      var alreadyStored := 0;
      for i := 0 to CLOSE_GROUP_SIZE
        invariant Valid() && trace == old(trace) + run
        invariant Asked(lib.crypto, run, address, size, peers, quoted, i) && |quoted| == |conns| == i
        invariant forall j :: 0 <= j < i ==> conns[j].peerId == quoted[j].peerId
        invariant alreadyStored == |StoredPositions(run)| < CLOSE_GROUP_MAJORITY
      {
        var next;
        ghost var step;
        next, alreadyStored, step := QuoteNext(address, size, peers, quoted, alreadyStored, run);
        Regroup(old(trace), run, step);
        run := run + step;
        match next {
          case Majority =>
            result := AlreadyStored;
            return;
          case Refusing =>
            result := NotCollected(i);
            return;
          case Gone =>
            result := Lost(i);
            return;
          case Kept(q, conn) =>
            quoted, conns := quoted + [q], conns + [conn];
        }
      }
      AskedIsPhase(lib.crypto, run, address, size, peers, quoted, CLOSE_GROUP_SIZE);
      result := Collected;
    }

    method CallPay(to: Bytes20, calldata: Bytes) returns (answer: PayReply, ghost run: seq<Event>)
      requires Valid()
      modifies this
      ensures Valid() && trace == old(trace) + run && run == [Paid(to, calldata, answer)]
      ensures answer == world.pay(|old(trace)|)
    {
      answer := world.pay(clock);
      run := [Paid(to, calldata, answer)];
      Log(Paid(to, calldata, answer));
    }

    /** The calldata of both calls, from one split of the quotes. */
    method BuildCalldata(quotes: seq<Quote>, vault: Bytes20)
      returns (approve: Bytes, payForQuotes: Bytes)
      requires |quotes| == CLOSE_GROUP_SIZE
      ensures Priced(lib.crypto, quotes, vault, approve, payForQuotes)
    {
      var split := PaymentSplit(quotes, lib.crypto.keccak);
      var payments := split.value;
      ghost var m :| IsMedian(Prices(quotes), m) && payments == Payments(quotes, m, lib.crypto.keccak);
      var total := TotalAmount(payments);
      approve := ApproveCalldata(vault, total);
      payForQuotes := PayForQuotesCalldata(payments);
      assert CallsFor(lib.crypto, quotes, vault, m, total, approve, payForQuotes);
    }

    /** The second callback is made only if the first resolved, and its text is the transaction. */
    method CallTwice(token: Bytes20, approve: Bytes, vault: Bytes20, payForQuotes: Bytes)
      returns (r: Result<Bytes32, StoreError>, ghost run: seq<Event>)
      requires Valid()
      modifies this
      ensures Valid() && trace == old(trace) + run
      ensures 1 <= |run| <= 2 && (forall k :: 0 <= k < |run| ==> run[k].Paid?)
      ensures run[0] == Paid(token, approve, world.pay(|old(trace)|))
      ensures |run| == 2 <==> run[0].answer.PayText?
      ensures |run| == 2 ==> run[1] == Paid(vault, payForQuotes, world.pay(|old(trace)| + 1))
      ensures r.Ok? ==> |run| == 2 && run[1].answer == PayText(Some(r.value))
      ensures r.Err? ==> match r.error
        case PaymentFailed => run[|run| - 1].answer.PayFailed?
        case BadTxHash => |run| == 2 && run[1].answer == PayText(None)
        case _ => false
    {
      var approved;
      approved, run := CallPay(token, approve);
      if approved.PayFailed? {
        return Err(PaymentFailed), run;
      }
      var paid;
      ghost var second;
      paid, second := CallPay(vault, payForQuotes);
      Regroup(old(trace), run, second);
      run := run + second;
      match paid {
        case PayFailed => r := Err(PaymentFailed);
        case PayText(None) => r := Err(BadTxHash);
        case PayText(Some(txHash)) => r := Ok(txHash);
      }
    }

    /** Approve the total, then pay for the quotes. */
    method PayPhase(quoted: seq<QuotedPeer>, token: Bytes20, vault: Bytes20)
      returns (r: Result<Bytes32, StoreError>, ghost run: seq<Event>)
      requires Valid() && |quoted| == CLOSE_GROUP_SIZE
      modifies this
      ensures Valid() && trace == old(trace) + run
      ensures PayPhaseRun(lib.crypto, run, QuotesOf(quoted), token, vault) && run != []
      ensures r.Ok? ==> |run| == 2 && run[1].answer == PayText(Some(r.value))
      ensures r.Err? ==> match r.error
        case PaymentFailed => run[|run| - 1].answer.PayFailed?
        case BadTxHash => |run| == 2 && run[1].answer == PayText(None)
        case _ => false
    {
      var approve, payForQuotes := BuildCalldata(QuotesOf(quoted), vault);
      r, run := CallTwice(token, approve, vault, payForQuotes);
      PaidAsSplit(lib.crypto, run, QuotesOf(quoted), approve, payForQuotes, token, vault);
    }

    /** Up to three PUTs over the connection the quote came by; every answer but acceptance is retried. */
    method PutTo(position: nat, conn: Connection, address: Bytes32, content: Bytes, proof: Bytes)
      returns (accepted: bool, ghost run: seq<Event>)
      requires Valid()
      modifies this
      ensures Valid() && trace == old(trace) + run
      ensures PutTries(run, position, conn.peerId, address, content, proof, accepted)
      ensures forall k :: 0 <= k < |run| ==> run[k].reply == world.put(|old(trace)| + k)
    {
      run, accepted := [], false;
      for attempt := 0 to QUOTE_ATTEMPTS
        invariant Valid() && trace == old(trace) + run
        invariant |run| == attempt && !accepted
        invariant forall k :: 0 <= k < attempt ==>
          && run[k].PutSent?
          && run[k] == PutSent(position, k, conn.peerId, address, content, proof, run[k].reply) &&
            !IsAcceptedPut(run[k])
          && run[k].reply == world.put(|old(trace)| + k)
      {
        var reply := world.put(clock);
        run := run + [PutSent(position, attempt, conn.peerId, address, content, proof, reply)];
        Log(PutSent(position, attempt, conn.peerId, address, content, proof, reply));
        if ClassifyPut(reply) == Ok(true) {
          accepted := true;
          return;
        }
      }
    }

    method PutPhase(quoted: seq<QuotedPeer>, conns: seq<Connection>, address: Bytes32, content: Bytes, proof: Bytes)
      returns (accepted: nat, ghost run: seq<Event>)
      requires Valid()
      requires |conns| == |quoted| && forall i :: 0 <= i < |quoted| ==> conns[i].peerId == quoted[i].peerId
      modifies this
      ensures Valid() && trace == old(trace) + run
      ensures PutsTo(run, quoted, |quoted|, address, content, proof)
      ensures accepted == |AcceptedPositions(run)|
      ensures quoted != [] ==> run != []
    {
      run, accepted := [], 0;
      for i := 0 to |quoted|
        invariant Valid() && trace == old(trace) + run
        invariant PutsTo(run, quoted, i, address, content, proof) && accepted == |AcceptedPositions(run)|
        invariant forall p :: p in AcceptedPositions(run) ==> p < i
        invariant i > 0 ==> run != []
      {
        var ok;
        ghost var tries;
        ok, tries := PutTo(i, conns[i], address, content, proof);
        PutsToOneMore(run, tries, quoted, i, address, content, proof, ok);
        Regroup(old(trace), run, tries);
        run := run + tries;
        accepted := accepted + if ok then 1 else 0;
      }
    }

    method ClosestPeers(address: Bytes32) returns (peers: Option<seq<PeerInfo>>, ghost e: Event)
      requires Valid()
      modifies this
      ensures Valid() && trace == old(trace) + [e] && e == Discovered(address, peers)
      ensures peers == world.discover(|old(trace)|)
    {
      peers := world.discover(clock);
      e := Discovered(address, peers);
      Log(e);
    }

    /** Pay for the seven quotes, and PUT with the proof of it. */
    method PayAndPut(quoted: seq<QuotedPeer>, conns: seq<Connection>, address: Bytes32, content: Bytes,
                     token: Bytes20, vault: Bytes20)
      returns (r: Result<(), StoreError>, ghost payRun: seq<Event>, ghost putRun: seq<Event>)
      requires Valid()
      requires |conns| == |quoted| == CLOSE_GROUP_SIZE
      requires forall i :: 0 <= i < |quoted| ==> conns[i].peerId == quoted[i].peerId && FixedKeyLengths(quoted[i].quote)
      modifies this
      ensures Valid() && trace == (old(trace) + payRun) + putRun
      ensures Settled(lib.crypto, quoted, payRun, putRun, address, content, token, vault, r)
    {
      var paid;
      paid, payRun := PayPhase(quoted, token, vault);
      putRun := [];
      if paid.Err? {
        return Err(paid.error), payRun, putRun;
      }
      CollectedProofFits(PeerQuotesOf(quoted), paid.value, SidecarsOf(quoted));
      var proof := SerializeSingleNodeProof(PeerQuotesOf(quoted), paid.value, SidecarsOf(quoted));
      var accepted;
      accepted, putRun := PutPhase(quoted, conns, address, content, proof);
      SettledByPuts(lib.crypto, quoted, payRun, putRun, address, content, token, vault, paid.value, accepted);
      r := if accepted < CLOSE_GROUP_MAJORITY then Err(TooFewAccepted(accepted)) else Ok(());
    }

    /** Quote, pay and PUT one chunk against its close group; `p` is the run it made, taken apart. */
    method StoreOne(address: Bytes32, content: Bytes, token: Bytes20, vault: Bytes20) returns (r: Result<(),
                    StoreError>, ghost p: Parts)
      requires Valid()
      modifies this
      ensures Valid() && trace == old(trace) + WholeRun(p)
      ensures StoreRun(lib.crypto, p, address, content, token, vault, r)
    {
      var found;
      ghost var discovered;
      found, discovered := ClosestPeers(address);
      p := Parts(discovered, [], [], [], []);
      if found.None? || |found.value| < CLOSE_GROUP_SIZE {
        var e := if found.None? then DiscoveryFailed else TooFewPeers;
        EndsAtDiscovery(lib.crypto, p, address, content, token, vault, e);
        return Err(e), p;
      }

      var result, quoted, conns;
      ghost var quoteRun;
      result, quoted, conns, quoteRun := QuotePhase(address, |content|, found.value);
      p := Parts(discovered, quoteRun, [], [], quoted);
      Regroup(old(trace), [discovered], quoteRun);
      if result != Collected {
        r := match result
          case NotCollected(position) => Err(NoValidQuote(position))
          case Lost(position) => Err(ConnectionLost(position))
          case _ => Ok(());
        EndsWithQuotes(lib.crypto, p, address, content, token, vault, r);
        return;
      }

      QuotesHaveFixedLengths(lib.crypto, quoteRun, address, |content|, found.value, quoted);
      ghost var payRun, putRun;
      r, payRun, putRun := PayAndPut(quoted, conns, address, content, token, vault);
      p := Parts(discovered, quoteRun, payRun, putRun, quoted);
      Regroup(old(trace), [discovered] + quoteRun, payRun);
      Regroup(old(trace), [discovered] + quoteRun + payRun, putRun);
      assert trace == old(trace) + WholeRun(p);
      EndsSettled(lib.crypto, p, address, content, token, vault, r);
    }

    /** Store the items one by one, up to the first that fails. */
    method StoreAll(items: seq<Upload.Item>, token: Bytes20, vault: Bytes20)
      returns (failed: Option<(nat, StoreError)>, ghost runs: seq<Parts>)
      requires Valid()
      modifies this
      ensures Valid() && trace == old(trace) + Runs(runs)
      ensures match failed
        case None => |runs| == |items| && AllStored(lib.crypto, runs, items, token, vault, |runs|)
        case Some((item, failure)) => StoppedAt(lib.crypto, runs, items, token, vault, item, failure)
    {
      runs := [];
      for i := 0 to |items|
        invariant Valid() && trace == old(trace) + Runs(runs)
        invariant |runs| == i && AllStored(lib.crypto, runs, items, token, vault, i)
      {
        var stored;
        ghost var p;
        stored, p := StoreOne(items[i].address, items[i].content, token, vault);
        RunsAppend(runs, p);
        Regroup(old(trace), Runs(runs), WholeRun(p));
        NextStored(lib.crypto, runs, p, items, token, vault, stored);
        runs := runs + [p];
        if stored.Err? {
          return Some((i, stored.error)), runs;
        }
      }
      failed := None;
    }

    /** Encrypt, store everything, and return the address of the data map. */
    method UploadData(enc: Upload.Encryptor, data: Bytes, token: Bytes20, vault: Bytes20)
      returns (r: Result<Bytes32, UploadError>, ghost runs: seq<Parts>)
      requires Valid()
      modifies this
      ensures Valid() && trace == old(trace) + Runs(runs)
      ensures Uploaded(lib.crypto, Upload.Prepare(lib, enc, data), runs, token, vault, r)
    {
      runs := [];
      var prepared := Upload.PrepareUpload(lib, enc, data);
      if prepared.Err? {
        return Err(NotPrepared(prepared.error)), runs;
      }
      var failed;
      failed, runs := StoreAll(prepared.value.items, token, vault);
      match failed {
        case Some((item, failure)) => r := Err(NotStored(item, failure));
        case None => r := Ok(prepared.value.mapAddress);
      }
    }
  }
}
