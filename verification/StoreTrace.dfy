/** Everything a store run can do to the outside world, and what a run may look like. */
module StoreTrace {
  import opened Bytes
  import MsgPack
  import opened U256
  import opened Payment
  import opened PaymentWire
  import opened Primitives
  import opened SignedPayload
  import opened Split
  import opened Calldata

  const CLOSE_GROUP_MAJORITY: nat := 4
  const QUOTE_ATTEMPTS: nat := 3

  /** A byte string short enough for a 32-bit length; anything that came in one frame is. */
  type Blob = s: Bytes | |s| < MsgPack.MAX_LENGTH witness []

  datatype PeerInfo = PeerInfo(peerId: Bytes32, contact: Bytes)

  datatype QuoteReply = QuoteReply(quote: Bytes, alreadyStored: bool, commitment: Option<Blob>)

  datatype Refusal = NoConnection | NoReply | Unparsable | WrongAddress | WrongKey | BadSignature

  datatype QuoteOutcome =
    | Valid(quote: Quote, alreadyStored: bool, commitment: Option<Blob>)
    | Refused(why: Refusal)

  datatype PutReply = Stored | AlreadyExists | PaymentRequired | PutError | OtherReply | NoResponse

  /** The payment callback fails, or resolves to text that is or is not a transaction hash. */
  datatype PayReply = PayFailed | PayText(txHash: Option<Bytes32>)

  /** One interaction and its answer. `position` counts the listed peers, `attempt` the tries at one of them. */
  datatype Event =
    | Discovered(address: Bytes32, peers: Option<seq<PeerInfo>>)
    | Dialed(peerId: Bytes32, ok: bool)
    | Evicted(peerId: Bytes32)
    | QuoteAsked(position: nat, attempt: nat, peerId: Bytes32, address: Bytes32, size: nat,
      response: Option<QuoteReply>, outcome: QuoteOutcome)
    | Paid(to: Bytes20, calldata: Bytes, answer: PayReply)
    | PutSent(position: nat, attempt: nat, peerId: Bytes32, address: Bytes32, content: Bytes, proof: Bytes,
      reply: PutReply)

  predicate VerifyQuote(c: Crypto, q: Quote) {
    FixedKeyLengths(q) && c.mlDsaVerify(q.pubKey, SigPayload(q), q.signature)
  }

  /** For this address, from this peer, signed with this peer's key. */
  predicate Verified(c: Crypto, q: Quote, address: Bytes32, peerId: Bytes32) {
    q.content == address && c.blake3(q.pubKey) == peerId && VerifyQuote(c, q)
  }

  /** The node answered with bytes that decode to a verified quote for this address and from this peer. */
  predicate Answered(c: Crypto, reply: Option<QuoteReply>, address: Bytes32, peerId: Bytes32) {
    && reply.Some? && ParseQuote(reply.value.quote).Ok?
    && Verified(c, ParseQuote(reply.value.quote).value, address, peerId)
  }

  /** The quote, the flag and the commitment of an outcome are those of the node's reply. */
  predicate TakenFrom(outcome: QuoteOutcome, reply: Option<QuoteReply>)
    requires outcome.Valid?
  {
    && reply.Some? && ParseQuote(reply.value.quote) == Ok(outcome.quote)
    && outcome.alreadyStored == reply.value.alreadyStored && outcome.commitment == reply.value.commitment
  }

  /**
   Valid exactly for a reply whose quote decodes, names this chunk, hashes to this peer and is signed, and then
   everything is the node's.
   */
  function CheckQuote(c: Crypto, reply: Option<QuoteReply>, address: Bytes32, peerId: Bytes32): (r: QuoteOutcome)
    ensures r.Valid? <==>
      && reply.Some? && ParseQuote(reply.value.quote).Ok?
      && var q := ParseQuote(reply.value.quote).value;
         && q.content == address && c.blake3(q.pubKey) == peerId && |q.pubKey| == 1952 && |q.signature| == 3309
         && c.mlDsaVerify(q.pubKey, SigPayload(q), q.signature)
    ensures r.Valid? ==> TakenFrom(r, reply)
    ensures r.Valid? ==> r.alreadyStored == reply.value.alreadyStored && r.commitment == reply.value.commitment
    ensures r == Refused(NoReply) <==> reply.None?
    ensures r == Refused(Unparsable) <==> reply.Some? && ParseQuote(reply.value.quote).Err?
    ensures r == Refused(WrongAddress) || r == Refused(WrongKey) ==>
      var q := ParseQuote(reply.value.quote).value;
      if r.why.WrongAddress? then q.content != address else q.content == address && c.blake3(q.pubKey) != peerId
  {
    if reply.None? then Refused(NoReply) else
    match ParseQuote(reply.value.quote)
    case Err(_) => Refused(Unparsable)
    case Ok(q) =>
      if q.content != address then Refused(WrongAddress)
      else if c.blake3(q.pubKey) != peerId then Refused(WrongKey)
      else if !VerifyQuote(c, q) then Refused(BadSignature)
      else Valid(q, reply.value.alreadyStored, reply.value.commitment)
  }

  /** `Ok(true)` for stored or already present; every other answer is an error, so none is `Ok(false)`. */
  function ClassifyPut(reply: PutReply): (r: Result<bool, PutReply>)
    ensures r != Ok(false)
    ensures r == Ok(true) <==> reply.Stored? || reply.AlreadyExists?
  {
    match reply
    case Stored => Ok(true)
    case AlreadyExists => Ok(true)
    case _ => Err(reply)
  }

  // ----- counting and searching traces -----

  function Count(run: seq<Event>, wanted: Event -> bool): nat {
    if run == [] then 0 else Count(run[..|run| - 1], wanted) + if wanted(run[|run| - 1]) then 1 else 0
  }

  lemma {:induction false} CountConcat(a: seq<Event>, b: seq<Event>, wanted: Event -> bool)
    ensures Count(a + b, wanted) == Count(a, wanted) + Count(b, wanted)
  {
    if b == [] {
      assert a + b == a;
    } else {
      assert (a + b)[..|a + b| - 1] == a + b[..|b| - 1];
      CountConcat(a, b[..|b| - 1], wanted);
    }
  }

  lemma {:induction false} CountNone(run: seq<Event>, wanted: Event -> bool)
    requires forall k :: 0 <= k < |run| ==> !wanted(run[k])
    ensures Count(run, wanted) == 0
  {
    if run != [] {
      CountNone(run[..|run| - 1], wanted);
    }
  }

  predicate IsAsked(e: Event) { e.QuoteAsked? }

  predicate IsPut(e: Event) { e.PutSent? }

  predicate IsPaid(e: Event) { e.Paid? }

  predicate HasSelector(calldata: Bytes, selector: Bytes) { |calldata| >= 4 && calldata[..4] == selector }

  predicate IsApprove(e: Event) { e.Paid? && HasSelector(e.calldata, ERC20_APPROVE_SELECTOR) }

  predicate IsPayForQuotes(e: Event) { e.Paid? && HasSelector(e.calldata, PAY_FOR_QUOTES_SELECTOR) }

  predicate IsStoredReport(e: Event) { e.QuoteAsked? && e.outcome.Valid? && e.outcome.alreadyStored }

  predicate IsAcceptedPut(e: Event) { e.PutSent? && ClassifyPut(e.reply) == Ok(true) }

  /** The positions in the close group with an event of some kind. */
  ghost function StoredPositions(run: seq<Event>): (s: set<nat>) {
    set k | 0 <= k < |run| && IsStoredReport(run[k]) :: run[k].position
  }

  ghost function AcceptedPositions(run: seq<Event>): (s: set<nat>) {
    set k | 0 <= k < |run| && IsAcceptedPut(run[k]) :: run[k].position
  }

  lemma PositionsOfConcat(a: seq<Event>, b: seq<Event>)
    ensures StoredPositions(a + b) == StoredPositions(a) + StoredPositions(b)
    ensures AcceptedPositions(a + b) == AcceptedPositions(a) + AcceptedPositions(b)
  {
    var ab := a + b;
    forall p ensures p in StoredPositions(ab) <==> p in StoredPositions(a) + StoredPositions(b) {
      if p in StoredPositions(a) {
        var k :| 0 <= k < |a| && IsStoredReport(a[k]) && a[k].position == p;
        assert ab[k] == a[k];
      }
      if p in StoredPositions(b) {
        var k :| 0 <= k < |b| && IsStoredReport(b[k]) && b[k].position == p;
        assert ab[|a| + k] == b[k];
      }
    }
    forall p ensures p in AcceptedPositions(ab) <==> p in AcceptedPositions(a) + AcceptedPositions(b) {
      if p in AcceptedPositions(a) {
        var k :| 0 <= k < |a| && IsAcceptedPut(a[k]) && a[k].position == p;
        assert ab[k] == a[k];
      }
      if p in AcceptedPositions(b) {
        var k :| 0 <= k < |b| && IsAcceptedPut(b[k]) && b[k].position == p;
        assert ab[|a| + k] == b[k];
      }
    }
  }

  // ----- what asking one peer for a quote looks like -----

  predicate IsQuoteEvent(e: Event) { e.Dialed? || e.Evicted? || e.QuoteAsked? }

  predicate JustDialed(run: seq<Event>, k: nat, peerId: Bytes32)
    requires k < |run|
  {
    k > 0 && run[k - 1].Dialed? && run[k - 1].peerId == peerId
  }

  /** Asked of this peer, about this chunk; the outcome is valid exactly for a verified reply, and then the reply's. */
  predicate AsksFor(c: Crypto, e: Event, peerId: Bytes32, address: Bytes32, size: nat)
    requires e.QuoteAsked?
  {
    && e.peerId == peerId && e.address == address && e.size == size
    && (e.outcome.Valid? <==> Answered(c, e.response, address, peerId))
    && (e.outcome.Valid? ==> TakenFrom(e.outcome, e.response))
  }

  /** Peers are asked in order, attempts count up, and only a refusal is followed by another attempt. */
  predicate AskedInOrder(run: seq<Event>) {
    forall k, l :: 0 <= k < l < |run| && run[k].QuoteAsked? && run[l].QuoteAsked? ==>
      || run[k].position < run[l].position
      || (run[k].position == run[l].position && run[k].attempt < run[l].attempt && run[k].outcome.Refused?)
  }

  /** Tries are numbered from 0, stop at the first valid quote, and each later one is on a new connection. */
  predicate QuoteTries(c: Crypto, run: seq<Event>, position: nat, peerId: Bytes32, address: Bytes32, size: nat) {
    && AskedInOrder(run)
    && forall k :: 0 <= k < |run| ==>
        && IsQuoteEvent(run[k])
        && (run[k].QuoteAsked? ==>
            && AsksFor(c, run[k], peerId, address, size)
            && run[k].position == position && run[k].attempt < QUOTE_ATTEMPTS
            && (run[k].outcome.Valid? ==> k == |run| - 1)
            && (run[k].attempt > 0 ==> JustDialed(run, k, peerId)))
  }

  // ----- the contract of a whole store run -----

  datatype QuotedPeer = QuotedPeer(peerId: Bytes32, quote: Quote, commitment: Option<Blob>)

  datatype StoreError =
    | DiscoveryFailed
    | TooFewPeers
    | NoValidQuote(position: nat)
    | ConnectionLost(position: nat)
    | PaymentFailed
    | BadTxHash
    | TooFewAccepted(accepted: nat)

  /** A run taken apart: the phases in the order they happen, and the quotes collected. */
  datatype Parts = Parts(
    discovered: Event,
    quoteRun: seq<Event>,
    payRun: seq<Event>,
    putRun: seq<Event>,
    quoted: seq<QuotedPeer>)

  function WholeRun(p: Parts): seq<Event> {
    [p.discovered] + p.quoteRun + p.payRun + p.putRun
  }

  function QuotesOf(quoted: seq<QuotedPeer>): (quotes: seq<Quote>)
    ensures |quotes| == |quoted|
  {
    seq(|quoted|, i requires 0 <= i < |quoted| => quoted[i].quote)
  }

  function PeerQuotesOf(quoted: seq<QuotedPeer>): (r: seq<PeerQuote>)
    ensures |r| == |quoted|
  {
    seq(|quoted|, i requires 0 <= i < |quoted| => PeerQuote(quoted[i].peerId, quoted[i].quote))
  }

  function SidecarsOf(quoted: seq<QuotedPeer>): (r: seq<Bytes>)
    ensures |r| <= |quoted| && forall blob | blob in r :: |blob| < MsgPack.MAX_LENGTH
  {
    if quoted == [] then [] else
    (match quoted[0].commitment case Some(blob) => [blob] case None => []) + SidecarsOf(quoted[1..])
  }

  /** Quote `i` was given by peer `i` during the run, and verified. */
  predicate QuoteOnRecord(c: Crypto, run: seq<Event>, address: Bytes32, peers: seq<PeerInfo>, quoted: seq<QuotedPeer>,
                          i: nat)
    requires i < |peers| && i < |quoted|
  {
    && quoted[i].peerId == peers[i].peerId
    && Verified(c, quoted[i].quote, address, peers[i].peerId)
    && exists k :: 0 <= k < |run| && run[k].QuoteAsked? && run[k].position == i && run[k].peerId == peers[i].peerId
         && run[k].outcome.Valid? && run[k].outcome.quote == quoted[i].quote &&
           run[k].outcome.commitment == quoted[i].commitment
  }

  /** Every question went to the peer listed at its position, about this chunk, and every valid outcome is verified. */
  predicate AskedOfListed(c: Crypto, run: seq<Event>, address: Bytes32, size: nat, peers: seq<PeerInfo>) {
    forall k :: 0 <= k < |run| && run[k].QuoteAsked? ==>
      && run[k].position < CLOSE_GROUP_SIZE && run[k].position < |peers| && run[k].attempt < QUOTE_ATTEMPTS
      && AsksFor(c, run[k], peers[run[k].position].peerId, address, size)
  }

  predicate QuotePhaseRun(c: Crypto, run: seq<Event>, address: Bytes32, size: nat, peers: seq<PeerInfo>,
                          quoted: seq<QuotedPeer>) {
    && |quoted| <= CLOSE_GROUP_SIZE <= |peers|
    && AskedInOrder(run)
    && AskedOfListed(c, run, address, size, peers)
    && (forall k :: 0 <= k < |run| ==> IsQuoteEvent(run[k]))
    && (forall i :: 0 <= i < |quoted| ==> QuoteOnRecord(c, run, address, peers, quoted, i))
    && Count(run, IsAsked) <= QUOTE_ATTEMPTS * CLOSE_GROUP_SIZE
  }

  /** The calldata of an approval of `total` and of paying the median quote `m`, which is what `total` sums. */
  ghost predicate CallsFor(c: Crypto, quotes: seq<Quote>, vault: Bytes20, m: nat, total: Bytes32, approve: Bytes,
                           payForQuotes: Bytes) {
    && IsMedian(Prices(quotes), m)
    && Value(total) == Sum(Payments(quotes, m, c.keccak)) % TWO_256
    && approve == ApproveBytes(vault, total)
    && payForQuotes == PayForQuotesBytes(Payments(quotes, m, c.keccak))
  }

  /** Both are calldata of one split of these quotes. */
  ghost predicate Priced(c: Crypto, quotes: seq<Quote>, vault: Bytes20, approve: Bytes, payForQuotes: Bytes) {
    exists m: nat, total: Bytes32 :: CallsFor(c, quotes, vault, m, total, approve, payForQuotes)
  }

  /** Approve first, then pay for the quotes, each with the calldata of the split of exactly these quotes. */
  ghost predicate PayPhaseRun(c: Crypto, run: seq<Event>, quotes: seq<Quote>, token: Bytes20, vault: Bytes20) {
    && |run| <= 2
    && (forall k :: 0 <= k < |run| ==> run[k].Paid?)
    && (run != [] ==> exists m, total: Bytes32 ::
          && IsMedian(Prices(quotes), m)
          && Value(total) == Sum(Payments(quotes, m, c.keccak)) % TWO_256
          && run[0].to == token && run[0].calldata == ApproveBytes(vault, total)
          && (|run| == 2 ==>
                && run[0].answer.PayText?
                && run[1].to == vault && run[1].calldata == PayForQuotesBytes(Payments(quotes, m, c.keccak))))
  }

  predicate PutTried(run: seq<Event>, position: nat, attempt: nat) {
    exists k :: 0 <= k < |run| && run[k].PutSent? && run[k].position == position && run[k].attempt == attempt
  }

  /** Each PUT goes to the peer whose quote is at its position, with this chunk and proof. */
  predicate PutsFor(run: seq<Event>, quoted: seq<QuotedPeer>, n: nat, address: Bytes32, content: Bytes, proof: Bytes)
    requires n <= |quoted|
  {
    forall k :: 0 <= k < |run| ==>
      && run[k].PutSent? && run[k].position < n && run[k].attempt < QUOTE_ATTEMPTS
      && run[k].peerId == quoted[run[k].position].peerId
      && run[k].address == address && run[k].content == content && run[k].proof == proof
  }

  /** Positions count up, and nothing more goes to a position that accepted. */
  predicate PutInOrder(run: seq<Event>)
    requires forall k :: 0 <= k < |run| ==> run[k].PutSent?
  {
    forall k, l :: 0 <= k < l < |run| ==>
      && run[k].position <= run[l].position
      && (IsAcceptedPut(run[k]) ==> run[k].position < run[l].position)
  }

  /** PUTs to the first `n` peers, in order: each until it accepts or three tries are used up. */
  ghost predicate PutsTo(run: seq<Event>, quoted: seq<QuotedPeer>, n: nat, address: Bytes32, content: Bytes,
                         proof: Bytes)
    requires n <= |quoted|
  {
    && PutsFor(run, quoted, n, address, content, proof)
    && PutInOrder(run)
    && (forall i: nat, a: nat :: i < n && i !in AcceptedPositions(run) && a < QUOTE_ATTEMPTS ==> PutTried(run, i, a))
    && Count(run, IsPut) <= QUOTE_ATTEMPTS * n
  }

  ghost predicate PutPhaseRun(run: seq<Event>, quoted: seq<QuotedPeer>, address: Bytes32, content: Bytes,
                              txHash: Bytes32) {
    && ProofFits(SingleNodeProof(PeerQuotesOf(quoted), txHash, SidecarsOf(quoted)))
    && PutsTo(run, quoted, |quoted|, address, content, SerializeSingleNodeProof(PeerQuotesOf(quoted), txHash,
      SidecarsOf(quoted)))
  }

  predicate QuoteRefused(run: seq<Event>, position: nat, attempt: nat) {
    exists k :: 0 <= k < |run| && run[k].QuoteAsked? && run[k].position == position && run[k].attempt == attempt
      && run[k].outcome.Refused?
  }

  /** The last peer asked gave a valid quote, and then could not be dialed again. */
  predicate LostAfterQuote(run: seq<Event>, position: nat, peerId: Bytes32) {
    && |run| >= 2 && run[|run| - 1] == Dialed(peerId, false)
    && run[|run| - 2].QuoteAsked? && run[|run| - 2].position == position && run[|run| - 2].outcome.Valid?
  }

  /** The last event is the report that makes the majority. */
  ghost predicate StopsAtMajority(run: seq<Event>) {
    |StoredPositions(run)| == CLOSE_GROUP_MAJORITY && run != [] && IsStoredReport(run[|run| - 1])
  }

  /** Each error is what the run shows, and no earlier phase explains it. */
  ghost predicate Explained(p: Parts, r: StoreError) {
    match r
    case DiscoveryFailed => p.discovered.Discovered? && p.discovered.peers.None?
    case TooFewPeers =>
      p.discovered.Discovered? && p.discovered.peers.Some? && |p.discovered.peers.value| < CLOSE_GROUP_SIZE
    case NoValidQuote(i) =>
      && p.payRun == p.putRun == [] && i == |p.quoted| < CLOSE_GROUP_SIZE
      && forall a: nat :: a < QUOTE_ATTEMPTS ==> QuoteRefused(p.quoteRun, i, a)
    case ConnectionLost(i) =>
      && p.payRun == p.putRun == [] && i == |p.quoted| < CLOSE_GROUP_SIZE
      && p.discovered.Discovered? && p.discovered.peers.Some? && i < |p.discovered.peers.value|
      && LostAfterQuote(p.quoteRun, i, p.discovered.peers.value[i].peerId)
    case PaymentFailed =>
      && p.payRun != [] && p.putRun == []
      && p.payRun[|p.payRun| - 1].Paid? && p.payRun[|p.payRun| - 1].answer.PayFailed?
    case BadTxHash => |p.payRun| == 2 && p.putRun == [] && p.payRun[1].Paid? && p.payRun[1].answer == PayText(None)
    case TooFewAccepted(n) => p.putRun != [] && n == |AcceptedPositions(p.putRun)| < CLOSE_GROUP_MAJORITY
  }

  /** What every run of the store protocol is, whatever the peers, the wallet and the network do. */
  ghost predicate StoreRun(c: Crypto, p: Parts, address: Bytes32, content: Bytes, token: Bytes20, vault: Bytes20,
                           r: Result<(), StoreError>) {
    && p.discovered.Discovered? && p.discovered.address == address
    && (p.quoteRun != [] || p.payRun != [] || p.putRun != [] || r.Ok? ==>
          && p.discovered.peers.Some?
          && QuotePhaseRun(c, p.quoteRun, address, |content|, p.discovered.peers.value, p.quoted))
    && PayPhaseRun(c, p.payRun, QuotesOf(p.quoted), token, vault)
    && (p.payRun != [] ==> |p.quoted| == CLOSE_GROUP_SIZE && |StoredPositions(p.quoteRun)| < CLOSE_GROUP_MAJORITY)
    && (p.putRun != [] ==>
          && |p.payRun| == 2 && p.payRun[1].answer.PayText? && p.payRun[1].answer.txHash.Some?
          && PutPhaseRun(p.putRun, p.quoted, address, content, p.payRun[1].answer.txHash.value))
    && (r.Ok? <==>
          || (p.payRun == [] && p.putRun == [] && |StoredPositions(p.quoteRun)| >= CLOSE_GROUP_MAJORITY)
          || |AcceptedPositions(p.putRun)| >= CLOSE_GROUP_MAJORITY)
    && (r.Ok? && p.payRun == [] ==> StopsAtMajority(p.quoteRun))
    && (r.Err? ==> Explained(p, r.error))
  }

  // ----- what that means -----

  lemma WholeRunAt(p: Parts, k: nat)
    requires k < |WholeRun(p)|
    ensures var n := 1 + |p.quoteRun|;
      WholeRun(p)[k] == if k == 0 then p.discovered
        else if k < n then p.quoteRun[k - 1]
        else if k < n + |p.payRun| then p.payRun[k - n]
        else p.putRun[k - n - |p.payRun|]
  {
  }

  lemma CountParts(p: Parts, wanted: Event -> bool)
    ensures Count(WholeRun(p), wanted)
         == Count([p.discovered], wanted) + Count(p.quoteRun, wanted) + Count(p.payRun, wanted) + Count(p.putRun,
           wanted)
  {
    CountConcat([p.discovered], p.quoteRun, wanted);
    CountConcat([p.discovered] + p.quoteRun, p.payRun, wanted);
    CountConcat([p.discovered] + p.quoteRun + p.payRun, p.putRun, wanted);
  }

  /** Each phase makes only its own kind of call. */
  predicate Sorted(p: Parts) {
    && p.discovered.Discovered?
    && (forall k :: 0 <= k < |p.quoteRun| ==> IsQuoteEvent(p.quoteRun[k]))
    && (forall k :: 0 <= k < |p.payRun| ==> p.payRun[k].Paid?)
    && (forall k :: 0 <= k < |p.putRun| ==> p.putRun[k].PutSent?)
  }

  lemma PaymentsFollowQuotes(p: Parts, k: nat)
    requires Sorted(p) && k < |WholeRun(p)| && WholeRun(p)[k].Paid?
    ensures 1 + |p.quoteRun| <= k && p.payRun != []
  {
    WholeRunAt(p, k);
  }

  /** The event of the quote phase that is on record for position `i`, as an index into the whole run. */
  lemma QuoteInWholeRun(c: Crypto, p: Parts, address: Bytes32, peers: seq<PeerInfo>, i: nat) returns (j: nat)
    requires i < |peers| && i < |p.quoted| && QuoteOnRecord(c, p.quoteRun, address, peers, p.quoted, i)
    ensures j < 1 + |p.quoteRun| && WholeRun(p)[j].QuoteAsked? && WholeRun(p)[j].position == i
    ensures WholeRun(p)[j].peerId == peers[i].peerId
    ensures WholeRun(p)[j].outcome.Valid? && Verified(c, WholeRun(p)[j].outcome.quote, address, peers[i].peerId)
  {
    var k :| 0 <= k < |p.quoteRun| && p.quoteRun[k].QuoteAsked? && p.quoteRun[k].position == i
      && p.quoteRun[k].peerId == peers[i].peerId
      && p.quoteRun[k].outcome.Valid? && p.quoteRun[k].outcome.quote == p.quoted[i].quote;
    j := 1 + k;
    WholeRunAt(p, j);
  }

  /** No payment callback happens before all seven quotes are there, address-matched, peer-bound and signed. */
  lemma NoCallbackBeforeSevenQuotes(c: Crypto, p: Parts, address: Bytes32, content: Bytes, token: Bytes20,
                                    vault: Bytes20,
                                    r: Result<(), StoreError>, k: nat, i: nat)
    requires StoreRun(c, p, address, content, token, vault, r)
    requires k < |WholeRun(p)| && WholeRun(p)[k].Paid? && i < CLOSE_GROUP_SIZE
    ensures p.discovered.peers.Some? && i < |p.discovered.peers.value|
    ensures exists j :: (
      && 0 <= j < k && WholeRun(p)[j].QuoteAsked? && WholeRun(p)[j].position == i
      && WholeRun(p)[j].peerId == p.discovered.peers.value[i].peerId
      && WholeRun(p)[j].outcome.Valid?
      && Verified(c, WholeRun(p)[j].outcome.quote, address, p.discovered.peers.value[i].peerId))
  {
    assert Sorted(p);
    PaymentsFollowQuotes(p, k);
    var j := QuoteInWholeRun(c, p, address, p.discovered.peers.value, i);
  }

  /** An event no phase but the payment phase has is counted there. */
  lemma CountPaid(p: Parts, wanted: Event -> bool)
    requires Sorted(p) && forall e: Event :: wanted(e) ==> e.Paid?
    ensures Count(WholeRun(p), wanted) == Count(p.payRun, wanted)
  {
    CountParts(p, wanted);
    CountNone([p.discovered], wanted);
    CountNone(p.quoteRun, wanted);
    CountNone(p.putRun, wanted);
  }

  lemma CountSorted(p: Parts)
    requires Sorted(p)
    ensures Count(WholeRun(p), IsAsked) == Count(p.quoteRun, IsAsked)
    ensures Count(WholeRun(p), IsPaid) == |p.payRun|
    ensures Count(WholeRun(p), IsPut) == Count(p.putRun, IsPut)
  {
    CountParts(p, IsAsked);
    CountNone([p.discovered], IsAsked);
    CountNone(p.payRun, IsAsked);
    CountNone(p.putRun, IsAsked);
    CountPaid(p, IsPaid);
    CountAll(p.payRun, IsPaid);
    CountParts(p, IsPut);
    CountNone([p.discovered], IsPut);
    CountNone(p.quoteRun, IsPut);
    CountNone(p.payRun, IsPut);
  }

  lemma CountOfTwo(run: seq<Event>, wanted: Event -> bool)
    requires 1 <= |run| <= 2
    ensures Count(run, wanted) == (if wanted(run[0]) then 1 else 0) + if |run| == 2 && wanted(run[1]) then 1 else 0
  {
    assert Count(run[..1], wanted) == Count(run[..1][..0], wanted) + if wanted(run[0]) then 1 else 0;
    assert |run| == 1 ==> run[..1] == run;
  }

  lemma CalldataSelectors(vault: Bytes20, total: Bytes32, payments: seq<DataPayment>)
    ensures HasSelector(ApproveBytes(vault, total), ERC20_APPROVE_SELECTOR)
    ensures !HasSelector(ApproveBytes(vault, total), PAY_FOR_QUOTES_SELECTOR)
    ensures HasSelector(PayForQuotesBytes(payments), PAY_FOR_QUOTES_SELECTOR)
    ensures !HasSelector(PayForQuotesBytes(payments), ERC20_APPROVE_SELECTOR)
  {
    assert ApproveBytes(vault, total)[..4] == ERC20_APPROVE_SELECTOR;
    assert PayForQuotesBytes(payments)[..4] == PAY_FOR_QUOTES_SELECTOR;
    assert ERC20_APPROVE_SELECTOR[0] != PAY_FOR_QUOTES_SELECTOR[0];
  }

  /** The first callback of a payment phase approves, the second pays for the quotes. */
  lemma CallbackKinds(c: Crypto, run: seq<Event>, quotes: seq<Quote>, token: Bytes20, vault: Bytes20)
    requires PayPhaseRun(c, run, quotes, token, vault) && run != []
    ensures IsApprove(run[0]) && !IsPayForQuotes(run[0])
    ensures |run| == 2 ==> IsPayForQuotes(run[1]) && !IsApprove(run[1])
  {
    var m, total: Bytes32 :|
      && Value(total) == Sum(Payments(quotes, m, c.keccak)) % TWO_256
      && run[0].calldata == ApproveBytes(vault, total)
      && (|run| == 2 ==> run[1].calldata == PayForQuotesBytes(Payments(quotes, m, c.keccak)));
    CalldataSelectors(vault, total, Payments(quotes, m, c.keccak));
  }

  lemma CallbacksInOrder(c: Crypto, run: seq<Event>, quotes: seq<Quote>, token: Bytes20, vault: Bytes20)
    requires PayPhaseRun(c, run, quotes, token, vault)
    ensures Count(run, IsApprove) == if run == [] then 0 else 1
    ensures Count(run, IsPayForQuotes) == if |run| == 2 then 1 else 0
  {
    if run != [] {
      CallbackKinds(c, run, quotes, token, vault);
      CountOfTwo(run, IsApprove);
      CountOfTwo(run, IsPayForQuotes);
    }
  }

  lemma {:induction false} CountAll(run: seq<Event>, wanted: Event -> bool)
    requires forall k :: 0 <= k < |run| ==> wanted(run[k])
    ensures Count(run, wanted) == |run|
  {
    if run != [] {
      CountAll(run[..|run| - 1], wanted);
    }
  }

  lemma PositionsOfParts(p: Parts)
    ensures StoredPositions(p.quoteRun) <= StoredPositions(WholeRun(p))
    ensures AcceptedPositions(p.putRun) <= AcceptedPositions(WholeRun(p))
  {
    PositionsOfConcat([p.discovered], p.quoteRun);
    PositionsOfConcat([p.discovered] + p.quoteRun, p.payRun);
    PositionsOfConcat([p.discovered] + p.quoteRun + p.payRun, p.putRun);
  }

  /** On every path, errors included: 21 quote attempts, one approve, one payForQuotes and 21 PUTs at most. */
  lemma CallsAreBounded(c: Crypto, p: Parts, address: Bytes32, content: Bytes, token: Bytes20, vault: Bytes20,
                        r: Result<(), StoreError>)
    requires StoreRun(c, p, address, content, token, vault, r)
    ensures Count(WholeRun(p), IsAsked) <= 21 && Count(WholeRun(p), IsPut) <= 21
    ensures Count(WholeRun(p), IsApprove) <= 1 && Count(WholeRun(p), IsPayForQuotes) <= 1
    ensures Count(WholeRun(p), IsPaid) == Count(WholeRun(p), IsApprove) + Count(WholeRun(p), IsPayForQuotes)
  {
    assert Sorted(p);
    CountSorted(p);
    CountPaid(p, IsApprove);
    CountPaid(p, IsPayForQuotes);
    CallbacksInOrder(c, p.payRun, QuotesOf(p.quoted), token, vault);
    assert p.quoteRun == [] ==> Count(p.quoteRun, IsAsked) == 0;
    assert p.putRun == [] ==> Count(p.putRun, IsPut) == 0;
  }

  /**
   Two callbacks and no more: the approval at the token, then the payment at the vault, of one split of these
   quotes.
   */
  ghost predicate ApprovedAndPaid(c: Crypto, p: Parts, token: Bytes20, vault: Bytes20) {
    && Count(WholeRun(p), IsPaid) == |p.payRun| == 2
    && p.payRun[0].Paid? && p.payRun[0].to == token
    && p.payRun[1].Paid? && p.payRun[1].to == vault
    && Count(WholeRun(p), IsApprove) == 1 && Count(WholeRun(p), IsPayForQuotes) == 1
    && Priced(c, QuotesOf(p.quoted), vault, p.payRun[0].calldata, p.payRun[1].calldata)
  }

  /** This peer's reply had the flag set that it stores this chunk, and a verified quote of its own for it. */
  predicate IsVerifiedReport(c: Crypto, e: Event, address: Bytes32) {
    && e.QuoteAsked? && e.address == address && Answered(c, e.response, address, e.peerId)
    && e.response.value.alreadyStored
  }

  /** Nothing was paid: four of the first seven listed peers each gave a verified report. */
  ghost predicate FoundStored(c: Crypto, p: Parts, address: Bytes32) {
    && Count(WholeRun(p), IsPaid) == 0
    && |StoredPositions(WholeRun(p))| >= CLOSE_GROUP_MAJORITY
    && p.discovered.Discovered? && p.discovered.peers.Some?
    && var run, peers := WholeRun(p), p.discovered.peers.value;
       forall k :: 0 <= k < |run| && IsStoredReport(run[k]) ==>
         && IsVerifiedReport(c, run[k], address)
         && run[k].position < CLOSE_GROUP_SIZE && run[k].position < |peers| &&
           run[k].peerId == peers[run[k].position].peerId
  }

  /** Approved and paid once, and accepted at four positions, each PUT with this chunk and one proof. */
  ghost predicate PaidAndStored(c: Crypto, p: Parts, address: Bytes32, content: Bytes, token: Bytes20, vault: Bytes20) {
    && ApprovedAndPaid(c, p, token, vault)
    && |AcceptedPositions(WholeRun(p))| >= CLOSE_GROUP_MAJORITY
    && exists proof: Bytes :: PutsCarry(WholeRun(p), address, content, proof)
  }

  predicate PutsCarry(run: seq<Event>, address: Bytes32, content: Bytes, proof: Bytes) {
    forall k :: 0 <= k < |run| && run[k].PutSent? ==>
      run[k].address == address && run[k].content == content && run[k].proof == proof
  }

  lemma ReportsAreVerified(c: Crypto, p: Parts, address: Bytes32, size: nat, peers: seq<PeerInfo>, k: nat)
    requires Sorted(p) && QuotePhaseRun(c, p.quoteRun, address, size, peers, p.quoted)
    requires k < |WholeRun(p)| && IsStoredReport(WholeRun(p)[k])
    ensures var e := WholeRun(p)[k];
      && IsVerifiedReport(c, e, address)
      && e.position < CLOSE_GROUP_SIZE && e.position < |peers| && e.peerId == peers[e.position].peerId
  {
    WholeRunAt(p, k);
  }

  lemma PutsInWholeRun(p: Parts, address: Bytes32, content: Bytes, proof: Bytes)
    requires Sorted(p) && PutsCarry(p.putRun, address, content, proof)
    ensures PutsCarry(WholeRun(p), address, content, proof)
  {
    forall k | 0 <= k < |WholeRun(p)| && WholeRun(p)[k].PutSent?
      ensures WholeRun(p)[k].address == address && WholeRun(p)[k].content == content && WholeRun(p)[k].proof == proof
    {
      WholeRunAt(p, k);
    }
  }

  lemma UnpaidIsFound(c: Crypto, p: Parts, address: Bytes32, size: nat)
    requires Sorted(p) && p.discovered.peers.Some? && p.payRun == []
    requires QuotePhaseRun(c, p.quoteRun, address, size, p.discovered.peers.value, p.quoted)
    requires |StoredPositions(p.quoteRun)| >= CLOSE_GROUP_MAJORITY
    ensures FoundStored(c, p, address)
  {
    var run, peers := WholeRun(p), p.discovered.peers.value;
    CountSorted(p);
    PositionsOfParts(p);
    CardinalityMonotone(StoredPositions(p.quoteRun), StoredPositions(run));
    forall k | 0 <= k < |run| && IsStoredReport(run[k])
      ensures IsVerifiedReport(c, run[k], address)
      ensures run[k].position < CLOSE_GROUP_SIZE && run[k].position < |peers| &&
        run[k].peerId == peers[run[k].position].peerId
    {
      ReportsAreVerified(c, p, address, size, peers, k);
    }
  }

  lemma PaidIsStored(c: Crypto, p: Parts, address: Bytes32, content: Bytes, token: Bytes20, vault: Bytes20)
    requires Sorted(p) && |p.payRun| == 2 && PayPhaseRun(c, p.payRun, QuotesOf(p.quoted), token, vault)
    requires p.putRun != [] && PutsCarry(p.putRun, address, content, p.putRun[0].proof)
    requires |AcceptedPositions(p.putRun)| >= CLOSE_GROUP_MAJORITY
    ensures PaidAndStored(c, p, address, content, token, vault)
  {
    PaidTwice(c, p, token, vault);
    PositionsOfParts(p);
    CardinalityMonotone(AcceptedPositions(p.putRun), AcceptedPositions(WholeRun(p)));
    PutsInWholeRun(p, address, content, p.putRun[0].proof);
  }

  /**
   `Ok` means a majority had it already and nothing was paid, or it was approved and paid once and a majority
   took it.
   */
  lemma OkMeansStored(c: Crypto, p: Parts, address: Bytes32, content: Bytes, token: Bytes20, vault: Bytes20)
    requires StoreRun(c, p, address, content, token, vault, Ok(()))
    ensures FoundStored(c, p, address) || PaidAndStored(c, p, address, content, token, vault)
  {
    assert AcceptedPositions([]) == {};
    if p.payRun == [] {
      UnpaidIsFound(c, p, address, |content|);
    } else {
      PaidIsStored(c, p, address, content, token, vault);
    }
  }

  /** A question to a peer was not answered with a verified quote. */
  predicate AskedInVain(c: Crypto, run: seq<Event>, position: nat, attempt: nat, peerId: Bytes32, address: Bytes32) {
    exists k :: 0 <= k < |run| && run[k].QuoteAsked? && run[k].position == position && run[k].attempt == attempt
      && run[k].peerId == peerId && !Answered(c, run[k].response, address, peerId)
  }

  lemma RefusedIsInVain(c: Crypto, run: seq<Event>, address: Bytes32, size: nat, peers: seq<PeerInfo>, i: nat, a: nat)
    requires AskedOfListed(c, run, address, size, peers) && QuoteRefused(run, i, a)
    ensures i < |peers| && AskedInVain(c, run, i, a, peers[i].peerId, address)
  {
    var k :| 0 <= k < |run| && run[k].QuoteAsked? && run[k].position == i && run[k].attempt == a
      && run[k].outcome.Refused?;
    assert AsksFor(c, run[k], peers[i].peerId, address, size);
  }

  /** Attempt numbers differ, so an attempt that was refused was not also answered. */
  lemma RefusedOnly(run: seq<Event>, k: nat)
    requires AskedInOrder(run) && k < |run| && run[k].QuoteAsked?
    requires QuoteRefused(run, run[k].position, run[k].attempt)
    ensures run[k].outcome.Refused?
  {
    var l :| 0 <= l < |run| && run[l].QuoteAsked? && run[l].position == run[k].position
      && run[l].attempt == run[k].attempt && run[l].outcome.Refused?;
    assert k < l || k == l || l < k;
  }

  /** A run without a valid quote asked that peer three times, got no verified quote, and paid and put nothing. */
  lemma NoValidQuoteMeans(c: Crypto, p: Parts, address: Bytes32, content: Bytes, token: Bytes20, vault: Bytes20, i: nat)
    requires StoreRun(c, p, address, content, token, vault, Err(NoValidQuote(i)))
    ensures p.payRun == p.putRun == []
    ensures p.discovered.Discovered? && p.discovered.peers.Some? && i < 7 <= |p.discovered.peers.value|
    ensures var run, peer := p.quoteRun, p.discovered.peers.value[i].peerId;
      && (forall a: nat :: a < 3 ==> AskedInVain(c, run, i, a, peer, address))
      && (forall k :: 0 <= k < |run| && run[k].QuoteAsked? && run[k].position == i ==>
            !Answered(c, run[k].response, address, peer))
  {
    var run := p.quoteRun;
    assert QuoteRefused(run, i, 0);
    var peers := p.discovered.peers.value;
    forall a: nat | a < 3 ensures AskedInVain(c, run, i, a, peers[i].peerId, address) {
      RefusedIsInVain(c, run, address, |content|, peers, i, a);
    }
    forall k | 0 <= k < |run| && run[k].QuoteAsked? && run[k].position == i
      ensures !Answered(c, run[k].response, address, peers[i].peerId)
    {
      assert AsksFor(c, run[k], peers[i].peerId, address, |content|);
      RefusedOnly(run, k);
    }
  }

  lemma PaidTwice(c: Crypto, p: Parts, token: Bytes20, vault: Bytes20)
    requires Sorted(p) && |p.payRun| == 2 && PayPhaseRun(c, p.payRun, QuotesOf(p.quoted), token, vault)
    ensures ApprovedAndPaid(c, p, token, vault)
  {
    CountSorted(p);
    CountPaid(p, IsApprove);
    CountPaid(p, IsPayForQuotes);
    CallbacksInOrder(c, p.payRun, QuotesOf(p.quoted), token, vault);
    var m, total := PaidCalldata(c, p.payRun, QuotesOf(p.quoted), token, vault);
  }

  /** A verified reply from position `i` carried this quote. */
  predicate QuoteReceived(run: seq<Event>, i: nat, q: Quote) {
    exists k :: 0 <= k < |run| && run[k].QuoteAsked? && run[k].position == i && run[k].outcome.Valid?
      && run[k].response.Some? && ParseQuote(run[k].response.value.quote) == Ok(q)
  }

  /** The commitment a node sent along with the quote that was taken from it. */
  predicate CarriesCommitment(e: Event) {
    e.QuoteAsked? && e.outcome.Valid? && e.response.Some? && e.response.value.commitment.Some?
  }

  predicate CommitmentReceived(run: seq<Event>, i: nat, blob: Bytes) {
    exists k :: 0 <= k < |run| && CarriesCommitment(run[k]) && run[k].position == i
      && run[k].response.value.commitment.value == blob
  }

  /** Sidecar `k` came from position `at[k]`; positions count up, and none with a commitment is left out. */
  predicate SidecarsCameFrom(run: seq<Event>, sidecars: seq<Bytes>, at: seq<nat>) {
    && |at| == |sidecars|
    && (forall j, k :: 0 <= j < k < |at| ==> at[j] < at[k])
    && (forall k :: 0 <= k < |at| ==> at[k] < CLOSE_GROUP_SIZE && CommitmentReceived(run, at[k], sidecars[k]))
    && (forall k :: 0 <= k < |run| && CarriesCommitment(run[k]) ==> run[k].position in at)
  }

  /** The sidecars are the commitments that came with the quotes, all of them, in the order of the peers. */
  ghost predicate SidecarsReceived(run: seq<Event>, sidecars: seq<Bytes>) {
    exists at: seq<nat> :: SidecarsCameFrom(run, sidecars, at)
  }

  /** The positions of the quotes that came with a commitment. */
  ghost function CommittedFrom(quoted: seq<QuotedPeer>, first: nat): seq<nat> {
    if quoted == [] then [] else
    (if quoted[0].commitment.Some? then [first] else []) + CommittedFrom(quoted[1..], first + 1)
  }

  /** Ascending positions, counted from `first`, that miss no quote with a commitment. */
  predicate Lists(quoted: seq<QuotedPeer>, first: nat, at: seq<nat>) {
    && (forall k :: 0 <= k < |at| ==> first <= at[k] < first + |quoted|)
    && (forall j, k :: 0 <= j < k < |at| ==> at[j] < at[k])
    && (forall i :: 0 <= i < |quoted| && quoted[i].commitment.Some? ==> first + i in at)
  }

  lemma ListsMore(quoted: seq<QuotedPeer>, first: nat, at: seq<nat>)
    requires quoted != [] && Lists(quoted[1..], first + 1, at)
    ensures Lists(quoted, first, if quoted[0].commitment.Some? then [first] + at else at)
  {
    forall i | 0 < i < |quoted| && quoted[i].commitment.Some? ensures first + i in at {
      assert quoted[1..][i - 1] == quoted[i];
      assert (first + 1) + (i - 1) in at;
    }
  }

  lemma {:induction false} CommittedInOrder(quoted: seq<QuotedPeer>, first: nat)
    ensures Lists(quoted, first, CommittedFrom(quoted, first))
  {
    if quoted != [] {
      CommittedInOrder(quoted[1..], first + 1);
      ListsMore(quoted, first, CommittedFrom(quoted[1..], first + 1));
    }
  }

  /** Sidecar `k` is the commitment of the quote at `at[k]`, counted from `first`. */
  predicate Paired(quoted: seq<QuotedPeer>, first: nat, at: seq<nat>, sidecars: seq<Bytes>) {
    && |at| == |sidecars|
    && forall k :: 0 <= k < |at| ==>
         first <= at[k] < first + |quoted| && quoted[at[k] - first].commitment == Some(sidecars[k])
  }

  lemma PairedMore(quoted: seq<QuotedPeer>, first: nat, at: seq<nat>, sidecars: seq<Bytes>)
    requires quoted != [] && Paired(quoted[1..], first + 1, at, sidecars)
    ensures match quoted[0].commitment
      case None => Paired(quoted, first, at, sidecars)
      case Some(blob) => Paired(quoted, first, [first] + at, [blob] + sidecars)
  {
  }

  lemma {:induction false} SidecarsArePaired(quoted: seq<QuotedPeer>, first: nat)
    ensures Paired(quoted, first, CommittedFrom(quoted, first), SidecarsOf(quoted))
  {
    if quoted != [] {
      SidecarsArePaired(quoted[1..], first + 1);
      PairedMore(quoted, first, CommittedFrom(quoted[1..], first + 1), SidecarsOf(quoted[1..]));
    }
  }

  lemma OneValidEach(run: seq<Event>, k: nat, l: nat)
    requires AskedInOrder(run) && k < |run| && l < |run| && run[k].QuoteAsked? && run[l].QuoteAsked?
    requires run[k].outcome.Valid? && run[l].outcome.Valid? && run[k].position == run[l].position
    ensures k == l
  {
    assert k < l || k == l || l < k;
  }

  lemma OutcomeIsReceived(c: Crypto, run: seq<Event>, address: Bytes32, size: nat, peers: seq<PeerInfo>, k: nat)
    requires AskedOfListed(c, run, address, size, peers)
    requires k < |run| && run[k].QuoteAsked? && run[k].outcome.Valid?
    ensures run[k].response.Some? && run[k].outcome.commitment == run[k].response.value.commitment
    ensures QuoteReceived(run, run[k].position, run[k].outcome.quote)
  {
    assert TakenFrom(run[k].outcome, run[k].response);
  }

  lemma RecordedAt(c: Crypto, run: seq<Event>, address: Bytes32, peers: seq<PeerInfo>, quoted: seq<QuotedPeer>, i: nat)
    returns (k: nat)
    requires i < |peers| && i < |quoted| && QuoteOnRecord(c, run, address, peers, quoted, i)
    ensures k < |run| && run[k].QuoteAsked? && run[k].position == i && run[k].outcome.Valid?
    ensures run[k].outcome.quote == quoted[i].quote && run[k].outcome.commitment == quoted[i].commitment
  {
    k :| 0 <= k < |run| && run[k].QuoteAsked? && run[k].position == i && run[k].outcome.Valid?
      && run[k].outcome.quote == quoted[i].quote && run[k].outcome.commitment == quoted[i].commitment;
  }

  /** What is on record for a position is what came from it. */
  lemma RecordIsReceived(c: Crypto, run: seq<Event>, address: Bytes32, size: nat, peers: seq<PeerInfo>,
                         quoted: seq<QuotedPeer>, i: nat)
    requires AskedOfListed(c, run, address, size, peers)
    requires i < |peers| && i < |quoted| && QuoteOnRecord(c, run, address, peers, quoted, i)
    ensures QuoteReceived(run, i, quoted[i].quote)
    ensures quoted[i].commitment.Some? ==> CommitmentReceived(run, i, quoted[i].commitment.value)
  {
    var k := RecordedAt(c, run, address, peers, quoted, i);
    OutcomeIsReceived(c, run, address, size, peers, k);
    assert quoted[i].commitment.Some? ==> CarriesCommitment(run[k]);
  }

  /** A position has one valid outcome at most, so a commitment that came is on record. */
  lemma CommitmentIsRecorded(c: Crypto, run: seq<Event>, address: Bytes32, size: nat, peers: seq<PeerInfo>,
                             quoted: seq<QuotedPeer>, k: nat)
    requires AskedInOrder(run) && AskedOfListed(c, run, address, size, peers)
    requires k < |run| && CarriesCommitment(run[k]) && run[k].position < |quoted| && run[k].position < |peers|
    requires QuoteOnRecord(c, run, address, peers, quoted, run[k].position)
    ensures quoted[run[k].position].commitment.Some?
  {
    var l := RecordedAt(c, run, address, peers, quoted, run[k].position);
    OneValidEach(run, k, l);
    OutcomeIsReceived(c, run, address, size, peers, k);
  }

  lemma CommitmentsAreListed(c: Crypto, run: seq<Event>, address: Bytes32, size: nat, peers: seq<PeerInfo>,
                             quoted: seq<QuotedPeer>, k: nat)
    requires QuotePhaseRun(c, run, address, size, peers, quoted) && |quoted| == CLOSE_GROUP_SIZE
    requires k < |run| && CarriesCommitment(run[k])
    ensures run[k].position in CommittedFrom(quoted, 0)
  {
    var i := run[k].position;
    assert QuoteOnRecord(c, run, address, peers, quoted, i);
    CommitmentIsRecorded(c, run, address, size, peers, quoted, k);
    CommittedInOrder(quoted, 0);
    assert 0 + i in CommittedFrom(quoted, 0);
  }

  lemma SidecarsAreCommitments(c: Crypto, run: seq<Event>, address: Bytes32, size: nat, peers: seq<PeerInfo>,
                               quoted: seq<QuotedPeer>)
    requires QuotePhaseRun(c, run, address, size, peers, quoted) && |quoted| == CLOSE_GROUP_SIZE
    ensures SidecarsReceived(run, SidecarsOf(quoted))
  {
    var at, sidecars := CommittedFrom(quoted, 0), SidecarsOf(quoted);
    CommittedInOrder(quoted, 0);
    SidecarsArePaired(quoted, 0);
    forall k | 0 <= k < |at| ensures CommitmentReceived(run, at[k], sidecars[k]) {
      assert QuoteOnRecord(c, run, address, peers, quoted, at[k]);
      RecordIsReceived(c, run, address, size, peers, quoted, at[k]);
    }
    forall k | 0 <= k < |run| && CarriesCommitment(run[k]) ensures run[k].position in at {
      CommitmentsAreListed(c, run, address, size, peers, quoted, k);
    }
    assert SidecarsCameFrom(run, sidecars, at);
  }

  /** The entry is the verified quote that position `i`, this peer, sent, and the line pays that quote. */
  predicate EntryLinesUp(c: Crypto, run: seq<Event>, i: nat, entry: PeerQuote, line: DataPayment, address: Bytes32,
                         peerId: Bytes32) {
    && entry.peerId == peerId && QuoteReceived(run, i, entry.quote)
    && Verified(c, entry.quote, address, peerId)
    && line.rewards == entry.quote.rewardsAddress && line.quoteHash == c.keccak(HashPreimage(entry.quote))
  }

  /**
   Entry `i` of the payment pays the quote that is entry `i` of the proof, which listed peer `i` sent, and the
   proof has every commitment that came with these quotes.
   */
  ghost predicate LinedUp(c: Crypto, run: seq<Event>, proof: PaymentProof, paid: seq<DataPayment>, address: Bytes32,
                          peers: seq<PeerInfo>, txHash: Bytes32) {
    && proof.txHashes == [txHash]
    && SidecarsReceived(run, proof.sidecars)
    && |proof.peerQuotes| == |paid| == CLOSE_GROUP_SIZE <= |peers|
    && forall i :: 0 <= i < CLOSE_GROUP_SIZE ==>
         EntryLinesUp(c, run, i, proof.peerQuotes[i], paid[i], address, peers[i].peerId)
  }

  lemma {:induction false} QuotedLinesUp(c: Crypto, run: seq<Event>, quoted: seq<QuotedPeer>, address: Bytes32,
                                         size: nat, peers: seq<PeerInfo>, m: nat, i: nat)
    requires AskedOfListed(c, run, address, size, peers)
    requires i < |peers| && i < |quoted| && QuoteOnRecord(c, run, address, peers, quoted, i)
    ensures EntryLinesUp(c, run, i, PeerQuotesOf(quoted)[i], Payments(QuotesOf(quoted), m, c.keccak)[i], address,
                         peers[i].peerId)
  {
    RecordIsReceived(c, run, address, size, peers, quoted, i);
    assert Payments(QuotesOf(quoted), m, c.keccak)[i] == PaymentFor(QuotesOf(quoted), m, c.keccak, i);
  }

  lemma SplitLinesUp(c: Crypto, run: seq<Event>, quoted: seq<QuotedPeer>, address: Bytes32, size: nat,
                     peers: seq<PeerInfo>, m: nat, txHash: Bytes32)
    requires QuotePhaseRun(c, run, address, size, peers, quoted) && |quoted| == CLOSE_GROUP_SIZE
    ensures LinedUp(c, run, SingleNodeProof(PeerQuotesOf(quoted), txHash, SidecarsOf(quoted)),
                    Payments(QuotesOf(quoted), m, c.keccak), address, peers, txHash)
  {
    SidecarsAreCommitments(c, run, address, size, peers, quoted);
    forall i | 0 <= i < CLOSE_GROUP_SIZE
      ensures EntryLinesUp(c, run, i, PeerQuotesOf(quoted)[i], Payments(QuotesOf(quoted), m, c.keccak)[i], address,
                           peers[i].peerId)
    {
      assert QuoteOnRecord(c, run, address, peers, quoted, i);
      QuotedLinesUp(c, run, quoted, address, size, peers, m, i);
    }
  }

  /** What is read back from the bytes sent to the vault and to each storing peer lines up. */
  ghost predicate WireLinedUp(c: Crypto, run: seq<Event>, proof: Bytes, calldata: Bytes, address: Bytes32,
                              peers: seq<PeerInfo>, txHash: Bytes32) {
    match (ParseSingleNodeProof(proof), DecodePayForQuotes(calldata))
    case (Ok(p), Some(paid)) => LinedUp(c, run, p, paid, address, peers, txHash)
    case _ => false
  }

  lemma SentLinesUp(c: Crypto, run: seq<Event>, proof: PaymentProof, paid: seq<DataPayment>, address: Bytes32,
                    peers: seq<PeerInfo>, txHash: Bytes32)
    requires LinedUp(c, run, proof, paid, address, peers, txHash) && ProofFits(proof)
    ensures WireLinedUp(c, run, EncodeProof(proof), PayForQuotesBytes(paid), address, peers, txHash)
  {
    assert EncodeProof(proof) == EncodeProof(proof) + [];
    ProofRoundTrip(proof, []);
    PayForQuotesRoundTrip(paid);
  }

  lemma PaidCalldata(c: Crypto, run: seq<Event>, quotes: seq<Quote>, token: Bytes20, vault: Bytes20) returns (m: nat,
                     total: Bytes32)
    requires PayPhaseRun(c, run, quotes, token, vault) && |run| == 2
    ensures run[0].Paid? && run[1].Paid? && CallsFor(c, quotes, vault, m, total, run[0].calldata, run[1].calldata)
  {
    m, total :|
      && IsMedian(Prices(quotes), m)
      && Value(total) == Sum(Payments(quotes, m, c.keccak)) % TWO_256
      && run[0].to == token && run[0].calldata == ApproveBytes(vault, total)
      && run[0].answer.PayText?
      && run[1].to == vault && run[1].calldata == PayForQuotesBytes(Payments(quotes, m, c.keccak));
  }

  lemma ProofAndPaymentLineUp(c: Crypto, p: Parts, address: Bytes32, content: Bytes, token: Bytes20, vault: Bytes20,
                              r: Result<(), StoreError>,
                              k: nat)
    requires StoreRun(c, p, address, content, token, vault, r) && k < |p.putRun|
    ensures p.discovered.peers.Some? && |p.payRun| == 2 && p.payRun[1].answer.PayText? &&
      p.payRun[1].answer.txHash.Some?
    ensures WireLinedUp(c, p.quoteRun, p.putRun[k].proof, p.payRun[1].calldata, address, p.discovered.peers.value,
                        p.payRun[1].answer.txHash.value)
  {
    var peers, txHash := p.discovered.peers.value, p.payRun[1].answer.txHash.value;
    var m, _ := PaidCalldata(c, p.payRun, QuotesOf(p.quoted), token, vault);
    var proof := SingleNodeProof(PeerQuotesOf(p.quoted), txHash, SidecarsOf(p.quoted));
    SplitLinesUp(c, p.quoteRun, p.quoted, address, |content|, peers, m, txHash);
    SentLinesUp(c, p.quoteRun, proof, Payments(QuotesOf(p.quoted), m, c.keccak), address, peers, txHash);
  }
}
