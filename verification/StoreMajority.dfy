/** What a majority of positions means in peers, and what a finished upload means for each of its items. */
module StoreMajority {
  import opened Bytes
  import opened Payment
  import PaymentWire
  import opened Primitives
  import opened Split
  import opened StoreTrace
  import StoreProtocol
  import Upload

  /** Discovery listed seven different peers first. */
  predicate DistinctPeers(peers: seq<PeerInfo>) {
    forall i, j :: 0 <= i < j < |peers| && j < CLOSE_GROUP_SIZE ==> peers[i].peerId != peers[j].peerId
  }

  ghost function PeersAt(positions: set<nat>, peers: seq<PeerInfo>): set<Bytes32> {
    set i | i in positions && i < |peers| :: peers[i].peerId
  }

  /** The peers that accepted a PUT of this chunk. */
  ghost function AcceptingPeers(run: seq<Event>, address: Bytes32, content: Bytes): set<Bytes32> {
    set k | 0 <= k < |run| && IsAcceptedPut(run[k]) && run[k].address == address &&
      run[k].content == content :: run[k].peerId
  }

  /** The peers that reported this chunk stored, each with a verified quote of its own for it. */
  ghost function Reporters(c: Crypto, run: seq<Event>, address: Bytes32): set<Bytes32> {
    set k | 0 <= k < |run| && IsVerifiedReport(c, run[k], address) :: run[k].peerId
  }

  // ----- what a majority is -----

  /** Any two sets of `n` of the seven positions have one in common. */
  ghost predicate AlwaysMeet(n: nat) {
    forall a: set<nat>, b: set<nat> ::
      a <= Below(CLOSE_GROUP_SIZE) && b <= Below(CLOSE_GROUP_SIZE) && |a| == |b| == n ==> a * b != {}
  }

  lemma LargeSetsMeet(a: set<nat>, b: set<nat>)
    requires a <= Below(7) && b <= Below(7) && |a| + |b| > 7
    ensures a * b != {}
  {
    BelowSize(7);
    CardinalityMonotone(a + b, Below(7));
  }

  lemma SmallSetsApart(n: nat) returns (low: set<nat>, high: set<nat>)
    requires n <= 3
    ensures |low| == |high| == n
    ensures (forall i :: i in low ==> i < n) && (forall i :: i in high ==> 7 - n <= i < 7)
  {
    if n == 0 {
      low, high := {}, {};
    } else {
      low, high := SmallSetsApart(n - 1);
      low, high := low + {n - 1}, high + {7 - n};
    }
  }

  /** Four of seven is the least majority: any two of that size meet, and of a smaller size some do not. */
  lemma MajorityIsLeastThatMeets(n: nat)
    ensures CLOSE_GROUP_SIZE == 7
    ensures AlwaysMeet(n) <==> n >= CLOSE_GROUP_MAJORITY
  {
    if n >= CLOSE_GROUP_MAJORITY {
      forall a: set<nat>, b: set<nat> | a <= Below(7) && b <= Below(7) && |a| == |b| == n ensures a * b != {} {
        LargeSetsMeet(a, b);
      }
    } else {
      var low, high := SmallSetsApart(n);
      assert low <= Below(7) && high <= Below(7) && low * high == {};
    }
  }

  // ----- positions and peers -----

  lemma OneMorePeer(others: set<nat>, i: nat, peers: seq<PeerInfo>)
    requires i < |peers|
    ensures PeersAt(others + {i}, peers) == PeersAt(others, peers) + {peers[i].peerId}
  {
    var all := others + {i};
    forall id ensures id in PeersAt(all, peers) <==> id in PeersAt(others, peers) + {peers[i].peerId} {
      if id in PeersAt(all, peers) {
        var k :| k in all && k < |peers| && peers[k].peerId == id;
      }
    }
  }

  lemma NewPeer(others: set<nat>, i: nat, peers: seq<PeerInfo>)
    requires DistinctPeers(peers) && |peers| >= CLOSE_GROUP_SIZE > i && i !in others
    requires forall k :: k in others ==> k < CLOSE_GROUP_SIZE
    ensures peers[i].peerId !in PeersAt(others, peers)
  {
    forall k | k in others ensures peers[k].peerId != peers[i].peerId {
      assert k < i || i < k;
    }
  }

  lemma {:induction false} DistinctPeersCount(positions: set<nat>, peers: seq<PeerInfo>)
    requires DistinctPeers(peers) && |peers| >= CLOSE_GROUP_SIZE
    requires forall i :: i in positions ==> i < CLOSE_GROUP_SIZE
    ensures |PeersAt(positions, peers)| == |positions|
  {
    if positions == {} {
      assert PeersAt(positions, peers) == {};
    } else {
      var i :| i in positions;
      var others := positions - {i};
      assert positions == others + {i};
      DistinctPeersCount(others, peers);
      OneMorePeer(others, i, peers);
      NewPeer(others, i, peers);
    }
  }

  lemma {:induction false} PeersAtMost(positions: set<nat>, peers: seq<PeerInfo>)
    ensures |PeersAt(positions, peers)| <= |positions|
  {
    if positions == {} {
      assert PeersAt(positions, peers) == {};
    } else {
      var i :| i in positions;
      var others := positions - {i};
      assert positions == others + {i};
      PeersAtMost(others, peers);
      if i < |peers| {
        OneMorePeer(others, i, peers);
      } else {
        assert PeersAt(positions, peers) == PeersAt(others, peers);
      }
    }
  }

  // ----- success means four different peers when seven different ones are listed -----

  lemma AcceptedPositionsAreAcceptingPeers(c: Crypto, p: Parts, address: Bytes32, content: Bytes, token: Bytes20,
                                           vault: Bytes20,
                                           r: Result<(), StoreError>)
    requires StoreRun(c, p, address, content, token, vault, r) && p.putRun != []
    ensures p.discovered.peers.Some? && |p.discovered.peers.value| >= CLOSE_GROUP_SIZE
    ensures forall i :: i in AcceptedPositions(p.putRun) ==> i < CLOSE_GROUP_SIZE
    ensures PeersAt(AcceptedPositions(p.putRun), p.discovered.peers.value) <= AcceptingPeers(p.putRun, address, content)
  {
    var peers, run := p.discovered.peers.value, p.putRun;
    forall i | i in AcceptedPositions(run)
      ensures i < CLOSE_GROUP_SIZE && peers[i].peerId in AcceptingPeers(run, address, content)
    {
      var k :| 0 <= k < |run| && IsAcceptedPut(run[k]) && run[k].position == i;
      assert run[k].peerId == p.quoted[i].peerId;
      assert QuoteOnRecord(c, p.quoteRun, address, peers, p.quoted, i);
    }
  }

  /** With distinct peers listed, `Ok` after paying means four different peers accepted this chunk. */
  lemma PaidMeansFourPeers(c: Crypto, p: Parts, address: Bytes32, content: Bytes, token: Bytes20, vault: Bytes20)
    requires StoreRun(c, p, address, content, token, vault, Ok(())) && p.payRun != []
    requires p.discovered.peers.Some? && DistinctPeers(p.discovered.peers.value)
    ensures |AcceptingPeers(p.putRun, address, content)| >= CLOSE_GROUP_MAJORITY
  {
    assert AcceptedPositions([]) == {};
    AcceptedPositionsAreAcceptingPeers(c, p, address, content, token, vault, Ok(()));
    DistinctPeersCount(AcceptedPositions(p.putRun), p.discovered.peers.value);
    CardinalityMonotone(PeersAt(AcceptedPositions(p.putRun), p.discovered.peers.value), AcceptingPeers(p.putRun,
      address, content));
  }

  /** The peers at the positions that reported are the peers that reported, and every report is verified. */
  lemma StoredPositionsAreReporters(c: Crypto, run: seq<Event>, address: Bytes32, size: nat, peers: seq<PeerInfo>,
                                    quoted: seq<QuotedPeer>)
    requires QuotePhaseRun(c, run, address, size, peers, quoted)
    ensures forall i :: i in StoredPositions(run) ==> i < CLOSE_GROUP_SIZE
    ensures PeersAt(StoredPositions(run), peers) == Reporters(c, run, address)
  {
    forall id ensures id in PeersAt(StoredPositions(run), peers) <==> id in Reporters(c, run, address) {
      if id in PeersAt(StoredPositions(run), peers) {
        var i :| i in StoredPositions(run) && i < |peers| && peers[i].peerId == id;
        var k :| 0 <= k < |run| && IsStoredReport(run[k]) && run[k].position == i;
        assert IsVerifiedReport(c, run[k], address);
      }
      if id in Reporters(c, run, address) {
        var k :| 0 <= k < |run| && IsVerifiedReport(c, run[k], address) && run[k].peerId == id;
        assert run[k].position in StoredPositions(run);
      }
    }
  }

  /** With distinct peers listed, `Ok` without paying means four different peers gave a verified report. */
  lemma UnpaidMeansFourPeers(c: Crypto, p: Parts, address: Bytes32, content: Bytes, token: Bytes20, vault: Bytes20)
    requires StoreRun(c, p, address, content, token, vault, Ok(())) && p.payRun == []
    requires p.discovered.peers.Some? && DistinctPeers(p.discovered.peers.value)
    ensures |Reporters(c, p.quoteRun, address)| >= CLOSE_GROUP_MAJORITY
  {
    assert AcceptedPositions([]) == {};
    StoredPositionsAreReporters(c, p.quoteRun, address, |content|, p.discovered.peers.value, p.quoted);
    DistinctPeersCount(StoredPositions(p.quoteRun), p.discovered.peers.value);
  }

  // ----- and only then -----

  /** A node's reply with this quote, its flag and no commitment. */
  function ReplyWith(q: Quote, alreadyStored: bool): QuoteReply
    requires QuoteFits(q)
  {
    QuoteReply(EncodeQuote(q), alreadyStored, None)
  }

  lemma ReplyIsTaken(c: Crypto, q: Quote, alreadyStored: bool, address: Bytes32, peerId: Bytes32)
    requires Verified(c, q, address, peerId)
    ensures QuoteFits(q)
    ensures Answered(c, Some(ReplyWith(q, alreadyStored)), address, peerId)
    ensures TakenFrom(Valid(q, alreadyStored, None), Some(ReplyWith(q, alreadyStored)))
  {
    assert EncodeQuote(q) + [] == EncodeQuote(q);
    PaymentWire.QuoteRoundTrip(q, []);
  }

  /** The first `n` peers, pooled already, each give their quote at once; those in `stored` report the chunk stored. */
  function ReportRun(peers: seq<PeerInfo>, quotes: seq<Quote>, address: Bytes32, size: nat, n: nat,
                     stored: set<nat>): (run: seq<Event>)
    requires n <= |quotes| && n <= |peers| && forall k :: 0 <= k < n ==> QuoteFits(quotes[k])
    ensures |run| == n
  {
    seq(n, k requires 0 <= k < n =>
      QuoteAsked(k, 0, peers[k].peerId, address, size, Some(ReplyWith(quotes[k], k in stored)),
                 Valid(quotes[k], k in stored, None)))
  }

  function QuotedFirst(peers: seq<PeerInfo>, quotes: seq<Quote>, n: nat): (quoted: seq<QuotedPeer>)
    requires n <= |quotes| && n <= |peers|
    ensures |quoted| == n
  {
    seq(n, k requires 0 <= k < n => QuotedPeer(peers[k].peerId, quotes[k], None))
  }

  /** Each peer's quote is verified, and short enough to have come in a frame. */
  predicate AllVerified(c: Crypto, quotes: seq<Quote>, address: Bytes32, peers: seq<PeerInfo>) {
    && |quotes| <= |peers|
    && forall i :: 0 <= i < |quotes| ==> Verified(c, quotes[i], address, peers[i].peerId) && QuoteFits(quotes[i])
  }

  lemma ReportRunAsks(c: Crypto, peers: seq<PeerInfo>, quotes: seq<Quote>, address: Bytes32, size: nat, n: nat,
                      stored: set<nat>, k: nat)
    requires k < n <= |quotes| && AllVerified(c, quotes, address, peers)
    ensures AsksFor(c, ReportRun(peers, quotes, address, size, n, stored)[k], peers[k].peerId, address, size)
  {
    ReplyIsTaken(c, quotes[k], k in stored, address, peers[k].peerId);
  }

  lemma ReportRunIsListed(c: Crypto, peers: seq<PeerInfo>, quotes: seq<Quote>, address: Bytes32, size: nat, n: nat,
                          stored: set<nat>)
    requires n <= |quotes| == CLOSE_GROUP_SIZE && AllVerified(c, quotes, address, peers)
    ensures AskedOfListed(c, ReportRun(peers, quotes, address, size, n, stored), address, size, peers)
  {
    forall k | 0 <= k < n
      ensures AsksFor(c, ReportRun(peers, quotes, address, size, n, stored)[k], peers[k].peerId, address, size)
    {
      ReportRunAsks(c, peers, quotes, address, size, n, stored, k);
    }
  }

  lemma ReportRunRecords(c: Crypto, peers: seq<PeerInfo>, quotes: seq<Quote>, address: Bytes32, size: nat, n: nat,
                         stored: set<nat>, i: nat)
    requires i + 1 < n <= |quotes| && AllVerified(c, quotes, address, peers)
    ensures QuoteOnRecord(c, ReportRun(peers, quotes, address, size, n, stored), address, peers,
                          QuotedFirst(peers, quotes, n - 1), i)
  {
    var run := ReportRun(peers, quotes, address, size, n, stored);
    assert run[i].QuoteAsked? && run[i].position == i;
  }

  /** A run of questions only, at most one for each position. */
  predicate AskedOnceEach(run: seq<Event>) {
    |run| <= CLOSE_GROUP_SIZE && forall k :: 0 <= k < |run| ==> run[k].QuoteAsked? && run[k].position == k
  }

  lemma OnceEachIsPhase(c: Crypto, run: seq<Event>, address: Bytes32, size: nat, peers: seq<PeerInfo>,
                        quoted: seq<QuotedPeer>)
    requires AskedOnceEach(run) && |quoted| <= CLOSE_GROUP_SIZE <= |peers|
    requires AskedOfListed(c, run, address, size, peers)
    requires forall i :: 0 <= i < |quoted| ==> QuoteOnRecord(c, run, address, peers, quoted, i)
    ensures QuotePhaseRun(c, run, address, size, peers, quoted)
  {
    CountAll(run, IsAsked);
  }

  lemma ReportRunIsPhase(c: Crypto, peers: seq<PeerInfo>, quotes: seq<Quote>, address: Bytes32, size: nat, n: nat,
                         stored: set<nat>)
    requires 0 < n <= |quotes| == CLOSE_GROUP_SIZE && AllVerified(c, quotes, address, peers)
    ensures QuotePhaseRun(c, ReportRun(peers, quotes, address, size, n, stored), address, size, peers,
      QuotedFirst(peers, quotes, n - 1))
  {
    var run, quoted := ReportRun(peers, quotes, address, size, n, stored), QuotedFirst(peers, quotes, n - 1);
    ReportRunIsListed(c, peers, quotes, address, size, n, stored);
    forall i | 0 <= i < |quoted| ensures QuoteOnRecord(c, run, address, peers, quoted, i) {
      ReportRunRecords(c, peers, quotes, address, size, n, stored, i);
    }
    OnceEachIsPhase(c, run, address, size, peers, quoted);
  }

  lemma ReportRunStores(peers: seq<PeerInfo>, quotes: seq<Quote>, address: Bytes32, size: nat, n: nat, stored: set<nat>)
    requires n <= |quotes| && n <= |peers| && forall k :: 0 <= k < n ==> QuoteFits(quotes[k])
    requires forall i :: i in stored ==> i < n
    ensures StoredPositions(ReportRun(peers, quotes, address, size, n, stored)) == stored
  {
    var run := ReportRun(peers, quotes, address, size, n, stored);
    forall i ensures i in StoredPositions(run) <==> i in stored {
      if i in stored {
        assert IsStoredReport(run[i]) && run[i].position == i;
      }
    }
  }

  /** Four verified reports at any four positions end in `Ok` without a payment, at the last of them. */
  lemma FourReportsSuffice(c: Crypto, peers: seq<PeerInfo>, quotes: seq<Quote>, address: Bytes32, content: Bytes,
                           token: Bytes20,
                           vault: Bytes20, n: nat, stored: set<nat>) returns (p: Parts)
    requires 0 < n <= |quotes| == CLOSE_GROUP_SIZE <= |peers|
    requires forall i :: 0 <= i < |quotes| ==> Verified(c, quotes[i], address, peers[i].peerId)
    requires |stored| == CLOSE_GROUP_MAJORITY && n - 1 in stored && forall i :: i in stored ==> i < n
    ensures StoreRun(c, p, address, content, token, vault, Ok(()))
    ensures p.discovered == Discovered(address, Some(peers)) && p.payRun == []
    ensures Reporters(c, p.quoteRun, address) == PeersAt(stored, peers)
  {
    assert AllVerified(c, quotes, address, peers);
    var run, quoted := ReportRun(peers, quotes, address, |content|, n, stored), QuotedFirst(peers, quotes, n - 1);
    p := Parts(Discovered(address, Some(peers)), run, [], [], quoted);
    ReportRunIsPhase(c, peers, quotes, address, |content|, n, stored);
    ReportRunStores(peers, quotes, address, |content|, n, stored);
    StoredPositionsAreReporters(c, run, address, |content|, peers, quoted);
    StoreProtocol.EndsWithQuotes(c, p, address, content, token, vault, Ok(()));
  }

  lemma TwoMore(i: nat, j: nat) returns (x: nat, y: nat)
    requires i < j < CLOSE_GROUP_SIZE
    ensures x < CLOSE_GROUP_SIZE && y < CLOSE_GROUP_SIZE && |{i, j, x, y}| == 4
  {
    x := if i > 0 then 0 else if j > 1 then 1 else 2;
    y := if i > 3 || j < 3 then 3 else if j != 4 then 4 else 5;
    assert {i, j, x, y} - {i} - {j} - {x} == {y};
  }

  /** Four positions, the last of them `n - 1`, that are at most three peers. */
  lemma FourWithRepeat(peers: seq<PeerInfo>) returns (n: nat, stored: set<nat>)
    requires |peers| >= CLOSE_GROUP_SIZE && !DistinctPeers(peers)
    ensures 0 < n <= CLOSE_GROUP_SIZE && |stored| == CLOSE_GROUP_MAJORITY && n - 1 in stored
    ensures (forall k :: k in stored ==> k < n) && |PeersAt(stored, peers)| < CLOSE_GROUP_MAJORITY
  {
    var i: nat, j: nat :| i < j < |peers| && j < CLOSE_GROUP_SIZE && peers[i].peerId == peers[j].peerId;
    var x, y := TwoMore(i, j);
    SharedPeer(peers, i, j, x, y);
    n, stored := Max(Max(i, j), Max(x, y)) + 1, {i, j, x, y};
  }

  /** If a peer is listed twice among the first seven, three peers or fewer can be reported as a majority. */
  lemma RepeatedPeerFallsShort(c: Crypto, peers: seq<PeerInfo>, quotes: seq<Quote>, address: Bytes32, content: Bytes,
                               token: Bytes20,
                               vault: Bytes20) returns (p: Parts)
    requires |quotes| == CLOSE_GROUP_SIZE <= |peers| && !DistinctPeers(peers)
    requires forall i :: 0 <= i < |quotes| ==> Verified(c, quotes[i], address, peers[i].peerId)
    ensures StoreRun(c, p, address, content, token, vault, Ok(()))
    ensures p.discovered == Discovered(address, Some(peers)) && p.payRun == []
    ensures |Reporters(c, p.quoteRun, address)| < CLOSE_GROUP_MAJORITY
  {
    var n, stored := FourWithRepeat(peers);
    p := FourReportsSuffice(c, peers, quotes, address, content, token, vault, n, stored);
  }

  function Max(a: nat, b: nat): nat {
    if a < b then b else a
  }

  lemma SharedPeer(peers: seq<PeerInfo>, i: nat, j: nat, x: nat, y: nat)
    requires i < |peers| && j < |peers| && peers[i].peerId == peers[j].peerId
    ensures |PeersAt({i, j, x, y}, peers)| <= 3
  {
    var three := {i, x, y};
    OneMorePeer(three, j, peers);
    assert {i, j, x, y} == three + {j};
    assert peers[i].peerId in PeersAt(three, peers);
    PeersAtMost(three, peers);
    AtMostThree(i, x, y);
  }

  lemma AtMostThree(i: nat, x: nat, y: nat)
    ensures |{i, x, y}| <= 3
  {
    assert {i, x, y} == {i} + {x} + {y};
  }

  /**
   When each of the first seven listed peers can give a verified quote: an unpaid `Ok` always means four
   different peers reported the chunk stored if and only if those seven differ.
   */
  lemma MajorityIsFourPeersIff(c: Crypto, peers: seq<PeerInfo>, quotes: seq<Quote>, address: Bytes32, content: Bytes,
                               token: Bytes20,
                               vault: Bytes20)
    requires |quotes| == CLOSE_GROUP_SIZE <= |peers|
    requires forall i :: 0 <= i < |quotes| ==> Verified(c, quotes[i], address, peers[i].peerId)
    ensures DistinctPeers(peers) <==>
      forall p: Parts ::
        StoreRun(c, p, address, content, token, vault, Ok(())) && p.payRun == [] &&
          p.discovered.peers == Some(peers) ==>
        |Reporters(c, p.quoteRun, address)| >= CLOSE_GROUP_MAJORITY
  {
    if DistinctPeers(peers) {
      forall p: Parts
        | StoreRun(c, p, address, content, token, vault, Ok(())) && p.payRun == [] && p.discovered.peers == Some(peers)
        ensures |Reporters(c, p.quoteRun, address)| >= CLOSE_GROUP_MAJORITY
      {
        UnpaidMeansFourPeers(c, p, address, content, token, vault);
      }
    } else {
      var p := RepeatedPeerFallsShort(c, peers, quotes, address, content, token, vault);
    }
  }

  /** A run that fails although its first peer gave a verified quote: the peer was evicted and its new dial failed. */
  lemma LostConnectionEndsRun(c: Crypto, peers: seq<PeerInfo>, q: Quote, address: Bytes32, content: Bytes,
                              token: Bytes20, vault: Bytes20)
    returns (p: Parts)
    requires |peers| >= CLOSE_GROUP_SIZE && Verified(c, q, address, peers[0].peerId)
    ensures StoreRun(c, p, address, content, token, vault, Err(ConnectionLost(0)))
    ensures p.quoteRun[0].QuoteAsked? && Answered(c, p.quoteRun[0].response, address, peers[0].peerId)
    ensures ParseQuote(p.quoteRun[0].response.value.quote) == Ok(q)
  {
    var id := peers[0].peerId;
    ReplyIsTaken(c, q, false, address, id);
    var asked := QuoteAsked(0, 0, id, address, |content|, Some(ReplyWith(q, false)), Valid(q, false, None));
    var run := [asked, Dialed(id, false)];
    p := Parts(Discovered(address, Some(peers)), run, [], [], []);
    CountOfTwo(run, IsAsked);
    assert StoredPositions(run) == {};
    StoreProtocol.EndsWithQuotes(c, p, address, content, token, vault, Err(ConnectionLost(0)));
  }

  // ----- uploads -----

  /** An upload that ends well stored each of its items: reported by a majority, or paid once and accepted by one. */
  lemma UploadedMeansStored(c: Crypto, prepared: Upload.Prepared, runs: seq<Parts>, token: Bytes20, vault: Bytes20,
                            mapAddress: Bytes32, i: nat)
    requires StoreProtocol.Uploaded(c, Ok(prepared), runs, token, vault, Ok(mapAddress)) && i < |prepared.items|
    ensures |runs| == |prepared.items| && mapAddress == prepared.mapAddress
    ensures runs[i].discovered.Discovered? && runs[i].discovered.address == prepared.items[i].address
    ensures var item := prepared.items[i];
      FoundStored(c, runs[i], item.address) || PaidAndStored(c, runs[i], item.address, item.content, token, vault)
  {
    OkMeansStored(c, runs[i], prepared.items[i].address, prepared.items[i].content, token, vault);
  }
}
