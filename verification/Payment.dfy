/** The payment types and their wire form: structs are MessagePack arrays of their fields, in order. */
module Payment {
  import opened Bytes
  import opened MsgPack

  datatype Timestamp = Timestamp(secs: uint64, nanos: uint32)

  datatype Quote = Quote(
    content: Bytes32,
    timestamp: Timestamp,
    price: Bytes32,
    rewardsAddress: Bytes20,
    pubKey: Bytes,
    signature: Bytes,
    committedKeyCount: uint32,
    commitmentPin: Option<Bytes32>)

  datatype PeerQuote = PeerQuote(peerId: Bytes32, quote: Quote)

  datatype PaymentProof = PaymentProof(peerQuotes: seq<PeerQuote>, txHashes: seq<Bytes32>, sidecars: seq<Bytes>)

  datatype PaymentError = DecodeError | BadProofTag(tag: Option<byte>)

  const PROOF_TAG_SINGLE_NODE: byte := 0x01

  const QUOTE_FIELDS: nat := 8
  const REQUIRED_QUOTE_FIELDS: nat := 6

  // ----- what a value of each type is on the wire -----

  /** `Vec<u8>`, `[u8; 32]` and slices: an array of unsigned integers. */
  function BytesValue(s: Bytes): Value {
    Array(seq(|s|, i requires 0 <= i < |s| => UInt(s[i])))
  }

  function TimestampValue(t: Timestamp): Value {
    Array([UInt(t.secs), UInt(t.nanos)])
  }

  function PinValue(pin: Option<Bytes32>): Value {
    match pin
    case None => Nil
    case Some(hash) => BytesValue(hash)
  }

  function QuoteFields(q: Quote): (fields: seq<Value>)
    ensures |fields| == QUOTE_FIELDS
  {
    [ BytesValue(q.content), TimestampValue(q.timestamp), Bin(q.price), Bin(q.rewardsAddress),
      BytesValue(q.pubKey), BytesValue(q.signature), UInt(q.committedKeyCount), PinValue(q.commitmentPin) ]
  }

  function QuoteValue(q: Quote): Value {
    Array(QuoteFields(q))
  }

  function PeerQuoteValue(pq: PeerQuote): Value {
    Array([BytesValue(pq.peerId), QuoteValue(pq.quote)])
  }

  function ProofFields(p: PaymentProof): seq<Value> {
    [ Array([Array(seq(|p.peerQuotes|, i requires 0 <= i < |p.peerQuotes| => PeerQuoteValue(p.peerQuotes[i])))]),
      Array(seq(|p.txHashes|, i requires 0 <= i < |p.txHashes| => Bin(p.txHashes[i]))),
      Array(seq(|p.sidecars|, i requires 0 <= i < |p.sidecars| => BytesValue(p.sidecars[i]))) ]
  }

  function ProofValue(p: PaymentProof): Value {
    Array(ProofFields(p))
  }

  // ----- reading a value back -----

  /** Read every element; one bad element spoils the list. */
  function ReadAll<T>(items: seq<Value>, read: Value -> Option<T>): (r: Option<seq<T>>)
    ensures r.Some? ==> |r.value| == |items|
  {
    if items == [] then Some([]) else
    match (read(items[0]), ReadAll(items[1..], read))
    case (Some(x), Some(xs)) => Some([x] + xs)
    case _ => None
  }

  function ReadArray<T>(v: Value, read: Value -> Option<T>): Option<seq<T>> {
    if v.Array? then ReadAll(v.items, read) else None
  }

  function ReadUInt(v: Value, limit: nat): (r: Option<uint64>)
    ensures r.Some? ==> r.value < limit
  {
    if v.UInt? && v.n < limit then Some(v.n) else None
  }

  function ReadByte(v: Value): Option<byte> {
    match ReadUInt(v, 0x100)
    case Some(n) => Some(n)
    case None => None
  }

  function ReadBytes(v: Value): Option<Bytes> {
    ReadArray(v, ReadByte)
  }

  function ReadBytes32(v: Value): Option<Bytes32> {
    match ReadBytes(v)
    case Some(s) => if |s| == 32 then Some(s) else None
    case None => None
  }

  /** A `bin` of exactly `n` bytes; an array of `n` integers is accepted too. */
  function ReadFixedBin(v: Value, n: nat): (r: Option<Bytes>)
    ensures r.Some? ==> |r.value| == n
  {
    match v
    case Bin(data) => if |data| == n then Some(data) else None
    case Array(items) => if |items| == n then ReadAll(items, ReadByte) else None
    case _ => None
  }

  function ReadTxHash(v: Value): Option<Bytes32> {
    match ReadFixedBin(v, 32)
    case Some(s) => Some(s)
    case None => None
  }

  function ReadTimestamp(v: Value): Option<Timestamp> {
    if !v.Array? || |v.items| != 2 then None else
    match (ReadUInt(v.items[0], 0x1_0000_0000_0000_0000), ReadUInt(v.items[1], 0x1_0000_0000))
    case (Some(secs), Some(nanos)) => Some(Timestamp(secs, nanos))
    case _ => None
  }

  function ReadPin(v: Value): Option<Option<Bytes32>> {
    if v.Nil? then Some(None) else
    match ReadBytes32(v)
    case Some(hash) => Some(Some(hash))
    case None => None
  }

  /** Six fields are required, the two tail fields default, anything longer is a length mismatch. */
  function ReadQuote(v: Value): Option<Quote> {
    if !v.Array? || |v.items| < REQUIRED_QUOTE_FIELDS || |v.items| > QUOTE_FIELDS then None else
    var f := v.items;
    var count := if |f| > 6 then ReadUInt(f[6], 0x1_0000_0000) else Some(0);
    var pin := if |f| > 7 then ReadPin(f[7]) else Some(None);
    match (ReadBytes32(f[0]), ReadTimestamp(f[1]), ReadFixedBin(f[2], 32), ReadFixedBin(f[3], 20))
    case (Some(content), Some(timestamp), Some(price), Some(rewards)) => (
      match (ReadBytes(f[4]), ReadBytes(f[5]), count, pin)
      case (Some(key), Some(signature), Some(n), Some(p)) =>
        Some(Quote(content, timestamp, price, rewards, key, signature, n, p))
      case _ => None)
    case _ => None
  }

  function ReadPeerQuote(v: Value): Option<PeerQuote> {
    if !v.Array? || |v.items| != 2 then None else
    match (ReadBytes32(v.items[0]), ReadQuote(v.items[1]))
    case (Some(peer), Some(quote)) => Some(PeerQuote(peer, quote))
    case _ => None
  }

  /** Two fields are required; missing sidecars default to none. */
  function ReadProof(v: Value): Option<PaymentProof> {
    if !v.Array? || |v.items| < 2 || |v.items| > 3 then None else
    var f := v.items;
    if !f[0].Array? || |f[0].items| != 1 then None else
    var sidecars := if |f| > 2 then ReadArray(f[2], ReadBytes) else Some([]);
    match (ReadArray(f[0].items[0], ReadPeerQuote), ReadArray(f[1], ReadTxHash), sidecars)
    case (Some(quotes), Some(hashes), Some(blobs)) => Some(PaymentProof(quotes, hashes, blobs))
    case _ => None
  }

  // ----- the byte-level functions of the source -----

  /** Vector lengths fit MessagePack's 32-bit length fields. */
  predicate QuoteFits(q: Quote) {
    |q.pubKey| < MAX_LENGTH && |q.signature| < MAX_LENGTH
  }

  predicate ProofFits(p: PaymentProof) {
    && |p.peerQuotes| < MAX_LENGTH && |p.txHashes| < MAX_LENGTH && |p.sidecars| < MAX_LENGTH
    && (forall pq | pq in p.peerQuotes :: QuoteFits(pq.quote))
    && (forall blob | blob in p.sidecars :: |blob| < MAX_LENGTH)
  }

  lemma BytesEncodable(s: Bytes)
    requires |s| < MAX_LENGTH
    ensures Encodable(BytesValue(s))
  {
  }

  lemma QuoteEncodable(q: Quote)
    requires QuoteFits(q)
    ensures forall v | v in QuoteFields(q) :: Encodable(v)
    ensures Encodable(QuoteValue(q))
  {
    BytesEncodable(q.content);
    BytesEncodable(q.pubKey);
    BytesEncodable(q.signature);
    if q.commitmentPin.Some? {
      BytesEncodable(q.commitmentPin.value);
    }
    assert Encodable(TimestampValue(q.timestamp));
  }

  lemma ProofEncodable(p: PaymentProof)
    requires ProofFits(p)
    ensures Encodable(ProofValue(p))
  {
    forall i | 0 <= i < |p.peerQuotes| ensures Encodable(PeerQuoteValue(p.peerQuotes[i])) {
      BytesEncodable(p.peerQuotes[i].peerId);
      QuoteEncodable(p.peerQuotes[i].quote);
    }
    forall i | 0 <= i < |p.sidecars| ensures Encodable(BytesValue(p.sidecars[i])) {
      BytesEncodable(p.sidecars[i]);
    }
  }

  function EncodeQuote(q: Quote): Bytes
    requires QuoteFits(q)
  {
    QuoteEncodable(q);
    Encode(QuoteValue(q))
  }

  /** Bytes after the quote are not looked at. */
  function ParseQuote(b: Bytes): Result<Quote, PaymentError> {
    match Parse(b)
    case Fail => Err(DecodeError)
    case Done(v, _) =>
      match ReadQuote(v)
      case None => Err(DecodeError)
      case Some(q) => Ok(q)
  }

  function EncodeProof(p: PaymentProof): Bytes
    requires ProofFits(p)
  {
    ProofEncodable(p);
    [PROOF_TAG_SINGLE_NODE] + Encode(ProofValue(p))
  }

  function ParseSingleNodeProof(b: Bytes): Result<PaymentProof, PaymentError> {
    if b == [] then Err(BadProofTag(None))
    else if b[0] != PROOF_TAG_SINGLE_NODE then Err(BadProofTag(Some(b[0])))
    else
      match Parse(b[1..])
      case Fail => Err(DecodeError)
      case Done(v, _) =>
        match ReadProof(v)
        case None => Err(DecodeError)
        case Some(p) => Ok(p)
  }

  function SingleNodeProof(peerQuotes: seq<PeerQuote>, txHash: Bytes32, sidecars: seq<Bytes>): PaymentProof {
    PaymentProof(peerQuotes, [txHash], sidecars)
  }

  function SerializeSingleNodeProof(peerQuotes: seq<PeerQuote>, txHash: Bytes32, sidecars: seq<Bytes>): Bytes
    requires ProofFits(SingleNodeProof(peerQuotes, txHash, sidecars))
  {
    EncodeProof(SingleNodeProof(peerQuotes, txHash, sidecars))
  }

  /** The element-by-element reading of a fixed byte array, filling an array in place. */
  method VisitSeq(items: seq<Value>, n: nat) returns (r: Option<Bytes>)
    ensures r == ReadFixedBin(Array(items), n)
  {
    var out := new byte[n](_ => 0);
    var i := 0;
    while i < n
      invariant 0 <= i <= n && i <= |items|
      invariant ReadAll(items[..i], ReadByte) == Some(out[..i])
    {
      if i == |items| {
        return None;
      }
      var slot := ReadByte(items[i]);
      ReadAllAppend(items[..i], items[i], items[i + 1..], ReadByte);
      assert items[..i] + [items[i]] + items[i + 1..] == items;
      assert items[..i] + [items[i]] == items[..i + 1];
      if slot.None? {
        return None;
      }
      out[i] := slot.value;
      assert out[..i + 1] == out[..i] + [slot.value];
      i := i + 1;
    }
    // Elements left over are a length mismatch.
    if |items| > n {
      return None;
    }
    assert items[..n] == items && out[..n] == out[..];
    r := Some(out[..]);
  }

  lemma {:induction false} ReadAllAppend<T>(front: seq<Value>, v: Value, back: seq<Value>, read: Value -> Option<T>)
    requires ReadAll(front, read).Some?
    ensures read(v).Some? ==> ReadAll(front + [v], read) == Some(ReadAll(front, read).value + [read(v).value])
    ensures read(v).None? ==> ReadAll(front + [v] + back, read).None?
  {
    if front == [] {
      assert front + [v] == [v] && (front + [v] + back)[0] == v;
      if read(v).Some? {
        assert [read(v).value] + [] == [] + [read(v).value];
      }
    } else {
      assert (front + [v])[1..] == front[1..] + [v];
      assert (front + [v] + back)[1..] == front[1..] + [v] + back;
      ReadAllAppend(front[1..], v, back, read);
      if read(v).Some? {
        var others := ReadAll(front[1..], read).value;
        assert [read(front[0]).value] + (others + [read(v).value]) == [read(front[0]).value] + others + [read(v).value];
      }
    }
  }
}
