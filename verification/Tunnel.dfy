/**
 The session cipher. The AEAD is ideal: a box is the triple it was sealed from, it opens only
 under its own key and nonce, and nobody else can make one under the session key.
 */
module Tunnel {
  import opened Bytes
  import opened Primitives

  type Key = Bytes32

  /** Sequence numbers from here on are refused. */
  const MAX_SEQ: nat := 0xffff_fffe

  const PQC_VERSION: nat := 2
  const CT_SIZE: nat := 1088
  const PK_SIZE: nat := 1952
  const SIG_SIZE: nat := 3309

  datatype Direction = ClientToServer | ServerToClient

  datatype Box = Box(key: Key, nonce: Bytes12, plaintext: Bytes) | Junk(bytes: Bytes)

  /** A received frame: its first five bytes (fewer if it is shorter) and the ciphertext after them. */
  datatype Envelope = Envelope(header: Bytes, box: Box)

  datatype TunnelError = InvalidEnvelope | DecryptionFailed

  datatype Opened = Opened(number: uint32, plaintext: Bytes)

  function SeqBytes(number: uint32): (s: Bytes)
    ensures |s| == 4
  {
    assert Pow256(4) == 0x1_0000_0000;
    ToBigEndian(number, 4)
  }

  lemma SeqBytesInjective(m: uint32, n: uint32)
    requires SeqBytes(m) == SeqBytes(n)
    ensures m == n
  {
    assert Pow256(4) == 0x1_0000_0000;
    DigitsInjective(m, n, 4);
  }

  function Nonce(number: uint32, direction: Direction): Bytes12 {
    SeqBytes(number) + [match direction case ClientToServer => 0x00 case ServerToClient => 0x01] + Zeros(7)
  }

  method BuildNonce(number: uint32, direction: Direction) returns (r: Bytes12)
    ensures r == Nonce(number, direction)
    ensures NonceBytes(r, number, direction)
  {
    var nonce := new byte[12](_ => 0);
    var digits := SeqBytes(number);
    forall i | 0 <= i < 4 {
      nonce[i] := digits[i];
    }
    nonce[4] := match direction case ClientToServer => 0x00 case ServerToClient => 0x01;
    r := nonce[..];
    assert r == Nonce(number, direction);
    NonceLayout(number, direction);
  }

  /** The number big-endian, zero towards the node or one from it, then zeros. */
  predicate NonceBytes(r: Bytes12, number: uint32, direction: Direction) {
    && BigEndian(r[0..4]) == number
    && r[4] == (if direction == ClientToServer then 0 else 1)
    && forall i :: 5 <= i < 12 ==> r[i] == 0
  }

  lemma NonceLayout(number: uint32, direction: Direction)
    ensures NonceBytes(Nonce(number, direction), number, direction)
  {
    assert Pow256(4) == 0x1_0000_0000;
    BigEndianOfDigits(number, 4);
    assert Nonce(number, direction)[0..4] == SeqBytes(number);
  }

  /** Different sequence numbers or different directions never share a nonce. */
  lemma NonceInjective(m: uint32, d: Direction, n: uint32, e: Direction)
    ensures Nonce(m, d) == Nonce(n, e) <==> m == n && d == e
  {
    if Nonce(m, d) == Nonce(n, e) {
      assert Nonce(m, d)[..4] == SeqBytes(m) && Nonce(n, e)[..4] == SeqBytes(n);
      SeqBytesInjective(m, n);
      assert Nonce(m, d)[4] == Nonce(n, e)[4];
    }
  }

  /** What either end puts on the wire for one message. */
  function Seal(key: Key, number: uint32, direction: Direction, plaintext: Bytes): Envelope {
    Envelope([0x03] + SeqBytes(number), Box(key, Nonce(number, direction), plaintext))
  }

  method SealRequest(key: Key, number: uint32, plaintext: Bytes) returns (envelope: Envelope)
    ensures envelope == Seal(key, number, ClientToServer, plaintext)
    ensures SealedAs(envelope, key, number, ClientToServer, plaintext)
  {
    var nonce := BuildNonce(number, ClientToServer);
    var header: Bytes := [0x03];
    header := header + SeqBytes(number);
    envelope := Envelope(header, Box(key, nonce, plaintext));
    SealLayout(key, number, ClientToServer, plaintext);
  }

  /** The type byte 3 and the number big-endian, then a box of the plaintext under the nonce of that number. */
  predicate SealedAs(e: Envelope, key: Key, number: uint32, direction: Direction, plaintext: Bytes) {
    && |e.header| == 5 && e.header[0] == 3 && BigEndian(e.header[1..5]) == number
    && e.box.Box? && e.box.key == key && NonceBytes(e.box.nonce, number, direction) && e.box.plaintext == plaintext
  }

  lemma SealLayout(key: Key, number: uint32, direction: Direction, plaintext: Bytes)
    ensures SealedAs(Seal(key, number, direction, plaintext), key, number, direction, plaintext)
  {
    NonceLayout(number, direction);
    assert Pow256(4) == 0x1_0000_0000;
    BigEndianOfDigits(number, 4);
    assert ([0x03] + SeqBytes(number))[1..5] == SeqBytes(number);
  }

  lemma FourBytesFitUint32(s: Bytes)
    requires |s| == 4
    ensures BigEndian(s) < 0x1_0000_0000
  {
    BigEndianBound(s);
    assert Pow256(4) == 0x1_0000_0000;
  }

  function OpenResponse(key: Key, envelope: Envelope): Result<Opened, TunnelError> {
    if |envelope.header| != 5 || envelope.header[0] != 0x03 then Err(InvalidEnvelope) else
    FourBytesFitUint32(envelope.header[1..]);
    var number := BigEndian(envelope.header[1..]);
    match envelope.box
    case Box(k, nonce, plaintext) =>
      if k == key && nonce == Nonce(number, ServerToClient) then Ok(Opened(number, plaintext))
        else Err(DecryptionFailed)
    case Junk(_) => Err(DecryptionFailed)
  }

  /** Only what the node sealed for exactly that sequence number opens: no relabelled or reflected box does. */
  lemma OpensExactlyResponses(key: Key, envelope: Envelope, number: uint32, plaintext: Bytes)
    ensures OpenResponse(key, envelope) == Ok(Opened(number, plaintext))
       <==> envelope == Seal(key, number, ServerToClient, plaintext)
  {
    assert Pow256(4) == 0x1_0000_0000;
    BigEndianOfDigits(number, 4);
    if OpenResponse(key, envelope) == Ok(Opened(number, plaintext)) {
      BigEndianInjective(envelope.header[1..], SeqBytes(number));
      assert envelope.header == [envelope.header[0]] + envelope.header[1..];
    }
    if envelope == Seal(key, number, ServerToClient, plaintext) {
      assert envelope.header[1..] == SeqBytes(number);
    }
  }

  // ----- envelopes as frames -----

  /** How a box is written as ciphertext, and what some ciphertext is taken for. */
  datatype Codec = Codec(write: Box -> Bytes, read: Bytes -> Box)

  /** The ciphertext of a box opens to that box. */
  ghost predicate CodecContract(codec: Codec) {
    forall key: Key, nonce: Bytes12, plaintext: Bytes ::
      codec.read(codec.write(Box(key, nonce, plaintext))) == Box(key, nonce, plaintext)
  }

  function ToWire(codec: Codec, envelope: Envelope): Bytes {
    envelope.header + codec.write(envelope.box)
  }

  function FromWire(codec: Codec, frame: Bytes): Envelope {
    if |frame| < 5 then Envelope(frame, Junk([])) else Envelope(frame[..5], codec.read(frame[5..]))
  }

  /** On the wire the header comes first, as in `SealedAs`, and the ciphertext after it. */
  lemma WireLayout(codec: Codec, key: Key, number: uint32, direction: Direction, plaintext: Bytes)
    ensures var e := Seal(key, number, direction, plaintext);
      var wire := ToWire(codec, e);
      && |wire| == 5 + |codec.write(e.box)|
      && wire[0] == 3 && BigEndian(wire[1..5]) == number && wire[5..] == codec.write(e.box)
  {
    var e := Seal(key, number, direction, plaintext);
    SealLayout(key, number, direction, plaintext);
    assert ToWire(codec, e)[1..5] == e.header[1..5];
  }

  lemma WireRoundTrip(codec: Codec, key: Key, number: uint32, direction: Direction, plaintext: Bytes)
    requires CodecContract(codec)
    ensures FromWire(codec, ToWire(codec, Seal(key, number, direction, plaintext)))
      == Seal(key, number, direction, plaintext)
  {
    var e := Seal(key, number, direction, plaintext);
    assert ToWire(codec, e)[..5] == e.header;
    assert ToWire(codec, e)[5..] == codec.write(e.box);
  }

  // ----- the handshake -----

  datatype HandshakeError = TooShort | WrongType | WrongVersion | BadSignature | PeerIdMismatch | DecapsulationFailed

  datatype Established = Established(key: Key, peerId: Bytes32)

  const PK_START: nat := 3 + CT_SIZE
  const SIG_START: nat := PK_START + PK_SIZE
  const ACCEPT_SIZE: nat := SIG_START + SIG_SIZE

  /** "ant-webrtc-auth-v1" */
  const AUTH_SIGN_CONTEXT: Bytes :=
    [0x61, 0x6e, 0x74, 0x2d, 0x77, 0x65, 0x62, 0x72, 0x74, 0x63, 0x2d, 0x61, 0x75, 0x74, 0x68, 0x2d, 0x76, 0x31]

  /** What the node signs: the context, this client's key and the ciphertext sent for it. */
  function Transcript(ek: Bytes, ct: Bytes): Bytes {
    AUTH_SIGN_CONTEXT + ek + ct
  }

  /** The eighteen characters of the context, then the client's key, then the ciphertext. */
  lemma TranscriptLayout(ek: Bytes, ct: Bytes)
    ensures var t := Transcript(ek, ct);
      && |t| == 18 + |ek| + |ct|
      && (forall i :: 0 <= i < 18 ==> t[i] == "ant-webrtc-auth-v1"[i] as int)
      && t[18..18 + |ek|] == ek && t[18 + |ek|..] == ct
  {
    var t := Transcript(ek, ct);
    assert t[18..18 + |ek|] == ek && t[18 + |ek|..] == ct;
  }

  /** Sizes and limits of the session protocol; the last number given out fits 32 bits with room to spare. */
  lemma Limits()
    ensures MAX_SEQ == 0xffff_ffff - 1 && PQC_VERSION == 2
    ensures PK_START == 1091 && SIG_START == 3043 && ACCEPT_SIZE == 1 + 2 + 1088 + 1952 + 3309
  {
  }

  /** Checks a `ServerAccept` frame and derives the session. */
  function FinishHandshake(c: Crypto, ek: Bytes, accept: Bytes, expected: Option<Bytes32>): Result<Established,
                           HandshakeError> {
    if |accept| < ACCEPT_SIZE then Err(TooShort)
    else if accept[0] != 0x02 then Err(WrongType)
    else if BigEndian(accept[1..3]) != PQC_VERSION then Err(WrongVersion)
    else
      var ct, pubKey, signature := accept[3..PK_START], accept[PK_START..SIG_START], accept[SIG_START..ACCEPT_SIZE];
      if !c.mlDsaVerify(pubKey, Transcript(ek, ct), signature) then Err(BadSignature)
      else if expected.Some? && c.blake3(pubKey) != expected.value then Err(PeerIdMismatch)
      else
        match c.decaps(ek, ct)
        case None => Err(DecapsulationFailed)
        case Some(key) => Ok(Established(key, c.blake3(pubKey)))
  }

  /**
   A pinned handshake succeeds exactly with the pinned peer: the key in the frame hashes to the pinned id,
   the frame's signature under it covers this client's key and the frame's ciphertext, and that decapsulates.
   */
  lemma PinnedHandshake(c: Crypto, ek: Bytes, accept: Bytes, expected: Bytes32, session: Established)
    ensures FinishHandshake(c, ek, accept, Some(expected)) == Ok(session) <==>
      && |accept| >= 6352 && accept[0] == 2 && BigEndian(accept[1..3]) == 2
      && session.peerId == expected == c.blake3(accept[1091..3043])
      && c.mlDsaVerify(accept[1091..3043], Transcript(ek, accept[3..1091]), accept[3043..6352])
      && c.decaps(ek, accept[3..1091]) == Some(session.key)
  {
  }

  /** Without a pin, the peer is whoever's key is in the frame. */
  lemma UnpinnedHandshake(c: Crypto, ek: Bytes, accept: Bytes, session: Established)
    ensures FinishHandshake(c, ek, accept, None) == Ok(session) <==>
      |accept| >= 6352 && FinishHandshake(c, ek, accept, Some(c.blake3(accept[1091..3043]))) == Ok(session)
  {
  }

  /** A signature over a transcript is over one client key and one ciphertext; client keys have one size. */
  lemma TranscriptInjective(ek: Bytes, ct: Bytes, ek2: Bytes, ct2: Bytes)
    requires |ek| == |ek2|
    ensures Transcript(ek, ct) == Transcript(ek2, ct2) <==> ek == ek2 && ct == ct2
  {
    var n, m := |AUTH_SIGN_CONTEXT|, |AUTH_SIGN_CONTEXT| + |ek|;
    assert Transcript(ek, ct)[n..m] == ek && Transcript(ek2, ct2)[n..m] == ek2;
    assert Transcript(ek, ct)[m..] == ct && Transcript(ek2, ct2)[m..] == ct2;
  }
}
