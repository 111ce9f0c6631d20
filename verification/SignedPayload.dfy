/** The bytes a node signs over a quote, and the pre-image of the quote hash. */
module SignedPayload {
  import opened Bytes
  import opened MsgPack
  import opened Payment

  const PK_LEN: nat := 1952
  const SIG_LEN: nat := 3309

  function PinBytes(pin: Option<Bytes32>): Bytes {
    match pin
    case Some(hash) => [1] + hash
    case None => [0]
  }

  lemma WidthsFit(q: Quote)
    ensures q.timestamp.secs < Pow256(8) && q.committedKeyCount < Pow256(4)
  {
    Widths();
  }

  function SigPayload(q: Quote): Bytes {
    WidthsFit(q);
    q.content
    + ToLittleEndian(q.timestamp.secs, 8)
    + Reverse(q.price)
    + q.rewardsAddress
    + ToLittleEndian(q.committedKeyCount, 4)
    + PinBytes(q.commitmentPin)
  }

  method BytesForSig(q: Quote) returns (bytes: Bytes)
    ensures bytes == SigPayload(q)
    ensures LaidOut(q, bytes)
  {
    WidthsFit(q);
    bytes := q.content;
    bytes := bytes + ToLittleEndian(q.timestamp.secs, 8);
    var priceLe := new byte[32](i requires 0 <= i < 32 => q.price[i]);
    var i := 0;
    while i < 16
      invariant 0 <= i <= 16
      invariant forall k :: 0 <= k < i ==> priceLe[k] == q.price[31 - k] && priceLe[31 - k] == q.price[k]
      invariant forall k :: i <= k < 32 - i ==> priceLe[k] == q.price[k]
    {
      priceLe[i], priceLe[31 - i] := priceLe[31 - i], priceLe[i];
      i := i + 1;
    }
    forall k | 0 <= k < 32 ensures priceLe[k] == q.price[31 - k] {
      if k >= 16 {
        assert priceLe[31 - (31 - k)] == q.price[31 - k];
      }
    }
    assert priceLe[..] == Reverse(q.price);
    bytes := bytes + priceLe[..];
    bytes := bytes + q.rewardsAddress;
    bytes := bytes + ToLittleEndian(q.committedKeyCount, 4);
    match q.commitmentPin {
      case Some(pin) =>
        bytes := bytes + [1] + pin;
        assert bytes == SigPayload(q);
      case None =>
        bytes := bytes + [0];
    }
    PayloadLayout(q);
  }

  /**
   Where each signed field sits and how it reads: numbers little-endian, the price too although it is
   stored big-endian, and a tag of one before a pin or of zero in its place.
   */
  predicate LaidOut(q: Quote, s: Bytes) {
    && |s| == (if q.commitmentPin.Some? then 129 else 97)
    && s[0..32] == q.content
    && LittleEndian(s[32..40]) == q.timestamp.secs
    && LittleEndian(s[40..72]) == BigEndian(q.price)
    && s[72..92] == q.rewardsAddress
    && LittleEndian(s[92..96]) == q.committedKeyCount
    && (q.commitmentPin.None? ==> s[96] == 0)
    && (q.commitmentPin.Some? ==> s[96] == 1 && s[97..129] == q.commitmentPin.value)
  }

  lemma PayloadParts(q: Quote)
    ensures var s := SigPayload(q);
      && |s| == 96 + |PinBytes(q.commitmentPin)|
      && s[..32] == q.content
      && q.timestamp.secs < Pow256(8) && s[32..40] == ToLittleEndian(q.timestamp.secs, 8)
      && s[40..72] == Reverse(q.price)
      && s[72..92] == q.rewardsAddress
      && q.committedKeyCount < Pow256(4) && s[92..96] == ToLittleEndian(q.committedKeyCount, 4)
      && s[96..] == PinBytes(q.commitmentPin)
  {
    WidthsFit(q);
  }

  lemma PayloadLayout(q: Quote)
    ensures LaidOut(q, SigPayload(q))
  {
    PayloadParts(q);
    LittleEndianOfDigits(q.timestamp.secs, 8);
    LittleEndianOfReverse(q.price);
    LittleEndianOfDigits(q.committedKeyCount, 4);
    var s, pin := SigPayload(q), PinBytes(q.commitmentPin);
    assert s[96] == pin[0];
    assert q.commitmentPin.Some? ==> s[97..129] == pin[1..];
  }

  /** The price is stored big-endian and signed little-endian: same number. */
  lemma PriceIsSignedLittleEndian(q: Quote)
    ensures |SigPayload(q)| >= 97
    ensures LittleEndian(SigPayload(q)[40..72]) == BigEndian(q.price)
  {
    PayloadLayout(q);
  }

  /** Equal up to what is not signed: nanoseconds, public key and signature. */
  predicate SameSignedFields(q: Quote, r: Quote) {
    q == r.(timestamp := r.timestamp.(nanos := q.timestamp.nanos), pubKey := q.pubKey, signature := q.signature)
  }

  lemma LittleEndianDigitsInjective(m: nat, n: nat, width: nat)
    requires m < Pow256(width) && n < Pow256(width)
    requires ToLittleEndian(m, width) == ToLittleEndian(n, width)
    ensures m == n
  {
    ReverseInjective(ToBigEndian(m, width), ToBigEndian(n, width));
    DigitsInjective(m, n, width);
  }

  lemma SignatureCoversExactly(q: Quote, r: Quote)
    ensures SigPayload(q) == SigPayload(r) <==> SameSignedFields(q, r)
  {
    if SigPayload(q) == SigPayload(r) {
      PayloadParts(q);
      PayloadParts(r);
      LittleEndianDigitsInjective(q.timestamp.secs, r.timestamp.secs, 8);
      ReverseInjective(q.price, r.price);
      LittleEndianDigitsInjective(q.committedKeyCount, r.committedKeyCount, 4);
      SamePin(q.commitmentPin, r.commitmentPin);
    }
  }

  lemma SamePin(p: Option<Bytes32>, r: Option<Bytes32>)
    requires PinBytes(p) == PinBytes(r)
    ensures p == r
  {
    assert p.Some? <==> PinBytes(p)[0] == 1;
    if p.Some? {
      assert PinBytes(p)[1..] == p.value;
      assert PinBytes(r)[1..] == r.value;
    }
  }

  // ----- the quote hash -----

  function HashPreimage(q: Quote): Bytes {
    SigPayload(q) + q.pubKey + q.signature
  }

  method QuoteHashPreimage(q: Quote) returns (bytes: Bytes)
    ensures bytes == HashPreimage(q)
    ensures HashedAs(q, bytes)
  {
    bytes := BytesForSig(q);
    bytes := bytes + q.pubKey;
    bytes := bytes + q.signature;
    HashLayout(q);
  }

  /** The signed payload first, of the length the pin gives it, then the key, then the signature. */
  predicate HashedAs(q: Quote, s: Bytes) {
    var n := if q.commitmentPin.Some? then 129 else 97;
    && |s| == n + |q.pubKey| + |q.signature|
    && LaidOut(q, s[..n])
    && s[n..n + |q.pubKey|] == q.pubKey
    && s[n + |q.pubKey|..] == q.signature
  }

  lemma HashLayout(q: Quote)
    ensures HashedAs(q, HashPreimage(q))
  {
    PayloadLayout(q);
    var n, s := |SigPayload(q)|, HashPreimage(q);
    assert s[..n] == SigPayload(q);
    assert s[n..n + |q.pubKey|] == q.pubKey;
    assert s[n + |q.pubKey|..] == q.signature;
  }

  predicate FixedKeyLengths(q: Quote) {
    |q.pubKey| == PK_LEN && |q.signature| == SIG_LEN
  }

  /** With key and signature at their fixed lengths, the pre-image fixes everything but the nanoseconds. */
  lemma HashCoversExactly(q: Quote, r: Quote)
    requires FixedKeyLengths(q) && FixedKeyLengths(r)
    ensures HashPreimage(q) == HashPreimage(r) <==> q == r.(timestamp := r.timestamp.(nanos := q.timestamp.nanos))
  {
    if HashPreimage(q) == HashPreimage(r) {
      PayloadParts(q);
      PayloadParts(r);
      SplitAt(SigPayload(q) + q.pubKey, q.signature, SigPayload(r) + r.pubKey, r.signature);
      SplitAt(SigPayload(q), q.pubKey, SigPayload(r), r.pubKey);
      SignatureCoversExactly(q, r);
    } else {
      SignatureCoversExactly(q, r);
    }
  }

  /** Without fixed lengths it does not: the border between key and signature is not marked. */
  lemma HashAmbiguousWithoutLengths(q: Quote)
    ensures var r := q.(pubKey := [1, 2], signature := [3]);
      var s := q.(pubKey := [1], signature := [2, 3]);
      r != s && HashPreimage(r) == HashPreimage(s)
  {
    var r := q.(pubKey := [1, 2], signature := [3]);
    var s := q.(pubKey := [1], signature := [2, 3]);
    assert SigPayload(r) == SigPayload(s) == SigPayload(q);
    assert SigPayload(q) + [1, 2] + [3] == SigPayload(q) + [1] + [2, 3];
    assert r.pubKey != s.pubKey;
  }
}
