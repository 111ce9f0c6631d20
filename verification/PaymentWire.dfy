/** What the payment wire format promises: round trips, old formats, truncation. */
module PaymentWire {
  import opened Bytes
  import opened MsgPack
  import opened Payment

  /** Reading undoes writing element by element, so it does for lists. */
  lemma {:induction false} ReadAllOfWritten<T>(items: seq<Value>, xs: seq<T>, read: Value -> Option<T>)
    requires |items| == |xs| && forall i :: 0 <= i < |xs| ==> read(items[i]) == Some(xs[i])
    ensures ReadAll(items, read) == Some(xs)
  {
    if xs != [] {
      ReadAllOfWritten(items[1..], xs[1..], read);
      assert [xs[0]] + xs[1..] == xs;
    }
  }

  lemma ReadBytesOfValue(s: Bytes)
    ensures ReadBytes(BytesValue(s)) == Some(s)
    ensures |s| == 32 ==> ReadBytes32(BytesValue(s)) == Some(s)
  {
    ReadAllOfWritten(BytesValue(s).items, s, ReadByte);
  }

  /** An integer array is read like a `bin` where the source allows both. */
  lemma FixedBinFromArray(s: Bytes)
    ensures ReadFixedBin(BytesValue(s), |s|) == ReadFixedBin(Bin(s), |s|) == Some(s)
  {
    ReadAllOfWritten(BytesValue(s).items, s, ReadByte);
  }

  // ----- which field is where, and in which form -----

  /** An array of one unsigned integer for each byte. */
  predicate IsByteArray(v: Value, s: Bytes) {
    v.Array? && |v.items| == |s| && forall i :: 0 <= i < |s| ==> v.items[i] == UInt(s[i])
  }

  /** The eight fields of a quote in the order they are declared; price and address are `bin`, other bytes arrays. */
  predicate IsQuote(v: Value, q: Quote) {
    && v.Array? && |v.items| == 8
    && IsByteArray(v.items[0], q.content)
    && v.items[1] == Array([UInt(q.timestamp.secs), UInt(q.timestamp.nanos)])
    && v.items[2] == Bin(q.price) && v.items[3] == Bin(q.rewardsAddress)
    && IsByteArray(v.items[4], q.pubKey) && IsByteArray(v.items[5], q.signature)
    && v.items[6] == UInt(q.committedKeyCount)
    && match q.commitmentPin
       case None => v.items[7] == Nil
       case Some(hash) => IsByteArray(v.items[7], hash)
  }

  lemma QuoteForm(q: Quote)
    ensures IsQuote(QuoteValue(q), q)
  {
  }

  lemma QuoteWire(q: Quote)
    requires QuoteFits(q)
    ensures exists v :: Encodable(v) && IsQuote(v, q) && EncodeQuote(q) == Encode(v)
  {
    QuoteEncodable(q);
    QuoteForm(q);
  }

  predicate IsPeerQuote(v: Value, pq: PeerQuote) {
    v.Array? && |v.items| == 2 && IsByteArray(v.items[0], pq.peerId) && IsQuote(v.items[1], pq.quote)
  }

  /** Three fields: the list of peers and quotes, wrapped once more; the hashes as `bin`; the sidecars as arrays. */
  predicate IsProof(v: Value, p: PaymentProof) {
    && v.Array? && |v.items| == 3
    && (forall k :: 0 <= k < 3 ==> v.items[k].Array?)
    && |v.items[0].items| == 1 && v.items[0].items[0].Array?
    && var quotes, hashes, sidecars := v.items[0].items[0].items, v.items[1].items, v.items[2].items;
       && |quotes| == |p.peerQuotes| && (forall i :: 0 <= i < |quotes| ==> IsPeerQuote(quotes[i], p.peerQuotes[i]))
       && |hashes| == |p.txHashes| && (forall i :: 0 <= i < |hashes| ==> hashes[i] == Bin(p.txHashes[i]))
       && |sidecars| == |p.sidecars| && (forall i :: 0 <= i < |sidecars| ==> IsByteArray(sidecars[i], p.sidecars[i]))
  }

  lemma ProofForm(p: PaymentProof)
    ensures IsProof(ProofValue(p), p)
  {
    var quotes := ProofFields(p)[0].items[0].items;
    forall i | 0 <= i < |p.peerQuotes| ensures IsPeerQuote(quotes[i], p.peerQuotes[i]) {
      QuoteForm(p.peerQuotes[i].quote);
    }
  }

  /** The bytes of a proof are the tag of a single-node proof and then its value. */
  lemma ProofWire(p: PaymentProof)
    requires ProofFits(p)
    ensures exists v :: Encodable(v) && IsProof(v, p) && EncodeProof(p) == [0x01] + Encode(v)
  {
    ProofEncodable(p);
    ProofForm(p);
  }

  // ----- formats old and new -----

  /** The quote an old reader or writer of only the first `fields` fields would agree on. */
  function WithoutTail(q: Quote, fields: nat): Quote {
    q.(committedKeyCount := if fields > 6 then q.committedKeyCount else 0,
       commitmentPin := if fields > 7 then q.commitmentPin else None)
  }

  /** The first `fields` fields of a quote decode exactly when the six required ones are there. */
  lemma QuotePrefixDecodes(q: Quote, fields: nat)
    requires fields <= QUOTE_FIELDS
    ensures ReadQuote(Array(QuoteFields(q)[..fields]))
         == if fields < REQUIRED_QUOTE_FIELDS then None else Some(WithoutTail(q, fields))
  {
    ReadBytesOfValue(q.content);
    ReadBytesOfValue(q.pubKey);
    ReadBytesOfValue(q.signature);
    if q.commitmentPin.Some? {
      ReadBytesOfValue(q.commitmentPin.value);
    }
  }

  lemma QuoteReads(q: Quote)
    ensures ReadQuote(QuoteValue(q)) == Some(q)
  {
    assert QuoteFields(q)[..8] == QuoteFields(q);
    QuotePrefixDecodes(q, 8);
  }

  function EncodeQuotePrefix(q: Quote, fields: nat): Bytes
    requires QuoteFits(q) && fields <= QUOTE_FIELDS
  {
    QuoteEncodable(q);
    Encode(Array(QuoteFields(q)[..fields]))
  }

  lemma OldQuoteDecodes(q: Quote, fields: nat, rest: Bytes)
    requires QuoteFits(q) && fields <= QUOTE_FIELDS
    ensures ParseQuote(EncodeQuotePrefix(q, fields) + rest)
         == if fields < REQUIRED_QUOTE_FIELDS then Err(DecodeError) else Ok(WithoutTail(q, fields))
  {
    QuoteEncodable(q);
    SelfDelimiting(Array(QuoteFields(q)[..fields]), rest);
    QuotePrefixDecodes(q, fields);
  }

  lemma QuoteRoundTrip(q: Quote, rest: Bytes)
    requires QuoteFits(q)
    ensures ParseQuote(EncodeQuote(q) + rest) == Ok(q)
  {
    QuoteEncodable(q);
    SelfDelimiting(QuoteValue(q), rest);
    QuoteReads(q);
  }

  /** Which format each part of a proof was written in. */
  datatype ProofFormat = ProofFormat(quoteFields: seq<nat>, withSidecars: bool)

  predicate FormatFor(p: PaymentProof, f: ProofFormat) {
    && |f.quoteFields| == |p.peerQuotes|
    && forall i | 0 <= i < |f.quoteFields| :: REQUIRED_QUOTE_FIELDS <= f.quoteFields[i] <= QUOTE_FIELDS
  }

  function PeerQuoteValueIn(pq: PeerQuote, fields: nat): Value
    requires fields <= QUOTE_FIELDS
  {
    Array([BytesValue(pq.peerId), Array(QuoteFields(pq.quote)[..fields])])
  }

  /** The wire value of a proof whose writers used format `f`. */
  function ProofValueIn(p: PaymentProof, f: ProofFormat): Value
    requires FormatFor(p, f)
  {
    var quotes := seq(|p.peerQuotes|, i requires 0 <= i < |p.peerQuotes| =>
      PeerQuoteValueIn(p.peerQuotes[i], f.quoteFields[i]));
    Array(ProofFields(p)[0 := Array([Array(quotes)])][..if f.withSidecars then 3 else 2])
  }

  function ProofWithoutTails(p: PaymentProof, f: ProofFormat): PaymentProof
    requires FormatFor(p, f)
  {
    PaymentProof(
      seq(|p.peerQuotes|, i requires 0 <= i < |p.peerQuotes| =>
        p.peerQuotes[i].(quote := WithoutTail(p.peerQuotes[i].quote, f.quoteFields[i]))),
      p.txHashes,
      if f.withSidecars then p.sidecars else [])
  }

  lemma QuotesReadInAnyFormat(p: PaymentProof, f: ProofFormat)
    requires FormatFor(p, f)
    ensures var quotes := ProofValueIn(p, f).items[0];
      quotes.Array? && |quotes.items| == 1 &&
        ReadArray(quotes.items[0], ReadPeerQuote) == Some(ProofWithoutTails(p, f).peerQuotes)
  {
    var quotes := ProofValueIn(p, f).items[0].items[0].items;
    var expected := ProofWithoutTails(p, f).peerQuotes;
    forall i | 0 <= i < |quotes| ensures ReadPeerQuote(quotes[i]) == Some(expected[i]) {
      ReadBytesOfValue(p.peerQuotes[i].peerId);
      QuotePrefixDecodes(p.peerQuotes[i].quote, f.quoteFields[i]);
    }
    ReadAllOfWritten(quotes, expected, ReadPeerQuote);
  }

  /** Old and new quotes may be mixed in one proof, with or without sidecars: each missing tail defaults. */
  lemma ProofReadsInAnyFormat(p: PaymentProof, f: ProofFormat)
    requires FormatFor(p, f)
    ensures ReadProof(ProofValueIn(p, f)) == Some(ProofWithoutTails(p, f))
  {
    var v := ProofValueIn(p, f);
    QuotesReadInAnyFormat(p, f);
    ReadAllOfWritten(v.items[1].items, p.txHashes, ReadTxHash);
    if f.withSidecars {
      forall i | 0 <= i < |p.sidecars| ensures ReadBytes(v.items[2].items[i]) == Some(p.sidecars[i]) {
        ReadBytesOfValue(p.sidecars[i]);
      }
      ReadAllOfWritten(v.items[2].items, p.sidecars, ReadBytes);
    }
  }

  function CurrentFormat(p: PaymentProof): (f: ProofFormat)
    ensures FormatFor(p, f)
  {
    ProofFormat(seq(|p.peerQuotes|, _ => QUOTE_FIELDS), true)
  }

  lemma CurrentFormatIsComplete(p: PaymentProof)
    ensures ProofValueIn(p, CurrentFormat(p)) == ProofValue(p)
    ensures ProofWithoutTails(p, CurrentFormat(p)) == p
  {
    var f := CurrentFormat(p);
    forall i | 0 <= i < |p.peerQuotes|
      ensures PeerQuoteValueIn(p.peerQuotes[i], f.quoteFields[i]) == PeerQuoteValue(p.peerQuotes[i])
    {
      assert QuoteFields(p.peerQuotes[i].quote)[..8] == QuoteFields(p.peerQuotes[i].quote);
    }
    var cut, whole := ProofValueIn(p, f).items[0], ProofFields(p)[0];
    assert cut.items[0].items == whole.items[0].items;
    assert cut.items == whole.items;
    assert ProofValueIn(p, f).items == ProofFields(p);
    assert ProofWithoutTails(p, f).peerQuotes == p.peerQuotes;
  }

  lemma EncodableIn(p: PaymentProof, f: ProofFormat)
    requires ProofFits(p) && FormatFor(p, f)
    ensures Encodable(ProofValueIn(p, f))
  {
    forall i | 0 <= i < |p.peerQuotes|
      ensures Encodable(PeerQuoteValueIn(p.peerQuotes[i], f.quoteFields[i]))
    {
      QuoteEncodable(p.peerQuotes[i].quote);
    }
    ProofEncodable(p);
  }

  function EncodeProofIn(p: PaymentProof, f: ProofFormat): Bytes
    requires ProofFits(p) && FormatFor(p, f)
  {
    EncodableIn(p, f);
    [PROOF_TAG_SINGLE_NODE] + Encode(ProofValueIn(p, f))
  }

  lemma OldProofDecodes(p: PaymentProof, f: ProofFormat, rest: Bytes)
    requires ProofFits(p) && FormatFor(p, f)
    ensures ParseSingleNodeProof(EncodeProofIn(p, f) + rest) == Ok(ProofWithoutTails(p, f))
  {
    EncodableIn(p, f);
    var body := Encode(ProofValueIn(p, f));
    assert ([PROOF_TAG_SINGLE_NODE] + body + rest)[1..] == body + rest;
    SelfDelimiting(ProofValueIn(p, f), rest);
    ProofReadsInAnyFormat(p, f);
  }

  lemma ProofRoundTrip(p: PaymentProof, rest: Bytes)
    requires ProofFits(p)
    ensures ParseSingleNodeProof(EncodeProof(p) + rest) == Ok(p)
  {
    CurrentFormatIsComplete(p);
    OldProofDecodes(p, CurrentFormat(p), rest);
  }

  /** A proof cut anywhere is refused; cut to nothing it lacks its tag. */
  lemma TruncatedProofRejected(p: PaymentProof, cut: nat)
    requires ProofFits(p) && cut < |EncodeProof(p)|
    ensures ParseSingleNodeProof(EncodeProof(p)[..cut]) == Err(if cut == 0 then BadProofTag(None) else DecodeError)
  {
    ProofEncodable(p);
    if cut > 0 {
      TruncationRejected(ProofValue(p), cut - 1);
      assert EncodeProof(p)[..cut][1..] == Encode(ProofValue(p))[..cut - 1];
    }
  }

  /** Distinct proofs never share a wire form, not even as one prefix of the other. */
  lemma ProofPrefixFree(p: PaymentProof, q: PaymentProof)
    requires ProofFits(p) && ProofFits(q) && EncodeProof(p) <= EncodeProof(q)
    ensures p == q
  {
    var rest := EncodeProof(q)[|EncodeProof(p)|..];
    assert EncodeProof(p) + rest == EncodeProof(q) == EncodeProof(q) + [];
    ProofRoundTrip(p, rest);
    ProofRoundTrip(q, []);
  }
}
