# ant-wasm-client: a verified model

ant-wasm-client is a browser client for content-addressed storage nodes. It trusts no node: it checks every chunk it
downloads against the hash it asked for, checks every quote it pays for, and only builds the payment calldata that a
wallet will sign. This project models that trust logic in Dafny and proves what it is for.

Five parts, each building on the one before where the client does:

- **Payment wire** (`Bytes`, `MsgPack`, `Payment`, `PaymentWire`, `SignedPayload`). A MessagePack encoder and parser for
  the forms the payment types use (shortest-form unsigned integers, arrays, bin, nil), and the quote and proof codecs on
  top. Encoding is self-delimiting, so parsing undoes encoding whatever bytes follow; older encodings that lack tail
  fields decode to the same value with defaults, also inside a proof. What a signature and a quote hash determine is
  stated as an if-and-only-if.
- **Money** (`U256`, `Split`, `Calldata`). Byte-array carry loops refine arithmetic mod 2^256, with intermediates shown
  to stay inside the 16-bit and 128-bit carries the client uses. Sorting in place finds a median with exactly three quotes
  before it, which three arbitrary quotes cannot move outside the range of the other four. The two calls to the wallet
  are decoded as a contract decodes them, and the approved amount is the sum of what is paid.
- **Sessions** (`Framing`, `Transport`, `Tunnel`, `Session`, `ReliableSession`, `FramedSession`). Frames survive any
  re-cutting of the stream. Above them is a lock, a counter and a sealed box: a state machine interleaves any number of
  callers with a network that can drop, repeat, reorder and invent, and what holds in every reachable state is proved of
  every run. With an in-order node that answers once, every caller gets the answer to its own request within a bounded
  number of steps, and that session carried as bytes in frames, however they are cut, refines it.
- **Verified download** (`Retrieval`, `Download`, `VerifiedDownload`, `DeepNest`). The retrieval object and the fetch
  loop run against arbitrary peers. Two downloads of one address that both succeed return the same bytes, those of a
  reference resolver over a content-addressed store, and success is characterised exactly.
- **Store and upload** (`StoreTrace`, `StoreProtocol`, `StoreMajority`, `Upload`, `EndToEnd`). `StoreProtocol.WasmClient`
  runs the quote, pay and PUT phases against a world that answers anything at any time, while other tasks change the
  shared connection pool at every wait, and records a ghost trace. Every run of it, error paths included, satisfies
  `StoreTrace.StoreRun`; the lemmas about that predicate say what a run can and cannot do. `EndToEnd` joins the parts: a
  file whose upload ended well survives the loss of any three of the seven peers each chunk was stored with, and comes
  back on download exactly when its wrapper maps are shallow.

`Primitives` holds the cryptographic functions, one of each for the whole client, and `Sdp` models the offer rewriting.

## How the source's form is kept

Code that updates state in place is a class with methods (`FrameBuf`, `Transport`, `NodeConnection`, `Retrieval`,
`WasmClient`) or a method over an array (the carry loops, the sort, the element-wise reading of a fixed byte array). Each
method's contract ties its result and new state to a function or predicate of its inputs and old state, and the lemmas are
about those. Expressions and iterator chains are functions.

The world outside is a parameter. Hashes, signatures and decapsulation are function values inside `Crypto`, library calls
inside `Lib` and `Encryptor`; peers, discovery, transports and the payment callback are oracles that answer arbitrarily.
Sealing is an ideal box: an envelope opens under exactly the key, number and direction it was sealed with. How a box is
written as ciphertext is a `Codec`, of which only `CodecContract` is used: reading what was written gives the box. Nothing
assumes that a hash is injective on all byte strings, which no 32-byte hash is: `CollisionFree` says it only of the set of
contents that occur in the runs being compared.

## Where the code and its documentation differ

- `put_chunk` turns every answer other than stored or already-exists into an error, so the store loop's branch for a
  definitive rejection (src/lib.rs:446) is never taken and a rejected PUT is sent up to three times
  (`StoreTrace.ClassifyPut`, `StoreProtocol.WasmClient.PutTo`).
- `munge_offer` is documented to fail if either credential line is missing (src/sdp.rs:12). It only counts replaced
  lines, so two `ice-ufrag` lines and no `ice-pwd` line are accepted; `Sdp.LackingLineIsErrorIff` says for which offers
  the documented behaviour holds.
- README.md:25-26 says that multi-level data maps are resolved round by round. `advance` runs once, over the cache of
  one round, so a nest of two wrapper levels fails unless the first round happened to fetch the second level's chunks.
  `DeepNest.TwoLevelsDoNotDownload` is a concrete file for which every peer serves everything and the download fails;
  `VerifiedDownload.DownloadSucceedsIff` gives the exact condition.
- `store_one` reuses the connection a quote came by (src/lib.rs:383-385) by looking the peer up in the pool again, and
  fails the whole store, without a retry, if that lookup fails. It fails exactly when another task has evicted the peer
  meanwhile and the new dial fails too (`StoreProtocol.WasmClient.HoldConnection`);
  `StoreMajority.LostConnectionEndsRun` is such a run.
- `store_one` counts peers as listed. A majority is a majority of different peers if and only if discovery lists seven
  different ones (`StoreMajority.MajorityIsFourPeersIff`); for any listing with a repeated peer,
  `StoreMajority.RepeatedPeerFallsShort` gives a successful run with three reporting peers or fewer.

## Model

| member | source | states |
|---|---|---|
| MsgPack.HeaderRoundTrip | src/payment.rs:20-28 | every header (shortest-form integer, array or bin length, nil) reads back exactly, leaving the bytes after it |
| MsgPack.HeaderFormat | src/payment.rs:20-28 | which marker and field width each number or length is written with, and that the field is the value most significant byte first |
| MsgPack.ReadsEveryWidth | src/payment.rs:147-149 | every width of an integer, bin or array header is read, signed integers exactly while they are not negative |
| MsgPack.SelfDelimiting | src/payment.rs:20-28 | decoding an encoded value followed by any bytes gives the value and those bytes |
| MsgPack.ItemsSelfDelimiting | src/payment.rs:20-28 | the same for a list of values read one after another |
| MsgPack.ItemsInOrder | src/payment.rs:22-28 | the elements of a list are written in order, each by its own encoding |
| MsgPack.ParseExtends | src/payment.rs:147-149 | a parse that succeeds is not changed by further bytes |
| MsgPack.TruncationRejected | src/payment.rs:147-149 | no proper prefix of an encoding parses |
| MsgPack.EncodingIsShortest | src/payment.rs:154-156 | no byte string that parses to a value is shorter than the encoder's |
| Payment.ReadFixedBin | src/payment.rs:305-318 | a fixed byte array that is read has exactly the fixed length |
| Payment.VisitSeq | src/payment.rs:310-318 | the in-place element loop reads exactly what the specification of a fixed byte array reads, and rejects too few, too many and non-byte elements |
| PaymentWire.FixedBinFromArray | src/payment.rs:289-325 | a fixed byte array reads the same from a bin and from an array of integers |
| PaymentWire.QuoteWire | src/payment.rs:61-85 | the encoded quote is the encoding of eight fields in declaration order: price and address as bin, the other byte strings as arrays of integers, the timestamp as a pair, the pin as nil or an array |
| PaymentWire.ProofWire | src/payment.rs:87-110 | the encoded proof is the tag byte 1 and three fields: the wrapped list of peer id and quote pairs, the hashes as bin and the sidecars as arrays, each in order |
| PaymentWire.QuotePrefixDecodes | src/payment.rs:61-85 | a quote value cut to its first n fields reads as the quote with the rest defaulted when n is at least six, and not at all when it is fewer |
| PaymentWire.OldQuoteDecodes | tests/payment_wire.rs:214-234 | the same at byte level for every quote, whatever bytes follow |
| PaymentWire.QuoteRoundTrip | src/payment.rs:147-157 | parsing an encoded quote gives the quote back |
| PaymentWire.ProofReadsInAnyFormat | src/payment.rs:87-110 | a proof value in any mix of old and new quote formats, with or without sidecars, reads as the proof with the missing tails defaulted |
| PaymentWire.OldProofDecodes | src/payment.rs:99-110 | the same at byte level, tag included |
| PaymentWire.CurrentFormatIsComplete | src/payment.rs:99-110 | the current format loses nothing |
| PaymentWire.ProofRoundTrip | src/payment.rs:238-279 | for every proof within MessagePack's length limits, parsing the encoded proof gives it back |
| PaymentWire.TruncatedProofRejected | src/payment.rs:273-279 | every proper prefix of a proof is an error: the missing-tag error when empty, a decode error otherwise |
| PaymentWire.ProofPrefixFree | src/payment.rs:264-279 | no proof's encoding is a prefix of another's |
| SignedPayload.BytesForSig | src/payment.rs:169-186 | the buffer built step by step, price reversed in place, is the signed payload, and its bytes are where the layout puts them |
| SignedPayload.PayloadLayout | src/payment.rs:159-168 | by value: content, the number its next eight bytes denote little-endian is the seconds, the price bytes reversed, the address, the number the next four denote little-endian is the key count, then a zero byte, or a one byte and the pin |
| SignedPayload.PriceIsSignedLittleEndian | src/payment.rs:165-176 | the signed price bytes read little-endian are the number stored big-endian |
| SignedPayload.SignatureCoversExactly | src/payment.rs:169-186 | two quotes have one payload if and only if they agree on every field but nanoseconds, key and signature |
| SignedPayload.QuoteHashPreimage | src/payment.rs:224-228 | the hashed buffer starts with bytes laid out as the payload, then has the key, then the signature, and nothing else |
| SignedPayload.HashLayout | src/payment.rs:224-228 | the same of the preimage that the payment lines hash |
| SignedPayload.HashCoversExactly | src/payment.rs:202-232 | for keys and signatures of the scheme's lengths, one preimage means the same quote up to nanoseconds, and conversely |
| SignedPayload.HashAmbiguousWithoutLengths | src/payment.rs:224-228 | without those lengths the preimage does not determine the quote |
| U256.U256Add | src/evm.rs:99-108 | the carry loop gives the sum mod 2^256, its carry at most one |
| U256.U256MulU64 | src/evm.rs:112-121 | the carry loop gives the product mod 2^256, its carry at most the multiplier and inside 128 bits |
| U256.CarryBound | src/evm.rs:114-118 | a step of the product loop keeps the carry at most the multiplier |
| U256.MulOneDigit | src/evm.rs:116-118 | one step of the product loop splits digit times multiplier plus carry into a byte and a carry of at most the multiplier, inside 128 bits |
| U256.CompareBytesIsNumeric | src/evm.rs:125-128 | comparing big-endian bytes from the front is comparing the numbers, for any equal length |
| U256.U256CmpIsNumeric | src/evm.rs:125-128 | the 256-bit comparison is numeric order |
| Split.RankByPrice | src/evm.rs:157-158 | the ranking holds every index once, ascending by price and by index among equal prices |
| Split.SinkNext | src/evm.rs:157-158 | one step of the in-place stable sort: the sorted front grows by one and the rest is untouched |
| Split.RankIsPosition | src/evm.rs:157-159 | exactly k quotes come before the one ranked k |
| Split.MedianUnique | src/evm.rs:159 | there is one median |
| Split.MedianIsRobust | src/evm.rs:143-159 | for every four of the seven quotes, the median price lies between two of their prices |
| Split.MedianPriceIgnoresOrder | src/evm.rs:143-159 | reordering the prices does not change the median price |
| Split.PaymentSplit | src/evm.rs:148-174 | an error unless there are exactly seven quotes; otherwise the median is paid its triple and the others zero, each line with its quote's rewards address and hash, in the quotes' order |
| Split.PayMedian | src/evm.rs:160-173 | the payment lines for a given median index |
| Split.AmountAt | src/evm.rs:160-169 | the median is paid three times its price mod 2^256 and every other quote zero |
| Split.TotalAmount | src/evm.rs:133-137 | the fold of additions is the sum of the amounts mod 2^256 |
| Split.TotalIsTripleMedian | src/evm.rs:133-174 | the total is three times the median price mod 2^256, without wrapping if and only if that price is at most (2^256-1)/3 |
| Split.TotalIgnoresOrder | src/evm.rs:133-174 | reordering the quotes changes neither the chosen price nor the total |
| Calldata.ApproveCalldata | src/evm.rs:49-55 | the buffer is the ABI bytes of approve: its four selector bytes, twelve zeros and the spender, the amount |
| Calldata.PayForQuotesCalldata | src/evm.rs:74-94 | the buffer is the ABI bytes of payForQuotes |
| Calldata.PayForQuotesLayout | src/evm.rs:70-94 | of those bytes: the four selector bytes, an offset word of 32, a length word of the number of payments cut to 64 bits, and for payment i, at 68 + 96i, twelve zeros and the address, the amount, the hash |
| Calldata.ApproveRoundTrip | src/evm.rs:46-55 | a contract decodes the spender and amount that were encoded |
| Calldata.PayForQuotesRoundTrip | src/evm.rs:68-94 | a contract decodes exactly the payments that were encoded |
| Calldata.MoneyIsConserved | src/lib.rs:413-423 | the decoded approval is for the vault and equals the sum of the decoded payments mod 2^256, and is three times the median price if and only if that does not wrap |
| Framing.FrameLayout | src/framing.rs:15-21 | a frame is four bytes that denote the payload length big-endian, cut to 32 bits, and then the payload |
| Framing.SplitMessages | src/framing.rs:24-26 | every message is non-empty and at most 16 KiB, and all but the last are exactly that |
| Framing.ConcatSplit | src/framing.rs:24-26 | the messages in order are the frame |
| Framing.FrameBuf.constructor | src/framing.rs:36-38 | a new buffer is empty |
| Framing.FrameBuf.Push | src/framing.rs:42-59 | result and new buffer are those of taking one frame off the old buffer and the new bytes |
| Framing.TakesExactlyFrames | src/framing.rs:15-59 | a payload is taken, leaving a rest, if and only if the bytes are that payload's frame and then the rest, and its length is between 1 and 5 MiB + 64 |
| Framing.TakeRefuses | src/framing.rs:44-55 | the buffer is refused if and only if its four length bytes are there and denote zero or more than 5 MiB + 64, and it waits if and only if they or the payload are incomplete |
| Framing.TakeExtends | src/framing.rs:42-59 | later bytes change neither a frame that is complete nor a length that is out of range, and a buffer that yields no frame is kept whole |
| Framing.WaitingBufferIsSmall | src/framing.rs:44-55 | a buffer that waits for more is shorter than a prefix and the largest frame |
| Framing.PushConservesBytes | src/framing.rs:42-59 | over any pushes, the returned frames encoded again and then the buffer are all bytes pushed |
| Framing.OutOfRangeIsForever | src/framing.rs:50-52 | once the head length is out of range every later push is that error, and no byte is lost |
| Transport.Transport.constructor | src/webrtc.rs:213-246 | the queue of arriving messages, the pattern of failing sends and an empty frame buffer |
| Transport.Transport.SendFrame | src/webrtc.rs:214-222 | for any pattern of failing sends, the frame's messages go out in order up to the first that fails, which is the last one tried, and it succeeds when none fails |
| Transport.Transport.RecvFrame | src/webrtc.rs:231-246 | the loop that drains before it reads gives the result, buffer and queue of the specification |
| Transport.RecvTakesNext | src/webrtc.rs:231-246 | however the stream is cut, one receive takes exactly the next frame off it |
| Transport.RecvAtEnd | src/webrtc.rs:231-246 | without a complete frame it reports the bad length or the closed connection |
| Transport.Reassembly | src/webrtc.rs:231-246 | n receives yield the n payloads in order whatever the cutting, and the next reports how the stream ends |
| Transport.SendThenReceive | src/webrtc.rs:214-246 | payloads sent as frames and re-cut anyhow, empty messages included, are received in order |
| Transport.SurvivesIffInRange | src/framing.rs:50 | a payload survives the trip if and only if its length is between 1 and the maximum |
| Transport.BufferStaysBounded | src/webrtc.rs:231-246 | after any receive, failed or not, the buffer is below a prefix, a frame and one message |
| Transport.BufferStaysBoundedForever | src/webrtc.rs:231-246 | the same after any number of receives |
| Tunnel.BuildNonce | src/tunnel.rs:202-210 | the array filled in place denotes the number big-endian in its first four bytes, is 0 for a request and 1 for a response in the next, and zero in the rest |
| Tunnel.NonceLayout | src/tunnel.rs:202-210 | the same of the nonce that both ends seal under |
| Tunnel.NonceInjective | src/tunnel.rs:202-210 | nonces are equal if and only if number and direction are |
| Tunnel.SealRequest | src/tunnel.rs:172-183 | the envelope is the byte 3, the number big-endian, and a box of the plaintext under a nonce of that number with direction byte 0 |
| Tunnel.SealLayout | src/tunnel.rs:172-183 | the same of every seal, with direction byte 1 from the node |
| Tunnel.OpensExactlyResponses | src/tunnel.rs:188-199 | an envelope opens to a number and plaintext if and only if it is that plaintext sealed by the server under that number |
| Tunnel.WireRoundTrip | src/tunnel.rs:178-196 | a sealed envelope written as a frame and read back is that envelope |
| Tunnel.WireLayout | src/tunnel.rs:176-182 | on the wire the five header bytes come first and the ciphertext after them |
| Tunnel.PinnedHandshake | src/tunnel.rs:83-155 | a handshake that pins an id ends in a given session if and only if the frame is long enough, of the right type and version, carries a key that hashes to that id, a signature under it over this client's key and the frame's own ciphertext, and that ciphertext decapsulates to the session's key; the session's peer is the pinned one |
| Tunnel.UnpinnedHandshake | src/tunnel.rs:83-155 | without a pin it succeeds exactly as one pinned to the key in the frame would |
| Tunnel.TranscriptInjective | src/tunnel.rs:117-122 | a signed transcript determines the client's key and the ciphertext |
| Tunnel.TranscriptLayout | src/tunnel.rs:117-121 | the signed transcript is the 18 characters of the context, then the client's key, then the ciphertext |
| Session.AcceptsExactlyTheAnswer | src/conn.rs:110-119 | a frame is accepted as a reply if and only if it is the tagged reply sealed for this request's number |
| Session.RefusesByKind | src/conn.rs:109-118 | undecryptable exactly for a frame that is no seal of the node's, a sequence mismatch exactly for its seal of another number, a wrong tag exactly for its seal of this number without the tag |
| Session.NodeConnection.constructor | src/conn.rs:72-78 | numbering starts at one |
| Session.NodeConnection.NextSeq | src/conn.rs:86-93 | each number is given once; at the limit it is an error and nothing changes |
| Session.NodeConnection.RoundTrip | src/conn.rs:97-120 | over the frame transport: which messages are sent, what is taken off the stream, which number is used up and which reply or error results, on every path, bad frame lengths included |
| Session.RoundTripIsARun | src/conn.rs:97-120 | a round trip that no other caller interrupts is the caller's own steps of the state machine, with the reply `RoundTrip` returns, the same use of numbers and the lock free again, for every arrival and whatever the node seals meanwhile |
| Session.RunKeepsInv | src/conn.rs:97-120 | the session invariant holds in every reachable state of every interleaving |
| Session.OneReceiverAtATime | src/conn.rs:98-109 | at most one caller is ever between send and receive |
| Session.NoncesNeverRepeat | src/tunnel.rs:172-210 | no two seals of a session, in either direction, share a nonce (section 4 of RFC 8439); the client's half is derived, the node's half rests on the node answering each number at most once, which is a guard of its step |
| Session.RequestNumbersIncrease | src/conn.rs:86-93 | request numbers strictly increase within [1, MAX_SEQ), failed requests included |
| Session.OkIsTheSealedAnswer | src/conn.rs:97-120 | against any network, an accepted reply is the only plaintext the node sealed for that caller's number |
| Session.NoResponseServesTwo | src/conn.rs:111-115 | two callers that both succeed were served by different sealed responses |
| ReliableSession.PossibleIsEnabled | src/conn.rs:97-120 | every step of the in-order network is a step of the general state machine |
| ReliableSession.RunNetKeepsInv | src/conn.rs:97-120 | its invariant holds in every reachable state |
| ReliableSession.EachGetsItsOwnAnswer | src/conn.rs:20-25 | with an in-order node that answers once, every finished caller has the answer to its own payload, and a refusal only means the numbers ran out |
| ReliableSession.NeverStuck | src/conn.rs:20-25 | while a caller waits, some step that is no new call is possible |
| ReliableSession.StepsAreBounded | src/conn.rs:20-25 | a run with k calls has at most 3k other steps, less those still needed, so no way of going on is endless |
| ReliableSession.EveryoneFinishes | src/conn.rs:20-25 | every run can be finished without new calls, within that bound, and then every caller is done |
| FramedSession.ReceivesFirst | src/webrtc.rs:231-246 | a receive on a channel that carries framed envelopes yields the first one and leaves a channel that carries the others, and fails when there is none |
| FramedSession.RequestReachesNode | src/conn.rs:102-107 | the messages of one round trip, received as a frame, open at the node as this number, the tag and the payload, and leave nothing over |
| FramedSession.BytesRefineEnvelopes | src/conn.rs:97-120 | every run over bytes, with frames cut and re-cut anyhow, is a run over whole envelopes in the same session state, with exactly the frames of its envelopes in flight |
| FramedSession.EachGetsItsOwnAnswerOverFrames | src/conn.rs:20-25 | hence over frames too every finished caller has the answer to its own payload |
| FramedSession.HolderReceivesItsResponse | src/webrtc.rs:224-246 | at every point, what the lock holder would receive is nothing yet or the response sealed for its own number, never a bad frame |
| FramedSession.NeverStuckOverFrames | src/conn.rs:20-25 | while a caller waits and the frames fit, some step that is no new call and no re-cutting is possible |
| FramedSession.StepsAreBoundedOverFrames | src/conn.rs:20-25 | the same bound over frames, cutting not counted |
| FramedSession.EveryoneFinishesOverFrames | src/conn.rs:20-25 | while requests and answers fit frames, every run over bytes can be finished within the bound, and then every caller is done |
| Retrieval.Retrieval.constructor | src/retrieval.rs:30-35 | an empty cache, and the root resolved when the map is no wrapper |
| Retrieval.Retrieval.Begin | src/retrieval.rs:24-36 | starts only from bytes that hash to the address and parse as a data map |
| Retrieval.Retrieval.Supply | src/retrieval.rs:49-55 | caches a chunk that hashes to its address, otherwise changes nothing; every cached chunk hashes to its key |
| Retrieval.MissingInOrder | src/retrieval.rs:39-46 | the addresses still needed are the listed ones that are not cached, in the listed order |
| Retrieval.Retrieval.Advance | src/retrieval.rs:58-79 | resolves the root from the cache alone once the level is complete, otherwise changes nothing |
| Retrieval.RootAgrees | src/retrieval.rs:62-77 | two stores that agree where both have a chunk resolve a map to the same root |
| Retrieval.ResolveAgrees | src/retrieval.rs:93-111 | and to the same bytes |
| Retrieval.RootGrows | src/retrieval.rs:62-77 | further chunks do not change a resolved root |
| Retrieval.ConfinedWalk | src/retrieval.rs:62-77 | a walk that succeeds over a store succeeds over only the chunks a map lists if and only if every wrapper it visits lists only those |
| Download.GetVerified | src/conn.rs:123-145 | content is returned if and only if the reply is a success for this address whose content hashes to it, and it is that content |
| Download.GetDirect | src/lib.rs:154-177 | the loop over peers returns what the first peer that serves a verified chunk gave, and an error when none does |
| Download.FetchDecides | src/lib.rs:154-177 | what is returned is what the first peer with a verified copy sent, and no peer before it had one; each error says that discovery failed, listed nobody, or that no listed peer had one |
| Download.SupplyAll | src/lib.rs:132-138 | a round supplies each fetched chunk under its own address and stops at the first error |
| Download.Download | src/lib.rs:119-142 | the loop terminates, and its result and number of rounds are those of the specification |
| VerifiedDownload.AtMostTwoRounds | src/lib.rs:127-140 | no download needs more than two fetch rounds |
| VerifiedDownload.RoundsResolve | src/lib.rs:127-141 | the rounds keep the cache sound, and what they return is what the map resolves to over it |
| VerifiedDownload.DownloadResolves | src/lib.rs:119-142 | a result is what the address resolves to over chunks that hash to their addresses |
| VerifiedDownload.DownloadsAgree | src/retrieval.rs:4-8 | any two downloads of one address that succeed, against arbitrary peers, return equal bytes |
| VerifiedDownload.DownloadIsReference | src/retrieval.rs:4-8 | those bytes are what the reference resolver finds in a content-addressed store that has the file |
| VerifiedDownload.FetchFinds | src/lib.rs:161-172 | one listed peer that is reachable and serves the chunk suffices, whatever the other peers do |
| VerifiedDownload.DownloadSucceedsIff | src/lib.rs:119-177 | when every address has such a peer, the download returns the file if the wrappers are shallow, and otherwise fails to resolve the root |
| DeepNest.TwoLevelsDoNotDownload | README.md:25-26 | a file with two wrapper levels that the library resolves and that does not download although every peer serves everything |
| Upload.PrepareUpload | src/lib.rs:247-278 | content chunks, then wrapper chunks, then the data map, each under its address, and the map's address as the public one |
| Upload.StoreOrder | src/lib.rs:251-278 | by index: content chunk i at place i under its hash, then wrapper j as the library named it, then the serialized map under its hash, which is the public address; an error exactly when encrypting or shrinking fails |
| Upload.UploadResolves | src/lib.rs:247-289 | what an upload stores resolves at its public address to the data |
| Upload.DownloadReturnsUpload | src/lib.rs:237-289 | when every chunk stored is served by some listed peer, the download of the returned address gives the data if and only if the wrappers are shallow, as with at most one wrapper |
| StoreTrace.CheckQuote | src/lib.rs:190-202 | valid if and only if there is a reply whose quote decodes, is for this address, has a key of 1952 bytes that hashes to the peer and a signature of 3309 bytes that verifies over its payload; quote, stored flag and commitment are then those of the reply |
| StoreTrace.ReportsAreVerified | src/lib.rs:374-382 | every stored report of a quote phase comes from the peer listed at its position, whose reply carried the stored flag and a verified quote for this address |
| StoreTrace.ClassifyPut | src/lib.rs:511-519 | accepted exactly for stored and already-exists; no answer is a definitive rejection |
| StoreTrace.NoCallbackBeforeSevenQuotes | src/lib.rs:371-422 | before any payment callback, each of the first seven listed peers was asked and gave a verified quote for this address |
| StoreTrace.CallbackKinds | src/lib.rs:418-423 | the first payment callback is an approve and not a payForQuotes, the second the reverse |
| StoreTrace.CallsAreBounded | src/lib.rs:371-455 | on every path at most 21 quote attempts, one approve, one payForQuotes, no other payment callback, and 21 PUTs |
| StoreTrace.OkMeansStored | src/lib.rs:377-462 | success means that nothing was paid and four positions reported the chunk stored, every report being a reply of the peer listed there that carried the stored flag and a verified quote of its own for this address; or that exactly one approve at the token and then exactly one payForQuotes at the vault were made, with the calldata of one split of the quotes collected, and four positions accepted it, every PUT carrying this address, this content and one proof |
| StoreTrace.NoValidQuoteMeans | src/lib.rs:371-411 | when a store ends without a valid quote, the peer at that position was asked three times, none of its replies was a verified quote, and nothing was paid or put |
| StoreTrace.SidecarsAreCommitments | src/lib.rs:431 | the sidecars are exactly the commitments of the replies on record: ascending positions give them in order, with equal bytes, and no reply with a commitment is left out |
| StoreTrace.SplitLinesUp | src/evm.rs:162-173 | payment i carries the rewards address and hash of quote i of the proof, which is the verified quote that listed peer i's reply carried, and the sidecars of the proof are the commitments that came with those replies |
| StoreTrace.SentLinesUp | src/payment.rs:238-279 | the same of what is parsed and decoded back from the bytes |
| StoreTrace.ProofAndPaymentLineUp | src/lib.rs:413-433 | the same for every PUT of every run, for the proof and calldata that were sent |
| StoreProtocol.WasmClient.constructor | src/lib.rs:77-95 | a pool that holds just the bootstrap connection, under its peer id |
| StoreProtocol.Reached | src/conn.rs:37-79 | a dial pinned to a peer reaches that peer or nobody: it reaches it if and only if a transport opens and the pinned handshake over it succeeds |
| StoreProtocol.WasmClient.ConnectionFor | src/lib.rs:206-222 | a pooled connection is reused without dialing; otherwise one dial with a pinned handshake, pooled under the peer id when it succeeds, over whatever other tasks pooled meanwhile |
| StoreProtocol.WasmClient.Evict | src/lib.rs:397-400 | the peer's pooled connection is dropped and no other, after whatever other tasks did |
| StoreProtocol.WasmClient.TryQuote | src/lib.rs:183-203 | one connection, then one question to this peer about this address and size; the reply the world gives is recorded and checked for this address and peer, and there is none without a connection |
| StoreProtocol.WasmClient.QuotePeer | src/lib.rs:372-403 | up to three attempts, ending at the first verified quote, each retry on a new dial; a refusal means three refused attempts |
| StoreProtocol.WasmClient.AskNext | src/lib.rs:371-382 | asking the next listed peer ends in its verified quote or in three refusals, and adds one stored position exactly when that quote came with the stored flag |
| StoreProtocol.WasmClient.HoldConnection | src/lib.rs:383-391 | the connection for the PUT is to the peer that quoted, and it is lost if and only if the peer is no longer pooled and cannot be dialed |
| StoreProtocol.WasmClient.QuoteNext | src/lib.rs:371-411 | one turn of the quote loop: the quote and connection kept, or the majority reached by this very report, or the peer that refused, or the connection lost |
| StoreProtocol.WasmClient.QuotePhase | src/lib.rs:369-411 | the first seven peers in order, a further attempt only after a refusal, every question to the peer listed there and every valid outcome a verified quote; early success exactly when four report the chunk stored; otherwise seven quotes with their connections, or the peer that used up its attempts, or the one whose connection was lost |
| StoreProtocol.WasmClient.CallPay | src/lib.rs:523-543 | one callback with exactly this recipient and calldata |
| StoreProtocol.WasmClient.BuildCalldata | src/lib.rs:414-422 | both calls are built from one split: the approval is for the vault and for the total, the payment for the split's lines |
| StoreProtocol.WasmClient.CallTwice | src/lib.rs:418-424 | the second callback is made if and only if the first resolved, and its text is the transaction or an error |
| StoreProtocol.WasmClient.PayPhase | src/lib.rs:418-424 | approve at the token, then pay at the vault only if the approval went through, then a transaction hash or an error |
| StoreProtocol.WasmClient.PutTo | src/lib.rs:440-454 | up to three PUTs of this address, content and proof to the peer that gave the quote, ending at the first that is accepted |
| StoreProtocol.WasmClient.PutPhase | src/lib.rs:436-455 | every quoted peer in order accepts or is tried three times, always with the same content and proof, and the accepted positions are counted |
| StoreProtocol.WasmClient.PayAndPut | src/lib.rs:413-462 | the PUTs carry the proof of these quotes, their commitments and the transaction paid, and the result is as the answers say |
| StoreProtocol.WasmClient.StoreOne | src/lib.rs:347-463 | every run, whatever the answers, is a store run: phases in order, what each may do, when it succeeds, and what each error means |
| StoreProtocol.WasmClient.StoreAll | src/lib.rs:280-285 | items are stored in order up to the first failure, which is reported |
| StoreProtocol.WasmClient.UploadData | src/lib.rs:237-289 | the public address is returned only after every prepared item was stored; nothing is stored when preparing fails |
| StoreProtocol.CollectedProofFits | src/lib.rs:432-433 | verified quotes always make a proof that can be encoded |
| StoreMajority.MajorityIsLeastThatMeets | src/lib.rs:46-49 | any two sets of n of the seven positions have one in common if and only if n is at least the majority |
| StoreMajority.DistinctPeersCount | src/lib.rs:371 | as many peers as positions when the listed peers differ |
| StoreMajority.PaidMeansFourPeers | src/lib.rs:436-462 | with distinct listed peers, success after paying means four different peers accepted this address and content |
| StoreMajority.StoredPositionsAreReporters | src/lib.rs:374-382 | the peers listed at the positions that reported are exactly the peers that gave a verified report |
| StoreMajority.UnpaidMeansFourPeers | src/lib.rs:377-382 | with distinct listed peers, success without paying means four different peers replied with the stored flag and a verified quote of their own for this address |
| StoreMajority.FourReportsSuffice | src/lib.rs:377-382 | verified reports at any four of the positions end a run in success without a payment, at the last of them |
| StoreMajority.RepeatedPeerFallsShort | src/lib.rs:371-382 | for any listing that repeats a peer there is a successful unpaid run with fewer than four reporting peers |
| StoreMajority.MajorityIsFourPeersIff | src/lib.rs:371-382 | an unpaid success always means four different reporting peers if and only if the first seven listed peers differ |
| StoreMajority.LostConnectionEndsRun | src/lib.rs:383-385 | a run that fails after a verified quote because the connection was lost |
| StoreMajority.UploadedMeansStored | src/lib.rs:280-289 | a successful upload stored every item at its address, each found stored by four verified reports, or approved once, paid once for its own quotes and accepted with its content by a majority |
| EndToEnd.FourHolders | src/lib.rs:377-462 | with distinct listed peers, a finished store leaves the item with at least four of the seven, by verified report or by acceptance |
| EndToEnd.HoldersSaidSo | src/lib.rs:377-446 | each of those peers itself sent the stored flag with a signed quote for the chunk, or answered a PUT of its content with stored or already-exists |
| EndToEnd.QuorumServes | src/lib.rs:161-172 | when at most three of the seven are silent in a later lookup and holders keep what they hold, some listed peer serves the item |
| EndToEnd.UploadOutlivesThreePeers | src/lib.rs:237-289 | after a successful upload, under that condition on every lookup, downloading the returned address gives the data if and only if the wrappers are shallow, as with at most one wrapper |
| Sdp.MungeOffer | src/sdp.rs:13-40 | the loop over lines gives the rewritten offer or the error of the specification |
| Sdp.AppendLine | src/sdp.rs:21-32 | one line is appended rewritten and with a CRLF ending, and counted exactly when it is a credential |
| Sdp.LineEndings | src/sdp.rs:16-17 | a line ended by LF, by CRLF or by the end of the text is read as the same line |
| Sdp.EmptyLinesDropped | src/sdp.rs:18-20 | empty lines, with or without a carriage return, are dropped |
| Sdp.RenderAppend | src/sdp.rs:21-32 | a line more is that line and a CRLF more |
| Sdp.LinesOfRender | src/sdp.rs:16-32 | lines written with CRLF endings read back as the same lines |
| Sdp.MungeKeepsLines | src/sdp.rs:16-32 | for mixed line endings, the lines survive in order and every one ends in CRLF; a user-fragment line becomes its prefix and the new value, a password line likewise, and every other line stays as it is |
| Sdp.RemungeOverrides | src/sdp.rs:13-40 | rewriting twice is rewriting once with the later credential (the lines of section 5.4 of RFC 8839) |
| Sdp.LackingLineIsErrorIff | src/sdp.rs:12-39 | rewriting succeeds exactly when two lines start with either prefix, so a lacking line is an error except when the other occurs twice |
| Sdp.TwoUfragsNoPwdAccepted | src/sdp.rs:12-39 | an offer without a password line that is accepted |

## Left out

- WebRTC itself: peer connections, ICE gathering, timers and closures. A transport is an ordered queue of messages and a pattern of sends that fail.
- Cryptography: BLAKE3, Keccak-256, ML-KEM, ML-DSA and ChaCha20-Poly1305 are function parameters or an ideal box. Forging is not possible in the ideal box; key generation is not modelled, and decapsulation and key derivation are one function.
- The self_encryption library: encrypt, decrypt, shrink and the root-map walk have stated contracts only. The walk follows wrappers through the cache to a non-wrapper map; a bound on the number of levels, a parameter, makes it total.
- DeepNest.TwoLevelsDoNotDownload: rests on that contract of the root-map walk, since the library's body is not part of this model.
- MessagePack forms that the payment types never write: maps, strings, floats, negative integers and extensions are rejected, and so is a bin where a list of integers is declared.
- PaymentWire.ProofRoundTrip: holds for lists and byte strings shorter than 2^32, the largest length MessagePack can carry.
- The postcard codec of chunk and discovery messages, and `request_id`, which no reply is checked against.
- Tokens of the JS boundary: hex parsing, error texts, `server_answer`, `closest_peers_json`, `chunks_fetched` statistics and `relayed_fetch`. The payment callback's text is either a transaction hash or not one.
- The value of the payForQuotes selector as a hash: it is a constant.
- Split.SinkNext: the standard library's stable sort is written out as an insertion sort, which gives the same ranking because a stable ranking is unique.
- Download.Download: chunks of a round are fetched one address at a time. The concurrency of a round only decides which answers arrive, and every answer is already arbitrary per address and round.
- Session.NodeConnection.RoundTrip: a request dropped while it waits is the `Abandon` step of the state machine, which frees the lock and leaves the caller without a reply; the method itself is not cut short, and `ReliableSession` has no such step.
- Session.NoncesNeverRepeat: that the node seals at most one response per number is assumed of the node, a program outside this repository.
- EndToEnd.UploadOutlivesThreePeers: that a node which said it has a chunk keeps it is assumed of the nodes, which are outside this repository.
- 32-bit `usize` on the browser's platform: lengths are unbounded except where a length is written into a field.
