/** ABI calldata for the two on-chain calls, and the decoders the ABI's encoding rules define. */
module Calldata {
  import opened Bytes
  import MsgPack
  import opened U256
  import opened Payment
  import opened Split

  const ERC20_APPROVE_SELECTOR: Bytes := [0x09, 0x5e, 0xa7, 0xb3]
  const PAY_FOR_QUOTES_SELECTOR: Bytes := [0xb6, 0xc2, 0x14, 0x1b]

  const ELEMENT_BYTES: nat := 96

  function WordFromAddress(addr: Bytes20): Bytes32 {
    Zeros(12) + addr
  }

  // ----- encoding -----

  function ApproveBytes(spender: Bytes20, amount: Bytes32): Bytes {
    ERC20_APPROVE_SELECTOR + WordFromAddress(spender) + amount
  }

  /** The selector of `approve(address,uint256)`, the address on the right of its word, the amount as it is. */
  predicate IsApproveCall(out: Bytes, spender: Bytes20, amount: Bytes32) {
    && |out| == 68 && out[..4] == [0x09, 0x5e, 0xa7, 0xb3]
    && (forall k :: 4 <= k < 16 ==> out[k] == 0) && out[16..36] == spender
    && out[36..] == amount
  }

  method ApproveCalldata(spender: Bytes20, amount: Bytes32) returns (out: Bytes)
    ensures out == ApproveBytes(spender, amount) && IsApproveCall(out, spender, amount)
  {
    out := ERC20_APPROVE_SELECTOR;
    out := out + WordFromAddress(spender);
    out := out + amount;
  }

  function ElementBytes(p: DataPayment): (s: Bytes)
    ensures |s| == ELEMENT_BYTES
  {
    WordFromAddress(p.rewards) + p.amount + p.quoteHash
  }

  function ElementsBytes(payments: seq<DataPayment>): (s: Bytes)
    ensures |s| == ELEMENT_BYTES * |payments|
  {
    if payments == [] then [] else ElementBytes(payments[0]) + ElementsBytes(payments[1..])
  }

  /** The array length as a `u64` (eight bytes) in the low end of a word. */
  function LengthWord(n: nat): Bytes32 {
    Zeros(24) + ToBigEndian(n % Pow256(8), 8)
  }

  function OffsetWord(): Bytes32 {
    Zeros(31) + [0x20]
  }

  function PayForQuotesBytes(payments: seq<DataPayment>): Bytes {
    PAY_FOR_QUOTES_SELECTOR + (OffsetWord() + (LengthWord(|payments|) + ElementsBytes(payments)))
  }

  /** One element: the address on the right of its word, the amount, the quote hash. */
  predicate IsElement(s: Bytes, p: DataPayment) {
    && |s| == 96
    && (forall k :: 0 <= k < 12 ==> s[k] == 0) && s[12..32] == p.rewards
    && s[32..64] == p.amount && s[64..] == p.quoteHash
  }

  /** The selector, the array's offset, its length cut to 64 bits, and its elements in order. */
  predicate IsPayForQuotesCall(out: Bytes, payments: seq<DataPayment>) {
    && |out| == 68 + 96 * |payments| && out[..4] == [0xb6, 0xc2, 0x14, 0x1b]
    && BigEndian(out[4..36]) == 32 && BigEndian(out[36..68]) == |payments| % 0x1_0000_0000_0000_0000
    && forall i :: 0 <= i < |payments| ==> IsElement(out[68 + 96 * i..68 + 96 * i + 96], payments[i])
  }

  method PayForQuotesCalldata(payments: seq<DataPayment>) returns (out: Bytes)
    ensures out == PayForQuotesBytes(payments)
  {
    out := PAY_FOR_QUOTES_SELECTOR;
    out := out + OffsetWord();
    out := out + LengthWord(|payments|);
    ghost var head := out;
    for i := 0 to |payments|
      invariant out == head + ElementsBytes(payments[..i])
    {
      out := out + WordFromAddress(payments[i].rewards);
      out := out + payments[i].amount;
      out := out + payments[i].quoteHash;
      ElementsAppend(payments[..i], payments[i]);
      assert payments[..i + 1] == payments[..i] + [payments[i]];
      assert out == head + (ElementsBytes(payments[..i]) + ElementBytes(payments[i]));
    }
    assert payments[..|payments|] == payments;
  }

  lemma {:induction false} ElementAt(payments: seq<DataPayment>, i: nat)
    requires i < |payments|
    ensures IsElement(ElementsBytes(payments)[96 * i..96 * i + 96], payments[i])
  {
    var first, others := ElementBytes(payments[0]), ElementsBytes(payments[1..]);
    if i == 0 {
      assert ElementsBytes(payments)[0..96] == first;
    } else {
      ElementAt(payments[1..], i - 1);
      assert ElementsBytes(payments)[96 * i..96 * i + 96] == others[96 * (i - 1)..96 * (i - 1) + 96];
    }
  }

  lemma ElementInCall(payments: seq<DataPayment>, i: nat)
    requires i < |payments|
    ensures IsElement(PayForQuotesBytes(payments)[68 + 96 * i..68 + 96 * i + 96], payments[i])
  {
    ElementAt(payments, i);
    assert PayForQuotesBytes(payments)[68 + 96 * i..68 + 96 * i + 96] == ElementsBytes(payments)[96 * i..96 * i + 96];
  }

  /** Which word of the call is where. */
  lemma PayForQuotesLayout(payments: seq<DataPayment>)
    ensures IsPayForQuotesCall(PayForQuotesBytes(payments), payments)
  {
    var out := PayForQuotesBytes(payments);
    OffsetIsOneWord();
    LengthIsCount(|payments|);
    assert out[..4] == PAY_FOR_QUOTES_SELECTOR && out[4..36] == OffsetWord();
    assert out[36..68] == LengthWord(|payments|);
    forall i | 0 <= i < |payments| ensures IsElement(out[68 + 96 * i..68 + 96 * i + 96], payments[i]) {
      ElementInCall(payments, i);
    }
  }

  lemma {:induction false} ElementsAppend(payments: seq<DataPayment>, p: DataPayment)
    ensures ElementsBytes(payments + [p]) == ElementsBytes(payments) + ElementBytes(p)
  {
    if payments == [] {
      assert payments + [p] == [p];
      assert ElementsBytes([p]) == ElementBytes(p) + ElementsBytes([]);
    } else {
      assert (payments + [p])[1..] == payments[1..] + [p];
      ElementsAppend(payments[1..], p);
    }
  }

  // ----- decoding, as a contract reads its arguments -----

  function WordAt(args: Bytes, at: nat): nat
    requires at + 32 <= |args|
  {
    Value(args[at..at + 32])
  }

  /** An address argument: twelve zero bytes, then the address. */
  function AddressAt(args: Bytes, at: nat): Option<Bytes20>
    requires at + 32 <= |args|
  {
    if args[at..at + 12] == Zeros(12) then Some(args[at + 12..at + 32]) else None
  }

  /** One static `(address, uint256, bytes32)` tuple. */
  function DecodeElement(args: Bytes, at: nat): Option<DataPayment>
    requires at + ELEMENT_BYTES <= |args|
  {
    match AddressAt(args, at)
    case None => None
    case Some(rewards) => Some(DataPayment(rewards, args[at + 32..at + 64], args[at + 64..at + 96]))
  }

  function DecodeElements(args: Bytes, at: nat, count: nat): Option<seq<DataPayment>>
    decreases count
  {
    if count == 0 then Some([])
    else if at + ELEMENT_BYTES > |args| then None
    else
      match (DecodeElement(args, at), DecodeElements(args, at + ELEMENT_BYTES, count - 1))
      case (Some(p), Some(ps)) => Some([p] + ps)
      case _ => None
  }

  /** A dynamic array argument: its offset in the head, then its length and elements at that offset. */
  function DecodeArrayArgument(args: Bytes): Option<seq<DataPayment>> {
    if |args| < 32 then None else
    var offset := WordAt(args, 0);
    if offset + 32 > |args| then None else
    DecodeElements(args, offset + 32, WordAt(args, offset))
  }

  function DecodePayForQuotes(data: Bytes): Option<seq<DataPayment>> {
    if |data| < 4 || data[..4] != PAY_FOR_QUOTES_SELECTOR then None else DecodeArrayArgument(data[4..])
  }

  datatype Approval = Approval(spender: Bytes20, amount: nat)

  function DecodeApprove(data: Bytes): Option<Approval> {
    if |data| < 68 || data[..4] != ERC20_APPROVE_SELECTOR then None else
    match AddressAt(data, 4)
    case None => None
    case Some(spender) => Some(Approval(spender, WordAt(data, 36)))
  }

  // ----- the decoders recover what was encoded -----

  lemma ApproveRoundTrip(spender: Bytes20, amount: Bytes32)
    ensures DecodeApprove(ApproveBytes(spender, amount)) == Some(Approval(spender, Value(amount)))
  {
    var data := ApproveBytes(spender, amount);
    assert data[..4] == ERC20_APPROVE_SELECTOR;
    assert data[4..16] == Zeros(12);
    assert data[16..36] == spender;
    assert data[36..68] == amount;
  }

  lemma ElementRoundTrip(before: Bytes, p: DataPayment, after: Bytes)
    ensures DecodeElement(before + ElementBytes(p) + after, |before|) == Some(p)
  {
    var args, at := before + ElementBytes(p) + after, |before|;
    assert args[at..at + 12] == Zeros(12);
    assert args[at + 12..at + 32] == p.rewards;
    assert args[at + 32..at + 64] == p.amount;
    assert args[at + 64..at + 96] == p.quoteHash;
  }

  lemma DecodeOneMore(args: Bytes, at: nat, count: nat, p: DataPayment, others: seq<DataPayment>)
    requires at + ELEMENT_BYTES <= |args| && DecodeElement(args, at) == Some(p)
    requires DecodeElements(args, at + ELEMENT_BYTES, count) == Some(others)
    ensures DecodeElements(args, at, count + 1) == Some([p] + others)
  {
  }

  lemma {:induction false} ElementsRoundTrip(before: Bytes, payments: seq<DataPayment>)
    ensures DecodeElements(before + ElementsBytes(payments), |before|, |payments|) == Some(payments)
    decreases payments
  {
    if payments != [] {
      var first, others := payments[0], payments[1..];
      var args := before + ElementsBytes(payments);
      var next := before + ElementBytes(first);
      assert args == next + ElementsBytes(others);
      ElementRoundTrip(before, first, ElementsBytes(others));
      ElementsRoundTrip(next, others);
      DecodeOneMore(args, |before|, |others|, first, others);
      assert payments == [first] + others;
    }
  }

  lemma {:induction false} LeadingZeros(n: nat, s: Bytes)
    ensures BigEndian(Zeros(n) + s) == BigEndian(s)
  {
    if n == 0 {
      assert Zeros(0) + s == s;
    } else {
      assert (Zeros(n) + s)[1..] == Zeros(n - 1) + s;
      LeadingZeros(n - 1, s);
    }
  }

  lemma OffsetIsOneWord()
    ensures Value(OffsetWord()) == 32
  {
    LeadingZeros(31, [0x20]);
    assert BigEndian([0x20]) == 0x20 * Pow256(0) + BigEndian([]);
  }

  lemma LengthIsCount(n: nat)
    ensures Value(LengthWord(n)) == n % 0x1_0000_0000_0000_0000
  {
    MsgPack.Widths();
    LeadingZeros(24, ToBigEndian(n % Pow256(8), 8));
    BigEndianOfDigits(n % Pow256(8), 8);
  }

  lemma SmallLength(n: nat)
    requires n < 0x1_0000_0000_0000_0000
    ensures Value(LengthWord(n)) == n
  {
    LengthIsCount(n);
  }

  lemma ArrayArgumentRoundTrip(offset: Bytes32, length: Bytes32, payments: seq<DataPayment>)
    requires Value(offset) == 32 && Value(length) == |payments|
    ensures DecodeArrayArgument(offset + (length + ElementsBytes(payments))) == Some(payments)
  {
    var elements := ElementsBytes(payments);
    var args := offset + (length + elements);
    assert args[0..32] == offset;
    assert args[32..64] == length;
    assert args == (offset + length) + elements;
    ElementsRoundTrip(offset + length, payments);
  }

  /** The contract reads exactly the payments that were encoded. */
  lemma PayForQuotesRoundTrip(payments: seq<DataPayment>)
    requires |payments| < 0x1_0000_0000_0000_0000
    ensures DecodePayForQuotes(PayForQuotesBytes(payments)) == Some(payments)
  {
    var args := OffsetWord() + (LengthWord(|payments|) + ElementsBytes(payments));
    var data := PAY_FOR_QUOTES_SELECTOR + args;
    assert data[..4] == PAY_FOR_QUOTES_SELECTOR;
    assert data[4..] == args;
    OffsetIsOneWord();
    SmallLength(|payments|);
    ArrayArgumentRoundTrip(OffsetWord(), LengthWord(|payments|), payments);
  }

  /** What the vault is approved to pull is what the payments it is then asked to make add up to. */
  lemma MoneyIsConserved(quotes: seq<Quote>, m: nat, keccak: Bytes -> Bytes32, vault: Bytes20, total: Bytes32)
    requires IsMedian(Prices(quotes), m)
    requires Value(total) == Sum(Payments(quotes, m, keccak)) % TWO_256
    ensures var approval := DecodeApprove(ApproveBytes(vault, total));
      var paid := DecodePayForQuotes(PayForQuotesBytes(Payments(quotes, m, keccak)));
      && approval.Some? && paid.Some?
      && approval.value.spender == vault
      && approval.value.amount == Sum(paid.value) % TWO_256
      && (approval.value.amount == 3 * Value(quotes[m].price) <==> Value(quotes[m].price) <= (TWO_256 - 1) / 3)
  {
    ApproveRoundTrip(vault, total);
    PayForQuotesRoundTrip(Payments(quotes, m, keccak));
    TotalIsTripleMedian(quotes, m, keccak, total);
  }
}
