/** Length-prefixed frames over a message channel, and the buffer that reassembles them. */
module Framing {
  import opened Bytes

  const MAX_DC_MESSAGE_SIZE: nat := 16 * 1024
  const MAX_WIRE_MESSAGE_SIZE: nat := 5 * 1024 * 1024
  const MAX_FRAME_SIZE: nat := MAX_WIRE_MESSAGE_SIZE + 64

  /** The length as a `u32`, so it wraps for a payload of 2^32 bytes or more. */
  function LengthPrefix(n: nat): (s: Bytes)
    ensures |s| == 4
  {
    ToBigEndian(n % Pow256(4), 4)
  }

  function EncodeFrame(payload: Bytes): Bytes {
    LengthPrefix(|payload|) + payload
  }

  /** Four bytes of length, most significant first and cut to 32 bits, and then the payload. */
  lemma FrameLayout(payload: Bytes)
    ensures |EncodeFrame(payload)| == 4 + |payload|
    ensures BigEndian(EncodeFrame(payload)[..4]) == |payload| % 0x1_0000_0000
    ensures EncodeFrame(payload)[4..] == payload
  {
    assert Pow256(4) == 0x1_0000_0000;
    BigEndianOfDigits(|payload| % Pow256(4), 4);
    assert EncodeFrame(payload)[..4] == LengthPrefix(|payload|);
  }

  /** The sizes a receiver accepts. */
  predicate InRange(payload: Bytes) {
    1 <= |payload| <= MAX_FRAME_SIZE
  }

  function SplitMessages(wire: Bytes): (msgs: seq<Bytes>)
    ensures forall i :: 0 <= i < |msgs| ==> 1 <= |msgs[i]| <= 16384
    ensures forall i :: 0 <= i < |msgs| - 1 ==> |msgs[i]| == 16384
  {
    if wire == [] then []
    else if |wire| <= MAX_DC_MESSAGE_SIZE then [wire]
    else [wire[..MAX_DC_MESSAGE_SIZE]] + SplitMessages(wire[MAX_DC_MESSAGE_SIZE..])
  }

  lemma {:induction false} ConcatSplit(wire: Bytes)
    ensures Concat(SplitMessages(wire)) == wire
  {
    if wire == [] {
    } else if |wire| <= MAX_DC_MESSAGE_SIZE {
      assert Concat([wire]) == wire + Concat([]);
    } else {
      var first, others := wire[..MAX_DC_MESSAGE_SIZE], wire[MAX_DC_MESSAGE_SIZE..];
      ConcatSplit(others);
      assert ([first] + SplitMessages(others))[1..] == SplitMessages(others);
      assert first + others == wire;
    }
  }

  // ----- the reassembly buffer -----

  datatype PushResult = Frame(payload: Bytes) | NeedMore | OutOfRange(len: nat)

  datatype Pushed = Pushed(result: PushResult, buf: Bytes)

  /** What a buffer holding `b` yields, and what it then holds. */
  function Take(b: Bytes): Pushed {
    if |b| < 4 then Pushed(NeedMore, b) else
    var len := BigEndian(b[..4]);
    if len == 0 || len > MAX_FRAME_SIZE then Pushed(OutOfRange(len), b)
    else if |b| < 4 + len then Pushed(NeedMore, b)
    else Pushed(Frame(b[4..4 + len]), b[4 + len..])
  }

  class FrameBuf {
    var buf: Bytes

    constructor ()
      ensures buf == []
    {
      buf := [];
    }

    method Push(data: Bytes) returns (r: PushResult)
      modifies this
      ensures Pushed(r, buf) == Take(old(buf) + data)
    {
      buf := buf + data;
      if |buf| < 4 {
        return NeedMore;
      }
      var lenBytes := buf[0..4];
      assert lenBytes == buf[..4];
      var len := BigEndian(lenBytes);
      if len == 0 || len > MAX_FRAME_SIZE {
        return OutOfRange(len);
      }
      if |buf| < 4 + len {
        return NeedMore;
      }
      var payload := buf[4..4 + len];
      buf := buf[4 + len..];
      r := Frame(payload);
    }
  }

  lemma PrefixValue(n: nat)
    requires n <= MAX_FRAME_SIZE
    ensures BigEndian(LengthPrefix(n)) == n
  {
    assert Pow256(4) == 0x1_0000_0000;
    assert n % Pow256(4) == n;
    BigEndianOfDigits(n, 4);
  }

  /** A frame is taken exactly when the buffer starts with its encoding; the rest stays. */
  lemma TakesExactlyFrames(b: Bytes, payload: Bytes, rest: Bytes)
    ensures Take(b) == Pushed(Frame(payload), rest) <==>
      1 <= |payload| <= 5 * 1024 * 1024 + 64 && b == EncodeFrame(payload) + rest
  {
    if InRange(payload) && b == EncodeFrame(payload) + rest {
      PrefixValue(|payload|);
      assert b[..4] == LengthPrefix(|payload|);
      assert b[4..4 + |payload|] == payload;
      assert b[4 + |payload|..] == rest;
    }
    if Take(b) == Pushed(Frame(payload), rest) {
      PrefixValue(|payload|);
      BigEndianInjective(b[..4], LengthPrefix(|payload|));
      assert b == b[..4] + b[4..4 + |payload|] + b[4 + |payload|..];
    }
  }

  /** A length of zero or above the limit is refused as soon as its four bytes are there, and only then. */
  lemma TakeRefuses(b: Bytes, len: nat)
    ensures Take(b).result == OutOfRange(len) <==>
      |b| >= 4 && BigEndian(b[..4]) == len && (len == 0 || len > 5 * 1024 * 1024 + 64)
    ensures Take(b).result.NeedMore? <==>
      |b| < 4 || (1 <= BigEndian(b[..4]) <= 5 * 1024 * 1024 + 64 && |b| < 4 + BigEndian(b[..4]))
  {
  }

  /** Waiting or failing changes nothing, and more bytes never undo a verdict on the head. */
  lemma TakeExtends(b: Bytes, more: Bytes)
    ensures Take(b).result.Frame? ==> Take(b + more) == Pushed(Take(b).result, Take(b).buf + more)
    ensures Take(b).result.OutOfRange? ==> Take(b + more) == Pushed(Take(b).result, b + more)
    ensures !Take(b).result.Frame? ==> Take(b).buf == b
  {
    if |b| >= 4 {
      assert (b + more)[..4] == b[..4];
      var len := BigEndian(b[..4]);
      if 0 < len <= MAX_FRAME_SIZE && |b| >= 4 + len {
        assert (b + more)[4..4 + len] == b[4..4 + len];
        assert (b + more)[4 + len..] == b[4 + len..] + more;
      }
    }
  }

  lemma WaitingBufferIsSmall(b: Bytes)
    requires Take(b).result.NeedMore?
    ensures |b| < 4 + MAX_FRAME_SIZE
  {
  }

  // ----- any sequence of pushes -----

  datatype PushRun = PushRun(results: seq<PushResult>, buf: Bytes)

  /** Push each of `datas` in turn onto a buffer holding `buf`. */
  function PushAll(buf: Bytes, datas: seq<Bytes>): (r: PushRun)
    ensures |r.results| == |datas|
    decreases datas
  {
    if datas == [] then PushRun([], buf) else
    var first := Take(buf + datas[0]);
    var others := PushAll(first.buf, datas[1..]);
    PushRun([first.result] + others.results, others.buf)
  }

  /** The bytes a result took off the buffer. */
  function BytesOf(result: PushResult): Bytes {
    match result
    case Frame(payload) => EncodeFrame(payload)
    case _ => []
  }

  /** The frames among some results, encoded again, in order. */
  function Reencoded(results: seq<PushResult>): Bytes {
    if results == [] then [] else BytesOf(results[0]) + Reencoded(results[1..])
  }

  lemma TakeConservesBytes(b: Bytes)
    ensures BytesOf(Take(b).result) + Take(b).buf == b
  {
    if Take(b).result.Frame? {
      TakesExactlyFrames(b, Take(b).result.payload, Take(b).buf);
    }
  }

  lemma JoinConserved(out: Bytes, outs: Bytes, mid: Bytes, end: Bytes, buf: Bytes, data: Bytes, datas: Bytes)
    requires out + mid == buf + data && outs + end == mid + datas
    ensures (out + outs) + end == buf + (data + datas)
  {
    assert (out + outs) + end == out + (outs + end);
    assert out + (mid + datas) == (out + mid) + datas;
    assert (buf + data) + datas == buf + (data + datas);
  }

  /** No byte is lost, invented or reordered: frames given out and the buffer are all that was pushed. */
  lemma {:induction false} PushConservesBytes(buf: Bytes, datas: seq<Bytes>)
    ensures Reencoded(PushAll(buf, datas).results) + PushAll(buf, datas).buf == buf + Concat(datas)
    decreases datas
  {
    if datas != [] {
      var first := Take(buf + datas[0]);
      var others := PushAll(first.buf, datas[1..]);
      TakeConservesBytes(buf + datas[0]);
      PushConservesBytes(first.buf, datas[1..]);
      assert ([first.result] + others.results)[1..] == others.results;
      JoinConserved(BytesOf(first.result), Reencoded(others.results), first.buf, others.buf,
                    buf, datas[0], Concat(datas[1..]));
    }
  }

  /** Once the head length is out of range, every later push fails with it and no frame appears. */
  lemma {:induction false} OutOfRangeIsForever(buf: Bytes, datas: seq<Bytes>)
    requires Take(buf).result.OutOfRange?
    ensures forall i :: 0 <= i < |datas| ==> PushAll(buf, datas).results[i] == Take(buf).result
    ensures PushAll(buf, datas).buf == buf + Concat(datas)
    decreases datas
  {
    if datas == [] {
      assert buf + Concat(datas) == buf;
    } else {
      TakeExtends(buf, datas[0]);
      OutOfRangeIsForever(buf + datas[0], datas[1..]);
      assert buf + datas[0] + Concat(datas[1..]) == buf + (datas[0] + Concat(datas[1..]));
    }
  }
}
