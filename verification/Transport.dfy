/** Sending and receiving whole frames over an ordered message channel. */
module Transport {
  import opened Bytes
  import opened Framing

  datatype RecvError = ConnectionClosed | BadLength(len: nat)

  datatype Received = Received(outcome: Result<Bytes, RecvError>, buf: Bytes, incoming: seq<Bytes>)

  /** Drain the buffer first; read one more message only when it holds no complete frame. */
  function Recv(buf: Bytes, incoming: seq<Bytes>): Received
    decreases |incoming|
  {
    var t := Take(buf);
    match t.result
    case Frame(payload) => Received(Ok(payload), t.buf, incoming)
    case OutOfRange(len) => Received(Err(BadLength(len)), t.buf, incoming)
    case NeedMore =>
      if incoming == [] then Received(Err(ConnectionClosed), buf, incoming)
      else Recv(buf + incoming[0], incoming[1..])
  }

  /** How many of the next `n` sends go through before the first that fails, after `attempts` earlier ones. */
  function Sendable(accepts: nat -> bool, attempts: nat, n: nat): (k: nat)
    ensures k <= n && (k < n ==> !accepts(attempts + k))
    ensures forall i :: attempts <= i < attempts + k ==> accepts(i)
    decreases n
  {
    if n == 0 || !accepts(attempts) then 0 else 1 + Sendable(accepts, attempts + 1, n - 1)
  }

  lemma SendableIs(accepts: nat -> bool, attempts: nat, n: nat, k: nat)
    requires k <= n && (k < n ==> !accepts(attempts + k))
    requires forall i :: attempts <= i < attempts + k ==> accepts(i)
    ensures Sendable(accepts, attempts, n) == k
  {
  }

  /**
   A channel. `incoming` is every message that will still arrive before the channel closes, in order;
   `accepts` tells of each attempt to send whether it succeeds, in any pattern.
   */
  class Transport {
    const accepts: nat -> bool
    var incoming: seq<Bytes>
    var sent: seq<Bytes>
    var attempts: nat
    const frameBuf: FrameBuf

    constructor (arriving: seq<Bytes>, accepts: nat -> bool)
      ensures incoming == arriving && sent == [] && attempts == 0 && this.accepts == accepts
      ensures fresh(frameBuf) && frameBuf.buf == []
    {
      this.accepts, incoming, sent, attempts := accepts, arriving, [], 0;
      frameBuf := new FrameBuf();
    }

    /** The frame's messages go out in order up to the first that fails, which is the last one tried. */
    method SendFrame(payload: Bytes) returns (ok: bool)
      modifies this`sent, this`attempts
      ensures var msgs := SplitMessages(EncodeFrame(payload));
        var k := Sendable(accepts, old(attempts), |msgs|);
        && (ok <==> k == |msgs|)
        && sent == old(sent) + msgs[..k]
        && attempts == old(attempts) + if ok then k else k + 1
    {
      var msgs := SplitMessages(EncodeFrame(payload));
      for i := 0 to |msgs|
        invariant attempts == old(attempts) + i && sent == old(sent) + msgs[..i]
        invariant forall j :: old(attempts) <= j < attempts ==> accepts(j)
      {
        attempts := attempts + 1;
        if !accepts(attempts - 1) {
          SendableIs(accepts, old(attempts), |msgs|, i);
          return false;
        }
        sent := sent + [msgs[i]];
        assert msgs[..i + 1] == msgs[..i] + [msgs[i]];
      }
      SendableIs(accepts, old(attempts), |msgs|, |msgs|);
      assert msgs[..|msgs|] == msgs;
      ok := true;
    }

    method RecvFrame() returns (r: Result<Bytes, RecvError>)
      modifies this`incoming, frameBuf
      ensures Received(r, frameBuf.buf, incoming) == Recv(old(frameBuf.buf), old(incoming))
    {
      while true
        invariant Recv(frameBuf.buf, incoming) == Recv(old(frameBuf.buf), old(incoming))
        decreases |incoming|
      {
        assert frameBuf.buf + [] == frameBuf.buf;
        var drained := frameBuf.Push([]);
        match drained {
          case Frame(payload) => return Ok(payload);
          case OutOfRange(len) => return Err(BadLength(len));
          case NeedMore =>
        }
        if incoming == [] {
          return Err(ConnectionClosed);
        }
        var raw := incoming[0];
        ghost var extended := frameBuf.buf + raw;
        incoming := incoming[1..];
        var pushed := frameBuf.Push(raw);
        match pushed {
          case Frame(payload) => return Ok(payload);
          case OutOfRange(len) => return Err(BadLength(len));
          case NeedMore => assert frameBuf.buf == extended;
        }
      }
    }
  }

  // ----- reassembly -----

  /** The byte stream that carries some payloads. */
  function Stream(payloads: seq<Bytes>): Bytes {
    if payloads == [] then [] else EncodeFrame(payloads[0]) + Stream(payloads[1..])
  }

  /** One receive takes exactly the next payload off the stream, however the stream was cut. */
  lemma {:induction false} RecvTakesNext(buf: Bytes, incoming: seq<Bytes>, payload: Bytes, rest: Bytes)
    requires InRange(payload) && buf + Concat(incoming) == EncodeFrame(payload) + rest
    ensures Recv(buf, incoming).outcome == Ok(payload)
    ensures Recv(buf, incoming).buf + Concat(Recv(buf, incoming).incoming) == rest
    decreases |incoming|
  {
    TakesExactlyFrames(buf + Concat(incoming), payload, rest);
    TakeExtends(buf, Concat(incoming));
    assert incoming == [] ==> buf + Concat(incoming) == buf;
    if Take(buf).result.NeedMore? {
      assert buf + incoming[0] + Concat(incoming[1..]) == buf + Concat(incoming);
      RecvTakesNext(buf + incoming[0], incoming[1..], payload, rest);
    }
  }

  /** What is left after the last whole frame decides the error, however it was cut. */
  lemma {:induction false} RecvAtEnd(buf: Bytes, incoming: seq<Bytes>)
    requires !Take(buf + Concat(incoming)).result.Frame?
    ensures Recv(buf, incoming).outcome
         == match Take(buf + Concat(incoming)).result
            case OutOfRange(len) => Err(BadLength(len))
            case _ => Err(ConnectionClosed)
    decreases |incoming|
  {
    TakeExtends(buf, Concat(incoming));
    if incoming == [] {
      assert buf + Concat(incoming) == buf;
    } else if Take(buf).result.NeedMore? {
      assert buf + incoming[0] + Concat(incoming[1..]) == buf + Concat(incoming);
      RecvAtEnd(buf + incoming[0], incoming[1..]);
    }
  }

  datatype RecvRun = RecvRun(outcomes: seq<Result<Bytes, RecvError>>, buf: Bytes, incoming: seq<Bytes>)

  /** `n` receives in a row, going on after errors too. */
  function RecvMany(buf: Bytes, incoming: seq<Bytes>, n: nat): (r: RecvRun)
    ensures |r.outcomes| == n
    decreases n
  {
    if n == 0 then RecvRun([], buf, incoming) else
    var first := Recv(buf, incoming);
    var others := RecvMany(first.buf, first.incoming, n - 1);
    RecvRun([first.outcome] + others.outcomes, others.buf, others.incoming)
  }

  /** Exactly the payloads sent, in order, and then the verdict on the tail: nothing more, nothing less. */
  lemma {:induction false} Reassembly(buf: Bytes, incoming: seq<Bytes>, payloads: seq<Bytes>, tail: Bytes)
    requires forall i :: 0 <= i < |payloads| ==> InRange(payloads[i])
    requires buf + Concat(incoming) == Stream(payloads) + tail && !Take(tail).result.Frame?
    ensures var r := RecvMany(buf, incoming, |payloads| + 1);
      && (forall i :: 0 <= i < |payloads| ==> r.outcomes[i] == Ok(payloads[i]))
      && r.outcomes[|payloads|]
        == if Take(tail).result.OutOfRange? then Err(BadLength(Take(tail).result.len)) else Err(ConnectionClosed)
    decreases |payloads|
  {
    if payloads == [] {
      assert buf + Concat(incoming) == tail;
      RecvAtEnd(buf, incoming);
    } else {
      assert buf + Concat(incoming) == EncodeFrame(payloads[0]) + (Stream(payloads[1..]) + tail);
      RecvTakesNext(buf, incoming, payloads[0], Stream(payloads[1..]) + tail);
      var next := Recv(buf, incoming);
      Reassembly(next.buf, next.incoming, payloads[1..], tail);
    }
  }

  /** All the messages `SendFrame` puts on the channel for some payloads. */
  function MessagesFor(payloads: seq<Bytes>): seq<Bytes> {
    if payloads == [] then [] else SplitMessages(EncodeFrame(payloads[0])) + MessagesFor(payloads[1..])
  }

  lemma {:induction false} MessagesCarryStream(payloads: seq<Bytes>)
    ensures Concat(MessagesFor(payloads)) == Stream(payloads)
  {
    if payloads != [] {
      MessagesCarryStream(payloads[1..]);
      ConcatSplit(EncodeFrame(payloads[0]));
      ConcatAppend(SplitMessages(EncodeFrame(payloads[0])), MessagesFor(payloads[1..]));
    }
  }

  /** Sent, re-cut into any messages (empty ones too), received: the same payloads in the same order. */
  lemma SendThenReceive(payloads: seq<Bytes>, incoming: seq<Bytes>)
    requires forall i :: 0 <= i < |payloads| ==> InRange(payloads[i])
    requires Concat(incoming) == Concat(MessagesFor(payloads))
    ensures forall i :: 0 <= i < |payloads| ==> RecvMany([], incoming, |payloads| + 1).outcomes[i] == Ok(payloads[i])
    ensures RecvMany([], incoming, |payloads| + 1).outcomes[|payloads|] == Err(ConnectionClosed)
  {
    MessagesCarryStream(payloads);
    assert [] + Concat(incoming) == Stream(payloads) + [];
    Reassembly([], incoming, payloads, []);
  }

  lemma {:induction false} ReceivedInRange(buf: Bytes, incoming: seq<Bytes>)
    requires Recv(buf, incoming).outcome.Ok?
    ensures InRange(Recv(buf, incoming).outcome.value)
    decreases |incoming|
  {
    if Take(buf).result.NeedMore? {
      ReceivedInRange(buf + incoming[0], incoming[1..]);
    }
  }

  /** One payload survives the trip exactly when its size is one a receiver accepts. */
  lemma SurvivesIffInRange(payload: Bytes)
    ensures Recv([], SplitMessages(EncodeFrame(payload))).outcome == Ok(payload) <==>
      1 <= |payload| <= 5 * 1024 * 1024 + 64
  {
    var msgs := SplitMessages(EncodeFrame(payload));
    if InRange(payload) {
      ConcatSplit(EncodeFrame(payload));
      assert [] + Concat(msgs) == EncodeFrame(payload) + [];
      RecvTakesNext([], msgs, payload, []);
    } else if Recv([], msgs).outcome.Ok? {
      ReceivedInRange([], msgs);
    }
  }

  /** The buffer stays below one frame and one message, through any number of receives and errors. */
  lemma {:induction false} BufferStaysBounded(buf: Bytes, incoming: seq<Bytes>, limit: nat)
    requires |buf| < 4 + MAX_FRAME_SIZE + limit && forall i :: 0 <= i < |incoming| ==> |incoming[i]| <= limit
    ensures var r := Recv(buf, incoming);
      && |r.buf| < 4 + MAX_FRAME_SIZE + limit
      && |r.incoming| <= |incoming| && r.incoming == incoming[|incoming| - |r.incoming|..]
    decreases |incoming|
  {
    if Take(buf).result.NeedMore? && incoming != [] {
      WaitingBufferIsSmall(buf);
      BufferStaysBounded(buf + incoming[0], incoming[1..], limit);
    }
  }

  lemma {:induction false} BufferStaysBoundedForever(buf: Bytes, incoming: seq<Bytes>, limit: nat, n: nat)
    requires |buf| < 4 + MAX_FRAME_SIZE + limit && forall i :: 0 <= i < |incoming| ==> |incoming[i]| <= limit
    ensures |RecvMany(buf, incoming, n).buf| < 4 + MAX_FRAME_SIZE + limit
    decreases n
  {
    if n > 0 {
      BufferStaysBounded(buf, incoming, limit);
      BufferStaysBoundedForever(Recv(buf, incoming).buf, Recv(buf, incoming).incoming, limit, n - 1);
    }
  }
}
