/** One authenticated connection shared by concurrent callers: every interleaving of their round trips. */
module Session {
  import opened Bytes
  import opened Framing
  import opened Tunnel
  import Transport

  datatype ConnError =
    | SequenceExhausted
    | SendFailed
    | ConnectionClosed
    | BadLength(len: nat)
    | Undecryptable
    | SequenceMismatch
    | WrongTag

  type Reply = Result<Bytes, ConnError>

  /** What a round trip with number `number` and tag `tag` makes of the frame it receives. */
  function Accept(key: Key, number: uint32, tag: byte, frame: Envelope): Reply {
    match OpenResponse(key, frame)
    case Err(_) => Err(Undecryptable)
    case Ok(Opened(n, plaintext)) =>
      if n != number then Err(SequenceMismatch)
      else if plaintext == [] || plaintext[0] != tag then Err(WrongTag)
      else Ok(plaintext[1..])
  }

  /** The only frame accepted with result `reply` is the node's own seal of `reply` for this number and tag. */
  lemma AcceptsExactlyTheAnswer(key: Key, number: uint32, tag: byte, frame: Envelope, reply: Bytes)
    ensures Accept(key, number, tag, frame) == Ok(reply) <==> frame == Seal(key, number, ServerToClient, [tag] + reply)
  {
    OpensExactlyResponses(key, frame, number, [tag] + reply);
    if Accept(key, number, tag, frame) == Ok(reply) {
      var plaintext := OpenResponse(key, frame).value.plaintext;
      assert plaintext == [plaintext[0]] + plaintext[1..];
    }
    if frame == Seal(key, number, ServerToClient, [tag] + reply) {
      assert ([tag] + reply)[1..] == reply;
    }
  }

  /** The frame is the node's seal of this number, of some plaintext. */
  ghost predicate SealedByNode(key: Key, number: uint32, frame: Envelope) {
    exists plaintext :: frame == Seal(key, number, ServerToClient, plaintext)
  }

  lemma OpenedIsSealedByNode(key: Key, frame: Envelope)
    ensures match OpenResponse(key, frame)
      case Ok(o) =>
        && frame == Seal(key, o.number, ServerToClient, o.plaintext)
        && forall n: uint32 :: SealedByNode(key, n, frame) <==> n == o.number
      case Err(_) => forall n: uint32 :: !SealedByNode(key, n, frame)
  {
    match OpenResponse(key, frame) {
      case Ok(o) => OpensExactlyResponses(key, frame, o.number, o.plaintext);
      case Err(_) =>
    }
    forall n: uint32 | SealedByNode(key, n, frame)
      ensures OpenResponse(key, frame).Ok? && OpenResponse(key, frame).value.number == n
    {
      var plaintext :| frame == Seal(key, n, ServerToClient, plaintext);
      OpensExactlyResponses(key, frame, n, plaintext);
    }
  }

  /** Each refusal is of its own kind of frame: no seal of the node's, one of another number, one without the tag. */
  lemma RefusesByKind(key: Key, number: uint32, tag: byte, frame: Envelope)
    ensures var r := Accept(key, number, tag, frame);
      && (r == Err(Undecryptable) <==> forall n: uint32 :: !SealedByNode(key, n, frame))
      && (r == Err(SequenceMismatch) <==> exists n: uint32 :: n != number && SealedByNode(key, n, frame))
      && (r == Err(WrongTag) <==> SealedByNode(key, number, frame) && frame.box.Box? && !([tag] <= frame.box.plaintext))
  {
    OpenedIsSealedByNode(key, frame);
    match OpenResponse(key, frame) {
      case Ok(o) => assert SealedByNode(key, o.number, frame);
      case Err(_) =>
    }
  }

  /** What receiving one frame comes to. */
  datatype Arrival = Arrived(frame: Envelope) | Malformed(len: nat) | Closed

  function ArrivalOf(codec: Codec, outcome: Result<Bytes, Transport.RecvError>): Arrival {
    match outcome
    case Ok(frame) => Arrived(FromWire(codec, frame))
    case Err(BadLength(len)) => Malformed(len)
    case Err(ConnectionClosed) => Closed
  }

  function ReplyAt(key: Key, number: uint32, tag: byte, arrival: Arrival): Reply {
    match arrival
    case Arrived(frame) => Accept(key, number, tag, frame)
    case Malformed(len) => Err(BadLength(len))
    case Closed => Err(ConnectionClosed)
  }

  /** How a round trip ends that found the counter at `nextSeq`. */
  function TripReply(key: Key, nextSeq: nat, tag: byte, sent: bool, arrival: Arrival): Reply {
    if nextSeq >= MAX_SEQ then Err(SequenceExhausted)
    else if !sent then Err(SendFailed)
    else ReplyAt(key, nextSeq, tag, arrival)
  }

  // ----- one caller at a time -----

  /** The messages that carry one request. */
  function RequestMessages(codec: Codec, key: Key, number: uint32, tag: byte, payload: Bytes): seq<Bytes> {
    SplitMessages(EncodeFrame(ToWire(codec, Seal(key, number, ClientToServer, [tag] + payload))))
  }

  /** The connection as one uninterrupted caller sees it. */
  class NodeConnection {
    const codec: Codec
    const key: Key
    const peerId: Bytes32
    const transport: Transport.Transport
    var nextSeq: nat

    constructor (codec: Codec, key: Key, peerId: Bytes32, transport: Transport.Transport)
      ensures this.codec == codec && this.key == key && this.peerId == peerId && this.transport == transport
      ensures nextSeq == 1
    {
      this.codec, this.key, this.peerId, this.transport := codec, key, peerId, transport;
      nextSeq := 1;
    }

    method NextSeq() returns (r: Result<uint32, ConnError>)
      requires nextSeq <= MAX_SEQ
      modifies this`nextSeq
      ensures nextSeq <= MAX_SEQ
      ensures r == if old(nextSeq) >= MAX_SEQ then Err(SequenceExhausted) else Ok(old(nextSeq))
      ensures nextSeq == if r.Ok? then old(nextSeq) + 1 else old(nextSeq)
    {
      if nextSeq >= MAX_SEQ {
        return Err(SequenceExhausted);
      }
      r := Ok(nextSeq);
      nextSeq := nextSeq + 1;
    }

    /**
     A number is used up even when sending or receiving then fails. With no number left nothing is sent,
     and without the whole request sent nothing is received.
     */
    method RoundTrip(tag: byte, payload: Bytes) returns (r: Reply)
      requires nextSeq <= MAX_SEQ
      modifies this, transport, transport.frameBuf
      ensures nextSeq == if old(nextSeq) < MAX_SEQ then old(nextSeq) + 1 else old(nextSeq)
      ensures var msgs := if old(nextSeq) < MAX_SEQ then RequestMessages(codec, key, old(nextSeq), tag,
        payload) else [];
        var k := Transport.Sendable(transport.accepts, old(transport.attempts), |msgs|);
        var received := old(nextSeq) < MAX_SEQ && k == |msgs|;
        var got := Transport.Recv(old(transport.frameBuf.buf), old(transport.incoming));
        && transport.sent == old(transport.sent) + msgs[..k]
        && r == TripReply(key, old(nextSeq), tag, k == |msgs|, ArrivalOf(codec, got.outcome))
        && transport.incoming == (if received then got.incoming else old(transport.incoming))
        && transport.frameBuf.buf == (if received then got.buf else old(transport.frameBuf.buf))
    {
      var taken := NextSeq();
      if taken.Err? {
        return Err(SequenceExhausted);
      }
      var number := taken.value;
      var envelope := SealRequest(key, number, [tag] + payload);
      var sent := transport.SendFrame(ToWire(codec, envelope));
      if !sent {
        return Err(SendFailed);
      }
      var outcome := transport.RecvFrame();
      match outcome {
        case Ok(frame) => r := Accept(key, number, tag, FromWire(codec, frame));
        case Err(BadLength(len)) => r := Err(BadLength(len));
        case Err(ConnectionClosed) => r := Err(ConnectionClosed);
      }
    }
  }

  // ----- any number of callers, the node and the network, in any order -----

  datatype SealRecord = SealRecord(number: uint32, direction: Direction, plaintext: Bytes)

  type CallerId = nat

  datatype Caller =
    | Waiting(tag: byte, payload: Bytes)
    | Awaiting(tag: byte, payload: Bytes, number: uint32)
    | Refused(tag: byte, payload: Bytes)
    | Finished(tag: byte, payload: Bytes, number: uint32, reply: Reply)
    | Abandoned(tag: byte, payload: Bytes, number: uint32)

  /** `seals` is every sealing operation under the session key so far, by either end, in order. */
  datatype State = State(
    key: Key,
    nextSeq: nat,
    lock: Option<CallerId>,
    callers: map<CallerId, Caller>,
    seals: seq<SealRecord>)

  datatype Event =
    | Call(caller: CallerId, tag: byte, payload: Bytes)
    | Start(caller: CallerId, sent: bool)
    | Receive(caller: CallerId, arrival: Arrival)
    | Abandon(caller: CallerId)
    | NodeSeals(number: uint32, plaintext: Bytes)

  predicate SealedNumber(s: State, number: uint32, direction: Direction) {
    exists i :: 0 <= i < |s.seals| && s.seals[i].number == number && s.seals[i].direction == direction
  }

  /** Anyone may replay, drop, reorder or relabel frames, but no one else can seal under the session key. */
  predicate Derivable(s: State, frame: Envelope) {
    frame.box.Box? && frame.box.key == s.key ==>
      exists i :: 0 <= i < |s.seals| &&
        frame.box == Seal(s.key, s.seals[i].number, s.seals[i].direction, s.seals[i].plaintext).box
  }

  predicate Enabled(s: State, e: Event) {
    match e
    case Call(c, _, _) => c !in s.callers
    case Start(c, _) => s.lock == None && c in s.callers && s.callers[c].Waiting?
    case Receive(c, arrival) =>
      && s.lock == Some(c) && c in s.callers && s.callers[c].Awaiting?
      && (arrival.Arrived? ==> Derivable(s, arrival.frame))
    case Abandon(c) => s.lock == Some(c) && c in s.callers && s.callers[c].Awaiting?
    case NodeSeals(n, _) => SealedNumber(s, n, ClientToServer) && !SealedNumber(s, n, ServerToClient)
  }

  /**
   Between taking the lock and waiting for the response nothing else runs, so `Start` is one step:
   lock, number, seal, send. An abandoned caller drops its lock without reading its response.
   */
  function Apply(s: State, e: Event): State
    requires Enabled(s, e) && s.nextSeq <= MAX_SEQ
  {
    match e
    case Call(c, tag, payload) => s.(callers := s.callers[c := Waiting(tag, payload)])
    case Start(c, sent) =>
      var w := s.callers[c];
      if s.nextSeq >= MAX_SEQ then s.(callers := s.callers[c := Refused(w.tag, w.payload)]) else
      var sealing := s.(
        nextSeq := s.nextSeq + 1,
        seals := s.seals + [SealRecord(s.nextSeq, ClientToServer, [w.tag] + w.payload)]);
      if sent
      then sealing.(lock := Some(c), callers := s.callers[c := Awaiting(w.tag, w.payload, s.nextSeq)])
      else sealing.(callers := s.callers[c := Finished(w.tag, w.payload, s.nextSeq, Err(SendFailed))])
    case Receive(c, arrival) =>
      var w := s.callers[c];
      var reply := ReplyAt(s.key, w.number, w.tag, arrival);
      s.(lock := None, callers := s.callers[c := Finished(w.tag, w.payload, w.number, reply)])
    case Abandon(c) =>
      var w := s.callers[c];
      s.(lock := None, callers := s.callers[c := Abandoned(w.tag, w.payload, w.number)])
    case NodeSeals(n, plaintext) => s.(seals := s.seals + [SealRecord(n, ServerToClient, plaintext)])
  }

  function Initial(key: Key): State {
    State(key, 1, None, map[], [])
  }

  /** Running `events` from `s`; none if some event was not possible when it came. */
  function Run(s: State, events: seq<Event>): Option<State> {
    if events == [] then Some(s) else
    match Run(s, events[..|events| - 1])
    case None => None
    case Some(t) =>
      var e := events[|events| - 1];
      if t.nextSeq <= MAX_SEQ && Enabled(t, e) then Some(Apply(t, e)) else None
  }

  // ----- what every run keeps -----

  /** The lock is held by the one caller between sending and receiving, if there is one. */
  predicate LockInv(s: State) {
    && 1 <= s.nextSeq <= MAX_SEQ
    && (forall c :: c in s.callers && s.callers[c].Awaiting? ==> s.lock == Some(c))
    && (s.lock.Some? ==> s.lock.value in s.callers && s.callers[s.lock.value].Awaiting?)
  }

  /** Requests are numbered upwards from 1, below `next`; the node answers a number after its request, and once. */
  predicate Ordered(seals: seq<SealRecord>, next: nat) {
    && (forall i :: 0 <= i < |seals| ==> 1 <= seals[i].number < next)
    && (forall i, j :: 0 <= i < j < |seals| && seals[i].direction == seals[j].direction == ClientToServer ==>
          seals[i].number < seals[j].number)
    && (forall i, j :: 0 <= i < j < |seals| && seals[i].direction == seals[j].direction ==>
          seals[i].number != seals[j].number)
    && (forall j :: 0 <= j < |seals| && seals[j].direction == ServerToClient ==> RequestedBefore(seals, j))
  }

  predicate RequestedBefore(seals: seq<SealRecord>, j: nat)
    requires j < |seals|
  {
    exists i :: 0 <= i < j && seals[i].direction == ClientToServer && seals[i].number == seals[j].number
  }

  predicate HasNumber(c: Caller) { c.Awaiting? || c.Finished? || c.Abandoned? }

  /** Every number a caller holds is used up, and was used to seal this caller's own request. */
  predicate RequestsInv(s: State) {
    forall c :: c in s.callers && HasNumber(s.callers[c]) ==>
      && s.callers[c].number < s.nextSeq
      && SealRecord(s.callers[c].number, ClientToServer, [s.callers[c].tag] + s.callers[c].payload) in s.seals
  }

  predicate NumbersInv(s: State) {
    forall c, d :: c in s.callers && d in s.callers && c != d && HasNumber(s.callers[c]) && HasNumber(s.callers[d]) ==>
      s.callers[c].number != s.callers[d].number
  }

  predicate RepliesInv(s: State) {
    forall c :: c in s.callers && s.callers[c].Finished? && s.callers[c].reply.Ok? ==>
      SealRecord(s.callers[c].number, ServerToClient, [s.callers[c].tag] + s.callers[c].reply.value) in s.seals
  }

  predicate Inv(s: State) {
    LockInv(s) && Ordered(s.seals, s.nextSeq) && RequestsInv(s) && NumbersInv(s) && RepliesInv(s)
  }

  lemma LockStep(s: State, e: Event)
    requires LockInv(s) && Enabled(s, e)
    ensures LockInv(Apply(s, e))
  {
  }

  lemma EarlierRequestsStay(seals: seq<SealRecord>, r: SealRecord)
    requires forall j :: 0 <= j < |seals| && seals[j].direction == ServerToClient ==> RequestedBefore(seals, j)
    ensures forall j :: 0 <= j < |seals| && seals[j].direction == ServerToClient ==> RequestedBefore(seals + [r], j)
  {
    forall j | 0 <= j < |seals| && seals[j].direction == ServerToClient ensures RequestedBefore(seals + [r], j) {
      assert RequestedBefore(seals, j);
      var i :| 0 <= i < j && seals[i].direction == ClientToServer && seals[i].number == seals[j].number;
      assert (seals + [r])[i] == seals[i];
    }
  }

  lemma OrderedWithRequest(seals: seq<SealRecord>, next: nat, plaintext: Bytes)
    requires Ordered(seals, next) && 1 <= next < MAX_SEQ
    ensures Ordered(seals + [SealRecord(next, ClientToServer, plaintext)], next + 1)
  {
    EarlierRequestsStay(seals, SealRecord(next, ClientToServer, plaintext));
  }

  lemma OrderedWithAnswer(seals: seq<SealRecord>, next: nat, r: SealRecord, i: nat)
    requires Ordered(seals, next) && r.direction == ServerToClient
    requires i < |seals| && seals[i].number == r.number && seals[i].direction == ClientToServer
    requires forall j :: 0 <= j < |seals| && seals[j].direction == ServerToClient ==> seals[j].number != r.number
    ensures Ordered(seals + [r], next)
  {
    EarlierRequestsStay(seals, r);
    var t := seals + [r];
    assert t[i] == seals[i];
    assert RequestedBefore(t, |seals|);
    assert forall j :: 0 <= j < |seals| ==> t[j] == seals[j];
  }

  lemma SealsStep(s: State, e: Event)
    requires LockInv(s) && Ordered(s.seals, s.nextSeq) && Enabled(s, e)
    ensures Ordered(Apply(s, e).seals, Apply(s, e).nextSeq)
  {
    match e
    case Start(c, _) =>
      if s.nextSeq < MAX_SEQ {
        OrderedWithRequest(s.seals, s.nextSeq, [s.callers[c].tag] + s.callers[c].payload);
      }
    case NodeSeals(n, plaintext) =>
      var i :| 0 <= i < |s.seals| && s.seals[i].number == n && s.seals[i].direction == ClientToServer;
      OrderedWithAnswer(s.seals, s.nextSeq, SealRecord(n, ServerToClient, plaintext), i);
    case _ =>
  }

  /** The one caller a step is about; for a step of the node, none. */
  lemma OthersUntouched(s: State, e: Event)
    requires LockInv(s) && Enabled(s, e)
    ensures e.NodeSeals? ==> Apply(s, e).callers == s.callers
    ensures !e.NodeSeals? ==> forall c :: c in Apply(s, e).callers && c != e.caller ==>
      c in s.callers && Apply(s, e).callers[c] == s.callers[c]
    ensures forall r :: r in s.seals ==> r in Apply(s, e).seals
    ensures s.nextSeq <= Apply(s, e).nextSeq
  {
  }

  lemma RequestsStep(s: State, e: Event)
    requires LockInv(s) && RequestsInv(s) && Enabled(s, e)
    ensures RequestsInv(Apply(s, e))
  {
    var t := Apply(s, e);
    OthersUntouched(s, e);
    if e.Start? && s.nextSeq < MAX_SEQ {
      assert t.seals[|s.seals|]
        == SealRecord(s.nextSeq, ClientToServer, [s.callers[e.caller].tag] + s.callers[e.caller].payload);
    }
  }

  lemma NumbersStep(s: State, e: Event)
    requires LockInv(s) && RequestsInv(s) && NumbersInv(s) && Enabled(s, e)
    ensures NumbersInv(Apply(s, e))
  {
    OthersUntouched(s, e);
  }

  /** A received frame that is accepted is one the node sealed, under the caller's number and tag. */
  lemma AcceptedWasSealed(s: State, frame: Envelope, number: uint32, tag: byte)
    requires Derivable(s, frame) && Accept(s.key, number, tag, frame).Ok?
    ensures SealRecord(number, ServerToClient, [tag] + Accept(s.key, number, tag, frame).value) in s.seals
  {
    var reply := Accept(s.key, number, tag, frame).value;
    AcceptsExactlyTheAnswer(s.key, number, tag, frame, reply);
    var i :| 0 <= i < |s.seals| &&
      frame.box == Seal(s.key, s.seals[i].number, s.seals[i].direction, s.seals[i].plaintext).box;
    NonceInjective(s.seals[i].number, s.seals[i].direction, number, ServerToClient);
    assert s.seals[i] == SealRecord(number, ServerToClient, [tag] + reply);
  }

  lemma RepliesStep(s: State, e: Event)
    requires LockInv(s) && RepliesInv(s) && Enabled(s, e)
    ensures RepliesInv(Apply(s, e))
  {
    OthersUntouched(s, e);
    match e
    case Receive(c, Arrived(frame)) =>
      if Accept(s.key, s.callers[c].number, s.callers[c].tag, frame).Ok? {
        AcceptedWasSealed(s, frame, s.callers[c].number, s.callers[c].tag);
      }
    case _ =>
  }

  lemma {:induction false} RunKeepsInv(key: Key, events: seq<Event>)
    ensures Run(Initial(key), events).Some? ==> Inv(Run(Initial(key), events).value)
  {
    if events != [] {
      var before, e := events[..|events| - 1], events[|events| - 1];
      RunKeepsInv(key, before);
      if Run(Initial(key), events).Some? {
        var s := Run(Initial(key), before).value;
        LockStep(s, e);
        SealsStep(s, e);
        RequestsStep(s, e);
        NumbersStep(s, e);
        RepliesStep(s, e);
      }
    }
  }

  /** At no point of any run are two callers between sending and receiving. */
  lemma OneReceiverAtATime(key: Key, events: seq<Event>, c: CallerId, d: CallerId)
    requires Run(Initial(key), events).Some?
    requires var s := Run(Initial(key), events).value;
      c in s.callers && d in s.callers && s.callers[c].Awaiting? && s.callers[d].Awaiting?
    ensures c == d
  {
    RunKeepsInv(key, events);
  }

  /** Section 4 of RFC 8439: under one key no nonce is used twice, whatever failed in between. */
  lemma NoncesNeverRepeat(key: Key, events: seq<Event>, i: nat, j: nat)
    requires Run(Initial(key), events).Some?
    requires i < j < |Run(Initial(key), events).value.seals|
    ensures var seals := Run(Initial(key), events).value.seals;
      Nonce(seals[i].number, seals[i].direction) != Nonce(seals[j].number, seals[j].direction)
  {
    RunKeepsInv(key, events);
    var seals := Run(Initial(key), events).value.seals;
    NonceInjective(seals[i].number, seals[i].direction, seals[j].number, seals[j].direction);
  }

  /** Requests carry strictly increasing numbers in `[1, MAX_SEQ)`. */
  lemma RequestNumbersIncrease(key: Key, events: seq<Event>, i: nat, j: nat)
    requires Run(Initial(key), events).Some?
    requires var seals := Run(Initial(key), events).value.seals;
      i < j < |seals| && seals[i].direction == seals[j].direction == ClientToServer
    ensures var seals := Run(Initial(key), events).value.seals;
      1 <= seals[i].number < seals[j].number < MAX_SEQ
  {
    RunKeepsInv(key, events);
  }

  lemma AnsweredOnce(seals: seq<SealRecord>, next: nat, r: SealRecord, q: SealRecord)
    requires Ordered(seals, next) && r in seals && q in seals
    requires r.number == q.number && r.direction == q.direction
    ensures r == q
  {
    var i :| 0 <= i < |seals| && seals[i] == r;
    var j :| 0 <= j < |seals| && seals[j] == q;
  }

  /** An `Ok` is the node's own answer: what it sealed, once, for this caller's number and tag. */
  lemma OkIsTheSealedAnswer(key: Key, events: seq<Event>, c: CallerId)
    requires Run(Initial(key), events).Some?
    requires var s := Run(Initial(key), events).value;
      c in s.callers && s.callers[c].Finished? && s.callers[c].reply.Ok?
    ensures var s := Run(Initial(key), events).value;
      var w := s.callers[c];
      && SealRecord(w.number, ServerToClient, [w.tag] + w.reply.value) in s.seals
      && SealRecord(w.number, ClientToServer, [w.tag] + w.payload) in s.seals
      && forall r :: r in s.seals && r.number == w.number && r.direction == ServerToClient ==>
           r.plaintext == [w.tag] + w.reply.value
  {
    RunKeepsInv(key, events);
    var s := Run(Initial(key), events).value;
    var w := s.callers[c];
    forall r | r in s.seals && r.number == w.number && r.direction == ServerToClient
      ensures r.plaintext == [w.tag] + w.reply.value
    {
      AnsweredOnce(s.seals, s.nextSeq, r, SealRecord(w.number, ServerToClient, [w.tag] + w.reply.value));
    }
  }

  /** No response serves two callers: their answers are different sealing operations of the node. */
  lemma NoResponseServesTwo(key: Key, events: seq<Event>, c: CallerId, d: CallerId) returns (i: nat, j: nat)
    requires Run(Initial(key), events).Some? && c != d
    requires var s := Run(Initial(key), events).value;
      && c in s.callers && s.callers[c].Finished? && s.callers[c].reply.Ok?
      && d in s.callers && s.callers[d].Finished? && s.callers[d].reply.Ok?
    ensures var s := Run(Initial(key), events).value;
      var w, x := s.callers[c], s.callers[d];
      && i < |s.seals| && s.seals[i] == SealRecord(w.number, ServerToClient, [w.tag] + w.reply.value)
      && j < |s.seals| && s.seals[j] == SealRecord(x.number, ServerToClient, [x.tag] + x.reply.value)
      && i != j && w.number != x.number
  {
    RunKeepsInv(key, events);
    var s := Run(Initial(key), events).value;
    var w, x := s.callers[c], s.callers[d];
    i :| 0 <= i < |s.seals| && s.seals[i] == SealRecord(w.number, ServerToClient, [w.tag] + w.reply.value);
    j :| 0 <= j < |s.seals| && s.seals[j] == SealRecord(x.number, ServerToClient, [x.tag] + x.reply.value);
  }

  // ----- an uninterrupted round trip is a run -----

  predicate AllNode(events: seq<Event>) {
    forall i :: 0 <= i < |events| ==> events[i].NodeSeals?
  }

  /** Sealing by the node changes nothing but the seals. */
  lemma {:induction false} NodeOnlySeals(s: State, node: seq<Event>)
    requires AllNode(node) && Run(s, node).Some?
    ensures Run(s, node).value == s.(seals := Run(s, node).value.seals)
  {
    if node != [] {
      NodeOnlySeals(s, node[..|node| - 1]);
    }
  }

  lemma {:induction false} RunConcat(s: State, a: seq<Event>, b: seq<Event>)
    requires Run(s, a).Some?
    ensures Run(s, a + b) == Run(Run(s, a).value, b)
  {
    if b == [] {
      assert a + b == a;
    } else {
      assert (a + b)[..|a + b| - 1] == a + b[..|b| - 1];
      RunConcat(s, a, b[..|b| - 1]);
    }
  }

  lemma RunOne(s: State, e: Event)
    requires s.nextSeq <= MAX_SEQ && Enabled(s, e)
    ensures Run(s, [e]) == Some(Apply(s, e))
  {
    assert [e][..0] == [];
  }

  /** The steps a round trip takes when no other caller comes between; the node may seal while it waits. */
  function TripEvents(nextSeq: nat, c: CallerId, tag: byte, payload: Bytes, sent: bool, node: seq<Event>,
                      arrival: Arrival): seq<Event> {
    [Call(c, tag, payload)] + [Start(c, sent)] + if nextSeq < MAX_SEQ && sent then node + [Receive(c, arrival)] else []
  }

  function AfterStart(s: State, c: CallerId, tag: byte, payload: Bytes): State
    requires s.nextSeq < MAX_SEQ
  {
    s.(nextSeq := s.nextSeq + 1, lock := Some(c), callers := s.callers[c := Awaiting(tag, payload, s.nextSeq)],
       seals := s.seals + [SealRecord(s.nextSeq, ClientToServer, [tag] + payload)])
  }

  lemma StartsAs(s: State, c: CallerId, tag: byte, payload: Bytes, sent: bool)
    requires s.nextSeq <= MAX_SEQ && s.lock == None && c !in s.callers
    ensures var t := Run(s, [Call(c, tag, payload)] + [Start(c, sent)]);
      && t.Some?
      && (s.nextSeq < MAX_SEQ && sent ==> t.value == AfterStart(s, c, tag, payload))
      && (s.nextSeq < MAX_SEQ && !sent ==> t.value == s.(
            nextSeq := s.nextSeq + 1, callers := s.callers[c := Finished(tag, payload, s.nextSeq, Err(SendFailed))],
            seals := s.seals + [SealRecord(s.nextSeq, ClientToServer, [tag] + payload)]))
      && (s.nextSeq == MAX_SEQ ==> t.value == s.(callers := s.callers[c := Refused(tag, payload)]))
  {
    var called := Apply(s, Call(c, tag, payload));
    RunOne(s, Call(c, tag, payload));
    RunOne(called, Start(c, sent));
    RunConcat(s, [Call(c, tag, payload)], [Start(c, sent)]);
    var t := Apply(called, Start(c, sent));
    assert t.callers == s.callers[c := t.callers[c]];
  }

  /** What `NodeConnection.RoundTrip` returns and uses up is what the caller's own steps give, for every arrival. */
  lemma RoundTripIsARun(s: State, c: CallerId, tag: byte, payload: Bytes, sent: bool, node: seq<Event>,
                        arrival: Arrival)
    requires s.nextSeq <= MAX_SEQ && s.lock == None && c !in s.callers && AllNode(node)
    requires s.nextSeq < MAX_SEQ ==>
      && Run(AfterStart(s, c, tag, payload), node).Some?
      && (arrival.Arrived? ==> Derivable(Run(AfterStart(s, c, tag, payload), node).value, arrival.frame))
    ensures var t := Run(s, TripEvents(s.nextSeq, c, tag, payload, sent, node, arrival));
      var reply := TripReply(s.key, s.nextSeq, tag, sent, arrival);
      && t.Some? && t.value.lock == None
      && t.value.nextSeq == (if s.nextSeq < MAX_SEQ then s.nextSeq + 1 else s.nextSeq)
      && t.value.callers == s.callers[c := if s.nextSeq < MAX_SEQ then Finished(tag, payload, s.nextSeq,
        reply) else Refused(tag, payload)]
  {
    var start := [Call(c, tag, payload)] + [Start(c, sent)];
    StartsAs(s, c, tag, payload, sent);
    assert start + [] == start;
    if s.nextSeq < MAX_SEQ && sent {
      var u := AfterStart(s, c, tag, payload);
      NodeOnlySeals(u, node);
      var v := Run(u, node).value;
      RunOne(v, Receive(c, arrival));
      RunConcat(u, node, [Receive(c, arrival)]);
      RunConcat(s, start, node + [Receive(c, arrival)]);
      var finished := Finished(tag, payload, s.nextSeq, ReplyAt(s.key, s.nextSeq, tag, arrival));
      assert v.callers[c := finished] == s.callers[c := finished];
    }
  }
}
