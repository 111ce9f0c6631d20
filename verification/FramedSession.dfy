/** The reliable session carried as bytes: sealed envelopes in frames, frames cut into messages anyhow. */
module FramedSession {
  import opened Bytes
  import opened Framing
  import opened Tunnel
  import opened Session
  import opened ReliableSession
  import Transport

  /** Each end's frame buffer and the messages still on their way to it. */
  datatype ByteNet = ByteNet(session: State, nodeBuf: Bytes, toNode: seq<Bytes>, clientBuf: Bytes, toClient: seq<Bytes>)

  /** As in `Step`; the node cuts its answer into messages as it likes, and the channel may cut again. */
  datatype ByteStep =
    | Calls(caller: CallerId, tag: byte, payload: Bytes)
    | Sends(caller: CallerId)
    | Answers(cut: seq<Bytes>)
    | Delivers(caller: CallerId)
    | RecutToNode(cut: seq<Bytes>)
    | RecutToClient(cut: seq<Bytes>)

  function Frames(codec: Codec, envelopes: seq<Envelope>): Bytes {
    if envelopes == [] then [] else EncodeFrame(ToWire(codec, envelopes[0])) + Frames(codec, envelopes[1..])
  }

  /** The messages of one round trip bring the node its number, its tag and its payload, and nothing else. */
  lemma RequestReachesNode(codec: Codec, key: Key, number: uint32, tag: byte, payload: Bytes)
    requires CodecContract(codec)
    requires 1 <= |ToWire(codec, Seal(key, number, ClientToServer, [tag] + payload))| <= 5 * 1024 * 1024 + 64
    ensures var got := Transport.Recv([], RequestMessages(codec, key, number, tag, payload));
      && got.outcome.Ok? && got.buf == [] && Concat(got.incoming) == []
      && OpenRequest(key, FromWire(codec, got.outcome.value)) == Some(Opened(number, [tag] + payload))
  {
    var frame := ToWire(codec, Seal(key, number, ClientToServer, [tag] + payload));
    var messages := RequestMessages(codec, key, number, tag, payload);
    ConcatSplit(EncodeFrame(frame));
    assert [] + Concat(messages) == EncodeFrame(frame) + [];
    Transport.RecvTakesNext([], messages, frame, []);
    WireRoundTrip(codec, key, number, ClientToServer, [tag] + payload);
    NodeOpensRequests(key, number, [tag] + payload);
  }

  /** What the node reads next, and the request in it. */
  function NextRequest(codec: Codec, b: ByteNet): Option<Opened> {
    match Transport.Recv(b.nodeBuf, b.toNode).outcome
    case Ok(frame) => OpenRequest(b.session.key, FromWire(codec, frame))
    case Err(_) => None
  }

  function ResponseWire(codec: Codec, b: ByteNet, request: Opened, answer: Bytes -> Bytes): Bytes {
    ToWire(codec, Seal(b.session.key, request.number, ServerToClient, answer(request.plaintext)))
  }

  function RequestWire(codec: Codec, s: State, c: CallerId): Bytes
    requires c in s.callers && s.callers[c].Waiting? && s.nextSeq < MAX_SEQ
  {
    ToWire(codec, Seal(s.key, s.nextSeq, ClientToServer, [s.callers[c].tag] + s.callers[c].payload))
  }

  /** The only demand beyond those of `Possible` is that what is framed fits a frame. */
  predicate BytePossible(codec: Codec, b: ByteNet, step: ByteStep, answer: Bytes -> Bytes) {
    match step
    case Calls(c, _, _) => c !in b.session.callers
    case Sends(c) =>
      && b.session.lock == None && c in b.session.callers && b.session.callers[c].Waiting?
      && (b.session.nextSeq < MAX_SEQ ==> InRange(RequestWire(codec, b.session, c)))
    case Answers(cut) => (
      match NextRequest(codec, b)
      case None => false
      case Some(request) =>
        InRange(ResponseWire(codec, b, request, answer)) &&
          Concat(cut) == EncodeFrame(ResponseWire(codec, b, request, answer)))
    case Delivers(c) => b.session.lock == Some(c) && Transport.Recv(b.clientBuf, b.toClient).outcome.Ok?
    case RecutToNode(cut) => Concat(cut) == Concat(b.toNode)
    case RecutToClient(cut) => Concat(cut) == Concat(b.toClient)
  }

  /** The event of the session, and no event for cutting. */
  function ByteEvent(codec: Codec, b: ByteNet, step: ByteStep, answer: Bytes -> Bytes): Option<Event>
    requires BytePossible(codec, b, step, answer)
  {
    match step
    case Calls(c, tag, payload) => Some(Call(c, tag, payload))
    case Sends(c) => Some(Start(c, true))
    case Answers(_) =>
      var request := NextRequest(codec, b).value;
      Some(NodeSeals(request.number, answer(request.plaintext)))
    case Delivers(c) => Some(Receive(c, ArrivalOf(codec, Transport.Recv(b.clientBuf, b.toClient).outcome)))
    case _ => None
  }

  predicate ByteEnabled(codec: Codec, b: ByteNet, step: ByteStep, answer: Bytes -> Bytes)
    requires BytePossible(codec, b, step, answer)
  {
    match ByteEvent(codec, b, step, answer)
    case None => true
    case Some(e) => b.session.nextSeq <= MAX_SEQ && Enabled(b.session, e)
  }

  function ByteTake(codec: Codec, b: ByteNet, step: ByteStep, answer: Bytes -> Bytes): ByteNet
    requires BytePossible(codec, b, step, answer) && ByteEnabled(codec, b, step, answer)
  {
    var s := b.session;
    var t := match ByteEvent(codec, b, step, answer) case None => s case Some(e) => Apply(s, e);
    match step
    case Calls(_, _, _) => b.(session := t)
    case Sends(c) =>
      if s.nextSeq >= MAX_SEQ then b.(session := t)
      else b.(session := t, toNode := b.toNode + SplitMessages(EncodeFrame(RequestWire(codec, s, c))))
    case Answers(cut) =>
      var got := Transport.Recv(b.nodeBuf, b.toNode);
      b.(session := t, nodeBuf := got.buf, toNode := got.incoming, toClient := b.toClient + cut)
    case Delivers(_) =>
      var got := Transport.Recv(b.clientBuf, b.toClient);
      b.(session := t, clientBuf := got.buf, toClient := got.incoming)
    case RecutToNode(cut) => b.(toNode := cut)
    case RecutToClient(cut) => b.(toClient := cut)
  }

  function RunBytes(codec: Codec, key: Key, steps: seq<ByteStep>, answer: Bytes -> Bytes): Option<ByteNet> {
    if steps == [] then Some(ByteNet(Initial(key), [], [], [], [])) else
    match RunBytes(codec, key, steps[..|steps| - 1], answer)
    case None => None
    case Some(b) =>
      var step := steps[|steps| - 1];
      if BytePossible(codec, b, step, answer) && ByteEnabled(codec, b, step, answer)
      then Some(ByteTake(codec, b, step, answer)) else None
  }

  // ----- it refines the session of whole envelopes -----

  /** The step on whole envelopes; cutting is none. */
  function Whole(step: ByteStep): seq<Step> {
    match step
    case Calls(c, tag, payload) => [NewCall(c, tag, payload)]
    case Sends(c) => [Send(c)]
    case Answers(_) => [NodeAnswers]
    case Delivers(c) => [Deliver(c)]
    case _ => []
  }

  function WholeSteps(steps: seq<ByteStep>): seq<Step> {
    if steps == [] then [] else WholeSteps(steps[..|steps| - 1]) + Whole(steps[|steps| - 1])
  }

  /** The envelope survives being framed, sent, received and read. */
  predicate Carried(codec: Codec, e: Envelope) {
    InRange(ToWire(codec, e)) && FromWire(codec, ToWire(codec, e)) == e
  }

  predicate Carries(codec: Codec, buf: Bytes, messages: seq<Bytes>, envelopes: seq<Envelope>) {
    && buf + Concat(messages) == Frames(codec, envelopes)
    && forall i :: 0 <= i < |envelopes| ==> Carried(codec, envelopes[i])
  }

  /** Both describe one state: the bytes on their way are the frames of the envelopes on their way. */
  predicate SameNet(codec: Codec, b: ByteNet, n: Net) {
    && b.session == n.session
    && Carries(codec, b.nodeBuf, b.toNode, n.toNode)
    && Carries(codec, b.clientBuf, b.toClient, n.toClient)
  }

  lemma {:induction false} FramesAppend(codec: Codec, envelopes: seq<Envelope>, e: Envelope)
    ensures Frames(codec, envelopes + [e]) == Frames(codec, envelopes) + EncodeFrame(ToWire(codec, e))
  {
    if envelopes == [] {
      assert envelopes + [e] == [e];
      assert Frames(codec, [e]) == EncodeFrame(ToWire(codec, e)) + Frames(codec, []);
    } else {
      assert (envelopes + [e])[1..] == envelopes[1..] + [e];
      FramesAppend(codec, envelopes[1..], e);
    }
  }

  /** Whatever messages bring a frame, the channel then carries one more envelope. */
  lemma CarriesMore(codec: Codec, buf: Bytes, messages: seq<Bytes>, envelopes: seq<Envelope>, cut: seq<Bytes>,
                    e: Envelope)
    requires Carries(codec, buf, messages, envelopes) && Carried(codec, e)
    requires Concat(cut) == EncodeFrame(ToWire(codec, e))
    ensures Carries(codec, buf, messages + cut, envelopes + [e])
  {
    ConcatAppend(messages, cut);
    FramesAppend(codec, envelopes, e);
    Regroup(buf, Concat(messages), Concat(cut));
  }

  /** A receive yields the first envelope carried, and nothing when none is. */
  lemma ReceivesFirst(codec: Codec, buf: Bytes, messages: seq<Bytes>, envelopes: seq<Envelope>)
    requires Carries(codec, buf, messages, envelopes)
    ensures var got := Transport.Recv(buf, messages);
      && (got.outcome.Ok? <==> envelopes != [])
      && (envelopes != [] ==>
            ArrivalOf(codec, got.outcome) == Arrived(envelopes[0]) &&
              Carries(codec, got.buf, got.incoming, envelopes[1..]))
  {
    if envelopes == [] {
      Transport.RecvAtEnd(buf, messages);
    } else {
      assert Carried(codec, envelopes[0]);
      Transport.RecvTakesNext(buf, messages, ToWire(codec, envelopes[0]), Frames(codec, envelopes[1..]));
    }
  }

  lemma SealIsCarried(codec: Codec, key: Key, number: uint32, direction: Direction, plaintext: Bytes)
    requires CodecContract(codec) && InRange(ToWire(codec, Seal(key, number, direction, plaintext)))
    ensures Carried(codec, Seal(key, number, direction, plaintext))
  {
    WireRoundTrip(codec, key, number, direction, plaintext);
  }

  lemma SendsRefines(codec: Codec, b: ByteNet, n: Net, c: CallerId, answer: Bytes -> Bytes)
    requires CodecContract(codec) && SameNet(codec, b, n) && NetInv(n, answer)
    requires BytePossible(codec, b, Sends(c), answer) && ByteEnabled(codec, b, Sends(c), answer)
    ensures Possible(n, Send(c)) && Enabled(n.session, AsEvent(n, Send(c), answer))
    ensures SameNet(codec, ByteTake(codec, b, Sends(c), answer), ReliableSession.Take(n, Send(c), answer))
  {
    var s := b.session;
    if s.nextSeq < MAX_SEQ {
      var e := Seal(s.key, s.nextSeq, ClientToServer, [s.callers[c].tag] + s.callers[c].payload);
      SealIsCarried(codec, s.key, s.nextSeq, ClientToServer, [s.callers[c].tag] + s.callers[c].payload);
      ConcatSplit(EncodeFrame(ToWire(codec, e)));
      CarriesMore(codec, b.nodeBuf, b.toNode, n.toNode, SplitMessages(EncodeFrame(ToWire(codec, e))), e);
    }
  }

  lemma AnswersRefines(codec: Codec, b: ByteNet, n: Net, cut: seq<Bytes>, answer: Bytes -> Bytes)
    requires CodecContract(codec) && SameNet(codec, b, n) && NetInv(n, answer)
    requires BytePossible(codec, b, Answers(cut), answer) && ByteEnabled(codec, b, Answers(cut), answer)
    ensures Possible(n, NodeAnswers) && Enabled(n.session, AsEvent(n, NodeAnswers, answer))
    ensures SameNet(codec, ByteTake(codec, b, Answers(cut), answer), ReliableSession.Take(n, NodeAnswers, answer))
  {
    ReceivesFirst(codec, b.nodeBuf, b.toNode, n.toNode);
    var request := NextRequest(codec, b).value;
    assert OpenRequest(n.session.key, n.toNode[0]) == Some(request);
    var e := Seal(b.session.key, request.number, ServerToClient, answer(request.plaintext));
    SealIsCarried(codec, b.session.key, request.number, ServerToClient, answer(request.plaintext));
    CarriesMore(codec, b.clientBuf, b.toClient, n.toClient, cut, e);
  }

  lemma DeliversRefines(codec: Codec, b: ByteNet, n: Net, c: CallerId, answer: Bytes -> Bytes)
    requires SameNet(codec, b, n) && NetInv(n, answer)
    requires BytePossible(codec, b, Delivers(c), answer) && ByteEnabled(codec, b, Delivers(c), answer)
    ensures Possible(n, Deliver(c)) && Enabled(n.session, AsEvent(n, Deliver(c), answer))
    ensures SameNet(codec, ByteTake(codec, b, Delivers(c), answer), ReliableSession.Take(n, Deliver(c), answer))
  {
    ReceivesFirst(codec, b.clientBuf, b.toClient, n.toClient);
  }

  lemma RunNetNext(key: Key, steps: seq<Step>, step: Step, answer: Bytes -> Bytes)
    requires RunNet(key, steps, answer).Some?
    requires var n := RunNet(key, steps, answer).value;
      n.session.nextSeq <= MAX_SEQ && Possible(n, step) && Enabled(n.session, AsEvent(n, step, answer))
    ensures RunNet(key, steps + [step], answer)
      == Some(ReliableSession.Take(RunNet(key, steps, answer).value, step, answer))
  {
    assert (steps + [step])[..|steps|] == steps;
  }

  /** One step over bytes is its step over whole envelopes, or none. */
  lemma StepRefines(codec: Codec, key: Key, b: ByteNet, before: seq<Step>, step: ByteStep, answer: Bytes -> Bytes)
    requires CodecContract(codec) && RunNet(key, before, answer).Some?
    requires SameNet(codec, b, RunNet(key, before, answer).value)
    requires BytePossible(codec, b, step, answer) && ByteEnabled(codec, b, step, answer)
    ensures RunNet(key, before + Whole(step), answer).Some?
    ensures SameNet(codec, ByteTake(codec, b, step, answer), RunNet(key, before + Whole(step), answer).value)
  {
    var n := RunNet(key, before, answer).value;
    RunNetKeepsInv(key, before, answer);
    match step
    case Calls(c, tag, payload) => RunNetNext(key, before, NewCall(c, tag, payload), answer);
    case Sends(c) =>
      SendsRefines(codec, b, n, c, answer);
      RunNetNext(key, before, Send(c), answer);
    case Answers(cut) =>
      AnswersRefines(codec, b, n, cut, answer);
      RunNetNext(key, before, NodeAnswers, answer);
    case Delivers(c) =>
      DeliversRefines(codec, b, n, c, answer);
      RunNetNext(key, before, Deliver(c), answer);
    case _ => assert before + [] == before;
  }

  /** Every run over bytes is, cutting left out, a run over whole envelopes that is in the same state. */
  lemma {:induction false} BytesRefineEnvelopes(codec: Codec, key: Key, steps: seq<ByteStep>, answer: Bytes -> Bytes)
    requires CodecContract(codec) && RunBytes(codec, key, steps, answer).Some?
    ensures RunNet(key, WholeSteps(steps), answer).Some?
    ensures SameNet(codec, RunBytes(codec, key, steps, answer).value, RunNet(key, WholeSteps(steps), answer).value)
  {
    if steps != [] {
      var before, step := steps[..|steps| - 1], steps[|steps| - 1];
      BytesRefineEnvelopes(codec, key, before, answer);
      StepRefines(codec, key, RunBytes(codec, key, before, answer).value, WholeSteps(before), step, answer);
    }
  }

  /** Over frames, however cut, every caller that is done has the answer to its own payload. */
  lemma EachGetsItsOwnAnswerOverFrames(codec: Codec, key: Key, steps: seq<ByteStep>, answer: Bytes -> Bytes,
                                       c: CallerId)
    requires CodecContract(codec) && RunBytes(codec, key, steps, answer).Some?
    requires c in RunBytes(codec, key, steps, answer).value.session.callers
    ensures var s := RunBytes(codec, key, steps, answer).value.session;
      match s.callers[c]
      case Finished(tag, payload, _, reply) => reply == ReplyTo(tag, payload, answer)
      case Refused(_, _) => s.nextSeq == MAX_SEQ
      case _ => true
  {
    BytesRefineEnvelopes(codec, key, steps, answer);
    EachGetsItsOwnAnswer(key, WholeSteps(steps), answer, c);
  }

  /** What the lock holder receives is never a bad frame, and never another caller's response. */
  lemma HolderReceivesItsResponse(codec: Codec, key: Key, steps: seq<ByteStep>, answer: Bytes -> Bytes, c: CallerId)
    requires CodecContract(codec) && RunBytes(codec, key, steps, answer).Some?
    requires RunBytes(codec, key, steps, answer).value.session.lock == Some(c)
    ensures var b := RunBytes(codec, key, steps, answer).value;
      var s := b.session;
      && c in s.callers && s.callers[c].Awaiting?
      && ArrivalOf(codec, Transport.Recv(b.clientBuf, b.toClient).outcome) in
         [Closed, Arrived(Seal(key, s.callers[c].number, ServerToClient,
           answer([s.callers[c].tag] + s.callers[c].payload)))]
  {
    BytesRefineEnvelopes(codec, key, steps, answer);
    RunNetKeepsInv(key, WholeSteps(steps), answer);
    RunKeepsKey(key, WholeSteps(steps), answer);
    var b, n := RunBytes(codec, key, steps, answer).value, RunNet(key, WholeSteps(steps), answer).value;
    ReceivesFirst(codec, b.clientBuf, b.toClient, n.toClient);
    if n.toClient == [] {
      Transport.RecvAtEnd(b.clientBuf, b.toClient);
    }
  }

  /** The answer to the lock holder's request, as the node puts it on the wire. */
  function AnswerWire(codec: Codec, s: State, h: CallerId, answer: Bytes -> Bytes): Bytes
    requires h in s.callers && s.callers[h].Awaiting?
  {
    ToWire(codec, Seal(s.key, s.callers[h].number, ServerToClient, answer([s.callers[h].tag] + s.callers[h].payload)))
  }

  lemma NodeCanAnswer(codec: Codec, b: ByteNet, n: Net, h: CallerId, answer: Bytes -> Bytes)
    requires SameNet(codec, b, n) && NetInv(n, answer) && b.session.lock == Some(h) && n.toNode != []
    requires h in b.session.callers && b.session.callers[h].Awaiting? &&
      InRange(AnswerWire(codec, b.session, h, answer))
    ensures var step := Answers([EncodeFrame(AnswerWire(codec, b.session, h, answer))]);
      BytePossible(codec, b, step, answer) && ByteEnabled(codec, b, step, answer)
  {
    var w := b.session.callers[h];
    var frame := EncodeFrame(AnswerWire(codec, b.session, h, answer));
    ReceivesFirst(codec, b.nodeBuf, b.toNode, n.toNode);
    NodeOpensRequests(b.session.key, w.number, [w.tag] + w.payload);
    assert NextRequest(codec, b) == Some(Opened(w.number, [w.tag] + w.payload));
    assert Concat([frame]) == frame + Concat([]);
    PossibleIsEnabled(n, NodeAnswers, answer);
  }

  lemma HolderCanReceive(codec: Codec, b: ByteNet, n: Net, h: CallerId, answer: Bytes -> Bytes)
    requires SameNet(codec, b, n) && NetInv(n, answer) && b.session.lock == Some(h) && n.toClient != []
    ensures BytePossible(codec, b, Delivers(h), answer) && ByteEnabled(codec, b, Delivers(h), answer)
  {
    ReceivesFirst(codec, b.clientBuf, b.toClient, n.toClient);
    PossibleIsEnabled(n, Deliver(h), answer);
  }

  lemma RunBytesNext(codec: Codec, key: Key, steps: seq<ByteStep>, step: ByteStep, answer: Bytes -> Bytes)
    requires RunBytes(codec, key, steps, answer).Some?
    requires var b := RunBytes(codec, key, steps, answer).value;
      BytePossible(codec, b, step, answer) && ByteEnabled(codec, b, step, answer)
    ensures RunBytes(codec, key, steps + [step], answer).Some?
  {
    assert (steps + [step])[..|steps|] == steps;
  }

  /** As long as requests and answers fit frames, a caller that is not done leaves some step possible. */
  lemma NeverStuckOverFrames(codec: Codec, key: Key, steps: seq<ByteStep>, answer: Bytes -> Bytes, c: CallerId)
    returns (next: ByteStep)
    requires CodecContract(codec) && RunBytes(codec, key, steps, answer).Some?
    requires var s := RunBytes(codec, key, steps, answer).value.session;
      && c in s.callers && (s.callers[c].Waiting? || s.callers[c].Awaiting?)
      && (forall d :: d in s.callers && s.callers[d].Waiting? && s.nextSeq < MAX_SEQ ==>
        InRange(RequestWire(codec, s, d)))
      && (forall d :: d in s.callers && s.callers[d].Awaiting? ==> InRange(AnswerWire(codec, s, d, answer)))
    ensures !next.Calls? && Whole(next) != [] && RunBytes(codec, key, steps + [next], answer).Some?
  {
    BytesRefineEnvelopes(codec, key, steps, answer);
    RunNetKeepsInv(key, WholeSteps(steps), answer);
    var b, n := RunBytes(codec, key, steps, answer).value, RunNet(key, WholeSteps(steps), answer).value;
    match b.session.lock {
      case None =>
        next := Sends(c);
      case Some(h) =>
        if n.toNode != [] {
          NodeCanAnswer(codec, b, n, h, answer);
          next := Answers([EncodeFrame(AnswerWire(codec, b.session, h, answer))]);
        } else {
          HolderCanReceive(codec, b, n, h, answer);
          next := Delivers(h);
        }
    }
    RunBytesNext(codec, key, steps, next, answer);
  }

  lemma {:induction false} RunKeepsKey(key: Key, steps: seq<Step>, answer: Bytes -> Bytes)
    ensures RunNet(key, steps, answer).Some? ==> RunNet(key, steps, answer).value.session.key == key
  {
    if steps != [] {
      RunKeepsKey(key, steps[..|steps| - 1], answer);
    }
  }

  // ----- progress over frames -----

  /** A run over bytes with `k` calls has at most `3k` other steps, cutting not counted. */
  lemma StepsAreBoundedOverFrames(codec: Codec, key: Key, steps: seq<ByteStep>, answer: Bytes -> Bytes)
    requires CodecContract(codec) && RunBytes(codec, key, steps, answer).Some?
    ensures |WholeSteps(steps)| - CallCount(WholeSteps(steps)) <= 3 * CallCount(WholeSteps(steps))
  {
    BytesRefineEnvelopes(codec, key, steps, answer);
    StepsAreBounded(key, WholeSteps(steps), answer);
  }

  /** Whatever number they get, all requests made and all answers to them fit a frame. */
  ghost predicate AllFit(codec: Codec, s: State, answer: Bytes -> Bytes) {
    forall c, number: uint32 :: c in s.callers ==>
      Fits(codec, s.key, number, [s.callers[c].tag] + s.callers[c].payload, answer)
  }

  predicate Fits(codec: Codec, key: Key, number: uint32, request: Bytes, answer: Bytes -> Bytes) {
    && InRange(ToWire(codec, Seal(key, number, ClientToServer, request)))
    && InRange(ToWire(codec, Seal(key, number, ServerToClient, answer(request))))
  }

  lemma FitStays(codec: Codec, s: State, e: Event, answer: Bytes -> Bytes)
    requires s.nextSeq <= MAX_SEQ && Enabled(s, e) && !e.Call? && AllFit(codec, s, answer)
    ensures AllFit(codec, Apply(s, e), answer)
  {
    var t := Apply(s, e);
    forall c, number: uint32 | c in t.callers
      ensures Fits(codec, t.key, number, [t.callers[c].tag] + t.callers[c].payload, answer)
    {
      assert c in s.callers && t.callers[c].tag == s.callers[c].tag && t.callers[c].payload == s.callers[c].payload;
      assert Fits(codec, s.key, number, [s.callers[c].tag] + s.callers[c].payload, answer);
    }
  }

  lemma SomeStepWhenAllFit(codec: Codec, key: Key, steps: seq<ByteStep>, answer: Bytes -> Bytes, c: CallerId)
    returns (next: ByteStep)
    requires CodecContract(codec) && RunBytes(codec, key, steps, answer).Some?
    requires var s := RunBytes(codec, key, steps, answer).value.session;
      AllFit(codec, s, answer) && c in s.callers && (s.callers[c].Waiting? || s.callers[c].Awaiting?)
    ensures !next.Calls? && Whole(next) != [] && RunBytes(codec, key, steps + [next], answer).Some?
    ensures AllFit(codec, RunBytes(codec, key, steps + [next], answer).value.session, answer)
  {
    var b := RunBytes(codec, key, steps, answer).value;
    var s := b.session;
    forall d | d in s.callers && s.callers[d].Waiting? && s.nextSeq < MAX_SEQ
      ensures InRange(RequestWire(codec, s, d))
    {
      assert Fits(codec, s.key, s.nextSeq, [s.callers[d].tag] + s.callers[d].payload, answer);
    }
    forall d | d in s.callers && s.callers[d].Awaiting? ensures InRange(AnswerWire(codec, s, d, answer)) {
      assert Fits(codec, s.key, s.callers[d].number, [s.callers[d].tag] + s.callers[d].payload, answer);
    }
    next := NeverStuckOverFrames(codec, key, steps, answer, c);
    assert (steps + [next])[..|steps|] == steps;
    FitStays(codec, s, ByteEvent(codec, b, next, answer).value, answer);
  }

  lemma WholeNext(steps: seq<ByteStep>, next: ByteStep)
    ensures WholeSteps(steps + [next]) == WholeSteps(steps) + Whole(next)
  {
    assert (steps + [next])[..|steps|] == steps;
  }

  /** Steps still needed, counted on the whole envelopes. */
  ghost function BytesLeft(codec: Codec, key: Key, steps: seq<ByteStep>, answer: Bytes -> Bytes): nat
    requires RunNet(key, WholeSteps(steps), answer).Some?
  {
    StepsLeft(RunNet(key, WholeSteps(steps), answer).value)
  }

  lemma ByteStepBringsNearer(codec: Codec, key: Key, steps: seq<ByteStep>, next: ByteStep, answer: Bytes -> Bytes)
    requires RunNet(key, WholeSteps(steps), answer).Some? && RunNet(key, WholeSteps(steps + [next]), answer).Some?
    requires !next.Calls? && Whole(next) != []
    ensures BytesLeft(codec, key, steps + [next], answer) < BytesLeft(codec, key, steps, answer)
  {
    WholeNext(steps, next);
    LastStepBringsNearer(key, WholeSteps(steps), Whole(next)[0], answer);
  }

  /** While frames fit, every run over bytes can be finished: at the end every caller is done. */
  lemma {:induction false} EveryoneFinishesOverFrames(codec: Codec, key: Key, steps: seq<ByteStep>,
                                                      answer: Bytes -> Bytes)
    returns (more: seq<ByteStep>)
    requires CodecContract(codec) && RunBytes(codec, key, steps, answer).Some?
    requires AllFit(codec, RunBytes(codec, key, steps, answer).value.session, answer)
    ensures RunNet(key, WholeSteps(steps), answer).Some?
    ensures RunBytes(codec, key, steps + more, answer).Some? &&
      Done(RunBytes(codec, key, steps + more, answer).value.session)
    ensures |more| <= BytesLeft(codec, key, steps, answer) <= 3 * CallCount(WholeSteps(steps))
    decreases if RunNet(key, WholeSteps(steps), answer).Some? then BytesLeft(codec, key, steps, answer) else 0
  {
    BytesRefineEnvelopes(codec, key, steps, answer);
    StepsAreBounded(key, WholeSteps(steps), answer);
    var s := RunBytes(codec, key, steps, answer).value.session;
    if Done(s) {
      more := [];
      assert steps + more == steps;
    } else {
      var c :| c in s.callers && (s.callers[c].Waiting? || s.callers[c].Awaiting?);
      var next := SomeStepWhenAllFit(codec, key, steps, answer, c);
      BytesRefineEnvelopes(codec, key, steps + [next], answer);
      ByteStepBringsNearer(codec, key, steps, next, answer);
      var others := EveryoneFinishesOverFrames(codec, key, steps + [next], answer);
      more := [next] + others;
      Regroup(steps, [next], others);
    }
  }
}
