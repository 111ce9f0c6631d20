/** The same session over channels that keep order, with a node that answers each request once, in order. */
module ReliableSession {
  import opened Bytes
  import opened Tunnel
  import opened Session

  /** What is in flight in each direction. */
  datatype Net = Net(session: State, toNode: seq<Envelope>, toClient: seq<Envelope>)

  datatype Step =
    | NewCall(caller: CallerId, tag: byte, payload: Bytes)
    | Send(caller: CallerId)
    | NodeAnswers
    | Deliver(caller: CallerId)

  /** The node's half of the cipher: it opens what was sealed towards it. */
  function OpenRequest(key: Key, frame: Envelope): Option<Opened> {
    if |frame.header| != 5 || frame.header[0] != 0x03 || !frame.box.Box? then None else
    FourBytesFitUint32(frame.header[1..]);
    var number := BigEndian(frame.header[1..]);
    if frame.box.key == key && frame.box.nonce == Nonce(number, ClientToServer)
    then Some(Opened(number, frame.box.plaintext)) else None
  }

  lemma NodeOpensRequests(key: Key, number: uint32, plaintext: Bytes)
    ensures OpenRequest(key, Seal(key, number, ClientToServer, plaintext)) == Some(Opened(number, plaintext))
  {
    assert Pow256(4) == 0x1_0000_0000;
    BigEndianOfDigits(number, 4);
    assert ([0x03] + SeqBytes(number))[1..] == SeqBytes(number);
  }

  /** The node takes nothing for a request but what the client sealed towards it. */
  lemma NodeOpensExactlyRequests(key: Key, frame: Envelope, number: uint32, plaintext: Bytes)
    ensures OpenRequest(key, frame) == Some(Opened(number, plaintext))
       <==> frame == Seal(key, number, ClientToServer, plaintext)
  {
    NodeOpensRequests(key, number, plaintext);
    if OpenRequest(key, frame) == Some(Opened(number, plaintext)) {
      assert Pow256(4) == 0x1_0000_0000;
      BigEndianOfDigits(number, 4);
      BigEndianInjective(frame.header[1..], SeqBytes(number));
      assert frame.header == [frame.header[0]] + frame.header[1..];
    }
  }

  /** The step can be taken as far as the queues and the lock are concerned. */
  predicate Possible(n: Net, step: Step) {
    match step
    case NewCall(c, _, _) => c !in n.session.callers
    case Send(c) => n.session.lock == None && c in n.session.callers && n.session.callers[c].Waiting?
    case NodeAnswers => n.toNode != [] && OpenRequest(n.session.key, n.toNode[0]).Some?
    case Deliver(c) => n.session.lock == Some(c) && n.toClient != []
  }

  /** The session event a step amounts to. */
  function AsEvent(n: Net, step: Step, answer: Bytes -> Bytes): Event
    requires Possible(n, step)
  {
    match step
    case NewCall(c, tag, payload) => Call(c, tag, payload)
    case Send(c) => Start(c, true)
    case NodeAnswers =>
      var request := OpenRequest(n.session.key, n.toNode[0]).value;
      NodeSeals(request.number, answer(request.plaintext))
    case Deliver(c) => Receive(c, Arrived(n.toClient[0]))
  }

  function Take(n: Net, step: Step, answer: Bytes -> Bytes): Net
    requires Possible(n, step) && n.session.nextSeq <= MAX_SEQ && Enabled(n.session, AsEvent(n, step, answer))
  {
    var s := n.session;
    var t := Apply(s, AsEvent(n, step, answer));
    match step
    case NewCall(_, _, _) => n.(session := t)
    case Send(c) =>
      if s.nextSeq >= MAX_SEQ then n.(session := t) else
      var w := s.callers[c];
      n.(session := t, toNode := n.toNode + [Seal(s.key, s.nextSeq, ClientToServer, [w.tag] + w.payload)])
    case NodeAnswers =>
      var request := OpenRequest(s.key, n.toNode[0]).value;
      Net(t, n.toNode[1..], n.toClient + [Seal(s.key, request.number, ServerToClient, answer(request.plaintext))])
    case Deliver(_) => Net(t, n.toNode, n.toClient[1..])
  }

  function RunNet(key: Key, steps: seq<Step>, answer: Bytes -> Bytes): Option<Net> {
    if steps == [] then Some(Net(Initial(key), [], [])) else
    match RunNet(key, steps[..|steps| - 1], answer)
    case None => None
    case Some(n) =>
      var step := steps[|steps| - 1];
      if n.session.nextSeq <= MAX_SEQ && Possible(n, step) && Enabled(n.session, AsEvent(n, step, answer))
      then Some(Take(n, step, answer)) else None
  }

  /** What a caller makes of the node's answer to its own request. */
  function ReplyTo(tag: byte, payload: Bytes, answer: Bytes -> Bytes): Reply {
    var a := answer([tag] + payload);
    if a == [] || a[0] != tag then Err(WrongTag) else Ok(a[1..])
  }

  /** The request of the caller holding the lock is in flight, or the answer to it is; otherwise nothing is. */
  predicate InFlight(n: Net, answer: Bytes -> Bytes) {
    var s := n.session;
    match s.lock
    case None => n.toNode == [] && n.toClient == []
    case Some(c) =>
      && c in s.callers && s.callers[c].Awaiting?
      && var w := s.callers[c];
      || (&& n.toNode == [Seal(s.key, w.number, ClientToServer, [w.tag] + w.payload)]
          && n.toClient == [] && !SealedNumber(s, w.number, ServerToClient))
      || (&& n.toNode == []
          && n.toClient == [Seal(s.key, w.number, ServerToClient, answer([w.tag] + w.payload))]
          && SealRecord(w.number, ServerToClient, answer([w.tag] + w.payload)) in s.seals)
  }

  predicate Answered(s: State, answer: Bytes -> Bytes) {
    && (forall c :: c in s.callers && s.callers[c].Finished? ==>
          s.callers[c].reply == ReplyTo(s.callers[c].tag, s.callers[c].payload, answer))
    && (forall c :: c in s.callers && s.callers[c].Refused? ==> s.nextSeq == MAX_SEQ)
  }

  predicate NetInv(n: Net, answer: Bytes -> Bytes) {
    Inv(n.session) && InFlight(n, answer) && Answered(n.session, answer)
  }

  lemma InvStep(s: State, e: Event)
    requires Inv(s) && Enabled(s, e)
    ensures Inv(Apply(s, e))
  {
    LockStep(s, e);
    SealsStep(s, e);
    RequestsStep(s, e);
    NumbersStep(s, e);
    RepliesStep(s, e);
  }

  /** Whatever the queues and the lock allow is also a step of the session. */
  lemma PossibleIsEnabled(n: Net, step: Step, answer: Bytes -> Bytes)
    requires NetInv(n, answer) && Possible(n, step)
    ensures Enabled(n.session, AsEvent(n, step, answer))
  {
    var s := n.session;
    match step
    case NodeAnswers =>
      var w := s.callers[s.lock.value];
      NodeOpensRequests(s.key, w.number, [w.tag] + w.payload);
      var i :| 0 <= i < |s.seals| && s.seals[i] == SealRecord(w.number, ClientToServer, [w.tag] + w.payload);
    case Deliver(c) =>
      var w := s.callers[c];
      var i :| 0 <= i < |s.seals| && s.seals[i] == SealRecord(w.number, ServerToClient, answer([w.tag] + w.payload));
    case _ =>
  }

  /** A number not given out yet has not been answered. */
  lemma NextIsUnanswered(s: State, plaintext: Bytes)
    requires Inv(s)
    ensures !SealedNumber(s.(seals := s.seals + [SealRecord(s.nextSeq, ClientToServer, plaintext)]), s.nextSeq,
      ServerToClient)
  {
  }

  lemma SendAnswered(n: Net, c: CallerId, answer: Bytes -> Bytes)
    requires NetInv(n, answer) && Possible(n, Send(c))
    ensures Answered(Take(n, Send(c), answer).session, answer)
  {
  }

  lemma SendStep(n: Net, c: CallerId, answer: Bytes -> Bytes)
    requires NetInv(n, answer) && Possible(n, Send(c))
    ensures NetInv(Take(n, Send(c), answer), answer)
  {
    var s := n.session;
    InvStep(s, Start(c, true));
    SendAnswered(n, c, answer);
    if s.nextSeq < MAX_SEQ {
      var w := s.callers[c];
      NextIsUnanswered(s, [w.tag] + w.payload);
      var t := Take(n, Send(c), answer).session;
      assert SealedNumber(t, s.nextSeq, ServerToClient)
        == SealedNumber(s.(seals := t.seals), s.nextSeq, ServerToClient);
    }
  }

  lemma AnswerStep(n: Net, answer: Bytes -> Bytes)
    requires NetInv(n, answer) && Possible(n, NodeAnswers) && Enabled(n.session, AsEvent(n, NodeAnswers, answer))
    ensures NetInv(Take(n, NodeAnswers, answer), answer)
  {
    var s := n.session;
    var w := s.callers[s.lock.value];
    NodeOpensRequests(s.key, w.number, [w.tag] + w.payload);
    InvStep(s, AsEvent(n, NodeAnswers, answer));
    var t := Take(n, NodeAnswers, answer).session;
    assert t.seals[|s.seals|] == SealRecord(w.number, ServerToClient, answer([w.tag] + w.payload));
  }

  /** The seal of the answer to a request is accepted as what the caller makes of that answer. */
  lemma AcceptsAnswer(key: Key, number: uint32, tag: byte, payload: Bytes, answer: Bytes -> Bytes)
    ensures Accept(key, number, tag, Seal(key, number, ServerToClient, answer([tag] + payload)))
      == ReplyTo(tag, payload, answer)
  {
    var a := answer([tag] + payload);
    OpensExactlyResponses(key, Seal(key, number, ServerToClient, a), number, a);
  }

  lemma DeliverAnswered(n: Net, c: CallerId, answer: Bytes -> Bytes)
    requires NetInv(n, answer) && Possible(n, Deliver(c)) && Enabled(n.session, AsEvent(n, Deliver(c), answer))
    ensures Answered(Take(n, Deliver(c), answer).session, answer)
  {
    var w := n.session.callers[c];
    AcceptsAnswer(n.session.key, w.number, w.tag, w.payload, answer);
  }

  lemma DeliverStep(n: Net, c: CallerId, answer: Bytes -> Bytes)
    requires NetInv(n, answer) && Possible(n, Deliver(c)) && Enabled(n.session, AsEvent(n, Deliver(c), answer))
    ensures NetInv(Take(n, Deliver(c), answer), answer)
  {
    InvStep(n.session, AsEvent(n, Deliver(c), answer));
    DeliverAnswered(n, c, answer);
  }

  lemma {:induction false} RunNetKeepsInv(key: Key, steps: seq<Step>, answer: Bytes -> Bytes)
    ensures RunNet(key, steps, answer).Some? ==> NetInv(RunNet(key, steps, answer).value, answer)
  {
    if steps != [] {
      var before, step := steps[..|steps| - 1], steps[|steps| - 1];
      RunNetKeepsInv(key, before, answer);
      if RunNet(key, steps, answer).Some? {
        var n := RunNet(key, before, answer).value;
        match step {
          case NewCall(c, tag, payload) => InvStep(n.session, Call(c, tag, payload));
          case Send(c) => SendStep(n, c, answer);
          case NodeAnswers => AnswerStep(n, answer);
          case Deliver(c) => DeliverStep(n, c, answer);
        }
      }
    }
  }

  /** In every run every caller that is done has the answer to its own payload, unless the numbers ran out. */
  lemma EachGetsItsOwnAnswer(key: Key, steps: seq<Step>, answer: Bytes -> Bytes, c: CallerId)
    requires RunNet(key, steps, answer).Some? && c in RunNet(key, steps, answer).value.session.callers
    ensures var s := RunNet(key, steps, answer).value.session;
      match s.callers[c]
      case Finished(tag, payload, _, reply) => reply == ReplyTo(tag, payload, answer)
      case Refused(_, _) => s.nextSeq == MAX_SEQ
      case _ => true
  {
    RunNetKeepsInv(key, steps, answer);
  }

  /** While some caller is not done, the run can go on: nothing ever deadlocks. */
  lemma NeverStuck(key: Key, steps: seq<Step>, answer: Bytes -> Bytes, c: CallerId) returns (next: Step)
    requires RunNet(key, steps, answer).Some?
    requires var s := RunNet(key, steps, answer).value.session;
      c in s.callers && (s.callers[c].Waiting? || s.callers[c].Awaiting?)
    ensures !next.NewCall? && RunNet(key, steps + [next], answer).Some?
  {
    RunNetKeepsInv(key, steps, answer);
    var n := RunNet(key, steps, answer).value;
    var s := n.session;
    if s.lock == None {
      next := Send(c);
    } else if n.toNode != [] {
      next := NodeAnswers;
      var w := s.callers[s.lock.value];
      NodeOpensRequests(s.key, w.number, [w.tag] + w.payload);
    } else {
      next := Deliver(s.lock.value);
    }
    PossibleIsEnabled(n, next, answer);
    assert (steps + [next])[..|steps|] == steps;
  }

  // ----- progress -----

  ghost function WaitingCallers(s: State): set<CallerId> {
    set c | c in s.callers && s.callers[c].Waiting?
  }

  predicate Done(s: State) {
    forall c :: c in s.callers ==> !s.callers[c].Waiting? && !s.callers[c].Awaiting?
  }

  /** Steps the calls made so far still need: three for each that waits, two or one for the one under way. */
  ghost function StepsLeft(n: Net): nat {
    3 * |WaitingCallers(n.session)| + if n.session.lock == None then 0 else if n.toNode != [] then 2 else 1
  }

  function CallCount(steps: seq<Step>): (calls: nat)
    ensures calls <= |steps|
  {
    if steps == [] then 0 else CallCount(steps[..|steps| - 1]) + if steps[|steps| - 1].NewCall? then 1 else 0
  }

  lemma NewCallWaits(n: Net, c: CallerId, tag: byte, payload: Bytes, answer: Bytes -> Bytes)
    requires n.session.nextSeq <= MAX_SEQ && Possible(n, NewCall(c, tag, payload))
    ensures StepsLeft(Take(n, NewCall(c, tag, payload), answer)) == StepsLeft(n) + 3
  {
    var t := Take(n, NewCall(c, tag, payload), answer);
    assert WaitingCallers(t.session) == WaitingCallers(n.session) + {c};
  }

  lemma StartLeavesWaiting(s: State, c: CallerId)
    requires s.nextSeq <= MAX_SEQ && Enabled(s, Start(c, true))
    ensures WaitingCallers(s) == WaitingCallers(Apply(s, Start(c, true))) + {c}
    ensures c !in WaitingCallers(Apply(s, Start(c, true)))
  {
  }

  lemma SendStarts(n: Net, c: CallerId, answer: Bytes -> Bytes)
    requires NetInv(n, answer) && Possible(n, Send(c))
    ensures StepsLeft(Take(n, Send(c), answer)) < StepsLeft(n)
  {
    StartLeavesWaiting(n.session, c);
  }

  lemma OthersWait(s: State, e: Event)
    requires s.nextSeq <= MAX_SEQ && Enabled(s, e) && (e.NodeSeals? || e.Receive?)
    ensures WaitingCallers(Apply(s, e)) == WaitingCallers(s)
  {
  }

  /** Every step but a new call brings the end nearer. */
  lemma StepBringsNearer(n: Net, step: Step, answer: Bytes -> Bytes)
    requires NetInv(n, answer) && Possible(n, step) && Enabled(n.session, AsEvent(n, step, answer))
    ensures step.NewCall? ==> StepsLeft(Take(n, step, answer)) == StepsLeft(n) + 3
    ensures !step.NewCall? ==> StepsLeft(Take(n, step, answer)) < StepsLeft(n)
  {
    match step
    case NewCall(c, tag, payload) => NewCallWaits(n, c, tag, payload, answer);
    case Send(c) => SendStarts(n, c, answer);
    case _ => OthersWait(n.session, AsEvent(n, step, answer));
  }

  lemma LastStepBringsNearer(key: Key, before: seq<Step>, step: Step, answer: Bytes -> Bytes)
    requires RunNet(key, before + [step], answer).Some? && !step.NewCall?
    ensures RunNet(key, before, answer).Some?
    ensures StepsLeft(RunNet(key, before + [step], answer).value) < StepsLeft(RunNet(key, before, answer).value)
  {
    assert (before + [step])[..|before|] == before;
    RunNetKeepsInv(key, before, answer);
    StepBringsNearer(RunNet(key, before, answer).value, step, answer);
  }

  /** A run with `k` calls has at most `3k` other steps, less those still needed. */
  lemma {:induction false} StepsAreBounded(key: Key, steps: seq<Step>, answer: Bytes -> Bytes)
    requires RunNet(key, steps, answer).Some?
    ensures StepsLeft(RunNet(key, steps, answer).value) + (|steps| - CallCount(steps)) <= 3 * CallCount(steps)
  {
    if steps == [] {
      assert WaitingCallers(Initial(key)) == {};
    } else {
      var before, step := steps[..|steps| - 1], steps[|steps| - 1];
      StepsAreBounded(key, before, answer);
      RunNetKeepsInv(key, before, answer);
      StepBringsNearer(RunNet(key, before, answer).value, step, answer);
    }
  }

  /** Every run can be finished without new calls: at the end every caller is done. */
  lemma {:induction false} EveryoneFinishes(key: Key, steps: seq<Step>, answer: Bytes -> Bytes)
    returns (more: seq<Step>)
    requires RunNet(key, steps, answer).Some?
    ensures RunNet(key, steps + more, answer).Some? && CallCount(more) == 0
    ensures Done(RunNet(key, steps + more, answer).value.session)
    ensures |more| <= StepsLeft(RunNet(key, steps, answer).value) <= 3 * CallCount(steps)
    decreases StepsLeft(RunNet(key, steps, answer).value)
  {
    var n := RunNet(key, steps, answer).value;
    StepsAreBounded(key, steps, answer);
    if Done(n.session) {
      more := [];
      assert steps + more == steps;
    } else {
      var c :| c in n.session.callers && (n.session.callers[c].Waiting? || n.session.callers[c].Awaiting?);
      var next := NeverStuck(key, steps, answer, c);
      assert (steps + [next])[..|steps|] == steps;
      RunNetKeepsInv(key, steps, answer);
      StepBringsNearer(n, next, answer);
      var others := EveryoneFinishes(key, steps + [next], answer);
      more := [next] + others;
      Regroup(steps, [next], others);
      NoCallsFirst(next, others);
    }
  }

  lemma {:induction false} NoCallsFirst(first: Step, others: seq<Step>)
    requires !first.NewCall? && CallCount(others) == 0
    ensures CallCount([first] + others) == 0
  {
    var all := [first] + others;
    if others == [] {
      assert all[..0] == [];
    } else {
      assert all[..|all| - 1] == [first] + others[..|others| - 1];
      NoCallsFirst(first, others[..|others| - 1]);
    }
  }
}
