/** Two endpoints over an ordered link. The link may refuse any payload, and at a reconnect it
    loses everything in flight both ways; each endpoint then replays before it sends again. */
module RelayFifo {
  import opened Wrappers
  import opened RelayTypes
  import opened RelayTransport
  import opened RelayEndpoint
  import opened RelaySender
  import opened RelaySystem

  datatype Fifo = Fifo(net: System, toB: seq<Payload>, toA: seq<Payload>, upA: bool, upB: bool)

  datatype FifoAction =
    | LocalA(step: Step)
    | LocalB(step: Step)
    | DeliverA(now: int)
    | DeliverB(now: int)
    | Reconnect

  /** What a step puts on the link, as a sequence of at most one payload. */
  function Sent(s: Endpoint, step: Step): seq<Payload> {
    match step
    case BeginAck(true) => if s.pendingAck.Some? then [Ack(s.pendingAck.value.messageSeq)] else []
    case BeginFrame(true) =>
      if s.cursor < |s.queue| && s.queue[s.cursor].nextFrameIndex < |s.queue[s.cursor].frames|
      then [Data(s.queue[s.cursor].frames[s.queue[s.cursor].nextFrameIndex])] else []
    case _ => []
  }

  predicate NeedsLink(step: Step) {
    (step.BeginAck? || step.BeginFrame?) && step.wire
  }

  predicate LocalStep(x: Endpoint, step: Step, up: bool) {
    Enabled(x, step) && !step.Receive? && !step.Defer? && (NeedsLink(step) ==> up)
  }

  /** The transport hands payloads over in link order, at any time: also from inside a message listener, while
      earlier payloads are still deferred. */
  predicate MayDeliver(x: Endpoint, now: int) {
    Alive(x) && x.call.Idle? ==> x.clock <= now
  }

  function Delivery(x: Endpoint, p: Payload, now: int): Step {
    if x.call.Idle? then Receive(Own(p), now) else Defer(Own(p))
  }

  predicate CanFifo(s: Fifo, act: FifoAction) {
    match act
    case LocalA(step) => LocalStep(s.net.a, step, s.upA)
    case LocalB(step) => LocalStep(s.net.b, step, s.upB)
    case DeliverA(now) => s.toA != [] && s.toA[0] in s.net.ba && MayDeliver(s.net.a, now)
    case DeliverB(now) => s.toB != [] && s.toB[0] in s.net.ab && MayDeliver(s.net.b, now)
    case Reconnect => true
  }

  function FifoAct(cfg: Config, s: Fifo, act: FifoAction): Fifo
    requires CanFifo(s, act)
  {
    match act
    case LocalA(step) =>
      Fifo(Act(cfg, s.net, AtA(step)), s.toB + Sent(s.net.a, step), s.toA, s.upA || step.Replay?, s.upB)
    case LocalB(step) =>
      Fifo(Act(cfg, s.net, AtB(step)), s.toB, s.toA + Sent(s.net.b, step), s.upA, s.upB || step.Replay?)
    case DeliverA(now) =>
      if !Alive(s.net.a) then s.(toA := s.toA[1..])
      else s.(net := Act(cfg, s.net, AtA(Delivery(s.net.a, s.toA[0], now))), toA := s.toA[1..])
    case DeliverB(now) =>
      if !Alive(s.net.b) then s.(toB := s.toB[1..])
      else s.(net := Act(cfg, s.net, AtB(Delivery(s.net.b, s.toB[0], now))), toB := s.toB[1..])
    case Reconnect => s.(toB := [], toA := [], upA := false, upB := false)
  }

  // ---------- Streams ----------

  function Payloads(inbound: seq<Candidate>): seq<Payload> {
    seq(|inbound|, i requires 0 <= i < |inbound| => if inbound[i].Own? then inbound[i].payload else Ack(0))
  }

  /** Everything on its way to x, oldest first: what x deferred, then what is on the link. */
  function Stream(x: Endpoint, link: seq<Payload>): seq<Payload> {
    Payloads(x.inbound) + link
  }

  /** The last frame number an endpoint at position p has seen once it took in payload l. */
  function Past(p: nat, l: Payload): nat {
    if l.Data? && l.frame.seqNo > p then l.frame.seqNo else p
  }

  function After(p: nat, stream: seq<Payload>): nat
    decreases |stream|
  {
    if stream == [] then p else After(Past(p, stream[0]), stream[1..])
  }

  /** No frame of the stream comes after a hole. */
  predicate Smooth(p: nat, stream: seq<Payload>)
    decreases |stream|
  {
    stream == [] || ((stream[0].Data? ==> stream[0].frame.seqNo <= p + 1) && Smooth(Past(p, stream[0]), stream[1..]))
  }

  lemma {:induction false} AfterAppend(p: nat, stream: seq<Payload>, l: Payload)
    ensures After(p, stream + [l]) == Past(After(p, stream), l)
    ensures Smooth(p, stream + [l]) <==> Smooth(p, stream) && (l.Data? ==> l.frame.seqNo <= After(p, stream) + 1)
    decreases |stream|
  {
    if stream == [] {
      assert stream + [l] == [l];
      assert [l][1..] == [];
    } else {
      AfterAppend(Past(p, stream[0]), stream[1..], l);
      assert (stream + [l])[1..] == stream[1..] + [l];
    }
  }

  lemma {:induction false} AfterIsLater(p: nat, stream: seq<Payload>)
    ensures After(p, stream) >= p
    decreases |stream|
  {
    if stream != [] {
      AfterIsLater(Past(p, stream[0]), stream[1..]);
    }
  }

  lemma Apart(ahead: seq<Payload>, l: Payload, behind: seq<Payload>)
    requires ahead != []
    ensures (ahead + [l] + behind)[1..] == ahead[1..] + [l] + behind && (ahead + behind)[1..] == ahead[1..] + behind
    ensures (ahead + [l] + behind)[0] == ahead[0] == (ahead + behind)[0]
  {
  }

  /** A payload that overtakes those ahead of it, without being beyond the next frame, leaves no hole behind. */
  lemma {:induction false} OvertakeSmoothly(p: nat, ahead: seq<Payload>, l: Payload, behind: seq<Payload>)
    requires Smooth(p, ahead + [l] + behind) && (l.Data? ==> l.frame.seqNo <= p + 1)
    ensures Smooth(Past(p, l), ahead + behind)
    ensures After(Past(p, l), ahead + behind) == After(p, ahead + [l] + behind)
    decreases |ahead|
  {
    if ahead == [] {
      assert [] + [l] + behind == [l] + behind && [] + behind == behind;
      assert ([l] + behind)[1..] == behind;
    } else {
      Apart(ahead, l, behind);
      OvertakeSmoothly(Past(p, ahead[0]), ahead[1..], l, behind);
      assert Past(Past(p, ahead[0]), l) == Past(Past(p, l), ahead[0]);
    }
  }

  // ---------- The invariant of one direction ----------

  ghost function Position(s: Endpoint, r: Endpoint): nat
    requires |r.delivered| <= |s.hist|
  {
    Start(s.hist, |r.delivered|) + Taken(r)
  }

  /** One past the last frame the link took, as the sender counts since its last replay. */
  ghost function SentUpTo(s: Endpoint): nat {
    NextSeq(s) + (if s.call == FrameCall(true) then 1 else 0)
  }

  /** As long as the sender has not heard of everything delivered, the news is on its way, or a frame
      that will bring it about is. */
  ghost predicate Owing(s: Endpoint, r: Endpoint, toR: seq<Payload>, toS: seq<Payload>)
    requires |r.delivered| <= |s.hist|
  {
    var d := |r.delivered|;
    || s.lastAcked == d
    || Ack(d) in toS
    || (r.pendingAck.Some? && r.pendingAck.value.messageSeq == d && !(r.call.AckCall? && r.call.wire))
    || d in r.owed
    || (exists l :: l in toR && l.Data? && l.frame.messageSeq <= d)
    || SentUpTo(s) <= Start(s.hist, d)
  }

  ghost predicate Lane(s: Endpoint, r: Endpoint, toR: seq<Payload>, toS: seq<Payload>, up: bool) {
    && |r.delivered| <= |s.hist|
    && (Alive(r) ==> Smooth(Position(s, r), toR))
    && (Alive(r) && Alive(s) && up ==>
        && SentUpTo(s) <= After(Position(s, r), toR) + 1
        && Owing(s, r, toR, toS))
  }

  lemma StreamHead(x: Endpoint, link: seq<Payload>, c: Candidate, now: int)
    requires x.inbound != [] && x.inbound[0] == c && c.Own?
    ensures Stream(x, link) == [c.payload] + Stream(x.(inbound := x.inbound[1..], clock := now, seen := x.seen + [c]), link)
  {
    assert Payloads(x.inbound) == [c.payload] + Payloads(x.inbound[1..]);
  }

  lemma StreamDefer(x: Endpoint, link: seq<Payload>)
    requires link != []
    ensures Stream(x.(inbound := x.inbound + [Own(link[0])]), link[1..]) == Stream(x, link)
  {
    assert Payloads(x.inbound + [Own(link[0])]) == Payloads(x.inbound) + [link[0]];
  }

  // ---------- Steps of the sender ----------

  lemma ReserveInLane(cfg: Config, s: Endpoint, r: Endpoint, toR: seq<Payload>, toS: seq<Payload>, up: bool,
          bytes: Bytes, now: int)
    requires Inv(cfg, s) && Lane(s, r, toR, toS, up) && Enabled(s, ReserveStep(bytes, now))
    ensures Lane(Apply(cfg, s, ReserveStep(bytes, now)), r, toR, toS, up)
  {
    hide Encode, Measure, Process, Smooth, After, EncodedBatch;
    var t := Apply(cfg, s, ReserveStep(bytes, now));
    if t.hist != s.hist {
      var frames := Encode(cfg, bytes, s.nextPhysicalSeq, s.nextMessageSeq).value;
      assert t.hist == s.hist + [frames];
      StartOfExtension(s.hist, [frames], |r.delivered|);
      StartOfExtension(s.hist, [frames], s.lastAcked + s.cursor);
      assert NextSeq(t) == NextSeq(s);
    }
  }

  lemma BeginFrameInLane(cfg: Config, s: Endpoint, r: Endpoint, toR: seq<Payload>, toS: seq<Payload>, up: bool,
          wire: bool)
    requires Inv(cfg, s) && Lane(s, r, toR, toS, up) && LocalStep(s, BeginFrame(wire), up)
    ensures Lane(Apply(cfg, s, BeginFrame(wire)), r, toR + Sent(s, BeginFrame(wire)), toS, up)
  {
    var t := Apply(cfg, s, BeginFrame(wire));
    CursorFrame(cfg, s);
    assert NextSeq(t) == NextSeq(s);
    if wire {
      var f := s.queue[s.cursor].frames[s.queue[s.cursor].nextFrameIndex];
      assert Sent(s, BeginFrame(wire)) == [Data(f)];
      if Alive(r) {
        AfterAppend(Position(s, r), toR, Data(f));
        if SentUpTo(s) <= Start(s.hist, |r.delivered|) {
          AuthenticPosition(cfg, s.messages, s.hist, f);
          if f.messageSeq > |r.delivered| {
            StartMonotone(s.hist, |r.delivered|, f.messageSeq - 1);
          }
          assert Data(f) in toR + [Data(f)];
        }
        forall l | l in toR && l.Data? && l.frame.messageSeq <= |r.delivered|
          ensures l in toR + [Data(f)]
        {
        }
      }
    } else {
      assert toR + Sent(s, BeginFrame(wire)) == toR;
    }
  }

  lemma EndFrameKeepsCount(cfg: Config, s: Endpoint)
    requires Inv(cfg, s) && Enabled(s, EndSend) && Alive(s)
    ensures var t := EndCall(s);
      Alive(t) && t.hist == s.hist && t.lastAcked == s.lastAcked && SentUpTo(t) == SentUpTo(s)
  {
    hide EncodedBatch, Smooth, After, Entry, ByteAccount, Process, Reserve, History, Ages;
    if s.call == FrameCall(true) {
      FrameSentOrder(cfg, s);
    }
  }

  lemma EndFrameInLane(cfg: Config, s: Endpoint, r: Endpoint, toR: seq<Payload>, toS: seq<Payload>, up: bool)
    requires Inv(cfg, s) && Lane(s, r, toR, toS, up) && Enabled(s, EndSend) && Alive(s)
    ensures Lane(EndCall(s), r, toR, toS, up)
  {
    hide Inv, EndCall, SentUpTo, Smooth, After;
    EndFrameKeepsCount(cfg, s);
    QuietInLane(s, EndCall(s), r, toR, toS, up);
  }

  lemma ReplayInLane(cfg: Config, s: Endpoint, r: Endpoint, toR: seq<Payload>, toS: seq<Payload>, up: bool)
    requires Inv(cfg, s) && Lane(s, r, toR, toS, up) && Enabled(s, Replay)
    requires s.lastAcked <= |r.delivered|
    ensures Lane(Apply(cfg, s, Replay), r, toR, toS, true)
  {
    hide EncodedBatch, Smooth, After, Process, Reserve, EndCall;
    var t := Apply(cfg, s, Replay);
    RewoundKeeps(cfg, s);
    if |t.queue| > 0 {
      assert Entry(cfg, s, 0);
    }
    assert NextSeq(t) == Start(s.hist, s.lastAcked) + 1;
    StartMonotone(s.hist, s.lastAcked, |r.delivered|);
    if s.lastAcked < |r.delivered| {
      assert BatchOf(cfg, s.messages, s.hist, s.lastAcked);
    }
    if Alive(r) {
      AfterIsLater(Position(s, r), toR);
    }
  }

  lemma AckMovesNextSeq(cfg: Config, s: Endpoint, ack: nat)
    requires Counters(s) && Entries(cfg, s) && ByteAccount(cfg, s) && Alive(s)
      && s.lastAcked < ack <= s.highestFullySent
    ensures var t := ProcessAck(cfg, s, ack);
      && t.lastAcked == ack && t.hist == s.hist && t.call == s.call
      && (NextSeq(t) == NextSeq(s) || NextSeq(t) == Start(s.hist, ack) + 1)
  {
    hide ReleaseCount, OuterBytes, Entries, Calls, SendOrder;
    ReleasedBytes(cfg, s, ack);
    var t := ProcessAck(cfg, s, ack);
    var n := ack - s.lastAcked;
    assert t.queue == s.queue[n..] && t.lastAcked == ack && t.hist == s.hist && t.call == s.call;
    if s.cursor < n {
      UntouchedEntry(cfg, s, n);
      assert NextSeq(t) == Start(s.hist, ack) + 1;
    } else {
      assert s.cursor < |s.queue| ==> t.queue[t.cursor] == s.queue[s.cursor];
      assert NextSeq(t) == NextSeq(s);
    }
  }

  lemma UntouchedEntry(cfg: Config, s: Endpoint, n: nat)
    requires Entries(cfg, s) && s.cursor < n
    ensures n < |s.queue| ==> s.queue[n].nextFrameIndex == 0
  {
    if n < |s.queue| {
      assert Entry(cfg, s, n);
    }
  }

  lemma SenderTakesFrame(cfg: Config, s: Endpoint, r: Endpoint, toR: seq<Payload>, toS: seq<Payload>,
          rest: seq<Payload>, up: bool, f: Frame)
    requires Inv(cfg, s) && Alive(s) && forall l :: l in toS ==> l == Data(f) || l in rest
    requires Lane(s, r, toR, toS, up)
    ensures Lane(Process(cfg, s, Own(Data(f)), s.clock), r, toR, rest, up)
  {
    hide Accept, Smooth, After, ByteAccount, Ages, StandsAt, Entry, Alternates;
    var t := Process(cfg, s, Own(Data(f)), s.clock);
    if WellFormedFrame(f) {
      FrameEffect(cfg, s, f);
    }
    if Alive(t) {
      assert NextSeq(t) == NextSeq(s);
    }
  }

  lemma SenderTakesAck(cfg: Config, s: Endpoint, r: Endpoint, toR: seq<Payload>, toS: seq<Payload>,
          rest: seq<Payload>, up: bool, n: nat)
    requires Inv(cfg, s) && Alive(s) && s.call.Idle? && forall l :: l in toS ==> l == Ack(n) || l in rest
    requires Lane(s, r, toR, toS, up) && s.lastAcked <= |r.delivered| && n <= |r.delivered|
    ensures Lane(Process(cfg, s, Own(Ack(n)), s.clock), r, toR, rest, up)
  {
    hide Accept, Smooth, ByteAccount, Ages, StandsAt, Entry, Alternates;
    var t := Process(cfg, s, Own(Ack(n)), s.clock);
    if Alive(t) && s.lastAcked < n {
      AckMovesNextSeq(cfg, s, n);
      StartMonotone(s.hist, n, |r.delivered|);
      if n < |r.delivered| {
        assert BatchOf(cfg, s.messages, s.hist, n);
      }
      AfterIsLater(Position(s, r), toR);
    }
  }

  /** The sender takes in a payload on its way. */
  lemma SenderConsumes(cfg: Config, s: Endpoint, r: Endpoint, toR: seq<Payload>, toS: seq<Payload>, rest: seq<Payload>,
                       up: bool, c: Candidate)
    requires Inv(cfg, s) && Alive(s) && s.call.Idle? && c.Own? && forall l :: l in toS ==> l == c.payload || l in rest
    requires Lane(s, r, toR, toS, up) && s.lastAcked <= |r.delivered|
    requires c.payload.Ack? ==> c.payload.messageSeq <= |r.delivered|
    ensures Lane(Process(cfg, s, c, s.clock), r, toR, rest, up)
  {
    hide Lane, Process, Inv;
    match c.payload
    case Data(f) => SenderTakesFrame(cfg, s, r, toR, toS, rest, up, f);
    case Ack(n) => SenderTakesAck(cfg, s, r, toR, toS, rest, up, n);
  }

  // ---------- Steps of the receiver ----------

  lemma ReceiverQuiet(s: Endpoint, r: Endpoint, t: Endpoint, toR: seq<Payload>, toS: seq<Payload>, toS': seq<Payload>,
          up: bool)
    requires Lane(s, r, toR, toS, up) && t.delivered == r.delivered
    requires Alive(t) ==> Alive(r) && t.assembler == r.assembler
    requires Alive(t) && Alive(s) && up ==> Owing(s, t, toR, toS')
    ensures Lane(s, t, toR, toS', up)
  {
  }

  /** Steps of the receiver that take nothing in. */
  lemma ReceiverActs(cfg: Config, s: Endpoint, r: Endpoint, toR: seq<Payload>, toS: seq<Payload>, up: bool, step: Step,
          rUp: bool)
    requires Inv(cfg, r) && AcksEarned(r, {}) && Lane(s, r, toR, toS, up)
    requires LocalStep(r, step, rUp) && !step.Dequeue?
    ensures Lane(s, Apply(cfg, r, step), toR, toS + Sent(r, step), up)
  {
    var t := Apply(cfg, r, step);
    OthersKeepAcks(cfg, r, step, rUp);
    if Alive(t) && Alive(s) && up {
      StillOwing(cfg, s, r, toR, toS, step, rUp);
    }
    ReceiverQuiet(s, r, t, toR, toS, toS + Sent(r, step), up);
  }

  lemma OthersKeepAcks(cfg: Config, r: Endpoint, step: Step, rUp: bool)
    requires LocalStep(r, step, rUp) && !step.Dequeue?
    ensures var t := Apply(cfg, r, step);
      t.delivered == r.delivered && (Alive(t) ==> Alive(r) && t.assembler == r.assembler)
    ensures var t := Apply(cfg, r, step);
      Alive(t) && !step.QueueAck? && !step.BeginAck? && !step.EndSend? && !step.BeginFrame? ==>
        t.owed == r.owed && t.pendingAck == r.pendingAck && t.call == r.call
  {
    if step.ReserveStep? {
      assert Apply(cfg, r, step) == Reserve(cfg, r.(clock := step.now), step.bytes, step.now);
    }
  }

  lemma StillOwing(cfg: Config, s: Endpoint, r: Endpoint, toR: seq<Payload>, toS: seq<Payload>, step: Step, rUp: bool)
    requires Inv(cfg, r) && AcksEarned(r, {}) && |r.delivered| <= |s.hist| && Owing(s, r, toR, toS)
    requires LocalStep(r, step, rUp) && !step.Dequeue? && Alive(Apply(cfg, r, step))
    ensures |Apply(cfg, r, step).delivered| <= |s.hist| && Owing(s, Apply(cfg, r, step), toR, toS + Sent(r, step))
  {
    var t := Apply(cfg, r, step);
    var d := |r.delivered|;
    OthersKeepAcks(cfg, r, step, rUp);
    assert forall l :: l in toS ==> l in toS + Sent(r, step);
    if step.QueueAck? {
      assert r.owed[|r.owed| - 1] in r.owed;
      assert d in r.owed && r.owed[|r.owed| - 1] != d ==> d in t.owed;
    } else if step.BeginAck? {
      assert t == r.(call := AckCall(r.pendingAck.value.messageSeq, step.wire));
      assert step.wire ==> Ack(r.pendingAck.value.messageSeq) in toS + Sent(r, step);
    } else if step.EndSend? {
      assert t.owed == r.owed;
    } else if step.BeginFrame? {
      assert t.owed == r.owed && r.pendingAck.None?;
    }
  }

  /** The stream towards a receiver, in which the payload it takes in has some ahead of it and some behind. */
  predicate Takes(toR: seq<Payload>, rest: seq<Payload>, ahead: seq<Payload>, l: Payload, behind: seq<Payload>) {
    toR == ahead + [l] + behind && rest == ahead + behind
  }

  lemma TakesIsMembership(toR: seq<Payload>, rest: seq<Payload>, ahead: seq<Payload>, l: Payload, behind: seq<Payload>)
    requires Takes(toR, rest, ahead, l, behind)
    ensures forall p :: p in toR <==> p == l || p in rest
  {
  }

  lemma LaneMoves(s: Endpoint, r: Endpoint, t: Endpoint, toR: seq<Payload>, toS: seq<Payload>, rest: seq<Payload>,
                  ahead: seq<Payload>, behind: seq<Payload>, up: bool, l: Payload)
    requires Lane(s, r, toR, toS, up) && Takes(toR, rest, ahead, l, behind)
    requires |t.delivered| <= |s.hist| && (l.Data? ==> l.frame.seqNo <= Position(s, r) + 1)
    requires Alive(t) ==> Alive(r) && Position(s, t) == Past(Position(s, r), l)
    requires Alive(t) && Alive(s) && up && Owing(s, r, toR, toS) ==> Owing(s, t, rest, toS)
    ensures Lane(s, t, rest, toS, up)
  {
    hide Owing, Smooth, After;
    if Alive(t) {
      OvertakeSmoothly(Position(s, r), ahead, l, behind);
    }
  }

  lemma OldFrameInLane(cfg: Config, s: Endpoint, r: Endpoint, toR: seq<Payload>, toS: seq<Payload>, rest: seq<Payload>,
                       ahead: seq<Payload>, behind: seq<Payload>, up: bool, f: Frame)
    requires Alive(r) && History(cfg, s.messages, s.hist) && Follows(cfg, s, r)
    requires Authentic(s.hist, f) && s.lastAcked <= |r.delivered|
    requires Takes(toR, rest, ahead, Data(f), behind) && Lane(s, r, toR, toS, up)
    requires !Expired(cfg, r.assembler.value, r.clock) && f.seqNo <= Position(s, r)
    ensures Lane(s, Process(cfg, r, Own(Data(f)), r.clock), rest, toS, up)
      && Alive(Process(cfg, r, Own(Data(f)), r.clock))
  {
    hide Smooth, After, Process, History, Takes;
    var d := |r.delivered|;
    var t := Process(cfg, r, Own(Data(f)), r.clock);
    OldFrameArrives(cfg, s, r, f);
    assert d > 0 ==> d in t.owed;
    assert Owing(s, t, rest, toS);
    LaneMoves(s, r, t, toR, toS, rest, ahead, behind, up, Data(f));
  }

  lemma OwingWithoutHead(s: Endpoint, r: Endpoint, t: Endpoint, toR: seq<Payload>, toS: seq<Payload>,
          rest: seq<Payload>, l: Payload)
    requires |r.delivered| <= |s.hist| && Owing(s, r, toR, toS) && forall p :: p in toR ==> p == l || p in rest
    requires l.Data? ==> l.frame.messageSeq > |r.delivered|
    requires t.delivered == r.delivered && t.owed == r.owed && t.pendingAck == r.pendingAck && t.call == r.call
    ensures Owing(s, t, rest, toS)
  {
  }

  lemma InnerFrameInLane(s: Endpoint, r: Endpoint, t: Endpoint, toR: seq<Payload>, toS: seq<Payload>,
          rest: seq<Payload>, ahead: seq<Payload>, behind: seq<Payload>, up: bool, f: Frame)
    requires Takes(toR, rest, ahead, Data(f), behind) && Lane(s, r, toR, toS, up) && Alive(r)
    requires f.seqNo == Position(s, r) + 1 && f.messageSeq > |r.delivered|
    requires t == r.(assembler := t.assembler) && Taken(t) == Taken(r) + 1
    ensures Lane(s, t, rest, toS, up)
  {
    hide Owing, Takes;
    TakesIsMembership(toR, rest, ahead, Data(f), behind);
    if Alive(s) && up {
      OwingWithoutHead(s, r, t, toR, toS, rest, Data(f));
    }
    LaneMoves(s, r, t, toR, toS, rest, ahead, behind, up, Data(f));
  }

  lemma LastFrameInLane(s: Endpoint, r: Endpoint, t: Endpoint, toR: seq<Payload>, toS: seq<Payload>, rest: seq<Payload>,
                        ahead: seq<Payload>, behind: seq<Payload>, up: bool, f: Frame)
    requires Takes(toR, rest, ahead, Data(f), behind) && Lane(s, r, toR, toS, up) && Alive(r)
    requires |r.delivered| < |s.hist| && Taken(r) + 1 == |s.hist[|r.delivered|]| && f.seqNo == Position(s, r) + 1
    requires |t.delivered| == |r.delivered| + 1 && |t.delivered| in t.owed && Taken(t) == 0 && Alive(t)
    ensures Lane(s, t, rest, toS, up)
  {
    hide Takes;
    assert Start(s.hist, |r.delivered| + 1) == Start(s.hist, |r.delivered|) + |s.hist[|r.delivered|]|;
    LaneMoves(s, r, t, toR, toS, rest, ahead, behind, up, Data(f));
  }

  lemma NextFrameInLane(cfg: Config, s: Endpoint, r: Endpoint, toR: seq<Payload>, toS: seq<Payload>, rest: seq<Payload>,
                        ahead: seq<Payload>, behind: seq<Payload>, up: bool, f: Frame)
    requires Alive(r) && History(cfg, s.messages, s.hist) && Follows(cfg, s, r)
    requires Authentic(s.hist, f) && f.seqNo <= s.maxWired
    requires Takes(toR, rest, ahead, Data(f), behind) && Lane(s, r, toR, toS, up)
    requires !Expired(cfg, r.assembler.value, r.clock) && f.seqNo == Position(s, r) + 1
    ensures Lane(s, Process(cfg, r, Own(Data(f)), r.clock), rest, toS, up)
      && Alive(Process(cfg, r, Own(Data(f)), r.clock))
  {
    hide Lane, Takes, Process;
    var t := Process(cfg, r, Own(Data(f)), r.clock);
    NextFrameIsAtCursor(cfg, s, r, f);
    if Taken(r) + 1 < |s.hist[|r.delivered|]| {
      InnerFrameArrives(cfg, s, r, f);
      assert f.messageSeq > |r.delivered| by {
        assert BatchOf(cfg, s.messages, s.hist, |r.delivered|);
      }
      InnerFrameInLane(s, r, t, toR, toS, rest, ahead, behind, up, f);
    } else {
      LastFrameArrives(cfg, s, r, f);
      assert |r.delivered| + 1 in t.owed;
      LastFrameInLane(s, r, t, toR, toS, rest, ahead, behind, up, f);
    }
  }

  lemma ReceiverTakesFrame(cfg: Config, s: Endpoint, r: Endpoint, toR: seq<Payload>, toS: seq<Payload>,
          rest: seq<Payload>, ahead: seq<Payload>, behind: seq<Payload>, up: bool, f: Frame)
    requires Alive(r) && History(cfg, s.messages, s.hist) && Follows(cfg, s, r)
    requires Authentic(s.hist, f) && f.seqNo <= s.maxWired && s.lastAcked <= |r.delivered|
    requires Takes(toR, rest, ahead, Data(f), behind) && Lane(s, r, toR, toS, up)
    ensures var t := Process(cfg, r, Own(Data(f)), r.clock);
      Lane(s, t, rest, toS, up) && FrameVerdict(cfg, r, f, t)
  {
    hide Takes, Smooth, After, Owing, History, StandsAt, Beyond, Process;
    BeyondIsPosition(cfg, s, r, f);
    if Expired(cfg, r.assembler.value, r.clock) {
      AuthenticPosition(cfg, s.messages, s.hist, f);
      ProcessFrame(cfg, r, f, r.assembler.value, Fault(AssemblyTimeout));
    } else if f.seqNo <= Position(s, r) {
      OldFrameInLane(cfg, s, r, toR, toS, rest, ahead, behind, up, f);
    } else if f.seqNo == Position(s, r) + 1 {
      NextFrameInLane(cfg, s, r, toR, toS, rest, ahead, behind, up, f);
    } else {
      LaterFrameArrives(cfg, s, r, f);
    }
  }

  lemma AckInLane(cfg: Config, s: Endpoint, r: Endpoint, toR: seq<Payload>, toS: seq<Payload>, rest: seq<Payload>,
                  ahead: seq<Payload>, behind: seq<Payload>, up: bool, n: nat)
    requires Alive(r) && Takes(toR, rest, ahead, Ack(n), behind) && Lane(s, r, toR, toS, up)
    ensures Lane(s, ProcessAck(cfg, r, n), rest, toS, up)
  {
    hide Takes;
    var t := ProcessAck(cfg, r, n);
    TakesIsMembership(toR, rest, ahead, Ack(n), behind);
    if Alive(t) {
      assert t.delivered == r.delivered && t.assembler == r.assembler && t.owed == r.owed
          && t.pendingAck == r.pendingAck && t.call == r.call;
    }
    LaneMoves(s, r, t, toR, toS, rest, ahead, behind, up, Ack(n));
  }

  /** The receiver takes in a payload on its way, the oldest one or one that overtakes what is deferred. */
  lemma ReceiverConsumes(cfg: Config, s: Endpoint, r: Endpoint, sr: set<Payload>, rs: set<Payload>, toR: seq<Payload>,
                         toS: seq<Payload>, rest: seq<Payload>, ahead: seq<Payload>, behind: seq<Payload>, up: bool,
                         c: Candidate)
    requires Inv(cfg, s) && Inv(cfg, r) && Alive(r) && r.call.Idle?
    requires Direction(cfg, s, r, sr, rs) && Direction(cfg, r, s, rs, sr)
    requires c.Own? && c.payload in sr && Takes(toR, rest, ahead, c.payload, behind) && Lane(s, r, toR, toS, up)
    ensures var t := Process(cfg, r, c, r.clock);
      Lane(s, t, rest, toS, up) && Consumed(cfg, r, c.payload, t)
  {
    hide Takes, Lane, FrameVerdict, Process;
    match c.payload
    case Data(f) => ReceiverTakesFrame(cfg, s, r, toR, toS, rest, ahead, behind, up, f);
    case Ack(n) =>
      AckAsReceiver(cfg, s, r, sr, rs, n);
      AckInLane(cfg, s, r, toR, toS, rest, ahead, behind, up, n);
      AckProcessed(cfg, r, n);
  }

  lemma AckProcessed(cfg: Config, r: Endpoint, n: nat)
    requires Alive(Process(cfg, r, Own(Ack(n)), r.clock))
    ensures Process(cfg, r, Own(Ack(n)), r.clock) == ProcessAck(cfg, r, n)
  {
  }

  // ---------- One side acts ----------

  lemma QuietInLane(s: Endpoint, t: Endpoint, r: Endpoint, toR: seq<Payload>, toS: seq<Payload>, up: bool)
    requires Lane(s, r, toR, toS, up) && t.hist == s.hist
    requires Alive(t) ==> Alive(s) && t.lastAcked == s.lastAcked && SentUpTo(t) == SentUpTo(s)
    ensures Lane(t, r, toR, toS, up)
  {
  }

  predicate PlainStep(step: Step) {
    step.BeginAck? || step.QueueAck? || step.Fail? || step.DisposeStep? || step.Tick?
  }

  lemma PlainAsSender(cfg: Config, s: Endpoint, r: Endpoint, toR: seq<Payload>, toS: seq<Payload>, up: bool, step: Step)
    requires Inv(cfg, s) && Lane(s, r, toR, toS, up) && LocalStep(s, step, up) && PlainStep(step)
    ensures Lane(Apply(cfg, s, step), r, toR + Sent(s, step), toS, up)
  {
    hide Process, Reserve, EndCall, Smooth, After, History, Entries, ByteAccount, Ages;
    var t := Apply(cfg, s, step);
    QuietInLane(s, t, r, toR, toS, up);
    if step == BeginAck(true) && Alive(r) {
      AfterAppend(Position(s, r), toR, Ack(s.pendingAck.value.messageSeq));
    } else if !Alive(r) {
    } else {
      assert toR + Sent(s, step) == toR;
    }
  }

  lemma ActsAsSender(cfg: Config, s: Endpoint, r: Endpoint, toR: seq<Payload>, toS: seq<Payload>, up: bool, step: Step)
    requires Inv(cfg, s) && Lane(s, r, toR, toS, up) && LocalStep(s, step, up) && !step.Dequeue?
    requires s.lastAcked <= |r.delivered|
    ensures Lane(Apply(cfg, s, step), r, toR + Sent(s, step), toS, up || step.Replay?)
  {
    assert Sent(s, step) == [] ==> toR + Sent(s, step) == toR;
    match step
    case ReserveStep(bytes, now) => ReserveInLane(cfg, s, r, toR, toS, up, bytes, now);
    case BeginFrame(wire) => BeginFrameInLane(cfg, s, r, toR, toS, up, wire);
    case EndSend =>
      if Alive(s) {
        EndFrameInLane(cfg, s, r, toR, toS, up);
      } else {
        QuietInLane(s, EndCall(s), r, toR, toS, up);
      }
    case Replay => ReplayInLane(cfg, s, r, toR, toS, up);
    case _ => PlainAsSender(cfg, s, r, toR, toS, up, step);
  }

  lemma InboundAfter(cfg: Config, x: Endpoint, step: Step, up: bool)
    requires LocalStep(x, step, up) && !step.Dequeue?
    ensures Alive(Apply(cfg, x, step)) ==> Alive(x) && Apply(cfg, x, step).inbound == x.inbound
  {
    if step.ReserveStep? {
      assert Apply(cfg, x, step) == Reserve(cfg, x.(clock := step.now), step.bytes, step.now);
    }
  }

  /** The stream to a dead endpoint no longer matters. */
  lemma DeadStream(s: Endpoint, r: Endpoint, toR: seq<Payload>, toS: seq<Payload>, toR': seq<Payload>,
          toS': seq<Payload>, up: bool)
    requires Lane(s, r, toR, toS, up)
    requires Alive(r) ==> toR' == toR
    requires Alive(s) ==> toS' == toS
    ensures Lane(s, r, toR', toS', up)
  {
  }

  ghost predicate Pair(cfg: Config, x: Endpoint, y: Endpoint, xy: set<Payload>, yx: set<Payload>,
                       toY: seq<Payload>, toX: seq<Payload>, upX: bool, upY: bool)
  {
    && Inv(cfg, x) && Inv(cfg, y)
    && Direction(cfg, x, y, xy, yx) && Direction(cfg, y, x, yx, xy)
    && (forall p :: p in toY ==> p in xy)
    && (forall p :: p in toX ==> p in yx)
    && Lane(x, y, Stream(y, toY), Stream(x, toX), upX)
    && Lane(y, x, Stream(x, toX), Stream(y, toY), upY)
  }

  lemma StreamExtends(x: Endpoint, link: seq<Payload>, more: seq<Payload>)
    ensures Stream(x, link) + more == Stream(x, link + more)
  {
    assert Payloads(x.inbound) + link + more == Payloads(x.inbound) + (link + more);
  }

  lemma LocalLanes(cfg: Config, x: Endpoint, y: Endpoint, xy: set<Payload>, yx: set<Payload>,
                   toY: seq<Payload>, toX: seq<Payload>, upX: bool, upY: bool, step: Step)
    requires Pair(cfg, x, y, xy, yx, toY, toX, upX, upY) && LocalStep(x, step, upX) && !step.Dequeue?
    ensures var t := Apply(cfg, x, step);
      && Lane(t, y, Stream(y, toY + Sent(x, step)), Stream(t, toX), upX || step.Replay?)
      && Lane(y, t, Stream(t, toX), Stream(y, toY + Sent(x, step)), upY)
  {
    var t := Apply(cfg, x, step);
    StreamExtends(y, toY, Sent(x, step));
    InboundAfter(cfg, x, step, upX);
    ActsAsSender(cfg, x, y, Stream(y, toY), Stream(x, toX), upX, step);
    DeadStream(t, y, Stream(y, toY + Sent(x, step)), Stream(x, toX), Stream(y, toY + Sent(x, step)), Stream(t, toX),
               upX || step.Replay?);
    ReceiverActs(cfg, y, x, Stream(x, toX), Stream(y, toY), upY, step, upX);
    DeadStream(y, t, Stream(x, toX), Stream(y, toY + Sent(x, step)), Stream(t, toX), Stream(y, toY + Sent(x, step)),
               upY);
  }

  lemma ConsumeAsSender(cfg: Config, x: Endpoint, y: Endpoint, yx: set<Payload>, toY: seq<Payload>, toX: seq<Payload>,
                        toX0: seq<Payload>, upX: bool, c: Candidate)
    requires Inv(cfg, x) && Alive(x) && x.call.Idle? && AcksEarned(y, yx) && x.lastAcked <= |y.delivered|
    requires c.Own? && c.payload in yx && forall l :: l in toX ==> l == c.payload || l in Stream(x, toX0)
    requires Lane(x, y, Stream(y, toY), toX, upX)
    ensures var t := Process(cfg, x, c, x.clock);
      Lane(t, y, Stream(y, toY), Stream(t, toX0), upX)
  {
    hide Lane, Process, Inv;
    var t := Process(cfg, x, c, x.clock);
    SenderConsumes(cfg, x, y, Stream(y, toY), toX, Stream(x, toX0), upX, c);
    if Alive(t) {
      ProcessKeepsInbound(cfg, x, c);
    }
    DeadStream(t, y, Stream(y, toY), Stream(x, toX0), Stream(y, toY), Stream(t, toX0), upX);
  }

  lemma ConsumeAsReceiver(cfg: Config, x: Endpoint, y: Endpoint, xy: set<Payload>, yx: set<Payload>, toY: seq<Payload>,
                          toX: seq<Payload>, toX0: seq<Payload>, ahead: seq<Payload>, behind: seq<Payload>,
                          upY: bool, c: Candidate)
    requires Inv(cfg, x) && Inv(cfg, y) && Alive(x) && x.call.Idle?
    requires Direction(cfg, y, x, yx, xy) && Direction(cfg, x, y, xy, yx)
    requires c.Own? && c.payload in yx && Takes(toX, Stream(x, toX0), ahead, c.payload, behind)
    requires Lane(y, x, toX, Stream(y, toY), upY)
    ensures var t := Process(cfg, x, c, x.clock);
      Lane(y, t, Stream(t, toX0), Stream(y, toY), upY) && Consumed(cfg, x, c.payload, t)
  {
    hide Lane, Process, Inv, Consumed, Direction, Takes;
    var t := Process(cfg, x, c, x.clock);
    ReceiverConsumes(cfg, y, x, yx, xy, toX, Stream(y, toY), Stream(x, toX0), ahead, behind, upY, c);
    if Alive(t) {
      ProcessKeepsInbound(cfg, x, c);
    }
    DeadStream(y, t, Stream(x, toX0), Stream(y, toY), Stream(t, toX0), Stream(y, toY), upY);
  }

  lemma SameLanes(x: Endpoint, x0: Endpoint, y: Endpoint, toY: seq<Payload>, toX: seq<Payload>, upX: bool, upY: bool)
    requires x0 == x.(clock := x0.clock, inbound := x0.inbound, seen := x0.seen)
    requires Lane(x, y, toY, toX, upX) && Lane(y, x, toX, toY, upY)
    ensures Lane(x0, y, toY, toX, upX) && Lane(y, x0, toX, toY, upY)
  {
    assert NextSeq(x0) == NextSeq(x);
  }

  /** x takes in a payload on its way: the oldest one, or the first one on the link past what is deferred. */
  lemma ConsumeLanes(cfg: Config, x: Endpoint, y: Endpoint, xy: set<Payload>, yx: set<Payload>,
                     toY: seq<Payload>, toX: seq<Payload>, upX: bool, upY: bool, x0: Endpoint, toX0: seq<Payload>,
                     ahead: seq<Payload>, behind: seq<Payload>, c: Candidate)
    requires Pair(cfg, x, y, xy, yx, toY, toX, upX, upY) && Alive(x) && x.call.Idle?
    requires x0 == x.(clock := x0.clock, inbound := x0.inbound, seen := x0.seen) && x.clock <= x0.clock
    requires (forall d :: d in x0.inbound ==> d in x.inbound)
    requires c.Own? && c.payload in yx && Takes(Stream(x, toX), Stream(x0, toX0), ahead, c.payload, behind)
    ensures var t := Process(cfg, x0, c, x0.clock);
      && Lane(t, y, Stream(y, toY), Stream(t, toX0), upX)
      && Lane(y, t, Stream(t, toX0), Stream(y, toY), upY)
      && Consumed(cfg, x0, c.payload, t)
  {
    hide Lane, Process, Consumed, Takes, Inv;
    ClockAndInbound(cfg, y, x, x0, yx, xy);
    SameLanes(x, x0, y, Stream(y, toY), Stream(x, toX), upX, upY);
    TakesIsMembership(Stream(x, toX), Stream(x0, toX0), ahead, c.payload, behind);
    ConsumeAsSender(cfg, x0, y, yx, toY, Stream(x, toX), toX0, upX, c);
    ConsumeAsReceiver(cfg, x0, y, xy, yx, toY, Stream(x, toX), toX0, ahead, behind, upY, c);
  }

  lemma ProcessKeepsInbound(cfg: Config, x: Endpoint, c: Candidate)
    requires Alive(Process(cfg, x, c, x.clock))
    ensures Process(cfg, x, c, x.clock).inbound == x.inbound
  {
  }

  // ---------- Whole runs ----------

  lemma SentIsEmitted(x: Endpoint, step: Step)
    ensures forall p :: p in Sent(x, step) <==> p in Emitted(x, step)
  {
  }

  /** The oldest payload on its way is never behind a hole. */
  lemma OldestIsNotBeyond(cfg: Config, x: Endpoint, y: Endpoint, xy: set<Payload>, yx: set<Payload>,
                          toY: seq<Payload>, toX: seq<Payload>, upX: bool, upY: bool, l: Payload)
    requires Pair(cfg, x, y, xy, yx, toY, toX, upX, upY) && Alive(x) && l in yx
    requires Stream(x, toX) != [] && Stream(x, toX)[0] == l
    ensures l.Data? ==> !Beyond(x, l.frame)
  {
    hide Beyond, StandsAt, After, Owing, LiveInv;
    if l.Data? {
      BeyondIsPosition(cfg, y, x, l.frame);
    }
  }

  /** x took in the oldest deferred payload. */
  ghost predicate LanesAfterDequeue(cfg: Config, x: Endpoint, y: Endpoint, yx: set<Payload>, toY: seq<Payload>,
                                    toX: seq<Payload>, upX: bool, upY: bool, now: int)
    requires Enabled(x, Dequeue(now))
  {
    var t := Apply(cfg, x, Dequeue(now));
    var c := x.inbound[0];
    && Lane(t, y, Stream(y, toY), Stream(t, toX), upX)
    && Lane(y, t, Stream(t, toX), Stream(y, toY), upY)
    && c.Own? && c.payload in yx
    && Consumed(cfg, x.(clock := now, inbound := x.inbound[1..], seen := x.seen + [c]), c.payload, t)
    && (c.payload.Data? ==> !Beyond(x, c.payload.frame))
  }

  lemma DequeueIsProcess(cfg: Config, x: Endpoint, now: int)
    requires Enabled(x, Dequeue(now))
    ensures Apply(cfg, x, Dequeue(now))
      == Process(cfg, x.(clock := now, inbound := x.inbound[1..], seen := x.seen + [x.inbound[0]]), x.inbound[0], now)
  {
  }

  lemma DeferredIsKnown(cfg: Config, x: Endpoint, y: Endpoint, xy: set<Payload>, yx: set<Payload>,
                        toY: seq<Payload>, toX: seq<Payload>, upX: bool, upY: bool)
    requires Pair(cfg, x, y, xy, yx, toY, toX, upX, upY) && x.inbound != []
    ensures x.inbound[0].Own? && x.inbound[0].payload in yx
  {
    hide Inv, Lane, Follows, FramesAuthentic, AcksEarned;
    assert x.inbound[0] in x.inbound;
  }

  lemma DequeueLanes(cfg: Config, x: Endpoint, y: Endpoint, xy: set<Payload>, yx: set<Payload>,
                     toY: seq<Payload>, toX: seq<Payload>, upX: bool, upY: bool, now: int)
    requires Pair(cfg, x, y, xy, yx, toY, toX, upX, upY) && Enabled(x, Dequeue(now))
    ensures LanesAfterDequeue(cfg, x, y, yx, toY, toX, upX, upY, now)
  {
    hide Apply, Process, Pair, Lane, Beyond, Consumed, Stream, Takes, Payloads;
    var c := x.inbound[0];
    DeferredIsKnown(cfg, x, y, xy, yx, toY, toX, upX, upY);
    var x0 := x.(clock := now, inbound := x.inbound[1..], seen := x.seen + [c]);
    StreamHead(x, toX, c, now);
    HeadIsTaken(Stream(x, toX), c.payload, Stream(x0, toX));
    ConsumeLanes(cfg, x, y, xy, yx, toY, toX, upX, upY, x0, toX, [], Stream(x0, toX), c);
    OldestIsNotBeyond(cfg, x, y, xy, yx, toY, toX, upX, upY, c.payload);
    DequeueIsProcess(cfg, x, now);
  }

  lemma HeadIsTaken(stream: seq<Payload>, l: Payload, rest: seq<Payload>)
    requires stream == [l] + rest
    ensures Takes(stream, rest, [], l, rest)
  {
  }

  lemma NothingIsSent(x: Endpoint, step: Step, link: seq<Payload>)
    requires step.Dequeue?
    ensures link + Sent(x, step) == link
  {
  }

  lemma LocalKeepsPair(cfg: Config, x: Endpoint, y: Endpoint, xy: set<Payload>, yx: set<Payload>,
                       toY: seq<Payload>, toX: seq<Payload>, upX: bool, upY: bool, step: Step)
    requires ValidLimits(cfg) && Pair(cfg, x, y, xy, yx, toY, toX, upX, upY) && LocalStep(x, step, upX)
    ensures Pair(cfg, Apply(cfg, x, step), y, xy + Emitted(x, step), yx, toY + Sent(x, step), toX, upX || step.Replay?, upY)
  {
    hide Apply, Sent, Emitted, LiveInv, History, Direction, Smooth, After, Lane;
    StepKeeps(cfg, x, step);
    StepAsSender(cfg, x, y, xy, yx, step);
    StepAsReceiver(cfg, y, x, yx, xy, step);
    SentIsEmitted(x, step);
    if step.Dequeue? {
      DequeueLanes(cfg, x, y, xy, yx, toY, toX, upX, upY, step.now);
      NothingIsSent(x, step, toY);
    } else {
      LocalLanes(cfg, x, y, xy, yx, toY, toX, upX, upY, step);
    }
  }

  lemma LinkHead(x: Endpoint, x0: Endpoint, link: seq<Payload>)
    requires link != [] && x0.inbound == x.inbound
    ensures Takes(Stream(x, link), Stream(x0, link[1..]), Payloads(x.inbound), link[0], link[1..])
  {
  }

  lemma HeadIsKnown(cfg: Config, x: Endpoint, y: Endpoint, xy: set<Payload>, yx: set<Payload>,
                    toY: seq<Payload>, toX: seq<Payload>, upX: bool, upY: bool)
    requires Pair(cfg, x, y, xy, yx, toY, toX, upX, upY) && toX != []
    ensures toX[0] in yx
  {
    hide Inv, Direction, Lane;
    assert toX[0] in toX;
  }

  /** x took in the first payload on the link. */
  ghost predicate LanesAfterReceive(cfg: Config, x: Endpoint, y: Endpoint, toY: seq<Payload>, toX: seq<Payload>,
                                    upX: bool, upY: bool, now: int)
    requires toX != [] && Enabled(x, Receive(Own(toX[0]), now))
  {
    var t := Apply(cfg, x, Receive(Own(toX[0]), now));
    && Lane(t, y, Stream(y, toY), Stream(t, toX[1..]), upX)
    && Lane(y, t, Stream(t, toX[1..]), Stream(y, toY), upY)
    && Consumed(cfg, x.(clock := now, seen := x.seen + [Own(toX[0])]), toX[0], t)
  }

  lemma ReceiveLanes(cfg: Config, x: Endpoint, y: Endpoint, xy: set<Payload>, yx: set<Payload>,
                     toY: seq<Payload>, toX: seq<Payload>, upX: bool, upY: bool, now: int)
    requires Pair(cfg, x, y, xy, yx, toY, toX, upX, upY)
    requires toX != [] && Enabled(x, Receive(Own(toX[0]), now))
    ensures LanesAfterReceive(cfg, x, y, toY, toX, upX, upY, now)
  {
    hide Apply, Process, Inv, Direction, Lane, Takes, Consumed, Stream, Payloads, Pair;
    HeadIsKnown(cfg, x, y, xy, yx, toY, toX, upX, upY);
    var x0 := x.(clock := now, seen := x.seen + [Own(toX[0])]);
    LinkHead(x, x0, toX);
    ConsumeLanes(cfg, x, y, xy, yx, toY, toX, upX, upY, x0, toX[1..], Payloads(x.inbound), toX[1..], Own(toX[0]));
    ReceiveIsProcess(cfg, x, Own(toX[0]), now);
  }

  lemma ReceiveIsProcess(cfg: Config, x: Endpoint, c: Candidate, now: int)
    requires Enabled(x, Receive(c, now))
    ensures Apply(cfg, x, Receive(c, now)) == Process(cfg, x.(clock := now, seen := x.seen + [c]), c, now)
  {
  }

  lemma DeferLanes(cfg: Config, x: Endpoint, y: Endpoint, toY: seq<Payload>, toX: seq<Payload>, upX: bool, upY: bool)
    requires Lane(x, y, Stream(y, toY), Stream(x, toX), upX) && Lane(y, x, Stream(x, toX), Stream(y, toY), upY)
    requires toX != [] && Alive(x) && !x.call.Idle?
    ensures var t := Apply(cfg, x, Defer(Own(toX[0])));
      && Alive(t) && Lane(t, y, Stream(y, toY), Stream(t, toX[1..]), upX)
      && Lane(y, t, Stream(t, toX[1..]), Stream(y, toY), upY)
  {
    hide Lane, Stream, Process, Reserve, EndCall;
    StreamDefer(x, toX);
    SameLanes(x, x.(inbound := x.inbound + [Own(toX[0])]), y, Stream(y, toY), Stream(x, toX), upX, upY);
  }

  lemma DeliveryKeepsPair(cfg: Config, x: Endpoint, y: Endpoint, xy: set<Payload>, yx: set<Payload>,
                          toY: seq<Payload>, toX: seq<Payload>, upX: bool, upY: bool, now: int)
    requires ValidLimits(cfg) && Pair(cfg, x, y, xy, yx, toY, toX, upX, upY)
    requires toX != [] && Alive(x) && MayDeliver(x, now)
    ensures MayStep(x, Delivery(x, toX[0], now), yx)
    ensures var t := Apply(cfg, x, Delivery(x, toX[0], now));
      && Pair(cfg, t, y, xy + Emitted(x, Delivery(x, toX[0], now)), yx, toY, toX[1..], upX, upY)
      && if x.call.Idle? then Consumed(cfg, x.(clock := now, seen := x.seen + [Own(toX[0])]), toX[0], t) else Alive(t)
  {
    hide Apply, Process, Emitted, LiveInv, History, Direction, Lane, Consumed;
    assert toX[0] in toX;
    var step := Delivery(x, toX[0], now);
    StepKeeps(cfg, x, step);
    StepAsSender(cfg, x, y, xy, yx, step);
    StepAsReceiver(cfg, y, x, yx, xy, step);
    if x.call.Idle? {
      ReceiveLanes(cfg, x, y, xy, yx, toY, toX, upX, upY, now);
    } else {
      DeferLanes(cfg, x, y, toY, toX, upX, upY);
    }
  }

  lemma ReconnectKeepsPair(cfg: Config, x: Endpoint, y: Endpoint, xy: set<Payload>, yx: set<Payload>,
                           toY: seq<Payload>, toX: seq<Payload>, upX: bool, upY: bool)
    requires Pair(cfg, x, y, xy, yx, toY, toX, upX, upY)
    ensures Pair(cfg, x, y, xy, yx, [], [], false, false)
  {
    SmoothPrefix(Position(x, y), Payloads(y.inbound), toY);
    SmoothPrefix(Position(y, x), Payloads(x.inbound), toX);
    assert Stream(y, []) == Payloads(y.inbound) && Stream(x, []) == Payloads(x.inbound);
  }

  lemma {:induction false} SmoothPrefix(p: nat, prefix: seq<Payload>, rest: seq<Payload>)
    ensures Smooth(p, prefix + rest) ==> Smooth(p, prefix)
    decreases |prefix|
  {
    if prefix != [] {
      SmoothPrefix(Past(p, prefix[0]), prefix[1..], rest);
      assert (prefix + rest)[1..] == prefix[1..] + rest;
    }
  }

  ghost predicate FifoPair(cfg: Config, s: Fifo) {
    Pair(cfg, s.net.a, s.net.b, s.net.ab, s.net.ba, s.toB, s.toA, s.upA, s.upB)
  }

  lemma PairSwaps(cfg: Config, x: Endpoint, y: Endpoint, xy: set<Payload>, yx: set<Payload>,
                  toY: seq<Payload>, toX: seq<Payload>, upX: bool, upY: bool)
    requires Pair(cfg, x, y, xy, yx, toY, toX, upX, upY)
    ensures Pair(cfg, y, x, yx, xy, toX, toY, upY, upX)
  {
  }

  lemma FifoActKeeps(cfg: Config, s: Fifo, act: FifoAction)
    requires ValidLimits(cfg) && FifoPair(cfg, s) && CanFifo(s, act)
    ensures FifoPair(cfg, FifoAct(cfg, s, act))
  {
    hide Pair, Apply, Emitted, Sent, Enabled;
    PairSwaps(cfg, s.net.a, s.net.b, s.net.ab, s.net.ba, s.toB, s.toA, s.upA, s.upB);
    match act
    case LocalA(step) => LocalKeepsPair(cfg, s.net.a, s.net.b, s.net.ab, s.net.ba, s.toB, s.toA, s.upA, s.upB, step);
    case LocalB(step) =>
      LocalKeepsPair(cfg, s.net.b, s.net.a, s.net.ba, s.net.ab, s.toA, s.toB, s.upB, s.upA, step);
      var t := FifoAct(cfg, s, act);
      PairSwaps(cfg, t.net.b, t.net.a, t.net.ba, t.net.ab, t.toA, t.toB, t.upB, t.upA);
    case DeliverA(now) =>
      if Alive(s.net.a) {
        DeliveryKeepsPair(cfg, s.net.a, s.net.b, s.net.ab, s.net.ba, s.toB, s.toA, s.upA, s.upB, now);
      } else {
        DropKeepsPair(cfg, s.net.a, s.net.b, s.net.ab, s.net.ba, s.toB, s.toA, s.upA, s.upB);
      }
    case DeliverB(now) =>
      var t := FifoAct(cfg, s, act);
      if Alive(s.net.b) {
        DeliveryKeepsPair(cfg, s.net.b, s.net.a, s.net.ba, s.net.ab, s.toA, s.toB, s.upB, s.upA, now);
      } else {
        DropKeepsPair(cfg, s.net.b, s.net.a, s.net.ba, s.net.ab, s.toA, s.toB, s.upB, s.upA);
      }
      PairSwaps(cfg, t.net.b, t.net.a, t.net.ba, t.net.ab, t.toA, t.toB, t.upB, t.upA);
    case Reconnect => ReconnectKeepsPair(cfg, s.net.a, s.net.b, s.net.ab, s.net.ba, s.toB, s.toA, s.upA, s.upB);
  }

  lemma DropKeepsPair(cfg: Config, x: Endpoint, y: Endpoint, xy: set<Payload>, yx: set<Payload>,
                      toY: seq<Payload>, toX: seq<Payload>, upX: bool, upY: bool)
    requires Pair(cfg, x, y, xy, yx, toY, toX, upX, upY) && !Alive(x) && toX != []
    ensures Pair(cfg, x, y, xy, yx, toY, toX[1..], upX, upY)
  {
    DeadStream(x, y, Stream(y, toY), Stream(x, toX), Stream(y, toY), Stream(x, toX[1..]), upX);
    DeadStream(y, x, Stream(x, toX), Stream(y, toY), Stream(x, toX[1..]), Stream(y, toY), upY);
  }

  ghost predicate FifoRun(cfg: Config, s: Fifo, acts: seq<FifoAction>, t: Fifo)
    decreases |acts|
  {
    if acts == [] then s == t
    else CanFifo(s, acts[0]) && FifoRun(cfg, FifoAct(cfg, s, acts[0]), acts[1..], t)
  }

  function InitialFifo(clockA: int, clockB: int): Fifo {
    Fifo(InitialSystem(clockA, clockB), [], [], true, true)
  }

  ghost predicate ReachableFifo(cfg: Config, t: Fifo) {
    exists clockA: int, clockB: int, acts :: FifoRun(cfg, InitialFifo(clockA, clockB), acts, t)
  }

  lemma {:induction false} FifoRunKeeps(cfg: Config, s: Fifo, acts: seq<FifoAction>, t: Fifo)
    requires ValidLimits(cfg) && FifoPair(cfg, s) && FifoRun(cfg, s, acts, t)
    ensures FifoPair(cfg, t)
    decreases |acts|
  {
    if acts != [] {
      FifoActKeeps(cfg, s, acts[0]);
      FifoRunKeeps(cfg, FifoAct(cfg, s, acts[0]), acts[1..], t);
    }
  }

  lemma InitialLane(cfg: Config, clockA: int, clockB: int)
    ensures Direction(cfg, Initial(clockA), Initial(clockB), {}, {})
    ensures Lane(Initial(clockA), Initial(clockB), [], [], true)
  {
    assert StandsAt(cfg, [], FRESH_ASSEMBLER, 0, 0);
  }

  lemma InitialFifoPair(cfg: Config, clockA: int, clockB: int)
    ensures FifoPair(cfg, InitialFifo(clockA, clockB))
  {
    InitialInv(cfg, clockA);
    InitialInv(cfg, clockB);
    InitialLane(cfg, clockA, clockB);
    InitialLane(cfg, clockB, clockA);
    assert Stream(Initial(clockA), []) == [] && Stream(Initial(clockB), []) == [];
  }

  lemma ReachableFifoPair(cfg: Config, t: Fifo)
    requires ValidLimits(cfg) && ReachableFifo(cfg, t)
    ensures FifoPair(cfg, t)
  {
    var clockA: int, clockB: int, acts :| FifoRun(cfg, InitialFifo(clockA, clockB), acts, t);
    InitialFifoPair(cfg, clockA, clockB);
    FifoRunKeeps(cfg, InitialFifo(clockA, clockB), acts, t);
  }

  /** Over an ordered link that refuses at will and loses everything in flight at a reconnect, a payload degrades
      an endpoint in two cases only: the assembly outlived its timeout, or the payload is a frame that overtook the
      one it needs, which is still deferred. With nothing deferred the second is impossible. */
  lemma DeliveryFaultsWhen(cfg: Config, t: Fifo, now: int)
    requires ValidLimits(cfg) && ReachableFifo(cfg, t)
    ensures CanFifo(t, DeliverA(now)) && Alive(t.net.a) ==>
      var u := FifoAct(cfg, t, DeliverA(now)).net.a;
      && (if t.net.a.call.Idle? then Reached(cfg, t.net.a, t.toA[0], now, u) else Alive(u))
      && (t.net.a.inbound == [] && t.toA[0].Data? ==> !Beyond(t.net.a, t.toA[0].frame))
    ensures CanFifo(t, DeliverB(now)) && Alive(t.net.b) ==>
      var u := FifoAct(cfg, t, DeliverB(now)).net.b;
      && (if t.net.b.call.Idle? then Reached(cfg, t.net.b, t.toB[0], now, u) else Alive(u))
      && (t.net.b.inbound == [] && t.toB[0].Data? ==> !Beyond(t.net.b, t.toB[0].frame))
  {
    hide Pair, Apply, Reached, Beyond, Enabled;
    ReachableFifoPair(cfg, t);
    PairSwaps(cfg, t.net.a, t.net.b, t.net.ab, t.net.ba, t.toB, t.toA, t.upA, t.upB);
    if CanFifo(t, DeliverA(now)) && Alive(t.net.a) {
      DeliveryReaches(cfg, t.net.a, t.net.b, t.net.ab, t.net.ba, t.toB, t.toA, t.upA, t.upB, now);
    }
    if CanFifo(t, DeliverB(now)) && Alive(t.net.b) {
      DeliveryReaches(cfg, t.net.b, t.net.a, t.net.ba, t.net.ab, t.toA, t.toB, t.upB, t.upA, now);
    }
  }

  lemma DeliveryReaches(cfg: Config, x: Endpoint, y: Endpoint, xy: set<Payload>, yx: set<Payload>,
                        toY: seq<Payload>, toX: seq<Payload>, upX: bool, upY: bool, now: int)
    requires ValidLimits(cfg) && Pair(cfg, x, y, xy, yx, toY, toX, upX, upY)
    requires toX != [] && Alive(x) && MayDeliver(x, now)
    ensures MayStep(x, Delivery(x, toX[0], now), yx)
    ensures var u := Apply(cfg, x, Delivery(x, toX[0], now));
      if x.call.Idle? then Reached(cfg, x, toX[0], now, u) else Alive(u)
    ensures x.inbound == [] && toX[0].Data? ==> !Beyond(x, toX[0].frame)
  {
    hide Consumed, Reached, Apply, Lane, LiveInv, Beyond, StandsAt;
    assert toX[0] in toX;
    DeliveryKeepsPair(cfg, x, y, xy, yx, toY, toX, upX, upY, now);
    if x.call.Idle? {
      ConsumedIsReached(cfg, x, x.(clock := now, seen := x.seen + [Own(toX[0])]), toX[0],
                        Apply(cfg, x, Delivery(x, toX[0], now)));
    }
    if x.inbound == [] {
      assert Stream(x, toX) == toX;
      OldestIsNotBeyond(cfg, x, y, xy, yx, toY, toX, upX, upY, toX[0]);
    }
  }

  /** A deferred payload degrades an endpoint exactly if it is a frame for an assembly that outlived its timeout. */
  lemma DeferredFaultsWhen(cfg: Config, t: Fifo, now: int)
    requires ValidLimits(cfg) && ReachableFifo(cfg, t)
    ensures CanFifo(t, LocalA(Dequeue(now))) ==>
      t.net.a.inbound[0].Own? && DrainsTo(cfg, t.net.a, now, FifoAct(cfg, t, LocalA(Dequeue(now))).net.a)
    ensures CanFifo(t, LocalB(Dequeue(now))) ==>
      t.net.b.inbound[0].Own? && DrainsTo(cfg, t.net.b, now, FifoAct(cfg, t, LocalB(Dequeue(now))).net.b)
  {
    hide Pair, Apply, DrainsTo;
    ReachableFifoPair(cfg, t);
    PairSwaps(cfg, t.net.a, t.net.b, t.net.ab, t.net.ba, t.toB, t.toA, t.upA, t.upB);
    if CanFifo(t, LocalA(Dequeue(now))) {
      DequeueReaches(cfg, t.net.a, t.net.b, t.net.ab, t.net.ba, t.toB, t.toA, t.upA, t.upB, now);
    }
    if CanFifo(t, LocalB(Dequeue(now))) {
      DequeueReaches(cfg, t.net.b, t.net.a, t.net.ba, t.net.ab, t.toA, t.toB, t.upB, t.upA, now);
    }
  }

  predicate DrainsTo(cfg: Config, x: Endpoint, now: int, u: Endpoint)
    requires x.inbound != [] && x.inbound[0].Own?
  {
    && (!Alive(u) <==> x.inbound[0].payload.Data? && x.assembler.Some? && Expired(cfg, x.assembler.value, now))
    && (!Alive(u) ==> u.notes == x.notes + [Degraded(AssemblyTimeout)])
  }

  lemma DequeueReaches(cfg: Config, x: Endpoint, y: Endpoint, xy: set<Payload>, yx: set<Payload>,
                       toY: seq<Payload>, toX: seq<Payload>, upX: bool, upY: bool, now: int)
    requires Pair(cfg, x, y, xy, yx, toY, toX, upX, upY) && Enabled(x, Dequeue(now))
    ensures x.inbound[0].Own? && DrainsTo(cfg, x, now, Apply(cfg, x, Dequeue(now)))
  {
    hide Consumed, Apply, Lane, LiveInv, Beyond, StandsAt;
    DequeueLanes(cfg, x, y, xy, yx, toY, toX, upX, upY, now);
    var c := x.inbound[0];
    ConsumedIsReached(cfg, x, x.(clock := now, inbound := x.inbound[1..], seen := x.seen + [c]), c.payload,
                      Apply(cfg, x, Dequeue(now)));
  }

  /** Nothing is left to do on either side and nothing is in flight. */
  predicate Quiet(x: Endpoint) {
    Alive(x) && x.call.Idle? && x.inbound == [] && x.owed == [] && x.pendingAck.None? && x.cursor == |x.queue|
  }

  predicate Quiescent(s: Fifo) {
    Quiet(s.net.a) && Quiet(s.net.b) && s.toA == [] && s.toB == [] && s.upA && s.upB
  }

  lemma PositionBehindEnd(cfg: Config, s: Endpoint, r: Endpoint)
    requires History(cfg, s.messages, s.hist) && Follows(cfg, s, r) && Alive(r) && |r.delivered| < |s.hist|
    ensures Position(s, r) < Start(s.hist, |s.hist|)
  {
    assert BatchOf(cfg, s.messages, s.hist, |r.delivered|);
    StartMonotone(s.hist, |r.delivered|, |s.hist|);
  }

  lemma QuietLaneIsDone(cfg: Config, s: Endpoint, r: Endpoint, sr: set<Payload>, rs: set<Payload>)
    requires Inv(cfg, s) && Inv(cfg, r) && Quiet(s) && Quiet(r) && Direction(cfg, s, r, sr, rs)
    requires Lane(s, r, [], [], true)
    ensures r.delivered == s.messages && s.lastAcked == |s.messages| && s.queue == [] && s.unacknowledged == 0
      && !s.saturated
  {
    var d := |r.delivered|;
    assert NextSeq(s) == Start(s.hist, |s.hist|) + 1;
    StartMonotone(s.hist, d, |s.hist|);
    assert Position(s, r) >= Start(s.hist, |s.hist|);
    if d < |s.hist| {
      PositionBehindEnd(cfg, s, r);
      assert false;
    }
    assert s.messages[..d] == s.messages;
  }

  /** Reliable delivery: in every reachable state with both endpoints alive and nothing left to do,
      whatever was refused, lost and replayed on the way, each side has delivered everything the other
      reserved and every message is acknowledged, so no byte is held back and no side is saturated. */
  lemma QuiescentIsComplete(cfg: Config, t: Fifo)
    requires ValidLimits(cfg) && ReachableFifo(cfg, t) && Quiescent(t)
    ensures t.net.b.delivered == t.net.a.messages && t.net.a.delivered == t.net.b.messages
    ensures t.net.a.lastAcked == |t.net.a.messages| && t.net.b.lastAcked == |t.net.b.messages|
    ensures t.net.a.queue == [] && t.net.b.queue == []
    ensures t.net.a.unacknowledged == 0 && t.net.b.unacknowledged == 0 && !t.net.a.saturated && !t.net.b.saturated
  {
    ReachableFifoPair(cfg, t);
    assert Stream(t.net.a, t.toA) == [] && Stream(t.net.b, t.toB) == [];
    QuietLaneIsDone(cfg, t.net.a, t.net.b, t.net.ab, t.net.ba);
    QuietLaneIsDone(cfg, t.net.b, t.net.a, t.net.ba, t.net.ab);
  }

}
