/** Runs of two endpoints over an ordered link, step by step: that all can become quiet with messages delivered,
    and that a transport may hand a frame over so early that it is a gap. */
module RelayRuns {
  import opened Wrappers
  import opened RelayTypes
  import opened RelayTransport
  import opened RelayEndpoint
  import opened RelaySender
  import opened RelaySystem
  import opened RelayFifo

  function Small(): Config {
    Config(b => 0, f => 1, f => 1, 1024, 256, 4096, 45000, 30000)
  }

  /** The only frame of a message of one byte. */
  function One(seqNo: nat, messageSeq: nat, x: byte): Frame {
    Frame(seqNo, messageSeq, 0, 1, 1, 0, [x])
  }

  lemma OneBytePlan(x: byte, first: nat, messageSeq: nat)
    requires 1 <= first <= MAX_SAFE && 1 <= messageSeq <= MAX_SAFE
    ensures Plan(Small(), [x], first, messageSeq, 1) == Ok((1, 1))
  {
    assert DecodedBudget(1, 1) == 1;
    assert CeilDiv(1, 1) == 1;
  }

  lemma OneByteFrame(x: byte, first: nat, messageSeq: nat)
    requires 1 <= first <= MAX_SAFE && 1 <= messageSeq <= MAX_SAFE
    ensures FrameAt(Small(), [x], first, messageSeq, 1, 1, 0) == One(first, messageSeq, x)
    ensures Sendable(Small(), One(first, messageSeq, x))
  {
    assert [x][0..1] == [x];
  }

  lemma OneByteEncodes(x: byte, first: nat, messageSeq: nat)
    requires 1 <= first <= MAX_SAFE && 1 <= messageSeq <= MAX_SAFE
    ensures Encode(Small(), [x], first, messageSeq) == Ok([One(first, messageSeq, x)])
    ensures Measure(Small(), [One(first, messageSeq, x)]) == Some(1)
  {
    hide Plan, FrameAt, Sendable;
    OneBytePlan(x, first, messageSeq);
    OneByteFrame(x, first, messageSeq);
    var frames := seq(1, k requires 0 <= k < 1 => FrameAt(Small(), [x], first, messageSeq, 1, 1, k));
    assert frames == [One(first, messageSeq, x)];
    assert [One(first, messageSeq, x)][..0] == [];
  }

  lemma {:induction false} FifoRunSnoc(cfg: Config, s: Fifo, acts: seq<FifoAction>, t: Fifo, act: FifoAction)
    requires FifoRun(cfg, s, acts, t) && CanFifo(t, act)
    ensures FifoRun(cfg, s, acts + [act], FifoAct(cfg, t, act))
    decreases |acts|
  {
    if acts == [] {
      assert FifoRun(cfg, FifoAct(cfg, t, act), [], FifoAct(cfg, t, act));
      assert (acts + [act])[1..] == [];
    } else {
      FifoRunSnoc(cfg, FifoAct(cfg, s, acts[0]), acts[1..], t, act);
      assert (acts + [act])[1..] == acts[1..] + [act];
    }
  }

  lemma FifoNext(cfg: Config, t: Fifo, act: FifoAction)
    requires ReachableFifo(cfg, t) && CanFifo(t, act)
    ensures ReachableFifo(cfg, FifoAct(cfg, t, act))
  {
    var clockA: int, clockB: int, acts :| FifoRun(cfg, InitialFifo(clockA, clockB), acts, t);
    FifoRunSnoc(cfg, InitialFifo(clockA, clockB), acts, t, act);
  }

  /** An endpoint with nothing to send and room for more. */
  predicate Free(x: Endpoint) {
    && Alive(x) && x.call.Idle? && x.pendingAck.None? && x.cursor == |x.queue| && x.unacknowledged == |x.queue| <= |x.messages|
    && x.nextPhysicalSeq == x.nextMessageSeq == |x.messages| + 1 && |x.messages| <= 60 && x.inbound == [] && x.owed == []
    && x.clock == 0 && !x.saturated
  }

  /** A free endpoint after it reserved a message of one byte. */
  function WithByte(e: Endpoint, x: byte): Endpoint {
    var f := One(e.nextPhysicalSeq, e.nextMessageSeq, x);
    e.(queue := e.queue + [Batch(e.nextMessageSeq, [f], 1, 0, 0)], unacknowledged := e.unacknowledged + 1,
       nextMessageSeq := e.nextMessageSeq + 1, nextPhysicalSeq := e.nextPhysicalSeq + 1,
       messages := e.messages + [[x]], hist := e.hist + [[f]])
  }

  /** And after the link took its frame. */
  function ByteSent(e: Endpoint, x: byte): Endpoint {
    var f := One(e.nextPhysicalSeq, e.nextMessageSeq, x);
    WithByte(e, x).(queue := e.queue + [Batch(e.nextMessageSeq, [f], 1, 0, 1)], cursor := e.cursor + 1,
                    highestFullySent := Max(e.highestFullySent, e.nextMessageSeq),
                    maxWired := Max(e.maxWired, e.nextPhysicalSeq), lastSent := e.nextPhysicalSeq)
  }

  lemma ReservesByte(e: Endpoint, x: byte)
    requires Free(e)
    ensures Apply(Small(), e, ReserveStep([x], 0)) == WithByte(e, x)
  {
    hide Encode, Measure, Process;
    OneByteEncodes(x, e.nextPhysicalSeq, e.nextMessageSeq);
  }

  lemma SendsByte(e: Endpoint, x: byte)
    requires Free(e)
    ensures var w := WithByte(e, x);
      && Enabled(w, BeginFrame(true))
      && Sent(w, BeginFrame(true)) == [Data(One(e.nextPhysicalSeq, e.nextMessageSeq, x))]
      && Emitted(w, BeginFrame(true)) == {Data(One(e.nextPhysicalSeq, e.nextMessageSeq, x))}
      && !Apply(Small(), w, BeginFrame(true)).call.Idle?
      && Apply(Small(), Apply(Small(), w, BeginFrame(true)), EndSend) == ByteSent(e, x)
  {
    hide Encode, Measure, Process;
    var w := WithByte(e, x);
    assert w.queue[w.cursor] == Batch(e.nextMessageSeq, [One(e.nextPhysicalSeq, e.nextMessageSeq, x)], 1, 0, 0);
    assert EndCall(Apply(Small(), w, BeginFrame(true))).queue == ByteSent(e, x).queue;
  }

  /** b reserves a message of one byte and the link takes its frame. */
  lemma SendByte(t: Fifo, x: byte) returns (u: Fifo)
    requires ReachableFifo(Small(), t) && Free(t.net.b) && |t.net.b.messages| < 60 && t.upB
    ensures ReachableFifo(Small(), u) && u.net.b == ByteSent(t.net.b, x) && Free(u.net.b)
    ensures var d := Data(One(t.net.b.nextPhysicalSeq, t.net.b.nextMessageSeq, x));
      u == t.(net := t.net.(b := u.net.b, ba := t.net.ba + {d}), toA := t.toA + [d])
  {
    hide ReachableFifo, Apply;
    ReservesByte(t.net.b, x);
    SendsByte(t.net.b, x);
    FifoNext(Small(), t, LocalB(ReserveStep([x], 0)));
    var s1 := FifoAct(Small(), t, LocalB(ReserveStep([x], 0)));
    assert s1 == t.(net := t.net.(b := WithByte(t.net.b, x)));
    FifoNext(Small(), s1, LocalB(BeginFrame(true)));
    var s2 := FifoAct(Small(), s1, LocalB(BeginFrame(true)));
    FifoNext(Small(), s2, LocalB(EndSend));
    u := FifoAct(Small(), s2, LocalB(EndSend));
  }

  /** The assembler takes in the next message of one byte. */
  lemma AcceptsByte(a: Assembler, p: nat, m: nat, x: byte)
    requires a.active.None? && a.expectedPhysicalSeq == p < MAX_SAFE && a.expectedMessageSeq == m < MAX_SAFE && p !in a.settled
    requires !a.physicalExhausted && !a.messageExhausted
    ensures var (b, e) := Accept(Small(), a, One(p, m, x), 0);
      && e == Complete(m, [x]) && b.active.None? && b.expectedPhysicalSeq == p + 1 && b.expectedMessageSeq == m + 1
      && !b.physicalExhausted && !b.messageExhausted
  {
    var staged := StagedWith(Small(), OpenFor(a, One(p, m, x), 0), One(p, m, x));
    assert staged.fragments == [[x]] && [[x]][..0] == [];
    assert JoinedBytes([[x]]) == [x];
  }

  lemma TakesByteIn(r: Endpoint, p: nat, m: nat, x: byte)
    requires Alive(r) && r.assembler.Some? && r.clock == 0
    requires var a := r.assembler.value;
      (a.active.None? && a.expectedPhysicalSeq == p && a.expectedMessageSeq == m
       && p !in a.settled && !a.physicalExhausted && !a.messageExhausted)
    requires 1 <= p < 100 && 1 <= m < 100
    ensures var t := Process(Small(), r, Own(Data(One(p, m, x))), 0);
      && t.assembler.Some? && t.assembler.value.active.None? && t.assembler.value.expectedPhysicalSeq == p + 1
      && !t.assembler.value.physicalExhausted
      && t == r.(assembler := t.assembler, delivered := r.delivered + [[x]], owed := r.owed + [m],
                 notes := r.notes + [Delivered([x])])
  {
    hide Accept;
    AcceptsByte(r.assembler.value, p, m, x);
  }

  /** A message of one byte travels to a and its ACK back to b: then all is quiet, and everything is delivered. */
  lemma OneMessageCompletes(x: byte) returns (u: Fifo)
    ensures ReachableFifo(Small(), u) && Quiescent(u)
    ensures u.net.b.messages == [[x]] && u.net.a.delivered == [[x]] && u.net.b.lastAcked == 1
  {
    hide ReachableFifo, Apply;
    var s0 := InitialFifo(0, 0);
    Starts();
    var s1 := SendByte(s0, x);
    DeliverByte(s1.net.a, x);
    FifoNext(Small(), s1, DeliverA(0));
    var s2 := FifoAct(Small(), s1, DeliverA(0));
    AnswersByte(s2.net.a);
    FifoNext(Small(), s2, LocalA(QueueAck(0)));
    var s3 := FifoAct(Small(), s2, LocalA(QueueAck(0)));
    FifoNext(Small(), s3, LocalA(BeginAck(true)));
    var s4 := FifoAct(Small(), s3, LocalA(BeginAck(true)));
    FifoNext(Small(), s4, LocalA(EndSend));
    var s5 := FifoAct(Small(), s4, LocalA(EndSend));
    assert s5.toB == [Ack(1)] && s5.net.b == s1.net.b;
    HearsAck(s0.net.b, x);
    FifoNext(Small(), s5, DeliverB(0));
    u := FifoAct(Small(), s5, DeliverB(0));
  }

  lemma Starts()
    ensures ReachableFifo(Small(), InitialFifo(0, 0)) && Free(Initial(0))
  {
    assert FifoRun(Small(), InitialFifo(0, 0), [], InitialFifo(0, 0));
  }

  lemma DeliverByte(r: Endpoint, x: byte)
    requires r == Initial(0)
    ensures Enabled(r, Receive(Own(Data(One(1, 1, x))), 0))
    ensures var t := Apply(Small(), r, Receive(Own(Data(One(1, 1, x))), 0));
      t == r.(assembler := t.assembler, delivered := [[x]], owed := [1], notes := [Delivered([x])],
              seen := [Own(Data(One(1, 1, x)))])
  {
    TakesByteIn(r.(seen := r.seen + [Own(Data(One(1, 1, x)))]), 1, 1, x);
  }

  lemma AnswersByte(r: Endpoint)
    requires Alive(r) && r.call.Idle? && r.clock == 0 && r.owed == [1] && r.pendingAck.None?
    ensures Enabled(r, QueueAck(0))
    ensures var t := Apply(Small(), r, QueueAck(0));
      && t == r.(owed := [], pendingAck := Some(PendingAck(1, 0))) && Enabled(t, BeginAck(true))
      && Sent(t, BeginAck(true)) == [Ack(1)] && Emitted(t, BeginAck(true)) == {Ack(1)}
      && Enabled(Apply(Small(), t, BeginAck(true)), EndSend)
      && Apply(Small(), Apply(Small(), t, BeginAck(true)), EndSend) == r.(owed := [])
  {
  }

  lemma HearsAck(e: Endpoint, x: byte)
    requires e == Initial(0)
    ensures var s := ByteSent(e, x);
      && Enabled(s, Receive(Own(Ack(1)), 0))
      && var t := Apply(Small(), s, Receive(Own(Ack(1)), 0)); Quiet(t) && t.messages == [[x]] && t.lastAcked == 1
  {
    var s := ByteSent(e, x);
    assert ReleaseCount(s.queue, 1) == 1;
    assert s.queue[..1] == s.queue && OuterBytes(s.queue) == 1;
  }

  /** Three messages are on the link to a, and a is inside a sendFrame call that is refused. */
  lemma ThreeOnTheLink(x: byte) returns (t: Fifo)
    ensures ReachableFifo(Small(), t) && t.toA == [Data(One(1, 1, x)), Data(One(2, 2, x)), Data(One(3, 3, x))]
    ensures t.net.a == WithByte(Initial(0), x).(call := FrameCall(false))
    ensures forall p :: p in t.toA ==> p in t.net.ba
  {
    hide ReachableFifo, Apply;
    Starts();
    var s1 := SendByte(InitialFifo(0, 0), x);
    var s2 := SendByte(s1, x);
    var s3 := SendByte(s2, x);
    BeginsRefusedCall(x);
    FifoNext(Small(), s3, LocalA(ReserveStep([x], 0)));
    var s4 := FifoAct(Small(), s3, LocalA(ReserveStep([x], 0)));
    FifoNext(Small(), s4, LocalA(BeginFrame(false)));
    t := FifoAct(Small(), s4, LocalA(BeginFrame(false)));
  }

  /** The first two are deferred; after the call the first is taken in, and its listener lets the transport hand over
      the third. */
  lemma OvertakingIsAGap(x: byte) returns (t: Fifo)
    ensures ReachableFifo(Small(), t) && CanFifo(t, DeliverA(0)) && Alive(t.net.a)
    ensures t.net.a.inbound == [Own(Data(One(2, 2, x)))] && t.toA == [Data(One(3, 3, x))]
    ensures Beyond(t.net.a, One(3, 3, x))
    ensures var u := FifoAct(Small(), t, DeliverA(0)).net.a;
      !Alive(u) && u.notes == [Delivered([x]), Degraded(PhysicalGap)]
  {
    hide ReachableFifo, Apply, WithByte, Initial;
    var f1, f2, f3 := Data(One(1, 1, x)), Data(One(2, 2, x)), Data(One(3, 3, x));
    var s5 := ThreeOnTheLink(x);
    CallIsOpen(x);
    Defers(s5.net.a, f1);
    FifoNext(Small(), s5, DeliverA(0));
    var s6 := FifoAct(Small(), s5, DeliverA(0));
    Defers(s6.net.a, f2);
    FifoNext(Small(), s6, DeliverA(0));
    var s7 := FifoAct(Small(), s6, DeliverA(0));
    assert s7.toA == [f3] && s7.net.a.inbound == [Own(f1), Own(f2)];
    RefusedCallEnds(s7.net.a);
    FifoNext(Small(), s7, LocalA(EndSend));
    var s8 := FifoAct(Small(), s7, LocalA(EndSend));
    DequeuesByte(s8.net.a, x, f2);
    FifoNext(Small(), s8, LocalA(Dequeue(0)));
    t := FifoAct(Small(), s8, LocalA(Dequeue(0)));
    DeliveryFaultsWhen(Small(), t, 0);
  }

  lemma CallIsOpen(x: byte)
    ensures var r := WithByte(Initial(0), x);
      (Alive(r) && r.clock == 0 && r.inbound == [] && r.notes == [] && r.assembler == Some(FRESH_ASSEMBLER))
  {
  }

  lemma BeginsRefusedCall(x: byte)
    ensures Enabled(Initial(0), ReserveStep([x], 0)) && Apply(Small(), Initial(0), ReserveStep([x], 0)) == WithByte(Initial(0), x)
    ensures var w := WithByte(Initial(0), x);
      Enabled(w, BeginFrame(false)) && Apply(Small(), w, BeginFrame(false)) == w.(call := FrameCall(false))
  {
    ReservesByte(Initial(0), x);
  }

  lemma Defers(r: Endpoint, p: Payload)
    requires Alive(r) && !r.call.Idle?
    ensures Enabled(r, Defer(Own(p))) && Apply(Small(), r, Defer(Own(p))) == r.(inbound := r.inbound + [Own(p)])
  {
  }

  lemma RefusedCallEnds(r: Endpoint)
    requires r.call == FrameCall(false)
    ensures Enabled(r, EndSend) && Apply(Small(), r, EndSend) == r.(call := Idle)
  {
  }

  lemma DequeuesByte(r: Endpoint, x: byte, p: Payload)
    requires Alive(r) && r.call.Idle? && r.clock == 0 && r.assembler == Some(FRESH_ASSEMBLER)
    requires r.inbound == [Own(Data(One(1, 1, x))), Own(p)] && r.notes == []
    ensures Enabled(r, Dequeue(0))
    ensures var t := Apply(Small(), r, Dequeue(0));
      && Alive(t) && t.call == r.call && t.clock == 0 && t.inbound == [Own(p)] && t.notes == [Delivered([x])]
      && t.assembler.Some? && t.assembler.value.active.None? && t.assembler.value.expectedPhysicalSeq == 2
      && !t.assembler.value.physicalExhausted
  {
    TakesByteIn(r.(clock := 0, inbound := r.inbound[1..], seen := r.seen + [r.inbound[0]]), 1, 1, x);
  }
}
