/** Two endpoints and a network that may lose, repeat, delay and reorder whatever it took, but
    delivers nothing that was not sent. */
module RelaySystem {
  import opened Wrappers
  import opened RelayTypes
  import opened RelayTransport
  import opened RelayEndpoint
  import opened RelaySender

  /** `ab` is everything the network ever took from a; any of it may reach b at any time, any number of times. */
  datatype System = System(a: Endpoint, b: Endpoint, ab: set<Payload>, ba: set<Payload>)

  /** What the link takes when a step opens an accepted sendFrame call. */
  function Emitted(s: Endpoint, step: Step): set<Payload> {
    match step
    case BeginAck(true) => if s.pendingAck.Some? then {Ack(s.pendingAck.value.messageSeq)} else {}
    case BeginFrame(true) =>
      if s.cursor < |s.queue| && s.queue[s.cursor].nextFrameIndex < |s.queue[s.cursor].frames|
      then {Data(s.queue[s.cursor].frames[s.queue[s.cursor].nextFrameIndex])} else {}
    case _ => {}
  }

  /** A step that brings a payload in brings one the network took from the peer. */
  predicate Arrives(step: Step, incoming: set<Payload>) {
    match step
    case Receive(c, _) => c.Own? && c.payload in incoming
    case Defer(c) => c.Own? && c.payload in incoming
    case _ => true
  }

  predicate MayStep(x: Endpoint, step: Step, incoming: set<Payload>) {
    Enabled(x, step) && Arrives(step, incoming)
  }

  datatype Action = AtA(step: Step) | AtB(step: Step)

  predicate CanAct(s: System, act: Action) {
    match act
    case AtA(step) => MayStep(s.a, step, s.ba)
    case AtB(step) => MayStep(s.b, step, s.ab)
  }

  function Act(cfg: Config, s: System, act: Action): System
    requires CanAct(s, act)
  {
    match act
    case AtA(step) => s.(a := Apply(cfg, s.a, step), ab := s.ab + Emitted(s.a, step))
    case AtB(step) => s.(b := Apply(cfg, s.b, step), ba := s.ba + Emitted(s.b, step))
  }

  // ---------- The invariant of one direction ----------

  function Taken(r: Endpoint): nat {
    if r.assembler.Some? && r.assembler.value.active.Some? then |r.assembler.value.active.value.fragments| else 0
  }

  ghost predicate FramesAuthentic(s: Endpoint, sr: set<Payload>) {
    forall p :: p in sr && p.Data? ==> Authentic(s.hist, p.frame) && p.frame.seqNo <= s.maxWired
  }

  predicate AcksEarned(r: Endpoint, rs: set<Payload>) {
    && (forall p :: p in rs && p.Ack? ==> 1 <= p.messageSeq <= |r.delivered|)
    && (r.pendingAck.Some? ==> 1 <= r.pendingAck.value.messageSeq <= |r.delivered|)
    && (forall n :: n in r.owed ==> 1 <= n <= |r.delivered|)
  }

  predicate WaitingFrom(x: Endpoint, incoming: set<Payload>) {
    forall c :: c in x.inbound ==> c.Own? && c.payload in incoming
  }

  /** r has delivered the first messages of s, in order, each once, and stands right behind them. */
  ghost predicate Follows(cfg: Config, s: Endpoint, r: Endpoint) {
    && |r.delivered| <= |s.messages| && r.delivered == s.messages[..|r.delivered|]
    && |s.messages| == |s.hist|
    && Start(s.hist, |r.delivered|) <= s.maxWired
    && (Alive(r) ==> r.assembler.Some? && StandsAt(cfg, s.hist, r.assembler.value, |r.delivered|, Taken(r))
                     && Start(s.hist, |r.delivered|) + Taken(r) <= s.maxWired)
  }

  ghost predicate Direction(cfg: Config, s: Endpoint, r: Endpoint, sr: set<Payload>, rs: set<Payload>) {
    && FramesAuthentic(s, sr) && AcksEarned(r, rs)
    && WaitingFrom(r, sr) && WaitingFrom(s, rs)
    && Follows(cfg, s, r)
    && s.lastAcked <= |r.delivered|
  }

  ghost predicate SystemInv(cfg: Config, s: System) {
    && Inv(cfg, s.a) && Inv(cfg, s.b)
    && Direction(cfg, s.a, s.b, s.ab, s.ba)
    && Direction(cfg, s.b, s.a, s.ba, s.ab)
  }

  // ---------- Stability of the receiver's position ----------

  lemma StandsAtLongerHistory(cfg: Config, hist: seq<seq<Frame>>, more: seq<seq<Frame>>, a: Assembler, done: nat,
          k: nat)
    requires StandsAt(cfg, hist, a, done, k)
    ensures StandsAt(cfg, hist + more, a, done, k)
  {
    StartOfExtension(hist, more, done);
  }

  /** A delivered message was on the link to its last frame, so the sender counts it as fully sent,
      unless its last frame is in the very sendFrame call that has not returned yet. */
  lemma DeliveredWasSent(cfg: Config, s: Endpoint, r: Endpoint)
    requires Inv(cfg, s) && Alive(s) && Follows(cfg, s, r)
    ensures |r.delivered| <= s.highestFullySent + (if Completing(s) then 1 else 0)
  {
    var h := s.highestFullySent;
    if |r.delivered| > h + (if Completing(s) then 1 else 0) {
      assert BatchOf(cfg, s.messages, s.hist, |r.delivered| - 1);
      StartMonotone(s.hist, h + 1, |r.delivered|);
      assert Completing(s) ==> h + 1 < |r.delivered|;
      StartMonotone(s.hist, h + 1, |r.delivered| - 1);
      assert false;
    }
  }

  // ---------- A step seen from the sending side ----------

  lemma ReserveAsSender(cfg: Config, s: Endpoint, r: Endpoint, sr: set<Payload>, rs: set<Payload>, bytes: Bytes,
          now: int)
    requires Inv(cfg, s) && Direction(cfg, s, r, sr, rs) && Enabled(s, ReserveStep(bytes, now))
    ensures Direction(cfg, Apply(cfg, s, ReserveStep(bytes, now)), r, sr, rs)
  {
    hide Encode, Measure, StandsAt, Process;
    var t := Apply(cfg, s, ReserveStep(bytes, now));
    if t.hist != s.hist {
      var frames := Encode(cfg, bytes, s.nextPhysicalSeq, s.nextMessageSeq).value;
      assert t.hist == s.hist + [frames] && t.messages == s.messages + [bytes];
      StartOfExtension(s.hist, [frames], |r.delivered|);
      if Alive(r) {
        StandsAtLongerHistory(cfg, s.hist, [frames], r.assembler.value, |r.delivered|, Taken(r));
      }
      forall p | p in sr && p.Data?
        ensures Authentic(t.hist, p.frame)
      {
        assert Authentic(s.hist, p.frame);
      }
    }
  }

  lemma IncomingAckAsSender(cfg: Config, s: Endpoint, r: Endpoint, sr: set<Payload>, rs: set<Payload>, c: Candidate)
    requires Inv(cfg, s) && Alive(s) && Direction(cfg, s, r, sr, rs)
    requires c.Own? && c.payload in rs
    ensures Direction(cfg, Process(cfg, s, c, s.clock), r, sr, rs)
  {
    hide Accept, StandsAt, EncodedBatch, Entry, History, ReleaseCount, OuterBytes, Authentic, ByteAccount, Ages,
         SendOrder;
    if c.payload.Data? && WellFormedFrame(c.payload.frame) {
      FrameEffect(cfg, s, c.payload.frame);
    }
  }

  lemma BeginFrameAsSender(cfg: Config, s: Endpoint, r: Endpoint, sr: set<Payload>, rs: set<Payload>, wire: bool)
    requires Inv(cfg, s) && Direction(cfg, s, r, sr, rs) && Enabled(s, BeginFrame(wire))
    ensures Direction(cfg, Apply(cfg, s, BeginFrame(wire)), r, sr + Emitted(s, BeginFrame(wire)), rs)
  {
    CursorFrame(cfg, s);
    var t := Apply(cfg, s, BeginFrame(wire));
    assert t.hist == s.hist && t.messages == s.messages && t.maxWired >= s.maxWired;
    assert wire ==> t.maxWired >= Wire(s);
  }

  /** Steps that change nothing the peer's position depends on. */
  lemma QuietAsSender(cfg: Config, s: Endpoint, t: Endpoint, r: Endpoint, sr: set<Payload>, rs: set<Payload>,
          extra: set<Payload>)
    requires Direction(cfg, s, r, sr, rs)
    requires t.hist == s.hist && t.messages == s.messages && t.maxWired == s.maxWired && t.lastAcked == s.lastAcked
    requires WaitingFrom(t, rs)
    requires forall p :: p in extra ==> p.Ack?
    ensures Direction(cfg, t, r, sr + extra, rs)
  {
  }

  predicate ChangesSending(step: Step) {
    step.ReserveStep? || step.BeginFrame? || step.Receive? || step.Dequeue?
  }

  lemma OthersAreQuiet(cfg: Config, s: Endpoint, step: Step, rs: set<Payload>)
    requires MayStep(s, step, rs) && !ChangesSending(step) && WaitingFrom(s, rs)
    ensures var t := Apply(cfg, s, step);
      && t.hist == s.hist && t.messages == s.messages && t.maxWired == s.maxWired && t.lastAcked == s.lastAcked
      && WaitingFrom(t, rs)
    ensures forall p :: p in Emitted(s, step) ==> p.Ack?
  {
    hide Encode, Process;
  }

  lemma StepAsSender(cfg: Config, s: Endpoint, r: Endpoint, sr: set<Payload>, rs: set<Payload>, step: Step)
    requires Inv(cfg, s) && Direction(cfg, s, r, sr, rs) && MayStep(s, step, rs)
    ensures Direction(cfg, Apply(cfg, s, step), r, sr + Emitted(s, step), rs)
  {
    hide Process, Reserve, EndCall, FramesAuthentic, Follows, History, Entries, ByteAccount;
    assert Emitted(s, step) == {} ==> sr + Emitted(s, step) == sr;
    match step
    case ReserveStep(bytes, now) => ReserveAsSender(cfg, s, r, sr, rs, bytes, now);
    case BeginFrame(wire) => BeginFrameAsSender(cfg, s, r, sr, rs, wire);
    case Receive(c, now) =>
      var t := s.(clock := now, seen := s.seen + [c]);
      UntouchedKeeps(cfg, s, t);
      QuietAsSender(cfg, s, t, r, sr, rs, {});
      assert sr + {} == sr;
      IncomingAckAsSender(cfg, t, r, sr, rs, c);
    case Dequeue(now) =>
      var t := s.(clock := now, inbound := s.inbound[1..], seen := s.seen + [s.inbound[0]]);
      assert s.inbound[0] in s.inbound;
      UntouchedKeeps(cfg, s, t);
      QuietAsSender(cfg, s, t, r, sr, rs, {});
      IncomingAckAsSender(cfg, t, r, sr + {}, rs, s.inbound[0]);
      assert sr + {} == sr;
    case _ =>
      OthersAreQuiet(cfg, s, step, rs);
      QuietAsSender(cfg, s, Apply(cfg, s, step), r, sr, rs, Emitted(s, step));
  }

  // ---------- A step seen from the receiving side ----------

  lemma StandsGivesTaken(cfg: Config, hist: seq<seq<Frame>>, a: Assembler, done: nat, k: nat)
    requires StandsAt(cfg, hist, a, done, k)
    ensures k == if a.active.Some? then |a.active.value.fragments| else 0
  {
  }

  lemma ProcessFrame(cfg: Config, r: Endpoint, f: Frame, a': Assembler, e: Event)
    requires r.assembler.Some? && WellFormedFrame(f) && Accept(cfg, r.assembler.value, f, r.clock) == (a', e)
    ensures var t := Process(cfg, r, Own(Data(f)), r.clock);
      match e
      case Fault(reason) => t == Degrade(r, reason)
      case Incomplete => t == r.(assembler := Some(a'))
      case Duplicate(None) => t == r.(assembler := Some(a'))
      case Duplicate(Some(n)) => t == r.(assembler := Some(a'), owed := r.owed + [n])
      case Complete(n, bytes) => t == r.(assembler := Some(a'), delivered := r.delivered + [bytes], owed := r.owed + [n],
                                         notes := r.notes + [Delivered(bytes)])
  {
    assert Parse(Own(Data(f))) == Some(Data(f));
  }

  lemma FrameIsAuthentic(cfg: Config, s: Endpoint, m: nat, k: nat)
    requires History(cfg, s.messages, s.hist) && m < |s.hist| && k < |s.hist[m]|
    ensures Authentic(s.hist, s.hist[m][k]) && WellFormedFrame(s.hist[m][k])
  {
    assert BatchOf(cfg, s.messages, s.hist, m);
  }

  lemma OldFrameArrives(cfg: Config, s: Endpoint, r: Endpoint, f: Frame)
    requires Alive(r) && History(cfg, s.messages, s.hist) && Follows(cfg, s, r) && Authentic(s.hist, f)
    requires !Expired(cfg, r.assembler.value, r.clock)
    requires f.seqNo <= Start(s.hist, |r.delivered|) + Taken(r)
    ensures Process(cfg, r, Own(Data(f)), r.clock) ==
      if |r.delivered| > 0 then r.(owed := r.owed + [|r.delivered|]) else r
  {
    AuthenticPosition(cfg, s.messages, s.hist, f);
    OldFrameIsDuplicate(cfg, s.messages, s.hist, r.assembler.value, |r.delivered|, Taken(r), f, r.clock);
    ProcessFrame(cfg, r, f, r.assembler.value, Duplicate(if |r.delivered| > 0 then Some(|r.delivered|) else None));
  }

  lemma LaterFrameArrives(cfg: Config, s: Endpoint, r: Endpoint, f: Frame)
    requires Alive(r) && History(cfg, s.messages, s.hist) && Follows(cfg, s, r) && Authentic(s.hist, f)
    requires !Expired(cfg, r.assembler.value, r.clock)
    requires f.seqNo > Start(s.hist, |r.delivered|) + Taken(r) + 1
    ensures Process(cfg, r, Own(Data(f)), r.clock) == Degrade(r, PhysicalGap)
  {
    AuthenticPosition(cfg, s.messages, s.hist, f);
    AssemblerFollowsHistory(cfg, s.messages, s.hist, r.assembler.value, |r.delivered|, Taken(r), f, r.clock);
    var (a', e) := Accept(cfg, r.assembler.value, f, r.clock);
    ProcessFrame(cfg, r, f, a', e);
  }

  lemma InnerFrameArrives(cfg: Config, s: Endpoint, r: Endpoint, f: Frame)
    requires Alive(r) && History(cfg, s.messages, s.hist) && Follows(cfg, s, r)
    requires !Expired(cfg, r.assembler.value, r.clock)
    requires |r.delivered| < |s.hist| && Taken(r) + 1 < |s.hist[|r.delivered|]| && f == s.hist[|r.delivered|][Taken(r)]
    requires f.seqNo == Start(s.hist, |r.delivered|) + Taken(r) + 1 <= s.maxWired
    ensures var t := Process(cfg, r, Own(Data(f)), r.clock);
      && t == r.(assembler := t.assembler)
      && Follows(cfg, s, t) && Taken(t) == Taken(r) + 1
  {
    var done := |r.delivered|;
    FrameIsAuthentic(cfg, s, done, Taken(r));
    var (a', e) := Accept(cfg, r.assembler.value, f, r.clock);
    AssemblerFollowsHistory(cfg, s.messages, s.hist, r.assembler.value, done, Taken(r), f, r.clock);
    ProcessFrame(cfg, r, f, a', e);
    StandsGivesTaken(cfg, s.hist, a', done, Taken(r) + 1);
  }

  lemma DeliveryFollows(cfg: Config, s: Endpoint, r: Endpoint, a': Assembler)
    requires Follows(cfg, s, r) && |r.delivered| < |s.hist|
    requires StandsAt(cfg, s.hist, a', |r.delivered| + 1, 0)
      && Start(s.hist, |r.delivered|) + |s.hist[|r.delivered|]| <= s.maxWired
    ensures Follows(cfg, s, r.(assembler := Some(a'), delivered := r.delivered + [s.messages[|r.delivered|]],
                               owed := r.owed + [|r.delivered| + 1],
                               notes := r.notes + [Delivered(s.messages[|r.delivered|])]))
  {
    StandsGivesTaken(cfg, s.hist, a', |r.delivered| + 1, 0);
    assert Start(s.hist, |r.delivered| + 1) == Start(s.hist, |r.delivered|) + |s.hist[|r.delivered|]|;
  }

  lemma LastFrameArrives(cfg: Config, s: Endpoint, r: Endpoint, f: Frame)
    requires Alive(r) && History(cfg, s.messages, s.hist) && Follows(cfg, s, r)
    requires !Expired(cfg, r.assembler.value, r.clock)
    requires |r.delivered| < |s.hist| && Taken(r) + 1 == |s.hist[|r.delivered|]| && f == s.hist[|r.delivered|][Taken(r)]
    requires f.seqNo == Start(s.hist, |r.delivered|) + Taken(r) + 1 <= s.maxWired
    ensures var t := Process(cfg, r, Own(Data(f)), r.clock);
      && t == r.(assembler := t.assembler, delivered := r.delivered + [s.messages[|r.delivered|]],
                 owed := r.owed + [|r.delivered| + 1], notes := t.notes)
      && Follows(cfg, s, t) && Taken(t) == 0
  {
    var done := |r.delivered|;
    FrameIsAuthentic(cfg, s, done, Taken(r));
    var (a', e) := Accept(cfg, r.assembler.value, f, r.clock);
    AssemblerFollowsHistory(cfg, s.messages, s.hist, r.assembler.value, done, Taken(r), f, r.clock);
    ProcessFrame(cfg, r, f, a', e);
    StandsGivesTaken(cfg, s.hist, a', done + 1, 0);
    DeliveryFollows(cfg, s, r, a');
  }

  lemma NextFrameIsAtCursor(cfg: Config, s: Endpoint, r: Endpoint, f: Frame)
    requires Alive(r) && History(cfg, s.messages, s.hist) && Follows(cfg, s, r) && Authentic(s.hist, f)
    requires f.seqNo == Start(s.hist, |r.delivered|) + Taken(r) + 1
    ensures |r.delivered| < |s.hist| && Taken(r) < |s.hist[|r.delivered|]| && f == s.hist[|r.delivered|][Taken(r)]
  {
    AuthenticPosition(cfg, s.messages, s.hist, f);
    assert |r.delivered| < |s.hist|;
    assert BatchOf(cfg, s.messages, s.hist, |r.delivered|);
    NextFrameIs(cfg, s.messages, s.hist, |r.delivered|, Taken(r), f);
  }

  /** The frame is behind a hole for this assembler. */
  predicate Beyond(r: Endpoint, f: Frame) {
    r.assembler.Some? && !r.assembler.value.physicalExhausted && f.seqNo > r.assembler.value.expectedPhysicalSeq
  }

  lemma BeyondIsPosition(cfg: Config, s: Endpoint, r: Endpoint, f: Frame)
    requires Alive(r) && History(cfg, s.messages, s.hist) && Follows(cfg, s, r) && Authentic(s.hist, f)
    ensures Beyond(r, f) <==> f.seqNo > Start(s.hist, |r.delivered|) + Taken(r) + 1
  {
    AuthenticPosition(cfg, s.messages, s.hist, f);
  }

  /** It degrades a live endpoint exactly if the assembly is too old or the frame is behind a hole. */
  predicate FrameVerdict(cfg: Config, r: Endpoint, f: Frame, t: Endpoint) {
    if r.assembler.Some? && Expired(cfg, r.assembler.value, r.clock) then t == Degrade(r, AssemblyTimeout)
    else if Beyond(r, f) then t == Degrade(r, PhysicalGap)
    else Alive(t)
  }

  /** What a payload of the peer does to a live endpoint outside a sendFrame call. */
  predicate Consumed(cfg: Config, r: Endpoint, l: Payload, t: Endpoint) {
    match l
    case Data(f) => FrameVerdict(cfg, r, f, t)
    case Ack(_) => Alive(t)
  }

  lemma ExpiredFrameArrives(cfg: Config, r: Endpoint, f: Frame)
    requires r.assembler.Some? && WellFormedFrame(f) && Expired(cfg, r.assembler.value, r.clock)
    ensures Process(cfg, r, Own(Data(f)), r.clock) == Degrade(r, AssemblyTimeout)
  {
    ProcessFrame(cfg, r, f, r.assembler.value, Fault(AssemblyTimeout));
  }

  /** What a data frame of the peer does to a live endpoint. Of all the faults a frame can raise,
      only a gap in the frame numbers (or a stale assembly) is left. */
  lemma FrameAsReceiver(cfg: Config, s: Endpoint, r: Endpoint, sr: set<Payload>, rs: set<Payload>, f: Frame)
    requires Alive(r) && History(cfg, s.messages, s.hist)
    requires Direction(cfg, s, r, sr, rs) && Data(f) in sr
    ensures Direction(cfg, s, Process(cfg, r, Own(Data(f)), r.clock), sr, rs)
    ensures FrameVerdict(cfg, r, f, Process(cfg, r, Own(Data(f)), r.clock))
  {
    hide Beyond, Process, StandsAt, EncodedBatch, Accept;
    var p := Start(s.hist, |r.delivered|) + Taken(r);
    assert Data(f).Data? && Authentic(s.hist, Data(f).frame);
    BeyondIsPosition(cfg, s, r, f);
    AuthenticPosition(cfg, s.messages, s.hist, f);
    if Expired(cfg, r.assembler.value, r.clock) {
      ExpiredFrameArrives(cfg, r, f);
    } else if f.seqNo <= p {
      OldFrameArrives(cfg, s, r, f);
    } else if f.seqNo == p + 1 {
      NextFrameIsAtCursor(cfg, s, r, f);
      if Taken(r) + 1 < |s.hist[|r.delivered|]| {
        InnerFrameArrives(cfg, s, r, f);
      } else {
        LastFrameArrives(cfg, s, r, f);
      }
    } else {
      LaterFrameArrives(cfg, s, r, f);
    }
  }

  /** An ACK of the peer never claims a message that was not fully sent. */
  lemma AckAsReceiver(cfg: Config, s: Endpoint, r: Endpoint, sr: set<Payload>, rs: set<Payload>, n: nat)
    requires Inv(cfg, r) && Alive(r) && r.call.Idle?
    requires Direction(cfg, s, r, sr, rs) && Direction(cfg, r, s, rs, sr)
    requires Ack(n) in sr
    ensures Direction(cfg, s, Process(cfg, r, Own(Ack(n)), r.clock), sr, rs)
    ensures Alive(Process(cfg, r, Own(Ack(n)), r.clock))
  {
    hide StandsAt, Entry, ByteAccount, Ages;
    assert Ack(n).Ack?;
    DeliveredWasSent(cfg, r, s);
    assert BatchOf(cfg, r.messages, r.hist, n - 1);
  }

  lemma IncomingAsReceiver(cfg: Config, s: Endpoint, r: Endpoint, sr: set<Payload>, rs: set<Payload>, c: Candidate)
    requires Inv(cfg, s) && Inv(cfg, r) && Alive(r) && r.call.Idle?
    requires Direction(cfg, s, r, sr, rs) && Direction(cfg, r, s, rs, sr)
    requires c.Own? && c.payload in sr
    ensures Direction(cfg, s, Process(cfg, r, c, r.clock), sr, rs)
    ensures Consumed(cfg, r, c.payload, Process(cfg, r, c, r.clock))
  {
    match c.payload
    case Data(f) => FrameAsReceiver(cfg, s, r, sr, rs, f);
    case Ack(n) => AckAsReceiver(cfg, s, r, sr, rs, n);
  }

  lemma OthersKeepReceiving(cfg: Config, r: Endpoint, step: Step, sr: set<Payload>, rs: set<Payload>)
    requires MayStep(r, step, sr) && !step.Receive? && !step.Dequeue?
    requires AcksEarned(r, rs) && WaitingFrom(r, sr)
    ensures var t := Apply(cfg, r, step);
      && t.delivered == r.delivered && (Alive(t) ==> Alive(r) && t.assembler == r.assembler)
      && AcksEarned(t, rs) && WaitingFrom(t, sr)
    ensures forall p :: p in Emitted(r, step) && p.Ack? ==> 1 <= p.messageSeq <= |r.delivered|
  {
    hide Encode, Measure, Process, Rewound;
    var t := Apply(cfg, r, step);
    if step.ReserveStep? {
      assert t == Reserve(cfg, r.(clock := step.now), step.bytes, step.now);
    } else if step.QueueAck? {
      assert r.owed[|r.owed| - 1] in r.owed;
      assert forall n :: n in t.owed ==> n in r.owed;
    }
  }

  lemma ClockAndInbound(cfg: Config, s: Endpoint, r: Endpoint, t: Endpoint, sr: set<Payload>, rs: set<Payload>)
    requires Inv(cfg, r) && Alive(r) && r.clock <= t.clock
    requires t == r.(clock := t.clock, inbound := t.inbound, seen := t.seen) && forall c :: c in t.inbound ==>
      c in r.inbound
    requires Direction(cfg, s, r, sr, rs) && Direction(cfg, r, s, rs, sr)
    ensures Inv(cfg, t) && Direction(cfg, s, t, sr, rs) && Direction(cfg, t, s, rs, sr)
  {
    UntouchedKeeps(cfg, r, t);
  }

  lemma StepAsReceiver(cfg: Config, s: Endpoint, r: Endpoint, sr: set<Payload>, rs: set<Payload>, step: Step)
    requires Inv(cfg, s) && Inv(cfg, r) && MayStep(r, step, sr)
    requires Direction(cfg, s, r, sr, rs) && Direction(cfg, r, s, rs, sr)
    ensures Direction(cfg, s, Apply(cfg, r, step), sr, rs + Emitted(r, step))
  {
    hide Process, Reserve, EndCall, FramesAuthentic, StandsAt, LiveInv, History;
    if step.Receive? || step.Dequeue? {
      var c := if step.Receive? then step.candidate else r.inbound[0];
      var t := r.(clock := step.now, inbound := if step.Receive? then r.inbound else r.inbound[1..], seen := r.seen + [c]);
      assert step.Dequeue? ==> c in r.inbound;
      ClockAndInbound(cfg, s, r, t, sr, rs);
      IncomingAsReceiver(cfg, s, t, sr, rs, c);
      assert Apply(cfg, r, step) == Process(cfg, t, c, t.clock);
      assert rs + Emitted(r, step) == rs;
    } else {
      OthersKeepReceiving(cfg, r, step, sr, rs);
    }
  }

  // ---------- Whole runs ----------

  lemma ActKeeps(cfg: Config, s: System, act: Action)
    requires ValidLimits(cfg) && SystemInv(cfg, s) && CanAct(s, act)
    ensures SystemInv(cfg, Act(cfg, s, act))
  {
    match act
    case AtA(step) =>
      StepKeeps(cfg, s.a, step);
      StepAsSender(cfg, s.a, s.b, s.ab, s.ba, step);
      StepAsReceiver(cfg, s.b, s.a, s.ba, s.ab, step);
    case AtB(step) =>
      StepKeeps(cfg, s.b, step);
      StepAsSender(cfg, s.b, s.a, s.ba, s.ab, step);
      StepAsReceiver(cfg, s.a, s.b, s.ab, s.ba, step);
  }

  ghost predicate SystemRun(cfg: Config, s: System, acts: seq<Action>, t: System)
    decreases |acts|
  {
    if acts == [] then s == t
    else CanAct(s, acts[0]) && SystemRun(cfg, Act(cfg, s, acts[0]), acts[1..], t)
  }

  function InitialSystem(clockA: int, clockB: int): System {
    System(Initial(clockA), Initial(clockB), {}, {})
  }

  lemma {:induction false} RunKeepsSystem(cfg: Config, s: System, acts: seq<Action>, t: System)
    requires ValidLimits(cfg) && SystemInv(cfg, s) && SystemRun(cfg, s, acts, t)
    ensures SystemInv(cfg, t)
    decreases |acts|
  {
    if acts != [] {
      ActKeeps(cfg, s, acts[0]);
      RunKeepsSystem(cfg, Act(cfg, s, acts[0]), acts[1..], t);
    }
  }

  ghost predicate ReachableSystem(cfg: Config, t: System) {
    exists clockA: int, clockB: int, acts :: SystemRun(cfg, InitialSystem(clockA, clockB), acts, t)
  }

  lemma ReachableKeepsInv(cfg: Config, t: System)
    requires ValidLimits(cfg) && ReachableSystem(cfg, t)
    ensures SystemInv(cfg, t)
  {
    var clockA: int, clockB: int, acts :| SystemRun(cfg, InitialSystem(clockA, clockB), acts, t);
    InitialInv(cfg, clockA);
    InitialInv(cfg, clockB);
    RunKeepsSystem(cfg, InitialSystem(clockA, clockB), acts, t);
  }

  /** In every run, over any lossy, repeating, reordering network and with any nesting of calls:
      each side delivers exactly the first messages the other side reserved, each once and in order,
      and acknowledged <= delivered <= fully sent (plus the message whose last frame is being handed
      to the link at this very moment). */
  lemma DeliveryIsAPrefix(cfg: Config, t: System)
    requires ValidLimits(cfg) && ReachableSystem(cfg, t)
    ensures t.b.delivered <= t.a.messages && t.a.delivered <= t.b.messages
    ensures t.a.lastAcked <= |t.b.delivered| && t.b.lastAcked <= |t.a.delivered|
    ensures Alive(t.a) ==> |t.b.delivered| <= t.a.highestFullySent + (if Completing(t.a) then 1 else 0)
    ensures Alive(t.b) ==> |t.a.delivered| <= t.b.highestFullySent + (if Completing(t.b) then 1 else 0)
  {
    ReachableKeepsInv(cfg, t);
    if Alive(t.a) {
      DeliveredWasSent(cfg, t.a, t.b);
    }
    if Alive(t.b) {
      DeliveredWasSent(cfg, t.b, t.a);
    }
  }

  /** What the payload l does to the live endpoint x that takes it in at time now and becomes u. */
  predicate Reached(cfg: Config, x: Endpoint, l: Payload, now: int, u: Endpoint) {
    && (!Alive(u) <==> l.Data? && x.assembler.Some? && (Expired(cfg, x.assembler.value, now) || Beyond(x, l.frame)))
    && var reason := if x.assembler.Some? && Expired(cfg, x.assembler.value, now) then AssemblyTimeout else PhysicalGap;
       (!Alive(u) ==> u.notes == x.notes + [Degraded(reason)])
  }

  lemma ConsumedIsReached(cfg: Config, x: Endpoint, x0: Endpoint, l: Payload, u: Endpoint)
    requires Consumed(cfg, x0, l, u) && Alive(x) && x.assembler.Some?
    requires x0 == x.(clock := x0.clock, inbound := x0.inbound, seen := x0.seen)
    ensures Reached(cfg, x, l, x0.clock, u)
  {
  }

  /** The payload a step takes in, now or out of the deferred queue. */
  function TakenIn(x: Endpoint, step: Step): Candidate
    requires Enabled(x, step) && (step.Receive? || step.Dequeue?)
  {
    if step.Receive? then step.candidate else x.inbound[0]
  }

  lemma IncomingReaches(cfg: Config, x: Endpoint, y: Endpoint, yx: set<Payload>, xy: set<Payload>, step: Step)
    requires Inv(cfg, x) && Inv(cfg, y) && Direction(cfg, y, x, yx, xy) && Direction(cfg, x, y, xy, yx)
    requires MayStep(x, step, yx) && (step.Receive? || step.Dequeue?)
    ensures TakenIn(x, step).Own? && Reached(cfg, x, TakenIn(x, step).payload, step.now, Apply(cfg, x, step))
  {
    hide Consumed, Process, LiveInv, StandsAt;
    var c := TakenIn(x, step);
    var r := x.(clock := step.now, inbound := if step.Receive? then x.inbound else x.inbound[1..], seen := x.seen + [c]);
    assert step.Dequeue? ==> c in x.inbound;
    ClockAndInbound(cfg, y, x, r, yx, xy);
    IncomingAsReceiver(cfg, y, r, yx, xy, c);
    assert Apply(cfg, x, step) == Process(cfg, r, c, r.clock);
    ConsumedIsReached(cfg, x, r, c.payload, Apply(cfg, x, step));
  }

  /** A correct peer never raises futureAck, invalidPayload, a checksum, metadata or sequence fault: whatever payload
      the network hands over, now or from the deferred queue, the endpoint degrades exactly if it is a frame behind
      a hole in the frame numbers, or one for an assembly that is too old. */
  lemma OnlyGapsDegrade(cfg: Config, t: System, step: Step)
    requires ValidLimits(cfg) && ReachableSystem(cfg, t) && (step.Receive? || step.Dequeue?)
    ensures MayStep(t.a, step, t.ba) ==>
      TakenIn(t.a, step).Own? && Reached(cfg, t.a, TakenIn(t.a, step).payload, step.now, Apply(cfg, t.a, step))
    ensures MayStep(t.b, step, t.ab) ==>
      TakenIn(t.b, step).Own? && Reached(cfg, t.b, TakenIn(t.b, step).payload, step.now, Apply(cfg, t.b, step))
  {
    hide Inv, Direction, Reached, Apply, MayStep;
    ReachableKeepsInv(cfg, t);
    if MayStep(t.a, step, t.ba) {
      IncomingReaches(cfg, t.a, t.b, t.ba, t.ab, step);
    }
    if MayStep(t.b, step, t.ab) {
      IncomingReaches(cfg, t.b, t.a, t.ab, t.ba, step);
    }
  }
}
