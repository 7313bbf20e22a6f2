/** One endpoint of the acknowledged relay as a state machine. A step is a stretch of the code
    between two calls into code the endpoint does not own: sendFrame and the listeners. What runs
    re-entrantly inside such a call is simply further steps before the step that ends the call. */
module RelayEndpoint {
  import opened Wrappers
  import opened RelayTypes
  import opened RelayTransport

  datatype Batch = Batch(messageSeq: nat, frames: seq<Frame>, outerBytes: nat, queuedAt: int, nextFrameIndex: nat)

  datatype PendingAck = PendingAck(messageSeq: nat, queuedAt: int)

  /** The sendFrame call in progress, if any, and whether the link takes the payload. */
  datatype Call = Idle | AckCall(messageSeq: nat, wire: bool) | FrameCall(wire: bool)

  datatype Note = Saturated | Drained | Degraded(reason: Reason) | Delivered(bytes: Bytes)

  datatype Endpoint = Endpoint(
    queue: seq<Batch>,
    cursor: nat,
    inbound: seq<Candidate>,
    pendingAck: Option<PendingAck>,
    nextPhysicalSeq: nat,
    nextMessageSeq: nat,
    highestFullySent: nat,
    lastAcked: nat,
    unacknowledged: int,
    saturated: bool,
    disposed: bool,
    degraded: bool,
    call: Call,
    assembler: Option<Assembler>,
    clock: int,
    // What happened so far; no step looks at these.
    messages: seq<Bytes>,
    hist: seq<seq<Frame>>,
    delivered: seq<Bytes>,
    owed: seq<nat>,
    notes: seq<Note>,
    seen: seq<Candidate>,
    replays: nat,
    maxWired: nat,
    lastSent: nat)

  function Initial(clock: int): Endpoint {
    Endpoint([], 0, [], None, 1, 1, 0, 0, 0, false, false, false, Idle, Some(FRESH_ASSEMBLER), clock,
             [], [], [], [], [], [], 0, 0, 0)
  }

  predicate Alive(s: Endpoint) { !s.disposed && !s.degraded }

  /** measureAcknowledgedRelayBatchBytes; None where it throws. */
  function Measure(cfg: Config, frames: seq<Frame>): (r: Option<nat>)
    ensures r.Some? ==> r.value >= |frames|
  {
    if frames == [] then Some(0) else
      var last := cfg.measure(frames[|frames| - 1]);
      match Measure(cfg, frames[..|frames| - 1])
      case None => None
      case Some(total) => if 0 < last <= MAX_PHYSICAL_FRAME_BYTES then Some(total + last) else None
  }

  /** The meter makes sense of the frame. */
  predicate Metered(cfg: Config, f: Frame) { 1 <= cfg.measure(f) <= MAX_PHYSICAL_FRAME_BYTES }

  /** The sum of what the meter says of each frame. */
  function MeterSum(measure: Frame -> int, frames: seq<Frame>): int {
    if frames == [] then 0 else measure(frames[0]) + MeterSum(measure, frames[1..])
  }

  lemma {:induction false} MeterSumIsASum(measure: Frame -> int, a: seq<Frame>, b: seq<Frame>, f: Frame)
    ensures MeterSum(measure, []) == 0 && MeterSum(measure, [f]) == measure(f)
    ensures MeterSum(measure, a + b) == MeterSum(measure, a) + MeterSum(measure, b)
  {
    if a == [] {
      assert a + b == b;
    } else {
      MeterSumIsASum(measure, a[1..], b, f);
      assert (a + b)[1..] == a[1..] + b;
    }
  }

  /** Frames can be measured exactly if the meter makes sense of each of them, and then measure the sum. */
  lemma {:induction false} MeasureIsTheSum(cfg: Config, frames: seq<Frame>)
    ensures Measure(cfg, frames).Some? <==> forall f :: f in frames ==> Metered(cfg, f)
    ensures Measure(cfg, frames).Some? ==> Measure(cfg, frames).value == MeterSum(cfg.measure, frames)
    decreases |frames|
  {
    if frames != [] {
      var before, last := frames[..|frames| - 1], frames[|frames| - 1];
      MeasureIsTheSum(cfg, before);
      assert frames == before + [last];
      assert last in frames;
      forall f | f in frames
        ensures f in before || f == last
      {
      }
      assert forall f :: f in before ==> f in frames;
      MeterSumIsASum(cfg.measure, before, [last], last);
    }
  }

  /** All frames of all batches in the queue. */
  function FramesHeld(queue: seq<Batch>): seq<Frame> {
    if queue == [] then [] else queue[0].frames + FramesHeld(queue[1..])
  }

  /** The batches account for what the meter says of the frames they hold. */
  lemma {:induction false} BatchesAccountForFrames(cfg: Config, queue: seq<Batch>)
    requires forall i :: 0 <= i < |queue| ==> Measure(cfg, queue[i].frames) == Some(queue[i].outerBytes)
    ensures OuterBytes(queue) == MeterSum(cfg.measure, FramesHeld(queue))
    ensures forall i, f :: 0 <= i < |queue| && f in queue[i].frames ==> f in FramesHeld(queue)
  {
    if queue != [] {
      BatchesAccountForFrames(cfg, queue[1..]);
      MeasureIsTheSum(cfg, queue[0].frames);
      var rest := FramesHeld(queue[1..]);
      if queue[0].frames == [] {
        assert FramesHeld(queue) == rest;
      } else {
        MeterSumIsASum(cfg.measure, queue[0].frames, rest, queue[0].frames[0]);
      }
    }
  }

  /** Batch by batch, in the order of the queue. */
  lemma {:induction false} FramesAreHeldInOrder(a: seq<Batch>, b: seq<Batch>, x: Batch)
    ensures FramesHeld([]) == [] && FramesHeld([x]) == x.frames
    ensures FramesHeld(a + b) == FramesHeld(a) + FramesHeld(b)
  {
    if a == [] {
      assert a + b == b;
    } else {
      FramesAreHeldInOrder(a[1..], b, x);
      assert (a + b)[1..] == a[1..] + b;
    }
  }

  function OuterBytes(queue: seq<Batch>): nat {
    if queue == [] then 0 else queue[0].outerBytes + OuterBytes(queue[1..])
  }

  /** How many batches a cumulative ACK releases from the head of the queue. */
  function ReleaseCount(queue: seq<Batch>, ack: nat): (n: nat)
    ensures n <= |queue|
  {
    if queue == [] || queue[0].messageSeq > ack then 0 else 1 + ReleaseCount(queue[1..], ack)
  }

  // ---------- Effects ----------

  function Degrade(s: Endpoint, reason: Reason): Endpoint {
    if !Alive(s) then s else
      s.(degraded := true, queue := [], cursor := 0, inbound := [], pendingAck := None,
         unacknowledged := 0, saturated := false, assembler := None, notes := s.notes + [Degraded(reason)])
  }

  function Disposed(s: Endpoint): Endpoint {
    if s.disposed then s else
      s.(disposed := true, queue := [], cursor := 0, inbound := [], pendingAck := None,
         unacknowledged := 0, assembler := None)
  }

  function Reserve(cfg: Config, s: Endpoint, bytes: Bytes, now: int): Endpoint {
    match Encode(cfg, bytes, s.nextPhysicalSeq, s.nextMessageSeq)
    case Err(reason) => Degrade(s, reason)
    case Ok(frames) =>
      match Measure(cfg, frames)
      case None => Degrade(s, OuterMeterFailed)
      case Some(outer) =>
        if s.unacknowledged + outer > cfg.replayCap then Degrade(s, ReplayBufferExceeded)
        else Admit(cfg, s, bytes, frames, outer, now)
  }

  function Admit(cfg: Config, s: Endpoint, bytes: Bytes, frames: seq<Frame>, outer: nat, now: int): Endpoint {
    var total := s.unacknowledged + outer;
    var rises := !s.saturated && total > cfg.highWaterMark;
    s.(queue := s.queue + [Batch(s.nextMessageSeq, frames, outer, now, 0)],
       unacknowledged := total,
       nextMessageSeq := s.nextMessageSeq + 1,
       nextPhysicalSeq := if frames == [] then s.nextPhysicalSeq else frames[|frames| - 1].seqNo + 1,
       saturated := s.saturated || rises,
       notes := if rises then s.notes + [Saturated] else s.notes,
       messages := s.messages + [bytes],
       hist := s.hist + [frames])
  }

  function ProcessAck(cfg: Config, s: Endpoint, ack: nat): Endpoint {
    if ack <= s.lastAcked then s
    else if ack > s.highestFullySent then Degrade(s, FutureAck)
    else
      var n := ReleaseCount(s.queue, ack);
      var left := Max(0, s.unacknowledged - OuterBytes(s.queue[..n]));
      var drains := s.saturated && left <= cfg.lowWaterMark;
      s.(queue := s.queue[n..],
         cursor := Max(s.cursor - n, 0),
         unacknowledged := left,
         lastAcked := ack,
         saturated := s.saturated && !drains,
         notes := if drains then s.notes + [Drained] else s.notes)
  }

  function AddAck(s: Endpoint, messageSeq: nat, now: int): Endpoint {
    if !Alive(s) then s else
      match s.pendingAck
      case None => s.(pendingAck := Some(PendingAck(messageSeq, now)))
      case Some(p) => s.(pendingAck := Some(p.(messageSeq := if messageSeq > p.messageSeq then messageSeq else p.messageSeq)))
  }

  /** processInbound up to queueAck: an acknowledgement is first owed and queued by a later step,
      because the message listener runs in between and the clock is read again. */
  function Process(cfg: Config, s: Endpoint, c: Candidate, now: int): Endpoint {
    match Parse(c)
    case None => Degrade(s, InvalidPayload)
    case Some(Ack(n)) => ProcessAck(cfg, s, n)
    case Some(Data(f)) =>
      if s.assembler.None? then s else
        var (asm, event) := Accept(cfg, s.assembler.value, f, now);
        match event
        case Fault(reason) => Degrade(s, reason)
        case Incomplete => s.(assembler := Some(asm))
        case Duplicate(None) => s.(assembler := Some(asm))
        case Duplicate(Some(n)) => s.(assembler := Some(asm), owed := s.owed + [n])
        case Complete(n, bytes) =>
          s.(assembler := Some(asm), delivered := s.delivered + [bytes], owed := s.owed + [n],
             notes := s.notes + [Delivered(bytes)])
  }

  function Rewound(queue: seq<Batch>): (r: seq<Batch>)
    ensures |r| == |queue|
    ensures forall i :: 0 <= i < |queue| ==> r[i] == queue[i].(nextFrameIndex := 0)
  {
    seq(|queue|, i requires 0 <= i < |queue| => queue[i].(nextFrameIndex := 0))
  }

  /** What the flush loop does once sendFrame returned. */
  function EndCall(s: Endpoint): Endpoint {
    match s.call
    case Idle => s
    case AckCall(n, wire) =>
      var t := s.(call := Idle);
      if wire && Alive(s) && s.pendingAck.Some? && s.pendingAck.value.messageSeq == n then t.(pendingAck := None) else t
    case FrameCall(wire) =>
      var t := s.(call := Idle);
      if wire && Alive(s) && s.cursor < |s.queue| then FrameSent(t) else t
  }

  function FrameSent(s: Endpoint): Endpoint
    requires s.cursor < |s.queue|
  {
    var b := s.queue[s.cursor];
    var next := b.nextFrameIndex + 1;
    var moved := s.(queue := s.queue[s.cursor := b.(nextFrameIndex := next)],
                    lastSent := if b.nextFrameIndex < |b.frames| then b.frames[b.nextFrameIndex].seqNo else s.lastSent);
    if next == |b.frames| then
      moved.(highestFullySent := Max(s.highestFullySent, b.messageSeq), cursor := s.cursor + 1)
    else moved
  }

  // ---------- Steps ----------

  datatype Step =
    | ReserveStep(bytes: Bytes, now: int)
    | BeginAck(wire: bool)
    | BeginFrame(wire: bool)
    | EndSend
    | Defer(candidate: Candidate)
    | Receive(candidate: Candidate, now: int)
    | Dequeue(now: int)
    | QueueAck(now: int)
    | Replay
    | Fail(reason: Reason)
    | DisposeStep
    | Tick(now: int)

  /** Faults that come from the clock, the transport, a listener or the caller, not from a payload. */
  predicate Outside(reason: Reason) {
    reason in {SendFailed, DeliveryFailed, ManuallyDegraded, ReplayGraceExceeded, AckGraceExceeded, AssemblyTimeout}
  }

  predicate Enabled(s: Endpoint, step: Step) {
    match step
    case ReserveStep(_, now) => Alive(s) && s.clock <= now
    case BeginAck(_) => Alive(s) && s.call.Idle? && s.pendingAck.Some?
    case BeginFrame(_) => Alive(s) && s.call.Idle? && s.pendingAck.None? && s.cursor < |s.queue|
    case EndSend => !s.call.Idle?
    case Defer(c) => Alive(s) && !s.call.Idle? && (c.Own? || c.Malformed?)
    case Receive(c, now) => Alive(s) && s.call.Idle? && s.clock <= now && (c.Own? || c.Malformed?)
    case Dequeue(now) => Alive(s) && s.call.Idle? && s.clock <= now && s.inbound != []
    case QueueAck(now) => s.call.Idle? && s.clock <= now && s.owed != []
    case Replay => Alive(s) && s.call.Idle?
    case Fail(reason) => Outside(reason)
    case DisposeStep => true
    case Tick(now) => s.clock <= now
  }

  function Wire(s: Endpoint): nat
    requires s.cursor < |s.queue| && s.queue[s.cursor].nextFrameIndex < |s.queue[s.cursor].frames|
  {
    s.queue[s.cursor].frames[s.queue[s.cursor].nextFrameIndex].seqNo
  }

  function Apply(cfg: Config, s: Endpoint, step: Step): Endpoint
    requires Enabled(s, step)
  {
    match step
    case ReserveStep(bytes, now) => Reserve(cfg, s.(clock := now), bytes, now)
    case BeginAck(wire) => s.(call := AckCall(s.pendingAck.value.messageSeq, wire))
    case BeginFrame(wire) =>
      var b := s.queue[s.cursor];
      s.(call := FrameCall(wire),
         maxWired := if wire && b.nextFrameIndex < |b.frames| then Max(s.maxWired, Wire(s)) else s.maxWired)
    case EndSend => EndCall(s)
    case Defer(c) => s.(inbound := s.inbound + [c])
    case Receive(c, now) => Process(cfg, s.(clock := now, seen := s.seen + [c]), c, now)
    case Dequeue(now) =>
      Process(cfg, s.(clock := now, inbound := s.inbound[1..], seen := s.seen + [s.inbound[0]]), s.inbound[0], now)
    case QueueAck(now) =>
      var t := s.(clock := now, owed := s.owed[..|s.owed| - 1]);
      AddAck(t, s.owed[|s.owed| - 1], now)
    case Replay => s.(queue := Rewound(s.queue), cursor := 0, lastSent := 0, replays := s.replays + 1)
    case Fail(reason) => Degrade(s, reason)
    case DisposeStep => Disposed(s)
    case Tick(now) => s.(clock := now)
  }
}
