/** The acknowledged relay protocol object itself. Every method works on mutable fields as the code
    does, and keeps a ghost endpoint in step: whatever the code does is a run of RelayEndpoint. */
module RelayProtocol {
  import opened Wrappers
  import opened RelayTypes
  import opened RelayTransport
  import opened RelayEndpoint
  import opened RelaySender
  import opened RelayBatchQueue
  import opened RelayDeadline

  /** What code outside does when it is called: how a sendFrame call (or a listener) ends, and what it
      calls on the protocol before it does. */
  datatype Outcome = Takes | Refuses | Throws(wired: bool)

  datatype OuterCall =
    | CallSend(bytes: Bytes)
    | CallAccept(candidate: Candidate)
    | CallFlush
    | CallReplay
    | CallMark
    | CallDispose

  datatype Reaction = Reaction(outcome: Outcome, calls: seq<OuterCall>)

  /** The clock, and the behaviour of sendFrame and the listeners, call by call; when the tape ends,
      sendFrame refuses and listeners do nothing. */
  class Environment {
    var clock: int
    var tape: seq<Reaction>
    // sendFrame calls that did not take their payload, and listeners that threw.
    ghost var refusals: nat
    // What the link took.
    ghost var taken: seq<Payload>

    constructor (clock: int, tape: seq<Reaction>)
      ensures this.clock == clock && this.tape == tape && refusals == 0 && taken == []
    {
      this.clock, this.tape, refusals, taken := clock, tape, 0, [];
    }

    method Now() returns (t: int)
      modifies this`clock
      ensures old(clock) <= clock == t
    {
      t :| clock <= t;
      clock := t;
    }

    method NextReaction() returns (r: Reaction)
      modifies this`tape
      ensures old(tape) == [] ==> r == Reaction(Refuses, []) && tape == []
      ensures old(tape) != [] ==> r == old(tape)[0] && tape == old(tape)[1..] && |tape| == |old(tape)| - 1
    {
      if tape == [] {
        r := Reaction(Refuses, []);
      } else {
        r, tape := tape[0], tape[1..];
      }
    }
  }

  // ---------- measureAcknowledgedRelayBatchBytes ----------

  lemma {:induction false} MeasureFailsForGood(cfg: Config, frames: seq<Frame>, k: nat)
    requires k <= |frames| && Measure(cfg, frames[..k]) == None
    ensures Measure(cfg, frames) == None
    decreases |frames| - k
  {
    if k < |frames| {
      assert frames[..k + 1][..k] == frames[..k];
      MeasureFailsForGood(cfg, frames, k + 1);
    } else {
      assert frames[..k] == frames;
    }
  }

  method MeasureBatch(cfg: Config, frames: seq<Frame>) returns (total: Option<nat>)
    ensures total == Measure(cfg, frames)
    ensures total.Some? <==> forall f :: f in frames ==> 1 <= cfg.measure(f) <= MAX_PHYSICAL_FRAME_BYTES
    ensures total.Some? ==> total.value == MeterSum(cfg.measure, frames)
  {
    MeasureIsTheSum(cfg, frames);
    var sum: nat := 0;
    for i := 0 to |frames|
      invariant Measure(cfg, frames[..i]) == Some(sum)
    {
      var frameBytes := cfg.measure(frames[i]);
      assert frames[..i + 1][..i] == frames[..i];
      if frameBytes <= 0 || frameBytes > MAX_PHYSICAL_FRAME_BYTES {
        MeasureFailsForGood(cfg, frames, i + 1);
        return None;
      }
      sum := sum + frameBytes;
    }
    assert frames[..|frames|] == frames;
    return Some(sum);
  }

  /** The state was reached by a run, and so meets the invariant. */
  ghost predicate Lineage(cfg: Config, start: int, s: Endpoint) {
    ValidLimits(cfg) && Inv(cfg, s) && Reaches(cfg, Initial(start), s)
  }

  /** One step further along the run that led here. */
  lemma Advance(cfg: Config, start: int, s: Endpoint, step: Step)
    requires Lineage(cfg, start, s) && Enabled(s, step)
    ensures Lineage(cfg, start, Apply(cfg, s, step)) && Reaches(cfg, s, Apply(cfg, s, step))
  {
    hide Apply, LiveInv, History, Enabled, Inv;
    StepKeeps(cfg, s, step);
    ReachesStep(cfg, s, step);
    ReachesTrans(cfg, Initial(start), s, Apply(cfg, s, step));
  }

  lemma FailIs(cfg: Config, s: Endpoint, reason: Reason)
    requires Outside(reason)
    ensures Enabled(s, Fail(reason))
      && Apply(cfg, s, Fail(reason)) == Degrade(s, reason) == Degrade(s.(seen := s.seen), reason)
  {
  }

  lemma DisposeIs(cfg: Config, s: Endpoint)
    ensures Enabled(s, DisposeStep) && Apply(cfg, s, DisposeStep) == Disposed(s)
    ensures var t := Disposed(s);
      !Alive(t) && t.disposed && t.call == s.call && t.messages == s.messages && t.delivered == s.delivered && t.seen == s.seen && t.notes == s.notes
    ensures Disposed(s).replays == s.replays
  {
  }

  predicate TimerFits(m: Endpoint, timer: Option<int>, graceMs: nat) {
    Alive(m) ==> timer == match OldestPending(m) case None => None case Some(t) => Some(t + graceMs + 1)
  }

  /** Nothing is waiting to be sent. */
  predicate AllSent(m: Endpoint) {
    Alive(m) ==> m.cursor == |m.queue| && m.pendingAck.None?
  }

  /** What a caller can see of the object, apart from its validity. */
  datatype Snapshot = Snapshot(
    model: Endpoint, depth: nat, deferred: nat, tape: nat, refusals: nat, taken: seq<Payload>, timer: Option<int>)

  /** From a to b nothing was undone: the history grew; if a sendFrame call is in progress, the queue
      it sends from was only appended to; the armed timer is right if it was. */
  ghost predicate Progress(graceMs: nat, a: Snapshot, b: Snapshot) {
    && b.tape <= a.tape && a.refusals <= b.refusals && a.taken <= b.taken
    && (a.depth == 0 ==> b.tape < a.tape || b.deferred <= a.deferred)
    && a.model.messages <= b.model.messages && a.model.delivered <= b.model.delivered
    && a.model.seen <= b.model.seen && a.model.notes <= b.model.notes && a.model.replays <= b.model.replays
    && (Alive(b.model) ==> Alive(a.model))
    && (a.depth > 0 && Alive(b.model) ==>
        && a.model.queue <= b.model.queue && b.model.cursor == a.model.cursor
        && b.model.pendingAck == a.model.pendingAck)
    && (TimerFits(a.model, a.timer, graceMs) ==> TimerFits(b.model, b.timer, graceMs))
  }

  /** And b was reached from a by a run of the endpoint machine, in which no call was begun and left open. */
  ghost predicate Onward(cfg: Config, a: Snapshot, b: Snapshot) {
    b.depth == a.depth && b.model.call == a.model.call && Progress(cfg.graceMs, a, b) && Reaches(cfg, a.model, b.model)
  }

  lemma OnwardTrans(cfg: Config, a: Snapshot, b: Snapshot, c: Snapshot)
    requires Onward(cfg, a, b) && Onward(cfg, b, c)
    ensures Onward(cfg, a, c)
  {
    hide TimerFits, Alive, Reaches;
    ReachesTrans(cfg, a.model, b.model, c.model);
  }

  lemma DeadIsOnward(cfg: Config, a: Snapshot, b: Snapshot)
    requires !Alive(b.model) && b.deferred == 0 && b.depth == a.depth && b.model.call == a.model.call
    requires b.tape == a.tape && b.refusals == a.refusals && b.taken == a.taken
    requires b.model.messages == a.model.messages && b.model.delivered == a.model.delivered
    requires a.model.seen <= b.model.seen && a.model.notes <= b.model.notes && a.model.replays <= b.model.replays
    requires Reaches(cfg, a.model, b.model)
    ensures Onward(cfg, a, b)
  {
    hide Reaches;
  }

  /** A batch was appended at the end of the queue, and nothing else happened that others can see. */
  ghost predicate Admitted(cfg: Config, a: Snapshot, b: Snapshot, bytes: Bytes) {
    && b == a.(model := b.model) && Alive(b.model) && Alive(a.model) && b.model.call == a.model.call
    && b.model.messages == a.model.messages + [bytes] && b.model.delivered == a.model.delivered
    && b.model.seen == a.model.seen && a.model.notes <= b.model.notes && b.model.owed == a.model.owed
    && b.model.replays == a.model.replays
    && a.model.queue <= b.model.queue && b.model.cursor == a.model.cursor && b.model.pendingAck == a.model.pendingAck
    && Reaches(cfg, a.model, b.model)
  }

  function TakeStep(c: Candidate, deferred: bool, now: int): Step {
    if deferred then Dequeue(now) else Receive(c, now)
  }

  /** The endpoint with payload c taken off the deferred queue, or straight from the transport. */
  function TakenIn(s: Endpoint, c: Candidate, deferred: bool): Endpoint {
    s.(inbound := if deferred && s.inbound != [] then s.inbound[1..] else s.inbound, seen := s.seen + [c])
  }

  predicate MayTake(s: Endpoint, c: Candidate, deferred: bool) {
    && Alive(s) && s.call.Idle? && (deferred || c.Own? || c.Malformed?)
    && (deferred ==> s.inbound != [] && s.inbound[0] == c)
  }

  /** Of all that led from s to t, the first thing was that payload c was taken in. */
  ghost predicate TookFirst(cfg: Config, s: Endpoint, c: Candidate, deferred: bool, t: Endpoint) {
    exists now: int {:trigger TakeStep(c, deferred, now)} ::
      Enabled(s, TakeStep(c, deferred, now)) && Reaches(cfg, Apply(cfg, s, TakeStep(c, deferred, now)), t)
  }

  lemma Took(cfg: Config, s: Endpoint, c: Candidate, deferred: bool, u: Endpoint, t: Endpoint)
    requires MayTake(s, c, deferred) && Process(cfg, TakenIn(s, c, deferred), c, s.clock) == u && Reaches(cfg, u, t)
    ensures TookFirst(cfg, s, c, deferred, t)
  {
    hide Process, Reaches, Apply;
    TakeIs(cfg, s, c, deferred);
    assert TakeStep(c, deferred, s.clock) == TakeStep(c, deferred, s.clock);
  }

  /** Reading the clock first makes no difference. */
  lemma TookAfterTick(cfg: Config, s: Endpoint, now: int, c: Candidate, deferred: bool, t: Endpoint)
    requires s.clock <= now && TookFirst(cfg, s.(clock := now), c, deferred, t)
    ensures TookFirst(cfg, s, c, deferred, t)
  {
    hide Process, Reaches;
    var later: int :| Enabled(s.(clock := now), TakeStep(c, deferred, later))
                      && Reaches(cfg, Apply(cfg, s.(clock := now), TakeStep(c, deferred, later)), t);
    var step := TakeStep(c, deferred, later);
    assert s.(clock := now).(clock := later) == s.(clock := later);
    assert Apply(cfg, s, step) == Apply(cfg, s.(clock := now), step);
  }

  /** And that a message was admitted, or found not to be admissible. */
  ghost predicate ReservedFirst(cfg: Config, s: Endpoint, bytes: Bytes, t: Endpoint) {
    exists now: int {:trigger ReserveStep(bytes, now)} ::
      Enabled(s, ReserveStep(bytes, now)) && Reaches(cfg, Apply(cfg, s, ReserveStep(bytes, now)), t)
  }

  lemma ReservedAt(cfg: Config, s: Endpoint, bytes: Bytes, now: int, t: Endpoint)
    requires Enabled(s, ReserveStep(bytes, now)) && Reaches(cfg, Apply(cfg, s, ReserveStep(bytes, now)), t)
    ensures ReservedFirst(cfg, s, bytes, t)
  {
    hide Apply, Reaches, Enabled;
    assert ReserveStep(bytes, now) == ReserveStep(bytes, now);
  }

  lemma ReserveAfterTick(cfg: Config, s: Endpoint, bytes: Bytes, now: int)
    requires Alive(s) && s.clock <= now
    ensures Enabled(s, ReserveStep(bytes, now)) && Enabled(s.(clock := now), ReserveStep(bytes, now))
    ensures Apply(cfg, s.(clock := now), ReserveStep(bytes, now)) == Apply(cfg, s, ReserveStep(bytes, now))
  {
    hide Reserve;
  }

  /** And that the acknowledgement owed last was queued. */
  ghost predicate QueuedFirst(cfg: Config, s: Endpoint, t: Endpoint) {
    exists now: int {:trigger Step.QueueAck(now)} ::
      Enabled(s, Step.QueueAck(now)) && Reaches(cfg, Apply(cfg, s, Step.QueueAck(now)), t)
  }

  /** Something was overdue, and so the endpoint degraded. */
  predicate OverdueNoted(before: seq<Note>, after: seq<Note>) {
    before + [Degraded(ReplayGraceExceeded)] <= after || before + [Degraded(AckGraceExceeded)] <= after
  }

  lemma TakeIs(cfg: Config, s: Endpoint, c: Candidate, deferred: bool)
    requires MayTake(s, c, deferred)
    ensures Enabled(s, TakeStep(c, deferred, s.clock))
    ensures Apply(cfg, s, TakeStep(c, deferred, s.clock)) == Process(cfg, TakenIn(s, c, deferred), c, s.clock)
  {
    hide Process;
    assert s.(clock := s.clock) == s;
  }

  /** What processInbound does with a payload that is not a data frame, or a frame that faults. */
  lemma TakeFaults(cfg: Config, s: Endpoint, c: Candidate, deferred: bool, reason: Reason)
    requires MayTake(s, c, deferred)
      && Process(cfg, TakenIn(s, c, deferred), c, s.clock) == Degrade(TakenIn(s, c, deferred), reason)
    ensures Enabled(s, TakeStep(c, deferred, s.clock))
    ensures Apply(cfg, s, TakeStep(c, deferred, s.clock)) == Degrade(s.(seen := s.seen + [c]), reason)
  {
    TakeIs(cfg, s, c, deferred);
    hide Process, Apply;
  }

  lemma TookByFault(cfg: Config, s: Endpoint, c: Candidate, deferred: bool, reason: Reason, t: Endpoint)
    requires MayTake(s, c, deferred)
      && Process(cfg, TakenIn(s, c, deferred), c, s.clock) == Degrade(TakenIn(s, c, deferred), reason)
    requires Reaches(cfg, Degrade(s.(seen := s.seen + [c]), reason), t)
    ensures TookFirst(cfg, s, c, deferred, t)
  {
    hide Process, Apply, Reaches, Degrade;
    TakeFaults(cfg, s, c, deferred, reason);
    assert TakeStep(c, deferred, s.clock) == TakeStep(c, deferred, s.clock);
  }

  lemma UnparsedFaults(cfg: Config, s: Endpoint, c: Candidate)
    requires Parse(c) == None
    ensures Process(cfg, s, c, s.clock) == Degrade(s, InvalidPayload)
  {
  }

  lemma AckIsProcessed(cfg: Config, s: Endpoint, n: nat)
    requires WellFormedPayload(Ack(n))
    ensures Process(cfg, s, Own(Ack(n)), s.clock) == ProcessAck(cfg, s, n)
  {
  }

  lemma ReleaseIsOnward(cfg: Config, a: Snapshot, b: Snapshot, n: nat, deferred: bool)
    requires a.depth == 0 && Alive(a.model) && b == a.(model := b.model, timer := b.timer, deferred := b.deferred)
    requires b.deferred <= a.deferred
    requires b.model == ProcessAck(cfg, TakenIn(a.model, Own(Ack(n)), deferred), n) && Alive(b.model)
    requires TimerFits(b.model, b.timer, cfg.graceMs) || (n <= a.model.lastAcked && b.timer == a.timer)
    requires Reaches(cfg, a.model, b.model)
    ensures Onward(cfg, a, b) && b.model.owed == a.model.owed
    ensures b.model.seen == a.model.seen + [Own(Ack(n))]
    ensures AllSent(a.model) ==> AllSent(b.model)
  {
    hide Reaches;
  }

  lemma AckIsOnward(cfg: Config, a: Snapshot, b: Snapshot)
    requires a.depth == 0 && Alive(a.model) && b == a.(model := b.model, timer := b.timer)
    requires b.model == a.model.(clock := b.model.clock, owed := b.model.owed, pendingAck := b.model.pendingAck)
    requires Reaches(cfg, a.model, b.model)
    requires a.model.pendingAck.None? ==> TimerFits(b.model, b.timer, cfg.graceMs)
    requires a.model.pendingAck.Some? ==> b.timer == a.timer && b.model.pendingAck.Some?
                                          && b.model.pendingAck.value.queuedAt == a.model.pendingAck.value.queuedAt
    ensures Onward(cfg, a, b)
  {
  }

  lemma QueueAckIs(cfg: Config, s: Endpoint)
    requires Alive(s) && s.call.Idle? && s.owed != []
    ensures Enabled(s, Step.QueueAck(s.clock))
    ensures Apply(cfg, s, Step.QueueAck(s.clock)) == AddAck(s.(owed := s.owed[..|s.owed| - 1]), s.owed[|s.owed| - 1], s.clock)
  {
    assert s.(clock := s.clock) == s;
  }

  lemma QueueAfterTick(cfg: Config, s: Endpoint, now: int)
    requires Enabled(s.(clock := now), Step.QueueAck(now)) && s.clock <= now
    ensures Enabled(s, Step.QueueAck(now))
    ensures Apply(cfg, s.(clock := now), Step.QueueAck(now)) == Apply(cfg, s, Step.QueueAck(now))
  {
  }

  lemma OnwardReaches(cfg: Config, a: Snapshot, b: Snapshot)
    requires Onward(cfg, a, b)
    ensures Reaches(cfg, a.model, b.model)
  {
  }

  lemma OnwardMessages(cfg: Config, a: Snapshot, b: Snapshot)
    requires Onward(cfg, a, b)
    ensures a.model.messages <= b.model.messages && (Alive(b.model) ==> Alive(a.model))
    ensures a.model.seen <= b.model.seen && b.model.call == a.model.call && b.refusals >= a.refusals && b.tape <= a.tape
      && a.taken <= b.taken
    ensures a.depth == 0 ==> b.tape < a.tape || b.deferred <= a.deferred
    ensures a.model.notes <= b.model.notes && a.model.replays <= b.model.replays
  {
  }

  lemma DeferIsOnward(cfg: Config, a: Snapshot, b: Snapshot)
    requires a.depth > 0 && b == a.(model := a.model.(inbound := b.model.inbound), deferred := b.deferred)
    requires Reaches(cfg, a.model, b.model)
    ensures Onward(cfg, a, b)
  {
    hide Reaches;
  }

  lemma OnwardDepth(cfg: Config, a: Snapshot, b: Snapshot)
    requires Onward(cfg, a, b)
    ensures b.depth == a.depth
  {
  }

  lemma AdmissionIsOnward(cfg: Config, s1: Snapshot, s2: Snapshot, s3: Snapshot, s4: Snapshot, bytes: Bytes)
    requires Admitted(cfg, s1, s2, bytes) && Onward(cfg, s2, s3)
    requires s4 == s3.(timer := s4.timer) && TimerFits(s4.model, s4.timer, cfg.graceMs)
    ensures Onward(cfg, s1, s4)
  {
    hide TimerFits, Reaches;
    ReachesTrans(cfg, s1.model, s2.model, s3.model);
  }

  lemma ReserveIs(cfg: Config, s: Endpoint, bytes: Bytes)
    requires Alive(s)
    ensures Enabled(s, ReserveStep(bytes, s.clock))
    ensures var t := Apply(cfg, s, ReserveStep(bytes, s.clock));
      var encoded := Encode(cfg, bytes, s.nextPhysicalSeq, s.nextMessageSeq);
      if encoded.Err? then t == Degrade(s.(seen := s.seen), encoded.error)
      else
        var outer := Measure(cfg, encoded.value);
        if outer.None? then t == Degrade(s.(seen := s.seen), OuterMeterFailed)
        else if s.unacknowledged + outer.value > cfg.replayCap then t == Degrade(s.(seen := s.seen), ReplayBufferExceeded)
        else t == Admit(cfg, s, bytes, encoded.value, outer.value, s.clock)
  {
    hide Encode, Measure;
    assert s.(clock := s.clock) == s && s.(seen := s.seen) == s;
  }

  lemma FramesExist(cfg: Config, bytes: Bytes, first: nat, messageSeq: nat)
    ensures Encode(cfg, bytes, first, messageSeq).Ok? ==> Encode(cfg, bytes, first, messageSeq).value != []
  {
    if Encode(cfg, bytes, first, messageSeq).Ok? {
      EncodeIsBatch(cfg, bytes, first, messageSeq);
    }
  }

  lemma TickIsOnward(cfg: Config, a: Snapshot, b: Snapshot)
    requires b == a.(model := a.model.(clock := b.model.clock)) && Reaches(cfg, a.model, b.model)
    ensures Onward(cfg, a, b)
  {
    hide Reaches;
  }

  /** No queued batch and no waiting acknowledgement is older than the grace period. */
  predicate NoneOverdue(s: Endpoint, graceMs: nat) {
    && (forall i :: 0 <= i < |s.queue| ==> s.clock - s.queue[i].queuedAt <= graceMs)
    && (s.pendingAck.Some? ==> s.clock - s.pendingAck.value.queuedAt <= graceMs)
  }

  lemma OldestDecides(cfg: Config, start: int, s: Endpoint)
    requires Lineage(cfg, start, s) && Alive(s)
    requires s.queue != [] ==> s.clock - s.queue[0].queuedAt <= cfg.graceMs
    requires s.pendingAck.Some? ==> s.clock - s.pendingAck.value.queuedAt <= cfg.graceMs
    ensures NoneOverdue(s, cfg.graceMs)
  {
    assert Ages(s);
  }

  lemma OnwardSelf(cfg: Config, a: Snapshot)
    ensures Onward(cfg, a, a)
  {
    hide Reaches;
    ReachesSelf(cfg, a.model);
  }

  // ---------- A data frame taken in ----------

  function FrameTaken(s: Endpoint, f: Frame, deferred: bool, asm: Assembler, event: Event): Endpoint {
    var t := TakenIn(s, Own(Data(f)), deferred).(assembler := Some(asm));
    match event
    case Duplicate(Some(n)) => t.(owed := t.owed + [n])
    case Complete(n, bytes) => t.(delivered := t.delivered + [bytes], owed := t.owed + [n], notes := t.notes + [Delivered(bytes)])
    case _ => t
  }

  lemma FrameIs(cfg: Config, s: Endpoint, f: Frame, deferred: bool, asm: Assembler, event: Event)
    requires s.assembler.Some? && WellFormedFrame(f) && Accept(cfg, s.assembler.value, f, s.clock) == (asm, event)
    ensures var t := Process(cfg, TakenIn(s, Own(Data(f)), deferred), Own(Data(f)), s.clock);
      t == if event.Fault? then Degrade(TakenIn(s, Own(Data(f)), deferred), event.reason) else FrameTaken(s, f, deferred, asm, event)
  {
    hide Accept, Degrade;
    assert Parse(Own(Data(f))) == Some(Data(f));
  }

  lemma FrameIsOnward(cfg: Config, a: Snapshot, b: Snapshot, f: Frame, deferred: bool, asm: Assembler, event: Event)
    requires a.depth == 0 && Alive(a.model) && b == a.(model := b.model, deferred := b.deferred)
      && b.deferred <= a.deferred
    requires b.model == FrameTaken(a.model, f, deferred, asm, event) && Reaches(cfg, a.model, b.model)
    ensures Onward(cfg, a, b) && Alive(b.model) && (AllSent(a.model) ==> AllSent(b.model))
    ensures b.model.seen == a.model.seen + [Own(Data(f))]
    ensures b.model.owed == a.model.owed + OwedFor(event)
  {
  }

  /** The acknowledgement an accepted frame calls for. */
  function OwedFor(event: Event): seq<nat> {
    match event
    case Duplicate(Some(n)) => [n]
    case Complete(n, _) => [n]
    case _ => []
  }

  // ---------- A sendFrame call ----------

  predicate Wired(r: Reaction) {
    r.outcome.Takes? || (r.outcome.Throws? && r.outcome.wired)
  }

  function SendStep(payload: Payload, wire: bool): Step {
    if payload.Ack? then BeginAck(wire) else BeginFrame(wire)
  }

  /** The payload is what the endpoint sends next: the pending acknowledgement before any data. */
  predicate IsNext(s: Endpoint, payload: Payload) {
    match payload
    case Ack(n) => s.pendingAck.Some? && s.pendingAck.value.messageSeq == n
    case Data(f) =>
      && s.pendingAck.None? && s.cursor < |s.queue|
      && s.queue[s.cursor].nextFrameIndex < |s.queue[s.cursor].frames|
      && f == s.queue[s.cursor].frames[s.queue[s.cursor].nextFrameIndex]
  }

  function OpenCall(payload: Payload, wire: bool): Call {
    match payload
    case Ack(n) => AckCall(n, wire)
    case Data(_) => FrameCall(wire)
  }

  lemma SendIs(cfg: Config, s: Endpoint, payload: Payload, wire: bool)
    requires Alive(s) && s.call.Idle? && IsNext(s, payload)
    ensures Enabled(s, SendStep(payload, wire))
    ensures var t := Apply(cfg, s, SendStep(payload, wire));
      t == s.(call := OpenCall(payload, wire), maxWired := t.maxWired)
  {
  }

  /** From before a sendFrame call (a) to after it (b), with the call still to be accounted for. */
  ghost predicate Sent(cfg: Config, a: Snapshot, b: Snapshot) {
    && a.depth == b.depth == 0 && a.model.call.Idle?
    && b.tape <= a.tape && a.refusals <= b.refusals && a.taken <= b.taken
    && (b.tape < a.tape || b.deferred <= a.deferred)
    && a.model.messages <= b.model.messages && a.model.delivered <= b.model.delivered
    && a.model.seen <= b.model.seen && a.model.notes <= b.model.notes && a.model.replays <= b.model.replays
    && (Alive(b.model) ==> Alive(a.model) && b.model.owed == a.model.owed)
    && (Alive(b.model) ==> a.model.queue <= b.model.queue && b.model.cursor == a.model.cursor && b.model.pendingAck == a.model.pendingAck)
    && (TimerFits(a.model, a.timer, cfg.graceMs) ==> TimerFits(b.model, b.timer, cfg.graceMs))
    && Reaches(cfg, a.model, b.model)
  }

  /** The payload is on its way into sendFrame. */
  ghost predicate Begun(cfg: Config, a: Snapshot, b: Snapshot) {
    && Reaches(cfg, a.model, b.model)
    && b.depth > 0 && b.tape <= a.tape && a.taken <= b.taken
    && b == a.(depth := b.depth, tape := b.tape, taken := b.taken, model := a.model.(call := b.model.call, maxWired := b.model.maxWired))
  }

  lemma SentIs(cfg: Config, a: Snapshot, b: Snapshot, c: Snapshot, d: Snapshot)
    requires a.depth == 0 && a.model.call.Idle? && Begun(cfg, a, b)
    requires b.tape < a.tape || c == b
    requires Onward(cfg, b, c) && (Alive(c.model) ==> c.model.owed == b.model.owed)
    requires d == c.(depth := 0, refusals := d.refusals) && d.refusals >= c.refusals
    ensures Sent(cfg, a, d)
  {
    hide Reaches;
    ReachesTrans(cfg, a.model, b.model, c.model);
  }

  /** Accounting for the call: nothing, or the acknowledgement is gone, or the cursor moved one frame. */
  lemma CallEnds(cfg: Config, a: Snapshot, b: Snapshot, c: Snapshot)
    requires Sent(cfg, a, b) && c == b.(model := EndCall(b.model), timer := c.timer)
    requires c.timer == b.timer || TimerFits(c.model, c.timer, cfg.graceMs)
    requires b.model.call.AckCall? && EndCall(b.model).pendingAck != b.model.pendingAck ==>
      TimerFits(c.model, c.timer, cfg.graceMs)
    requires !b.model.call.Idle?
    ensures Onward(cfg, a, c)
    ensures Alive(c.model) ==> Alive(a.model) && c.model.owed == a.model.owed
  {
    hide Min, Reaches;
    EndCallReaches(cfg, b.model);
    ReachesTrans(cfg, a.model, b.model, c.model);
  }

  lemma EndCallReaches(cfg: Config, s: Endpoint)
    requires !s.call.Idle?
    ensures Reaches(cfg, s, EndCall(s))
  {
    hide Reaches, EndCall;
    ReachesStep(cfg, s, EndSend);
  }

  lemma RefusedIs(s: Endpoint, payload: Payload, wire: bool)
    requires s.call == OpenCall(payload, wire) && (!wire || !Alive(s))
    ensures !s.call.Idle? && EndCall(s) == s.(call := Idle)
  {
  }

  lemma FrameSentIs(s: Endpoint)
    requires s.call == FrameCall(true) && Alive(s) && s.cursor < |s.queue|
    ensures var b := s.queue[s.cursor]; var last := b.nextFrameIndex + 1 == |b.frames|; var t := EndCall(s);
      t == s.(call := Idle, lastSent := t.lastSent,
              queue := s.queue[s.cursor := b.(nextFrameIndex := b.nextFrameIndex + 1)],
              cursor := if last then s.cursor + 1 else s.cursor,
              highestFullySent := if last then Max(s.highestFullySent, b.messageSeq) else s.highestFullySent)
  {
  }

  lemma CursorInside(cfg: Config, start: int, s: Endpoint)
    requires Lineage(cfg, start, s) && Alive(s)
    ensures s.cursor <= |s.queue|
    ensures s.cursor < |s.queue| ==> s.queue[s.cursor].nextFrameIndex < |s.queue[s.cursor].frames|
  {
    assert s.cursor < |s.queue| ==> Entry(cfg, s, s.cursor);
  }

  lemma FrameCallHasBatch(cfg: Config, start: int, s: Endpoint)
    requires Lineage(cfg, start, s) && Alive(s) && s.call.FrameCall?
    ensures s.cursor < |s.queue|
  {
    assert Calls(s);
  }

  lemma ReplayIs(cfg: Config, a: Snapshot, b: Snapshot)
    requires a.depth == 0 && Alive(a.model) && a.model.call.Idle?
    requires b == a.(model := a.model.(queue := Rewound(a.model.queue), cursor := 0, lastSent := 0, replays := a.model.replays + 1))
    ensures Enabled(a.model, Replay) && b.model == Apply(cfg, a.model, Replay)
    ensures Onward(cfg, a, b) && Alive(b.model)
  {
    hide Reaches;
    ReachesStep(cfg, a.model, Replay);
  }

  lemma RearmedIsOnward(cfg: Config, a: Snapshot, b: Snapshot, c: Snapshot, d: Snapshot)
    requires b == a.(timer := b.timer) && Onward(cfg, b, c)
    requires d == c.(timer := d.timer) && (Alive(d.model) ==> TimerFits(d.model, d.timer, cfg.graceMs))
    ensures Onward(cfg, a, d)
  {
    hide Reaches;
  }

  lemma AckSentIs(s: Endpoint, n: nat)
    requires s.call == AckCall(n, true) && Alive(s)
    ensures EndCall(s) == s.(call := Idle, pendingAck := if s.pendingAck.Some? && s.pendingAck.value.messageSeq == n then None else s.pendingAck)
  {
  }

  class AcknowledgedRelayProtocol {
    ghost const start: int
    const cfg: Config
    const env: Environment
    const outboundBatches: BatchQueue
    const deadline: Deadline
    var assembler: Option<Assembler>
    var queuedInbound: seq<Candidate>
    var pendingAckMessageSeq: Option<nat>
    var pendingAckQueuedAt: Option<int>
    var nextPhysicalSeq: nat
    var nextMessageSeq: nat
    var highestFullySentMessageSeq: nat
    var lastAckedMessageSeq: nat
    var unacknowledgedByteCount: int
    var saturated: bool
    var disposed: bool
    var degraded: bool
    var flushing: bool
    var outboundCallDepth: nat
    ghost var model: Endpoint

    ghost function Footprint(): set<object> {
      {this, env, outboundBatches, deadline}
    }

    /** The fields are the model's; the call depth is the given one. */
    ghost predicate Matches(depth: nat)
      reads this, env`clock, outboundBatches, deadline`disposed
    {
      && outboundBatches.Valid()
      && model.queue == outboundBatches.Contents() && model.cursor == outboundBatches.Cursor()
      && model.inbound == queuedInbound
      && (pendingAckMessageSeq.Some? <==> pendingAckQueuedAt.Some?)
      && model.pendingAck == (if pendingAckMessageSeq.Some? && pendingAckQueuedAt.Some?
                              then Some(PendingAck(pendingAckMessageSeq.value, pendingAckQueuedAt.value)) else None)
      && model.nextPhysicalSeq == nextPhysicalSeq && model.nextMessageSeq == nextMessageSeq
      && model.highestFullySent == highestFullySentMessageSeq && model.lastAcked == lastAckedMessageSeq
      && model.unacknowledged == unacknowledgedByteCount && model.saturated == saturated
      && model.disposed == disposed && model.degraded == degraded
      && model.assembler == assembler && model.clock == env.clock
      && depth == (if model.call.Idle? then 0 else 1)
      && (depth > 0 ==> flushing)
      && deadline.graceMs == cfg.graceMs && (deadline.disposed <==> !Alive(model))
      && Lineage(cfg, start, model)
    }

    ghost predicate Valid()
      reads this, env`clock, outboundBatches, deadline`disposed
    {
      Matches(outboundCallDepth)
    }

    ghost function Snap(): Snapshot
      reads this, env, deadline`timer
    {
      Snapshot(model, outboundCallDepth, |queuedInbound|, |env.tape|, env.refusals, env.taken, deadline.timer)
    }

    /** What any call leaves as it was, and what it may only move forward. */
    twostate predicate Kept(f: bool)
      reads this, env, outboundBatches, deadline
    {
      && Valid() && flushing == f
      && (Alive(model) ==> old(Alive(model)) && model.owed == old(model.owed))
      && Onward(cfg, old(Snap()), Snap())
    }

    constructor (cfg: Config, env: Environment)
      requires ValidLimits(cfg)
      ensures Valid() && this.cfg == cfg && this.env == env && model == Initial(env.clock)
      ensures fresh(outboundBatches) && fresh(deadline) && TimerFits(model, deadline.timer, cfg.graceMs)
    {
      this.cfg, this.env, start := cfg, env, env.clock;
      outboundBatches := new BatchQueue();
      deadline := new Deadline(cfg.graceMs);
      assembler := Some(FRESH_ASSEMBLER);
      queuedInbound, pendingAckMessageSeq, pendingAckQueuedAt := [], None, None;
      nextPhysicalSeq, nextMessageSeq, highestFullySentMessageSeq, lastAckedMessageSeq := 1, 1, 0, 0;
      unacknowledgedByteCount := 0;
      saturated, disposed, degraded, flushing, outboundCallDepth := false, false, false, false, 0;
      model := Initial(env.clock);
      new;
      InitialInv(cfg, env.clock);
      ReachesSelf(cfg, Initial(env.clock));
    }

    // ---------- Clock and deadline ----------

    method Now() returns (t: int)
      requires Valid()
      modifies this`model, env`clock
      ensures Valid()
      ensures model == old(model).(clock := env.clock) && t == env.clock && Reaches(cfg, old(model), model)
      ensures old(model.clock) <= t
    {
      hide Process, Reserve, EndCall, Lineage, Values;
      t := env.Now();
      Advance(cfg, start, model, Tick(t));
      model := Apply(cfg, model, Tick(t));
    }

    method ReadDeadlineState() returns (data: Option<Pending>, ack: Option<Pending>)
      requires Valid()
      ensures data == if model.queue == [] then None else Some(Pending(model.queue[0].queuedAt, model.queue[0].messageSeq))
      ensures ack == match model.pendingAck case None => None case Some(p) => Some(Pending(p.queuedAt, p.messageSeq))
    {
      var oldest := outboundBatches.Oldest();
      data := if oldest.None? then None else Some(Pending(oldest.value.queuedAt, oldest.value.messageSeq));
      ack := if pendingAckQueuedAt.None? || pendingAckMessageSeq.None? then None
             else Some(Pending(pendingAckQueuedAt.value, pendingAckMessageSeq.value));
    }

    method RefreshDeadline()
      requires Valid()
      modifies deadline`timer
      ensures Valid() && TimerFits(model, deadline.timer, cfg.graceMs)
    {
      hide Lineage, Reaches, TookFirst, Values;
      var data, ack := ReadDeadlineState();
      deadline.Refresh(data, ack);
    }
  
    /** The fault deadline.check finds in the protocol's state; if it finds none, nothing at all is overdue. */
    method OverdueFault() returns (fault: Option<Reason>)
      requires Valid() && Alive(model)
      modifies this`model, env`clock
      ensures Valid() && model == old(model).(clock := env.clock) && Reaches(cfg, old(model), model)
      ensures old(model.clock) <= model.clock
      ensures fault.None? ==> NoneOverdue(model, cfg.graceMs)
      ensures fault.Some? ==> fault.value == ReplayGraceExceeded || fault.value == AckGraceExceeded
    {
      hide Lineage, Reaches, TookFirst, Values, Apply, Degrade, LiveInv, History, NoneOverdue;
      var data, ack := ReadDeadlineState();
      var now := Now();
      fault := deadline.Check(data, ack, now);
      if fault.None? {
        OldestDecides(cfg, start, model);
      }
    }

    /** deadline.check with the protocol's reaction to an overdue entry. */
    method CheckDeadline() returns (expired: bool)
      requires Valid() && Alive(model)
      modifies Footprint()
      ensures Kept(old(flushing))
      ensures expired <==> !Alive(model)
      ensures expired ==> OverdueNoted(old(model.notes), model.notes)
      ensures !expired ==> model == old(model).(clock := env.clock) && Snap() == old(Snap()).(model := model)
      ensures !expired ==> old(model.clock) <= model.clock
      ensures !expired ==> NoneOverdue(model, cfg.graceMs)
      decreases 2 * |env.tape|, |queuedInbound|, 2
    {
      hide Lineage, Reaches, TookFirst, Values, Apply, Degrade, TimerFits, Onward, NoneOverdue, Matches;
      var fault := OverdueFault();
      ghost var s1 := Snap();
      TickIsOnward(cfg, old(Snap()), s1);
      if fault.None? {
        return false;
      }
      FailIs(cfg, model, fault.value);
      MatchesInbound();
      EnterDegraded(fault.value, Fail(fault.value), model.seen);
      OnwardTrans(cfg, old(Snap()), s1, Snap());
      return true;
    }

    // What Valid says about some of the fields, for where the rest is hidden.

    lemma MatchesInbound()
      requires Valid()
      ensures model.inbound == queuedInbound && model.clock == env.clock
      ensures Alive(model) <==> !disposed && !degraded
    {
    }

    lemma MatchesCounters()
      requires Valid()
      ensures model.nextPhysicalSeq == nextPhysicalSeq && model.nextMessageSeq == nextMessageSeq
      ensures model.unacknowledged == unacknowledgedByteCount && Lineage(cfg, start, model)
      ensures outboundCallDepth == 0 <==> model.call.Idle?
    {
    }

    // ---------- Calls into code outside ----------

    /** A listener runs. It may call anything, and may throw. */
    method Fire() returns (threw: bool)
      requires Valid()
      modifies Footprint()
      ensures Kept(old(flushing))
      ensures threw ==> env.refusals > old(env.refusals)
      ensures |env.tape| < |old(env.tape)| || Snap() == old(Snap())
      ensures !old(flushing) && env.refusals == old(env.refusals) && old(AllSent(model)) ==> AllSent(model)
      decreases 2 * |env.tape|, |queuedInbound|, 0
    {
      hide Lineage, Reaches, TookFirst, Values, Matches, TimerFits, AllSent, Alive;
      OnwardSelf(cfg, Snap());
      if disposed || env.tape == [] {
        return false;
      }
      var reaction := env.NextReaction();
      ghost var s1 := Snap();
      RunCalls(reaction.calls);
      threw := reaction.outcome.Throws?;
      if threw {
        env.refusals := env.refusals + 1;
      }
    }

    method RunCalls(calls: seq<OuterCall>)
      requires Valid()
      modifies Footprint()
      ensures Kept(old(flushing))
      ensures !old(flushing) && env.refusals == old(env.refusals) && old(AllSent(model)) ==> AllSent(model)
      decreases 2 * |env.tape| + 1, 0, 0
    {
      hide Lineage, Reaches, TookFirst, Values, Matches, TimerFits, Alive;
      OnwardSelf(cfg, Snap());
      for i := 0 to |calls|
        invariant Kept(old(flushing)) && |env.tape| <= |old(env.tape)| && old(env.refusals) <= env.refusals
        invariant !old(flushing) && env.refusals == old(env.refusals) && old(AllSent(model)) ==> AllSent(model)
      {
        RunCall(calls[i], old(Snap()));
      }
    }

    /** One call from outside; s0 is where the caller's own account starts. */
    method RunCall(call: OuterCall, ghost s0: Snapshot)
      requires Valid() && Onward(cfg, s0, Snap())
      modifies Footprint()
      ensures Kept(old(flushing)) && Onward(cfg, s0, Snap())
      ensures |env.tape| <= |old(env.tape)| && old(env.refusals) <= env.refusals
      ensures !old(flushing) && env.refusals == old(env.refusals) && old(AllSent(model)) ==> AllSent(model)
      decreases 2 * |env.tape|, |queuedInbound|, 10
    {
      hide Lineage, Reaches, TookFirst, Values, Matches, TimerFits, Alive;
      ghost var s1 := Snap();
      OnwardSelf(cfg, s1);
      match call {
        case CallSend(bytes) => ReserveMessage(bytes);
        case CallAccept(candidate) => var _ := AcceptPayload(candidate);
        case CallFlush => var _ := FlushPendingFrames();
        case CallReplay =>
          // sendFrame itself does not call replayUnacknowledged.
          if outboundCallDepth == 0 {
            var _ := ReplayUnacknowledged();
          }
        case CallMark => MarkDegraded();
        case CallDispose => Dispose();
      }
      OnwardTrans(cfg, s0, s1, Snap());
    }

    /** What enterDegraded and dispose both throw away. */
    method DropState()
      requires outboundBatches.Valid()
      modifies this`queuedInbound, this`pendingAckMessageSeq, this`pendingAckQueuedAt, this`unacknowledgedByteCount, this`assembler
      modifies deadline, outboundBatches
      ensures deadline.disposed && deadline.timer == None
      ensures outboundBatches.Valid() && outboundBatches.Contents() == [] && outboundBatches.Cursor() == 0
      ensures queuedInbound == [] && pendingAckMessageSeq == None && pendingAckQueuedAt == None
      ensures unacknowledgedByteCount == 0 && assembler == None
    {
      deadline.Dispose();
      outboundBatches.Clear();
      queuedInbound, pendingAckMessageSeq, pendingAckQueuedAt := [], None, None;
      unacknowledgedByteCount, assembler := 0, None;
    }

    method EnterDegraded(reason: Reason, ghost step: Step, ghost seen: seq<Candidate>)
      requires Valid()
      requires Alive(model) ==> Enabled(model, step) && Apply(cfg, model, step) == Degrade(model.(seen := seen), reason)
      requires model.seen <= seen
      modifies Footprint()
      ensures Kept(old(flushing)) && !Alive(model)
      // The first thing that happens is that the endpoint degrades, for this reason.
      ensures old(Alive(model)) ==> old(model.notes) + [Degraded(reason)] <= model.notes
      ensures old(Alive(model)) ==> Reaches(cfg, Degrade(old(model).(seen := seen), reason), model)
      // A second fault changes nothing.
      ensures !old(Alive(model)) ==> Snap() == old(Snap())
      ensures |env.tape| < |old(env.tape)| || |queuedInbound| <= |old(queuedInbound)|
      ensures old(Alive(model)) ==> |env.tape| < |old(env.tape)| || queuedInbound == []
      decreases 2 * |env.tape|, 0, 1
    {
      hide Lineage, Reaches, TookFirst, Values, Matches, Apply, TimerFits, Onward;
      DeadByFields();
      OnwardSelf(cfg, Snap());
      if disposed || degraded {
        return;
      }
      Collapse(reason, step, seen);
      ghost var s1 := Snap();
      DeadIsOnward(cfg, old(Snap()), s1);
      var _ := Fire();
      OnwardReaches(cfg, s1, Snap());
      OnwardMessages(cfg, s1, Snap());
      OnwardTrans(cfg, old(Snap()), s1, Snap());
    }

    method ShutDown()
      requires Valid() && !disposed
      modifies this, deadline, outboundBatches
      ensures Valid() && model == Disposed(old(model)) && queuedInbound == [] && Reaches(cfg, old(model), model)
      ensures flushing == old(flushing) && outboundCallDepth == old(outboundCallDepth)
    {
      hide Lineage, Reaches, TookFirst, Values, Apply;
      Advance(cfg, start, model, DisposeStep);
      DisposeIs(cfg, model);
      model := Apply(cfg, model, DisposeStep);
      disposed := true;
      DropState();
    }

    lemma DisposedAlready()
      requires Valid() && disposed
      ensures Disposed(model) == model
    {
    }

    lemma DeadByFields()
      requires Valid()
      ensures Alive(model) <==> !disposed && !degraded
    {
    }

    /** enterDegraded up to the listeners. */
    method Collapse(reason: Reason, ghost step: Step, ghost seen: seq<Candidate>)
      requires Valid() && Alive(model)
      requires Enabled(model, step) && Apply(cfg, model, step) == Degrade(model.(seen := seen), reason)
      requires model.seen <= seen
      modifies this, deadline, outboundBatches
      ensures Valid() && model == Degrade(old(model).(seen := seen), reason)
      ensures queuedInbound == [] && Reaches(cfg, old(model), model)
      ensures flushing == old(flushing) && outboundCallDepth == old(outboundCallDepth)
    {
      hide Lineage, Reaches, TookFirst, Values, Apply, Enabled;
      Advance(cfg, start, model, step);
      model := Apply(cfg, model, step);
      degraded := true;
      DropState();
      saturated := false;
    }

    method MarkDegraded()
      requires Valid()
      modifies Footprint()
      ensures Kept(old(flushing)) && !Alive(model)
      ensures old(Alive(model)) ==> old(model.notes) + [Degraded(ManuallyDegraded)] <= model.notes
      decreases 2 * |env.tape|, |queuedInbound|, 2
    {
      hide Lineage, Reaches, TookFirst, Values, Apply, Degrade;
      FailIs(cfg, model, ManuallyDegraded);
      EnterDegraded(ManuallyDegraded, Fail(ManuallyDegraded), model.seen);
    }

    method Dispose()
      requires Valid()
      modifies Footprint()
      ensures Kept(old(flushing)) && !Alive(model) && model == Disposed(old(model))
      ensures env.tape == old(env.tape) && env.refusals == old(env.refusals)
      decreases 2 * |env.tape|, |queuedInbound|, 0
    {
      hide Lineage, Reaches, TookFirst, Values, Apply, TimerFits, Onward, Disposed;
      DeadByFields();
      OnwardSelf(cfg, Snap());
      DisposeIs(cfg, model);
      if disposed {
        DisposedAlready();
        return;
      }
      ShutDown();
      DeadIsOnward(cfg, old(Snap()), Snap());
    }
  
    // ---------- Reserving ----------

    /** A message is admitted whole, before its first frame is sent, or not at all. */
    method ReserveMessage(bytes: Bytes)
      requires Valid()
      modifies Footprint()
      ensures Kept(old(flushing))
      ensures Alive(model) ==> old(model.messages) + [bytes] <= model.messages
      ensures !old(flushing) && env.refusals == old(env.refusals) ==> AllSent(model)
      decreases 2 * |env.tape|, |queuedInbound|, 6
    {
      hide Lineage, Reaches, TookFirst, Values, Degrade, TimerFits, Matches, Onward, NoneOverdue, Progress;
      MatchesInbound();
      OnwardSelf(cfg, Snap());
      if disposed || degraded {
        return;
      }
      var expired := CheckDeadline();
      if expired {
        return;
      }
      ghost var s1 := Snap();
      var admitted := TryReserve(bytes);
      ghost var s2 := Snap();
      OnwardTrans(cfg, old(Snap()), s1, s2);
      OnwardMessages(cfg, s1, s2);
      if !admitted {
        return;
      }
      var _ := FlushPendingFrames();
      OnwardTrans(cfg, old(Snap()), s2, Snap());
      OnwardMessages(cfg, s2, Snap());
    }

    /** reserveMessage between the deadline check and the flush. */
    method TryReserve(bytes: Bytes) returns (admitted: bool)
      requires Valid() && Alive(model)
      modifies Footprint()
      ensures Kept(old(flushing))
      // The first thing that happens is the step that admits the message, or degrades the endpoint.
      ensures ReservedFirst(cfg, old(model), bytes, model)
      ensures !admitted ==> !Alive(model)
      ensures Alive(model) ==> old(model.messages) + [bytes] <= model.messages
      ensures |env.tape| < |old(env.tape)| || |queuedInbound| <= |old(queuedInbound)|
      decreases 2 * |env.tape|, |queuedInbound|, 4
    {
      hide Lineage, Reaches, TookFirst, Values, Apply, Degrade, TimerFits, Onward, Matches, Reserve, Admit, Encode, Measure, Progress;
      ghost var s0 := model;
      MatchesInbound();
      MatchesCounters();
      ReserveIs(cfg, model, bytes);
      var encoded := Encode(cfg, bytes, nextPhysicalSeq, nextMessageSeq);
      if encoded.Err? {
        EnterDegraded(encoded.error, ReserveStep(bytes, model.clock), model.seen);
        ReservedAt(cfg, s0, bytes, s0.clock, model);
        return false;
      }
      var outer := MeasureBatch(cfg, encoded.value);
      if outer.None? {
        EnterDegraded(OuterMeterFailed, ReserveStep(bytes, model.clock), model.seen);
        ReservedAt(cfg, s0, bytes, s0.clock, model);
        return false;
      }
      if unacknowledgedByteCount + outer.value > cfg.replayCap {
        EnterDegraded(ReplayBufferExceeded, ReserveStep(bytes, model.clock), model.seen);
        ReservedAt(cfg, s0, bytes, s0.clock, model);
        return false;
      }
      var rises := AdmitBatch(bytes, encoded.value, outer.value);
      ghost var now := model.clock;
      AnnounceAdmission(rises, old(Snap()), bytes);
      ReservedAt(cfg, s0, bytes, now, model);
      return true;
    }

    /** reserveMessage from the append to the saturation flag. */
    method AppendBatch(frames: seq<Frame>, outer: nat, now: int) returns (rises: bool)
      requires outboundBatches.Valid() && frames != []
      modifies this`unacknowledgedByteCount, this`nextMessageSeq, this`nextPhysicalSeq, this`saturated, outboundBatches
      ensures outboundBatches.Valid() && outboundBatches.Cursor() == old(outboundBatches.Cursor())
      ensures outboundBatches.Contents() == old(outboundBatches.Contents()) + [Batch(old(nextMessageSeq), frames, outer, now, 0)]
      ensures unacknowledgedByteCount == old(unacknowledgedByteCount) + outer
      ensures nextMessageSeq == old(nextMessageSeq) + 1 && nextPhysicalSeq == frames[|frames| - 1].seqNo + 1
      ensures rises <==> !old(saturated) && unacknowledgedByteCount > cfg.highWaterMark
      ensures saturated == (old(saturated) || rises)
    {
      outboundBatches.Append(Batch(nextMessageSeq, frames, outer, now, 0));
      unacknowledgedByteCount := unacknowledgedByteCount + outer;
      nextMessageSeq := nextMessageSeq + 1;
      nextPhysicalSeq := frames[|frames| - 1].seqNo + 1;
      rises := !saturated && unacknowledgedByteCount > cfg.highWaterMark;
      if rises {
        saturated := true;
      }
    }

    method AdmitBatch(bytes: Bytes, frames: seq<Frame>, outer: nat) returns (rises: bool)
      requires Valid() && Alive(model)
      requires Encode(cfg, bytes, nextPhysicalSeq, nextMessageSeq) == Ok(frames)
      requires Measure(cfg, frames) == Some(outer) && unacknowledgedByteCount + outer <= cfg.replayCap
      modifies this, env`clock, outboundBatches
      ensures Valid() && flushing == old(flushing) && outboundCallDepth == old(outboundCallDepth)
      ensures Admitted(cfg, old(Snap()), Snap(), bytes)
      ensures Enabled(old(model), ReserveStep(bytes, model.clock)) && model == Apply(cfg, old(model), ReserveStep(bytes, model.clock))
    {
      hide Lineage, Reaches, TookFirst, Values, Apply, Encode, Measure, Reserve, EncodedBatch;
      var now := Now();
      FramesExist(cfg, bytes, nextPhysicalSeq, nextMessageSeq);
      ReserveIs(cfg, model, bytes);
      ReserveAfterTick(cfg, old(model), bytes, model.clock);
      Advance(cfg, start, model, ReserveStep(bytes, model.clock));
      ghost var after := Apply(cfg, model, ReserveStep(bytes, model.clock));
      ReachesTrans(cfg, old(model), model, after);
      rises := AppendBatch(frames, outer, now);
      model := after;
    }

    /** Telling the listeners, and arming the timer. */
    method AnnounceAdmission(rises: bool, ghost s1: Snapshot, ghost bytes: Bytes)
      requires Valid() && Admitted(cfg, s1, Snap(), bytes)
      modifies Footprint()
      ensures Valid() && flushing == old(flushing) && env.refusals >= old(env.refusals)
      ensures Onward(cfg, s1, Snap()) && Reaches(cfg, old(model), model)
      ensures Alive(model) ==> old(Alive(model)) && model.owed == s1.model.owed
      ensures s1.model.messages + [bytes] <= model.messages
      ensures |env.tape| < |old(env.tape)| || |queuedInbound| <= |old(queuedInbound)|
      decreases 2 * |env.tape|, |queuedInbound|, 1
    {
      hide Lineage, Reaches, TookFirst, Values, Apply, Matches, TimerFits;
      ghost var s2 := Snap();
      OnwardSelf(cfg, s2);
      if rises {
        var _ := Fire();
      }
      ghost var s3 := Snap();
      OnwardReaches(cfg, s2, s3);
      RefreshDeadline();
      AdmissionIsOnward(cfg, s1, s2, s3, Snap(), bytes);
    }
  
    // ---------- Inbound ----------

    /** The acknowledgement owed for the last completed message (or for a duplicate) is queued. */
    method QueueAck(messageSeq: nat)
      requires Valid() && outboundCallDepth == 0
      requires Alive(model) ==> model.owed != [] && model.owed[|model.owed| - 1] == messageSeq
      modifies Footprint()
      ensures Valid() && flushing == old(flushing) && Onward(cfg, old(Snap()), Snap())
      ensures Alive(model) ==> old(Alive(model)) && model.owed == old(model.owed)[..|old(model.owed)| - 1]
      ensures old(Alive(model)) ==> QueuedFirst(cfg, old(model), model)
      ensures !old(flushing) && env.refusals == old(env.refusals) ==> AllSent(model)
      decreases 2 * |env.tape|, |queuedInbound|, 6
    {
      hide Lineage, Reaches, TookFirst, Values, TimerFits, Matches, Onward;
      MatchesInbound();
      OnwardSelf(cfg, Snap());
      if disposed || degraded {
        return;
      }
      RecordAck(messageSeq);
      ghost var s1 := Snap();
      assert Step.QueueAck(model.clock) == Step.QueueAck(model.clock);
      var _ := FlushPendingFrames();
      OnwardReaches(cfg, s1, Snap());
      OnwardTrans(cfg, old(Snap()), s1, Snap());
      OnwardMessages(cfg, s1, Snap());
    }

    method RecordAck(messageSeq: nat)
      requires Valid() && Alive(model) && outboundCallDepth == 0
      requires model.owed != [] && model.owed[|model.owed| - 1] == messageSeq
      modifies this, env`clock, deadline`timer
      ensures Valid() && Alive(model) && flushing == old(flushing) && Onward(cfg, old(Snap()), Snap())
      ensures model.owed == old(model.owed)[..|old(model.owed)| - 1]
      ensures Snap() == old(Snap()).(model := model, timer := deadline.timer)
      ensures Enabled(old(model), Step.QueueAck(model.clock)) && model == Apply(cfg, old(model), Step.QueueAck(model.clock))
      // The pending acknowledgement is cumulative: it never goes back.
      ensures model.pendingAck.Some? && model.pendingAck.value.messageSeq >= messageSeq
      ensures model == old(model).(clock := model.clock, owed := model.owed, pendingAck := model.pendingAck)
    {
      hide Lineage, Reaches, TookFirst, Values, Apply, TimerFits, Onward;
      ghost var s0 := Snap();
      var first := pendingAckMessageSeq.None?;
      var now := pendingAckQueuedAt.GetOr(0);
      if first {
        now := Now();
      }
      QueueAckIs(cfg, model);
      QueueAfterTick(cfg, old(model), model.clock);
      Advance(cfg, start, model, Step.QueueAck(model.clock));
      ghost var after := Apply(cfg, model, Step.QueueAck(model.clock));
      OnToAck(old(model), model, after);
      NoteAck(messageSeq, now);
      model := after;
      if first {
        RefreshDeadline();
      }
      AckIsOnward(cfg, s0, Snap());
    }

    /** The clock may have been read on the way, or not. */
    lemma OnToAck(s: Endpoint, t: Endpoint, u: Endpoint)
      requires (t == s || Reaches(cfg, s, t)) && Reaches(cfg, t, u)
      ensures Reaches(cfg, s, u)
    {
      hide Reaches;
      if t != s {
        ReachesTrans(cfg, s, t, u);
      }
    }

    method NoteAck(messageSeq: nat, now: int)
      requires pendingAckMessageSeq.Some? <==> pendingAckQueuedAt.Some?
      modifies this`pendingAckMessageSeq, this`pendingAckQueuedAt
      ensures old(pendingAckMessageSeq).None? ==>
        pendingAckMessageSeq == Some(messageSeq) && pendingAckQueuedAt == Some(now)
      ensures old(pendingAckMessageSeq).Some? ==>
        pendingAckMessageSeq == Some(Max(messageSeq, old(pendingAckMessageSeq).value)) && pendingAckQueuedAt == old(pendingAckQueuedAt)
    {
      if pendingAckMessageSeq.None? {
        pendingAckMessageSeq, pendingAckQueuedAt := Some(messageSeq), Some(now);
      } else if messageSeq > pendingAckMessageSeq.value {
        pendingAckMessageSeq := Some(messageSeq);
      }
    }
  
    /** processInbound; a deferred payload leaves the queue here. */
    method ProcessInbound(c: Candidate, deferred: bool)
      requires Valid() && Alive(model) && outboundCallDepth == 0 && (deferred || c.Own? || c.Malformed?)
      requires deferred ==> queuedInbound != [] && queuedInbound[0] == c
      modifies Footprint()
      ensures Kept(old(flushing))
      // The first thing that happens is that the payload is taken in, by the step of its kind.
      ensures TookFirst(cfg, old(model), c, deferred, model)
      ensures Alive(model) ==> |model.seen| > |old(model.seen)| && model.seen[|old(model.seen)|] == c
      ensures deferred ==> |env.tape| < |old(env.tape)| || |queuedInbound| < |old(queuedInbound)|
      ensures !old(flushing) && env.refusals == old(env.refusals) && old(AllSent(model)) ==> AllSent(model)
      decreases 2 * |env.tape|, |queuedInbound| - (if deferred then 1 else 0), 8
    {
      hide Lineage, Reaches, TookFirst, Values, Apply, Matches, Process, Onward, TimerFits, WellFormedPayload;
      var parsed := Parse(c);
      match parsed {
        case None =>
          UnparsedFaults(cfg, TakenIn(model, c, deferred), c);
          TakeFault(c, deferred, InvalidPayload);
        case Some(Ack(n)) => ProcessAckPayload(n, deferred);
        case Some(Data(f)) => ProcessFramePayload(f, deferred);
      }
    }

    /** A payload that degrades the endpoint. */
    method TakeFault(c: Candidate, deferred: bool, reason: Reason)
      requires Valid() && Alive(model) && outboundCallDepth == 0 && (deferred || c.Own? || c.Malformed?)
      requires deferred ==> queuedInbound != [] && queuedInbound[0] == c
      requires Process(cfg, TakenIn(model, c, deferred), c, model.clock) == Degrade(TakenIn(model, c, deferred), reason)
      modifies Footprint()
      ensures Kept(old(flushing)) && !Alive(model) && TookFirst(cfg, old(model), c, deferred, model)
      ensures deferred ==> |env.tape| < |old(env.tape)| || |queuedInbound| < |old(queuedInbound)|
      decreases 2 * |env.tape|, |queuedInbound| - (if deferred then 1 else 0), 2
    {
      hide Lineage, Reaches, TookFirst, Values, Apply, Process, Onward, TimerFits, Degrade, Matches;
      MayTakeNow(c, deferred);
      TakeFaults(cfg, model, c, deferred, reason);
      EnterDegraded(reason, TakeStep(c, deferred, model.clock), model.seen + [c]);
      TookByFault(cfg, old(model), c, deferred, reason, model);
    }

    lemma MayTakeNow(c: Candidate, deferred: bool)
      requires Valid() && Alive(model) && outboundCallDepth == 0 && (deferred || c.Own? || c.Malformed?)
      requires deferred ==> queuedInbound != [] && queuedInbound[0] == c
      ensures MayTake(model, c, deferred)
      ensures model.clock == env.clock && !disposed && !degraded && model.inbound == queuedInbound
      ensures model.assembler == assembler && assembler.Some?
      ensures model.highestFullySent == highestFullySentMessageSeq && model.lastAcked == lastAckedMessageSeq
    {
      assert LiveInv(cfg, model);
    }

    /** processAck. */
    method ProcessAckPayload(n: nat, deferred: bool)
      requires Valid() && Alive(model) && outboundCallDepth == 0 && WellFormedPayload(Ack(n))
      requires deferred ==> queuedInbound != [] && queuedInbound[0] == Own(Ack(n))
      modifies Footprint()
      ensures Kept(old(flushing))
      ensures TookFirst(cfg, old(model), Own(Ack(n)), deferred, model)
      ensures Alive(model) ==> |model.seen| > |old(model.seen)| && model.seen[|old(model.seen)|] == Own(Ack(n))
      ensures deferred ==> |env.tape| < |old(env.tape)| || |queuedInbound| < |old(queuedInbound)|
      ensures !old(flushing) && env.refusals == old(env.refusals) && old(AllSent(model)) ==> AllSent(model)
      decreases 2 * |env.tape|, |queuedInbound| - (if deferred then 1 else 0), 7
    {
      hide Lineage, Reaches, TookFirst, Values, Apply, Matches, Process, Onward, TimerFits, Degrade, Progress;
      MayTakeNow(Own(Ack(n)), deferred);
      AckIsProcessed(cfg, TakenIn(model, Own(Ack(n)), deferred), n);
      if n > lastAckedMessageSeq && n > highestFullySentMessageSeq {
        TakeFault(Own(Ack(n)), deferred, FutureAck);
        return;
      }
      var drains := ReleaseAcked(n, deferred);
      ghost var s1 := Snap();
      OnwardSelf(cfg, s1);
      if drains {
        var _ := Fire();
        OnwardTrans(cfg, old(Snap()), s1, Snap());
        OnwardMessages(cfg, s1, Snap());
      }
      OnwardReaches(cfg, s1, Snap());
      Took(cfg, old(model), Own(Ack(n)), deferred, s1.model, model);
    }

    method ReleaseBatches(n: nat) returns (drains: bool)
      requires outboundBatches.Valid()
      modifies this`unacknowledgedByteCount, this`lastAckedMessageSeq, this`saturated, outboundBatches
      ensures var k := ReleaseCount(old(outboundBatches.Contents()), n);
        && outboundBatches.Valid() && outboundBatches.Contents() == old(outboundBatches.Contents())[k..]
        && outboundBatches.Cursor() == Max(old(outboundBatches.Cursor()) - k, 0)
        && unacknowledgedByteCount == Max(0, old(unacknowledgedByteCount) - OuterBytes(old(outboundBatches.Contents())[..k]))
      ensures lastAckedMessageSeq == n
      ensures drains <==> old(saturated) && unacknowledgedByteCount <= cfg.lowWaterMark
      ensures saturated == (old(saturated) && !drains)
    {
      var releasedBytes, _ := outboundBatches.ReleaseThrough(n);
      unacknowledgedByteCount := Max(0, unacknowledgedByteCount - releasedBytes);
      lastAckedMessageSeq := n;
      drains := saturated && unacknowledgedByteCount <= cfg.lowWaterMark;
      if drains {
        saturated := false;
      }
    }

    method ReleaseAcked(n: nat, deferred: bool) returns (drains: bool)
      requires Valid() && Alive(model) && outboundCallDepth == 0 && WellFormedPayload(Ack(n))
      requires deferred ==> queuedInbound != [] && queuedInbound[0] == Own(Ack(n))
      requires n <= lastAckedMessageSeq || n <= highestFullySentMessageSeq
      modifies this, outboundBatches, deadline`timer
      ensures Kept(old(flushing)) && env.tape == old(env.tape) && Alive(model)
      ensures model == ProcessAck(cfg, TakenIn(old(model), Own(Ack(n)), deferred), n)
      ensures |queuedInbound| == |old(queuedInbound)| - (if deferred then 1 else 0)
      ensures old(AllSent(model)) ==> AllSent(model)
    {
      hide Lineage, Reaches, TookFirst, Values, TimerFits, Onward, ProcessAck, Matches, ReleaseCount, Progress;
      MayTakeNow(Own(Ack(n)), deferred);
      ReleaseIs(n, deferred);
      ghost var s0 := Snap();
      var released := n > lastAckedMessageSeq;
      drains := ReleaseFields(n, deferred, ProcessAck(cfg, TakenIn(model, Own(Ack(n)), deferred), n));
      MatchesInbound();
      if released {
        RefreshDeadline();
      }
      ReleaseIsOnward(cfg, s0, Snap(), n, deferred);
    }

    method ReleaseOrIgnore(n: nat, deferred: bool) returns (drains: bool)
      requires outboundBatches.Valid() && (deferred ==> queuedInbound != [])
      modifies this`unacknowledgedByteCount, this`lastAckedMessageSeq, this`saturated, this`queuedInbound, outboundBatches
      ensures queuedInbound == if deferred then old(queuedInbound)[1..] else old(queuedInbound)
      ensures outboundBatches.Valid()
      ensures n <= old(lastAckedMessageSeq) ==>
        && !drains && outboundBatches.Contents() == old(outboundBatches.Contents())
        && outboundBatches.Cursor() == old(outboundBatches.Cursor())
        && unacknowledgedByteCount == old(unacknowledgedByteCount) && lastAckedMessageSeq == old(lastAckedMessageSeq)
        && saturated == old(saturated)
      ensures n > old(lastAckedMessageSeq) ==>
        var k := ReleaseCount(old(outboundBatches.Contents()), n);
        && outboundBatches.Contents() == old(outboundBatches.Contents())[k..]
        && outboundBatches.Cursor() == Max(old(outboundBatches.Cursor()) - k, 0)
        && unacknowledgedByteCount == Max(0, old(unacknowledgedByteCount) - OuterBytes(old(outboundBatches.Contents())[..k]))
        && lastAckedMessageSeq == n && (drains <==> old(saturated) && unacknowledgedByteCount <= cfg.lowWaterMark)
        && saturated == (old(saturated) && !drains)
    {
      if deferred {
        queuedInbound := queuedInbound[1..];
      }
      if n <= lastAckedMessageSeq {
        drains := false;
      } else {
        drains := ReleaseBatches(n);
      }
    }

    /** What a taken acknowledgement makes of the endpoint, field by field. */
    ghost predicate Releases(n: nat, deferred: bool, t: Endpoint)
      requires deferred ==> model.inbound != []
      reads this`model
    {
      && Alive(t) && Lineage(cfg, start, t) && Reaches(cfg, model, t)
      && t == model.(inbound := t.inbound, seen := t.seen, queue := t.queue,
                     cursor := t.cursor, unacknowledged := t.unacknowledged, lastAcked := t.lastAcked, saturated := t.saturated, notes := t.notes)
      && t.inbound == (if deferred then model.inbound[1..] else model.inbound)
      && (n <= model.lastAcked ==>
          && t.queue == model.queue && t.cursor == model.cursor && t.unacknowledged == model.unacknowledged
          && t.lastAcked == model.lastAcked && t.saturated == model.saturated)
      && (n > model.lastAcked ==>
          var k := ReleaseCount(model.queue, n);
          && t.queue == model.queue[k..] && t.cursor == Max(model.cursor - k, 0) && t.lastAcked == n
          && t.unacknowledged == Max(0, model.unacknowledged - OuterBytes(model.queue[..k]))
          && t.saturated == (model.saturated && t.unacknowledged > cfg.lowWaterMark))
    }

    lemma ReleaseIs(n: nat, deferred: bool)
      requires Valid() && Alive(model) && outboundCallDepth == 0 && WellFormedPayload(Ack(n))
      requires deferred ==> queuedInbound != [] && queuedInbound[0] == Own(Ack(n))
      requires n <= lastAckedMessageSeq || n <= highestFullySentMessageSeq
      ensures Releases(n, deferred, ProcessAck(cfg, TakenIn(model, Own(Ack(n)), deferred), n))
    {
      hide Lineage, Reaches, TookFirst, Values, Apply, Process, ReleaseCount, OuterBytes, Matches, WellFormedPayload, Enabled;
      MatchesCounters();
      MayTakeNow(Own(Ack(n)), deferred);
      AckIsProcessed(cfg, TakenIn(model, Own(Ack(n)), deferred), n);
      TakeIs(cfg, model, Own(Ack(n)), deferred);
      Advance(cfg, start, model, TakeStep(Own(Ack(n)), deferred, model.clock));
    }

    method ReleaseFields(n: nat, deferred: bool, ghost after: Endpoint) returns (drains: bool)
      requires Valid() && Alive(model) && (deferred ==> model.inbound != [])
      requires Releases(n, deferred, after)
      modifies this`model, this`unacknowledgedByteCount, this`lastAckedMessageSeq, this`saturated, this`queuedInbound, outboundBatches
      ensures Valid() && model == after
    {
      hide Lineage, Reaches, TookFirst, Values, ReleaseCount, OuterBytes;
      drains := ReleaseOrIgnore(n, deferred);
      model := after;
    }

    /** processInbound on a data frame. */
    method ProcessFramePayload(f: Frame, deferred: bool)
      requires Valid() && Alive(model) && outboundCallDepth == 0 && WellFormedPayload(Data(f))
      requires deferred ==> queuedInbound != [] && queuedInbound[0] == Own(Data(f))
      modifies Footprint()
      ensures Kept(old(flushing))
      ensures TookFirst(cfg, old(model), Own(Data(f)), deferred, model)
      ensures Alive(model) ==> |model.seen| > |old(model.seen)| && model.seen[|old(model.seen)|] == Own(Data(f))
      ensures deferred ==> |env.tape| < |old(env.tape)| || |queuedInbound| < |old(queuedInbound)|
      ensures !old(flushing) && env.refusals == old(env.refusals) && old(AllSent(model)) ==> AllSent(model)
      decreases 2 * |env.tape|, |queuedInbound| - (if deferred then 1 else 0), 7
    {
      hide Lineage, Reaches, TookFirst, Values, Apply, Matches, Process, Onward, TimerFits, Accept, FrameTaken, Degrade;
      var now := Now();
      ghost var s1 := Snap();
      TickIsOnward(cfg, old(Snap()), s1);
      MayTakeNow(Own(Data(f)), deferred);
      var accepted := Accept(cfg, assembler.value, f, now);
      var asm, event := accepted.0, accepted.1;
      FrameIs(cfg, model, f, deferred, asm, event);
      if event.Fault? {
        TakeFault(Own(Data(f)), deferred, event.reason);
        TookAfterTick(cfg, old(model), now, Own(Data(f)), deferred, model);
        OnwardTrans(cfg, old(Snap()), s1, Snap());
        return;
      }
      TakeFrame(f, deferred, asm, event);
      ghost var s2 := Snap();
      FrameIsOnward(cfg, s1, s2, f, deferred, asm, event);
      OnwardTrans(cfg, old(Snap()), s1, s2);
      Answer(event);
      OnwardReaches(cfg, s2, Snap());
      Took(cfg, s1.model, Own(Data(f)), deferred, s2.model, model);
      TookAfterTick(cfg, old(model), now, Own(Data(f)), deferred, model);
      OnwardTrans(cfg, old(Snap()), s2, Snap());
      OnwardMessages(cfg, s2, Snap());
    }

    lemma FrameLineage(f: Frame, deferred: bool, asm: Assembler, event: Event)
      requires Lineage(cfg, start, model) && MayTake(model, Own(Data(f)), deferred) && !event.Fault?
      requires Process(cfg, TakenIn(model, Own(Data(f)), deferred), Own(Data(f)), model.clock) == FrameTaken(model, f, deferred, asm, event)
      ensures var t := FrameTaken(model, f, deferred, asm, event);
        && Lineage(cfg, start, t) && Reaches(cfg, model, t) && Alive(t)
        && t == model.(inbound := t.inbound, seen := t.seen, assembler := Some(asm), delivered := t.delivered, owed := t.owed, notes := t.notes)
        && t.inbound == (if deferred then model.inbound[1..] else model.inbound)
    {
      hide Lineage, Reaches, TookFirst, Apply, Process;
      TakeIs(cfg, model, Own(Data(f)), deferred);
      Advance(cfg, start, model, TakeStep(Own(Data(f)), deferred, model.clock));
    }

    method TakeFrame(f: Frame, deferred: bool, asm: Assembler, event: Event)
      requires Valid() && MayTake(model, Own(Data(f)), deferred) && !event.Fault?
      requires Process(cfg, TakenIn(model, Own(Data(f)), deferred), Own(Data(f)), model.clock) == FrameTaken(model, f, deferred, asm, event)
      modifies this`model, this`queuedInbound, this`assembler
      ensures Valid() && model == FrameTaken(old(model), f, deferred, asm, event) && Reaches(cfg, old(model), model)
      ensures |queuedInbound| == |old(queuedInbound)| - (if deferred then 1 else 0)
    {
      hide Lineage, Reaches, TookFirst, Values, Process, FrameTaken;
      FrameLineage(f, deferred, asm, event);
      ghost var after := FrameTaken(model, f, deferred, asm, event);
      if deferred {
        queuedInbound := queuedInbound[1..];
      }
      assembler := Some(asm);
      model := after;
    }

    /** What follows an accepted frame: delivery of a completed message, and the acknowledgement. */
    method Answer(event: Event)
      requires Valid() && Alive(model) && outboundCallDepth == 0 && !event.Fault?
      requires |OwedFor(event)| <= |model.owed| && model.owed[|model.owed| - |OwedFor(event)|..] == OwedFor(event)
      modifies Footprint()
      ensures Valid() && flushing == old(flushing) && Onward(cfg, old(Snap()), Snap())
      ensures Alive(model) ==> model.owed == old(model.owed)[..|old(model.owed)| - |OwedFor(event)|]
      ensures !old(flushing) && env.refusals == old(env.refusals) && old(AllSent(model)) ==> AllSent(model)
      decreases 2 * |env.tape|, |queuedInbound|, 7, 1
    {
      hide Lineage, Reaches, TookFirst, Values, Apply, Matches, Onward, TimerFits, Degrade;
      OnwardSelf(cfg, Snap());
      match event {
        case Incomplete =>
        case Duplicate(None) =>
        case Duplicate(Some(n)) => QueueAck(n);
        case Complete(n, _) => Deliver(n);
      }
    }

    /** The message listeners run; if they do not throw, the acknowledgement is queued. */
    method Deliver(n: nat)
      requires Valid() && Alive(model) && outboundCallDepth == 0
      requires model.owed != [] && model.owed[|model.owed| - 1] == n
      modifies Footprint()
      ensures Valid() && flushing == old(flushing) && Onward(cfg, old(Snap()), Snap())
      ensures Alive(model) ==> model.owed == old(model.owed)[..|old(model.owed)| - 1]
      ensures !old(flushing) && env.refusals == old(env.refusals) && old(AllSent(model)) ==> AllSent(model)
      decreases 2 * |env.tape|, |queuedInbound|, 7, 0
    {
      hide Lineage, Reaches, TookFirst, Values, Apply, Matches, Onward, TimerFits, Degrade;
      var threw := Fire();
      ghost var s1 := Snap();
      OnwardMessages(cfg, old(Snap()), s1);
      OnwardDepth(cfg, old(Snap()), s1);
      if threw {
        FailIs(cfg, model, DeliveryFailed);
        EnterDegraded(DeliveryFailed, Fail(DeliveryFailed), model.seen);
      } else {
        QueueAck(n);
      }
      OnwardTrans(cfg, old(Snap()), s1, Snap());
      OnwardMessages(cfg, s1, Snap());
    }

    /** drainQueuedInbound. */
    method DrainQueuedInbound()
      requires Valid()
      modifies Footprint()
      ensures Kept(old(flushing))
      // Nothing that was deferred is left behind.
      ensures outboundCallDepth == 0 && Alive(model) ==> queuedInbound == []
      ensures !old(flushing) && env.refusals == old(env.refusals) && old(AllSent(model)) ==> AllSent(model)
      decreases 2 * |env.tape|, |queuedInbound|, 3
    {
      hide Lineage, Reaches, TookFirst, Values, Matches, TimerFits, Alive, Onward;
      MatchesInbound();
      OnwardSelf(cfg, Snap());
      if outboundCallDepth > 0 || disposed || degraded {
        return;
      }
      while |queuedInbound| > 0 && !disposed && !degraded
        invariant Kept(old(flushing)) && outboundCallDepth == 0 && old(env.refusals) <= env.refusals
        invariant |env.tape| < |old(env.tape)| || (|env.tape| == |old(env.tape)| && |queuedInbound| <= |old(queuedInbound)|)
        invariant !old(flushing) && env.refusals == old(env.refusals) && old(AllSent(model)) ==> AllSent(model)
        decreases |env.tape|, |queuedInbound|
      {
        DrainOne(old(Snap()));
      }
      MatchesInbound();
    }

    method DrainOne(ghost s0: Snapshot)
      requires Valid() && !disposed && !degraded && outboundCallDepth == 0 && queuedInbound != []
      requires Onward(cfg, s0, Snap())
      modifies Footprint()
      ensures Kept(old(flushing)) && Onward(cfg, s0, Snap()) && outboundCallDepth == 0
      ensures |env.tape| < |old(env.tape)| || (|env.tape| == |old(env.tape)| && |queuedInbound| < |old(queuedInbound)|)
      ensures old(env.refusals) <= env.refusals
      ensures !old(flushing) && env.refusals == old(env.refusals) && old(AllSent(model)) ==> AllSent(model)
      decreases 2 * |env.tape|, |queuedInbound|, 2
    {
      hide Lineage, Reaches, TookFirst, Values, Matches, TimerFits, Alive, Onward;
      MatchesInbound();
      ghost var s1 := Snap();
      ProcessInbound(queuedInbound[0], true);
      OnwardTrans(cfg, s0, s1, Snap());
      OnwardMessages(cfg, s1, Snap());
      OnwardDepth(cfg, s1, Snap());
    }

    /** acceptPayload. */
    method AcceptPayload(c: Candidate) returns (taken: bool)
      requires Valid()
      modifies Footprint()
      ensures Kept(old(flushing))
      // Exactly a live endpoint claims a payload, and only one addressed to it.
      ensures taken <==> old(Alive(model)) && (c.Own? || c.Malformed?)
      // Outside a sendFrame call it is taken in at once, before anything deferred earlier; during one
      // it waits behind what was deferred earlier.
      ensures taken && outboundCallDepth == 0 ==>
        TookFirst(cfg, old(model), c, false, model) || OverdueNoted(old(model.notes), model.notes)
      ensures taken && Alive(model) && outboundCallDepth == 0 ==>
        |model.seen| > |old(model.seen)| && model.seen[|old(model.seen)|] == c
      ensures taken && Alive(model) && outboundCallDepth > 0 ==>
        queuedInbound == old(queuedInbound) + [c] && model.seen == old(model.seen)
      ensures !taken ==> model == old(model)
      ensures !old(flushing) && env.refusals == old(env.refusals) && old(AllSent(model)) ==> AllSent(model)
      decreases 2 * |env.tape|, |queuedInbound|, 9
    {
      hide Lineage, Reaches, TookFirst, Values, Matches, TimerFits, Onward, NoneOverdue;
      MatchesInbound();
      OnwardSelf(cfg, Snap());
      if disposed || degraded || c.NotTransport? || c.Foreign? {
        return false;
      }
      var expired := CheckDeadline();
      if expired {
        return true;
      }
      ghost var s1 := Snap();
      MatchesInbound();
      if outboundCallDepth > 0 {
        DeferPayload(c);
      } else {
        ProcessInbound(c, false);
        TookAfterTick(cfg, old(model), s1.model.clock, c, false, model);
      }
      OnwardTrans(cfg, old(Snap()), s1, Snap());
      OnwardDepth(cfg, s1, Snap());
      return true;
    }

    method DeferPayload(c: Candidate)
      requires Valid() && Alive(model) && outboundCallDepth > 0 && (c.Own? || c.Malformed?)
      modifies this`model, this`queuedInbound
      ensures Valid() && Onward(cfg, old(Snap()), Snap())
      ensures queuedInbound == old(queuedInbound) + [c] && model == old(model).(inbound := queuedInbound)
    {
      hide Lineage, Reaches, TookFirst, Values, Onward;
      Advance(cfg, start, model, Defer(c));
      queuedInbound := queuedInbound + [c];
      model := Apply(cfg, model, Defer(c));
      DeferIsOnward(cfg, old(Snap()), Snap());
    }

    // ---------- Sending ----------

    /** invokeSend. The call is over for the code when this returns; the model still has it open, and
        ends it in the same breath as the code acts on the result. */
    method InvokeSend(payload: Payload) returns (accepted: bool)
      requires Valid() && Alive(model) && flushing && outboundCallDepth == 0 && IsNext(model, payload)
      modifies Footprint()
      ensures Matches(1) && flushing && outboundCallDepth == 0
      ensures model.call == OpenCall(payload, model.call.wire)
      ensures Sent(cfg, old(Snap()), Snap())
      ensures accepted ==> model.call.wire && |env.tape| < |old(env.tape)|
      ensures !accepted ==> env.refusals > old(env.refusals) && (Alive(model) ==> !model.call.wire)
      // The link took the payload before anything that was sent during the call.
      ensures model.call.wire ==> old(env.taken) + [payload] <= env.taken
      decreases 2 * |env.tape|, |queuedInbound|, 3
    {
      hide Lineage, Reaches, TookFirst, Values, Matches, Apply, TimerFits, Onward, Sent, IsNext, Begun, Progress;
      ghost var s0 := Snap();
      MatchesInbound();
      MatchesCounters();
      var reaction := BeginSend(payload);
      ghost var s1 := Snap();
      OnwardSelf(cfg, s1);
      React(reaction);
      accepted := reaction.outcome.Takes?;
      ghost var s3 := Snap();
      OnwardDepth(cfg, s1, s3);
      OnwardMessages(cfg, s1, s3);
      LeaveSend(accepted);
      SentIs(cfg, s0, s1, s3, Snap());
    }

    /** What happens inside the sendFrame call, and the handler of what it throws. */
    method React(reaction: Reaction)
      requires Valid()
      modifies Footprint()
      ensures Kept(old(flushing))
      ensures reaction.calls == [] && !reaction.outcome.Throws? ==> Snap() == old(Snap())
      ensures reaction.outcome.Throws? ==> !Alive(model)
      decreases 2 * |env.tape| + (if reaction.calls == [] then 0 else 1), 0, 2
    {
      hide Lineage, Reaches, TookFirst, Values, Matches, Apply, TimerFits, Onward;
      OnwardSelf(cfg, Snap());
      if reaction.calls != [] {
        RunCalls(reaction.calls);
      }
      if reaction.outcome.Throws? {
        ghost var s2 := Snap();
        OnwardMessages(cfg, old(Snap()), s2);
        FailIs(cfg, model, SendFailed);
        EnterDegraded(SendFailed, Fail(SendFailed), model.seen);
        OnwardTrans(cfg, old(Snap()), s2, Snap());
      }
    }

    method BeginSend(payload: Payload) returns (reaction: Reaction)
      requires Valid() && Alive(model) && flushing && outboundCallDepth == 0 && IsNext(model, payload)
      modifies this`model, this`outboundCallDepth, env`tape, env`taken
      ensures Valid() && outboundCallDepth == 1 && Begun(cfg, old(Snap()), Snap())
      ensures model.call == OpenCall(payload, Wired(reaction))
      ensures env.taken == old(env.taken) + if Wired(reaction) then [payload] else []
      ensures |env.tape| < |old(env.tape)| || (|env.tape| == |old(env.tape)| && reaction == Reaction(Refuses, []))
    {
      hide Lineage, Reaches, TookFirst, Values, Apply, IsNext;
      reaction := env.NextReaction();
      var wire := Wired(reaction);
      SendIs(cfg, model, payload, wire);
      Advance(cfg, start, model, SendStep(payload, wire));
      model := Apply(cfg, model, SendStep(payload, wire));
      outboundCallDepth := outboundCallDepth + 1;
      env.taken := env.taken + if wire then [payload] else [];
    }

    method LeaveSend(accepted: bool)
      requires Valid() && outboundCallDepth > 0
      modifies this`outboundCallDepth, env`refusals
      ensures Matches(1) && outboundCallDepth == 0 && flushing
      ensures env.refusals == old(env.refusals) + if accepted then 0 else 1
    {
      hide Lineage, Reaches, TookFirst, Values;
      outboundCallDepth := outboundCallDepth - 1;
      env.refusals := env.refusals + if accepted then 0 else 1;
    }

    /** The flush loop accounts for a sendFrame call that took its payload while the endpoint lived on,
        and lets in what was deferred during the call. */
    method FinishAck(n: nat, ghost s0: Snapshot)
      requires Matches(1) && flushing && outboundCallDepth == 0 && Alive(model) && model.call == AckCall(n, true)
      requires Sent(cfg, s0, Snap())
      modifies this`model, this`pendingAckMessageSeq, this`pendingAckQueuedAt, deadline`timer
      ensures Valid() && Alive(model) && Onward(cfg, s0, Snap()) && model.owed == s0.model.owed
      ensures model == EndCall(old(model))
    {
      hide Lineage, Reaches, TookFirst, Values, Apply, TimerFits, Onward, Sent, EndCall;
      ghost var s1 := Snap();
      AckSentIs(model, n);
      EndSendStep();
      if pendingAckMessageSeq == Some(n) {
        pendingAckMessageSeq := None;
        pendingAckQueuedAt := None;
        model := EndCall(model);
        RefreshDeadline();
      } else {
        model := EndCall(model);
      }
      CallEnds(cfg, s0, s1, Snap());
    }

    lemma EndSendStep()
      requires Lineage(cfg, start, model) && !model.call.Idle?
      ensures Lineage(cfg, start, EndCall(model))
    {
      hide Lineage, Reaches, TookFirst, EndCall;
      Advance(cfg, start, model, EndSend);
    }

    method FinishFrame(ghost s0: Snapshot)
      requires Matches(1) && flushing && outboundCallDepth == 0 && Alive(model) && model.call == FrameCall(true)
      requires Sent(cfg, s0, Snap())
      modifies this`model, this`highestFullySentMessageSeq, outboundBatches
      ensures Valid() && Alive(model) && Onward(cfg, s0, Snap()) && model.owed == s0.model.owed
      ensures model == EndCall(old(model))
    {
      hide Lineage, Reaches, TookFirst, Values, Apply, TimerFits, Onward, Sent, EndCall;
      ghost var s1 := Snap();
      FrameCallHasBatch(cfg, start, model);
      FrameSentIs(model);
      EndSendStep();
      ghost var after := EndCall(model);
      MoveCursor();
      model := after;
      CallEnds(cfg, s0, s1, Snap());
    }

    /** The frame at the cursor is out: the cursor moves on with the batch's last frame. */
    method MoveCursor()
      requires outboundBatches.Valid() && outboundBatches.Cursor() < |outboundBatches.Contents()|
      modifies this`highestFullySentMessageSeq, outboundBatches
      ensures outboundBatches.Valid()
      ensures var c := old(outboundBatches.Cursor()); var b := old(outboundBatches.Contents())[c]; var last := b.nextFrameIndex + 1 == |b.frames|;
        && outboundBatches.Contents() == old(outboundBatches.Contents())[c := b.(nextFrameIndex := b.nextFrameIndex + 1)]
        && outboundBatches.Cursor() == (if last then c + 1 else c)
        && highestFullySentMessageSeq == if last then Max(old(highestFullySentMessageSeq), b.messageSeq) else old(highestFullySentMessageSeq)
    {
      hide Values;
      var batch := outboundBatches.NextUnsent();
      outboundBatches.MarkFrameSent();
      if batch.value.nextFrameIndex + 1 == |batch.value.frames| {
        highestFullySentMessageSeq := Max(highestFullySentMessageSeq, batch.value.messageSeq);
        outboundBatches.AdvanceUnsent();
      }
    }

    method FinishRefused(payload: Payload, ghost s0: Snapshot)
      requires Matches(1) && flushing && outboundCallDepth == 0
      requires model.call == OpenCall(payload, model.call.wire) && (!model.call.wire || !Alive(model))
      requires Sent(cfg, s0, Snap())
      modifies this`model
      ensures Valid() && Onward(cfg, s0, Snap())
        && (Alive(model) ==> Alive(s0.model) && model.owed == s0.model.owed)
      ensures model == old(model).(call := Idle)
    {
      hide Lineage, Reaches, TookFirst, Values, Apply, TimerFits, Onward, Sent, EndCall;
      ghost var s1 := Snap();
      RefusedIs(model, payload, model.call.wire);
      EndSendStep();
      model := EndCall(model);
      CallEnds(cfg, s0, s1, Snap());
    }

    /** One turn of the flush loop; it goes on only after the link took something. */
    method FlushOne(ghost s0: Snapshot) returns (again: bool, drained: bool)
      requires Valid() && Alive(model) && flushing && outboundCallDepth == 0
      requires Onward(cfg, s0, Snap())
      modifies Footprint()
      ensures Kept(true) && Onward(cfg, s0, Snap()) && outboundCallDepth == 0
      ensures |env.tape| < |old(env.tape)| || (!again && |env.tape| == |old(env.tape)| && |queuedInbound| <= |old(queuedInbound)|)
      ensures env.refusals >= old(env.refusals)
      ensures !drained ==> env.refusals > old(env.refusals) || !Alive(model)
      ensures !again && drained ==> AllSent(model)
      decreases 2 * |env.tape|, |queuedInbound|, 4, 2
    {
      hide Lineage, Reaches, TookFirst, Values, Apply, Matches, TimerFits, Onward, NoneOverdue, Sent, Progress;
      MatchesInbound();
      ghost var s1 := Snap();
      var expired := CheckDeadline();
      if expired {
        OnwardTrans(cfg, s0, s1, Snap());
        OnwardMessages(cfg, s1, Snap());
        OnwardDepth(cfg, s1, Snap());
        return false, false;
      }
      ghost var s2 := Snap();
      var next := NextPayload();
      if next.None? {
        OnwardTrans(cfg, s0, s1, s2);
        OnwardMessages(cfg, s1, s2);
        return false, true;
      }
      again := SendOne(next.value);
      drained := again;
      OnwardTrans(cfg, s1, s2, Snap());
      OnwardTrans(cfg, s0, s1, Snap());
      OnwardMessages(cfg, s2, Snap());
      OnwardDepth(cfg, s1, Snap());
    }

    /** The pending acknowledgement goes first, then the frame at the cursor. */
    method NextPayload() returns (next: Option<Payload>)
      requires Valid() && Alive(model)
      ensures next.Some? ==> IsNext(model, next.value)
      ensures next.None? <==> AllSent(model)
    {
      hide Lineage, Reaches, TookFirst, Values;
      CursorInside(cfg, start, model);
      if pendingAckMessageSeq.Some? {
        return Some(Ack(pendingAckMessageSeq.value));
      }
      var batch := outboundBatches.NextUnsent();
      if batch.None? {
        return None;
      }
      return Some(Data(batch.value.frames[batch.value.nextFrameIndex]));
    }

    method SendOne(payload: Payload) returns (again: bool)
      requires Valid() && Alive(model) && flushing && outboundCallDepth == 0 && IsNext(model, payload)
      modifies Footprint()
      ensures Kept(true)
      ensures again ==> |env.tape| < |old(env.tape)|
      ensures !again ==> env.refusals > old(env.refusals) || !Alive(model)
      decreases 2 * |env.tape|, |queuedInbound|, 4, 1
    {
      hide Lineage, Reaches, TookFirst, Values, Apply, Matches, TimerFits, Onward, Sent, IsNext, EndCall;
      ghost var s0 := Snap();
      var accepted := InvokeSend(payload);
      DeadByCall();
      if !accepted || degraded || disposed {
        FinishRefused(payload, s0);
        return false;
      }
      if payload.Ack? {
        FinishAck(payload.messageSeq, s0);
      } else {
        FinishFrame(s0);
      }
      ghost var s1 := Snap();
      OnwardDepth(cfg, s0, s1);
      DrainQueuedInbound();
      OnwardTrans(cfg, s0, s1, Snap());
      OnwardMessages(cfg, s1, Snap());
      return true;
    }

    lemma DeadByCall()
      requires Matches(1)
      ensures Alive(model) <==> !disposed && !degraded
    {
    }

    /** flushPendingFrames: when it is not called from inside itself, and nothing is refused, everything is
        on the link afterwards, whatever was called in between. */
    method FlushPendingFrames() returns (drained: bool)
      requires Valid()
      modifies Footprint()
      ensures Kept(old(flushing))
      ensures !old(flushing) && env.refusals == old(env.refusals) ==> AllSent(model)
      ensures !old(flushing) && env.refusals == old(env.refusals) && Alive(model) ==> drained
      ensures old(flushing) ==> !drained
      decreases 2 * |env.tape|, |queuedInbound|, 5
    {
      hide Lineage, Reaches, TookFirst, Values, Apply, Matches, TimerFits, Onward, NoneOverdue, Progress, Alive;
      MatchesInbound();
      OnwardSelf(cfg, Snap());
      if disposed || degraded {
        return false;
      }
      var expired := CheckDeadline();
      if expired {
        return false;
      }
      if flushing {
        return false;
      }
      ghost var s1 := Snap();
      var locallyDrained := FlushAll();
      ghost var s2 := Snap();
      OnwardTrans(cfg, old(Snap()), s1, s2);
      OnwardMessages(cfg, s1, s2);
      MatchesInbound();
      if !disposed && !degraded {
        DrainQueuedInbound();
        OnwardTrans(cfg, old(Snap()), s2, Snap());
        OnwardMessages(cfg, s2, Snap());
      }
      drained := locallyDrained && pendingAckMessageSeq.None?;
      NoAckWhenSent();
    }

    lemma NoAckWhenSent()
      requires Valid()
      ensures Alive(model) && AllSent(model) ==> pendingAckMessageSeq.None?
    {
    }

    /** The flush loop, with the flag that keeps it from being entered twice. */
    method FlushAll() returns (drained: bool)
      requires Valid() && Alive(model) && !flushing
      modifies Footprint()
      ensures Kept(false) && outboundCallDepth == 0
      ensures |env.tape| < |old(env.tape)| || |queuedInbound| <= |old(queuedInbound)|
      ensures Alive(model) && env.refusals == old(env.refusals) ==> drained && AllSent(model)
      decreases 2 * |env.tape|, |queuedInbound|, 4, 3
    {
      MatchesIdle();
      SetFlushing(true);
      hide Lineage, Reaches, TookFirst, Values, Apply, Matches, TimerFits, Onward, Progress, Alive;
      OnwardSelf(cfg, Snap());
      drained := true;
      var again := true;
      while again && !disposed && !degraded
        invariant Kept(true) && outboundCallDepth == 0 && env.refusals >= old(env.refusals)
        invariant |env.tape| < |old(env.tape)| || (|env.tape| == |old(env.tape)| && |queuedInbound| <= |old(queuedInbound)|)
        invariant !drained ==> env.refusals > old(env.refusals) || !Alive(model)
        invariant !again && drained ==> AllSent(model)
        decreases |env.tape|, again
      {
        MatchesInbound();
        again, drained := FlushOne(old(Snap()));
      }
      MatchesInbound();
      SetFlushing(false);
    }

    method SetFlushing(f: bool)
      requires Valid() && outboundCallDepth == 0
      modifies this`flushing
      ensures Valid() && flushing == f && Snap() == old(Snap())
    {
      hide Lineage, Reaches, TookFirst, Values;
      flushing := f;
    }

    lemma MatchesIdle()
      requires Valid() && !flushing
      ensures outboundCallDepth == 0
    {
    }

    /** replayUnacknowledged. */
    method ReplayUnacknowledged() returns (drained: bool)
      requires Valid() && outboundCallDepth == 0
      modifies Footprint()
      ensures Kept(old(flushing))
      ensures !old(flushing) && env.refusals == old(env.refusals) ==> AllSent(model)
      ensures !old(flushing) && env.refusals == old(env.refusals) && Alive(model) ==> drained
      // Every batch still held was rewound, once at least.
      ensures Alive(model) ==> model.replays > old(model.replays)
      decreases 2 * |env.tape|, |queuedInbound|, 6
    {
      hide Lineage, Reaches, TookFirst, Values, Matches, TimerFits, Onward, Progress, NoneOverdue;
      MatchesInbound();
      OnwardSelf(cfg, Snap());
      if disposed || degraded {
        return false;
      }
      var expired := CheckDeadline();
      if expired {
        return false;
      }
      ghost var s1 := Snap();
      Rewind();
      ghost var s2 := Snap();
      OnwardTrans(cfg, old(Snap()), s1, s2);
      drained := FlushPendingFrames();
      OnwardTrans(cfg, old(Snap()), s2, Snap());
      OnwardMessages(cfg, s2, Snap());
    }

    method Rewind()
      requires Valid() && Alive(model) && outboundCallDepth == 0
      modifies this`model, outboundBatches
      ensures Valid() && Alive(model) && Onward(cfg, old(Snap()), Snap()) && model.owed == old(model.owed)
      ensures model.queue == Rewound(old(model.queue)) && model.cursor == 0
      ensures model.replays == old(model.replays) + 1
    {
      hide Lineage, Reaches, TookFirst, Values, Apply, TimerFits, Onward;
      ghost var after := model.(queue := Rewound(model.queue), cursor := 0, lastSent := 0, replays := model.replays + 1);
      ReplayIs(cfg, Snap(), Snap().(model := after));
      Advance(cfg, start, model, Replay);
      outboundBatches.ResetReplay();
      model := after;
    }

    // ---------- Timers ----------

    /** The deadline timer fires. Afterwards the endpoint is dead, or nothing is overdue and the timer is
        armed again for the earliest entry. */
    method OnDeadlineTimer()
      requires Valid()
      modifies Footprint()
      ensures Kept(old(flushing))
      ensures Alive(model) ==> NoneOverdue(model, cfg.graceMs) && TimerFits(model, deadline.timer, cfg.graceMs)
    {
      hide Lineage, Reaches, TookFirst, Values, TimerFits, Onward, Progress, NoneOverdue;
      deadline.timer := None;
      ghost var s1 := Snap();
      OnwardSelf(cfg, s1);
      if !deadline.disposed {
        var expired := CheckDeadline();
        ghost var s2 := Snap();
        if !expired {
          RefreshDeadline();
        }
        RearmedIsOnward(cfg, old(Snap()), s1, s2, Snap());
      } else {
        RearmedIsOnward(cfg, old(Snap()), s1, s1, s1);
      }
    }

    /** The assembly timer fires: an assembly that has been open too long ends the endpoint. */
    method OnAssemblyTimer()
      requires Valid()
      modifies Footprint()
      ensures Kept(old(flushing))
      ensures Alive(model) ==> model.assembler.Some? && !Expired(cfg, model.assembler.value, model.clock)
    {
      hide Lineage, Reaches, TookFirst, Values, TimerFits, Onward, Progress, Matches;
      MatchesAssembler();
      OnwardSelf(cfg, Snap());
      if assembler.None? {
        return;
      }
      var now := Now();
      ghost var s1 := Snap();
      TickIsOnward(cfg, old(Snap()), s1);
      if Expired(cfg, assembler.value, now) {
        FailIs(cfg, model, AssemblyTimeout);
        EnterDegraded(AssemblyTimeout, Fail(AssemblyTimeout), model.seen);
        OnwardTrans(cfg, old(Snap()), s1, Snap());
      }
      MatchesAssembler();
    }

    lemma MatchesAssembler()
      requires Valid()
      ensures model.assembler == assembler && (Alive(model) ==> assembler.Some?)
    {
      assert Alive(model) ==> LiveInv(cfg, model);
    }

    // ---------- What all of this comes to ----------

    /** After any sequence of calls, re-entrant or not, the fields themselves tell the truth: the queue holds
        exactly the unacknowledged messages and the byte counter is their size. */
    lemma FieldsAreExact()
      requires Valid() && !disposed && !degraded
      ensures |outboundBatches.Contents()| == nextMessageSeq - 1 - lastAckedMessageSeq
      ensures nextMessageSeq == |model.messages| + 1
      ensures lastAckedMessageSeq + outboundBatches.Cursor() <= highestFullySentMessageSeq < nextMessageSeq
      ensures 0 <= unacknowledgedByteCount == OuterBytes(outboundBatches.Contents()) <= cfg.replayCap
      ensures saturated ==> unacknowledgedByteCount > cfg.lowWaterMark
      ensures !saturated ==> unacknowledgedByteCount <= cfg.highWaterMark
      ensures forall i {:trigger outboundBatches.Contents()[i]} :: 0 <= i < |outboundBatches.Contents()| ==>
        && outboundBatches.Contents()[i].messageSeq == lastAckedMessageSeq + 1 + i
        && Joined(outboundBatches.Contents()[i].frames, |outboundBatches.Contents()[i].frames|) == model.messages[lastAckedMessageSeq + i]
      ensures Alternates(model.notes, saturated)
    {
      SenderSafety(cfg, start, model);
    }
  }
}
