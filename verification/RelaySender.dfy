/** What every step keeps true of one endpoint, whatever arrives and whatever the link does. */
module RelaySender {
  import opened Wrappers
  import opened RelayTypes
  import opened RelayTransport
  import opened RelayEndpoint

  /** Entry i of the queue is message lastAcked + 1 + i, with the frames and bytes it was reserved with. */
  ghost predicate Entry(cfg: Config, s: Endpoint, i: nat)
    requires i < |s.queue|
  {
    var b := s.queue[i];
    && s.lastAcked + i < |s.hist|
    && b.messageSeq == s.lastAcked + 1 + i
    && b.frames == s.hist[s.lastAcked + i]
    && Measure(cfg, b.frames) == Some(b.outerBytes)
    && 0 < |b.frames|
    && (if i < s.cursor then b.nextFrameIndex == |b.frames|
        else if i == s.cursor then b.nextFrameIndex < |b.frames|
        else b.nextFrameIndex == 0)
  }

  ghost predicate Entries(cfg: Config, s: Endpoint) {
    forall i {:trigger Entry(cfg, s, i)} :: 0 <= i < |s.queue| ==> Entry(cfg, s, i)
  }

  ghost predicate Ages(s: Endpoint) {
    && (forall i, j :: 0 <= i <= j < |s.queue| ==> s.queue[i].queuedAt <= s.queue[j].queuedAt)
    && (forall i :: 0 <= i < |s.queue| ==> s.queue[i].queuedAt <= s.clock)
    && (s.pendingAck.Some? ==> s.pendingAck.value.queuedAt <= s.clock)
  }

  ghost predicate Counters(s: Endpoint) {
    && s.nextMessageSeq == |s.hist| + 1
    && s.nextPhysicalSeq == Start(s.hist, |s.hist|) + 1
    && s.lastAcked <= s.highestFullySent <= |s.hist|
    && |s.queue| == |s.hist| - s.lastAcked
    && s.cursor <= |s.queue|
    && s.lastAcked + s.cursor <= s.highestFullySent
  }

  predicate ByteAccount(cfg: Config, s: Endpoint) {
    && s.unacknowledged == OuterBytes(s.queue) <= cfg.replayCap
    && (s.saturated ==> s.unacknowledged > cfg.lowWaterMark)
    && (!s.saturated ==> s.unacknowledged <= cfg.highWaterMark)
  }

  predicate Calls(s: Endpoint) {
    match s.call
    case Idle => true
    case AckCall(n, _) => s.pendingAck.Some? && s.pendingAck.value.messageSeq == n
    case FrameCall(_) => s.pendingAck.None? && s.cursor < |s.queue|
  }

  /** The sequence number the next data frame will carry. */
  ghost function NextSeq(s: Endpoint): nat {
    if s.cursor < |s.queue| && s.lastAcked + s.cursor <= |s.hist|
    then Start(s.hist, s.lastAcked + s.cursor) + 1 + s.queue[s.cursor].nextFrameIndex
    else s.nextPhysicalSeq
  }

  /** Frames taken by the link since the last replay go up, and skip only acknowledged messages. */
  ghost predicate SendOrder(s: Endpoint) {
    && s.lastAcked <= |s.hist|
    && s.lastSent < NextSeq(s) <= Max(s.lastSent, Start(s.hist, s.lastAcked)) + 1
  }

  /** The last frame of message highestFullySent + 1 is in the sendFrame call right now. */
  predicate Completing(s: Endpoint) {
    && s.call == FrameCall(true) && s.cursor < |s.queue|
    && s.lastAcked + s.cursor == s.highestFullySent
    && s.queue[s.cursor].nextFrameIndex + 1 == |s.queue[s.cursor].frames|
  }

  /** No frame beyond this was ever on the link. */
  ghost function WireBound(s: Endpoint): int
    requires s.highestFullySent <= |s.hist|
  {
    if s.highestFullySent == |s.hist| then Start(s.hist, |s.hist|)
    else Start(s.hist, s.highestFullySent + 1) - (if Completing(s) then 0 else 1)
  }

  ghost predicate LiveInv(cfg: Config, s: Endpoint) {
    && Counters(s) && Entries(cfg, s) && Ages(s) && ByteAccount(cfg, s) && Calls(s) && SendOrder(s)
    && s.maxWired <= WireBound(s)
    && s.assembler.Some?
  }

  /** Saturated and Drained notes alternate, starting with Saturated; a degraded endpoint tells no more. */
  predicate Alternates(notes: seq<Note>, saturated: bool)
    decreases |notes|
  {
    if notes == [] then !saturated
    else match notes[|notes| - 1]
      case Saturated => saturated && Alternates(notes[..|notes| - 1], false)
      case Drained => !saturated && Alternates(notes[..|notes| - 1], true)
      case Degraded(_) => true
      case Delivered(_) => Alternates(notes[..|notes| - 1], saturated)
  }

  ghost predicate Inv(cfg: Config, s: Endpoint) {
    && History(cfg, s.messages, s.hist)
    && s.maxWired <= Start(s.hist, |s.hist|)
    && (Alive(s) ==> LiveInv(cfg, s) && Alternates(s.notes, s.saturated))
  }

  // ---------- Small facts ----------

  lemma {:induction false} OuterBytesOfConcat(a: seq<Batch>, b: seq<Batch>)
    ensures OuterBytes(a + b) == OuterBytes(a) + OuterBytes(b)
  {
    if a == [] {
      assert a + b == b;
    } else {
      OuterBytesOfConcat(a[1..], b);
      assert (a + b)[1..] == a[1..] + b;
    }
  }

  lemma {:induction false} OuterBytesSame(a: seq<Batch>, b: seq<Batch>)
    requires |a| == |b| && forall i :: 0 <= i < |a| ==> a[i].outerBytes == b[i].outerBytes
    ensures OuterBytes(a) == OuterBytes(b)
  {
    if a != [] {
      OuterBytesSame(a[1..], b[1..]);
    }
  }

  lemma {:induction false} ReleaseCountIs(queue: seq<Batch>, from: nat, ack: nat)
    requires forall i :: 0 <= i < |queue| ==> queue[i].messageSeq == from + 1 + i
    requires from <= ack <= from + |queue|
    ensures ReleaseCount(queue, ack) == ack - from
  {
    if queue != [] && from < ack {
      ReleaseCountIs(queue[1..], from + 1, ack);
    }
  }

  lemma HistoryGrows(cfg: Config, messages: seq<Bytes>, hist: seq<seq<Frame>>, bytes: Bytes, frames: seq<Frame>)
    requires History(cfg, messages, hist)
    requires EncodedBatch(cfg, bytes, Start(hist, |hist|) + 1, |hist| + 1, frames)
    ensures History(cfg, messages + [bytes], hist + [frames])
    ensures Start(hist + [frames], |hist| + 1) == Start(hist, |hist|) + |frames|
  {
    StartOfExtension(hist, [frames], |hist|);
    forall m | 0 <= m < |hist| + 1
      ensures BatchOf(cfg, messages + [bytes], hist + [frames], m)
    {
      StartOfExtension(hist, [frames], m);
      assert m < |hist| ==> BatchOf(cfg, messages, hist, m);
    }
  }

  lemma SameEntries(cfg: Config, s: Endpoint, t: Endpoint)
    requires Entries(cfg, s)
    requires t.queue == s.queue && t.cursor == s.cursor && t.lastAcked == s.lastAcked && t.hist == s.hist
    ensures Entries(cfg, t)
  {
    forall i | 0 <= i < |t.queue|
      ensures Entry(cfg, t, i)
    {
      assert Entry(cfg, s, i);
    }
  }

  // ---------- One lemma per kind of step ----------

  lemma DegradeKeeps(cfg: Config, s: Endpoint, reason: Reason)
    requires History(cfg, s.messages, s.hist) && s.maxWired <= Start(s.hist, |s.hist|)
    requires Inv(cfg, s) || Alive(s)
    ensures Inv(cfg, Degrade(s, reason)) && !Alive(Degrade(s, reason))
  {
  }

  lemma AdmitEntries(cfg: Config, s: Endpoint, bytes: Bytes, frames: seq<Frame>, outer: nat, now: int)
    requires Counters(s) && Entries(cfg, s)
    requires frames != [] && Measure(cfg, frames) == Some(outer)
    ensures Entries(cfg, Admit(cfg, s, bytes, frames, outer, now))
  {
    var t := Admit(cfg, s, bytes, frames, outer, now);
    forall i | 0 <= i < |t.queue|
      ensures Entry(cfg, t, i)
    {
      assert i < |s.queue| ==> Entry(cfg, s, i);
    }
  }

  lemma AdmitPositions(cfg: Config, s: Endpoint, bytes: Bytes, frames: seq<Frame>, outer: nat, now: int)
    requires Counters(s) && Calls(s) && SendOrder(s) && s.maxWired <= WireBound(s)
    requires frames != [] && frames[|frames| - 1].seqNo == s.nextPhysicalSeq + |frames| - 1
    ensures var t := Admit(cfg, s, bytes, frames, outer, now);
      Counters(t) && SendOrder(t) && t.maxWired <= WireBound(t)
  {
    var t := Admit(cfg, s, bytes, frames, outer, now);
    StartOfExtension(s.hist, [frames], |s.hist|);
    StartOfExtension(s.hist, [frames], s.lastAcked);
    StartOfExtension(s.hist, [frames], s.lastAcked + s.cursor);
    assert Start(t.hist, |t.hist|) == Start(t.hist, |s.hist|) + |t.hist[|s.hist|]|;
    if s.highestFullySent < |s.hist| {
      StartOfExtension(s.hist, [frames], s.highestFullySent + 1);
    }
  }

  lemma AdmitKeeps(cfg: Config, s: Endpoint, bytes: Bytes, frames: seq<Frame>, outer: nat, now: int)
    requires ValidLimits(cfg) && Inv(cfg, s) && Alive(s) && s.clock == now
    requires EncodedBatch(cfg, bytes, s.nextPhysicalSeq, s.nextMessageSeq, frames)
    requires Measure(cfg, frames) == Some(outer)
    requires s.unacknowledged + outer <= cfg.replayCap
    ensures Inv(cfg, Admit(cfg, s, bytes, frames, outer, now))
  {
    var t := Admit(cfg, s, bytes, frames, outer, now);
    assert History(cfg, t.messages, t.hist) && t.maxWired <= Start(t.hist, |t.hist|) by {
      HistoryGrows(cfg, s.messages, s.hist, bytes, frames);
    }
    assert ByteAccount(cfg, t) by {
      OuterBytesOfConcat(s.queue, [Batch(s.nextMessageSeq, frames, outer, now, 0)]);
    }
    AdmitEntries(cfg, s, bytes, frames, outer, now);
    AdmitPositions(cfg, s, bytes, frames, outer, now);
    assert Alternates(t.notes, t.saturated) by {
      assert t.notes != s.notes ==> t.notes[..|t.notes| - 1] == s.notes;
    }
  }

  lemma ReserveKeeps(cfg: Config, s: Endpoint, bytes: Bytes, now: int)
    requires ValidLimits(cfg) && Inv(cfg, s) && Alive(s) && s.clock == now
    ensures Inv(cfg, Reserve(cfg, s, bytes, now))
  {
    var r := Encode(cfg, bytes, s.nextPhysicalSeq, s.nextMessageSeq);
    if r.Ok? {
      EncodeIsBatch(cfg, bytes, s.nextPhysicalSeq, s.nextMessageSeq);
      var m := Measure(cfg, r.value);
      if m.Some? && s.unacknowledged + m.value <= cfg.replayCap {
        AdmitKeeps(cfg, s, bytes, r.value, m.value, now);
      }
    }
  }

  lemma ReleasedBytes(cfg: Config, s: Endpoint, ack: nat)
    requires Counters(s) && Entries(cfg, s) && ByteAccount(cfg, s)
    requires s.lastAcked <= ack <= |s.hist|
    ensures ReleaseCount(s.queue, ack) == ack - s.lastAcked
    ensures s.unacknowledged - OuterBytes(s.queue[..ack - s.lastAcked]) == OuterBytes(s.queue[ack - s.lastAcked..]) >= 0
  {
    forall i | 0 <= i < |s.queue|
      ensures s.queue[i].messageSeq == s.lastAcked + 1 + i
    {
      assert Entry(cfg, s, i);
    }
    ReleaseCountIs(s.queue, s.lastAcked, ack);
    var n := ack - s.lastAcked;
    assert s.queue == s.queue[..n] + s.queue[n..];
    OuterBytesOfConcat(s.queue[..n], s.queue[n..]);
  }

  lemma ReleaseKeepsOrder(cfg: Config, s: Endpoint, t: Endpoint)
    requires Counters(s) && Entries(cfg, s) && SendOrder(s)
    requires s.lastAcked <= t.lastAcked <= |s.hist|
    requires t == s.(queue := s.queue[t.lastAcked - s.lastAcked..], cursor := Max(s.cursor - (t.lastAcked - s.lastAcked), 0),
                     lastAcked := t.lastAcked, unacknowledged := t.unacknowledged, saturated := t.saturated, notes := t.notes)
    ensures Entries(cfg, t) && SendOrder(t)
  {
    var n := t.lastAcked - s.lastAcked;
    forall i | 0 <= i < |t.queue|
      ensures Entry(cfg, t, i)
    {
      assert Entry(cfg, s, n + i);
    }
    StartMonotone(s.hist, s.lastAcked, t.lastAcked);
    if s.cursor < n {
      assert Entry(cfg, s, s.cursor);
      StartMonotone(s.hist, s.lastAcked + s.cursor, t.lastAcked);
      assert t.cursor < |t.queue| ==> Entry(cfg, s, n) && t.queue[0].nextFrameIndex == 0;
      assert NextSeq(t) == Start(s.hist, t.lastAcked) + 1;
    } else {
      assert s.cursor < |s.queue| ==> t.queue[t.cursor] == s.queue[s.cursor];
      assert NextSeq(t) == NextSeq(s);
    }
  }

  lemma ProcessAckKeeps(cfg: Config, s: Endpoint, ack: nat)
    requires ValidLimits(cfg) && Inv(cfg, s) && Alive(s) && s.call.Idle?
    ensures Inv(cfg, ProcessAck(cfg, s, ack))
  {
    hide History, Entry, ReleaseCount, EncodedBatch, OuterBytes, SendOrder;
    if s.lastAcked < ack <= s.highestFullySent {
      var t := ProcessAck(cfg, s, ack);
      ReleasedBytes(cfg, s, ack);
      ReleaseKeepsOrder(cfg, s, t);
      assert Alternates(t.notes, t.saturated) by {
        assert t.notes != s.notes ==> t.notes[..|t.notes| - 1] == s.notes;
      }
    }
  }

  lemma AddAckKeeps(cfg: Config, s: Endpoint, n: nat)
    requires Inv(cfg, s) && s.call.Idle?
    ensures Inv(cfg, AddAck(s, n, s.clock))
  {
    hide History, Entry, EncodedBatch;
    var t := AddAck(s, n, s.clock);
    if Alive(s) {
      SameEntries(cfg, s, t);
    }
  }

  /** Taking in a data frame touches the receiving half only. */
  ghost predicate ReceivingHalf(s: Endpoint, t: Endpoint) {
    && t == s.(assembler := t.assembler, delivered := t.delivered, owed := t.owed, notes := t.notes)
    && t.assembler.Some?
    && (t.notes == s.notes || exists bytes :: t.notes == s.notes + [Delivered(bytes)])
  }

  lemma FrameEffect(cfg: Config, s: Endpoint, f: Frame)
    requires Alive(s) && s.assembler.Some? && WellFormedFrame(f)
    ensures var t := Process(cfg, s, Own(Data(f)), s.clock);
      (exists reason :: t == Degrade(s, reason)) || ReceivingHalf(s, t)
  {
    var (asm, event) := Accept(cfg, s.assembler.value, f, s.clock);
    assert Parse(Own(Data(f))) == Some(Data(f));
    match event
    case Fault(reason) => assert Process(cfg, s, Own(Data(f)), s.clock) == Degrade(s, reason);
    case Incomplete =>
    case Duplicate(_) =>
    case Complete(n, bytes) => assert Process(cfg, s, Own(Data(f)), s.clock).notes == s.notes + [Delivered(bytes)];
  }

  lemma ReceivingHalfKeeps(cfg: Config, s: Endpoint, t: Endpoint)
    requires Inv(cfg, s) && Alive(s) && ReceivingHalf(s, t)
    ensures Inv(cfg, t)
  {
    SameEntries(cfg, s, t);
    assert Alternates(t.notes, t.saturated) by {
      assert t.notes != s.notes ==> t.notes[..|t.notes| - 1] == s.notes;
    }
  }

  lemma ProcessKeeps(cfg: Config, s: Endpoint, c: Candidate)
    requires ValidLimits(cfg) && Inv(cfg, s) && Alive(s) && s.call.Idle?
    ensures Inv(cfg, Process(cfg, s, c, s.clock))
  {
    match Parse(c)
    case None =>
    case Some(Ack(n)) => ProcessAckKeeps(cfg, s, n);
    case Some(Data(f)) =>
      FrameEffect(cfg, s, f);
      var t := Process(cfg, s, c, s.clock);
      if ReceivingHalf(s, t) {
        ReceivingHalfKeeps(cfg, s, t);
      }
  }

  lemma RewoundKeeps(cfg: Config, s: Endpoint)
    requires Inv(cfg, s) && Alive(s) && s.call.Idle?
    ensures Inv(cfg, Apply(cfg, s, Replay))
  {
    hide History, EncodedBatch, Process, Reserve, EndCall, Measure, OuterBytes, AddAck, Degrade, Disposed, Metered;
    var t := Apply(cfg, s, Replay);
    forall i | 0 <= i < |t.queue|
      ensures Entry(cfg, t, i)
    {
      assert Entry(cfg, s, i);
    }
    OuterBytesSame(s.queue, t.queue);
    assert t.cursor < |t.queue| ==> Entry(cfg, t, 0);
  }

  lemma FrameSentEntries(cfg: Config, s: Endpoint)
    requires Entries(cfg, s) && s.cursor < |s.queue| && Alive(s) && s.call == FrameCall(true)
    ensures Entries(cfg, EndCall(s)) && OuterBytes(EndCall(s).queue) == OuterBytes(s.queue)
  {
    var t := EndCall(s);
    assert Entry(cfg, s, s.cursor);
    forall i | 0 <= i < |t.queue|
      ensures Entry(cfg, t, i)
    {
      assert Entry(cfg, s, i);
    }
    OuterBytesSame(s.queue, t.queue);
  }

  lemma FrameSentOrder(cfg: Config, s: Endpoint)
    requires Inv(cfg, s) && Alive(s) && s.call == FrameCall(true)
    ensures Counters(EndCall(s)) && SendOrder(EndCall(s)) && NextSeq(EndCall(s)) == NextSeq(s) + 1
  {
    hide Process, Reserve, Measure, ByteAccount, Ages;
    var t := EndCall(s);
    var m := s.lastAcked + s.cursor;
    assert Entry(cfg, s, s.cursor);
    assert BatchOf(cfg, s.messages, s.hist, m);
    assert Start(s.hist, m + 1) == Start(s.hist, m) + |s.hist[m]|;
    assert t.lastSent == NextSeq(s);
    if t.cursor < |t.queue| && t.cursor != s.cursor {
      assert Entry(cfg, s, t.cursor);
    }
    assert NextSeq(t) == t.lastSent + 1;
  }

  lemma FrameSentWire(cfg: Config, s: Endpoint)
    requires Inv(cfg, s) && Alive(s) && s.call == FrameCall(true)
    requires Counters(EndCall(s))
    ensures EndCall(s).maxWired <= WireBound(EndCall(s))
  {
    var t := EndCall(s);
    var h := s.highestFullySent;
    assert Entry(cfg, s, s.cursor);
    assert t.call == Idle;
    if t.highestFullySent != h {
      assert t.highestFullySent == h + 1 && Completing(s);
      if h + 1 < |s.hist| {
        assert BatchOf(cfg, s.messages, s.hist, h + 1);
        assert Start(s.hist, h + 2) == Start(s.hist, h + 1) + |s.hist[h + 1]|;
      }
    }
  }

  lemma FrameSentKeeps(cfg: Config, s: Endpoint)
    requires Inv(cfg, s) && Alive(s) && s.call == FrameCall(true)
    ensures Inv(cfg, EndCall(s))
  {
    hide History, Entry, NextSeq, WireBound;
    FrameSentEntries(cfg, s);
    FrameSentOrder(cfg, s);
    FrameSentWire(cfg, s);
    assert Ages(EndCall(s));
  }

  /** The frame a flush is about to send is the one at the cursor, and its number is NextSeq. */
  lemma CursorFrame(cfg: Config, s: Endpoint)
    requires Inv(cfg, s) && Alive(s) && s.cursor < |s.queue|
    ensures var b := s.queue[s.cursor];
      && b.nextFrameIndex < |b.frames|
      && Authentic(s.hist, b.frames[b.nextFrameIndex])
      && Wire(s) == NextSeq(s)
      && b.frames[b.nextFrameIndex].messageSeq == s.lastAcked + s.cursor + 1
  {
    var m := s.lastAcked + s.cursor;
    assert Entry(cfg, s, s.cursor);
    assert BatchOf(cfg, s.messages, s.hist, m);
  }

  lemma BeginFrameWire(cfg: Config, s: Endpoint)
    requires Inv(cfg, s) && Alive(s) && s.cursor < |s.queue|
      && s.queue[s.cursor].nextFrameIndex < |s.queue[s.cursor].frames|
    ensures Wire(s) <= Start(s.hist, |s.hist|)
    ensures Wire(s) <= WireBound(s.(call := FrameCall(true)))
  {
    var m := s.lastAcked + s.cursor;
    CursorFrame(cfg, s);
    assert Entry(cfg, s, s.cursor);
    assert Start(s.hist, m + 1) == Start(s.hist, m) + |s.hist[m]|;
    StartMonotone(s.hist, m + 1, |s.hist|);
    if m < s.highestFullySent {
      StartMonotone(s.hist, m + 1, s.highestFullySent);
      if s.highestFullySent < |s.hist| {
        assert BatchOf(cfg, s.messages, s.hist, s.highestFullySent);
      }
    }
  }

  lemma BeginFrameKeeps(cfg: Config, s: Endpoint, wire: bool)
    requires Inv(cfg, s) && Enabled(s, BeginFrame(wire))
    ensures Inv(cfg, Apply(cfg, s, BeginFrame(wire)))
  {
    hide Process, Reserve, EndCall, EncodedBatch, BatchOf, Entry;
    var t := Apply(cfg, s, BeginFrame(wire));
    CursorFrame(cfg, s);
    BeginFrameWire(cfg, s);
    SameEntries(cfg, s, t);
    assert t == s.(call := FrameCall(wire), maxWired := t.maxWired);
    assert Counters(t) && Ages(t) && ByteAccount(cfg, t) && Calls(t) && SendOrder(t);
  }

  /** Steps that leave the sending half as it was. */
  lemma UntouchedKeeps(cfg: Config, s: Endpoint, t: Endpoint)
    requires Inv(cfg, s) && Alive(s) && s.clock <= t.clock
    requires t == s.(clock := t.clock, inbound := t.inbound, call := t.call, owed := t.owed, seen := t.seen)
    requires t.call == s.call || (t.call.Idle? && s.call != FrameCall(true))
    ensures Inv(cfg, t)
  {
    SameEntries(cfg, s, t);
  }

  lemma BeginAckKeeps(cfg: Config, s: Endpoint, wire: bool)
    requires Inv(cfg, s) && Enabled(s, BeginAck(wire))
    ensures Inv(cfg, Apply(cfg, s, BeginAck(wire)))
  {
    SameEntries(cfg, s, Apply(cfg, s, BeginAck(wire)));
  }

  lemma EndSendKeeps(cfg: Config, s: Endpoint)
    requires Inv(cfg, s) && Enabled(s, EndSend) && Alive(s)
    ensures Inv(cfg, EndCall(s))
  {
    hide History, EncodedBatch, Entry;
    var t := EndCall(s);
    if s.call == FrameCall(true) {
      FrameSentKeeps(cfg, s);
    } else if s.call.AckCall? && s.call.wire {
      assert t == s.(call := Idle, pendingAck := None);
      SameEntries(cfg, s, t);
    } else {
      UntouchedKeeps(cfg, s, t);
    }
  }

  lemma DequeueKeeps(cfg: Config, s: Endpoint, now: int)
    requires ValidLimits(cfg) && Inv(cfg, s) && Enabled(s, Dequeue(now))
    ensures Inv(cfg, Apply(cfg, s, Dequeue(now)))
  {
    var t := s.(clock := now, inbound := s.inbound[1..], seen := s.seen + [s.inbound[0]]);
    UntouchedKeeps(cfg, s, t);
    ProcessKeeps(cfg, t, s.inbound[0]);
  }

  lemma QueueAckKeeps(cfg: Config, s: Endpoint, now: int)
    requires Inv(cfg, s) && Enabled(s, QueueAck(now)) && Alive(s)
    ensures Inv(cfg, Apply(cfg, s, QueueAck(now)))
  {
    var t := s.(clock := now, owed := s.owed[..|s.owed| - 1]);
    UntouchedKeeps(cfg, s, t);
    AddAckKeeps(cfg, t, s.owed[|s.owed| - 1]);
  }

  lemma DeadStaysDead(cfg: Config, s: Endpoint, step: Step)
    requires Enabled(s, step) && !Alive(s)
    ensures var t := Apply(cfg, s, step);
      !Alive(t) && t.messages == s.messages && t.hist == s.hist && t.delivered == s.delivered && t.maxWired == s.maxWired
      && t.lastAcked == s.lastAcked && t.highestFullySent == s.highestFullySent
  {
  }

  /** Every step of one endpoint keeps the invariant: whatever the caller sends, whatever payloads
      arrive, whatever the link accepts, and wherever the steps are nested. */
  lemma StepKeeps(cfg: Config, s: Endpoint, step: Step)
    requires ValidLimits(cfg) && Inv(cfg, s) && Enabled(s, step)
    ensures Inv(cfg, Apply(cfg, s, step))
  {
    if !Alive(s) {
      DeadStaysDead(cfg, s, step);
    } else {
      match step
      case ReserveStep(bytes, now) =>
        UntouchedKeeps(cfg, s, s.(clock := now));
        ReserveKeeps(cfg, s.(clock := now), bytes, now);
      case BeginFrame(wire) => BeginFrameKeeps(cfg, s, wire);
      case BeginAck(wire) => BeginAckKeeps(cfg, s, wire);
      case EndSend => EndSendKeeps(cfg, s);
      case Defer(c) => UntouchedKeeps(cfg, s, Apply(cfg, s, step));
      case Receive(c, now) =>
        var t := s.(clock := now, seen := s.seen + [c]);
        UntouchedKeeps(cfg, s, t);
        ProcessKeeps(cfg, t, c);
      case Dequeue(now) => DequeueKeeps(cfg, s, now);
      case QueueAck(now) => QueueAckKeeps(cfg, s, now);
      case Replay => RewoundKeeps(cfg, s);
      case Fail(reason) => DegradeKeeps(cfg, s, reason);
      case DisposeStep =>
      case Tick(now) => UntouchedKeeps(cfg, s, s.(clock := now));
    }
  }

  // ---------- Runs ----------

  ghost predicate Run(cfg: Config, s: Endpoint, steps: seq<Step>, t: Endpoint)
    decreases |steps|
  {
    if steps == [] then s == t
    else Enabled(s, steps[0]) && Run(cfg, Apply(cfg, s, steps[0]), steps[1..], t)
  }

  ghost predicate Reaches(cfg: Config, s: Endpoint, t: Endpoint) {
    exists steps :: Run(cfg, s, steps, t)
  }

  lemma {:induction false} RunKeeps(cfg: Config, s: Endpoint, steps: seq<Step>, t: Endpoint)
    requires ValidLimits(cfg) && Inv(cfg, s) && Run(cfg, s, steps, t)
    ensures Inv(cfg, t)
    decreases |steps|
  {
    if steps != [] {
      StepKeeps(cfg, s, steps[0]);
      RunKeeps(cfg, Apply(cfg, s, steps[0]), steps[1..], t);
    }
  }

  lemma {:induction false} RunThenRun(cfg: Config, s: Endpoint, first: seq<Step>, t: Endpoint, second: seq<Step>,
          u: Endpoint)
    requires Run(cfg, s, first, t) && Run(cfg, t, second, u)
    ensures Run(cfg, s, first + second, u)
    decreases |first|
  {
    hide Apply, Enabled;
    if first == [] {
      assert first + second == second;
    } else {
      RunThenRun(cfg, Apply(cfg, s, first[0]), first[1..], t, second, u);
      assert (first + second)[1..] == first[1..] + second;
    }
  }

  lemma ReachesTrans(cfg: Config, s: Endpoint, t: Endpoint, u: Endpoint)
    requires Reaches(cfg, s, t) && Reaches(cfg, t, u)
    ensures Reaches(cfg, s, u)
  {
    var first :| Run(cfg, s, first, t);
    var second :| Run(cfg, t, second, u);
    RunThenRun(cfg, s, first, t, second, u);
  }

  lemma ReachesStep(cfg: Config, s: Endpoint, step: Step)
    requires Enabled(s, step)
    ensures Reaches(cfg, s, Apply(cfg, s, step))
  {
    assert Run(cfg, Apply(cfg, s, step), [], Apply(cfg, s, step));
    assert [step][1..] == [];
    assert Run(cfg, s, [step], Apply(cfg, s, step));
  }

  lemma ReachesSelf(cfg: Config, s: Endpoint)
    ensures Reaches(cfg, s, s)
  {
    hide Apply;
    assert Run(cfg, s, [], s);
  }

  lemma InitialInv(cfg: Config, clock: int)
    ensures Inv(cfg, Initial(clock))
  {
  }

  /** In every reachable live state the queue is exactly the messages after lastAcked, cut into sent,
      partly sent and untouched at the cursor; the byte counter is the sum of what the meter says of
      every frame held, within the replay cap; and the saturation flag respects both watermarks, its edges strictly alternating. */
  lemma SenderSafety(cfg: Config, clock: int, t: Endpoint)
    requires ValidLimits(cfg) && Reaches(cfg, Initial(clock), t) && Alive(t)
    ensures |t.queue| == |t.messages| - t.lastAcked && t.nextMessageSeq == |t.messages| + 1
    ensures forall i {:trigger t.queue[i]} :: 0 <= i < |t.queue| ==>
      && t.queue[i].messageSeq == t.lastAcked + 1 + i
      && Joined(t.queue[i].frames, |t.queue[i].frames|) == t.messages[t.lastAcked + i]
      && (if i < t.cursor then t.queue[i].nextFrameIndex == |t.queue[i].frames|
          else if i == t.cursor then t.queue[i].nextFrameIndex < |t.queue[i].frames|
          else t.queue[i].nextFrameIndex == 0)
    ensures t.lastAcked + t.cursor <= t.highestFullySent <= |t.messages|
    ensures 0 <= t.unacknowledged == MeterSum(cfg.measure, FramesHeld(t.queue)) <= cfg.replayCap
    ensures forall i {:trigger t.queue[i]} :: 0 <= i < |t.queue| ==>
      t.queue[i].outerBytes == MeterSum(cfg.measure, t.queue[i].frames)
    ensures t.saturated ==> t.unacknowledged > cfg.lowWaterMark
    ensures !t.saturated ==> t.unacknowledged <= cfg.highWaterMark
    ensures Alternates(t.notes, t.saturated)
  {
    InitialInv(cfg, clock);
    var steps :| Run(cfg, Initial(clock), steps, t);
    RunKeeps(cfg, Initial(clock), steps, t);
    forall i | 0 <= i < |t.queue|
      ensures Entry(cfg, t, i) && Joined(t.queue[i].frames, |t.queue[i].frames|) == t.messages[t.lastAcked + i]
    {
      assert Entry(cfg, t, i);
      assert BatchOf(cfg, t.messages, t.hist, t.lastAcked + i);
    }
    BytesAreMetered(cfg, t);
  }

  lemma BytesAreMetered(cfg: Config, t: Endpoint)
    requires Entries(cfg, t)
    ensures OuterBytes(t.queue) == MeterSum(cfg.measure, FramesHeld(t.queue))
    ensures forall i {:trigger t.queue[i]} :: 0 <= i < |t.queue| ==>
      t.queue[i].outerBytes == MeterSum(cfg.measure, t.queue[i].frames)
  {
    forall i | 0 <= i < |t.queue|
      ensures Measure(cfg, t.queue[i].frames) == Some(t.queue[i].outerBytes)
      ensures t.queue[i].outerBytes == MeterSum(cfg.measure, t.queue[i].frames)
    {
      assert Entry(cfg, t, i);
      MeasureIsTheSum(cfg, t.queue[i].frames);
    }
    BatchesAccountForFrames(cfg, t.queue);
  }

  /** A message is admitted exactly if it can be encoded, the meter makes sense of each of its frames, and their
      bytes fit under the replay cap beside those already held; the endpoint saturates exactly when the bytes held
      then exceed the high-water mark. A message that is not admitted degrades the endpoint with its reason. */
  lemma AMessageIsAdmittedWhen(cfg: Config, clock: int, s: Endpoint, bytes: Bytes, now: int)
    requires ValidLimits(cfg) && Reaches(cfg, Initial(clock), s) && Alive(s) && s.clock <= now
    ensures
      var t := Apply(cfg, s, ReserveStep(bytes, now));
      match Encode(cfg, bytes, s.nextPhysicalSeq, s.nextMessageSeq)
      case Err(reason) => !Alive(t) && t.notes == s.notes + [Degraded(reason)]
      case Ok(frames) =>
        var held := MeterSum(cfg.measure, FramesHeld(s.queue) + frames);
        if exists f :: f in frames && !(1 <= cfg.measure(f) <= MAX_PHYSICAL_FRAME_BYTES) then
          !Alive(t) && t.notes == s.notes + [Degraded(OuterMeterFailed)]
        else if held > cfg.replayCap then !Alive(t) && t.notes == s.notes + [Degraded(ReplayBufferExceeded)]
        else
          && Alive(t) && t.messages == s.messages + [bytes] && FramesHeld(t.queue) == FramesHeld(s.queue) + frames
          && t.unacknowledged == held && (t.saturated <==> s.saturated || held > cfg.highWaterMark)
          && t.notes == s.notes + if t.saturated && !s.saturated then [Saturated] else []
  {
    hide Inv;
    RunInv(cfg, clock, s);
    var encoded := Encode(cfg, bytes, s.nextPhysicalSeq, s.nextMessageSeq);
    if encoded.Ok? {
      var frames := encoded.value;
      MeasureIsTheSum(cfg, frames);
      HeldWith(cfg, s, Batch(s.nextMessageSeq, frames, Measure(cfg, frames).GetOr(0), now, 0));
    }
  }

  lemma RunInv(cfg: Config, clock: int, s: Endpoint)
    requires ValidLimits(cfg) && Reaches(cfg, Initial(clock), s)
    ensures Inv(cfg, s)
  {
    hide Inv;
    InitialInv(cfg, clock);
    var steps :| Run(cfg, Initial(clock), steps, s);
    RunKeeps(cfg, Initial(clock), steps, s);
  }

  lemma HeldWith(cfg: Config, s: Endpoint, b: Batch)
    requires Inv(cfg, s) && Alive(s)
    ensures s.unacknowledged == MeterSum(cfg.measure, FramesHeld(s.queue))
    ensures FramesHeld(s.queue + [b]) == FramesHeld(s.queue) + b.frames
    ensures MeterSum(cfg.measure, FramesHeld(s.queue) + b.frames) == s.unacknowledged + MeterSum(cfg.measure, b.frames)
  {
    BytesAreMetered(cfg, s);
    FramesAreHeldInOrder(s.queue, [b], b);
    MeterSumIsASum(cfg.measure, FramesHeld(s.queue), b.frames, Frame(0, 0, 0, 0, 0, 0, []));
  }

  /** A cumulative ACK: an old one changes nothing, one for a message not yet sent degrades, and any other releases
      exactly the messages up to it; the endpoint stays saturated exactly while the bytes left exceed the low-water
      mark. */
  lemma AnAckReleases(cfg: Config, clock: int, s: Endpoint, ack: nat)
    requires ValidLimits(cfg) && Reaches(cfg, Initial(clock), s) && Alive(s) && s.call.Idle?
    ensures
      var t := ProcessAck(cfg, s, ack);
      if ack <= s.lastAcked then t == s
      else if ack > s.highestFullySent then !Alive(t) && t.notes == s.notes + [Degraded(FutureAck)]
      else
        && ack - s.lastAcked <= |s.queue| && t.queue == s.queue[ack - s.lastAcked..]
        && Alive(t) && t.lastAcked == ack && t.unacknowledged == MeterSum(cfg.measure, FramesHeld(t.queue))
        && (t.saturated <==> s.saturated && t.unacknowledged > cfg.lowWaterMark)
        && t.notes == s.notes + if s.saturated && !t.saturated then [Drained] else []
  {
    hide Inv;
    RunInv(cfg, clock, s);
    if s.lastAcked < ack <= s.highestFullySent {
      ReleaseIs(cfg, s, ack);
    }
  }

  lemma ReleaseIs(cfg: Config, s: Endpoint, ack: nat)
    requires ValidLimits(cfg) && Inv(cfg, s) && Alive(s) && s.call.Idle? && s.lastAcked < ack <= s.highestFullySent
    ensures var t := ProcessAck(cfg, s, ack);
      && ack - s.lastAcked <= |s.queue| && t.queue == s.queue[ack - s.lastAcked..]
      && t.unacknowledged == MeterSum(cfg.measure, FramesHeld(t.queue))
  {
    hide History, ReleaseCount, EncodedBatch;
    ReleasedBytes(cfg, s, ack);
    ProcessAckKeeps(cfg, s, ack);
    BytesAreMetered(cfg, ProcessAck(cfg, s, ack));
  }

  /** A data frame leaves only while no ACK is pending; its number is larger than every number taken
      by the link since the last replay, and it skips a number only if that belongs to an acknowledged
      message. */
  lemma FramesLeaveInOrder(cfg: Config, clock: int, t: Endpoint, wire: bool)
    requires ValidLimits(cfg) && Reaches(cfg, Initial(clock), t) && Enabled(t, BeginFrame(wire))
    ensures t.pendingAck.None? && t.cursor < |t.queue| && t.queue[t.cursor].nextFrameIndex < |t.queue[t.cursor].frames|
    ensures t.lastSent < Wire(t)
    ensures forall f :: Authentic(t.hist, f) && t.lastSent < f.seqNo < Wire(t) ==> f.messageSeq <= t.lastAcked
  {
    InitialInv(cfg, clock);
    var steps :| Run(cfg, Initial(clock), steps, t);
    RunKeeps(cfg, Initial(clock), steps, t);
    CursorFrame(cfg, t);
    forall f | Authentic(t.hist, f) && t.lastSent < f.seqNo < Wire(t)
      ensures f.messageSeq <= t.lastAcked
    {
      AuthenticPosition(cfg, t.messages, t.hist, f);
      if t.lastAcked < f.messageSeq {
        StartMonotone(t.hist, t.lastAcked, f.messageSeq - 1);
      }
    }
  }

  /** An accepted acknowledgement is always the pending one: nothing else can be queued while its
      sendFrame call runs. */
  lemma AcceptedAckIsCleared(cfg: Config, clock: int, t: Endpoint)
    requires ValidLimits(cfg) && Reaches(cfg, Initial(clock), t)
    requires Alive(t) && t.call.AckCall? && t.call.wire
    ensures EndCall(t).pendingAck == None
  {
    InitialInv(cfg, clock);
    var steps :| Run(cfg, Initial(clock), steps, t);
    RunKeeps(cfg, Initial(clock), steps, t);
  }

  /** What AcknowledgedRelayDeadline.check looks at: the queue head and the coalesced ACK. */
  function OldestPending(s: Endpoint): Option<int> {
    if s.queue == [] then (if s.pendingAck.None? then None else Some(s.pendingAck.value.queuedAt))
    else if s.pendingAck.None? then Some(s.queue[0].queuedAt)
    else Some(Min(s.queue[0].queuedAt, s.pendingAck.value.queuedAt))
  }

  /** Looking at those two is enough: if neither has expired, nothing has. */
  lemma HeadAndAckSuffice(cfg: Config, clock: int, t: Endpoint, now: int)
    requires ValidLimits(cfg) && Reaches(cfg, Initial(clock), t) && Alive(t)
    requires OldestPending(t).Some? ==> now < OldestPending(t).value + cfg.graceMs + 1
    ensures forall i :: 0 <= i < |t.queue| ==> now - t.queue[i].queuedAt <= cfg.graceMs
    ensures t.pendingAck.Some? ==> now - t.pendingAck.value.queuedAt <= cfg.graceMs
  {
    InitialInv(cfg, clock);
    var steps :| Run(cfg, Initial(clock), steps, t);
    RunKeeps(cfg, Initial(clock), steps, t);
  }
}
