/** The older relay's protocol object: its fields, and methods that work on them as the code does. sendFrame may call
    anything on the object before it returns; whatever happens is a run of the sender in LegacyRelay. */
module LegacyRelayProtocol {
  import opened Wrappers
  import opened LegacyRelay

  datatype OuterCall =
    | OuterSend(bytes: Bytes)
    | OuterFlush
    | OuterDrop
    | OuterMark
    | OuterDispose
    | OuterAccept(frame: Frame)

  /** What sendFrame does when it is called: whether the link takes the frame, and what it calls back. */
  datatype Reaction = Reaction(accepts: bool, calls: seq<OuterCall>)

  /** sendFrame, call by call; when the tape ends it refuses. */
  class Link {
    var tape: seq<Reaction>

    constructor (tape: seq<Reaction>)
      ensures this.tape == tape
    {
      this.tape := tape;
    }

    function Accepts(): bool
      reads this
    {
      tape != [] && tape[0].accepts
    }

    /** sendFrame calls nothing back. */
    predicate Quiet()
      reads this
    {
      forall i :: 0 <= i < |tape| ==> tape[i].calls == []
    }

    method Next() returns (r: Reaction)
      modifies this
      ensures r.accepts == old(Accepts()) && |tape| <= |old(tape)| && (old(Quiet()) ==> Quiet() && r.calls == [])
      ensures r.accepts || r.calls != [] ==> |tape| < |old(tape)|
    {
      if tape == [] {
        return Reaction(false, []);
      }
      r, tape := tape[0], tape[1..];
    }
  }

  /** The state was reached from the beginning; undisturbed: with nothing called from inside sendFrame. */
  ghost predicate Lineage(s: Sender, undisturbed: bool) {
    exists steps :: SenderRun(Empty(s.session, s.most), steps, s)
      && (undisturbed ==> AllUndisturbed(Empty(s.session, s.most), steps, s))
  }

  lemma {:induction false} UndisturbedJoin(s: Sender, first: seq<SenderStep>, t: Sender, step: SenderStep)
    requires SenderRun(s, first, t) && AllUndisturbed(s, first, t) && Can(t, step) && Undisturbed(t, step)
    ensures SenderRun(s, first + [step], Take(t, step)) && AllUndisturbed(s, first + [step], Take(t, step))
    decreases |first|
  {
    hide Take;
    OneStepRun(t, step);
    if first == [] {
      assert first + [step] == [step] && [step][1..] == [];
    } else {
      UndisturbedJoin(Take(s, first[0]), first[1..], t, step);
      assert (first + [step])[1..] == first[1..] + [step];
    }
  }

  /** One step further along the run that led here. */
  lemma Advance(s: Sender, undisturbed: bool, step: SenderStep)
    requires Lineage(s, undisturbed) && Can(s, step)
    ensures Lineage(Take(s, step), undisturbed && Undisturbed(s, step)) && SenderReaches(s, Take(s, step))
  {
    hide Take;
    StepExtends(s, step);
    OneStepRun(s, step);
    var steps :| SenderRun(Empty(s.session, s.most), steps, s)
      && (undisturbed ==> AllUndisturbed(Empty(s.session, s.most), steps, s));
    if undisturbed && Undisturbed(s, step) {
      UndisturbedJoin(Empty(s.session, s.most), steps, s, step);
    } else {
      SenderRunsJoin(Empty(s.session, s.most), steps, s, [step], Take(s, step));
    }
  }

  lemma ReachesTrans(s: Sender, t: Sender, u: Sender)
    requires SenderReaches(s, t) && SenderReaches(t, u)
    ensures SenderReaches(s, u)
  {
    var first :| SenderRun(s, first, t);
    var second :| SenderRun(t, second, u);
    SenderRunsJoin(s, first, t, second, u);
  }

  class Protocol {
    const session: string
    const maxBufferedFrames: nat
    const timed: bool
    const link: Link
    var seqNo: nat
    var inboundSeq: nat
    var degraded: bool
    var disposed: bool
    var bufferedFrames: seq<Frame>
    var timerArmed: bool
    // What was handed to the message listeners.
    ghost var delivered: seq<Bytes>
    // The sender these fields are of, with its sendFrame calls in progress, and whether one was ever called back into.
    ghost var model: Sender
    ghost var undisturbed: bool

    ghost predicate Matches()
      reads this
    {
      && model.session == session && model.most == maxBufferedFrames && |model.messages| == seqNo
      && model.buffer == bufferedFrames && model.degraded == degraded && model.disposed == disposed
      && Lineage(model, undisturbed)
    }

    ghost predicate Valid()
      reads this
    {
      Matches() && (timerArmed <==> bufferedFrames != [] && timed)
    }

    ghost function Receiving(): Receiver
      reads this
    {
      Receiver(session, inboundSeq, degraded, disposed, delivered)
    }

    /** What every call keeps: it leaves the calls in progress as they are, and is a run of the sender. */
    twostate predicate Kept()
      reads this, link
    {
      && Valid() && model.open == old(model.open) && SenderReaches(old(model), model)
      && |link.tape| <= |old(link.tape)| && (old(link.Quiet()) ==> link.Quiet())
      && (undisturbed ==> old(undisturbed))
    }

    constructor (session: string, maxBufferedFrames: nat, timed: bool, link: Link)
      ensures Valid() && this.session == session && this.maxBufferedFrames == maxBufferedFrames && this.link == link
      ensures model == Empty(session, maxBufferedFrames) && undisturbed
      ensures Receiving() == Receiver(session, 0, false, false, [])
    {
      this.session, this.maxBufferedFrames, this.timed, this.link := session, maxBufferedFrames, timed, link;
      seqNo, inboundSeq, degraded, disposed, bufferedFrames, timerArmed := 0, 0, false, false, [], false;
      delivered, model, undisturbed := [], Empty(session, maxBufferedFrames), true;
      new;
      assert SenderRun(model, [], model);
    }

    /** The model takes a step. */
    ghost method Step(step: SenderStep)
      requires Lineage(model, undisturbed) && Can(model, step)
      modifies this`model, this`undisturbed
      ensures Lineage(model, undisturbed) && model == Take(old(model), step) && SenderReaches(old(model), model)
      ensures undisturbed == (old(undisturbed) && Undisturbed(old(model), step))
      ensures model.session == old(model).session && model.most == old(model).most
    {
      Advance(model, undisturbed, step);
      undisturbed := undisturbed && Undisturbed(model, step);
      model := Take(model, step);
    }

    // ---------- The buffer ----------

    /** A full buffer is dropped with the new frame. */
    method BufferFrame(f: Frame) returns (timedOut: nat)
      modifies this`bufferedFrames, this`timerArmed
      ensures |old(bufferedFrames)| >= maxBufferedFrames ==>
        bufferedFrames == [] && !timerArmed && timedOut == |old(bufferedFrames)| + 1
      ensures |old(bufferedFrames)| < maxBufferedFrames ==>
        bufferedFrames == old(bufferedFrames) + [f] && timerArmed == (old(timerArmed) || timed) && timedOut == 0
    {
      if |bufferedFrames| >= maxBufferedFrames {
        timedOut := |bufferedFrames| + 1;
        bufferedFrames, timerArmed := [], false;
        return;
      }
      timedOut := 0;
      bufferedFrames := bufferedFrames + [f];
      timerArmed := timerArmed || timed;
    }

    method DropBufferedFrames() returns (count: nat)
      requires Valid()
      modifies this`bufferedFrames, this`timerArmed, this`model, this`undisturbed
      ensures Kept() && bufferedFrames == [] && count == |old(bufferedFrames)|
      ensures model == Take(old(model), CallDrop) && model.dropped == old(model).dropped + count
      ensures undisturbed == (old(undisturbed) && old(model).open == [])
    {
      hide Lineage, SenderReaches;
      count := |bufferedFrames|;
      Step(CallDrop);
      bufferedFrames, timerArmed := [], false;
    }

    /** The timer over the buffer fires. */
    method OnTimer() returns (timedOut: nat)
      requires Valid() && timerArmed
      modifies this`bufferedFrames, this`timerArmed, this`model, this`undisturbed
      ensures Kept() && bufferedFrames == [] && timedOut == |old(bufferedFrames)| > 0
      ensures model == Take(old(model), CallDrop) && model.dropped == old(model).dropped + timedOut
      ensures undisturbed == (old(undisturbed) && old(model).open == [])
    {
      hide Lineage, SenderReaches;
      timerArmed := false;
      timedOut := |bufferedFrames|;
      Step(CallDrop);
      bufferedFrames := [];
    }

    method MarkDegraded()
      requires Valid()
      modifies this`degraded, this`bufferedFrames, this`timerArmed, this`model, this`undisturbed
      ensures Kept() && degraded && model == Take(old(model), CallMark)
      ensures Receiving() == old(Receiving()).(degraded := true)
      ensures undisturbed == (old(undisturbed) && (old(degraded) || old(model).open == []))
    {
      hide Lineage, SenderReaches;
      if degraded {
        SenderReachesSelf(model);
        return;
      }
      degraded := true;
      timerArmed := false;
      Step(CallMark);
      bufferedFrames := [];
    }

    method Dispose()
      requires Valid()
      modifies this`disposed, this`bufferedFrames, this`timerArmed, this`model, this`undisturbed
      ensures Kept() && disposed && model == Take(old(model), CallDispose)
      ensures Receiving() == old(Receiving()).(disposed := true)
      ensures undisturbed == (old(undisturbed) && old(model).open == [])
    {
      hide Lineage, SenderReaches;
      disposed := true;
      Step(CallDispose);
      bufferedFrames, timerArmed := [], false;
    }

    // ---------- The receiver ----------

    /** acceptPayload: the receiver's step; a gap also ends the sending side. */
    method AcceptPayload(f: Frame) returns (gap: bool)
      requires Valid()
      modifies this
      ensures Kept() && Receiving() == Accept(old(Receiving()), f)
      ensures gap <==> !old(degraded) && degraded
      ensures model == if gap then Take(old(model), CallMark) else old(model)
      ensures undisturbed == (old(undisturbed) && (!gap || old(model).open == []))
    {
      hide Lineage, SenderReaches;
      SenderReachesSelf(model);
      if disposed || degraded || f.session != session {
        return false;
      }
      var expectedSeq := inboundSeq + 1;
      if f.seqNo <= inboundSeq {
        return false;
      }
      if f.seqNo != expectedSeq {
        MarkDegraded();
        return true;
      }
      inboundSeq := f.seqNo;
      delivered := delivered + [f.data];
      return false;
    }

    // ---------- Sending ----------

    method RunCalls(calls: seq<OuterCall>)
      requires Valid()
      modifies this, link
      ensures Kept()
      decreases |link.tape|, 5
    {
      hide Lineage, SenderReaches;
      SenderReachesSelf(model);
      for i := 0 to |calls|
        invariant Kept()
      {
        ghost var before := model;
        RunCall(calls[i]);
        ReachesTrans(old(model), before, model);
      }
    }

    method RunCall(call: OuterCall)
      requires Valid()
      modifies this, link
      ensures Kept()
      decreases |link.tape|, 4
    {
      match call {
        case OuterSend(bytes) => Send(bytes);
        case OuterFlush => var _ := FlushPendingFrames();
        case OuterDrop => var _ := DropBufferedFrames();
        case OuterMark => MarkDegraded();
        case OuterDispose => Dispose();
        case OuterAccept(f) => var _ := AcceptPayload(f);
      }
    }

    /** A sendFrame call: the frame handed over is the one the model's innermost call is for. */
    method InvokeSend(f: Frame) returns (accepted: bool)
      requires Valid() && model.open != [] && Top(model) == OpenCall(f, Top(model).flushing, link.Accepts())
      modifies this, link
      ensures Kept() && accepted == Top(model).wire
      ensures accepted ==> |link.tape| < |old(link.tape)|
      // If sendFrame calls nothing back, nothing else has changed.
      ensures old(link.Quiet()) ==>
        model == old(model) && Receiving() == old(Receiving()) && undisturbed == old(undisturbed)
      decreases |link.tape|, 1
    {
      hide Lineage, SenderReaches;
      SenderReachesSelf(model);
      var reaction := link.Next();
      accepted := reaction.accepts;
      if reaction.calls != [] {
        RunCalls(reaction.calls);
      }
    }

    /** send: the message gets the next number, and its frame goes out, waits, or is dropped and counted. */
    method Send(bytes: Bytes)
      requires Valid()
      modifies this, link
      ensures Kept()
      ensures !Live(old(model)) ==> model == old(model)
      // The first thing that happens is the step of the model; all else is a run from there.
      ensures SenderReaches(Take(old(model), CallSend(bytes, old(link.Accepts()))), model)
      ensures old(link.Quiet()) ==> Receiving() == old(Receiving())
      ensures old(link.Quiet()) && old(model).open == [] ==> undisturbed == old(undisturbed)
      ensures old(link.Quiet()) && Live(old(model)) ==>
        model.messages == old(model).messages + [bytes] && Placed(old(model), NextFrame(old(model), bytes), model)
      decreases |link.tape|, 3
    {
      hide Lineage, SenderReaches;
      SenderReachesSelf(model);
      if disposed || degraded {
        return;
      }
      ghost var before := model;
      seqNo := seqNo + 1;
      var f := Frame(session, seqNo, bytes);
      Step(CallSend(bytes, link.Accepts()));
      SenderReachesSelf(model);
      ghost var first := model;
      if |bufferedFrames| > 0 {
        var _ := BufferFrame(f);
        var _ := FlushPendingFrames();
      } else {
        SendDirectly(f);
      }
      ReachesTrans(before, first, model);
    }

    /** The frame came behind all others; or the buffer was full, and everything in it was dropped with the frame. */
    static predicate Placed(s: Sender, f: Frame, t: Sender) {
      || (t.taken + t.buffer == s.taken + s.buffer + [f] && t.dropped == s.dropped)
      || (|s.buffer| >= s.most && t.buffer == [] && t.taken == s.taken && t.dropped == s.dropped + |s.buffer| + 1)
    }

    /** The only frame there is goes to sendFrame, and into the buffer if the link refuses it. */
    method SendDirectly(f: Frame)
      requires Valid() && model.open != [] && Top(model) == OpenCall(f, false, link.Accepts())
      modifies this, link
      ensures Valid() && model.open == old(model.open)[..|old(model.open)| - 1] && SenderReaches(old(model), model)
      ensures |link.tape| <= |old(link.tape)| && (old(link.Quiet()) ==> link.Quiet()) && (undisturbed ==> old(undisturbed))
      ensures old(link.Quiet()) ==>
        model == Take(old(model), SendReturns(false)) && Receiving() == old(Receiving()) && undisturbed == old(undisturbed)
      decreases |link.tape|, 2
    {
      hide Lineage, SenderReaches;
      ghost var before := model;
      var accepted := InvokeSend(f);
      ghost var returned := model;
      Step(SendReturns(false));
      ReachesTrans(before, returned, model);
      if !accepted {
        var _ := BufferFrame(f);
      }
    }

    /** flushPendingFrames: frames leave from the front until the link refuses. */
    method FlushPendingFrames() returns (flushed: bool)
      requires Valid()
      modifies this, link
      ensures Kept()
      ensures !Live(old(model)) || old(bufferedFrames) == [] ==> model == old(model) && !flushed
      ensures SenderReaches(Take(old(model), CallFlush(old(link.Accepts()))), model)
      ensures flushed ==> bufferedFrames == []
      ensures old(link.Quiet()) ==>
        && model == old(model).(taken := model.taken, buffer := model.buffer) && Receiving() == old(Receiving())
        && model.taken + model.buffer == old(model).taken + old(model).buffer && old(model).taken <= model.taken
        && (flushed <==> Live(old(model)) && old(bufferedFrames) != [] && bufferedFrames == [])
      ensures old(link.Quiet()) && old(model).open == [] ==> undisturbed == old(undisturbed)
      decreases |link.tape|, 2
    {
      hide Lineage, SenderReaches;
      SenderReachesSelf(model);
      if disposed || degraded || |bufferedFrames| == 0 {
        return false;
      }
      ghost var before := model;
      FlushInLine(model, link.Accepts());
      Step(CallFlush(link.Accepts()));
      ghost var first := model;
      SenderReachesSelf(first);
      while |bufferedFrames| > 0
        invariant Matches() && (bufferedFrames != [] ==> (timerArmed <==> timed))
        invariant model.open == old(model.open) + NextCall()
        invariant SenderReaches(first, model) && (undisturbed ==> old(undisturbed))
        invariant |link.tape| <= |old(link.tape)| && (old(link.Quiet()) ==> link.Quiet())
        invariant old(link.Quiet()) ==> Receiving() == old(Receiving()) && SameLine(before, model)
        invariant old(link.Quiet()) && before.open == [] ==> undisturbed == old(undisturbed)
        decreases |link.tape|
      {
        ghost var turn := model;
        var accepted := FlushOne(before);
        ReachesTrans(first, turn, model);
        if !accepted {
          ReachesTrans(before, first, model);
          return false;
        }
      }
      timerArmed := false;
      ReachesTrans(before, first, model);
      return true;
    }

    /** The sendFrame call that the flush loop is about to make. */
    ghost function NextCall(): seq<OpenCall>
      reads this, link
    {
      if bufferedFrames != [] && !degraded then [OpenCall(bufferedFrames[0], true, link.Accepts())] else []
    }

    /** One turn of the flush loop: the frame in front goes to sendFrame, and if it is accepted, whatever is in front by
        then is shifted out. */
    method FlushOne(ghost s: Sender) returns (accepted: bool)
      requires Matches() && bufferedFrames != [] && (timerArmed <==> timed) && model.open == s.open + NextCall()
      modifies this, link
      ensures Matches() && (bufferedFrames != [] ==> (timerArmed <==> timed)) && (!accepted ==> Valid())
      ensures model.open == s.open + (if accepted then NextCall() else [])
      ensures SenderReaches(old(model), model) && (undisturbed ==> old(undisturbed))
      ensures |link.tape| <= |old(link.tape)| && (old(link.Quiet()) ==> link.Quiet())
      ensures accepted ==> |link.tape| < |old(link.tape)|
      ensures old(link.Quiet()) ==>
        Receiving() == old(Receiving()) && undisturbed == old(undisturbed) && (!accepted ==> bufferedFrames != [])
      ensures old(link.Quiet()) && SameLine(s, old(model)) ==> SameLine(s, model)
      decreases |link.tape|, 2, 0
    {
      hide Lineage, SenderReaches, Take, SameLine;
      if degraded {
        SenderReachesSelf(model);
        return false;
      }
      ghost var before := model;
      accepted := InvokeSend(bufferedFrames[0]);
      ghost var returned := model;
      ReturnInLine(s, returned, accepted && link.Accepts());
      ReturnIs(returned, accepted && link.Accepts());
      Step(SendReturns(accepted && link.Accepts()));
      ReachesTrans(before, returned, model);
      if !accepted {
        return false;
      }
      bufferedFrames := if bufferedFrames == [] then [] else bufferedFrames[1..];
    }

    // ---------- What all of this comes to ----------

    /** After any calls, whatever sendFrame called back: another endpoint that gets any of the frames taken, in any order
        and number, delivers a prefix of the messages. */
    lemma OtherEndDeliversAPrefix(frames: seq<Frame>)
      requires Valid() && forall f :: f in frames ==> f in model.taken
      ensures AcceptAll(Receiver(session, 0, false, false, []), frames).delivered <= model.messages
    {
      var steps :| SenderRun(Empty(model.session, model.most), steps, model);
      LegacyRelay.OtherEndDeliversAPrefix(session, maxBufferedFrames, steps, model, frames);
    }

    /** If sendFrame never called back, every message's frame is on the link or in the buffer, once and in order, or was
        dropped and counted. */
    lemma NothingIsLost()
      requires Valid() && undisturbed && model.open == []
      ensures Ascending(model.taken + bufferedFrames) && |model.taken| + |bufferedFrames| + model.dropped == seqNo
    {
      var steps :| SenderRun(Empty(model.session, model.most), steps, model)
        && AllUndisturbed(Empty(model.session, model.most), steps, model);
      UndisturbedIsRight(session, maxBufferedFrames, steps, model);
    }
  }

  /** The flush loop of s has come to t: only frames moved from the buffer to the link, in their order. */
  predicate SameLine(s: Sender, t: Sender) {
    && t == s.(taken := t.taken, buffer := t.buffer, open := t.open) && s.taken <= t.taken
    && s.taken + s.buffer ==
         if |t.open| > |s.open| && Top(t).wire && t.buffer != [] then t.taken + t.buffer[1..] else t.taken + t.buffer
  }

  lemma FlushInLine(s: Sender, wire: bool)
    requires Live(s)
    ensures SameLine(s, Take(s, CallFlush(wire)))
  {
    if s.buffer != [] {
      assert s.buffer == [s.buffer[0]] + s.buffer[1..];
    }
  }

  lemma ReturnInLine(s: Sender, t: Sender, wire: bool)
    requires |t.open| == |s.open| + 1 && Top(t).flushing
    ensures SameLine(s, t) && t.buffer != [] && t.open[..|s.open|] == s.open ==> SameLine(s, Take(t, SendReturns(wire)))
  {
    if SameLine(s, t) && t.buffer != [] && Top(t).wire {
      var u := t.(open := t.open[..|s.open|], buffer := t.buffer[1..]);
      if u.buffer != [] {
        assert u.buffer == [u.buffer[0]] + u.buffer[1..];
      }
    }
  }

  /** The fields after the return of a sendFrame call of the flush loop. */
  lemma ReturnIs(s: Sender, wire: bool)
    requires s.open != [] && Top(s).flushing
    ensures var t := Take(s, SendReturns(wire)); var outer := s.open[..|s.open| - 1];
      && t == s.(open := t.open, buffer := t.buffer, taken := t.taken)
      && (!Top(s).wire ==> t.open == outer && t.buffer == s.buffer)
      && (Top(s).wire ==>
          && t.buffer == (if s.buffer == [] then [] else s.buffer[1..])
          && t.open == outer + if t.buffer != [] && !s.degraded then [OpenCall(t.buffer[0], true, wire)] else [])
  {
    assert s.open[..|s.open| - 1] + [] == s.open[..|s.open| - 1];
  }
}
