/** The older relay: numbered frames, a bounded buffer while the link refuses, and a receiver that gives up at
    the first gap. The sending side is cut at its sendFrame calls; whatever sendFrame calls back is steps in between. */
module LegacyRelay {
  import opened Wrappers

  newtype byte = x: int | 0 <= x < 256

  type Bytes = seq<byte>

  datatype Frame = Frame(session: string, seqNo: nat, data: Bytes)

  // ---------- The receiver ----------

  datatype Receiver = Receiver(session: string, inboundSeq: nat, degraded: bool, disposed: bool, delivered: seq<Bytes>)

  function Accept(r: Receiver, f: Frame): Receiver {
    if r.disposed || r.degraded || f.session != r.session || f.seqNo <= r.inboundSeq then r
    else if f.seqNo != r.inboundSeq + 1 then r.(degraded := true)
    else r.(inboundSeq := f.seqNo, delivered := r.delivered + [f.data])
  }

  function AcceptAll(r: Receiver, frames: seq<Frame>): Receiver
    decreases |frames|
  {
    if frames == [] then r else AcceptAll(Accept(r, frames[0]), frames[1..])
  }

  /** The frame carries the message of its number. */
  predicate Authentic(session: string, messages: seq<Bytes>, f: Frame) {
    f.session == session ==> 1 <= f.seqNo <= |messages| && f.data == messages[f.seqNo - 1]
  }

  /** However frames are lost, repeated or reordered on the way, what is delivered is a prefix of what was sent,
      each message once and in order. */
  lemma {:induction false} DeliversAPrefix(r: Receiver, frames: seq<Frame>, messages: seq<Bytes>)
    requires r.inboundSeq <= |messages| && r.delivered == messages[..r.inboundSeq]
    requires forall f :: f in frames ==> Authentic(r.session, messages, f)
    ensures var t := AcceptAll(r, frames);
      r.inboundSeq <= t.inboundSeq <= |messages| && t.delivered == messages[..t.inboundSeq]
    decreases |frames|
  {
    if frames != [] {
      var f := frames[0];
      assert Authentic(r.session, messages, f);
      DeliversAPrefix(Accept(r, f), frames[1..], messages);
    }
  }

  /** Nothing is delivered after the first gap. */
  lemma {:induction false} NothingAfterAGap(r: Receiver, frames: seq<Frame>)
    requires r.degraded || r.disposed
    ensures AcceptAll(r, frames) == r
    decreases |frames|
  {
    if frames != [] {
      NothingAfterAGap(r, frames[1..]);
    }
  }

  lemma {:induction false} AcceptAllSplits(r: Receiver, a: seq<Frame>, b: seq<Frame>)
    ensures AcceptAll(r, a + b) == AcceptAll(AcceptAll(r, a), b)
    decreases |a|
  {
    if a == [] {
      assert a + b == b;
    } else {
      assert (a + b)[1..] == a[1..] + b;
      AcceptAllSplits(Accept(r, a[0]), a[1..], b);
    }
  }

  /** Exactly this makes it give up: a number beyond the next one. */
  lemma GivesUpWhen(r: Receiver, f: Frame)
    requires !r.degraded && !r.disposed
    ensures Accept(r, f).degraded <==> f.session == r.session && f.seqNo > r.inboundSeq + 1
  {
  }

  /** The receiver tells frames by the session only: those of another sender of the same session, of an older
      bridge generation say, are taken for its own. */
  lemma GenerationsAreNotTold(session: string, old1: Bytes, new1: Bytes, new2: Bytes)
    requires old1 != new1
    ensures var r := AcceptAll(Receiver(session, 0, false, false, []), [Frame(session, 1, old1), Frame(session, 1, new1), Frame(session, 2, new2)]);
      r.delivered == [old1, new2] && !r.degraded
  {
    var frames := [Frame(session, 1, old1), Frame(session, 1, new1), Frame(session, 2, new2)];
    var r := Receiver(session, 0, false, false, []);
    var a := Accept(r, frames[0]);
    var b := Accept(a, frames[1]);
    var c := Accept(b, frames[2]);
    assert frames[1..][1..] == frames[2..] && frames[2..][1..] == [];
    assert AcceptAll(b, frames[2..]) == AcceptAll(c, []) == c;
    assert AcceptAll(a, frames[1..]) == c;
  }

  /** The frame is the next one for the receiver, but does not carry the message of its number. */
  predicate Misleads(r: Receiver, f: Frame, messages: seq<Bytes>) {
    && !r.degraded && !r.disposed && f.session == r.session && f.seqNo == r.inboundSeq + 1
    && !(r.inboundSeq < |messages| && f.data == messages[r.inboundSeq])
  }

  lemma StaysAPrefixWhen(r: Receiver, f: Frame, messages: seq<Bytes>)
    requires |r.delivered| == r.inboundSeq && r.delivered <= messages
    ensures Accept(r, f).delivered <= messages <==> !Misleads(r, f, messages)
    ensures |Accept(r, f).delivered| == Accept(r, f).inboundSeq
  {
    var t := Accept(r, f);
    if t.delivered <= messages && t.delivered != r.delivered {
      assert t.delivered[r.inboundSeq] == f.data == messages[r.inboundSeq];
    }
  }

  lemma {:induction false} DeliveredGrows(r: Receiver, frames: seq<Frame>)
    ensures r.delivered <= AcceptAll(r, frames).delivered
    decreases |frames|
  {
    if frames != [] {
      DeliveredGrows(Accept(r, frames[0]), frames[1..]);
    }
  }

  /** For frames from anywhere: what is delivered is a prefix of what was sent if and only if no frame that was the next
      one when it arrived carried anything else than the message of its number. */
  lemma {:induction false} DeliversAPrefixWhen(r: Receiver, frames: seq<Frame>, messages: seq<Bytes>)
    requires |r.delivered| == r.inboundSeq && r.delivered <= messages
    ensures AcceptAll(r, frames).delivered <= messages <==>
      forall k :: 0 <= k < |frames| ==> !Misleads(AcceptAll(r, frames[..k]), frames[k], messages)
    decreases |frames|
  {
    if frames != [] {
      var next, rest := Accept(r, frames[0]), frames[1..];
      StaysAPrefixWhen(r, frames[0], messages);
      assert AcceptAll(r, frames[..0]) == r;
      if Misleads(r, frames[0], messages) {
        DeliveredGrows(next, rest);
      } else {
        DeliversAPrefixWhen(next, rest, messages);
        forall k | 0 <= k < |rest|
          ensures AcceptAll(r, frames[..k + 1]) == AcceptAll(next, rest[..k]) && frames[k + 1] == rest[k]
        {
          assert frames[..k + 1][1..] == rest[..k];
        }
      }
    }
  }

  predicate Ascending(frames: seq<Frame>) {
    forall i, j :: 0 <= i < j < |frames| ==> frames[i].seqNo < frames[j].seqNo
  }

  lemma AscendingPrefix(a: seq<Frame>, b: seq<Frame>)
    requires Ascending(a + b)
    ensures Ascending(a)
  {
    assert forall i :: 0 <= i < |a| ==> (a + b)[i] == a[i];
  }

  lemma OneMoreAscends(all: seq<Frame>, f: Frame)
    requires Ascending(all)
    ensures Ascending(all + [f]) <==> all == [] || all[|all| - 1].seqNo < f.seqNo
  {
    if all != [] {
      assert (all + [f])[|all| - 1] == all[|all| - 1] && (all + [f])[|all|] == f;
    }
  }

  // ---------- The sender ----------

  /** A sendFrame call in progress: of send itself or of the flush loop, and whether the link takes the frame. */
  datatype OpenCall = OpenCall(frame: Frame, flushing: bool, wire: bool)

  /** messages: what was sent so far, number k at index k - 1; open: the sendFrame calls in progress, innermost last;
      taken: the frames the link took; dropped: how many were dropped and counted. */
  datatype Sender = Sender(
    session: string, most: nat, messages: seq<Bytes>, buffer: seq<Frame>, open: seq<OpenCall>, taken: seq<Frame>,
    dropped: nat, degraded: bool, disposed: bool)

  function Empty(session: string, most: nat): Sender {
    Sender(session, most, [], [], [], [], 0, false, false)
  }

  /** wire: whether the link takes the frame of the sendFrame call that the step begins, if it begins one. */
  datatype SenderStep =
    | CallSend(bytes: Bytes, wire: bool)
    | CallFlush(wire: bool)
    | CallDrop
    | CallMark
    | CallDispose
    | SendReturns(wire: bool)

  predicate Can(s: Sender, step: SenderStep) { step.SendReturns? ==> s.open != [] }

  predicate Live(s: Sender) { !s.degraded && !s.disposed }

  function Top(s: Sender): OpenCall
    requires s.open != []
  {
    s.open[|s.open| - 1]
  }

  function BeginCall(s: Sender, f: Frame, flushing: bool, wire: bool): Sender {
    s.(open := s.open + [OpenCall(f, flushing, wire)], taken := if wire then s.taken + [f] else s.taken)
  }

  /** One turn of the flush loop, up to its sendFrame call. */
  function FlushOn(s: Sender, wire: bool): Sender {
    if s.buffer == [] || s.degraded then s else BeginCall(s, s.buffer[0], true, wire)
  }

  function Buffered(s: Sender, f: Frame): Sender {
    if |s.buffer| >= s.most then s.(buffer := [], dropped := s.dropped + |s.buffer| + 1) else s.(buffer := s.buffer + [f])
  }

  function Dropped(s: Sender): Sender { s.(buffer := [], dropped := s.dropped + |s.buffer|) }

  function NextFrame(s: Sender, bytes: Bytes): Frame { Frame(s.session, |s.messages| + 1, bytes) }

  /** A send that finds frames waiting puts its own behind them, and a flush follows as the next step. After a sendFrame
      call of the flush loop, what is in front of the buffer by then is shifted out. */
  function Take(s: Sender, step: SenderStep): Sender
    requires Can(s, step)
  {
    match step
    case CallSend(bytes, wire) =>
      var f := NextFrame(s, bytes);
      var t := s.(messages := s.messages + [bytes]);
      if !Live(s) then s else if s.buffer != [] then Buffered(t, f) else BeginCall(t, f, false, wire)
    case CallFlush(wire) => if !Live(s) then s else FlushOn(s, wire)
    case CallDrop => Dropped(s)
    case CallMark => if s.degraded then s else Dropped(s).(degraded := true)
    case CallDispose => Dropped(s).(disposed := true)
    case SendReturns(wire) =>
      var t := s.(open := s.open[..|s.open| - 1]);
      if !Top(s).flushing then (if Top(s).wire then t else Buffered(t, Top(s).frame))
      else if !Top(s).wire then t
      else FlushOn(t.(buffer := if t.buffer == [] then [] else t.buffer[1..]), wire)
  }

  ghost predicate SenderRun(s: Sender, steps: seq<SenderStep>, t: Sender)
    decreases |steps|
  {
    if steps == [] then s == t else Can(s, steps[0]) && SenderRun(Take(s, steps[0]), steps[1..], t)
  }

  // ---------- When the frames taken have ascending numbers ----------

  /** The frame that the link takes in the step, as it stands in the state before. */
  function Begun(s: Sender, step: SenderStep): Option<Frame>
    requires Can(s, step)
  {
    match step
    case CallSend(bytes, wire) => if wire && Live(s) && s.buffer == [] then Some(NextFrame(s, bytes)) else None
    case CallFlush(wire) => if wire && Live(s) && s.buffer != [] then Some(s.buffer[0]) else None
    case SendReturns(wire) =>
      if wire && Top(s).flushing && Top(s).wire && !s.degraded && |s.buffer| > 1 then Some(s.buffer[1]) else None
    case _ => None
  }

  lemma TakenGrowsByBegun(s: Sender, step: SenderStep)
    requires Can(s, step)
    ensures Take(s, step).taken == s.taken + if Begun(s, step).Some? then [Begun(s, step).value] else []
  {
    assert s.taken + [] == s.taken;
  }

  /** The step puts a frame on the link whose number is not beyond that of the last one there. */
  predicate GoesBack(s: Sender, step: SenderStep)
    requires Can(s, step)
  {
    Begun(s, step).Some? && s.taken != [] && Begun(s, step).value.seqNo <= s.taken[|s.taken| - 1].seqNo
  }

  lemma StaysAscendingWhen(s: Sender, step: SenderStep)
    requires Can(s, step) && Ascending(s.taken)
    ensures Ascending(Take(s, step).taken) <==> !GoesBack(s, step)
  {
    TakenGrowsByBegun(s, step);
    if Begun(s, step).Some? {
      OneMoreAscends(s.taken, Begun(s, step).value);
    } else {
      assert s.taken + [] == s.taken;
    }
  }

  ghost predicate NeverGoesBack(s: Sender, steps: seq<SenderStep>, t: Sender)
    requires SenderRun(s, steps, t)
    decreases |steps|
  {
    steps == [] || (!GoesBack(s, steps[0]) && NeverGoesBack(Take(s, steps[0]), steps[1..], t))
  }

  lemma {:induction false} TakenGrows(s: Sender, steps: seq<SenderStep>, t: Sender)
    requires SenderRun(s, steps, t)
    ensures s.taken <= t.taken
    decreases |steps|
  {
    hide Take, Begun;
    if steps != [] {
      TakenGrowsByBegun(s, steps[0]);
      TakenGrows(Take(s, steps[0]), steps[1..], t);
    }
  }

  lemma {:induction false} AscendsWhen(s: Sender, steps: seq<SenderStep>, t: Sender)
    requires SenderRun(s, steps, t) && Ascending(s.taken)
    ensures Ascending(t.taken) <==> NeverGoesBack(s, steps, t)
    decreases |steps|
  {
    hide Take, Begun, GoesBack, Ascending;
    if steps != [] {
      var next := Take(s, steps[0]);
      StaysAscendingWhen(s, steps[0]);
      if GoesBack(s, steps[0]) {
        TakenGrows(next, steps[1..], t);
        if Ascending(t.taken) {
          assert next.taken + t.taken[|next.taken|..] == t.taken;
          AscendingPrefix(next.taken, t.taken[|next.taken|..]);
        }
      } else {
        AscendsWhen(next, steps[1..], t);
      }
    }
  }

  /** In any run, whatever sendFrame calls back: the frames taken have strictly increasing numbers if and only if no call
      was begun for a frame that is not beyond the last one taken. */
  lemma NumbersAscendWhen(session: string, most: nat, steps: seq<SenderStep>, t: Sender)
    requires SenderRun(Empty(session, most), steps, t)
    ensures Ascending(t.taken) <==> NeverGoesBack(Empty(session, most), steps, t)
  {
    AscendsWhen(Empty(session, most), steps, t);
  }

  // ---------- When nothing is sent or flushed from inside sendFrame ----------

  /** Everything that is or will be on the link, unless it is dropped, in the order in which it gets there. */
  function Lined(s: Sender): seq<Frame> {
    if s.open == [] then s.taken + s.buffer
    else if !Top(s).flushing then s.taken + s.buffer + (if Top(s).wire then [] else [Top(s).frame])
    else if Top(s).wire && s.buffer != [] then s.taken + s.buffer[1..]
    else s.taken + s.buffer
  }

  ghost predicate InLine(s: Sender) {
    && |s.open| <= 1 && Ascending(Lined(s)) && (forall f :: f in Lined(s) ==> f.seqNo <= |s.messages|)
    && (s.open != [] && !Top(s).flushing ==> s.buffer == [])
  }

  lemma ShorterLine(s: Sender, t: Sender, rest: seq<Frame>)
    requires InLine(s) && |t.open| <= 1 && |t.messages| >= |s.messages| && Lined(s) == Lined(t) + rest
    requires t.open != [] && !Top(t).flushing ==> t.buffer == []
    ensures InLine(t)
  {
    hide Lined;
    AscendingPrefix(Lined(t), rest);
  }

  lemma LongerLine(s: Sender, t: Sender, f: Frame)
    requires InLine(s) && |t.open| <= 1 && |t.messages| == |s.messages| + 1
    requires Lined(t) == Lined(s) + [f] && f.seqNo == |t.messages|
    requires t.open != [] && !Top(t).flushing ==> t.buffer == []
    ensures InLine(t)
  {
    hide Lined;
    OneMoreAscends(Lined(s), f);
    if Lined(s) != [] {
      assert Lined(s)[|Lined(s)| - 1] in Lined(s);
    }
  }

  lemma SendKeepsLine(s: Sender, bytes: Bytes, wire: bool)
    requires InLine(s) && s.open == []
    ensures InLine(Take(s, CallSend(bytes, wire)))
  {
    hide Ascending;
    var t := Take(s, CallSend(bytes, wire));
    if Live(s) {
      if s.buffer != [] && |s.buffer| >= s.most {
        assert s.taken + s.buffer == (s.taken + []) + s.buffer;
        ShorterLine(s, t, s.buffer);
      } else {
        assert Lined(t) == Lined(s) + [NextFrame(s, bytes)];
        LongerLine(s, t, NextFrame(s, bytes));
      }
    }
  }

  lemma FlushKeepsLine(s: Sender, wire: bool)
    requires InLine(s) && s.open == []
    ensures InLine(FlushOn(s, wire))
  {
    hide Ascending;
    var t := FlushOn(s, wire);
    if s.buffer != [] && !s.degraded {
      assert s.buffer == [s.buffer[0]] + s.buffer[1..];
      assert Lined(t) == Lined(s);
    }
  }

  lemma DropKeepsLine(s: Sender, t: Sender)
    requires InLine(s) && t == Dropped(s).(degraded := t.degraded, disposed := t.disposed)
    ensures InLine(t)
  {
    hide Ascending;
    if s.open == [] || Top(s).flushing {
      assert Lined(t) == s.taken;
      assert Lined(s) == Lined(t) + Lined(s)[|s.taken|..];
      ShorterLine(s, t, Lined(s)[|s.taken|..]);
    } else {
      assert Lined(t) == Lined(s);
    }
  }

  lemma ReturnKeepsLine(s: Sender, wire: bool)
    requires InLine(s) && s.open != []
    ensures InLine(Take(s, SendReturns(wire)))
  {
    hide Ascending;
    var t := s.(open := s.open[..|s.open| - 1]);
    assert t.open == [];
    if !Top(s).flushing {
      if !Top(s).wire && 0 >= s.most {
        assert Lined(s) == s.taken + [Top(s).frame] && Lined(Buffered(t, Top(s).frame)) == s.taken;
        ShorterLine(s, Buffered(t, Top(s).frame), [Top(s).frame]);
      } else {
        assert Lined(Take(s, SendReturns(wire))) == Lined(s);
      }
    } else if Top(s).wire {
      var u := t.(buffer := if t.buffer == [] then [] else t.buffer[1..]);
      assert Lined(u) == Lined(s);
      FlushKeepsLine(u, wire);
    } else {
      assert Lined(t) == Lined(s);
    }
  }

  /** Nothing is sent or flushed while a sendFrame call is in progress. */
  predicate Unnested(s: Sender, step: SenderStep) { step.CallSend? || step.CallFlush? ==> s.open == [] }

  ghost predicate AllUnnested(s: Sender, steps: seq<SenderStep>, t: Sender)
    requires SenderRun(s, steps, t)
    decreases |steps|
  {
    steps == [] || (Unnested(s, steps[0]) && AllUnnested(Take(s, steps[0]), steps[1..], t))
  }

  lemma {:induction false} UnnestedKeepsLine(s: Sender, steps: seq<SenderStep>, t: Sender)
    requires SenderRun(s, steps, t) && AllUnnested(s, steps, t) && InLine(s)
    ensures InLine(t)
    decreases |steps|
  {
    hide InLine;
    if steps != [] {
      StepKeepsLine(s, steps[0]);
      UnnestedKeepsLine(Take(s, steps[0]), steps[1..], t);
    }
  }

  lemma StepKeepsLine(s: Sender, step: SenderStep)
    requires Can(s, step) && Unnested(s, step) && InLine(s)
    ensures InLine(Take(s, step))
  {
    hide InLine;
    match step
    case CallSend(bytes, wire) => SendKeepsLine(s, bytes, wire);
    case CallFlush(wire) => if Live(s) { FlushKeepsLine(s, wire); }
    case CallDrop => DropKeepsLine(s, Take(s, step));
    case CallMark => if !s.degraded { DropKeepsLine(s, Take(s, step)); }
    case CallDispose => DropKeepsLine(s, Take(s, step));
    case SendReturns(wire) => ReturnKeepsLine(s, wire);
  }

  /** If nothing is sent or flushed from inside sendFrame, then whenever no call is in progress the frames taken and
      those still waiting have strictly increasing numbers. */
  lemma UnnestedNumbersAscend(session: string, most: nat, steps: seq<SenderStep>, t: Sender)
    requires SenderRun(Empty(session, most), steps, t) && AllUnnested(Empty(session, most), steps, t)
    ensures t.open == [] ==> Ascending(t.taken + t.buffer)
  {
    UnnestedKeepsLine(Empty(session, most), steps, t);
  }

  // ---------- Counting ----------

  /** An accepted sendFrame call of the flush loop returns, and there is nothing to shift out. */
  predicate Overruns(s: Sender, step: SenderStep) {
    step.SendReturns? && s.open != [] && Top(s).flushing && Top(s).wire && s.buffer == []
  }

  ghost function CountOverruns(s: Sender, steps: seq<SenderStep>, t: Sender): nat
    requires SenderRun(s, steps, t)
    decreases |steps|
  {
    if steps == [] then 0
    else (if Overruns(s, steps[0]) then 1 else 0) + CountOverruns(Take(s, steps[0]), steps[1..], t)
  }

  /** What the calls in progress still owe to the count: a refused frame of send is nowhere yet, one the flush loop has
      sent is on the link and in the buffer. */
  function Owed(open: seq<OpenCall>): int {
    if open == [] then 0
    else
      var c := open[|open| - 1];
      Owed(open[..|open| - 1]) + (if !c.flushing && !c.wire then 1 else if c.flushing && c.wire then -1 else 0)
  }

  function Accounted(s: Sender): int { |s.taken| + |s.buffer| + s.dropped + Owed(s.open) }

  lemma BeginIsAccounted(s: Sender, f: Frame, flushing: bool, wire: bool)
    ensures Accounted(BeginCall(s, f, flushing, wire)) == Accounted(s) + (if flushing then 0 else 1)
    ensures BeginCall(s, f, flushing, wire).messages == s.messages
  {
    assert (s.open + [OpenCall(f, flushing, wire)])[..|s.open|] == s.open;
  }

  lemma StepIsAccounted(s: Sender, step: SenderStep)
    requires Can(s, step)
    ensures var t := Take(s, step);
      Accounted(t) - |t.messages| == Accounted(s) - |s.messages| + (if Overruns(s, step) then 1 else 0)
  {
    hide BeginCall;
    match step
    case CallSend(bytes, wire) =>
      if Live(s) && s.buffer == [] {
        BeginIsAccounted(s.(messages := s.messages + [bytes]), NextFrame(s, bytes), false, wire);
      }
    case CallFlush(wire) => if Live(s) { FlushIsAccounted(s, wire); }
    case SendReturns(wire) =>
      var t := s.(open := s.open[..|s.open| - 1]);
      if Top(s).flushing && Top(s).wire {
        FlushIsAccounted(t.(buffer := if t.buffer == [] then [] else t.buffer[1..]), wire);
      }
    case _ =>
  }

  lemma FlushIsAccounted(s: Sender, wire: bool)
    ensures Accounted(FlushOn(s, wire)) == Accounted(s) && FlushOn(s, wire).messages == s.messages
  {
    if s.buffer != [] {
      BeginIsAccounted(s, s.buffer[0], true, wire);
    }
  }

  lemma {:induction false} RunIsAccounted(s: Sender, steps: seq<SenderStep>, t: Sender)
    requires SenderRun(s, steps, t)
    ensures Accounted(t) - |t.messages| == Accounted(s) - |s.messages| + CountOverruns(s, steps, t)
    decreases |steps|
  {
    hide Take, Accounted, Overruns;
    if steps != [] {
      StepIsAccounted(s, steps[0]);
      RunIsAccounted(Take(s, steps[0]), steps[1..], t);
    }
  }

  /** In any run, once no call is in progress: frames taken, waiting and dropped are as many as were sent if and only if
      no accepted call of the flush loop returned to an empty buffer. */
  lemma TheCountIsRightWhen(session: string, most: nat, steps: seq<SenderStep>, t: Sender)
    requires SenderRun(Empty(session, most), steps, t) && t.open == []
    ensures |t.taken| + |t.buffer| + t.dropped == |t.messages| <==> CountOverruns(Empty(session, most), steps, t) == 0
  {
    RunIsAccounted(Empty(session, most), steps, t);
  }

  /** Nothing at all is called from inside sendFrame. */
  predicate Undisturbed(s: Sender, step: SenderStep) { !step.SendReturns? ==> s.open == [] }

  ghost predicate AllUndisturbed(s: Sender, steps: seq<SenderStep>, t: Sender)
    requires SenderRun(s, steps, t)
    decreases |steps|
  {
    steps == [] || (Undisturbed(s, steps[0]) && AllUndisturbed(Take(s, steps[0]), steps[1..], t))
  }

  /** At most one call is in progress, and a flush has its frame in front. */
  predicate Single(s: Sender) {
    |s.open| <= 1 && (s.open != [] && Top(s).flushing ==> s.buffer != [])
  }

  lemma {:induction false} UndisturbedIsUnnested(s: Sender, steps: seq<SenderStep>, t: Sender)
    requires SenderRun(s, steps, t) && AllUndisturbed(s, steps, t) && Single(s)
    ensures AllUnnested(s, steps, t) && CountOverruns(s, steps, t) == 0
    decreases |steps|
  {
    if steps != [] {
      UndisturbedIsUnnested(Take(s, steps[0]), steps[1..], t);
    }
  }

  /** If nothing is called from inside sendFrame, then whenever no call is in progress every message's frame is on the
      link or waiting, once and in order, or was dropped and counted. */
  lemma UndisturbedIsRight(session: string, most: nat, steps: seq<SenderStep>, t: Sender)
    requires SenderRun(Empty(session, most), steps, t) && AllUndisturbed(Empty(session, most), steps, t) && t.open == []
    ensures Ascending(t.taken + t.buffer) && |t.taken| + |t.buffer| + t.dropped == |t.messages|
  {
    UndisturbedIsUnnested(Empty(session, most), steps, t);
    UnnestedNumbersAscend(session, most, steps, t);
    TheCountIsRightWhen(session, most, steps, t);
  }

  // ---------- What the other end gets ----------

  predicate InCall(open: seq<OpenCall>, f: Frame) {
    exists k :: 0 <= k < |open| && open[k].frame == f
  }

  predicate Has(s: Sender, f: Frame) {
    f in s.taken || f in s.buffer || InCall(s.open, f)
  }

  /** Every frame anywhere carries the message of its number. */
  ghost predicate AllAuthentic(s: Sender) {
    forall f {:trigger Has(s, f)} :: Has(s, f) ==> f.session == s.session && Authentic(s.session, s.messages, f)
  }

  lemma BeginsWithKnown(s: Sender, g: Frame, flushing: bool, wire: bool, f: Frame)
    requires Has(BeginCall(s, g, flushing, wire), f)
    ensures Has(s, f) || f == g
  {
    var open := s.open + [OpenCall(g, flushing, wire)];
    if InCall(open, f) {
      var k :| 0 <= k < |open| && open[k].frame == f;
      assert k < |s.open| ==> s.open[k].frame == f;
    }
  }

  lemma ReturnedIsKnown(s: Sender, f: Frame)
    requires s.open != [] && InCall(s.open[..|s.open| - 1], f)
    ensures InCall(s.open, f)
  {
    var k :| 0 <= k < |s.open| - 1 && s.open[..|s.open| - 1][k].frame == f;
    assert s.open[k].frame == f;
  }

  /** A step makes up no frame but the one of a message that is sent. */
  lemma NothingMadeUp(s: Sender, step: SenderStep, f: Frame)
    requires Can(s, step) && Has(Take(s, step), f)
    ensures Has(s, f) || (step.CallSend? && Live(s) && f == NextFrame(s, step.bytes))
  {
    hide BeginCall, InCall;
    match step
    case CallSend(bytes, wire) =>
      if Live(s) && s.buffer == [] {
        BeginsWithKnown(s.(messages := s.messages + [bytes]), NextFrame(s, bytes), false, wire, f);
      }
    case CallFlush(wire) => if Live(s) { FlushesKnown(s, wire, f); }
    case SendReturns(wire) =>
      var t := s.(open := s.open[..|s.open| - 1]);
      if InCall(t.open, f) { ReturnedIsKnown(s, f); }
      TopIsKnown(s);
      if Top(s).flushing && Top(s).wire {
        FlushesKnown(t.(buffer := if t.buffer == [] then [] else t.buffer[1..]), wire, f);
      }
    case _ =>
  }

  lemma TopIsKnown(s: Sender)
    requires s.open != []
    ensures InCall(s.open, Top(s).frame)
  {
    assert s.open[|s.open| - 1].frame == Top(s).frame;
  }

  lemma FlushesKnown(s: Sender, wire: bool, f: Frame)
    requires Has(FlushOn(s, wire), f)
    ensures Has(s, f)
  {
    hide BeginCall, InCall;
    if s.buffer != [] && !s.degraded {
      BeginsWithKnown(s, s.buffer[0], true, wire, f);
    }
  }

  lemma StepExtends(s: Sender, step: SenderStep)
    requires Can(s, step)
    ensures var t := Take(s, step);
      && t.session == s.session && t.most == s.most && s.messages <= t.messages
      && (step.CallSend? && Live(s) ==> t.messages == s.messages + [step.bytes])
  {
  }

  lemma StaysAuthentic(s: Sender, step: SenderStep)
    requires Can(s, step) && AllAuthentic(s)
    ensures AllAuthentic(Take(s, step)) && Take(s, step).session == s.session
  {
    hide Take, Has;
    var t := Take(s, step);
    StepExtends(s, step);
    forall f | Has(t, f)
      ensures f.session == t.session && Authentic(t.session, t.messages, f)
    {
      NothingMadeUp(s, step, f);
    }
  }

  lemma {:induction false} RunStaysAuthentic(s: Sender, steps: seq<SenderStep>, t: Sender)
    requires SenderRun(s, steps, t) && AllAuthentic(s)
    ensures AllAuthentic(t) && t.session == s.session
    decreases |steps|
  {
    hide AllAuthentic, Take;
    if steps != [] {
      StaysAuthentic(s, steps[0]);
      RunStaysAuthentic(Take(s, steps[0]), steps[1..], t);
    }
  }

  /** Whatever sendFrame calls back: another endpoint that gets any of the frames taken, in any order and number, delivers
      a prefix of the messages sent. */
  lemma OtherEndDeliversAPrefix(session: string, most: nat, steps: seq<SenderStep>, t: Sender, frames: seq<Frame>)
    requires SenderRun(Empty(session, most), steps, t) && forall f :: f in frames ==> f in t.taken
    ensures AcceptAll(Receiver(session, 0, false, false, []), frames).delivered <= t.messages
  {
    RunStaysAuthentic(Empty(session, most), steps, t);
    forall f | f in frames
      ensures Authentic(session, t.messages, f)
    {
      assert Has(t, f);
    }
    DeliversAPrefix(Receiver(session, 0, false, false, []), frames, t.messages);
  }

  // ---------- What a sendFrame that calls back can do ----------

  /** An accepted sendFrame call of the flush loop returns, and whatever is in front by then is shifted out. */
  predicate Shifts(s: Sender, step: SenderStep)
    requires Can(s, step)
  {
    step.SendReturns? && Top(s).flushing && Top(s).wire && s.buffer != []
  }

  /** A frame that waits is lost uncounted exactly if it is shifted out and the link has not taken it: calls made inside
      sendFrame have put it in front. */
  lemma AFrameIsLostWhen(s: Sender, step: SenderStep)
    requires Can(s, step)
    ensures var t := Take(s, step);
      t.dropped == s.dropped && (exists f :: f in s.buffer && f !in t.buffer && f !in t.taken) <==>
        Shifts(s, step) && s.buffer[0] !in s.buffer[1..] && s.buffer[0] !in s.taken
  {
    var t := Take(s, step);
    TakenGrowsByBegun(s, step);
    if Shifts(s, step) {
      assert forall f :: f in s.buffer ==> f == s.buffer[0] || f in s.buffer[1..];
      if |s.buffer| > 1 {
        assert s.buffer[1] in s.buffer[1..];
      }
    } else if t.dropped == s.dropped {
      assert s.buffer <= t.buffer;
    }
  }

  ghost predicate SenderReaches(s: Sender, t: Sender) {
    exists steps :: SenderRun(s, steps, t)
  }

  lemma {:induction false} SenderRunsJoin(s: Sender, first: seq<SenderStep>, t: Sender, second: seq<SenderStep>, u: Sender)
    requires SenderRun(s, first, t) && SenderRun(t, second, u)
    ensures SenderRun(s, first + second, u)
    decreases |first|
  {
    hide Take;
    if first == [] {
      assert first + second == second;
    } else {
      SenderRunsJoin(Take(s, first[0]), first[1..], t, second, u);
      assert (first + second)[1..] == first[1..] + second;
    }
  }

  lemma OneStepRun(s: Sender, step: SenderStep)
    requires Can(s, step)
    ensures SenderRun(s, [step], Take(s, step))
  {
    hide Take;
    assert [step][1..] == [];
    assert SenderRun(Take(s, step), [], Take(s, step));
  }

  lemma SenderReachesNext(s: Sender, t: Sender, step: SenderStep)
    requires SenderReaches(s, t) && Can(t, step)
    ensures SenderReaches(s, Take(t, step))
  {
    hide Take;
    var steps :| SenderRun(s, steps, t);
    OneStepRun(t, step);
    SenderRunsJoin(s, steps, t, [step], Take(t, step));
  }

  lemma SenderReachesSelf(s: Sender)
    ensures SenderReaches(s, s)
  {
    assert SenderRun(s, [], s);
  }

  /** A frame waits after the link refused it, a flush sends it, and from inside that call another message is sent and
      flushed: the flush loop is entered again before the shift, and the frame in front goes out twice. */
  lemma ASendInsideAFlush(session: string, b1: Bytes, b2: Bytes) returns (t: Sender)
    ensures SenderReaches(Empty(session, 50), t)
    ensures var f1, f2, call := Frame(session, 1, b1), Frame(session, 2, b2), OpenCall(Frame(session, 1, b1), true, true);
      t == Sender(session, 50, [b1, b2], [f1, f2], [call, call], [f1, f1], 0, false, false)
    ensures !Ascending(t.taken)
  {
    hide SenderReaches;
    var f1, f2 := Frame(session, 1, b1), Frame(session, 2, b2);
    var s0 := Empty(session, 50);
    SenderReachesSelf(s0);
    var s1 := Sender(session, 50, [b1], [], [OpenCall(f1, false, false)], [], 0, false, false);
    assert s1 == Take(s0, CallSend(b1, false));
    SenderReachesNext(s0, s0, CallSend(b1, false));
    var s2 := Sender(session, 50, [b1], [f1], [], [], 0, false, false);
    assert s2 == Take(s1, SendReturns(false));
    SenderReachesNext(s0, s1, SendReturns(false));
    var s3 := Sender(session, 50, [b1], [f1], [OpenCall(f1, true, true)], [f1], 0, false, false);
    assert s3 == Take(s2, CallFlush(true));
    SenderReachesNext(s0, s2, CallFlush(true));
    var s4 := s3.(messages := [b1, b2], buffer := [f1, f2]);
    assert s4 == Take(s3, CallSend(b2, false));
    SenderReachesNext(s0, s3, CallSend(b2, false));
    SenderReachesNext(s0, s4, CallFlush(true));
    t := Take(s4, CallFlush(true));
    assert t.taken[0].seqNo == t.taken[1].seqNo;
  }

  /** And if the link then refuses the next frame, the outer shift loses it: it is neither sent nor waiting nor counted. */
  lemma ThenAFrameIsLost(session: string, b1: Bytes, b2: Bytes) returns (t: Sender)
    ensures SenderReaches(Empty(session, 50), t)
    ensures t == Sender(session, 50, [b1, b2], [], [], [Frame(session, 1, b1), Frame(session, 1, b1)], 0, false, false)
  {
    hide SenderReaches, Empty;
    var f1, f2 := Frame(session, 1, b1), Frame(session, 2, b2);
    var outer := OpenCall(f1, true, true);
    var s0 := Empty(session, 50);
    var s1 := ASendInsideAFlush(session, b1, b2);
    assert [outer, outer][..1] == [outer] && [f1, f2][1..] == [f2];
    var s2 := s1.(buffer := [f2], open := [outer, OpenCall(f2, true, false)]);
    assert s2 == Take(s1, SendReturns(false));
    SenderReachesNext(s0, s1, SendReturns(false));
    assert s2.open[..1] == [outer];
    var s3 := s2.(open := [outer]);
    assert s3 == Take(s2, SendReturns(false));
    SenderReachesNext(s0, s2, SendReturns(false));
    assert s3.open[..0] == [] && s3.buffer[1..] == [];
    SenderReachesNext(s0, s3, SendReturns(false));
    t := Take(s3, SendReturns(false));
  }

  /** A message sent from inside the sendFrame call of another goes out at once; if the link refuses the other one, that
      waits and goes out later: nothing is lost, but the numbers are the wrong way round, and the other end sees a gap. */
  lemma ASendInsideASend(session: string, b1: Bytes, b2: Bytes) returns (t: Sender)
    ensures SenderReaches(Empty(session, 50), t)
    ensures t.taken == [Frame(session, 2, b2), Frame(session, 1, b1)] && t.messages == [b1, b2] && t.dropped == 0
    ensures !Ascending(t.taken) && AcceptAll(Receiver(session, 0, false, false, []), t.taken).degraded
  {
    hide SenderReaches;
    var f1, f2 := Frame(session, 1, b1), Frame(session, 2, b2);
    var outer := OpenCall(f1, false, false);
    var s0 := Empty(session, 50);
    SenderReachesSelf(s0);
    var s1 := Sender(session, 50, [b1], [], [outer], [], 0, false, false);
    assert s1 == Take(s0, CallSend(b1, false));
    SenderReachesNext(s0, s0, CallSend(b1, false));
    var s2 := Sender(session, 50, [b1, b2], [], [outer, OpenCall(f2, false, true)], [f2], 0, false, false);
    assert s2 == Take(s1, CallSend(b2, true));
    SenderReachesNext(s0, s1, CallSend(b2, true));
    assert s2.open[..1] == [outer];
    var s3 := s2.(open := [outer]);
    assert s3 == Take(s2, SendReturns(false));
    SenderReachesNext(s0, s2, SendReturns(false));
    assert s3.open[..0] == [];
    var s4 := s3.(open := [], buffer := [f1]);
    assert s4 == Take(s3, SendReturns(false));
    SenderReachesNext(s0, s3, SendReturns(false));
    SenderReachesNext(s0, s4, CallFlush(true));
    t := Take(s4, CallFlush(true));
    assert t.taken == [f2, f1] && t.taken[0].seqNo > t.taken[1].seqNo;
    FirstGapDegrades(Receiver(session, 0, false, false, []), f2, [f1]);
    assert t.taken == [f2] + [f1];
  }

  lemma FirstGapDegrades(r: Receiver, f: Frame, rest: seq<Frame>)
    requires !r.degraded && !r.disposed && f.session == r.session && f.seqNo > r.inboundSeq + 1
    ensures AcceptAll(r, [f] + rest).degraded
  {
    assert ([f] + rest)[1..] == rest;
    NothingAfterAGap(Accept(r, f), rest);
  }
}
