/** The age limit on unacknowledged data and unsent acknowledgements. */
module RelayDeadline {
  import opened Wrappers
  import opened RelayTypes

  datatype Pending = Pending(queuedAt: int, messageSeq: nat)

  datatype Selected = Selected(deadline: int, reason: Reason, messageSeq: nat)

  class Deadline {
    const graceMs: nat
    // When the armed timer will fire, if one is armed.
    var timer: Option<int>
    var disposed: bool

    constructor (graceMs: nat)
      ensures this.graceMs == graceMs && timer == None && !disposed
    {
      this.graceMs := graceMs;
      timer := None;
      disposed := false;
    }

    function Select(data: Option<Pending>, ack: Option<Pending>): (s: Option<Selected>)
      ensures s.None? <==> data.None? && ack.None?
      // The one with the earlier deadline is taken, the acknowledgement if both are equally old.
      ensures s.Some? ==>
        (s.value.reason == AckGraceExceeded <==> ack.Some? && (data.Some? ==> ack.value.queuedAt <= data.value.queuedAt))
      ensures s.Some? && data.Some? ==> s.value.deadline <= data.value.queuedAt + graceMs + 1
      ensures s.Some? && ack.Some? ==> s.value.deadline <= ack.value.queuedAt + graceMs + 1
      ensures s.Some? ==>
        || (ack.Some? && s.value == Selected(ack.value.queuedAt + graceMs + 1, AckGraceExceeded, ack.value.messageSeq))
        || (data.Some? && s.value == Selected(data.value.queuedAt + graceMs + 1, ReplayGraceExceeded, data.value.messageSeq))
    {
      if data.None? && ack.None? then None
      else if ack.Some? && (data.None? || ack.value.queuedAt <= data.value.queuedAt) then
        Some(Selected(ack.value.queuedAt + graceMs + 1, AckGraceExceeded, ack.value.messageSeq))
      else
        Some(Selected(data.value.queuedAt + graceMs + 1, ReplayGraceExceeded, data.value.messageSeq))
    }

    /** The fault of check, if something is overdue; the caller reports it. */
    method Check(data: Option<Pending>, ack: Option<Pending>, now: int) returns (fault: Option<Reason>)
      ensures fault.Some? <==> !disposed && Select(data, ack).Some? && now >= Select(data, ack).value.deadline
      ensures fault.Some? ==> fault.value == Select(data, ack).value.reason
      // Nothing pending is older than the grace period when no fault is reported.
      ensures fault.None? && !disposed && data.Some? ==> now - data.value.queuedAt <= graceMs
      ensures fault.None? && !disposed && ack.Some? ==> now - ack.value.queuedAt <= graceMs
    {
      if disposed {
        return None;
      }
      var selected := Select(data, ack);
      if selected.None? || now < selected.value.deadline {
        return None;
      }
      return Some(selected.value.reason);
    }

    method Refresh(data: Option<Pending>, ack: Option<Pending>)
      modifies this`timer
      ensures disposed ==> timer == old(timer)
      ensures !disposed ==> timer == match Select(data, ack) case None => None case Some(s) => Some(s.deadline)
    {
      if disposed {
        return;
      }
      timer := None;
      var selected := Select(data, ack);
      if selected.None? {
        return;
      }
      timer := Some(selected.value.deadline);
    }

    method Dispose()
      modifies this
      ensures disposed && timer == None
    {
      disposed := true;
      timer := None;
    }
  }
}
