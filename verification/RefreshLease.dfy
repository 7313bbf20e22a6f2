/** The shared control file by which many processes agree who refreshes the built-in release. Each access to
    it runs under a file lock and is one step; the work of a lease holder runs outside the lock. */
module RefreshLease {
  import opened Wrappers

  datatype Control = Control(
    endpointKey: string, leaseId: Option<nat>, leaseUntil: int, nextEligibleAt: int, failureCount: nat)

  /** What a missing or unreadable control file counts as. */
  const EMPTY_CONTROL := Control("", None, 0, 0, 0)

  datatype Timing = Timing(leaseDuration: nat, successInterval: nat, failureBase: nat, failureMax: nat)

  datatype Ending = Succeeded | Failed | Cancelled

  datatype Acquisition = Acquired(control: Control) | LeaseHeld | NotDue

  function Pow2(n: nat): nat { if n == 0 then 1 else 2 * Pow2(n - 1) }

  function Min(a: int, b: int): int { if a <= b then a else b }

  function Max(a: int, b: int): int { if a >= b then a else b }

  /** The locked section that takes the lease. */
  function Acquire(timing: Timing, current: Control, key: string, leaseId: nat, force: bool, now: int): Acquisition {
    var same := current.endpointKey == key;
    if same && current.leaseUntil > now then LeaseHeld
    else if !force && same && current.nextEligibleAt > now then NotDue
    else Acquired(Control(key, Some(leaseId), now + timing.leaseDuration,
                          if same then current.nextEligibleAt else 0, if same then current.failureCount else 0))
  }

  function Delay(timing: Timing, ending: Ending, failureCount: nat): int {
    match ending
    case Cancelled => 0
    case Succeeded => timing.successInterval
    case Failed => Min(timing.failureBase * Pow2(Max(0, failureCount - 1)), timing.failureMax)
  }

  function CountAfter(ending: Ending, failureCount: nat): nat {
    match ending
    case Cancelled => failureCount
    case Succeeded => 0
    case Failed => failureCount + 1
  }

  /** The locked section that gives the lease back. */
  function Finish(timing: Timing, current: Control, key: string, leaseId: nat, ending: Ending, now: int): Control {
    if current.endpointKey != key || current.leaseId != Some(leaseId) then current
    else
      var count := CountAfter(ending, current.failureCount);
      Control(key, None, 0, now + Delay(timing, ending, count), count)
  }

  // ---------- Many refreshers over one file ----------

  /** A lease that was taken: number id, by which refresher does not matter. */
  datatype Lease = Lease(key: string, from: int, until: int, finishedAt: Option<int>)

  /** A finish that took effect: when, how, and the failure count it left. */
  datatype Record = Record(at: int, ending: Ending, count: nat)

  datatype World = World(control: Control, clock: int, leases: seq<Lease>, records: seq<Record>)

  datatype Action =
    | Tick(now: int)
    | Try(key: string, force: bool)
    | End(id: nat, ending: Ending)

  predicate Enabled(w: World, action: Action) {
    match action
    case Tick(now) => w.clock <= now
    case Try(key, _) => key != ""
    case End(id, _) => id < |w.leases| && w.leases[id].finishedAt.None?
  }

  function Apply(timing: Timing, w: World, action: Action): World
    requires Enabled(w, action)
  {
    match action
    case Tick(now) => w.(clock := now)
    case Try(key, force) =>
      var a := Acquire(timing, w.control, key, |w.leases|, force, w.clock);
      if a.Acquired? then w.(control := a.control, leases := w.leases + [Lease(key, w.clock, w.clock + timing.leaseDuration, None)])
      else w
    case End(id, ending) =>
      var lease := w.leases[id];
      var next := Finish(timing, w.control, lease.key, id, ending, w.clock);
      var effective := w.control.endpointKey == lease.key && w.control.leaseId == Some(id);
      w.(control := next,
         leases := w.leases[id := lease.(finishedAt := Some(w.clock))],
         records := if effective then w.records + [Record(w.clock, ending, next.failureCount)] else w.records)
  }

  function Begin(clock: int): World { World(EMPTY_CONTROL, clock, [], []) }

  /** When a lease stopped excluding others. */
  function LeaseEnd(l: Lease): int {
    if l.finishedAt.Some? then Min(l.until, l.finishedAt.value) else l.until
  }

  /** Failures since the last success; cancelled refreshes do not matter. */
  function FailuresSince(records: seq<Record>): nat {
    if records == [] then 0
    else CountAfter(records[|records| - 1].ending, FailuresSince(records[..|records| - 1]))
  }

  // ---------- What every step keeps, with one endpoint per file ----------

  ghost predicate OneEndpoint(w: World, key: string) {
    && key != "" && (forall i :: 0 <= i < |w.leases| ==> w.leases[i].key == key)
    && (w.leases != [] ==> w.control.endpointKey == key)
    && (w.leases == [] ==> w.records == [] && w.control == EMPTY_CONTROL)
  }

  /** The file tells whose lease is the last one, and until when; a finished one leaves no lease. */
  ghost predicate FileIsRight(w: World) {
    match w.control.leaseId
    case Some(id) =>
      && w.leases != [] && id == |w.leases| - 1
      && w.leases[id].finishedAt.None? && w.control.leaseUntil == w.leases[id].until
    case None => w.control.leaseUntil <= 0 && (w.leases != [] ==> w.leases[|w.leases| - 1].finishedAt.Some?)
  }

  /** No lease begins while another one lasts. */
  ghost predicate Apart(w: World) {
    forall i, j :: 0 <= i < j < |w.leases| ==> LeaseEnd(w.leases[i]) <= w.leases[j].from
  }

  /** Leases begin and are finished by now. */
  ghost predicate InThePast(w: World) {
    && (forall i :: 0 <= i < |w.leases| ==> w.leases[i].from <= w.clock)
    && (forall i :: 0 <= i < |w.leases| && w.leases[i].finishedAt.Some? ==> w.leases[i].finishedAt.value <= w.clock)
  }

  ghost predicate Counted(timing: Timing, w: World) {
    && w.control.failureCount == FailuresSince(w.records)
    && (w.records == [] ==> w.control.nextEligibleAt == 0)
    && (w.records != [] ==>
          var r := w.records[|w.records| - 1];
          w.control.nextEligibleAt == r.at + Delay(timing, r.ending, r.count) && r.count == FailuresSince(w.records))
  }

  /** Every lease was given for the whole lease duration. */
  ghost predicate GivenInFull(timing: Timing, w: World) {
    forall i :: 0 <= i < |w.leases| ==> w.leases[i].until == w.leases[i].from + timing.leaseDuration
  }

  ghost predicate Inv(timing: Timing, w: World, key: string) {
    OneEndpoint(w, key) && GivenInFull(timing, w) && FileIsRight(w) && InThePast(w) && Apart(w) && Counted(timing, w)
  }

  lemma TryKeeps(timing: Timing, w: World, key: string, force: bool)
    requires Inv(timing, w, key)
    ensures Inv(timing, Apply(timing, w, Try(key, force)), key)
  {
    var t := Apply(timing, w, Try(key, force));
    forall i, j | 0 <= i < j < |t.leases|
      ensures LeaseEnd(t.leases[i]) <= t.leases[j].from
    {
      if j < |w.leases| {
        assert LeaseEnd(w.leases[i]) <= w.leases[j].from;
      } else if i + 1 < |w.leases| {
        assert LeaseEnd(w.leases[i]) <= w.leases[|w.leases| - 1].from;
      }
    }
  }

  lemma EndKeeps(timing: Timing, w: World, key: string, id: nat, ending: Ending)
    requires Inv(timing, w, key) && Enabled(w, End(id, ending))
    ensures Inv(timing, Apply(timing, w, End(id, ending)), key)
  {
    var t := Apply(timing, w, End(id, ending));
    forall i, j | 0 <= i < j < |t.leases|
      ensures LeaseEnd(t.leases[i]) <= t.leases[j].from
    {
      assert LeaseEnd(w.leases[i]) <= w.leases[j].from;
    }
    if t.records != w.records {
      assert t.records[..|t.records| - 1] == w.records;
    }
  }

  predicate About(action: Action, key: string) { action.Try? ==> action.key == key }

  lemma StepKeeps(timing: Timing, w: World, key: string, action: Action)
    requires Inv(timing, w, key) && Enabled(w, action) && About(action, key)
    ensures Inv(timing, Apply(timing, w, action), key)
  {
    match action
    case Tick(_) =>
    case Try(_, force) => TryKeeps(timing, w, key, force);
    case End(id, ending) => EndKeeps(timing, w, key, id, ending);
  }

  ghost predicate Run(timing: Timing, w: World, actions: seq<Action>, t: World)
    decreases |actions|
  {
    if actions == [] then w == t else Enabled(w, actions[0]) && Run(timing, Apply(timing, w, actions[0]), actions[1..], t)
  }

  lemma {:induction false} RunKeeps(timing: Timing, w: World, key: string, actions: seq<Action>, t: World)
    requires Inv(timing, w, key) && Run(timing, w, actions, t) && forall a :: a in actions ==> About(a, key)
    ensures Inv(timing, t, key)
    decreases |actions|
  {
    if actions != [] {
      StepKeeps(timing, w, key, actions[0]);
      RunKeeps(timing, Apply(timing, w, actions[0]), key, actions[1..], t);
    }
  }

  ghost predicate Reached(timing: Timing, key: string, clock: int, w: World) {
    exists actions :: Run(timing, Begin(clock), actions, w) && forall a :: a in actions ==> About(a, key)
  }

  lemma ReachedInv(timing: Timing, key: string, clock: int, w: World)
    requires key != "" && Reached(timing, key, clock, w)
    ensures Inv(timing, w, key)
  {
    var actions :| Run(timing, Begin(clock), actions, w) && forall a :: a in actions ==> About(a, key);
    RunKeeps(timing, Begin(clock), key, actions, w);
  }

  /** Mutual exclusion: a lease lasts for the lease duration unless it is finished before, and the next one begins
      only when it is over. */
  lemma LeasesDoNotOverlap(timing: Timing, key: string, clock: int, w: World, i: nat, j: nat)
    requires key != "" && Reached(timing, key, clock, w) && i < j < |w.leases|
    ensures w.leases[i].finishedAt.None? ==> w.leases[i].from + timing.leaseDuration <= w.leases[j].from
    ensures w.leases[i].finishedAt.Some? ==>
      Min(w.leases[i].from + timing.leaseDuration, w.leases[i].finishedAt.value) <= w.leases[j].from
  {
    ReachedInv(timing, key, clock, w);
    assert LeaseEnd(w.leases[i]) <= w.leases[j].from;
  }

  /** A holder whose lease has been taken over, or was finished, changes nothing by finishing. */
  lemma OnlyTheLastHolderFinishes(timing: Timing, key: string, clock: int, w: World, id: nat, ending: Ending)
    requires key != "" && Reached(timing, key, clock, w) && id < |w.leases|
    ensures Finish(timing, w.control, key, id, ending, w.clock) == w.control
      || (id == |w.leases| - 1 && w.leases[id].finishedAt.None? && w.control.leaseId == Some(id))
  {
    ReachedInv(timing, key, clock, w);
  }

  predicate AllOver(w: World) {
    forall i :: 0 <= i < |w.leases| ==> LeaseEnd(w.leases[i]) <= w.clock
  }

  /** No refresh succeeded from the given record on, and the one before it, if any, did. */
  ghost predicate NoSuccessSince(records: seq<Record>, from: nat) {
    && from <= |records| && (from > 0 ==> records[from - 1].ending == Succeeded)
    && forall k :: from <= k < |records| ==> records[k].ending != Succeeded
  }

  ghost function Failures(records: seq<Record>, from: nat): set<nat> {
    set k: nat | from <= k < |records| && records[k].ending == Failed
  }

  /** n refreshes failed since the last one that succeeded, or since the beginning. */
  ghost predicate FailedInARow(records: seq<Record>, n: nat) {
    exists from: nat :: NoSuccessSince(records, from) && n == |Failures(records, from)|
  }

  lemma FailuresGrow(before: seq<Record>, last: Record, from: nat)
    requires from <= |before|
    ensures |Failures(before + [last], from)| == |Failures(before, from)| + if last.ending == Failed then 1 else 0
  {
    var was, all := Failures(before, from), Failures(before + [last], from);
    if last.ending == Failed {
      assert all == was + {|before|};
    } else {
      assert all == was;
    }
  }

  lemma {:induction false} FailuresAreCounted(records: seq<Record>)
    ensures FailedInARow(records, FailuresSince(records))
    decreases |records|
  {
    if records == [] {
      assert Failures(records, 0) == {} && NoSuccessSince(records, 0);
    } else {
      var before, last := records[..|records| - 1], records[|records| - 1];
      assert records == before + [last];
      if last.ending == Succeeded {
        assert Failures(records, |records|) == {} && NoSuccessSince(records, |records|);
      } else {
        FailuresAreCounted(before);
        var from: nat :| NoSuccessSince(before, from) && FailuresSince(before) == |Failures(before, from)|;
        FailuresGrow(before, last, from);
        assert NoSuccessSince(records, from);
      }
    }
  }

  /** The delay after the n-th failure in a row: the first one's is the base, each further one's is twice the one
      before, and none is more than the maximum. */
  function Doubling(base: nat, most: nat, n: nat): nat
    requires n >= 1
  {
    var delay := if n == 1 then base else 2 * Doubling(base, most, n - 1);
    if delay <= most then delay else most
  }

  lemma {:induction false} DelayDoubles(timing: Timing, n: nat)
    requires n >= 1
    ensures Delay(timing, Failed, n) == Doubling(timing.failureBase, timing.failureMax, n)
  {
    if n == 1 {
      assert Pow2(0) == 1;
    } else {
      DelayDoubles(timing, n - 1);
      var p := Pow2(n - 2);
      assert Pow2(n - 1) == 2 * p;
      assert timing.failureBase * (2 * p) == 2 * (timing.failureBase * p);
    }
  }

  /** When a refresh that is not forced may begin, by how the last one ended and how many failed in a row. */
  function DueAt(timing: Timing, w: World): int
    requires w.records != [] && w.records[|w.records| - 1].ending == Failed ==> w.control.failureCount >= 1
  {
    if w.records == [] then 0
    else
      var r := w.records[|w.records| - 1];
      match r.ending
      case Succeeded => r.at + timing.successInterval
      case Failed => r.at + Doubling(timing.failureBase, timing.failureMax, w.control.failureCount)
      case Cancelled => r.at
  }

  lemma DueIsEligible(timing: Timing, w: World)
    requires Counted(timing, w)
    ensures w.records != [] && w.records[|w.records| - 1].ending == Failed ==> w.control.failureCount >= 1
    ensures w.control.nextEligibleAt == DueAt(timing, w)
  {
    if w.records != [] && w.records[|w.records| - 1].ending == Failed {
      DelayDoubles(timing, w.control.failureCount);
    }
  }

  /** The failure count is the number of failures since the last success. Once a lease was taken, a refresh is refused
      while one lasts; then, unless it is forced, until it is due: the interval after a success, the doubling delay
      after a failure, nothing after a cancellation; then the lease is there to be taken. */
  lemma BackoffIsKept(timing: Timing, key: string, clock: int, w: World, force: bool)
    requires key != "" && Reached(timing, key, clock, w)
    ensures FailedInARow(w.records, w.control.failureCount)
    ensures w.records != [] && w.records[|w.records| - 1].ending == Failed ==> w.control.failureCount >= 1
    ensures !force && w.leases != [] && Acquire(timing, w.control, key, |w.leases|, force, w.clock).Acquired? ==>
      w.clock >= DueAt(timing, w)
    ensures w.clock >= 0 ==>
      var a := Acquire(timing, w.control, key, |w.leases|, force, w.clock);
      if w.leases == [] then a.Acquired?
      else if !AllOver(w) then a == LeaseHeld
      else if !force && w.clock < DueAt(timing, w) then a == NotDue
      else a.Acquired?
  {
    ReachedInv(timing, key, clock, w);
    FailuresAreCounted(w.records);
    DueIsEligible(timing, w);
    if w.control.leaseId.Some? {
      assert LeaseEnd(w.leases[|w.leases| - 1]) == w.control.leaseUntil;
    }
  }

  /** A refresher for another endpoint starts afresh: no delay and no failure of the one before counts against it. */
  lemma AnotherEndpointStartsAfresh(timing: Timing, w: World, key: string, force: bool)
    requires key != "" && key != w.control.endpointKey
    ensures var t := Apply(timing, w, Try(key, force));
      && |t.leases| == |w.leases| + 1 && t.control.endpointKey == key
      && t.control.failureCount == 0 && t.control.nextEligibleAt == 0
  {
  }

  /** A cancelled refresh does not count as a failure, but it does lift the delay of the failure before it. */
  lemma CancellationLiftsTheDelay(timing: Timing, key: string, clock: int, w: World, id: nat)
    requires key != "" && Reached(timing, key, clock, w) && id < |w.leases| && w.leases[id].finishedAt.None?
      && w.control.leaseId == Some(id)
    requires w.clock >= 0
    ensures var t := Apply(timing, w, End(id, Cancelled));
      t.control.failureCount == w.control.failureCount && Acquire(timing, t.control, key, |t.leases|, false, t.clock).Acquired?
  {
    ReachedInv(timing, key, clock, w);
  }

  /** After a failure nobody gets the lease for a while unless it is forced; once a forced refresh was cancelled
      within that time, the next unforced one gets it at once. */
  lemma AForcedRefreshCancelled(timing: Timing, key: string) returns (failed: World, w: World)
    requires key != "" && timing.failureBase > 0 && timing.failureMax > 0
    ensures Reached(timing, key, 0, failed) && Reached(timing, key, 0, w) && failed.clock == w.clock
    ensures Acquire(timing, failed.control, key, |failed.leases|, false, failed.clock) == NotDue
    ensures w.control.failureCount == failed.control.failureCount == 1
    ensures Acquire(timing, w.control, key, |w.leases|, false, w.clock).Acquired?
  {
    var first := [Try(key, false), End(0, Failed)];
    var second := [Try(key, true), End(1, Cancelled)];
    var a := Apply(timing, Begin(0), first[0]);
    failed := Apply(timing, a, first[1]);
    var b := Apply(timing, failed, second[0]);
    w := Apply(timing, b, second[1]);
    assert Pow2(0) == 1;
    assert Run(timing, a, first[1..], failed) && first[1..][1..] == [];
    assert Run(timing, Begin(0), first, failed);
    assert Run(timing, b, second[1..], w) && second[1..][1..] == [];
    assert Run(timing, failed, second, w);
    RunThenRun(timing, Begin(0), first, failed, second, w);
  }

  lemma {:induction false} RunThenRun(timing: Timing, w: World, first: seq<Action>, x: World, second: seq<Action>,
          y: World)
    requires Run(timing, w, first, x) && Run(timing, x, second, y)
    ensures Run(timing, w, first + second, y)
    decreases |first|
  {
    hide Apply, Enabled;
    if first == [] {
      assert first + second == second;
    } else {
      RunThenRun(timing, Apply(timing, w, first[0]), first[1..], x, second, y);
      assert (first + second)[1..] == first[1..] + second;
    }
  }

  // ---------- Any endpoints over one file ----------

  /** The file tells whose lease is the last one, whatever endpoints it is used for. */
  ghost predicate FileTracks(w: World) {
    && FileIsRight(w) && InThePast(w)
    && (w.leases != [] ==> w.control.endpointKey == w.leases[|w.leases| - 1].key)
  }

  lemma AnyStepTracks(timing: Timing, w: World, action: Action)
    requires FileTracks(w) && Enabled(w, action)
    ensures FileTracks(Apply(timing, w, action))
  {
  }

  /** What a refresher can read in the file under the lock: the lease is held for another endpoint than its own. */
  predicate TakesOver(w: World, action: Action) {
    action.Try? && w.control.leaseId.Some? && w.control.leaseUntil > w.clock && w.control.endpointKey != action.key
  }

  /** Exactly the step that takes a held lease over makes leases overlap. */
  lemma StaysApartWhen(timing: Timing, w: World, action: Action)
    requires FileTracks(w) && Enabled(w, action) && Apart(w)
    ensures Apart(Apply(timing, w, action)) <==> !TakesOver(w, action)
  {
    var t := Apply(timing, w, action);
    if TakesOver(w, action) {
      var last := |w.leases| - 1;
      assert LeaseEnd(t.leases[last]) > t.leases[last + 1].from;
    } else {
      forall i, j | 0 <= i < j < |t.leases|
        ensures LeaseEnd(t.leases[i]) <= t.leases[j].from
      {
        if j < |w.leases| {
          assert LeaseEnd(w.leases[i]) <= w.leases[j].from;
        } else if i + 1 < |w.leases| {
          assert LeaseEnd(w.leases[i]) <= w.leases[|w.leases| - 1].from;
        }
      }
    }
  }

  /** In this state and in every later one of the run no two leases overlap. */
  ghost predicate AlwaysApart(timing: Timing, w: World, actions: seq<Action>, t: World)
    requires Run(timing, w, actions, t)
    decreases |actions|
  {
    Apart(w) && (actions == [] || AlwaysApart(timing, Apply(timing, w, actions[0]), actions[1..], t))
  }

  ghost predicate NobodyTakesOver(timing: Timing, w: World, actions: seq<Action>, t: World)
    requires Run(timing, w, actions, t)
    decreases |actions|
  {
    actions == [] ||
    (!TakesOver(w, actions[0]) && NobodyTakesOver(timing, Apply(timing, w, actions[0]), actions[1..], t))
  }

  lemma {:induction false} ApartWhen(timing: Timing, w: World, actions: seq<Action>, t: World)
    requires Run(timing, w, actions, t) && FileTracks(w) && Apart(w)
    ensures AlwaysApart(timing, w, actions, t) <==> NobodyTakesOver(timing, w, actions, t)
    decreases |actions|
  {
    hide Apply, Enabled, Apart, FileTracks, TakesOver;
    if actions != [] {
      var next := Apply(timing, w, actions[0]);
      StaysApartWhen(timing, w, actions[0]);
      AnyStepTracks(timing, w, actions[0]);
      if !TakesOver(w, actions[0]) {
        ApartWhen(timing, next, actions[1..], t);
      }
    }
  }

  /** Mutual exclusion for any endpoints: it holds throughout a run if and only if nobody in it takes a lease while
      the file says that it is held for another endpoint. */
  lemma ExclusionHoldsWhen(timing: Timing, clock: int, actions: seq<Action>, t: World)
    requires Run(timing, Begin(clock), actions, t)
    ensures AlwaysApart(timing, Begin(clock), actions, t) <==> NobodyTakesOver(timing, Begin(clock), actions, t)
  {
    ApartWhen(timing, Begin(clock), actions, t);
  }

  /** Exclusion needs the one endpoint: a refresher for another endpoint takes the file over while the lease
      is held, and then one for the first endpoint takes it back. */
  lemma TwoEndpointsOverlap(timing: Timing, a: string, b: string)
    requires a != "" && b != "" && a != b && timing.leaseDuration > 0
    ensures var w := Apply(timing, Apply(timing, Apply(timing, Begin(0), Try(a, false)), Try(b, false)), Try(a, false));
      |w.leases| == 3 && w.leases[0].key == w.leases[2].key && LeaseEnd(w.leases[0]) > w.leases[2].from
  {
  }
}
