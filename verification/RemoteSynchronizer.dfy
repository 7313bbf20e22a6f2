/** One refresher of the built-in release, and the control file it shares with others. */
module RemoteSynchronizer {
  import opened Wrappers
  import opened RefreshLease

  datatype Outcome = Updated | Unchanged | Stale | Missing | Skipped | Disposed | Thrown

  /** What the refresh does once the lease is given back: return, or go on with an error. */
  datatype After = Return(outcome: Outcome) | Rethrow

  /** Where the refresh in flight is suspended; revision None: the remote has no release. */
  datatype Phase =
    | Resting
    | Resolving(force: bool)
    | Acquiring(force: bool, key: string)
    | Fetching(key: string, id: nat)
    | Rechecking(key: string, id: nat, fetched: Option<nat>)
    | Applying(key: string, id: nat, revision: nat)
    | Finishing(key: string, id: nat, ending: Ending, after: After)

  predicate Holds(p: Phase) { p.Fetching? || p.Rechecking? || p.Applying? || p.Finishing? }

  /** The control file; None: missing or unreadable. */
  class ControlFile {
    const timing: Timing
    var stored: Option<Control>
    // Every locked section so far, by whomever, and what came of it.
    ghost const start: int
    ghost var history: seq<Action>
    ghost var world: World

    ghost predicate Valid()
      reads this
    {
      stored.GetOr(EMPTY_CONTROL) == world.control && Run(timing, Begin(start), history, world)
    }

    constructor (timing: Timing, ghost clock: int)
      ensures Valid() && this.timing == timing && world == Begin(clock) && stored == None && history == []
    {
      this.timing, start := timing, clock;
      stored, history, world := None, [], Begin(clock);
    }

    /** All that use the file are for one endpoint. */
    ghost predicate OneEndpoint(key: string)
      reads this
    {
      key != "" && forall a :: a in history ==> About(a, key)
    }
  }

  class Synchronizer {
    const timing: Timing
    const file: ControlFile
    var inFlight: Phase
    var disposed: bool

    ghost predicate Valid()
      reads this, file
    {
      && file.Valid() && file.timing == timing
      && (inFlight.Acquiring? ==> inFlight.key != "")
      && (Holds(inFlight) ==> inFlight.id < |file.world.leases|
                              && file.world.leases[inFlight.id].finishedAt.None?
                              && file.world.leases[inFlight.id].key == inFlight.key)
    }

    constructor (file: ControlFile)
      requires file.Valid()
      ensures Valid() && this.file == file && inFlight == Resting && !disposed
    {
      this.timing, this.file := file.timing, file;
      inFlight, disposed := Resting, false;
    }

    /** refresh: None means that a refresh is running, whose promise the caller shares. */
    method Refresh(force: bool) returns (outcome: Option<Outcome>)
      requires Valid()
      modifies this`inFlight
      ensures Valid()
      ensures disposed ==> outcome == Some(Outcome.Disposed) && inFlight == old(inFlight)
      ensures !disposed ==>
        outcome == None && inFlight == if old(inFlight).Resting? then Resolving(force) else old(inFlight)
    {
      if disposed {
        return Some(Outcome.Disposed);
      }
      if inFlight.Resting? {
        inFlight := Resolving(force);
      }
      return None;
    }

    method Dispose()
      requires Valid()
      modifies this`disposed
      ensures Valid() && disposed
    {
      disposed := true;
    }

    /** The endpoint key is there (trimmed), or could not be resolved. */
    method OnEndpoint(key: Option<string>) returns (outcome: Option<Outcome>)
      requires Valid() && inFlight.Resolving?
      modifies this`inFlight
      ensures Valid()
      ensures inFlight == if key.Some? && key.value != "" && !disposed then Acquiring(old(inFlight).force, key.value) else Resting
      ensures outcome == if inFlight.Acquiring? then None else Some(if key.Some? && disposed then Outcome.Disposed else Thrown)
    {
      var force := inFlight.force;
      inFlight := Resting;
      if key.None? {
        return Some(Thrown);
      }
      if disposed {
        return Some(Outcome.Disposed);
      }
      if key.value == "" {
        return Some(Thrown);
      }
      inFlight := Acquiring(force, key.value);
      return None;
    }

    /** The locked section that takes the lease, at time now, with a lease id nobody used before. */
    method TakeLease(leaseId: nat, now: int) returns (outcome: Option<Outcome>)
      requires Valid() && inFlight.Acquiring? && leaseId == |file.world.leases| && file.world.clock <= now
      modifies this`inFlight, file
      ensures Valid()
      ensures file.world == Apply(timing, Apply(timing, old(file.world), Tick(now)), Try(old(inFlight).key, old(inFlight).force))
      ensures file.history == old(file.history) + [Tick(now), Try(old(inFlight).key, old(inFlight).force)]
      ensures outcome == None <==> |file.world.leases| == leaseId + 1
      ensures outcome.Some? ==> outcome == Some(Skipped) && inFlight == Resting && file.stored == old(file.stored)
      // A refresh that was disposed meanwhile gives the lease back at once, as cancelled.
      ensures outcome.None? ==>
        inFlight == if disposed then Finishing(old(inFlight).key, leaseId, Cancelled, Rethrow) else Fetching(old(inFlight).key, leaseId)
    {
      var key, force := inFlight.key, inFlight.force;
      var acquired := Acquire(timing, file.stored.GetOr(EMPTY_CONTROL), key, leaseId, force, now);
      LockedSection(timing, Begin(file.start), file.history, file.world, now, Try(key, force));
      file.world := Apply(timing, Apply(timing, file.world, Tick(now)), Try(key, force));
      file.history := file.history + [Tick(now), Try(key, force)];
      if !acquired.Acquired? {
        inFlight := Resting;
        return Some(Skipped);
      }
      file.stored := Some(acquired.control);
      inFlight := if disposed then Finishing(key, leaseId, Cancelled, Rethrow) else Fetching(key, leaseId);
      return None;
    }

    /** Every way out of the work leads to giving the lease back: as cancelled if disposed, else as failed. */
    method FailWork()
      requires Valid() && Holds(inFlight)
      modifies this`inFlight
      ensures Valid() && inFlight == Finishing(old(inFlight).key, old(inFlight).id, if disposed then Cancelled else Failed, Rethrow)
    {
      inFlight := Finishing(inFlight.key, inFlight.id, if disposed then Cancelled else Failed, Rethrow);
    }

    /** The release was fetched (None: there is none), or the fetch failed. */
    method OnFetched(fetched: Result<Option<nat>, ()>)
      requires Valid() && inFlight.Fetching?
      modifies this`inFlight
      ensures Valid()
      ensures var key, id := old(inFlight).key, old(inFlight).id;
        inFlight ==
          if fetched.Err? then Finishing(key, id, if disposed then Cancelled else Failed, Rethrow)
          else if disposed then Finishing(key, id, Cancelled, Return(Outcome.Disposed))
          else Rechecking(key, id, fetched.value)
    {
      if fetched.Err? {
        FailWork();
      } else if disposed {
        inFlight := Finishing(inFlight.key, inFlight.id, Cancelled, Return(Outcome.Disposed));
      } else {
        inFlight := Rechecking(inFlight.key, inFlight.id, fetched.value);
      }
    }

    /** The endpoint key was resolved again. */
    method OnEndpointAgain(current: Option<string>)
      requires Valid() && inFlight.Rechecking?
      modifies this`inFlight
      ensures Valid()
      ensures var key, id, revision := old(inFlight).key, old(inFlight).id, old(inFlight).fetched;
        inFlight ==
          if current.None? || disposed then Finishing(key, id, if disposed then Cancelled else Failed, Rethrow)
          else if current.value != key then Finishing(key, id, Succeeded, Return(Skipped))
          else if revision.None? then Finishing(key, id, Succeeded, Return(Missing))
          else Applying(key, id, revision.value)
    {
      if current.None? || disposed {
        FailWork();
        return;
      }
      if current.value != inFlight.key {
        inFlight := Finishing(inFlight.key, inFlight.id, Succeeded, Return(Skipped));
        return;
      }
      inFlight := if inFlight.fetched.None? then Finishing(inFlight.key, inFlight.id, Succeeded, Return(Missing))
                  else Applying(inFlight.key, inFlight.id, inFlight.fetched.value);
    }

    /** applyRemoteRelease returned, or threw. */
    method OnApplied(applied: Option<Outcome>)
      requires Valid() && inFlight.Applying?
      modifies this`inFlight
      ensures Valid()
      ensures inFlight == Finishing(old(inFlight).key, old(inFlight).id,
        if applied.Some? then Succeeded else if disposed then Cancelled else Failed,
        if applied.Some? then Return(applied.value) else Rethrow)
    {
      if applied.None? {
        FailWork();
        return;
      }
      inFlight := Finishing(inFlight.key, inFlight.id, Succeeded, Return(applied.value));
    }

    /** The locked section that gives the lease back, at time now, and the end of the refresh. */
    method FinishLease(now: int) returns (outcome: Outcome)
      requires Valid() && inFlight.Finishing? && file.world.clock <= now
      modifies this`inFlight, file
      ensures Valid() && inFlight == Resting
      ensures file.world == Apply(timing, Apply(timing, old(file.world), Tick(now)), End(old(inFlight).id, old(inFlight).ending))
      ensures file.history == old(file.history) + [Tick(now), End(old(inFlight).id, old(inFlight).ending)]
      // Somebody else's lease is left alone.
      ensures old(file.world.control).leaseId != Some(old(inFlight).id) ==> file.stored == old(file.stored)
      ensures outcome == if old(inFlight).after.Return? then old(inFlight).after.outcome else if disposed then Outcome.Disposed else Thrown
    {
      var p := inFlight;
      var current := file.stored.GetOr(EMPTY_CONTROL);
      LockedSection(timing, Begin(file.start), file.history, file.world, now, End(p.id, p.ending));
      file.world := Apply(timing, Apply(timing, file.world, Tick(now)), End(p.id, p.ending));
      file.history := file.history + [Tick(now), End(p.id, p.ending)];
      if current.endpointKey == p.key && current.leaseId == Some(p.id) {
        file.stored := Some(Finish(timing, current, p.key, p.id, p.ending, now));
      }
      inFlight := Resting;
      outcome := if p.after.Return? then p.after.outcome else if disposed then Outcome.Disposed else Thrown;
    }
  }

  /** One more locked section at time now. */
  lemma LockedSection(timing: Timing, w: World, history: seq<Action>, x: World, now: int, action: Action)
    requires Run(timing, w, history, x) && x.clock <= now && Enabled(Apply(timing, x, Tick(now)), action)
    ensures Run(timing, w, history + [Tick(now), action], Apply(timing, Apply(timing, x, Tick(now)), action))
  {
    hide Acquire, Finish;
    var y := Apply(timing, x, Tick(now));
    var more := [Tick(now), action];
    assert more[1..] == [action] && [action][1..] == [];
    assert Run(timing, Apply(timing, y, action), [], Apply(timing, y, action));
    assert Run(timing, y, [action], Apply(timing, y, action));
    assert Run(timing, x, more, Apply(timing, y, action));
    RunThenRun(timing, w, history, x, more, Apply(timing, y, action));
  }

  // ---------- Many synchronizers over one file ----------

  /** A locked section of one synchronizer leaves the others as good as they were: nobody else's lease is ended. */
  twostate lemma OthersStayValid(y: Synchronizer, now: int, action: Action)
    requires old(y.Valid()) && unchanged(y) && y.file.Valid()
    requires old(y.file.world.clock) <= now && Enabled(Apply(y.timing, old(y.file.world), Tick(now)), action)
    requires y.file.world == Apply(y.timing, Apply(y.timing, old(y.file.world), Tick(now)), action)
    requires action.Try? || (action.End? && !(Holds(y.inFlight) && y.inFlight.id == action.id))
    ensures y.Valid()
  {
  }

  /** A lease that is taken has a number nobody else holds. */
  lemma NewLeaseIsNew(y: Synchronizer, leaseId: nat)
    requires y.Valid() && Holds(y.inFlight) && leaseId == |y.file.world.leases|
    ensures y.inFlight.id < leaseId
  {
  }

  /** Two holders at work at the same time, over a file that is used for one endpoint: the lease of the one who took
      it earlier had run out before the other took his. */
  lemma HoldersDoNotOverlap(x: Synchronizer, y: Synchronizer, key: string)
    requires x.Valid() && y.Valid() && x.file == y.file && x.file.OneEndpoint(key)
    requires Holds(x.inFlight) && Holds(y.inFlight) && x.inFlight.id < y.inFlight.id
    ensures x.file.world.leases[x.inFlight.id].until <= x.file.world.leases[y.inFlight.id].from <= x.file.world.clock
  {
    hide Apply, Enabled, Run;
    var file := x.file;
    assert Reached(file.timing, key, file.start, file.world);
    LeasesDoNotOverlap(file.timing, key, file.start, file.world, x.inFlight.id, y.inFlight.id);
    ReachedInv(file.timing, key, file.start, file.world);
  }
}
