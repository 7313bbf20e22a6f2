/** The account provider service: its fields, and one method for each stretch of code that runs without
    a break. Each method is the step of AccountRefresh of the same meaning. */
module AccountProviderService {
  import opened Wrappers
  import opened RefreshWaiters
  import opened AccountRefresh

  /** What read() gives its caller: a value, the promise of the loop in flight, or that of a new request. */
  datatype Handle = Current(overlay: Overlay) | InFlight | Promised(generation: nat)

  class AccountProviderService {
    var pendingReasons: set<string>
    var snapshot: Option<Overlay>
    var requestedGeneration: nat
    var refreshWaiters: seq<nat>
    var started: bool
    var disposed: bool
    // The loop in flight: where it is suspended, and its local copy of the snapshot.
    var refreshInFlight: Loop
    var latest: Option<Overlay>
    ghost var rounds: nat
    ghost var asked: seq<nat>
    ghost var settled: seq<Settlement<Overlay>>
    ghost var ended: seq<LoopEnd>

    ghost function State(): Account
      reads this
    {
      Account(pendingReasons, snapshot, latest, Book(requestedGeneration, refreshWaiters, rounds, asked, settled),
              refreshInFlight, started, disposed, ended)
    }

    ghost predicate Valid()
      reads this
    {
      Inv(State())
    }

    constructor ()
      ensures Valid() && State() == INITIAL
    {
      pendingReasons, snapshot, requestedGeneration, refreshWaiters := {}, None, 0, [];
      started, disposed, refreshInFlight, latest := false, false, NoLoop, None;
      rounds, asked, settled, ended := 0, [], [], [];
    }

    // ---------- Calls from outside ----------

    method Read() returns (handle: Option<Handle>)
      requires Valid()
      modifies this
      ensures Valid() && (handle.None? <==> old(disposed))
      // Reading is not a new fact about the account: it never causes a round beside a running one.
      ensures handle.Some? && handle.value.Promised? ==>
        State() == Apply(old(State()), Request("start")) && handle.value.generation == requestedGeneration
      ensures handle.None? || !handle.value.Promised? ==> State() == old(State())
      ensures handle.Some? && handle.value.Current? ==> snapshot == Some(handle.value.overlay)
      ensures handle.Some? && handle.value.InFlight? ==> snapshot.None? && !refreshInFlight.NoLoop?
      ensures handle.Some? && handle.value.Promised? ==> old(snapshot).None? && old(refreshInFlight).NoLoop?
    {
      if disposed {
        return None;
      }
      if snapshot.Some? {
        return Some(Current(snapshot.value));
      }
      if !refreshInFlight.NoLoop? {
        return Some(InFlight);
      }
      var generation := RequestRefresh("start");
      return Some(Promised(generation));
    }

    method Refresh(reason: string) returns (promise: Option<nat>)
      requires Valid()
      modifies this
      ensures Valid() && (promise.None? <==> old(disposed))
      ensures promise.None? ==> State() == old(State())
      ensures promise.Some? ==>
        State() == Apply(old(State()), Request(reason)) && promise.value == requestedGeneration && promise.value in refreshWaiters
    {
      if disposed {
        return None;
      }
      var generation := RequestRefresh(reason);
      return Some(generation);
    }

    /** The listener on the config source; it is installed with the first read or refresh. */
    method OnConfigChanged(reason: string)
      requires Valid() && !disposed && started
      modifies this
      ensures Valid() && State() == Apply(old(State()), Request("config:" + if reason == "" then "changed" else reason))
    {
      var _ := RequestRefresh("config:" + if reason == "" then "changed" else reason);
    }

    method Dispose()
      requires Valid()
      modifies this
      ensures Valid() && State() == Apply(old(State()), AccountRefresh.Step.Dispose)
    {
      StepKeeps(State(), AccountRefresh.Step.Dispose);
      if disposed {
        return;
      }
      disposed := true;
      SettleRefreshWaiters(requestedGeneration, GivenUp);
    }

    // ---------- The refresh loop ----------

    method RequestRefresh(reason: string) returns (generation: nat)
      requires Valid() && !disposed
      modifies this
      ensures Valid() && State() == Apply(old(State()), Request(reason))
      ensures generation == requestedGeneration == old(requestedGeneration) + 1 && generation in refreshWaiters
    {
      hide Inv;
      StepKeeps(State(), Request(reason));
      started := true;
      generation := requestedGeneration + 1;
      requestedGeneration := generation;
      pendingReasons := pendingReasons + {reason};
      refreshWaiters, asked := refreshWaiters + [generation], asked + [rounds];
      assert refreshWaiters[|refreshWaiters| - 1] == generation;
      if refreshInFlight.NoLoop? {
        StartRefresh();
      }
    }

    method StartRefresh()
      modifies this`latest, this`pendingReasons, this`refreshInFlight, this`rounds, this`ended
      ensures State() == AccountRefresh.StartRefresh(old(State()))
    {
      latest := snapshot;
      LoopHead();
    }

    /** The loop condition: the next round begins, or the loop's promise is settled. */
    method LoopHead()
      modifies this`pendingReasons, this`refreshInFlight, this`rounds, this`ended
      ensures State() == AccountRefresh.LoopHead(old(State()))
    {
      if pendingReasons != {} {
        refreshInFlight := AwaitConfig(Round(requestedGeneration, pendingReasons));
        pendingReasons := {};
        rounds := rounds + 1;
      } else {
        refreshInFlight := Ended;
        ended := ended + [if latest.Some? then Returned(latest.value) else Failed];
      }
    }

    method FinishRefresh()
      requires Valid() && refreshInFlight.Ended?
      modifies this
      ensures Valid() && State() == Apply(old(State()), AccountRefresh.Step.FinishRefresh)
    {
      hide Inv;
      StepKeeps(State(), AccountRefresh.Step.FinishRefresh);
      refreshInFlight := NoLoop;
      if disposed || pendingReasons == {} {
        return;
      }
      StartRefresh();
    }

    /** The first read of the config source is back. */
    method OnConfigRead(config: Option<ProviderConfig>)
      requires Valid() && refreshInFlight.AwaitConfig?
      modifies this
      ensures Valid() && State() == Apply(old(State()), ConfigRead(config))
    {
      hide Inv;
      StepKeeps(State(), ConfigRead(config));
      refreshInFlight :=
        if config.None? then TellingError(refreshInFlight.round, None) else AwaitAccount(refreshInFlight.round, config.value);
    }

    /** The resolver is back. */
    method OnAccountResolved(content: Option<string>)
      requires Valid() && refreshInFlight.AwaitAccount?
      modifies this
      ensures Valid() && State() == Apply(old(State()), AccountResolved(content))
    {
      hide Inv;
      StepKeeps(State(), AccountResolved(content));
      if content.None? || disposed {
        refreshInFlight := TellingError(refreshInFlight.round, Some(refreshInFlight.config));
        return;
      }
      refreshInFlight := AwaitConfigAgain(refreshInFlight.round, refreshInFlight.config, content.value);
    }

    /** The second read of the config source is back: the round's result is dropped, confirmed or published. */
    method OnConfigReadAgain(current: Option<ProviderConfig>)
      requires Valid() && refreshInFlight.AwaitConfigAgain?
      modifies this
      ensures Valid() && State() == Apply(old(State()), ConfigReadAgain(current))
    {
      hide Inv, Settle;
      StepKeeps(State(), ConfigReadAgain(current));
      var round, config := refreshInFlight.round, refreshInFlight.config;
      if current.None? || disposed {
        refreshInFlight := TellingError(round, Some(config));
        return;
      }
      if pendingReasons != {} || current.value.builtin != config.builtin {
        pendingReasons := pendingReasons + {"superseded-resolution"};
        LoopHead();
        return;
      }
      var next := Overlay(config.builtin, refreshInFlight.content);
      if latest == Some(next) {
        SettleRefreshWaiters(round.generation, Resolved(next));
        LoopHead();
        return;
      }
      var hadSnapshot := latest.Some?;
      latest := Some(next);
      snapshot := latest;
      SettleRefreshWaiters(round.generation, Resolved(next));
      if hadSnapshot {
        refreshInFlight := TellingChange(round, config);
      } else {
        LoopHead();
      }
    }

    /** The error listeners were called; threw says whether one of them threw. */
    method AfterErrorListeners(threw: bool)
      requires Valid() && refreshInFlight.TellingError?
      modifies this
      ensures Valid() && State() == Apply(old(State()), ErrorTold(threw))
    {
      hide Inv, Settle;
      StepKeeps(State(), ErrorTold(threw));
      if threw {
        refreshInFlight, ended := Ended, ended + [Died];
        return;
      }
      var round, config := refreshInFlight.round, refreshInFlight.read;
      if latest.None? && config.Some? {
        latest := Some(Overlay(config.value.builtin, config.value.unentitled));
        snapshot := latest;
        SettleRefreshWaiters(round.generation, Resolved(latest.value));
        LoopHead();
        return;
      }
      SettleRefreshWaiters(round.generation, Rejected);
      refreshInFlight, ended := Ended, ended + [Failed];
    }

    method AfterChangeListeners(threw: bool)
      requires Valid() && refreshInFlight.TellingChange?
      modifies this
      ensures Valid() && State() == Apply(old(State()), ChangeTold(threw))
    {
      hide Inv;
      StepKeeps(State(), ChangeTold(threw));
      if threw {
        refreshInFlight := TellingError(refreshInFlight.round, Some(refreshInFlight.config));
      } else {
        LoopHead();
      }
    }

    /** resolveRefreshWaiters, rejectRefreshWaiters and the rejection in dispose. */
    method SettleRefreshWaiters(generation: nat, outcome: Outcome<Overlay>)
      modifies this`refreshWaiters, this`settled
      ensures State().book == Settle(old(State()).book, generation, outcome)
    {
      ghost var more;
      var told;
      refreshWaiters, told, more := SettleWaiters(refreshWaiters, generation, rounds, outcome);
      settled := settled + more;
    }
  }
}
