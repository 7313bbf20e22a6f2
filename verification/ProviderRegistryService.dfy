/** The provider registry service: its fields, and one method for each stretch of code that runs without
    a break. Each method is the step of RegistryRefresh of the same meaning. */
module ProviderRegistryService {
  import opened Wrappers
  import opened RefreshWaiters
  import opened AccountRefresh
  import opened RegistryRefresh
  import opened ProviderRegistry

  class ProviderRegistryService {
    var pendingReasons: set<string>
    var refreshWaiters: seq<nat>
    var snapshot: Option<Published>
    const registry: ProviderRegistry
    // What the registry's own view was built from.
    ghost var view: Option<Published>
    var requestedGeneration: nat
    var completedGeneration: nat
    var refreshInFlight: RegistryLoop
    var started: bool
    var disposed: bool
    ghost var rounds: nat
    ghost var asked: seq<nat>
    ghost var settled: seq<Settlement<Published>>
    ghost var verdict: Verdict
    ghost var unanswered: nat

    ghost function State(): Registry
      reads this
    {
      Registry(pendingReasons, snapshot, view, Book(requestedGeneration, refreshWaiters, rounds, asked, settled),
               completedGeneration, refreshInFlight, started, disposed, verdict, unanswered)
    }

    ghost predicate Valid()
      reads this
    {
      RegistryInv(State())
    }

    constructor ()
      ensures Valid() && State() == FRESH_REGISTRY
    {
      pendingReasons, refreshWaiters, snapshot, view := {}, [], None, None;
      requestedGeneration, completedGeneration, refreshInFlight := 0, 0, Idle;
      started, disposed := false, false;
      rounds, asked, settled, verdict, unanswered := 0, [], [], NoVerdict, 0;
      registry := new ProviderRegistry();
    }

    // ---------- Calls from outside ----------

    /** start: the generation whose promise it awaits, or None if it need not wait; Err if disposed. */
    method Start() returns (r: Result<Option<nat>, ()>)
      requires Valid()
      modifies this
      ensures Valid() && (r.Err? <==> old(disposed))
      ensures r.Err? || r.value.None? ==> State() == old(State())
      ensures r.Ok? && r.value.None? ==> started && snapshot.Some?
      ensures r.Ok? && r.value.Some? ==>
        State() == Next(old(State()), AskRefresh("start")) && r.value.value in refreshWaiters
    {
      if disposed {
        return Err(());
      }
      if !started {
        var generation := RequestRefresh("start");
        return Ok(Some(generation));
      }
      if snapshot.None? {
        var generation := RequestRefresh("start");
        return Ok(Some(generation));
      }
      return Ok(None);
    }

    /** refresh; it may only be called after start. */
    method Refresh(reason: string) returns (r: Result<nat, ()>)
      requires Valid()
      modifies this
      ensures Valid() && (r.Err? <==> old(disposed || !started))
      ensures r.Err? ==> State() == old(State())
      ensures r.Ok? ==> State() == Next(old(State()), AskRefresh(reason)) && r.value in refreshWaiters
    {
      if disposed || !started {
        return Err(());
      }
      var generation := RequestRefresh(reason);
      return Ok(generation);
    }

    /** The listeners on the two sources. */
    method RefreshFromSource(source: string, reason: string)
      requires Valid()
      modifies this
      ensures Valid()
      ensures State() == if old(disposed) then old(State())
                         else Next(old(State()), AskRefresh(source + ":" + if reason == "" then "changed" else reason))
    {
      if disposed {
        return;
      }
      var _ := RequestRefresh(source + ":" + if reason == "" then "changed" else reason);
    }

    method Dispose()
      requires Valid()
      modifies this
      ensures Valid() && State() == Next(old(State()), DisposeRegistry)
    {
      hide RegistryInv;
      NextKeeps(State(), DisposeRegistry);
      if disposed {
        return;
      }
      disposed := true;
      SettleRefreshWaiters(requestedGeneration, GivenUp);
    }

    // ---------- The refresh loop ----------

    method RequestRefresh(reason: string) returns (generation: nat)
      requires Valid() && !disposed
      modifies this
      ensures Valid() && State() == Next(old(State()), AskRefresh(reason))
      ensures generation == requestedGeneration == old(requestedGeneration) + 1 && generation in refreshWaiters
    {
      hide RegistryInv;
      NextKeeps(State(), AskRefresh(reason));
      started := true;
      generation := requestedGeneration + 1;
      requestedGeneration := generation;
      pendingReasons := pendingReasons + {reason};
      refreshWaiters, asked := refreshWaiters + [generation], asked + [rounds];
      assert refreshWaiters[|refreshWaiters| - 1] == generation;
      EnsureRefreshLoop();
    }

    method EnsureRefreshLoop()
      modifies this`pendingReasons, this`refreshInFlight, this`rounds
      ensures State() == if old(disposed) || !old(refreshInFlight).Idle? then old(State()) else RegistryHead(old(State()), {})
    {
      if !refreshInFlight.Idle? || disposed {
        return;
      }
      LoopHead({});
    }

    /** The loop condition: the next round begins with what is pending, or the loop's promise is settled. */
    method LoopHead(reasons: set<string>)
      modifies this`pendingReasons, this`refreshInFlight, this`rounds
      ensures State() == RegistryHead(old(State()), reasons)
    {
      if completedGeneration < requestedGeneration {
        refreshInFlight := AwaitSources(requestedGeneration, reasons + pendingReasons);
        pendingReasons := {};
        rounds := rounds + 1;
      } else {
        refreshInFlight := Settled(false);
      }
    }

    /** The handlers on the loop's promise. */
    method FinishRefresh()
      requires Valid() && refreshInFlight.Settled?
      modifies this
      ensures Valid() && State() == Next(old(State()), Finish)
    {
      hide RegistryInv, Settle;
      NextKeeps(State(), Finish);
      if refreshInFlight.died {
        SettleRefreshWaiters(requestedGeneration, GivenUp);
      }
      refreshInFlight := Idle;
      if completedGeneration < requestedGeneration {
        EnsureRefreshLoop();
      }
    }

    /** One of the two reads failed. */
    method OnSourcesFailed()
      requires Valid() && refreshInFlight.AwaitSources?
      modifies this
      ensures Valid() && State() == Next(old(State()), SourcesFailed)
    {
      hide RegistryInv;
      NextKeeps(State(), SourcesFailed);
      var generation, reasons := refreshInFlight.generation, refreshInFlight.reasons;
      if generation < requestedGeneration {
        LoopHead(reasons);
        return;
      }
      completedGeneration := generation;
      verdict, refreshInFlight := Errored, TellingRefreshError(generation);
    }

    /** Both reads are back: the pair is out of date, incoherent, known, or built and published. */
    method OnSourcesRead(config: ProviderConfig, account: Overlay, build: Build)
      requires Valid() && refreshInFlight.AwaitSources?
      modifies this, registry
      ensures Valid() && State() == Next(old(State()), SourcesRead(config, account, build))
      ensures registry.providers == if Replaces(old(State()), SourcesRead(config, account, build)) then build.providers
                                    else old(registry.providers)
    {
      hide RegistryInv, Settle, RegistryHead;
      NextKeeps(State(), SourcesRead(config, account, build));
      var generation, reasons := refreshInFlight.generation, refreshInFlight.reasons;
      if generation < requestedGeneration {
        LoopHead(reasons);
        return;
      }
      if disposed {
        refreshInFlight := Settled(true);
        return;
      }
      if account.basedOn != config.builtin {
        EndMismatch(generation, Published(config, account));
        return;
      }
      if snapshot.Some? && SameRevisions(snapshot.value, config, account) {
        completedGeneration, verdict := generation, Paired(Published(config, account));
        SettleRefreshWaiters(generation, Resolved(snapshot.value));
        LoopHead({});
        return;
      }
      BuildAndPublish(generation, Published(config, account), build);
    }

    method EndMismatch(generation: nat, pair: Published)
      modifies this
      ensures var m := old(State()).(verdict := Mismatch(pair));
        State() == if m.snapshot.Some? then RegistryHead(Complete(m, generation, Resolved(m.snapshot.value)), {})
                   else RegistryHead(m.(completed := generation, unanswered := generation), {})
    {
      completedGeneration, verdict := generation, Mismatch(pair);
      if snapshot.Some? {
        SettleRefreshWaiters(generation, Resolved(snapshot.value));
      } else {
        unanswered := generation;
      }
      LoopHead({});
    }

    /** The registry takes the resolver's list as its view; if nothing is listed twice, that is published. */
    method BuildAndPublish(generation: nat, pair: Published, build: Build)
      modifies this, registry
      ensures var s := old(State());
        State() == if build.Resolves? && Indexable(build.providers) then
                     Complete(s.(snapshot := Some(pair), view := Some(pair), verdict := Paired(pair)), generation, Resolved(pair))
                       .(loop := TellingChanged(generation))
                   else s.(view := if build.Resolves? then Some(pair) else s.view, completed := generation, verdict := Errored,
                           loop := TellingRefreshError(generation))
      ensures registry.providers == if build.Resolves? then build.providers else old(registry.providers)
    {
      hide Settle, Indexable;
      var indexed := false;
      if build.Resolves? {
        view := Some(pair);
        indexed := registry.Replace(build.providers);
      }
      if !indexed {
        completedGeneration := generation;
        verdict, refreshInFlight := Errored, TellingRefreshError(generation);
        return;
      }
      snapshot := Some(pair);
      completedGeneration, verdict := generation, Paired(pair);
      SettleRefreshWaiters(generation, Resolved(pair));
      refreshInFlight := TellingChanged(generation);
    }

    method AfterErrorListeners(threw: bool)
      requires Valid() && refreshInFlight.TellingRefreshError?
      modifies this
      ensures Valid() && State() == Next(old(State()), RefreshErrorTold(threw))
    {
      hide RegistryInv;
      NextKeeps(State(), RefreshErrorTold(threw));
      if threw {
        refreshInFlight := Settled(true);
        return;
      }
      SettleRefreshWaiters(refreshInFlight.generation, Rejected);
      refreshInFlight := Settled(false);
    }

    method AfterChangeListeners(threw: bool)
      requires Valid() && refreshInFlight.TellingChanged?
      modifies this
      ensures Valid() && State() == Next(old(State()), ChangedTold(threw))
    {
      hide RegistryInv;
      NextKeeps(State(), ChangedTold(threw));
      if threw {
        completedGeneration := refreshInFlight.generation;
        verdict, refreshInFlight := Errored, TellingRefreshError(refreshInFlight.generation);
      } else {
        LoopHead({});
      }
    }

    method SettleRefreshWaiters(generation: nat, outcome: Outcome<Published>)
      modifies this`refreshWaiters, this`settled
      ensures State().book == Settle(old(State()).book, generation, outcome)
    {
      ghost var more;
      var told;
      refreshWaiters, told, more := SettleWaiters(refreshWaiters, generation, rounds, outcome);
      settled := settled + more;
    }
  }
}
