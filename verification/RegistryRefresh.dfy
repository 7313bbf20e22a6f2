/** The provider registry service as a state machine, cut into steps as AccountRefresh is. */
module RegistryRefresh {
  import opened Wrappers
  import opened RefreshWaiters
  import opened AccountRefresh
  import opened ProviderRegistry

  /** A registry snapshot: the two sources it was built from. */
  datatype Published = Published(config: ProviderConfig, account: Overlay)

  /** What the resolver makes of a pair of sources: a list of providers, or an error. The registry's indexes are
      rebuilt from the list after its view was replaced, and that throws exactly if something is listed twice. */
  datatype Build = Resolves(providers: seq<Provider>) | ResolverThrows

  datatype RegistryLoop =
    | Idle
    | AwaitSources(generation: nat, reasons: set<string>)
    | TellingRefreshError(generation: nat)
    | TellingChanged(generation: nat)
    | Settled(died: bool)

  /** What the last finished round found; no step looks at it. */
  datatype Verdict = NoVerdict | Mismatch(pair: Published) | Paired(pair: Published) | Errored

  datatype Registry = Registry(
    pending: set<string>,
    snapshot: Option<Published>,
    view: Option<Published>,
    book: Book<Published>,
    completed: nat,
    loop: RegistryLoop,
    started: bool,
    disposed: bool,
    verdict: Verdict,
    // The last generation that ended with a mismatch while there was no snapshot to answer with.
    unanswered: nat)

  const FRESH_REGISTRY := Registry({}, None, None, Book(0, [], 0, [], []), 0, Idle, false, false, NoVerdict, 0)

  predicate SameRevisions(p: Published, config: ProviderConfig, account: Overlay) {
    p.config.builtin == config.builtin && p.config.personal == config.personal && p.account == account
  }

  // ---------- The loop ----------

  function RegistryHead(s: Registry, reasons: set<string>): Registry {
    if s.completed < s.book.requested then
      s.(loop := AwaitSources(s.book.requested, reasons + s.pending), pending := {}, book := Begin(s.book))
    else s.(loop := Settled(false))
  }

  function Complete(s: Registry, generation: nat, outcome: Outcome<Published>): Registry {
    s.(completed := generation, book := Settle(s.book, generation, outcome))
  }

  /** Both sources were read. */
  function WithSources(s: Registry, generation: nat, reasons: set<string>, config: ProviderConfig, account: Overlay,
          build: Build): Registry {
    var pair := Published(config, account);
    if generation < s.book.requested then RegistryHead(s, reasons)
    else if s.disposed then s.(loop := Settled(true))
    else if account.basedOn != config.builtin then
      var m := s.(verdict := Mismatch(pair));
      if s.snapshot.Some? then RegistryHead(Complete(m, generation, Resolved(s.snapshot.value)), {})
      else RegistryHead(m.(completed := generation, unanswered := generation), {})
    else if s.snapshot.Some? && SameRevisions(s.snapshot.value, config, account) then
      RegistryHead(Complete(s.(verdict := Paired(pair)), generation, Resolved(s.snapshot.value)), {})
    else if build.Resolves? && Indexable(build.providers) then
      Complete(s.(snapshot := Some(pair), view := Some(pair), verdict := Paired(pair)), generation, Resolved(pair))
        .(loop := TellingChanged(generation))
    else
      s.(view := if build.Resolves? then Some(pair) else s.view, completed := generation, verdict := Errored,
         loop := TellingRefreshError(generation))
  }

  function WithoutSources(s: Registry, generation: nat, reasons: set<string>): Registry {
    if generation < s.book.requested then RegistryHead(s, reasons)
    else s.(completed := generation, verdict := Errored, loop := TellingRefreshError(generation))
  }

  function Requested(s: Registry, reason: string): Registry {
    var asked := s.(started := true, pending := s.pending + {reason}, book := Ask(s.book));
    if s.loop.Idle? then RegistryHead(asked, {}) else asked
  }

  /** The handlers on the loop's promise: a loop that died takes every waiter with it. */
  function Finished(s: Registry, died: bool): Registry {
    var t := s.(loop := Idle, book := if died then Settle(s.book, s.book.requested, GivenUp) else s.book);
    if t.completed < t.book.requested && !t.disposed then RegistryHead(t, {}) else t
  }

  // ---------- Steps ----------

  datatype RegistryStep =
    | AskRefresh(reason: string)
    | SourcesRead(config: ProviderConfig, account: Overlay, build: Build)
    | SourcesFailed
    | RefreshErrorTold(threw: bool)
    | ChangedTold(threw: bool)
    | Finish
    | DisposeRegistry

  predicate Allowed(s: Registry, step: RegistryStep) {
    match step
    case AskRefresh(_) => !s.disposed
    case SourcesRead(_, _, _) => s.loop.AwaitSources?
    case SourcesFailed => s.loop.AwaitSources?
    case RefreshErrorTold(_) => s.loop.TellingRefreshError?
    case ChangedTold(_) => s.loop.TellingChanged?
    case Finish => s.loop.Settled?
    case DisposeRegistry => true
  }

  function Next(s: Registry, step: RegistryStep): Registry
    requires Allowed(s, step)
  {
    match step
    case AskRefresh(reason) => Requested(s, reason)
    case SourcesRead(config, account, build) => WithSources(s, s.loop.generation, s.loop.reasons, config, account, build)
    case SourcesFailed => WithoutSources(s, s.loop.generation, s.loop.reasons)
    case RefreshErrorTold(threw) =>
      if threw then s.(loop := Settled(true))
      else s.(book := Settle(s.book, s.loop.generation, Rejected), loop := Settled(false))
    case ChangedTold(threw) =>
      if threw then s.(completed := s.loop.generation, verdict := Errored, loop := TellingRefreshError(s.loop.generation))
      else RegistryHead(s, {})
    case Finish => Finished(s, s.loop.died)
    case DisposeRegistry =>
      if s.disposed then s else s.(disposed := true, book := Settle(s.book, s.book.requested, GivenUp))
  }

  // ---------- What every step keeps ----------

  predicate Pair(p: Published) { p.account.basedOn == p.config.builtin }

  /** Account and config of a snapshot are about the same built-in revision. */
  predicate Coherent(s: Registry) {
    (s.snapshot.Some? ==> Pair(s.snapshot.value)) && (s.view.Some? ==> Pair(s.view.value))
  }

  /** Generations: a running round is newer than what is completed, and started after what it will answer. */
  predicate Generations(s: Registry) {
    && s.unanswered <= s.completed <= s.book.requested == |s.book.asked|
    && (s.loop.AwaitSources? ==> s.completed < s.loop.generation <= s.book.requested
                                 && forall k :: 0 <= k < s.loop.generation ==> s.book.asked[k] < s.book.rounds)
    && (s.loop.TellingRefreshError? ==> s.loop.generation == s.completed
                                        && forall k :: 0 <= k < s.completed ==> s.book.asked[k] < s.book.rounds)
    && (s.loop.TellingChanged? ==> s.loop.generation == s.completed && s.snapshot.Some?
                                   && forall k :: 0 <= k < s.completed ==> s.book.asked[k] < s.book.rounds)
    && (s.loop.Idle? && !s.disposed ==> s.completed == s.book.requested)
  }

  /** A waiter whose generation is completed was left by a mismatch without a snapshot, or is about to be told
      of the error. */
  predicate Leftover(s: Registry, w: nat) {
    w > s.completed || (w <= s.unanswered && s.snapshot.None?) || s.loop.TellingRefreshError? || s.loop == Settled(true)
  }

  predicate Leftovers(s: Registry) {
    && (s.disposed ==> s.book.waiters == [])
    && forall w {:trigger Leftover(s, w)} :: w in s.book.waiters ==> Leftover(s, w)
  }

  ghost predicate RegistryInv(s: Registry) {
    WellKept(s.book) && Coherent(s) && Generations(s) && Leftovers(s)
  }

  lemma HeadKeepsRegistry(s: Registry, reasons: set<string>)
    requires WellKept(s.book) && Coherent(s) && s.unanswered <= s.completed <= s.book.requested
    requires s.disposed ==> s.book.waiters == []
    requires forall w :: w in s.book.waiters ==> w > s.completed || (w <= s.unanswered && s.snapshot.None?)
    ensures RegistryInv(RegistryHead(s, reasons))
  {
    if s.completed < s.book.requested {
      BeginKeeps(s.book);
    }
  }

  lemma RoundKeeps(s: Registry, step: RegistryStep)
    requires RegistryInv(s) && s.loop.AwaitSources? && (step.SourcesRead? || step.SourcesFailed?)
    ensures RegistryInv(Next(s, step))
  {
    hide WellKept, Ascending;
    var generation := s.loop.generation;
    assert forall w :: w in s.book.waiters ==> Leftover(s, w);
    if generation < s.book.requested {
      HeadKeepsRegistry(s, s.loop.reasons);
    } else if step.SourcesRead? && !s.disposed {
      var pair := Published(step.config, step.account);
      if s.snapshot.Some? && (!Pair(pair) || SameRevisions(s.snapshot.value, step.config, step.account)) {
        SettleKeeps(s.book, generation, Resolved(s.snapshot.value));
        var m := s.(verdict := if Pair(pair) then Paired(pair) else Mismatch(pair));
        HeadKeepsRegistry(Complete(m, generation, Resolved(s.snapshot.value)), {});
      } else if !Pair(pair) {
        HeadKeepsRegistry(s.(verdict := Mismatch(pair), completed := generation, unanswered := generation), {});
      } else {
        SettleKeeps(s.book, generation, Resolved(pair));
      }
    }
  }

  lemma AskKeepsRegistry(s: Registry, reason: string)
    requires RegistryInv(s) && !s.disposed
    ensures RegistryInv(Requested(s, reason))
  {
    AskKeeps(s.book);
    var asked := s.(started := true, pending := s.pending + {reason}, book := Ask(s.book));
    assert forall w :: w in s.book.waiters ==> Leftover(s, w);
    if s.loop.Idle? {
      HeadKeepsRegistry(asked, {});
    }
  }

  lemma FinishKeeps(s: Registry)
    requires RegistryInv(s) && s.loop.Settled?
    ensures RegistryInv(Finished(s, s.loop.died))
  {
    hide WellKept;
    assert forall w :: w in s.book.waiters ==> Leftover(s, w);
    var t := s.(loop := Idle, book := if s.loop.died then Settle(s.book, s.book.requested, GivenUp) else s.book);
    if s.loop.died {
      SettleKeeps(s.book, s.book.requested, GivenUp);
    }
    if t.completed < t.book.requested && !t.disposed {
      HeadKeepsRegistry(t, {});
    }
  }

  /** Every step keeps the invariant. */
  lemma NextKeeps(s: Registry, step: RegistryStep)
    requires RegistryInv(s) && Allowed(s, step)
    ensures RegistryInv(Next(s, step))
  {
    hide WellKept;
    assert forall w :: w in s.book.waiters ==> Leftover(s, w);
    match step
    case AskRefresh(reason) => AskKeepsRegistry(s, reason);
    case SourcesRead(_, _, _) => RoundKeeps(s, step);
    case SourcesFailed => RoundKeeps(s, step);
    case RefreshErrorTold(threw) => if !threw { SettleKeeps(s.book, s.loop.generation, Rejected); }
    case ChangedTold(threw) => if !threw { HeadKeepsRegistry(s, {}); }
    case Finish => FinishKeeps(s);
    case DisposeRegistry => if !s.disposed { SettleKeeps(s.book, s.book.requested, GivenUp); }
  }

  // ---------- Runs ----------

  ghost predicate RegistryRun(s: Registry, steps: seq<RegistryStep>, t: Registry)
    decreases |steps|
  {
    if steps == [] then s == t else Allowed(s, steps[0]) && RegistryRun(Next(s, steps[0]), steps[1..], t)
  }

  lemma {:induction false} RegistryRunKeeps(s: Registry, steps: seq<RegistryStep>, t: Registry)
    requires RegistryInv(s) && RegistryRun(s, steps, t)
    ensures RegistryInv(t)
    decreases |steps|
  {
    if steps != [] {
      NextKeeps(s, steps[0]);
      RegistryRunKeeps(Next(s, steps[0]), steps[1..], t);
    }
  }

  /** A published snapshot pairs an account overlay with a config of the same built-in revision; every
      promise is settled at most once, and by a round whose reads began after the request, unless the
      service was disposed or its loop died. */
  lemma SnapshotsAreCoherentAndAnswersFresh(steps: seq<RegistryStep>, t: Registry)
    requires RegistryRun(FRESH_REGISTRY, steps, t)
    ensures t.snapshot.Some? ==> t.snapshot.value.account.basedOn == t.snapshot.value.config.builtin
    ensures |t.book.asked| == t.book.requested
    ensures forall i {:trigger t.book.settled[i]} :: 0 <= i < |t.book.settled| ==>
      var x := t.book.settled[i];
      && 1 <= x.generation <= t.book.requested && x.generation !in t.book.waiters
      && (!x.outcome.GivenUp? ==> t.book.asked[x.generation - 1] < x.round <= t.book.rounds)
    ensures forall i, j :: 0 <= i < j < |t.book.settled| ==>
      t.book.settled[i].generation != t.book.settled[j].generation
  {
    RegistryRunKeeps(FRESH_REGISTRY, steps, t);
    forall i | 0 <= i < |t.book.settled|
      ensures FreshAnswer(t.book, t.book.settled[i])
    {
    }
  }

  /** Nobody is forgotten: while idle every request is completed, and with a snapshot nobody waits; a waiter
      outlives its generation only after a mismatch before the first snapshot. */
  lemma OnlyAnEarlyMismatchLeavesWaiters(steps: seq<RegistryStep>, t: Registry, w: nat)
    requires RegistryRun(FRESH_REGISTRY, steps, t) && w in t.book.waiters
    ensures !t.disposed
    ensures t.loop.Idle? ==> t.completed == t.book.requested && t.snapshot.None? && w <= t.unanswered
    ensures w <= t.completed && !t.loop.TellingRefreshError? && t.loop != Settled(true) ==>
      t.snapshot.None? && w <= t.unanswered
  {
    RegistryRunKeeps(FRESH_REGISTRY, steps, t);
    assert Leftover(t, w);
    assert WellKept(t.book);
  }

  /** A request made by an error listener that then throws is given up: the loop's own failure rejects it
      although no round ever looked at it. */
  lemma ADyingLoopGivesUpNewerRequests() returns (t: Registry)
    ensures RegistryRun(FRESH_REGISTRY, [AskRefresh("start"), SourcesFailed, AskRefresh("retry"), RefreshErrorTold(true), Finish], t)
    ensures t.book.asked == [0, 1] && t.book.settled[1] == Settlement(2, 1, GivenUp)
  {
    var steps := [AskRefresh("start"), SourcesFailed, AskRefresh("retry"), RefreshErrorTold(true), Finish];
    var a := Next(FRESH_REGISTRY, steps[0]);
    var b := Next(a, steps[1]);
    var c := Next(b, steps[2]);
    var d := Next(c, steps[3]);
    t := Next(d, steps[4]);
    assert c.book.waiters == [1, 2] && c.book.waiters[1..] == [2];
    assert Answered<Published>([2], 2, 1, GivenUp) == [Settlement(2, 1, GivenUp)];
    assert steps[1..][1..] == steps[2..] && steps[2..][1..] == steps[3..] && steps[3..][1..] == steps[4..] && steps[4..][1..] == [];
    assert RegistryRun(d, steps[4..], t);
    assert RegistryRun(c, steps[3..], t);
    assert RegistryRun(b, steps[2..], t);
    assert RegistryRun(a, steps[1..], t);
  }

  /** The step rejects a request that no round looked at. */
  ghost predicate GivesUp(s: Registry, step: RegistryStep)
    requires Allowed(s, step)
  {
    exists i :: |s.book.settled| <= i < |Next(s, step).book.settled| && Next(s, step).book.settled[i].outcome.GivenUp?
  }

  /** While somebody waits, exactly two steps give up: disposing the service, and the handler on the promise of a
      loop that died. */
  lemma OnlyDeathOrDisposalGivesUp(s: Registry, step: RegistryStep)
    requires RegistryInv(s) && Allowed(s, step) && s.book.waiters != []
    ensures GivesUp(s, step) <==> step == DisposeRegistry || (step == Finish && s.loop == Settled(true))
  {
    hide WellKept;
    if step == DisposeRegistry || (step == Finish && s.loop == Settled(true)) {
      SomebodyIsGivenUp(s, step);
    } else {
      forall i | |s.book.settled| <= i < |Next(s, step).book.settled|
        ensures !Next(s, step).book.settled[i].outcome.GivenUp?
      {
        AnswersAreNotGivenUp(s, step, i);
      }
    }
  }

  lemma SomebodyIsGivenUp(s: Registry, step: RegistryStep)
    requires RegistryInv(s) && Allowed(s, step) && s.book.waiters != []
    requires step == DisposeRegistry || (step == Finish && s.loop == Settled(true))
    ensures GivesUp(s, step)
  {
    hide WellKept, RegistryHead;
    assert s.book.waiters[0] in s.book.waiters && WellKept(s.book);
    WaitersAreRequests(s.book, s.book.waiters[0]);
    var k := EachIsAnswered(s.book.waiters, s.book.requested, s.book.rounds, Outcome<Published>.GivenUp, s.book.waiters[0]);
    SameOutcome(s.book.waiters, s.book.requested, s.book.rounds, Outcome<Published>.GivenUp, k);
    HeadSettlesNobody(s.(loop := Idle, book := Settle(s.book, s.book.requested, GivenUp)), {});
    assert Next(s, step).book.settled[|s.book.settled| + k].outcome.GivenUp?;
  }

  lemma WaitersAreRequests(b: Book<Published>, w: nat)
    requires WellKept(b) && w in b.waiters
    ensures w <= b.requested
  {
  }

  lemma HeadSettlesNobody(s: Registry, reasons: set<string>)
    ensures RegistryHead(s, reasons).book.settled == s.book.settled
  {
  }

  lemma AnswersAreNotGivenUp(s: Registry, step: RegistryStep, i: nat)
    requires RegistryInv(s) && Allowed(s, step) && |s.book.settled| <= i < |Next(s, step).book.settled|
    requires step != DisposeRegistry && !(step == Finish && s.loop == Settled(true))
    ensures !Next(s, step).book.settled[i].outcome.GivenUp?
  {
    hide WellKept;
    forall outcome: Outcome<Published>, g: nat, k: nat | k < |Answered(s.book.waiters, g, s.book.rounds, outcome)|
      ensures Answered(s.book.waiters, g, s.book.rounds, outcome)[k].outcome == outcome
    {
      SameOutcome(s.book.waiters, g, s.book.rounds, outcome, k);
    }
  }

  /** A loop dies when an error listener throws, or when its sources arrive after dispose; in no other way. */
  lemma ALoopDiesWhen(s: Registry, step: RegistryStep)
    requires Allowed(s, step) && s.loop != Settled(true)
    ensures Next(s, step).loop == Settled(true) <==>
      step == RefreshErrorTold(true) || (step.SourcesRead? && s.disposed && s.loop.generation >= s.book.requested)
  {
    hide Settle;
  }

  // ---------- What a round tells ----------

  /** Both sources were read, and no request came meanwhile. */
  predicate ReadInTime(s: Registry, step: RegistryStep) {
    step.SourcesRead? && s.loop.AwaitSources? && s.loop.generation == s.book.requested && !s.disposed
  }

  /** There is a snapshot, and the round leaves it: the sources do not fit together, or are the ones it has. */
  predicate LeavesTheSnapshot(s: Registry, step: RegistryStep) {
    && ReadInTime(s, step) && s.snapshot.Some?
    && (step.account.basedOn != step.config.builtin || SameRevisions(s.snapshot.value, step.config, step.account))
  }

  /** The sources fit together and are new. */
  predicate ReadsNews(s: Registry, step: RegistryStep) {
    && ReadInTime(s, step) && step.account.basedOn == step.config.builtin
    && !(s.snapshot.Some? && SameRevisions(s.snapshot.value, step.config, step.account))
  }

  predicate PublishesNews(s: Registry, step: RegistryStep) {
    ReadsNews(s, step) && step.build.Resolves? && Indexable(step.build.providers)
  }

  ghost predicate NobodyTold(s: Registry, t: Registry) {
    t.book.settled == s.book.settled && forall w :: w in s.book.waiters ==> w in t.book.waiters
  }

  predicate Silent(s: Registry, step: RegistryStep) {
    && !LeavesTheSnapshot(s, step) && !PublishesNews(s, step) && step != RefreshErrorTold(false)
    && !step.DisposeRegistry? && !(step.Finish? && s.loop == Settled(true))
  }

  /** How the promises of a round end. A round that leaves the snapshot resolves them with it, one that publishes a new
      pair with that pair; a round that failed rejects them once its error was told; dispose and the end of a loop that
      died give up on all. Any other step tells nobody anything and leaves the snapshot. */
  ghost predicate RoundAnswers(s: Registry, step: RegistryStep, t: Registry) {
    && (LeavesTheSnapshot(s, step) ==>
          Told(s.book, t.book, s.book.requested, Resolved(s.snapshot.value)) && t.snapshot == s.snapshot)
    && (PublishesNews(s, step) ==>
          && Told(s.book, t.book, s.book.requested, Resolved(Published(step.config, step.account)))
          && t.snapshot == Some(Published(step.config, step.account)))
    && (step == RefreshErrorTold(false) && s.loop.TellingRefreshError? ==>
          Told(s.book, t.book, s.loop.generation, Rejected) && t.snapshot == s.snapshot)
    && (step.DisposeRegistry? || (step.Finish? && s.loop == Settled(true)) ==>
          Told(s.book, t.book, s.book.requested, GivenUp) && t.snapshot == s.snapshot)
    && (Silent(s, step) ==> NobodyTold(s, t) && t.snapshot == s.snapshot)
  }

  lemma RoundAnswersExactly(s: Registry, step: RegistryStep)
    requires RegistryInv(s) && Allowed(s, step)
    ensures RoundAnswers(s, step, Next(s, step))
  {
    hide WellKept, Newer, Answered, Told, Coherent, Leftovers;
    var b := s.book;
    if LeavesTheSnapshot(s, step) {
      SettleTells(b, b.requested, Resolved(s.snapshot.value));
    } else if PublishesNews(s, step) {
      SettleTells(b, b.requested, Resolved(Published(step.config, step.account)));
    } else if step == RefreshErrorTold(false) {
      SettleTells(b, s.loop.generation, Rejected);
    } else if step.DisposeRegistry? || (step.Finish? && s.loop == Settled(true)) {
      SettleTells(b, b.requested, GivenUp);
      ToldThenBegun(b, Settle(b, b.requested, GivenUp), b.requested, GivenUp);
      if s.disposed {
        NobodyIsLeft(s);
      }
    }
  }

  /** A disposed service has no waiter left to give up on. */
  lemma NobodyIsLeft(s: Registry)
    requires RegistryInv(s) && s.disposed
    ensures Told(s.book, s.book, s.book.requested, GivenUp)
  {
  }

  /** In every run: see RoundAnswers. */
  lemma PromisesEndAsTheRoundDoes(steps: seq<RegistryStep>, s: Registry, step: RegistryStep)
    requires RegistryRun(FRESH_REGISTRY, steps, s) && Allowed(s, step)
    ensures RoundAnswers(s, step, Next(s, step))
  {
    hide RegistryInv, Next;
    RegistryRunKeeps(FRESH_REGISTRY, steps, s);
    RoundAnswersExactly(s, step);
  }

  /** Requests came while the round read its sources. */
  predicate ReadTooLate(s: Registry, step: RegistryStep) {
    (step.SourcesRead? || step.SourcesFailed?) && s.loop.AwaitSources? && s.loop.generation < s.book.requested
  }

  predicate BeginsARound(s: Registry, step: RegistryStep) {
    || ReadTooLate(s, step) || (step.AskRefresh? && s.loop.Idle?)
    || (s.completed < s.book.requested && (step == ChangedTold(false) || (step.Finish? && !s.disposed)))
  }

  /** A beginning round is given all pending reasons, and those of the round it is begun instead of; otherwise the
      reasons stay pending. Everything requested by then is what it will answer. */
  predicate ReasonsKept(s: Registry, step: RegistryStep, t: Registry) {
    var all := s.pending + if step.AskRefresh? then {step.reason} else {};
    if BeginsARound(s, step) then
      && t.book.rounds == s.book.rounds + 1 && t.pending == {}
      && t.loop == AwaitSources(t.book.requested, all + if ReadTooLate(s, step) then s.loop.reasons else {})
    else t.book.rounds == s.book.rounds && t.pending == all
  }

  /** In every run no reason is lost: each is pending until a round begins that is given it. */
  lemma ReasonsReachARound(steps: seq<RegistryStep>, s: Registry, step: RegistryStep)
    requires RegistryRun(FRESH_REGISTRY, steps, s) && Allowed(s, step)
    ensures ReasonsKept(s, step, Next(s, step))
  {
    hide RegistryInv, Next;
    RegistryRunKeeps(FRESH_REGISTRY, steps, s);
    if step.SourcesRead? { ReadingKeepsReasons(s, step); } else { OthersKeepReasons(s, step); }
  }

  lemma ReadingKeepsReasons(s: Registry, step: RegistryStep)
    requires RegistryInv(s) && Allowed(s, step) && step.SourcesRead?
    ensures ReasonsKept(s, step, Next(s, step))
  {
    hide WellKept, Newer, Answered, Coherent, Leftovers, Indexable, SameRevisions;
  }

  lemma OthersKeepReasons(s: Registry, step: RegistryStep)
    requires RegistryInv(s) && Allowed(s, step) && !step.SourcesRead?
    ensures ReasonsKept(s, step, Next(s, step))
  {
    hide WellKept, Newer, Answered, Coherent, Leftovers;
  }

  /** Change listeners hear of exactly what is published; error listeners of sources that could not be read or built
      while nothing newer was requested, and of a throwing change listener. */
  lemma ListenersHearWhen(steps: seq<RegistryStep>, s: Registry, step: RegistryStep)
    requires RegistryRun(FRESH_REGISTRY, steps, s) && Allowed(s, step)
    ensures Next(s, step).loop.TellingChanged? <==>
      PublishesNews(s, step) || (s.loop.TellingChanged? && !step.ChangedTold?)
    ensures Next(s, step).loop.TellingRefreshError? <==>
      || (step.SourcesFailed? && s.loop.generation == s.book.requested)
      || (ReadsNews(s, step) && !PublishesNews(s, step)) || step == ChangedTold(true)
      || (s.loop.TellingRefreshError? && !step.RefreshErrorTold?)
  {
    hide WellKept, Newer, Answered, Coherent, Leftovers;
    RegistryRunKeeps(FRESH_REGISTRY, steps, s);
  }

  // ---------- The registry's view ----------

  /** The step puts a new list into the registry's view. */
  predicate Replaces(s: Registry, step: RegistryStep) {
    && step.SourcesRead? && s.loop.AwaitSources? && s.loop.generation >= s.book.requested && !s.disposed
    && step.account.basedOn == step.config.builtin && step.build.Resolves?
    && !(s.snapshot.Some? && SameRevisions(s.snapshot.value, step.config, step.account))
  }

  /** The view follows the snapshot except after a list in which something occurs twice: the view was replaced
      by the time the indexes threw. The next list without duplicates brings them together again. */
  lemma ViewAndSnapshotPart(s: Registry, step: RegistryStep)
    requires Allowed(s, step)
    ensures Next(s, step).view == Next(s, step).snapshot <==>
      if Replaces(s, step) then Indexable(step.build.providers) else s.view == s.snapshot
  {
    hide Settle;
  }

  /** No list the resolver makes in the run has a duplicate. */
  predicate ListsAreIndexable(steps: seq<RegistryStep>) {
    forall k :: 0 <= k < |steps| && steps[k].SourcesRead? && steps[k].build.Resolves? ==>
      Indexable(steps[k].build.providers)
  }

  lemma {:induction false} ViewFollows(s: Registry, steps: seq<RegistryStep>, t: Registry)
    requires RegistryRun(s, steps, t) && ListsAreIndexable(steps) && s.view == s.snapshot
    ensures t.view == t.snapshot
    decreases |steps|
  {
    if steps != [] {
      ViewAndSnapshotPart(s, steps[0]);
      assert forall k :: 0 <= k < |steps| - 1 ==> steps[1..][k] == steps[k + 1];
      ViewFollows(Next(s, steps[0]), steps[1..], t);
    }
  }

  /** With the resolver of the repository, whose lists have no duplicates, what the registry shows is always what
      was published. */
  lemma ViewIsThePublishedOne(steps: seq<RegistryStep>, t: Registry)
    requires RegistryRun(FRESH_REGISTRY, steps, t)
    requires forall k :: 0 <= k < |steps| && steps[k].SourcesRead? && steps[k].build.Resolves? ==>
      exists x: Sources :: Distinct(x.families) && steps[k].build.providers == Listed(x, ProviderOrder(x))
    ensures t.view == t.snapshot
  {
    forall k | 0 <= k < |steps| && steps[k].SourcesRead? && steps[k].build.Resolves?
      ensures Indexable(steps[k].build.providers)
    {
      var x: Sources :| Distinct(x.families) && steps[k].build.providers == Listed(x, ProviderOrder(x));
      ResolvedProvidersAreIndexable(x);
    }
    ViewFollows(FRESH_REGISTRY, steps, t);
  }

  /** With an injected resolver that lists a provider twice, the registry shows a view that was never published. */
  lemma ADuplicateIsShown(c: ProviderConfig, p: Provider) returns (t: Registry)
    ensures var o := Overlay(c.builtin, "");
      && RegistryRun(FRESH_REGISTRY, [AskRefresh("start"), SourcesRead(c, o, Resolves([p, p]))], t)
      && t.view == Some(Published(c, o)) && t.snapshot.None?
  {
    var steps := [AskRefresh("start"), SourcesRead(c, Overlay(c.builtin, ""), Resolves([p, p]))];
    assert Ids([p, p])[0] == Ids([p, p])[1];
    var a := Next(FRESH_REGISTRY, steps[0]);
    t := Next(a, steps[1]);
    assert steps[1..][1..] == [];
    assert RegistryRun(t, steps[1..][1..], t);
    assert RegistryRun(a, steps[1..], t);
  }
}
