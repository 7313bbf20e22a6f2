/** The account provider service as a state machine. A step is a stretch of its refresh loop between two
    awaits or between the calls it makes to listeners; anything may be called in between. */
module AccountRefresh {
  import opened Wrappers
  import opened RefreshWaiters

  /** What the refresh reads of the config source. The revision of a config is the pair of the revisions
      of its two parts; unentitled is the content of the overlay that grants nothing. */
  datatype ProviderConfig = ProviderConfig(builtin: string, personal: string, unentitled: string)

  /** An account snapshot. Its revision is an injective text of these two parts, so equal revisions are
      equal snapshots. */
  datatype Overlay = Overlay(basedOn: string, content: string)

  datatype Round = Round(generation: nat, reasons: set<string>)

  /** How the promise of a refresh loop ended; Died when a listener threw out of its error handler. */
  datatype LoopEnd = Returned(value: Overlay) | Failed | Died

  /** Where the refresh loop stands: what it awaits, or whose listeners it is calling; Ended when its promise
      is settled and finishRefresh is still to come. */
  datatype Loop =
    | NoLoop
    | AwaitConfig(round: Round)
    | AwaitAccount(round: Round, config: ProviderConfig)
    | AwaitConfigAgain(round: Round, config: ProviderConfig, content: string)
    | TellingError(round: Round, read: Option<ProviderConfig>)
    | TellingChange(round: Round, config: ProviderConfig)
    | Ended

  datatype Account = Account(
    pending: set<string>,
    snapshot: Option<Overlay>,
    latest: Option<Overlay>,
    book: Book<Overlay>,
    loop: Loop,
    started: bool,
    disposed: bool,
    // How each loop so far ended; no step looks at it.
    ended: seq<LoopEnd>)

  const INITIAL := Account({}, None, None, Book(0, [], 0, [], []), NoLoop, false, false, [])

  // ---------- The loop ----------

  function StartRound(s: Account): Account {
    s.(loop := AwaitConfig(Round(s.book.requested, s.pending)), pending := {}, book := Begin(s.book))
  }

  function EndLoop(s: Account, end: LoopEnd): Account {
    s.(loop := Ended, ended := s.ended + [end])
  }

  function LoopHead(s: Account): Account {
    if s.pending != {} then StartRound(s)
    else EndLoop(s, if s.latest.Some? then Returned(s.latest.value) else Failed)
  }

  function StartRefresh(s: Account): Account {
    LoopHead(s.(latest := s.snapshot))
  }

  function Answer(s: Account, round: Round, outcome: Outcome<Overlay>): Account {
    s.(book := Settle(s.book, round.generation, outcome))
  }

  function Publish(s: Account, round: Round, next: Overlay): Account {
    Answer(s.(latest := Some(next), snapshot := Some(next)), round, Resolved(next))
  }

  /** After the second read of the config: the round's result is dropped, confirmed or published. */
  function Conclude(s: Account, round: Round, config: ProviderConfig, content: string,
          current: ProviderConfig): Account {
    var next := Overlay(config.builtin, content);
    if s.pending != {} || current.builtin != config.builtin then
      LoopHead(s.(pending := s.pending + {"superseded-resolution"}))
    else if s.latest == Some(next) then LoopHead(Answer(s, round, Resolved(next)))
    else if s.latest.Some? then Publish(s, round, next).(loop := TellingChange(round, config))
    else LoopHead(Publish(s, round, next))
  }

  /** The error listeners returned, or one of them threw. */
  function AfterError(s: Account, round: Round, read: Option<ProviderConfig>, threw: bool): Account {
    if threw then EndLoop(s, Died)
    else if s.latest.None? && read.Some? then
      LoopHead(Publish(s, round, Overlay(read.value.builtin, read.value.unentitled)))
    else EndLoop(Answer(s, round, Rejected), Failed)
  }

  function Requested(s: Account, reason: string): Account {
    var asked := s.(started := true, pending := s.pending + {reason}, book := Ask(s.book));
    if s.loop.NoLoop? then StartRefresh(asked) else asked
  }

  function Finished(s: Account): Account {
    var idle := s.(loop := NoLoop);
    if s.disposed || s.pending == {} then idle else StartRefresh(idle)
  }

  // ---------- Steps ----------

  datatype Step =
    | Request(reason: string)
    | ConfigRead(config: Option<ProviderConfig>)
    | AccountResolved(content: Option<string>)
    | ConfigReadAgain(current: Option<ProviderConfig>)
    | ErrorTold(threw: bool)
    | ChangeTold(threw: bool)
    | FinishRefresh
    | Dispose

  predicate Enabled(s: Account, step: Step) {
    match step
    case Request(_) => !s.disposed
    case ConfigRead(_) => s.loop.AwaitConfig?
    case AccountResolved(_) => s.loop.AwaitAccount?
    case ConfigReadAgain(_) => s.loop.AwaitConfigAgain?
    case ErrorTold(_) => s.loop.TellingError?
    case ChangeTold(_) => s.loop.TellingChange?
    case FinishRefresh => s.loop.Ended?
    case Dispose => true
  }

  function Apply(s: Account, step: Step): Account
    requires Enabled(s, step)
  {
    match step
    case Request(reason) => Requested(s, reason)
    case ConfigRead(read) => s.(loop := if read.None? then TellingError(s.loop.round, None) else AwaitAccount(s.loop.round, read.value))
    case AccountResolved(content) =>
      if content.None? || s.disposed then s.(loop := TellingError(s.loop.round, Some(s.loop.config)))
      else s.(loop := AwaitConfigAgain(s.loop.round, s.loop.config, content.value))
    case ConfigReadAgain(current) =>
      if current.None? || s.disposed then s.(loop := TellingError(s.loop.round, Some(s.loop.config)))
      else Conclude(s, s.loop.round, s.loop.config, s.loop.content, current.value)
    case ErrorTold(threw) => AfterError(s, s.loop.round, s.loop.read, threw)
    case ChangeTold(threw) =>
      if threw then s.(loop := TellingError(s.loop.round, Some(s.loop.config))) else LoopHead(s)
    case FinishRefresh => Finished(s)
    case Dispose => if s.disposed then s else s.(disposed := true, book := Settle(s.book, s.book.requested, GivenUp))
  }

  // ---------- What every step keeps ----------

  predicate Running(l: Loop) { !l.NoLoop? && !l.Ended? }

  /** A running round started after the requests it will answer, and those are all there are unless a
      reason is pending. */
  predicate RoundKnows(s: Account) {
    Running(s.loop) ==>
      var r := s.loop.round;
      && r.generation <= s.book.requested == |s.book.asked|
      && (forall k :: 0 <= k < r.generation ==> s.book.asked[k] < s.book.rounds)
      && (r.generation < s.book.requested ==> s.pending != {})
  }

  /** The last loop was cut short by a throwing error listener. */
  predicate CutShort(s: Account) {
    s.ended != [] && s.ended[|s.ended| - 1].Died?
  }

  /** Without a running round, nobody waits unless a reason is pending or the last loop was cut short. */
  predicate Awake(s: Account) {
    && (s.disposed ==> s.book.waiters == [])
    && (s.loop.NoLoop? && !s.disposed ==> s.pending == {})
    && (!Running(s.loop) && s.pending == {} && s.book.waiters != [] ==> CutShort(s))
    && (s.loop.TellingChange? && s.pending == {} ==> s.book.waiters == [])
    && (s.loop.Ended? ==> s.ended != [])
  }

  predicate Known(s: Account) {
    && (!s.loop.NoLoop? ==> s.latest == s.snapshot)
    && (s.loop.TellingChange? ==> s.snapshot.Some?)
    && (s.loop.Ended? && s.ended != [] && s.ended[|s.ended| - 1].Returned? ==> s.snapshot == Some(s.ended[|s.ended| - 1].value))
  }

  ghost predicate Inv(s: Account) {
    WellKept(s.book) && RoundKnows(s) && Awake(s) && Known(s)
  }

  /** At the head of the loop: everyone was answered unless a reason is pending. */
  ghost predicate AtHead(s: Account) {
    && WellKept(s.book) && s.latest == s.snapshot
    && (s.disposed || s.pending == {} ==> s.book.waiters == [])
  }

  lemma HeadKeeps(s: Account)
    requires AtHead(s)
    ensures Inv(LoopHead(s))
  {
    if s.pending != {} {
      BeginKeeps(s.book);
    }
  }

  lemma AnswerKeeps(s: Account, outcome: Outcome<Overlay>)
    requires WellKept(s.book) && Running(s.loop) && RoundKnows(s) && !outcome.GivenUp?
    ensures var t := Answer(s, s.loop.round, outcome);
      WellKept(t.book) && (s.pending == {} || s.book.waiters == [] ==> t.book.waiters == [])
  {
    SettleKeeps(s.book, s.loop.round.generation, outcome);
  }

  lemma ConcludeKeeps(s: Account, current: ProviderConfig)
    requires Inv(s) && s.loop.AwaitConfigAgain? && !s.disposed
    ensures Inv(Conclude(s, s.loop.round, s.loop.config, s.loop.content, current))
  {
    hide WellKept;
    var r, config := s.loop.round, s.loop.config;
    var next := Overlay(config.builtin, s.loop.content);
    if s.pending != {} || current.builtin != config.builtin {
      var t := s.(pending := s.pending + {"superseded-resolution"});
      assert "superseded-resolution" in t.pending;
      HeadKeeps(t);
    } else if s.latest == Some(next) {
      AnswerKeeps(s, Resolved(next));
      HeadKeeps(Answer(s, r, Resolved(next)));
    } else {
      var p := s.(latest := Some(next), snapshot := Some(next));
      AnswerKeeps(p, Resolved(next));
      if s.latest.None? {
        HeadKeeps(Publish(s, r, next));
      }
    }
  }

  lemma AfterErrorKeeps(s: Account, threw: bool)
    requires Inv(s) && s.loop.TellingError?
    ensures Inv(AfterError(s, s.loop.round, s.loop.read, threw))
  {
    hide WellKept;
    var r, read := s.loop.round, s.loop.read;
    if !threw {
      if s.latest.None? && read.Some? {
        var next := Overlay(read.value.builtin, read.value.unentitled);
        AnswerKeeps(s.(latest := Some(next), snapshot := Some(next)), Resolved(next));
        HeadKeeps(Publish(s, r, next));
      } else {
        AnswerKeeps(s, Rejected);
      }
    }
  }

  lemma RequestKeeps(s: Account, reason: string)
    requires Inv(s) && !s.disposed
    ensures Inv(Requested(s, reason))
  {
    AskKeeps(s.book);
    var asked := s.(started := true, pending := s.pending + {reason}, book := Ask(s.book));
    assert reason in asked.pending;
    if s.loop.NoLoop? {
      HeadKeeps(asked.(latest := s.snapshot));
    }
  }

  /** Every step keeps the invariant, whatever the sources answer, whenever requests come, and whichever
      listeners throw. */
  lemma StepKeeps(s: Account, step: Step)
    requires Inv(s) && Enabled(s, step)
    ensures Inv(Apply(s, step))
  {
    hide WellKept, Ask, LoopHead, Conclude, AfterError, Requested;
    match step
    case Request(reason) => RequestKeeps(s, reason);
    case ConfigRead(_) =>
    case AccountResolved(_) =>
    case ConfigReadAgain(current) => if current.Some? && !s.disposed { ConcludeKeeps(s, current.value); }
    case ErrorTold(threw) => AfterErrorKeeps(s, threw);
    case ChangeTold(threw) => ToldKeeps(s);
    case FinishRefresh => if !s.disposed && s.pending != {} { HeadKeeps(s.(loop := NoLoop, latest := s.snapshot)); }
    case Dispose => if !s.disposed { SettleKeeps(s.book, s.book.requested, GivenUp); }
  }

  /** While change listeners run, everyone the round answers has been answered. */
  lemma ToldKeeps(s: Account)
    requires Inv(s) && s.loop.TellingChange?
    ensures Inv(LoopHead(s))
  {
    HeadKeeps(s);
  }

  // ---------- Runs ----------

  ghost predicate Run(s: Account, steps: seq<Step>, t: Account)
    decreases |steps|
  {
    if steps == [] then s == t else Enabled(s, steps[0]) && Run(Apply(s, steps[0]), steps[1..], t)
  }

  lemma {:induction false} RunKeeps(s: Account, steps: seq<Step>, t: Account)
    requires Inv(s) && Run(s, steps, t)
    ensures Inv(t)
    decreases |steps|
  {
    if steps != [] {
      StepKeeps(s, steps[0]);
      RunKeeps(Apply(s, steps[0]), steps[1..], t);
    }
  }

  /** Each refresh promise is settled at most once, and by a round that started after the request unless the
      service was disposed: a round that was already running can neither resolve nor reject it. */
  lemma RefreshIsAnsweredByALaterRound(steps: seq<Step>, t: Account, i: nat)
    requires Run(INITIAL, steps, t) && i < |t.book.settled|
    ensures var x := t.book.settled[i];
      && 1 <= x.generation <= t.book.requested == |t.book.asked|
      && (!x.outcome.GivenUp? ==> t.book.asked[x.generation - 1] < x.round <= t.book.rounds)
      && x.generation !in t.book.waiters
      && (forall j :: 0 <= j < |t.book.settled| && j != i ==> t.book.settled[j].generation != x.generation)
  {
    RunKeeps(INITIAL, steps, t);
    assert FreshAnswer(t.book, t.book.settled[i]);
  }

  /** Someone waits, but no round runs and none will start by itself. */
  predicate Stranded(s: Account) {
    !Running(s.loop) && s.pending == {} && s.book.waiters != []
  }

  /** An unsettled refresh has a running round that answers it, or a reason is pending that starts the next
      one; after a loop that was cut short by a throwing error listener this may fail. */
  lemma AWaiterIsNotForgotten(steps: seq<Step>, t: Account, w: nat)
    requires Run(INITIAL, steps, t) && w in t.book.waiters
    ensures !t.disposed
    ensures (Running(t.loop) && w <= t.loop.round.generation) || (t.pending != {} && !t.loop.NoLoop?) || (Stranded(t) && CutShort(t))
  {
    RunKeeps(INITIAL, steps, t);
  }

  /** Exactly this strands someone: an error listener throws while nothing new is pending. */
  lemma StrandedWhen(steps: seq<Step>, t: Account, step: Step)
    requires Run(INITIAL, steps, t) && Enabled(t, step) && !Stranded(t)
    ensures Stranded(Apply(t, step)) <==> step == ErrorTold(true) && t.pending == {} && t.book.waiters != []
  {
    hide WellKept, Settle, Ask, Apply, Inv;
    RunKeeps(INITIAL, steps, t);
    if step.ErrorTold? { StrandedByError(t, step.threw); } else { NotStrandedOtherwise(t, step); }
  }

  lemma StrandedByError(t: Account, threw: bool)
    requires Inv(t) && t.loop.TellingError?
    ensures Stranded(Apply(t, ErrorTold(threw))) <==> threw && t.pending == {} && t.book.waiters != []
  {
    hide WellKept, Settle;
    AfterErrorKeeps(t, threw);
  }

  lemma NotStrandedOtherwise(t: Account, step: Step)
    requires Inv(t) && Enabled(t, step) && !step.ErrorTold? && !Stranded(t)
    ensures !Stranded(Apply(t, step))
  {
    hide WellKept, Settle, Ask;
    StepKeeps(t, step);
    if step.Request? {
      assert step.reason in t.pending + {step.reason};
    }
  }

  lemma AThrowingListenerStrands() returns (t: Account)
    ensures Run(INITIAL, [Request("start"), ConfigRead(None), ErrorTold(true), FinishRefresh], t)
    ensures t.loop.NoLoop? && t.pending == {} && t.book.waiters == [1]
  {
    var steps := [Request("start"), ConfigRead(None), ErrorTold(true), FinishRefresh];
    var a := Apply(INITIAL, steps[0]);
    assert "start" in INITIAL.pending + {"start"};
    var b := Apply(a, steps[1]);
    var c := Apply(b, steps[2]);
    t := Apply(c, steps[3]);
    assert steps[1..][1..] == steps[2..] && steps[2..][1..] == steps[3..] && steps[3..][1..] == [];
    assert Run(c, steps[3..], t);
    assert Run(b, steps[2..], t);
    assert Run(a, steps[1..], t);
  }

  /** A round concludes with something new: nothing is pending, and its second read finds the built-in revision
      it resolved for. */
  predicate Concludes(s: Account, step: Step) {
    && step.ConfigReadAgain? && step.current.Some? && s.loop.AwaitConfigAgain? && !s.disposed
    && s.pending == {} && step.current.value.builtin == s.loop.config.builtin
    && s.snapshot != Some(Overlay(s.loop.config.builtin, s.loop.content))
  }

  /** The fail-closed snapshot stands in for a round that failed before there was any snapshot. */
  predicate FailsClosed(s: Account, step: Step) {
    step == ErrorTold(false) && s.loop.TellingError? && s.snapshot.None? && s.loop.read.Some?
  }

  lemma PublishesWhen(s: Account, step: Step)
    requires Inv(s) && Enabled(s, step)
    ensures Apply(s, step).snapshot != s.snapshot <==> Concludes(s, step) || FailsClosed(s, step)
    ensures Concludes(s, step) ==>
      Apply(s, step).snapshot == Some(Overlay(step.current.value.builtin, s.loop.content))
    ensures FailsClosed(s, step) ==>
      Apply(s, step).snapshot == Some(Overlay(s.loop.read.value.builtin, s.loop.read.value.unentitled))
  {
    hide WellKept, Settle, Ask;
  }

  /** Exactly these two steps publish. A conclusion is based on the built-in revision of the round's second read,
      with no newer request pending. The fail-closed snapshot is based on the first read, and is what is published
      over a pending request, exactly if there is one. */
  lemma OnlyFreshIsPublished(steps: seq<Step>, s: Account, step: Step)
    requires Run(INITIAL, steps, s) && Enabled(s, step)
    ensures Apply(s, step).snapshot != s.snapshot <==> Concludes(s, step) || FailsClosed(s, step)
    ensures Concludes(s, step) ==>
      Apply(s, step).snapshot == Some(Overlay(step.current.value.builtin, s.loop.content))
    ensures FailsClosed(s, step) ==>
      Apply(s, step).snapshot == Some(Overlay(s.loop.read.value.builtin, s.loop.read.value.unentitled))
    ensures s.pending != {} ==> (Apply(s, step).snapshot != s.snapshot <==> FailsClosed(s, step))
  {
    hide Inv, Apply;
    RunKeeps(INITIAL, steps, s);
    PublishesWhen(s, step);
  }

  // ---------- What a round tells ----------

  /** A round concludes with what is known already. */
  predicate Confirms(s: Account, step: Step) {
    && step.ConfigReadAgain? && step.current.Some? && s.loop.AwaitConfigAgain? && !s.disposed
    && s.pending == {} && step.current.value.builtin == s.loop.config.builtin
    && s.snapshot == Some(Overlay(s.loop.config.builtin, s.loop.content))
  }

  /** The result of a round is dropped: something is pending, or the built-in configuration changed meanwhile. */
  predicate Superseded(s: Account, step: Step) {
    && step.ConfigReadAgain? && step.current.Some? && s.loop.AwaitConfigAgain? && !s.disposed
    && (s.pending != {} || step.current.value.builtin != s.loop.config.builtin)
  }

  /** A round fails for good: there is a snapshot to keep, or not even the configuration could be read. */
  predicate FailsOpenly(s: Account, step: Step) {
    step == ErrorTold(false) && s.loop.TellingError? && (s.snapshot.Some? || s.loop.read.None?)
  }

  /** Nobody is told anything. */
  ghost predicate NobodyTold(s: Account, t: Account) {
    t.book.settled == s.book.settled && forall w :: w in s.book.waiters ==> w in t.book.waiters
  }

  /** How the promises of a round end. A round that concludes, with something new or with what is known, resolves
      them with the overlay of its own reads; one that fails before there was any snapshot, with the overlay that
      grants nothing; any other failing round rejects them; dispose gives up on all. A step that does none of this
      tells nobody anything, and each of these tells exactly the waiters the round knows of. */
  ghost predicate AnswersAre(s: Account, step: Step, t: Account) {
    && (Confirms(s, step) || Concludes(s, step) ==>
          Told(s.book, t.book, s.loop.round.generation, Resolved(Overlay(step.current.value.builtin, s.loop.content))))
    && (FailsClosed(s, step) ==>
          Told(s.book, t.book, s.loop.round.generation,
               Resolved(Overlay(s.loop.read.value.builtin, s.loop.read.value.unentitled))))
    && (FailsOpenly(s, step) ==> Told(s.book, t.book, s.loop.round.generation, Rejected))
    && (step.Dispose? ==> Told(s.book, t.book, s.book.requested, GivenUp))
    && (!Confirms(s, step) && !Concludes(s, step) && !FailsClosed(s, step) && !FailsOpenly(s, step) && !step.Dispose? ==>
          NobodyTold(s, t))
  }

  lemma AnswersAreExact(s: Account, step: Step)
    requires Inv(s) && Enabled(s, step)
    ensures AnswersAre(s, step, Apply(s, step))
  {
    hide WellKept, Settle, Told;
    var b, r := s.book, if Running(s.loop) then s.loop.round else Round(0, {});
    if Confirms(s, step) || Concludes(s, step) {
      var next := Overlay(s.loop.config.builtin, s.loop.content);
      SettleTells(b, r.generation, Resolved(next));
      ToldThenBegun(b, Settle(b, r.generation, Resolved(next)), r.generation, Resolved(next));
    } else if FailsClosed(s, step) {
      var next := Overlay(s.loop.read.value.builtin, s.loop.read.value.unentitled);
      SettleTells(b, r.generation, Resolved(next));
      ToldThenBegun(b, Settle(b, r.generation, Resolved(next)), r.generation, Resolved(next));
    } else if FailsOpenly(s, step) {
      SettleTells(b, r.generation, Rejected);
    } else if step.Dispose? {
      SettleTells(b, b.requested, GivenUp);
      if s.disposed {
        NobodyLeft(s);
      }
    }
  }

  /** A disposed service has no waiter left to give up on. */
  lemma NobodyLeft(s: Account)
    requires Inv(s) && s.disposed
    ensures Told(s.book, s.book, s.book.requested, GivenUp)
  {
  }

  /** In every run: see AnswersAre. */
  lemma PromisesEndAsTheRoundDoes(steps: seq<Step>, s: Account, step: Step)
    requires Run(INITIAL, steps, s) && Enabled(s, step)
    ensures AnswersAre(s, step, Apply(s, step))
  {
    hide Inv, Apply;
    RunKeeps(INITIAL, steps, s);
    AnswersAreExact(s, step);
  }

  /** In every run, a settlement made by a step is of the one kind that step can make. */
  lemma OutcomesOfAStep(steps: seq<Step>, s: Account, step: Step, i: nat)
    requires Run(INITIAL, steps, s) && Enabled(s, step)
    requires |s.book.settled| <= i < |Apply(s, step).book.settled|
    ensures var x := Apply(s, step).book.settled[i];
      && x.generation in s.book.waiters && x.round == s.book.rounds
      && (x.outcome.Resolved? <==> Confirms(s, step) || Concludes(s, step) || FailsClosed(s, step))
      && (x.outcome.Rejected? <==> FailsOpenly(s, step))
      && (x.outcome.GivenUp? <==> step.Dispose?)
  {
    hide Inv, Apply;
    PromisesEndAsTheRoundDoes(steps, s, step);
  }

  /** Calls from outside, which may come at any time. */
  predicate FromOutside(steps: seq<Step>) { forall step :: step in steps ==> step.Request? || step.Dispose? }

  lemma {:induction false} OutsideLeavesTheRound(s: Account, steps: seq<Step>, t: Account)
    requires Run(s, steps, t) && FromOutside(steps) && Running(s.loop)
    ensures t.loop == s.loop && (s.disposed ==> t.disposed)
    decreases |steps|
  {
    hide Settle, Ask;
    if steps != [] {
      assert steps[0] in steps && forall step :: step in steps[1..] ==> step in steps;
      OutsideLeavesTheRound(Apply(s, steps[0]), steps[1..], t);
    }
  }

  /** A round that reads a configuration, resolves the account for it and reads again concludes with these very reads,
      whatever is called in between. */
  lemma ARoundKeepsItsReads(s: Account, config: ProviderConfig, first: seq<Step>, a: Account, content: string,
          second: seq<Step>, t: Account)
    requires Enabled(s, ConfigRead(Some(config))) && Run(Apply(s, ConfigRead(Some(config))), first, a) && FromOutside(first)
    requires Enabled(a, AccountResolved(Some(content))) && Run(Apply(a, AccountResolved(Some(content))), second, t)
      && FromOutside(second)
    ensures t.loop == if a.disposed then TellingError(s.loop.round, Some(config)) else AwaitConfigAgain(s.loop.round, config, content)
  {
    OutsideLeavesTheRound(Apply(s, ConfigRead(Some(config))), first, a);
    OutsideLeavesTheRound(Apply(a, AccountResolved(Some(content))), second, t);
  }

  /** What a step adds to the reasons of the next round. */
  function Adds(s: Account, step: Step): set<string> {
    if step.Request? then {step.reason} else if Superseded(s, step) then {"superseded-resolution"} else {}
  }

  /** A round begins when one is superseded, when one ends over a pending reason, and with a request while none runs. */
  predicate BeginsARound(s: Account, step: Step) {
    || Superseded(s, step) || (step.Request? && s.loop.NoLoop?)
    || (s.pending != {} && (FailsClosed(s, step) || step == ChangeTold(false) || (step.FinishRefresh? && !s.disposed)))
  }

  /** A beginning round is given all reasons and answers all requests made so far; otherwise the reasons stay pending. */
  predicate ReasonsKept(s: Account, step: Step, t: Account) {
    if BeginsARound(s, step) then
      && t.book.rounds == s.book.rounds + 1 && t.pending == {}
      && t.loop == AwaitConfig(Round(t.book.requested, s.pending + Adds(s, step)))
    else t.book.rounds == s.book.rounds && t.pending == s.pending + Adds(s, step)
  }

  lemma ReadingKeepsReasons(s: Account, step: Step)
    requires Inv(s) && Enabled(s, step) && step.ConfigReadAgain?
    ensures ReasonsKept(s, step, Apply(s, step))
  {
    hide WellKept, Newer, Answered, Ask;
    if Superseded(s, step) {
      assert "superseded-resolution" in s.pending + {"superseded-resolution"};
    }
  }

  lemma OthersKeepReasons(s: Account, step: Step)
    requires Inv(s) && Enabled(s, step) && !step.ConfigReadAgain?
    ensures ReasonsKept(s, step, Apply(s, step))
  {
    hide WellKept, Newer, Answered;
    if step.Request? {
      assert step.reason in s.pending + {step.reason};
    }
  }

  /** In every run no reason is lost: each is pending until a round begins that is given it. */
  lemma ReasonsReachARound(steps: seq<Step>, s: Account, step: Step)
    requires Run(INITIAL, steps, s) && Enabled(s, step)
    ensures ReasonsKept(s, step, Apply(s, step))
  {
    hide Inv, Apply;
    RunKeeps(INITIAL, steps, s);
    if step.ConfigReadAgain? { ReadingKeepsReasons(s, step); } else { OthersKeepReasons(s, step); }
  }

  /** How a loop ends, in every run: it dies with a throwing error listener, fails with a round that fails openly, and
      otherwise returns the snapshot, once no reason is pending. */
  lemma LoopsEndWhen(steps: seq<Step>, s: Account, step: Step)
    requires Run(INITIAL, steps, s) && Enabled(s, step)
    ensures var t := Apply(s, step);
      && (step == ErrorTold(true) ==> t.ended == s.ended + [Died])
      && (FailsOpenly(s, step) ==> t.ended == s.ended + [LoopEnd.Failed])
      && (if Confirms(s, step) || (Concludes(s, step) && s.snapshot.None?)
            || (s.pending == {} && (FailsClosed(s, step) || step == ChangeTold(false)))
          then t.snapshot.Some? && t.ended == s.ended + [Returned(t.snapshot.value)]
          else step == ErrorTold(true) || FailsOpenly(s, step) || t.ended == s.ended)
      && (t.ended != s.ended ==> t.loop.Ended?)
  {
    hide WellKept, Settle, Ask;
    RunKeeps(INITIAL, steps, s);
    if step.Request? {
      assert step.reason in s.pending + {step.reason};
    } else if Superseded(s, step) {
      assert "superseded-resolution" in s.pending + {"superseded-resolution"};
    }
  }

  /** Change listeners hear of a conclusion exactly when it replaces a snapshot; error listeners of a failed read, a
      failed resolution, an answer that comes after dispose, and a throwing change listener, and of nothing else. */
  lemma ListenersHearWhen(steps: seq<Step>, s: Account, step: Step)
    requires Run(INITIAL, steps, s) && Enabled(s, step)
    ensures Apply(s, step).loop.TellingChange? <==>
      (Concludes(s, step) && s.snapshot.Some?) || (s.loop.TellingChange? && !step.ChangeTold?)
    ensures Apply(s, step).loop.TellingError? <==>
      || step == ConfigRead(None)
      || (step.AccountResolved? && (s.disposed || step.content.None?))
      || (step.ConfigReadAgain? && (s.disposed || step.current.None?))
      || step == ChangeTold(true)
      || (s.loop.TellingError? && !step.ErrorTold?)
  {
    hide WellKept, Settle, Ask;
    RunKeeps(INITIAL, steps, s);
  }

  lemma FailClosedIgnoresPending(c: ProviderConfig) returns (s: Account)
    ensures Run(INITIAL, [Request("start"), ConfigRead(Some(c)), Request("login"), AccountResolved(None)], s)
    ensures Enabled(s, ErrorTold(false)) && s.pending == {"login"}
    ensures Apply(s, ErrorTold(false)).snapshot == Some(Overlay(c.builtin, c.unentitled))
  {
    var steps := [Request("start"), ConfigRead(Some(c)), Request("login"), AccountResolved(None)];
    assert "start" in INITIAL.pending + {"start"};
    var a := Apply(INITIAL, steps[0]);
    var b := Apply(a, steps[1]);
    var d := Apply(b, steps[2]);
    s := Apply(d, steps[3]);
    assert steps[1..][1..] == steps[2..] && steps[2..][1..] == steps[3..] && steps[3..][1..] == [];
    assert Run(d, steps[3..], s);
    assert Run(b, steps[2..], s);
    assert Run(a, steps[1..], s);
  }
}
