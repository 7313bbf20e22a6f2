/** The two refresh services over one config source, under every interleaving of config changes, event
    deliveries, reads, resolver answers and requests from outside. Neither service is disposed here. */
module RefreshSystem {
  import opened Wrappers
  import opened RefreshWaiters
  import opened AccountRefresh
  import opened RegistryRefresh

  /** The registry's read of the account source: a value, the promise of account loop number index, or that
      of account request number generation. */
  datatype Reading = Known(overlay: Overlay) | OfLoop(index: nat) | OfRequest(generation: nat)

  datatype System = System(
    // Every state the config source was in; the last one is current.
    configs: seq<ProviderConfig>,
    account: Account,
    registry: Registry,
    // A change happened that the service has not been told about.
    accountDue: bool,
    registryDue: bool,
    // The account service is telling its listeners of a change, and the registry is not told yet.
    changeDue: bool,
    // Since the registry was last asked for anything, a change listener of the account service threw before the
    // registry was told.
    missed: bool,
    // Where in configs the reads in progress began, and the account round did.
    accountFrom: nat,
    roundFrom: nat,
    registryFrom: nat,
    reading: Reading)

  function Start(config: ProviderConfig): System {
    System([config], INITIAL, FRESH_REGISTRY, false, false, false, false, 0, 0, 0, OfLoop(0))
  }

  function Current(y: System): ProviderConfig
    requires y.configs != []
  {
    y.configs[|y.configs| - 1]
  }

  /** A read that began at configs[from] may see the two parts of the config at different moments. */
  ghost predicate Readable(y: System, from: nat, c: ProviderConfig) {
    exists i, j :: from <= i < |y.configs| && from <= j < |y.configs| &&
      c == ProviderConfig(y.configs[i].builtin, y.configs[j].personal, c.unentitled)
  }

  /** What the registry's read of the account source yields. */
  ghost predicate Yields(y: System, o: Overlay) {
    match y.reading
    case Known(overlay) => o == overlay
    case OfLoop(k) => k < |y.account.ended| && y.account.ended[k] == Returned(o)
    case OfRequest(g) => exists i :: 0 <= i < |y.account.book.settled| && y.account.book.settled[i].generation == g
                                     && y.account.book.settled[i].outcome == Resolved(o)
  }

  // ---------- Steps ----------

  datatype Action =
    | Change(config: ProviderConfig)
    | TellAccount(reason: string)
    | TellRegistry(reason: string)
    | TellChange(reason: string)
    | AccountDoes(step: Step)
    | AccountRead
    | RegistryDoes(does: RegistryStep)

  ghost predicate May(y: System, action: Action) {
    && y.configs != [] && !y.account.disposed && !y.registry.disposed
    && match action
       case Change(_) => true
       case TellAccount(_) => y.account.started
       case TellRegistry(_) => y.registry.started
       case TellChange(_) => y.changeDue && y.registry.started
       case AccountDoes(step) =>
         && Enabled(y.account, step) && !step.Dispose?
         && (step.ConfigRead? && step.config.Some? ==> Readable(y, y.accountFrom, step.config.value))
         && (step.ConfigReadAgain? && step.current.Some? ==> Readable(y, y.accountFrom, step.current.value))
         // All change listeners have been called when the call to them returns.
         && (step == ChangeTold(false) ==> !y.changeDue)
       case AccountRead => true
       case RegistryDoes(does) =>
         && Allowed(y.registry, does) && !does.DisposeRegistry?
         && (does.SourcesRead? ==> Readable(y, y.registryFrom, does.config) && Yields(y, does.account))
  }

  /** What read() of the account service gives its caller. */
  function Handle(a: Account): Reading {
    if a.snapshot.Some? then Known(a.snapshot.value)
    else if !a.loop.NoLoop? then OfLoop(if a.loop.Ended? && a.ended != [] then |a.ended| - 1 else |a.ended|)
    else OfRequest(a.book.requested + 1)
  }

  /** What read() does to the account service. */
  function AfterRead(a: Account): Account {
    if a.snapshot.Some? || !a.loop.NoLoop? then a else AccountRefresh.Requested(a, "start")
  }

  /** The account service moved from y.account to a. */
  function AccountMoves(y: System, a: Account): System
    requires y.configs != []
  {
    var begins := a.book.rounds > y.account.book.rounds || (a.loop.AwaitConfigAgain? && !y.account.loop.AwaitConfigAgain?);
    var tells := a.loop.TellingChange? && !y.account.loop.TellingChange?;
    y.(account := a,
       accountFrom := if begins then |y.configs| - 1 else y.accountFrom,
       roundFrom := if a.book.rounds > y.account.book.rounds then |y.configs| - 1 else y.roundFrom,
       changeDue := if tells then y.registry.started else y.changeDue)
  }

  /** The registry moved to r; a round that begins reads both sources. */
  function RegistryMoves(y: System, r: Registry): System
    requires y.configs != []
  {
    var t := y.(registry := r);
    if r.book.rounds > y.registry.book.rounds then
      AccountMoves(t, AfterRead(y.account)).(registryFrom := |y.configs| - 1, reading := Handle(y.account))
    else t
  }

  function Act(y: System, action: Action): System
    requires May(y, action)
  {
    match action
    case Change(config) =>
      y.(configs := y.configs + [config], accountDue := y.account.started, registryDue := y.registry.started)
    case TellAccount(reason) => AccountMoves(y.(accountDue := false), Apply(y.account, Request(reason)))
    case TellRegistry(reason) => RegistryMoves(y.(registryDue := false, missed := false), Next(y.registry, AskRefresh(reason)))
    case TellChange(reason) => RegistryMoves(y.(changeDue := false, missed := false), Next(y.registry, AskRefresh(reason)))
    case AccountDoes(step) =>
      var t := AccountMoves(y, Apply(y.account, step));
      // A throwing listener ends the calls to the ones after it.
      if step == ChangeTold(true) then t.(missed := y.missed || y.changeDue, changeDue := false) else t
    case AccountRead => AccountMoves(y, AfterRead(y.account))
    case RegistryDoes(does) => RegistryMoves(y.(missed := y.missed && !does.AskRefresh?), Next(y.registry, does))
  }

  // ---------- The account side ----------

  predicate About(snapshot: Option<Overlay>, builtin: string) {
    snapshot.Some? && snapshot.value.basedOn == builtin
  }

  /** Unless it is due to be told of a change or has a reason pending, what the account service holds is about
      the current built-in revision; here a read in progress began at from, and last is where the config is now. */
  predicate AccountClaim(a: Account, due: bool, from: nat, last: nat, builtin: string) {
    due || a.pending != {} ||
    match a.loop
    case NoLoop => CutOrFailed(a) || About(a.snapshot, builtin)
    case AwaitConfig(_) => from == last
    case AwaitAccount(_, config) => config.builtin == builtin
    case AwaitConfigAgain(_, config, _) => from == last && config.builtin == builtin
    case TellingError(_, read) => read.Some? ==> read.value.builtin == builtin
    case TellingChange(_, config) => config.builtin == builtin && About(a.snapshot, builtin)
    case Ended => CutOrFailed(a) || About(a.snapshot, builtin)
  }

  /** No loop ended yet, or the last one ended without a result. */
  predicate CutOrFailed(a: Account) {
    a.ended == [] || !a.ended[|a.ended| - 1].Returned?
  }

  lemma RequestClaims(a: Account, reason: string, due: bool, from: nat, last: nat, builtin: string)
    requires Inv(a)
    requires AccountRefresh.Requested(a, reason).book.rounds > a.book.rounds ==> from == last
    ensures AccountClaim(AccountRefresh.Requested(a, reason), due, from, last, builtin)
  {
    assert reason in a.pending + {reason};
  }

  /** One step of the account service, which may begin a read of its own (from2). */
  lemma StepClaims(a: Account, step: Step, due: bool, from: nat, from2: nat, last: nat, builtin: string)
    requires Inv(a) && Enabled(a, step) && !step.Dispose? && !a.disposed && AccountClaim(a, due, from, last, builtin)
    requires step.ConfigRead? && step.config.Some? && from == last ==> step.config.value.builtin == builtin
    requires step.ConfigReadAgain? && step.current.Some? && from == last ==> step.current.value.builtin == builtin
    requires var t := Apply(a, step);
      from2 == if t.book.rounds > a.book.rounds || (t.loop.AwaitConfigAgain? && !a.loop.AwaitConfigAgain?) then last else from
    ensures AccountClaim(Apply(a, step), due, from2, last, builtin)
  {
    hide WellKept, Settle;
    match step
    case Request(reason) => RequestClaims(a, reason, due, from2, last, builtin);
    case ConfigReadAgain(current) =>
      if current.Some? { ConcludeClaims(a, current.value, due, from, from2, last, builtin); }
    case ErrorTold(threw) => ErrorClaims(a, threw, due, from, from2, last, builtin);
    case FinishRefresh =>
    case _ =>
  }

  lemma ConcludeClaims(a: Account, current: ProviderConfig, due: bool, from: nat, from2: nat, last: nat,
          builtin: string)
    requires Inv(a) && a.loop.AwaitConfigAgain? && !a.disposed && AccountClaim(a, due, from, last, builtin)
    requires from == last ==> current.builtin == builtin
    requires var t := Apply(a, ConfigReadAgain(Some(current))); t.book.rounds > a.book.rounds ==> from2 == last
    ensures AccountClaim(Apply(a, ConfigReadAgain(Some(current))), due, from2, last, builtin)
  {
    hide WellKept, Settle;
    assert "superseded-resolution" in a.pending + {"superseded-resolution"};
  }

  lemma ErrorClaims(a: Account, threw: bool, due: bool, from: nat, from2: nat, last: nat, builtin: string)
    requires Inv(a) && a.loop.TellingError? && AccountClaim(a, due, from, last, builtin)
    requires Apply(a, ErrorTold(threw)).book.rounds > a.book.rounds ==> from2 == last
    ensures AccountClaim(Apply(a, ErrorTold(threw)), due, from2, last, builtin)
  {
    hide WellKept;
  }

  // ---------- The registry side ----------

  /** Once the registry's read of the account source has a value, it is the account's snapshot. */
  ghost predicate ReadingIsCurrent(a: Account, reading: Reading) {
    match reading
    case Known(o) => a.snapshot == Some(o)
    case OfLoop(k) => k < |a.ended| && a.ended[k].Returned? ==> a.snapshot == Some(a.ended[k].value)
    case OfRequest(g) =>
      forall i {:trigger a.book.settled[i]} :: 0 <= i < |a.book.settled| ==>
        a.book.settled[i].generation == g && a.book.settled[i].outcome.Resolved? ==> a.snapshot == Some(a.book.settled[i].outcome.value)
  }

  /** The promise the registry holds is one the account service gave out. */
  predicate ReadingExists(a: Account, reading: Reading) {
    match reading
    case Known(_) => a.snapshot.Some?
    case OfLoop(k) => k < |a.ended| || (k == |a.ended| && Running(a.loop))
    case OfRequest(g) => 1 <= g <= a.book.requested
  }

  predicate Now(c: ProviderConfig, current: ProviderConfig) {
    c.builtin == current.builtin && c.personal == current.personal
  }

  /** Unless the registry has requests to complete, its last round saw each source as it is now, or a change of it
      is to come. told: a config change is due; hidden: an account change is due or was missed. */
  predicate VerdictClaim(r: Registry, told: bool, hidden: bool, current: ProviderConfig, snapshot: Option<Overlay>) {
    r.completed < r.book.requested ||
    match r.verdict
    case NoVerdict => true
    case Errored => true
    case Mismatch(p) => (told || Now(p.config, current)) && (hidden || snapshot == Some(p.account))
    case Paired(p) => (told || Now(p.config, current)) && (hidden || snapshot == Some(p.account))
  }

  /** The same for the reads of a running round. */
  predicate RoundClaim(r: Registry, told: bool, hidden: bool, from: nat, last: nat, readingIsCurrent: bool) {
    r.loop.AwaitSources? && r.loop.generation == r.book.requested ==>
      (told || from == last) && (hidden || readingIsCurrent)
  }

  predicate VerdictIsTrue(r: Registry) {
    match r.verdict
    case Mismatch(p) => !Pair(p)
    case Paired(p) => r.snapshot.Some? && SameRevisions(r.snapshot.value, p.config, p.account)
    case _ => true
  }

  /** A step of the registry. A round it begins has fresh reads (from2, fresh2). */
  lemma NextClaims(r: Registry, step: RegistryStep, told: bool, hidden: bool, from: nat, from2: nat, last: nat,
                   isCurrent: bool, isCurrent2: bool, current: ProviderConfig, snapshot: Option<Overlay>)
    requires RegistryInv(r) && Allowed(r, step) && !r.disposed && !step.DisposeRegistry?
    requires VerdictIsTrue(r) && VerdictClaim(r, told, hidden, current, snapshot)
      && RoundClaim(r, told, hidden, from, last, isCurrent)
    requires step.SourcesRead? && (told || from == last) ==> told || Now(step.config, current)
    requires step.SourcesRead? && (hidden || isCurrent) ==> hidden || snapshot == Some(step.account)
    requires Next(r, step).book.rounds > r.book.rounds ==> from2 == last && isCurrent2
    requires Next(r, step).book.rounds == r.book.rounds ==> from2 == from && isCurrent2 == isCurrent
    ensures VerdictIsTrue(Next(r, step)) && VerdictClaim(Next(r, step), told, hidden, current, snapshot)
    ensures RoundClaim(Next(r, step), told, hidden, from2, last, isCurrent2)
  {
    hide WellKept, Leftovers;
    if step.SourcesRead? {
      SourcesClaims(r, step, told, hidden, current, snapshot);
    }
  }

  lemma SourcesClaims(r: Registry, step: RegistryStep, told: bool, hidden: bool, current: ProviderConfig,
          snapshot: Option<Overlay>)
    requires RegistryInv(r) && r.loop.AwaitSources? && step.SourcesRead? && !r.disposed
    requires VerdictIsTrue(r)
    requires r.loop.generation == r.book.requested ==>
      (told || Now(step.config, current)) && (hidden || snapshot == Some(step.account))
    ensures VerdictIsTrue(Next(r, step)) && VerdictClaim(Next(r, step), told, hidden, current, snapshot)
    ensures Next(r, step).loop.AwaitSources? ==> Next(r, step).book.rounds > r.book.rounds
  {
    hide WellKept, Leftovers;
  }

  /** A request made to the registry: whatever is due is covered by the request. */
  lemma AskClaims(r: Registry, reason: string, told: bool, hidden: bool, from: nat, last: nat, isCurrent: bool,
                  current: ProviderConfig, snapshot: Option<Overlay>)
    requires RegistryInv(r) && !r.disposed && VerdictIsTrue(r)
    requires Next(r, AskRefresh(reason)).book.rounds > r.book.rounds ==> from == last && isCurrent
    ensures var t := Next(r, AskRefresh(reason));
      VerdictIsTrue(t) && VerdictClaim(t, told, hidden, current, snapshot) && RoundClaim(t, told, hidden, from, last, isCurrent)
  {
  }

  // ---------- The registry's read of the account source ----------

  /** A step changes the snapshot silently only if there was none. */
  lemma SnapshotMoves(a: Account, step: Step)
    requires Inv(a) && Enabled(a, step)
    ensures var t := Apply(a, step);
      t.snapshot == a.snapshot || a.snapshot.None? || (t.loop.TellingChange? && !a.loop.TellingChange?)
    ensures Apply(a, step).snapshot.None? ==> a.snapshot.None?
  {
    hide WellKept, Settle;
  }

  /** What is resolved in a step is resolved with the snapshot of the time. */
  lemma ResolvedWithSnapshot(a: Account, step: Step, i: nat)
    requires Inv(a) && Enabled(a, step) && !step.Dispose?
    requires |a.book.settled| <= i < |Apply(a, step).book.settled|
    ensures var t := Apply(a, step); var x := t.book.settled[i];
      x.outcome.Resolved? ==> t.snapshot == Some(x.outcome.value)
  {
    hide WellKept;
    var t := Apply(a, step);
    if Running(a.loop) {
      var k := i - |a.book.settled|;
      forall outcome: Outcome<Overlay> | k < |Answered(a.book.waiters, a.loop.round.generation, a.book.rounds, outcome)|
        ensures Answered(a.book.waiters, a.loop.round.generation, a.book.rounds, outcome)[k].outcome == outcome
      {
        SameOutcome(a.book.waiters, a.loop.round.generation, a.book.rounds, outcome, k);
      }
    }
  }

  lemma SettledGrows(a: Account, step: Step)
    requires Inv(a) && Enabled(a, step)
    ensures a.book.settled <= Apply(a, step).book.settled && a.book.requested <= Apply(a, step).book.requested
  {
    hide WellKept, Answered, Conclude;
    if step.ConfigReadAgain? && step.current.Some? {
      ConcludeGrows(a, a.loop.round, a.loop.config, a.loop.content, step.current.value);
    }
  }

  lemma ConcludeGrows(a: Account, round: Round, config: ProviderConfig, content: string, current: ProviderConfig)
    ensures var t := Conclude(a, round, config, content, current);
      a.book.settled <= t.book.settled && a.book.requested == t.book.requested
  {
    hide Answered;
  }

  lemma EndedGrows(a: Account, step: Step)
    requires Inv(a) && Enabled(a, step)
    ensures a.ended <= Apply(a, step).ended
  {
    hide WellKept, Settle;
  }

  /** How a loop's promise ends: with the snapshot of the time. */
  lemma EndedWithSnapshot(a: Account, step: Step, k: nat)
    requires Inv(a) && Enabled(a, step) && |a.ended| <= k < |Apply(a, step).ended|
    ensures k == |a.ended| && Apply(a, step).loop.Ended?
    ensures Apply(a, step).ended[k].Returned? ==> Apply(a, step).snapshot == Some(Apply(a, step).ended[k].value)
  {
    hide WellKept;
  }

  /** A reading that was current stays so, unless the account service goes on to tell of a change. */
  lemma ReadingKeeps(a: Account, step: Step, reading: Reading)
    requires Inv(a) && Enabled(a, step) && !step.Dispose? && ReadingExists(a, reading)
    ensures var t := Apply(a, step);
      ReadingExists(t, reading)
      && (ReadingIsCurrent(a, reading) ==> ReadingIsCurrent(t, reading) || (t.loop.TellingChange? && !a.loop.TellingChange?))
  {
    hide Inv, Apply, Enabled;
    var t := Apply(a, step);
    SnapshotMoves(a, step);
    SettledGrows(a, step);
    EndedGrows(a, step);
    match reading
    case Known(_) =>
    case OfLoop(k) =>
      LoopGoesOn(a, step);
      if |a.ended| <= k < |t.ended| { EndedWithSnapshot(a, step, k); }
    case OfRequest(g) =>
      if ReadingIsCurrent(a, reading) && !(t.loop.TellingChange? && !a.loop.TellingChange?) {
        forall i | 0 <= i < |t.book.settled| && t.book.settled[i].generation == g && t.book.settled[i].outcome.Resolved?
          ensures t.snapshot == Some(t.book.settled[i].outcome.value)
        {
          if i < |a.book.settled| {
            assert t.book.settled[i] == a.book.settled[i];
          } else {
            ResolvedWithSnapshot(a, step, i);
          }
        }
      }
  }

  lemma LoopGoesOn(a: Account, step: Step)
    requires Inv(a) && Enabled(a, step)
    ensures Running(a.loop) ==> Running(Apply(a, step).loop) || |Apply(a, step).ended| > |a.ended|
  {
    hide WellKept;
  }

  lemma AReadIsCurrent(a: Account)
    requires Inv(a) && !a.disposed
    ensures Inv(AfterRead(a)) && !AfterRead(a).disposed && AfterRead(a).snapshot == a.snapshot
    ensures ReadingExists(AfterRead(a), Handle(a)) && ReadingIsCurrent(AfterRead(a), Handle(a))
    ensures !(AfterRead(a).loop.TellingChange? && !a.loop.TellingChange?)
  {
    if a.snapshot.None? && a.loop.NoLoop? {
      RequestKeeps(a, "start");
      assert forall i :: 0 <= i < |a.book.settled| ==> FreshAnswer(a.book, a.book.settled[i]);
    }
  }

  // ---------- Every run ----------

  ghost predicate AccountSide(y: System)
    requires y.configs != []
  {
    && Inv(y.account) && !y.account.disposed
    && AccountClaim(y.account, y.accountDue, y.accountFrom, |y.configs| - 1, Current(y).builtin)
    && (!y.account.started ==> y.account.loop.NoLoop? && y.account.ended == [] && y.account.snapshot.None?)
    && (y.changeDue ==> y.registry.started)
  }

  ghost predicate RegistrySide(y: System)
    requires y.configs != []
  {
    && RegistryInv(y.registry) && !y.registry.disposed && VerdictIsTrue(y.registry)
    && VerdictClaim(y.registry, y.registryDue, y.changeDue || y.missed, Current(y), y.account.snapshot)
    && RoundClaim(y.registry, y.registryDue, y.changeDue || y.missed, y.registryFrom, |y.configs| - 1, ReadingIsCurrent(y.account, y.reading))
    && (y.registry.loop.AwaitSources? ==> ReadingExists(y.account, y.reading))
    && (!y.registry.started ==> y.registry == FRESH_REGISTRY)
  }

  ghost predicate SystemInv(y: System) {
    y.configs != [] && AccountSide(y) && RegistrySide(y)
  }

  lemma CurrentIsReadable(y: System, from: nat, c: ProviderConfig)
    requires y.configs != [] && Readable(y, from, c) && from == |y.configs| - 1
    ensures Now(c, Current(y))
  {
  }

  lemma ChangeKeeps(y: System, config: ProviderConfig)
    requires SystemInv(y)
    ensures SystemInv(y.(configs := y.configs + [config], accountDue := y.account.started, registryDue := y.registry.started))
  {
    hide Inv, RegistryInv, ReadingIsCurrent, ReadingExists;
  }

  /** The account service takes a step: both sides keep what they know. */
  lemma AccountStepKeeps(y: System, step: Step, due: bool)
    requires SystemInv(y) && Enabled(y.account, step) && !step.Dispose?
    requires step.ConfigRead? && step.config.Some? ==> Readable(y, y.accountFrom, step.config.value)
    requires step.ConfigReadAgain? && step.current.Some? ==> Readable(y, y.accountFrom, step.current.value)
    requires due == y.accountDue || step.Request?
    ensures SystemInv(AccountMoves(y.(accountDue := due), Apply(y.account, step)))
  {
    hide Inv, RegistryInv, ReadingIsCurrent, ReadingExists, Readable, Apply, AccountClaim, VerdictIsTrue, Enabled;
    var t := AccountMoves(y.(accountDue := due), Apply(y.account, step));
    var last := |y.configs| - 1;
    StepKeeps(y.account, step);
    StartedStep(y.account, step);
    if y.accountFrom == last {
      if step.ConfigRead? && step.config.Some? { CurrentIsReadable(y, last, step.config.value); }
      if step.ConfigReadAgain? && step.current.Some? { CurrentIsReadable(y, last, step.current.value); }
    }
    if step.Request? {
      RequestClaimsStep(y.account, step.reason, due, t.accountFrom, last, Current(y).builtin);
    } else {
      StepClaims(y.account, step, y.accountDue, y.accountFrom, t.accountFrom, last, Current(y).builtin);
    }
    SnapshotMoves(y.account, step);
    if y.registry.loop.AwaitSources? {
      ReadingKeeps(y.account, step, y.reading);
    }
  }

  lemma RequestClaimsStep(a: Account, reason: string, due: bool, from: nat, last: nat, builtin: string)
    requires Inv(a) && !a.disposed
    requires Apply(a, Request(reason)).book.rounds > a.book.rounds ==> from == last
    ensures AccountClaim(Apply(a, Request(reason)), due, from, last, builtin)
  {
    RequestClaims(a, reason, due, from, last, builtin);
  }

  lemma StartedStep(a: Account, step: Step)
    requires Inv(a) && Enabled(a, step) && !step.Dispose? && !a.disposed
    ensures !Apply(a, step).disposed
    ensures a.started || step.Request? || !a.loop.NoLoop?
    ensures Apply(a, step).started == (a.started || step.Request?)
  {
    hide WellKept, Settle;
  }

  /** A read of the account service by anyone. */
  lemma AccountReadKeeps(y: System)
    requires SystemInv(y)
    ensures SystemInv(AccountMoves(y, AfterRead(y.account)))
  {
    hide Inv, RegistryInv, ReadingIsCurrent, ReadingExists, Readable, AccountClaim, VerdictIsTrue;
    if y.account.snapshot.None? && y.account.loop.NoLoop? {
      AccountStepKeeps(y, Request("start"), y.accountDue);
      assert Apply(y.account, Request("start")) == AfterRead(y.account);
    }
  }

  /** The registry takes a step, having been told of some of what is due. */
  lemma RegistryStepKeeps(y: System, step: RegistryStep, registryDue: bool, changeDue: bool, missed: bool)
    requires SystemInv(y) && Allowed(y.registry, step) && !step.DisposeRegistry?
    requires step.SourcesRead? ==> Readable(y, y.registryFrom, step.config) && Yields(y, step.account)
    requires step.AskRefresh? || (registryDue == y.registryDue && changeDue == y.changeDue && missed == y.missed)
    requires changeDue ==> y.changeDue
    ensures SystemInv(RegistryMoves(y.(registryDue := registryDue, changeDue := changeDue, missed := missed),
                                    Next(y.registry, step)))
  {
    hide Inv, RegistryInv, ReadingIsCurrent, ReadingExists, Readable, AccountClaim, VerdictIsTrue, Next, Allowed,
         VerdictClaim, RoundClaim, Handle, AfterRead;
    var r := Next(y.registry, step);
    var last := |y.configs| - 1;
    var y2 := y.(registryDue := registryDue, changeDue := changeDue, missed := missed);
    var t := RegistryMoves(y2, r);
    var begins := r.book.rounds > y.registry.book.rounds;
    NextKeeps(y.registry, step);
    NextStarted(y.registry, step);
    AReadIsCurrent(y.account);
    AccountReadKeeps(y);
    var hidden, hidden2 := y.changeDue || y.missed, changeDue || missed;
    var isNow, isNow2 := ReadingIsCurrent(y.account, y.reading), ReadingIsCurrent(t.account, t.reading);
    assert t.account.snapshot == y.account.snapshot;
    if step.AskRefresh? {
      AskClaims(y.registry, step.reason, registryDue, hidden2, t.registryFrom, last, isNow2, Current(y),
                y.account.snapshot);
    } else {
      if step.SourcesRead? {
        SourcesAreCurrent(y, step.config, step.account);
      }
      NextClaims(y.registry, step, y.registryDue, hidden, y.registryFrom, t.registryFrom, last, isNow, isNow2,
                 Current(y), y.account.snapshot);
    }
  }

  lemma SourcesAreCurrent(y: System, config: ProviderConfig, account: Overlay)
    requires y.configs != [] && Readable(y, y.registryFrom, config) && Yields(y, account)
    ensures y.registryFrom == |y.configs| - 1 ==> Now(config, Current(y))
    ensures ReadingIsCurrent(y.account, y.reading) ==> y.account.snapshot == Some(account)
  {
  }

  lemma NextStarted(r: Registry, step: RegistryStep)
    requires RegistryInv(r) && Allowed(r, step) && !step.DisposeRegistry? && !r.disposed
    requires !r.started ==> r == FRESH_REGISTRY
    ensures !Next(r, step).disposed && (r.started ==> Next(r, step).started)
    ensures !r.started ==> step.AskRefresh? && Next(r, step).started
    ensures Next(r, step).book.rounds >= r.book.rounds
    ensures Next(r, step).loop.AwaitSources? ==> r.loop.AwaitSources? || Next(r, step).book.rounds > r.book.rounds
  {
    hide WellKept, Leftovers;
  }

  lemma ActKeeps(y: System, action: Action)
    requires SystemInv(y) && May(y, action)
    ensures SystemInv(Act(y, action))
  {
    hide AccountSide, RegistrySide, Readable, Yields, Enabled, Allowed, Apply, Next;
    match action
    case Change(config) => ChangeKeeps(y, config);
    case TellAccount(reason) => EnabledRequest(y); AccountStepKeeps(y, Request(reason), false);
    case TellRegistry(reason) => EnabledRequest(y); RegistryStepKeeps(y, AskRefresh(reason), false, y.changeDue, false);
    case TellChange(reason) => EnabledRequest(y); RegistryStepKeeps(y, AskRefresh(reason), y.registryDue, false, false);
    case AccountDoes(step) =>
      AccountStepKeeps(y, step, y.accountDue);
      assert y.(accountDue := y.accountDue) == y;
      if step == ChangeTold(true) { ToldIsOver(y); MissedKeeps(AccountMoves(y, Apply(y.account, step)), y.changeDue); }
    case AccountRead => AccountReadKeeps(y);
    case RegistryDoes(does) =>
      var missed := y.missed && !does.AskRefresh?;
      RegistryStepKeeps(y, does, y.registryDue, y.changeDue, missed);
      assert y.(registryDue := y.registryDue, changeDue := y.changeDue, missed := missed) == y.(missed := missed);
  }

  lemma EnabledRequest(y: System)
    requires SystemInv(y)
    ensures forall reason :: Enabled(y.account, Request(reason)) && Allowed(y.registry, AskRefresh(reason))
  {
  }

  lemma ToldIsOver(y: System)
    requires SystemInv(y) && Enabled(y.account, ChangeTold(true))
    ensures AccountMoves(y, Apply(y.account, ChangeTold(true))).changeDue == y.changeDue
    ensures AccountMoves(y, Apply(y.account, ChangeTold(true))).missed == y.missed
  {
  }

  lemma MissedKeeps(y: System, due: bool)
    requires SystemInv(y) && y.changeDue == due
    ensures SystemInv(y.(missed := y.missed || due, changeDue := false))
  {
    hide Inv, RegistryInv, ReadingIsCurrent, ReadingExists, AccountClaim;
  }

  ghost predicate SystemRun(y: System, actions: seq<Action>, z: System)
    decreases |actions|
  {
    if actions == [] then y == z else May(y, actions[0]) && SystemRun(Act(y, actions[0]), actions[1..], z)
  }

  lemma {:induction false} SystemRunKeeps(y: System, actions: seq<Action>, z: System)
    requires SystemInv(y) && SystemRun(y, actions, z)
    ensures SystemInv(z)
    decreases |actions|
  {
    if actions != [] {
      ActKeeps(y, actions[0]);
      SystemRunKeeps(Act(y, actions[0]), actions[1..], z);
    }
  }

  /** No loop is in flight and nobody is due to be told of anything. */
  predicate Quiescent(y: System) {
    y.account.loop.NoLoop? && y.registry.loop.Idle? && !y.accountDue && !y.registryDue && !y.changeDue
  }

  /** The last loop of the account service returned a snapshot, and the last round of the registry found a pair
      of sources. */
  predicate LastRoundsSucceeded(y: System) {
    && y.account.ended != [] && y.account.ended[|y.account.ended| - 1].Returned?
    && (y.registry.verdict.Mismatch? || y.registry.verdict.Paired?)
  }

  /** The registry's snapshot is the current config with the account service's current snapshot, and that one is
      about the current built-in revision. */
  predicate UpToDate(y: System)
    requires y.configs != []
  {
    && y.registry.snapshot.Some?
    && Now(y.registry.snapshot.value.config, Current(y))
    && y.account.snapshot == Some(y.registry.snapshot.value.account)
    && y.registry.snapshot.value.account.basedOn == Current(y).builtin
  }

  /** Convergence. Whatever the order of config changes, reads, answers and requests: once all is quiet and the
      last rounds succeeded, the registry is up to date; provided no account change was hidden from it since it
      was last asked for anything. */
  lemma Converged(config: ProviderConfig, actions: seq<Action>, y: System)
    requires SystemRun(Start(config), actions, y) && Quiescent(y) && LastRoundsSucceeded(y) && !y.missed
    ensures y.configs != [] && UpToDate(y)
    // Even a last round that only found a mismatch cannot be the last one then.
    ensures y.registry.verdict.Paired?
  {
    InitialIsFine(config);
    SystemRunKeeps(Start(config), actions, y);
  }

  lemma InitialIsFine(config: ProviderConfig)
    ensures SystemInv(Start(config)) && FoundWhatWasRead(Start(config))
  {
  }

  // ---------- When a change was hidden ----------

  /** What the last finished round found is what the registry's last read of the account source yielded. */
  ghost predicate FoundWhatWasRead(y: System) {
    match y.registry.verdict
    case Mismatch(p) => y.registry.loop.AwaitSources? || Yields(y, p.account)
    case Paired(p) => y.registry.loop.AwaitSources? || Yields(y, p.account)
    case _ => true
  }

  lemma YieldsKeeps(y: System, step: Step, z: System, o: Overlay)
    requires Inv(y.account) && Enabled(y.account, step) && Yields(y, o)
    requires z.account == Apply(y.account, step) && z.reading == y.reading
    ensures Yields(z, o)
  {
    hide Inv, Apply, Enabled;
    EndedGrows(y.account, step);
    SettledGrows(y.account, step);
    if y.reading.OfRequest? {
      var i :| 0 <= i < |y.account.book.settled| && y.account.book.settled[i].generation == y.reading.generation
               && y.account.book.settled[i].outcome == Resolved(o);
      assert z.account.book.settled[i] == y.account.book.settled[i];
    }
  }

  /** A round ends with an error or with what it was given; nothing else makes a finding. */
  lemma VerdictComesFromSources(r: Registry, step: RegistryStep)
    requires RegistryInv(r) && Allowed(r, step) && !r.disposed && !step.DisposeRegistry?
    ensures var t := Next(r, step);
      !r.loop.AwaitSources? && !t.loop.AwaitSources? ==> t.verdict == r.verdict || t.verdict.Errored?
    ensures var t := Next(r, step); r.loop.AwaitSources? && !t.loop.AwaitSources? ==>
      t.verdict.Errored? ||
      (step.SourcesRead? && (t.verdict.Mismatch? || t.verdict.Paired?) && t.verdict.pair.account == step.account)
  {
    hide WellKept, Leftovers, Settle;
  }

  lemma RegistryStepFinds(y: System, step: RegistryStep, y2: System)
    requires SystemInv(y) && FoundWhatWasRead(y) && Allowed(y.registry, step) && !step.DisposeRegistry?
    requires step.SourcesRead? ==> Yields(y, step.account)
    requires y2.configs == y.configs && y2.account == y.account && y2.registry == y.registry && y2.reading == y.reading
    ensures FoundWhatWasRead(RegistryMoves(y2, Next(y.registry, step)))
  {
    hide Inv, RegistryInv, AccountClaim, VerdictClaim, RoundClaim, VerdictIsTrue, Next, Allowed;
    var t := RegistryMoves(y2, Next(y.registry, step));
    VerdictComesFromSources(y.registry, step);
    NextStarted(y.registry, step);
    BegunIsAwaiting(y.registry, step);
    if !t.registry.loop.AwaitSources? {
      assert t.account == y.account && t.reading == y.reading;
    }
  }

  lemma BegunIsAwaiting(r: Registry, step: RegistryStep)
    requires RegistryInv(r) && Allowed(r, step)
    ensures Next(r, step).book.rounds > r.book.rounds ==> Next(r, step).loop.AwaitSources?
  {
    hide WellKept, Leftovers;
  }

  lemma ActFinds(y: System, action: Action)
    requires SystemInv(y) && FoundWhatWasRead(y) && May(y, action)
    ensures FoundWhatWasRead(Act(y, action))
  {
    hide Inv, RegistryInv, AccountClaim, VerdictClaim, RoundClaim, VerdictIsTrue, Yields, Apply, Next, Enabled, Allowed,
         Readable;
    match action
    case Change(_) => SameYield(y, Act(y, action));
    case TellAccount(reason) => EnabledRequest(y); AccountStepFinds(y, Request(reason), Act(y, action));
    case TellRegistry(reason) =>
      EnabledRequest(y);
      RegistryStepFinds(y, AskRefresh(reason), y.(registryDue := false, missed := false));
    case TellChange(reason) =>
      EnabledRequest(y);
      RegistryStepFinds(y, AskRefresh(reason), y.(changeDue := false, missed := false));
    case AccountDoes(step) => AccountStepFinds(y, step, Act(y, action));
    case AccountRead =>
      if y.account.snapshot.Some? || !y.account.loop.NoLoop? {
        SameYield(y, Act(y, action));
      } else {
        EnabledRequest(y);
        ReadIsRequest(y.account);
        AccountStepFinds(y, Request("start"), Act(y, action));
      }
    case RegistryDoes(does) => RegistryStepFinds(y, does, y.(missed := y.missed && !does.AskRefresh?));
  }

  lemma ReadIsRequest(a: Account)
    requires a.snapshot.None? && a.loop.NoLoop? && !a.disposed
    ensures Enabled(a, Request("start")) && AfterRead(a) == Apply(a, Request("start"))
  {
  }

  lemma SameYield(y: System, z: System)
    requires FoundWhatWasRead(y) && z.account == y.account && z.reading == y.reading && z.registry == y.registry
    ensures FoundWhatWasRead(z)
  {
  }

  lemma AccountStepFinds(y: System, step: Step, z: System)
    requires Inv(y.account) && Enabled(y.account, step) && FoundWhatWasRead(y)
    requires z.account == Apply(y.account, step) && z.reading == y.reading && z.registry == y.registry
    ensures FoundWhatWasRead(z)
  {
    hide Inv, Apply, Enabled, Yields;
    match y.registry.verdict
    case Mismatch(p) => if !y.registry.loop.AwaitSources? { YieldsKeeps(y, step, z, p.account); }
    case Paired(p) => if !y.registry.loop.AwaitSources? { YieldsKeeps(y, step, z, p.account); }
    case _ =>
  }

  lemma {:induction false} SystemRunFinds(y: System, actions: seq<Action>, z: System)
    requires SystemInv(y) && FoundWhatWasRead(y) && SystemRun(y, actions, z)
    ensures SystemInv(z) && FoundWhatWasRead(z)
    decreases |actions|
  {
    hide FoundWhatWasRead, SystemInv, May, Act;
    if actions != [] {
      ActKeeps(y, actions[0]);
      ActFinds(y, actions[0]);
      SystemRunFinds(Act(y, actions[0]), actions[1..], z);
    }
  }

  /** Without the proviso. Once all is quiet and the last rounds succeeded, the registry's last round saw the current
      config, and the account snapshot that its last read yielded. If that was a pair, it is what is published, so
      the registry is out of date exactly if the account service holds another snapshot by now; a mismatch can be
      the last finding only because a change was hidden. */
  lemma StaleWhen(config: ProviderConfig, actions: seq<Action>, y: System)
    requires SystemRun(Start(config), actions, y) && Quiescent(y) && LastRoundsSucceeded(y)
    ensures y.configs != [] && Yields(y, y.registry.verdict.pair.account)
    ensures Now(y.registry.verdict.pair.config, Current(y))
    ensures y.registry.verdict.Paired? ==>
      && y.registry.snapshot.Some? && y.registry.snapshot.value.account == y.registry.verdict.pair.account
      && (UpToDate(y) <==> y.account.snapshot == Some(y.registry.verdict.pair.account))
    ensures y.account.snapshot != Some(y.registry.verdict.pair.account) ==> y.missed
    ensures y.registry.verdict.Mismatch? ==> y.missed && y.account.snapshot != Some(y.registry.verdict.pair.account)
  {
    InitialIsFine(config);
    SystemRunFinds(Start(config), actions, y);
  }

  /** The registry is asked for a refresh: by an event of either source, or by a caller. */
  predicate Asks(action: Action) {
    action.TellRegistry? || action.TellChange? || (action.RegistryDoes? && action.does.AskRefresh?)
  }

  lemma {:induction false} RestsUntilAsked(y: System, actions: seq<Action>, z: System)
    requires SystemInv(y) && SystemRun(y, actions, z) && y.registry.loop.Idle?
    requires forall k :: 0 <= k < |actions| ==> !Asks(actions[k])
    ensures SystemInv(z) && z.registry == y.registry && y.configs <= z.configs
    ensures |z.configs| > |y.configs| && y.registry.started ==> z.registryDue
    ensures y.missed ==> z.missed
    decreases |actions|
  {
    hide SystemInv;
    if actions != [] {
      var x := Act(y, actions[0]);
      ActKeeps(y, actions[0]);
      RestsAStep(y, actions[0]);
      assert forall k :: 0 <= k < |actions| - 1 ==> actions[1..][k] == actions[k + 1];
      RestsUntilAsked(x, actions[1..], z);
      if x.registryDue && x.registry.started {
        DueUntilAsked(x, actions[1..], z);
      }
    }
  }

  lemma RestsAStep(y: System, action: Action)
    requires SystemInv(y) && May(y, action) && !Asks(action) && y.registry.loop.Idle?
    ensures var x := Act(y, action);
      && x.registry == y.registry && y.configs <= x.configs && (y.registryDue ==> x.registryDue || !y.registry.started)
      && (|x.configs| > |y.configs| && y.registry.started ==> x.registryDue) && (y.missed ==> x.missed)
  {
    hide Inv, RegistryInv, AccountClaim, VerdictClaim, RoundClaim, VerdictIsTrue, Apply;
  }

  lemma {:induction false} DueUntilAsked(y: System, actions: seq<Action>, z: System)
    requires SystemInv(y) && SystemRun(y, actions, z) && y.registry.loop.Idle? && y.registryDue && y.registry.started
    requires forall k :: 0 <= k < |actions| ==> !Asks(actions[k])
    ensures z.registryDue
    decreases |actions|
  {
    hide SystemInv;
    if actions != [] {
      ActKeeps(y, actions[0]);
      RestsAStep(y, actions[0]);
      assert forall k :: 0 <= k < |actions| - 1 ==> actions[1..][k] == actions[k + 1];
      DueUntilAsked(Act(y, actions[0]), actions[1..], z);
    }
  }

  /** Until it is asked again, an up-to-date registry keeps the account snapshot it read: whatever happens meanwhile,
      once all is quiet it is out of date exactly if the account service holds another snapshot than that one, and
      then a throwing change listener is the reason. The next request ends this, by Converged. */
  lemma StaleUntilAsked(config: ProviderConfig, before: seq<Action>, y: System, actions: seq<Action>, z: System)
    requires SystemRun(Start(config), before, y) && Quiescent(y) && LastRoundsSucceeded(y) && y.registry.verdict.Paired?
    requires y.configs != [] && UpToDate(y)
    requires SystemRun(y, actions, z) && Quiescent(z) && LastRoundsSucceeded(z)
    requires forall k :: 0 <= k < |actions| ==> !Asks(actions[k])
    ensures z.registry == y.registry && z.configs == y.configs
    ensures UpToDate(z) <==> z.account.snapshot == y.account.snapshot
    ensures !UpToDate(z) ==> z.missed
  {
    hide FoundWhatWasRead;
    InitialIsFine(config);
    SystemRunKeeps(Start(config), before, y);
    RestsUntilAsked(y, actions, z);
    assert |z.configs| == |y.configs|;
  }

  // ---------- The condition is needed ----------

  lemma {:induction false} SystemRunSnoc(y: System, actions: seq<Action>, z: System, action: Action)
    requires SystemRun(y, actions, z) && May(z, action)
    ensures SystemRun(y, actions + [action], Act(z, action))
    decreases |actions|
  {
    if actions == [] {
      assert SystemRun(Act(z, action), [], Act(z, action));
      assert (actions + [action])[1..] == [];
    } else {
      SystemRunSnoc(Act(y, actions[0]), actions[1..], z, action);
      assert (actions + [action])[1..] == actions[1..] + [action];
    }
  }

  ghost predicate Reached(c: ProviderConfig, y: System) {
    exists actions :: SystemRun(Start(c), actions, y)
  }

  lemma ReachedNext(c: ProviderConfig, y: System, action: Action)
    requires Reached(c, y) && May(y, action)
    ensures Reached(c, Act(y, action))
  {
    var actions :| SystemRun(Start(c), actions, y);
    SystemRunSnoc(Start(c), actions, y, action);
  }

  /** A system state in which the config never changed. */
  function At(c: ProviderConfig, a: Account, r: Registry, changeDue: bool, missed: bool): System {
    System([c], a, r, false, false, changeDue, missed, 0, 0, 0, OfRequest(1))
  }

  predicate Calm(a: Account) { a.pending == {} && !a.disposed && a.started && a.latest == a.snapshot }

  /** The running account round reads c both times and resolves content x. */
  lemma AccountRound(c: ProviderConfig, a: Account, r: Registry, missed: bool, x: string) returns (y: System)
    requires a.loop.AwaitConfig? && Calm(a) && r.started && !r.disposed
    requires Reached(c, At(c, a, r, false, missed))
    ensures Reached(c, y)
    ensures y == At(c, Conclude(a.(loop := AwaitConfigAgain(a.loop.round, c, x)), a.loop.round, c, x, c), r,
                    a.snapshot.Some? && a.snapshot != Some(Overlay(c.builtin, x)), missed)
  {
    var s0 := At(c, a, r, false, missed);
    assert c == ProviderConfig(s0.configs[0].builtin, s0.configs[0].personal, c.unentitled);
    ReachedNext(c, s0, AccountDoes(ConfigRead(Some(c))));
    var s1 := At(c, a.(loop := AwaitAccount(a.loop.round, c)), r, false, missed);
    ReachedNext(c, s1, AccountDoes(AccountResolved(Some(x))));
    var s2 := At(c, a.(loop := AwaitConfigAgain(a.loop.round, c, x)), r, false, missed);
    assert c == ProviderConfig(s2.configs[0].builtin, s2.configs[0].personal, c.unentitled);
    ReachedNext(c, s2, AccountDoes(ConfigReadAgain(Some(c))));
    y := Act(s2, AccountDoes(ConfigReadAgain(Some(c))));
  }

  /** An account request on an idle service, answered with content x. */
  lemma AccountRequest(c: ProviderConfig, a: Account, r: Registry, missed: bool, reason: string,
          x: string) returns (y: System)
    requires a.loop.NoLoop? && Calm(a) && a.snapshot.Some? && r.started && !r.disposed
    requires Reached(c, At(c, a, r, false, missed))
    ensures Reached(c, y) && y == At(c, y.account, r, y.changeDue, missed) && Calm(y.account)
    ensures y.account.snapshot == Some(Overlay(c.builtin, x))
    ensures a.snapshot == y.account.snapshot ==>
      y.account.loop.Ended? && !y.changeDue && y.account.ended == a.ended + [Returned(Overlay(c.builtin, x))]
    ensures a.snapshot != y.account.snapshot ==> y.account.loop.TellingChange? && y.changeDue
  {
    ReachedNext(c, At(c, a, r, false, missed), AccountDoes(Request(reason)));
    assert reason in a.pending + {reason};
    y := AccountRound(c, AccountRefresh.Requested(a, reason), r, missed, x);
  }

  lemma FirstAsk(c: ProviderConfig)
    ensures Reached(c, At(c, AccountRefresh.Requested(INITIAL, "start"), RegistryRefresh.Requested(FRESH_REGISTRY, "start"), false, false))
    ensures var a := AccountRefresh.Requested(INITIAL, "start");
      a.loop.AwaitConfig? && Calm(a) && a.loop.round.generation == 1 && a.book == Book(1, [1], 1, [0], []) && a.snapshot.None?
  {
    assert SystemRun(Start(c), [], Start(c));
    assert "start" in {} + {"start"};
    ReachedNext(c, Start(c), RegistryDoes(AskRefresh("start")));
  }

  /** The registry asks first, and so starts the account service. */
  lemma AccountStarts(c: ProviderConfig, x: string) returns (y: System)
    ensures Reached(c, y) && y == At(c, y.account, y.registry, false, false)
    ensures Calm(y.account) && y.account.loop.NoLoop? && y.account.snapshot == Some(Overlay(c.builtin, x))
    ensures y.account.book.settled == [Settlement(1, 1, Resolved(Overlay(c.builtin, x)))]
    ensures y.registry == RegistryRefresh.Requested(FRESH_REGISTRY, "start")
  {
    var o := Overlay(c.builtin, x);
    FirstAsk(c);
    var a, r := AccountRefresh.Requested(INITIAL, "start"), RegistryRefresh.Requested(FRESH_REGISTRY, "start");
    var s2 := AccountRound(c, a, r, false, x);
    assert [1][1..] == [] && Answered<Overlay>([1], 1, 1, Resolved(o)) == [Settlement(1, 1, Resolved(o))];
    ReachedNext(c, s2, AccountDoes(FinishRefresh));
    y := Act(s2, AccountDoes(FinishRefresh));
  }

  /** Both services start and publish. */
  lemma BothStart(c: ProviderConfig, x: string) returns (y: System)
    ensures Reached(c, y) && y == At(c, y.account, y.registry, false, false)
    ensures Calm(y.account) && y.account.loop.NoLoop? && y.account.snapshot == Some(Overlay(c.builtin, x))
    ensures y.registry.started && !y.registry.disposed && y.registry.loop.Idle?
    ensures y.registry.verdict.Paired? && y.registry.snapshot == Some(Published(c, Overlay(c.builtin, x)))
  {
    var o := Overlay(c.builtin, x);
    var s3 := AccountStarts(c, x);
    assert s3.account.book.settled[0].outcome == Resolved(o);
    assert c == ProviderConfig(s3.configs[0].builtin, s3.configs[0].personal, c.unentitled);
    ReachedNext(c, s3, RegistryDoes(SourcesRead(c, o, Resolves([]))));
    var s4 := Act(s3, RegistryDoes(SourcesRead(c, o, Resolves([]))));
    ReachedNext(c, s4, RegistryDoes(ChangedTold(false)));
    var s5 := Act(s4, RegistryDoes(ChangedTold(false)));
    ReachedNext(c, s5, RegistryDoes(Finish));
    y := Act(s5, RegistryDoes(Finish));
  }

  /** The other way round the condition matters: an account change listener that throws before the registry is
      told leaves the registry with the old account snapshot, with all quiet and every last round a success. */
  lemma AThrowingListenerHidesAChange(c: ProviderConfig, before: string, after: string) returns (y: System)
    requires before != after
    ensures Reached(c, y) && Quiescent(y) && LastRoundsSucceeded(y)
    ensures y.account.snapshot == Some(Overlay(c.builtin, after))
    ensures y.registry.snapshot == Some(Published(c, Overlay(c.builtin, before)))
  {
    var s0 := BothStart(c, before);
    var s1 := AccountRequest(c, s0.account, s0.registry, false, "login", after);
    ReachedNext(c, s1, AccountDoes(ChangeTold(true)));
    var s2 := Act(s1, AccountDoes(ChangeTold(true)));
    ReachedNext(c, s2, AccountDoes(ErrorTold(false)));
    var s3 := Act(s2, AccountDoes(ErrorTold(false)));
    ReachedNext(c, s3, AccountDoes(FinishRefresh));
    var s4 := Act(s3, AccountDoes(FinishRefresh));
    var s5 := AccountRequest(c, s4.account, s4.registry, true, "again", after);
    ReachedNext(c, s5, AccountDoes(FinishRefresh));
    y := Act(s5, AccountDoes(FinishRefresh));
  }

  // ---------- What the account service publishes ----------

  /** The config source was about this built-in revision at some moment since from. */
  ghost predicate Held(y: System, from: nat, builtin: string) {
    exists i :: from <= i < |y.configs| && y.configs[i].builtin == builtin
  }

  /** The config the running account round has read. */
  function ReadConfig(a: Account): Option<ProviderConfig> {
    match a.loop
    case AwaitAccount(_, config) => Some(config)
    case AwaitConfigAgain(_, config, _) => Some(config)
    case TellingError(_, read) => read
    case TellingChange(_, config) => Some(config)
    case _ => None
  }

  ghost predicate AllHeld(y: System) {
    && y.roundFrom <= y.accountFrom < |y.configs|
    && (y.account.snapshot.Some? ==> Held(y, 0, y.account.snapshot.value.basedOn))
    && (ReadConfig(y.account).Some? ==> Held(y, y.roundFrom, ReadConfig(y.account).value.builtin))
  }

  /** What the round reads is kept through the round, and is all that is ever published. */
  lemma ReadsAndSnapshots(a: Account, step: Step)
    requires Inv(a) && Enabled(a, step)
    ensures var t := Apply(a, step);
      t.snapshot == a.snapshot ||
      (t.snapshot.Some? && ReadConfig(a).Some? && t.snapshot.value.basedOn == ReadConfig(a).value.builtin)
    ensures var t := Apply(a, step);
      ReadConfig(t).None? || ReadConfig(t) == ReadConfig(a) || (step.ConfigRead? && ReadConfig(t) == step.config)
  {
    hide WellKept, Settle, Ask;
    PublishesWhen(a, step);
  }

  lemma ARoundBeginsUnread(a: Account, step: Step)
    requires Inv(a) && Enabled(a, step)
    ensures Apply(a, step).book.rounds > a.book.rounds ==> ReadConfig(Apply(a, step)).None?
    ensures Apply(a, step).book.rounds >= a.book.rounds
  {
    hide WellKept, Answered, Newer;
  }

  lemma AccountHeld(y: System, step: Step, due: bool)
    requires Inv(y.account) && Enabled(y.account, step) && AllHeld(y)
    requires step.ConfigRead? && step.config.Some? ==> Readable(y, y.accountFrom, step.config.value)
    ensures AllHeld(AccountMoves(y.(accountDue := due), Apply(y.account, step)))
  {
    hide Inv, Apply, Enabled;
    ReadsAndSnapshots(y.account, step);
    ARoundBeginsUnread(y.account, step);
    if step.ConfigRead? && step.config.Some? {
      ReadableIsHeld(y, y.accountFrom, step.config.value);
    }
  }

  lemma ReadableIsHeld(y: System, from: nat, c: ProviderConfig)
    requires Readable(y, from, c)
    ensures forall start: nat :: start <= from ==> Held(y, start, c.builtin)
  {
  }

  lemma MoreConfigsHold(y: System, z: System)
    requires AllHeld(y) && z.account == y.account && y.configs <= z.configs
    requires z.roundFrom == y.roundFrom && z.accountFrom == y.accountFrom
    ensures AllHeld(z)
  {
    forall from: nat, b | Held(y, from, b)
      ensures Held(z, from, b)
    {
      var i :| from <= i < |y.configs| && y.configs[i].builtin == b;
      assert z.configs[i] == y.configs[i];
    }
  }

  /** The flags play no part. */
  lemma SameHeld(y: System, z: System)
    requires AllHeld(y) && z.account == y.account && z.configs == y.configs
    requires z.roundFrom == y.roundFrom && z.accountFrom == y.accountFrom
    ensures AllHeld(z)
  {
    MoreConfigsHold(y, z);
  }

  lemma RegistryMovesHeld(y: System, r: Registry, y2: System)
    requires SystemInv(y) && AllHeld(y) && y2.account == y.account && y2.configs == y.configs && y2.registry == y.registry
    requires y2.roundFrom == y.roundFrom && y2.accountFrom == y.accountFrom
    ensures AllHeld(RegistryMoves(y2, r))
  {
    hide Inv, RegistryInv, AccountClaim, VerdictClaim, RoundClaim, VerdictIsTrue, Apply, AllHeld, Next;
    ReadHeld(y);
    if r.book.rounds > y.registry.book.rounds {
      SameHeld(AccountMoves(y, AfterRead(y.account)), RegistryMoves(y2, r));
    } else {
      SameHeld(y, RegistryMoves(y2, r));
    }
  }

  lemma ReadHeld(y: System)
    requires SystemInv(y) && AllHeld(y)
    ensures AllHeld(AccountMoves(y, AfterRead(y.account)))
  {
    hide Inv, RegistryInv, AccountClaim, VerdictClaim, RoundClaim, VerdictIsTrue, Apply, AllHeld;
    if y.account.snapshot.Some? || !y.account.loop.NoLoop? {
      SameHeld(y, AccountMoves(y, AfterRead(y.account)));
    } else {
      ReadIsRequest(y.account);
      AccountHeld(y, Request("start"), y.accountDue);
      assert y.(accountDue := y.accountDue) == y;
    }
  }

  lemma ActHeld(y: System, action: Action)
    requires SystemInv(y) && AllHeld(y) && May(y, action)
    ensures AllHeld(Act(y, action))
  {
    hide Inv, RegistryInv, AccountClaim, VerdictClaim, RoundClaim, VerdictIsTrue, AllHeld, Yields, Apply, Next, Enabled,
         Allowed, Readable;
    match action
    case Change(_) => MoreConfigsHold(y, Act(y, action));
    case TellAccount(reason) => EnabledRequest(y); AccountHeld(y, Request(reason), false);
    case TellRegistry(reason) =>
      EnabledRequest(y);
      RegistryMovesHeld(y, Next(y.registry, AskRefresh(reason)), y.(registryDue := false, missed := false));
    case TellChange(reason) =>
      EnabledRequest(y);
      RegistryMovesHeld(y, Next(y.registry, AskRefresh(reason)), y.(changeDue := false, missed := false));
    case AccountDoes(step) =>
      AccountHeld(y, step, y.accountDue);
      assert y.(accountDue := y.accountDue) == y;
      SameHeld(AccountMoves(y, Apply(y.account, step)), Act(y, action));
    case AccountRead => ReadHeld(y);
    case RegistryDoes(does) => RegistryMovesHeld(y, Next(y.registry, does), y.(missed := y.missed && !does.AskRefresh?));
  }

  lemma {:induction false} SystemRunHeld(y: System, actions: seq<Action>, z: System)
    requires SystemInv(y) && AllHeld(y) && SystemRun(y, actions, z)
    ensures SystemInv(z) && AllHeld(z)
    decreases |actions|
  {
    hide AllHeld, SystemInv, May, Act;
    if actions != [] {
      ActKeeps(y, actions[0]);
      ActHeld(y, actions[0]);
      SystemRunHeld(Act(y, actions[0]), actions[1..], z);
    }
  }

  /** A change after moment i left the revision, and no later one came back to it. */
  ghost predicate LeftSince(configs: seq<ProviderConfig>, i: nat, builtin: string) {
    exists j :: i <= j < |configs| - 1 && configs[j].builtin == builtin
      && forall k :: j < k < |configs| ==> configs[k].builtin != builtin
  }

  lemma {:induction false} LastMoment(configs: seq<ProviderConfig>, i: nat, builtin: string) returns (j: nat)
    requires i < |configs| && configs[i].builtin == builtin
    ensures i <= j < |configs| && configs[j].builtin == builtin
    ensures forall k :: j < k < |configs| ==> configs[k].builtin != builtin
    decreases |configs|
  {
    var last := |configs| - 1;
    if configs[last].builtin == builtin {
      j := last;
    } else {
      j := LastMoment(configs[..last], i, builtin);
    }
  }

  lemma OutdatedIffLeft(configs: seq<ProviderConfig>, i: nat, builtin: string)
    requires i < |configs| && configs[i].builtin == builtin
    ensures builtin != configs[|configs| - 1].builtin <==> LeftSince(configs, i, builtin)
  {
    var j := LastMoment(configs, i, builtin);
    assert j == |configs| - 1 || configs[|configs| - 1].builtin != builtin;
  }

  /** Where the read began that decides what a publishing step is about: the second one of a round that concludes, the
      first one of a round that fails closed. */
  function DecidedFrom(y: System, step: Step): nat {
    if step.ConfigReadAgain? then y.accountFrom else y.roundFrom
  }

  /** What the account service publishes is based on a built-in revision that the source was about at some moment since
      the deciding read began. It is outdated when it is published if and only if a change since that moment left the
      revision and none came back to it; and then the service is still to be told, or a request is pending. */
  lemma PublishedRevisionWasHeld(config: ProviderConfig, actions: seq<Action>, y: System, step: Step)
    requires SystemRun(Start(config), actions, y) && May(y, AccountDoes(step))
    requires Apply(y.account, step).snapshot != y.account.snapshot
    ensures Apply(y.account, step).snapshot.Some? && y.configs != []
    ensures var o := Apply(y.account, step).snapshot.value;
      exists i :: DecidedFrom(y, step) <= i < |y.configs| && y.configs[i].builtin == o.basedOn
        && (o.basedOn != Current(y).builtin <==> LeftSince(y.configs, i, o.basedOn))
    ensures var o := Apply(y.account, step).snapshot.value;
      o.basedOn != Current(y).builtin ==> y.accountDue || (FailsClosed(y.account, step) && y.account.pending != {})
  {
    hide Inv, RegistryInv, VerdictClaim, RoundClaim, VerdictIsTrue, Apply, LeftSince;
    InitialIsFine(config);
    SystemRunHeld(Start(config), actions, y);
    PublishesWhen(y.account, step);
    if step.ConfigReadAgain? {
      ReadableIsHeld(y, y.accountFrom, step.current.value);
    }
    var o := Apply(y.account, step).snapshot.value;
    assert Held(y, DecidedFrom(y, step), o.basedOn);
    var i :| DecidedFrom(y, step) <= i < |y.configs| && y.configs[i].builtin == o.basedOn;
    OutdatedIffLeft(y.configs, i, o.basedOn);
  }

  /** An account round that has read config c. */
  lemma ARoundReads(c: ProviderConfig) returns (y: System)
    ensures Reached(c, y) && y.configs == [c] && y.account.snapshot.None? && y.account.latest.None? && !y.account.disposed
    ensures y.account.loop.AwaitAccount? && y.account.loop.config == c && !y.registry.disposed
  {
    assert SystemRun(Start(c), [], Start(c));
    ReachedNext(c, Start(c), AccountDoes(Request("start")));
    var s1 := Act(Start(c), AccountDoes(Request("start")));
    assert "start" in {} + {"start"};
    assert c == ProviderConfig(s1.configs[0].builtin, s1.configs[0].personal, c.unentitled);
    ReachedNext(c, s1, AccountDoes(ConfigRead(Some(c))));
    y := Act(s1, AccountDoes(ConfigRead(Some(c))));
  }

  /** The fail-closed snapshot can be about a revision the source has left before the round even failed. */
  lemma FailClosedIsOutdated(c: ProviderConfig, d: ProviderConfig) returns (y: System)
    requires c.builtin != d.builtin
    ensures Reached(c, y) && y.configs == [c, d] && May(y, AccountDoes(ErrorTold(false)))
    ensures Apply(y.account, ErrorTold(false)).snapshot == Some(Overlay(c.builtin, c.unentitled))
  {
    hide Reached, Settle;
    var s2 := ARoundReads(c);
    ReachedNext(c, s2, Change(d));
    var s3 := Act(s2, Change(d));
    ReachedNext(c, s3, AccountDoes(AccountResolved(None)));
    y := Act(s3, AccountDoes(AccountResolved(None)));
  }
}
