/** Which built-in release is active. Many processes share the Active file; each looks at it and rewrites it
    under a file lock, so each access is one step. */
module BuiltinReleases {
  import opened Wrappers

  /** A release: its number, and its canonical text. */
  datatype Release = Release(revision: nat, content: string)

  /** What a release file holds. */
  datatype File = Absent | Unreadable | Holds(release: Release)

  /** active is None where the Active path is the Bundled path itself. */
  datatype Files = Files(bundled: File, active: Option<File>)

  /** ListenerThrew: the update took effect, but a listener that was told of it threw. */
  datatype ApplyError = NoRelease | SameRevisionOtherContent | SourceDisposed | ListenerThrew

  datatype Applied = Updated | Unchanged | Stale

  /** selectReleaseCandidate: the newer of the two; the bundled one if they disagree about a revision, and if
      they agree; None if there is neither. */
  function Select(bundled: File, active: File): Option<Release> {
    if bundled.Holds? && active.Holds? then
      Some(if active.release.revision > bundled.release.revision then active.release else bundled.release)
    else if bundled.Holds? then Some(bundled.release)
    else if active.Holds? then Some(active.release)
    else None
  }

  /** What is selected is one of the two that can be used, none of them is newer, and the bundled one is preferred. */
  predicate IsSelection(bundled: File, active: File, selected: Option<Release>) {
    match selected
    case None => !bundled.Holds? && !active.Holds?
    case Some(r) =>
      && (bundled == Holds(r) || active == Holds(r))
      && (bundled.Holds? ==> bundled.release.revision <= r.revision)
      && (active.Holds? ==> active.release.revision <= r.revision)
      && (bundled.Holds? && bundled.release.revision == r.revision ==> bundled == Holds(r))
  }

  /** readAndMaterializeLocked. */
  function Materialize(files: Files): (Option<Release>, Files) {
    var selected := Select(files.bundled, files.active.GetOr(Absent));
    (selected,
     if selected.Some? && files.active.Some? && files.active.value != Holds(selected.value) then files.(active := Some(Holds(selected.value)))
     else files)
  }

  function Write(files: Files, release: Release): Files {
    if files.active.Some? then files.(active := Some(Holds(release))) else files.(bundled := Holds(release))
  }

  /** The locked section of applyRemoteRelease. */
  function ApplyRemote(files: Files, release: Release): (Result<Applied, ApplyError>, Files) {
    var (current, materialized) := Materialize(files);
    if current.None? then (Err(NoRelease), materialized)
    else if release.revision < current.value.revision then (Ok(Stale), materialized)
    else if release.revision == current.value.revision then
      (if release == current.value then Ok(Unchanged) else Err(SameRevisionOtherContent), materialized)
    else (Ok(Updated), Write(materialized, release))
  }

  /** The answer to an offered release: refused without a release to compare it with or if its revision is known with
      another content, and else whether it is older than what is selected, the same, or newer. */
  lemma TheAnswerIs(files: Files, offered: Release)
    ensures
      var answer, active := ApplyRemote(files, offered).0, files.active.GetOr(Absent);
      && (answer == Err(NoRelease) <==> !files.bundled.Holds? && !active.Holds?)
      && forall r: Release {:trigger IsSelection(files.bundled, active, Some(r))} :: IsSelection(files.bundled, active, Some(r)) ==>
          && (answer == Ok(Stale) <==> offered.revision < r.revision)
          && (answer == Ok(Unchanged) <==> offered == r)
          && (answer == Err(SameRevisionOtherContent) <==> offered.revision == r.revision && offered.content != r.content)
          && (answer == Ok(Updated) <==> offered.revision > r.revision)
  {
  }

  // ---------- Runs over a separate Active file ----------

  datatype Action = Look | Offer(release: Release)

  function Act(files: Files, action: Action): Files {
    match action
    case Look => Materialize(files).1
    case Offer(release) => ApplyRemote(files, release).1
  }

  function Final(files: Files, actions: seq<Action>): Files
    decreases |actions|
  {
    if actions == [] then files else Final(Act(files, actions[0]), actions[1..])
  }

  /** A separate Active file beside a valid Bundled release. */
  predicate Sound(files: Files) { files.bundled.Holds? && files.active.Some? }

  function ActiveRelease(files: Files): Release
    requires Sound(files)
  {
    Select(files.bundled, files.active.value).value
  }

  function Newer(current: Release, offered: Release): Release {
    if offered.revision > current.revision then offered else current
  }

  /** One access leaves the Active file holding what is selected, and that is what was selected before, or a
      newer release that was offered. */
  lemma OneAccess(files: Files, action: Action)
    requires Sound(files)
    ensures var t := Act(files, action);
      && Sound(t) && t.bundled == files.bundled && t.active == Some(Holds(ActiveRelease(t)))
      && ActiveRelease(t) == if action.Look? then ActiveRelease(files) else Newer(ActiveRelease(files), action.release)
  {
  }

  lemma OneAccessRevision(files: Files, action: Action)
    requires Sound(files)
    ensures Sound(Act(files, action)) && ActiveRelease(Act(files, action)).revision >= ActiveRelease(files).revision
    ensures ActiveRelease(Act(files, action)).revision == ActiveRelease(files).revision ==>
      ActiveRelease(Act(files, action)) == ActiveRelease(files)
  {
  }

  /** Whatever processes do in whatever order, the active revision never goes back, and a revision that was
      active keeps its content as long as it is. */
  lemma {:induction false} RevisionNeverGoesBack(files: Files, actions: seq<Action>)
    requires Sound(files)
    ensures Sound(Final(files, actions))
    ensures ActiveRelease(Final(files, actions)).revision >= ActiveRelease(files).revision
    ensures ActiveRelease(Final(files, actions)).revision == ActiveRelease(files).revision ==>
      ActiveRelease(Final(files, actions)) == ActiveRelease(files)
    decreases |actions|
  {
    if actions != [] {
      OneAccessRevision(files, actions[0]);
      RevisionNeverGoesBack(Act(files, actions[0]), actions[1..]);
    }
  }

  /** Everything that was there to choose from. */
  function Seen(files: Files, actions: seq<Action>): set<Release>
    requires Sound(files)
  {
    {ActiveRelease(files)} + set i | 0 <= i < |actions| && actions[i].Offer? :: actions[i].release
  }

  /** The active release is one that was seen, and none seen has a higher revision. */
  lemma {:induction false} EndsAtTheHighest(files: Files, actions: seq<Action>)
    requires Sound(files)
    ensures Sound(Final(files, actions)) && ActiveRelease(Final(files, actions)) in Seen(files, actions)
    ensures forall r :: r in Seen(files, actions) ==> r.revision <= ActiveRelease(Final(files, actions)).revision
    decreases |actions|
  {
    if actions != [] {
      var next := Act(files, actions[0]);
      OneAccess(files, actions[0]);
      EndsAtTheHighest(next, actions[1..]);
      assert Seen(next, actions[1..]) <= Seen(files, actions) by { SeenShrinks(files, actions); }
      forall r | r in Seen(files, actions)
        ensures r.revision <= ActiveRelease(Final(files, actions)).revision
      {
        if r !in Seen(next, actions[1..]) {
          assert ActiveRelease(next) in Seen(next, actions[1..]);
          SeenSplits(files, actions, r);
        }
      }
    }
  }

  lemma SeenShrinks(files: Files, actions: seq<Action>)
    requires Sound(files) && actions != [] && Sound(Act(files, actions[0]))
    ensures Seen(Act(files, actions[0]), actions[1..]) <= Seen(files, actions)
  {
    OneAccess(files, actions[0]);
    forall r | r in Seen(Act(files, actions[0]), actions[1..])
      ensures r in Seen(files, actions)
    {
      if i :| 0 <= i < |actions[1..]| && actions[1..][i].Offer? && actions[1..][i].release == r {
        assert actions[i + 1].release == r;
      }
    }
  }

  lemma SeenSplits(files: Files, actions: seq<Action>, r: Release)
    requires Sound(files) && actions != [] && Sound(Act(files, actions[0])) && r in Seen(files, actions)
    ensures r in Seen(Act(files, actions[0]), actions[1..]) || r == ActiveRelease(files) || actions[0] == Offer(r)
  {
    if r != ActiveRelease(files) {
      var i :| 0 <= i < |actions| && actions[i].Offer? && actions[i].release == r;
      assert i > 0 ==> actions[1..][i - 1].release == r;
    }
  }

  /** A revision has one content. */
  predicate Consistent(releases: set<Release>) {
    forall a, b :: a in releases && b in releases && a.revision == b.revision ==> a == b
  }

  /** If equal revisions carry equal content, two runs that see the same releases end at the same one, in
      whatever order they see them. */
  lemma OrderDoesNotMatter(files: Files, one: seq<Action>, other: seq<Action>)
    requires Sound(files) && Seen(files, one) == Seen(files, other) && Consistent(Seen(files, one))
    ensures Sound(Final(files, one)) && Sound(Final(files, other))
    ensures ActiveRelease(Final(files, one)) == ActiveRelease(Final(files, other))
  {
    EndsAtTheHighest(files, one);
    EndsAtTheHighest(files, other);
  }

  /** Without that, the first to be offered wins: the other is refused. */
  lemma FirstContentWins(files: Files, revision: nat, x: string, y: string)
    requires Sound(files) && revision > ActiveRelease(files).revision && x != y
    ensures ActiveRelease(Act(Act(files, Offer(Release(revision, x))), Offer(Release(revision, y)))) == Release(revision, x)
    ensures ApplyRemote(Act(files, Offer(Release(revision, x))), Release(revision, y)).0 == Err(SameRevisionOtherContent)
  {
  }

  /** Over one file for both, an update replaces the Bundled release itself. */
  lemma SharedPathOverwritesBundled(bundled: Release, offered: Release)
    requires offered.revision > bundled.revision
    ensures Act(Files(Holds(bundled), None), Offer(offered)) == Files(Holds(offered), None)
  {
  }
}
