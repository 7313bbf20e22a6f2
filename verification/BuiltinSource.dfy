/** One process's source of the built-in config, over files it shares with other processes. */
module BuiltinSource {
  import opened Wrappers
  import opened BuiltinReleases

  class Disk {
    var files: Files

    constructor (files: Files)
      ensures this.files == files
    {
      this.files := files;
    }
  }

  /** When the source is disposed while a remote release is being applied: not at all, while the lock is awaited,
      while the files are read, while the Active file is brought up to date, or once the release is written. */
  datatype Disposal = Never | Waiting | Reading | Materializing | Writing

  /** The release is newer than what is selected, and the source lives until it is written. */
  predicate Updates(disposed: bool, files: Files, release: Release, disposal: Disposal) {
    !disposed && (disposal.Never? || disposal.Writing?) && ApplyRemote(files, release).0 == Ok(Updated)
  }

  class Source {
    const disk: Disk
    var observedSignature: Option<Release>
    var disposed: bool
    // The chain of refreshes that file events queue up on has failed, and no event will be looked at again.
    var watchFailed: bool
    // What listeners were told, in order.
    var told: seq<string>

    constructor (disk: Disk)
      ensures this.disk == disk && observedSignature == None && !disposed && !watchFailed && told == []
    {
      this.disk, observedSignature, disposed, watchFailed, told := disk, None, false, false, [];
    }

    method Dispose()
      modifies this`disposed
      ensures disposed
    {
      disposed := true;
    }

    method ReadAndMaterializeLocked() returns (selected: Option<Release>)
      requires !disposed
      modifies disk
      ensures (selected, disk.files) == Materialize(old(disk.files))
    {
      var files := disk.files;
      var active := files.active.GetOr(Absent);
      selected := SelectReleaseCandidate(files.bundled, active);
      if selected.Some? && files.active.Some? && active != Holds(selected.value) {
        WriteActiveLocked(selected.value);
      }
    }

    method SelectReleaseCandidate(bundled: File, active: File) returns (selected: Option<Release>)
      ensures selected == Select(bundled, active)
      ensures IsSelection(bundled, active, selected)
    {
      if bundled.Holds? && active.Holds? && bundled.release.revision == active.release.revision && bundled.release != active.release {
        return Some(bundled.release);
      }
      selected := if bundled.Holds? then Some(bundled.release) else None;
      if active.Holds? && (selected.None? || active.release.revision > selected.value.revision) {
        selected := Some(active.release);
      }
    }

    method WriteActiveLocked(release: Release)
      requires !disposed
      modifies disk
      ensures disk.files == Write(old(disk.files), release)
    {
      if disk.files.active.Some? {
        disk.files := disk.files.(active := Some(Holds(release)));
      } else {
        disk.files := disk.files.(bundled := Holds(release));
      }
    }

    /** read. Where the Active file cannot be used (no lock, no watcher, no write) the Bundled release serves. */
    method Read(usable: bool) returns (release: Option<Release>)
      modifies this`observedSignature, disk
      ensures old(disposed) ==>
        release == None && disk.files == old(disk.files) && observedSignature == old(observedSignature)
      ensures !old(disposed) && usable ==> disk.files == Materialize(old(disk.files)).1
      ensures !old(disposed) && !usable ==> disk.files == old(disk.files)
      ensures !old(disposed) ==>
        release == if usable && Materialize(old(disk.files)).0.Some? then Materialize(old(disk.files)).0
                   else Select(old(disk.files).bundled, Absent)
      // A valid Bundled release can always be read.
      ensures !old(disposed) && old(disk.files).bundled.Holds? ==>
        release.Some? && release.value.revision >= old(disk.files).bundled.release.revision
      ensures !old(disposed) && release.Some? ==>
        observedSignature == if old(observedSignature).Some? then old(observedSignature) else release
    {
      if disposed {
        return None;
      }
      release := None;
      if usable {
        release := ReadAndMaterializeLocked();
      }
      if release.None? {
        release := SelectReleaseCandidate(disk.files.bundled, Absent);
      }
      if release.Some? && observedSignature.None? {
        observedSignature := release;
      }
    }

    /** applyRemoteRelease. A dispose before the release is written ends the call with an error, and the files are left
        as they were or only brought up to date; one that comes later keeps listeners from being told, and no more.
        A listener that throws fails the call after it took effect. */
    method ApplyRemoteRelease(release: Release, disposal: Disposal, throwsAtUpdate: bool)
      returns (r: Result<Applied, ApplyError>)
      modifies this`observedSignature, this`told, this`disposed, disk
      ensures disposed == (old(disposed) || !disposal.Never?)
      ensures old(disposed) || disposal.Waiting? ==> r == Err(SourceDisposed) && disk.files == old(disk.files)
      ensures !old(disposed) && disposal.Reading? ==>
        r == Err(if Materialize(old(disk.files)).0.None? then NoRelease else SourceDisposed) && disk.files == old(disk.files)
      ensures !old(disposed) && disposal.Materializing? ==>
        r == Err(if Materialize(old(disk.files)).0.None? then NoRelease else SourceDisposed)
        && disk.files == Materialize(old(disk.files)).1
      ensures !old(disposed) && (disposal.Never? || disposal.Writing?) ==>
        var (applied, files) := ApplyRemote(old(disk.files), release);
        && disk.files == files
        && r == (if applied == Ok(Updated) && disposal.Never? && throwsAtUpdate then Err(ListenerThrew) else applied)
      // The process knows of its own update exactly if it took effect, and told of it unless it was disposed.
      ensures observedSignature == if Updates(old(disposed), old(disk.files), release, disposal) then Some(release)
                                   else old(observedSignature)
      ensures told == old(told) +
        if Updates(old(disposed), old(disk.files), release, disposal) && disposal.Never? then ["remote-updated"] else []
    {
      if disposed {
        return Err(SourceDisposed);
      }
      if disposal.Waiting? || disposal.Reading? {
        disposed := true;
        var selected := SelectReleaseCandidate(disk.files.bundled, disk.files.active.GetOr(Absent));
        return Err(if disposal.Reading? && selected.None? then NoRelease else SourceDisposed);
      }
      var current := ReadAndMaterializeLocked();
      if disposal.Materializing? {
        disposed := true;
        return Err(if current.None? then NoRelease else SourceDisposed);
      }
      r := WriteIfNewer(current, release);
      disposed := disposal.Writing?;
      if r == Ok(Updated) && !disposed {
        told := told + ["remote-updated"];
        if throwsAtUpdate {
          r := Err(ListenerThrew);
        }
      }
    }

    /** The rest of the locked section, from the comparison of revisions on. */
    method WriteIfNewer(current: Option<Release>, release: Release) returns (r: Result<Applied, ApplyError>)
      requires !disposed
      modifies this`observedSignature, disk
      ensures r == if current.None? then Err(NoRelease)
                   else if release.revision < current.value.revision then Ok(Stale)
                   else if release == current.value then Ok(Unchanged)
                   else if release.revision == current.value.revision then Err(SameRevisionOtherContent)
                   else Ok(Updated)
      ensures disk.files == if r == Ok(Updated) then Write(old(disk.files), release) else old(disk.files)
      ensures observedSignature == if r == Ok(Updated) then Some(release) else old(observedSignature)
    {
      if current.None? {
        return Err(NoRelease);
      }
      if release.revision < current.value.revision {
        return Ok(Stale);
      }
      if release.revision == current.value.revision {
        return if release == current.value then Ok(Unchanged) else Err(SameRevisionOtherContent);
      }
      WriteActiveLocked(release);
      observedSignature := Some(release);
      return Ok(Updated);
    }

    /** The refresh a file event leads to: listeners hear of it only if it is news to this process. A listener that
        throws at the news makes it tell of an error as well; one that throws at the error ends the chain of
        refreshes, and file events are not looked at any more. */
    method OnFileEvent(throwsAtChange: bool, throwsAtError: bool)
      modifies this`observedSignature, this`told, this`watchFailed, disk
      ensures old(disposed || watchFailed) ==>
        disk.files == old(disk.files) && told == old(told) && observedSignature == old(observedSignature)
        && watchFailed == old(watchFailed)
      ensures !old(disposed || watchFailed) ==> disk.files == Materialize(old(disk.files)).1
      ensures !old(disposed || watchFailed) ==>
        var selected := Materialize(old(disk.files)).0;
        var news := selected.Some? && selected != old(observedSignature);
        var error := selected.None? || (news && throwsAtChange);
        && observedSignature == (if selected.Some? then selected else old(observedSignature))
        && told == old(told) + (if news then ["file-changed"] else []) + (if error then ["watch-error"] else [])
        && (watchFailed <==> error && throwsAtError)
    {
      if disposed || watchFailed {
        return;
      }
      var release := ReadAndMaterializeLocked();
      if release.None? {
        TellError(throwsAtError);
        return;
      }
      if release == observedSignature {
        return;
      }
      observedSignature := release;
      told := told + ["file-changed"];
      if throwsAtChange {
        TellError(throwsAtError);
      }
    }

    method TellError(throwsAtError: bool)
      modifies this`told, this`watchFailed
      ensures told == old(told) + ["watch-error"] && watchFailed == (old(watchFailed) || throwsAtError)
    {
      told := told + ["watch-error"];
      watchFailed := watchFailed || throwsAtError;
    }
  }

  /** The event that the process's own update causes is not told a second time. */
  method OwnUpdateIsToldOnce(source: Source, release: Release, throwsAtChange: bool, throwsAtError: bool)
    returns (r: Result<Applied, ApplyError>)
    requires !source.disposed && source.disk.files.active.Some?
    modifies source, source.disk
    ensures r == Ok(Updated) ==> source.told == old(source.told) + ["remote-updated"]
  {
    r := source.ApplyRemoteRelease(release, Never, false);
    if r == Ok(Updated) {
      source.OnFileEvent(throwsAtChange, throwsAtError);
    }
  }

  /** However a call ends, the files are as after one of the accesses that the results about many processes are about,
      or untouched. */
  method AnyEndIsAnAccess(source: Source, release: Release, disposal: Disposal, throwsAtUpdate: bool)
    modifies source, source.disk
    ensures source.disk.files in {old(source.disk.files), Act(old(source.disk.files), Look),
                                  Act(old(source.disk.files), Offer(release))}
  {
    var _ := source.ApplyRemoteRelease(release, disposal, throwsAtUpdate);
  }

  /** After a listener threw at an error, a change of the files is not noticed. */
  method AThrowingErrorListenerEndsTheWatch(source: Source, bundled: Release, newer: Release)
    requires !source.disposed && !source.watchFailed && source.observedSignature == None
    requires source.disk.files == Files(Absent, Some(Absent)) && bundled.revision < newer.revision
    modifies source, source.disk
    ensures source.disk.files == Files(Holds(bundled), Some(Holds(newer))) && source.watchFailed
    ensures source.told == old(source.told) + ["watch-error"] && source.observedSignature == None
  {
    source.OnFileEvent(false, true);
    source.disk.files := Files(Holds(bundled), Some(Holds(newer)));
    source.OnFileEvent(false, false);
  }
}
