/** Applying a timing change to a profile: replace the file, restart the daemon,
    wait until it reports the new profile, and roll everything back if it does not. */
module ProfileTransaction {
  import opened Sequences
  import opened ProfileRevision

  /** Timing settings and profiles are compared as wholes. */
  type Timing = int
  type Profile = int

  datatype Result<+T> = Ok(value: T) | Err(cause: string)

  /** A parsed profile file. */
  datatype Document = Document(text: Text, timing: Timing, profile: Profile)

  /** The parser and the editor, which validates the edited profile. */
  datatype Codec = Codec(parse: Text -> Result<Document>, edit: (Document, Timing) -> Result<Document>)

  /** How replacing the file ends: not at all, renamed but not synchronized, or done. */
  datatype Replacement = NotCommitted(cause: string) | NotSynchronized(cause: string) | Replaced

  /** The runtime's and the file system's whole behaviour. */
  datatype Schedule = Schedule(read: nat -> Option<string>, replace: nat -> Replacement,
                               restart: nat -> Result<()>, ready: (nat, Profile) -> Result<()>)

  datatype Event = Wrote(text: Text) | Restarted(ok: bool) | Verified(profile: Profile, ok: bool)

  datatype Outcome =
    | Applied
    | Unchanged
    | ReadFailed(cause: string)
    | Conflict
    | Invalid(cause: string)
    | WriteFailed(cause: string)
    | RuntimeFailed(cause: string)
    | RolledBack(cause: string)
    | RollbackFailed(cause: string, rollback: string)

  /** Whether the last thing that happened was the daemon confirming this profile. */
  predicate LastVerified(log: seq<Event>, profile: Profile) {
    |log| >= 2 && log[|log| - 2] == Restarted(true) && log[|log| - 1] == Verified(profile, true)
  }

  /** One host: the installed profile file and the daemon under systemd. */
  class Host {
    const codec: Codec
    const schedule: Schedule
    var file: Text
    var tick: nat
    /** What was written, restarted and verified, in order. */
    ghost var log: seq<Event>

    constructor (codec: Codec, schedule: Schedule, file: Text)
      ensures this.codec == codec && this.schedule == schedule && this.file == file && log == [] && tick == 0
    {
      this.codec, this.schedule, this.file, tick, log := codec, schedule, file, 0, [];
    }

    /** The daemon comes up on this profile when it is restarted at `tick`. */
    predicate ComesUp(tick: nat, profile: Profile) {
      schedule.restart(tick).Ok? && schedule.ready(tick + 1, profile).Ok?
    }

    /** Writing the original back at `tick` and coming up on it both succeed. */
    predicate Restores(tick: nat, profile: Profile) {
      schedule.replace(tick).Replaced? && ComesUp(tick + 1, profile)
    }

    method AtomicReplace(text: Text) returns (replacement: Replacement)
      modifies this
      ensures replacement == schedule.replace(old(tick)) && tick == old(tick) + 1
      ensures file == if replacement.NotCommitted? then old(file) else text
      ensures log == old(log) + if replacement.NotCommitted? then [] else [Wrote(text)]
    {
      replacement := schedule.replace(tick);
      tick := tick + 1;
      if !replacement.NotCommitted? {
        file := text;
        log := log + [Wrote(text)];
      }
    }

    /** Restarts the daemon and waits until it reports this profile; a failed restart is
        not waited for. */
    method RestartAndVerify(profile: Profile) returns (result: Result<()>)
      modifies this
      ensures file == old(file) && tick == old(tick) + 2
      ensures result == if schedule.restart(old(tick)).Err? then schedule.restart(old(tick))
                        else schedule.ready(old(tick) + 1, profile)
      ensures log == old(log) + [Restarted(schedule.restart(old(tick)).Ok?)] +
                     if schedule.restart(old(tick)).Err? then [] else [Verified(profile, result.Ok?)]
      ensures result.Ok? <==> LastVerified(log, profile) && |log| == |old(log)| + 2
      ensures result.Ok? <==> ComesUp(old(tick), profile)
    {
      result := schedule.restart(tick);
      log := log + [Restarted(result.Ok?)];
      if result.Ok? {
        result := schedule.ready(tick + 1, profile);
        log := log + [Verified(profile, result.Ok?)];
      }
      tick := tick + 2;
    }

    /** Why the daemon does not come up. */
    function Trouble(tick: nat, profile: Profile): string
      requires !ComesUp(tick, profile)
    {
      if schedule.restart(tick).Err? then schedule.restart(tick).cause else schedule.ready(tick + 1, profile).cause
    }

    /** Puts the original text back, byte for byte, and verifies the daemon on it. */
    method RestoreOriginal(original: Text, profile: Profile) returns (result: Result<()>)
      modifies this
      ensures var replacement := schedule.replace(old(tick));
              && file == (if replacement.NotCommitted? then old(file) else original)
              && (replacement.NotCommitted? ==> result == Err(replacement.cause) && log == old(log))
      ensures result.Ok? <==> Restores(old(tick), profile)
      ensures !schedule.replace(old(tick)).NotCommitted? && !ComesUp(old(tick) + 1, profile) ==>
                result == Err(Trouble(old(tick) + 1, profile))
      ensures schedule.replace(old(tick)).NotSynchronized? && ComesUp(old(tick) + 1, profile) ==>
                result == Err(schedule.replace(old(tick)).cause)
      ensures old(log) <= log
      ensures result.Ok? ==> LastVerified(log, profile)
    {
      var replacement := AtomicReplace(original);
      if replacement.NotCommitted? {
        return Err(replacement.cause);
      }
      result := RestartAndVerify(profile);
      if result.Ok? && replacement.NotSynchronized? {
        return Err(replacement.cause);
      }
    }

    method RollbackAfterFailure(original: Text, profile: Profile, cause: string) returns (outcome: Outcome)
      modifies this
      ensures outcome == RolledBack(cause) || (outcome.RollbackFailed? && outcome.cause == cause)
      ensures file == if schedule.replace(old(tick)).NotCommitted? then old(file) else original
      ensures outcome.RolledBack? <==> Restores(old(tick), profile)
      ensures UndoneAs(outcome, old(tick), profile, cause)
      ensures outcome.RolledBack? ==> file == original && LastVerified(log, profile)
      ensures outcome.RollbackFailed? && file != original ==> log == old(log)
      ensures old(log) <= log
    {
      var restored := RestoreOriginal(original, profile);
      if restored.Ok? {
        return RolledBack(cause);
      } else {
        return RollbackFailed(cause, restored.cause);
      }
    }

    /** How a rollback begun at `tick` ends: it names what made it necessary, and what
        went wrong in it. */
    predicate UndoneAs(outcome: Outcome, tick: nat, profile: Profile, cause: string) {
      outcome ==
      match schedule.replace(tick)
      case NotCommitted(rollback) => RollbackFailed(cause, rollback)
      case NotSynchronized(rollback) =>
        RollbackFailed(cause, if ComesUp(tick + 1, profile) then rollback else Trouble(tick + 1, profile))
      case Replaced =>
        if ComesUp(tick + 1, profile) then RolledBack(cause) else RollbackFailed(cause, Trouble(tick + 1, profile))
    }

    /** The document that the change would install. */
    ghost function Candidate(text: Text, timing: Timing): Result<Document> {
      var original := codec.parse(text);
      if original.Err? then original else codec.edit(original.value, timing)
    }

    /** The whole transaction, against any schedule. */
    method Apply(revision: u64, timing: Timing) returns (outcome: Outcome)
      modifies this
      ensures old(log) <= log
      // Applied: the file is the candidate, and the daemon was last verified on it.
      ensures outcome.Applied? ==>
                var candidate := Candidate(old(file), timing);
                candidate.Ok? && file == candidate.value.text && LastVerified(log, candidate.value.profile)
      // Rolled back: the file is the original, and the daemon was last verified on it.
      ensures outcome.RolledBack? ==>
                && file == old(file) && codec.parse(old(file)).Ok?
                && LastVerified(log, codec.parse(old(file)).value.profile)
      // A failed rollback leaves one of the two texts; the candidate only when the
      // original could not be written back at all.
      ensures outcome.RollbackFailed? ==>
                var candidate := Candidate(old(file), timing);
                candidate.Ok? && (file == old(file) || file == candidate.value.text)
      // Every other outcome leaves the file as it was.
      ensures !outcome.Applied? && !outcome.RolledBack? && !outcome.RollbackFailed? ==>
                file == old(file) && forall k :: |old(log)| <= k < |log| ==> !log[k].Wrote?
      // A stale revision, an invalid profile or timing, and a failed write restart nothing.
      ensures outcome.ReadFailed? || outcome.Conflict? || outcome.Invalid? || outcome.WriteFailed? ==> log == old(log)
      // The schedule alone decides: first the file and its revision, ...
      ensures if schedule.read(old(tick)).Some? then outcome == ReadFailed(schedule.read(old(tick)).value)
              else outcome.Conflict? <==> Continue(OFFSET_BASIS, old(file)) != revision
      ensures outcome.ReadFailed? ==> schedule.read(old(tick)).Some?
      // ... then, for the timing in force, whether the daemon comes up, ...
      ensures schedule.read(old(tick)).None? && Continue(OFFSET_BASIS, old(file)) == revision ==>
                var t := old(tick) + 1;
                var original := codec.parse(old(file));
                if original.Err? then outcome == Invalid(original.cause)
                else if original.value.timing == timing then
                  outcome == if ComesUp(t, original.value.profile) then Unchanged
                             else RuntimeFailed(Trouble(t, original.value.profile))
                else
                  // ... and for another one the candidate, its installation and the daemon on it.
                  var candidate := codec.edit(original.value, timing);
                  if candidate.Err? then outcome == Invalid(candidate.cause)
                  else
                    match schedule.replace(t)
                    case NotCommitted(cause) => outcome == WriteFailed(cause)
                    case NotSynchronized(cause) => UndoneAs(outcome, t + 1, original.value.profile, cause)
                    case Replaced =>
                      if ComesUp(t + 1, candidate.value.profile) then outcome == Applied
                      else UndoneAs(outcome, t + 3, original.value.profile, Trouble(t + 1, candidate.value.profile))
      ensures outcome.RollbackFailed? && file != old(file) ==>
                schedule.replace(if schedule.replace(old(tick) + 1).NotSynchronized? then old(tick) + 2
                                 else old(tick) + 4).NotCommitted?
      ensures outcome.Unchanged? ==>
                codec.parse(old(file)).Ok? && LastVerified(log, codec.parse(old(file)).value.profile)
    {
      var failed := schedule.read(tick);
      tick := tick + 1;
      if failed.Some? {
        return ReadFailed(failed.value);
      }
      var originalText := file;
      var current := Revision(originalText);
      if current != revision {
        return Conflict;
      }
      var parsed := codec.parse(originalText);
      if parsed.Err? {
        return Invalid(parsed.cause);
      }
      var original := parsed.value;
      if original.timing == timing {
        var verified := RestartAndVerify(original.profile);
        if verified.Err? {
          return RuntimeFailed(verified.cause);
        }
        return Unchanged;
      }
      var edited := codec.edit(original, timing);
      if edited.Err? {
        return Invalid(edited.cause);
      }
      var candidate := edited.value;
      var replacement := AtomicReplace(candidate.text);
      match replacement {
        case NotCommitted(cause) =>
          return WriteFailed(cause);
        case NotSynchronized(cause) =>
          outcome := RollbackAfterFailure(originalText, original.profile, cause);
        case Replaced =>
          var applied := RestartAndVerify(candidate.profile);
          if applied.Err? {
            outcome := RollbackAfterFailure(originalText, original.profile, applied.cause);
          } else {
            return Applied;
          }
      }
    }
  }
}
