// journal_reliable.go: RunReliable and runReliableAttempt. journalctl is an
// arbitrary list of lines per attempt; the consumer's acknowledgement and
// OnDegradation's result are whatever each line brings along.
module JournalIngest {
  import opened Wrappers
  import opened JournalTrace
  import opened JournalRun

  const SECOND: int := 1_000_000_000
  const MINUTE: int := 60 * SECOND

  datatype Options = Options(initialCursor: string, initialObservedAt: Option<Time>, initialPending: bool,
                             backfillWindow: int, maxBackfill: int, restartMin: int, restartMax: int)
  {
    function WithDefaults(): Options {
      this.(backfillWindow := if backfillWindow == 0 then 15 * MINUTE else backfillWindow,
            maxBackfill := if maxBackfill == 0 then 10_000 else maxBackfill,
            restartMin := if restartMin == 0 then SECOND else restartMin,
            restartMax := if restartMax == 0 then MINUTE else restartMax)
    }

    predicate Bounded() {
      && 0 <= backfillWindow <= 24 * 60 * MINUTE
      && 1 <= maxBackfill <= 100_000
      && 0 <= restartMin <= restartMax <= 5 * MINUTE
    }
  }

  // The bounds a caller may give, in nanoseconds, zero standing for the defaults
  // of 15 minutes, 10000 entries, one second and one minute.
  lemma BoundsMean(o: Options)
    ensures o.WithDefaults().Bounded() <==>
      && 0 <= o.backfillWindow <= 86_400_000_000_000
      && 0 <= o.maxBackfill <= 100_000
      && 0 <= (if o.restartMin == 0 then 1_000_000_000 else o.restartMin)
      && (if o.restartMin == 0 then 1_000_000_000 else o.restartMin)
         <= (if o.restartMax == 0 then 60_000_000_000 else o.restartMax) <= 300_000_000_000
    ensures o.WithDefaults() == o.(backfillWindow := if o.backfillWindow == 0 then 900_000_000_000 else o.backfillWindow,
                                   maxBackfill := if o.maxBackfill == 0 then 10_000 else o.maxBackfill,
                                   restartMin := if o.restartMin == 0 then 1_000_000_000 else o.restartMin,
                                   restartMax := if o.restartMax == 0 then 60_000_000_000 else o.restartMax)
  {
  }

  datatype Failure = Failure(reason: Reason, diagnostic: Option<Cause>) {
    // A reason an attempt can end with, with evidence to report.
    predicate Ends() {
      && reason in {CursorUnavailable, BackfillTimeLimit, BackfillCountLimit, PersistFailed,
                    StartFailed, ReadFailed, ProcessExited}
      && (diagnostic.Some? || Diagnose(reason).Some?)
    }
  }

  // The allowlist of JournalCauseDescription, for the reasons used as causes.
  function Diagnose(reason: Reason): Option<Cause> {
    match reason
    case ProcessStarted => None
    case RecordPersisted => None
    case StartFailed => None
    case ReadFailed => None
    case _ => Some(Named(reason))
  }

  lemma AccountedNext(journal: seq<Entry>, t: Trace, position: nat)
    requires LastAck(journal, t) == Some(position)
    ensures Accounted(journal, t, position + 1)
  {
  }

  lemma CursorUnique(journal: seq<Entry>, position: nat)
    requires Orderly(journal) && position < |journal|
    ensures forall p :: 0 <= p < |journal| && journal[p].cursor == journal[position].cursor ==> p == position
  {
  }

  // What reading a line came to.
  function ReadOf(t: Trace, r: Reader, stop: Option<Failure>): Read {
    if stop.Some? then Ended(t, stop.value.reason) else More(t, r)
  }

  class Ingest {
    const w: World
    var trace: Trace
    var cursor: string
    var acknowledgedAt: Option<Time>
    var forceSince: Option<Time>
    var backoff: int
    var recoveryPending: bool
    var lastFailure: Option<Cause>
    var qualityFailure: Option<Cause>

    // recoveryPending is exactly "a quality loss awaits recovery", and it comes
    // with evidence to report.
    ghost predicate RecoveryKept()
      reads this`trace, this`recoveryPending, this`lastFailure, this`qualityFailure
    {
      && recoveryPending == Pending(w.journal, trace)
      && (recoveryPending <==> qualityFailure.Some?)
      && (qualityFailure.Some? ==> lastFailure.Some?)
      && lastFailure.Some? == Evidence(trace)
    }

    // The cursor names the last acknowledged position, or a gap was declared.
    ghost predicate CursorKept()
      reads this`trace, this`cursor, this`acknowledgedAt, this`forceSince
    {
      && (w.orderly && cursor != "" ==>
            forall p :: 0 <= p < |w.journal| && w.journal[p].cursor == cursor ==> LastAck(w.journal, trace) == Some(p))
      && (cursor == "" && LastAck(w.journal, trace).Some? ==> LossDeclared(trace))
      && (w.anchored && cursor == "" && !LossDeclared(trace) ==> acknowledgedAt.None? && forceSince.None?)
    }

    // The carried state is what the history determines.
    ghost predicate StateKept()
      reads this`trace, this`cursor, this`acknowledgedAt, this`forceSince, this`backoff
    {
      && cursor == CursorOf(w, trace)
      && acknowledgedAt == AckTime(w, trace)
      && forceSince == ForcedSince(trace)
      && backoff == NextBackoff(w, trace)
      && 0 <= w.restartMin <= backoff <= w.restartMax
    }

    ghost predicate Steady()
      reads this
    {
      Safe(w, trace) && RecoveryKept() && CursorKept() && StateKept()
    }

    constructor (w: World)
      requires 0 <= w.restartMin <= w.restartMax
      requires w.orderly ==> Orderly(w.journal)
      requires w.anchored ==> w.initialObservedAt.Some? ==> w.initialCursor != ""
      ensures this.w == w && Steady() && trace == Begin(w.initialCursor, w.initialPending)
    {
      this.w := w;
      trace := Begin(w.initialCursor, w.initialPending);
      cursor, acknowledgedAt, forceSince := w.initialCursor, w.initialObservedAt, None;
      backoff, recoveryPending := w.restartMin, w.initialPending;
      qualityFailure := if w.initialPending then Some(Classified(0)) else None;
      lastFailure := if w.initialPending then Some(Classified(0)) else None;
    }

    // An initial cursor that fails validation is given up with a declared gap.
    method CheckInitialCursor()
      requires Steady() && trace == Begin(w.initialCursor, w.initialPending)
      modifies this
      ensures Steady() && trace == Opening(w)
    {
      if cursor != "" && !ValidCursor(cursor) {
        DeclareLoss(InvalidCursor);
      }
    }

    // publish: keeps the failure evidence, records quality loss durably, reports.
    method Publish(status: Status, given: Option<Cause>, line: Option<nat>, durable: bool) returns (ok: bool)
      requires qualityFailure.Some? ==> lastFailure.Some?
      requires status.reason.ProcessStarted? || status.reason.RecordPersisted? ==> !status.QualityDegraded()
      requires !status.reason.ProcessStarted? && !status.reason.RecordPersisted? ==>
        given.Some? || Diagnose(status.reason).Some?
      requires status.reason.ProcessStarted? && status.state.Retrying? ==> qualityFailure.Some?
      modifies this`trace, this`lastFailure, this`qualityFailure
      ensures trace == Then(old(trace), Published(status, line, ok))
      ensures ok <==> !status.QualityDegraded() || durable
      ensures status.reason.RecordPersisted? ==> lastFailure == qualityFailure == None
      ensures status.QualityDegraded() ==>
        qualityFailure == lastFailure == (if given.Some? then given else Diagnose(status.reason)) && lastFailure.Some?
      ensures !status.QualityDegraded() && !status.reason.RecordPersisted? ==> qualityFailure == old(qualityFailure)
      ensures !status.QualityDegraded() && !status.reason.RecordPersisted? ==>
        lastFailure == if status.state.Retrying? && !status.reason.ProcessStarted?
                       then (if given.Some? then given else Diagnose(status.reason)) else old(lastFailure)
      ensures qualityFailure.Some? ==> lastFailure.Some?
      ensures old(lastFailure.Some? == Evidence(trace)) ==> lastFailure.Some? == Evidence(trace)
    {
      var diagnostic := given;
      match status.reason {
        case RecordPersisted =>
          lastFailure, qualityFailure := None, None;
        case ProcessStarted =>
          diagnostic := lastFailure;
          if status.state.Retrying? {
            diagnostic := qualityFailure;
            if diagnostic.None? {
              assert false; // the recovery_pending fallback is never needed
            }
          }
        case _ =>
          if diagnostic.None? {
            diagnostic := Diagnose(status.reason);
          }
          if status.QualityDegraded() {
            qualityFailure, lastFailure := diagnostic, diagnostic;
          } else if status.state.Retrying? {
            lastFailure := diagnostic;
          }
      }
      ok := !status.QualityDegraded() || durable;
      trace := Then(trace, Published(status, line, ok));
    }

    // Inside the attempt that `launch` started.
    ghost predicate Attempting(r: Reader, launch: Event)
      reads this
    {
      && Steady() && r.lastCursor == cursor && launch.Launched?
      && launch == Launched(r.launchCursor, launch.ackedAt, r.since, r.started)
      && CurrentLaunch(trace) == Some(launch) && !DegradationFailed(trace)
      && Replayed(trace) <= r.backfill && r.live == IsLive(trace)
      && (r.launchCursor == "" && launch.ackedAt.Some? ==> r.since > launch.ackedAt.value)
      && (r.verifyCursor ==> r.launchCursor == cursor != "" && !r.live)
    }

    ghost predicate Stopped(launch: Event)
      reads this
    {
      Steady() && CurrentLaunch(trace) == Some(launch)
    }

    ghost predicate InAttempt(r: Reader, launch: Event, frontier: nat, first: bool)
      reads this
    {
      && Attempting(r, launch) && !r.OverLimit(w.maxBackfill)
      && (w.orderly && !r.verifyCursor ==> Contiguous(r, frontier, first))
    }

    // Where reading stands: nothing between the last acknowledged position and
    // the frontier is unaccounted for.
    ghost predicate Contiguous(r: Reader, frontier: nat, first: bool)
      reads this`trace
    {
      var last := LastAck(w.journal, trace);
      last.Some? && !LossDeclared(trace) ==>
        && !first
        && Accounted(w.journal, trace, frontier)
        && (r.launchCursor == "" ==> last.value < |w.journal| && w.journal[last.value].ReceivedAt() >= r.since)
    }

    // The consumer closure of RunReliable, up to its acknowledgement.
    method Record(position: nat, ack: Ack)
      requires position < |w.journal| && StateKept() && Safe(w, trace) && MayConsume(w, trace, position)
      modifies this`trace, this`cursor, this`acknowledgedAt, this`forceSince
      ensures trace == Then(old(trace), Consumed(position, ack))
      ensures StateKept() && Safe(w, trace)
      ensures !ack.Refused? ==> cursor == w.journal[position].cursor
      ensures ack.Refused? ==> unchanged(this`cursor, this`acknowledgedAt, this`forceSince)
    {
      hide MayConsume, Orderly, ValidCursor;
      var entry := w.journal[position];
      trace := Then(trace, Consumed(position, ack));
      if ack.Refused? {
        return;
      }
      cursor := entry.cursor;
      if acknowledgedAt.None? || entry.ReceivedAt() > acknowledgedAt.value {
        acknowledgedAt := Some(entry.ReceivedAt());
      }
      forceSince := None;
    }

    method Deliver(position: nat, ack: Ack) returns (accepted: bool)
      requires position < |w.journal| && RecoveryKept() && StateKept()
      requires Safe(w, trace) && MayConsume(w, trace, position)
      modifies this`trace, this`cursor, this`acknowledgedAt, this`forceSince, this`lastFailure, this`qualityFailure
      ensures Safe(w, trace) && StateKept() && IsLive(trace) == IsLive(old(trace))
      ensures accepted <==> !ack.Refused?
      ensures CurrentLaunch(trace) == CurrentLaunch(old(trace))
      ensures DegradationFailed(trace) == DegradationFailed(old(trace))
      ensures Replayed(trace) == Replayed(old(trace)) + if IsLive(trace) then 0 else 1
      ensures recoveryPending <==> qualityFailure.Some?
      ensures qualityFailure.Some? ==> lastFailure.Some?
      ensures Pending(w.journal, trace) <==> recoveryPending && !(ack.Recorded? && w.journal[position].Trusted())
      ensures lastFailure.Some? == Evidence(trace)
      ensures trace ==
        var taken := Then(old(trace), Consumed(position, ack));
        if ack.Recorded? && !recoveryPending && w.journal[position].Trusted() && Evidence(old(trace))
        then Then(taken, Published(Status(Running, RecordPersisted), None, true)) else taken
      ensures !accepted ==> LastAck(w.journal, trace) == LastAck(w.journal, old(trace))
      ensures !accepted ==> LossDeclared(trace) == LossDeclared(old(trace))
      ensures !accepted ==> unchanged(this`cursor, this`acknowledgedAt, this`forceSince)
      ensures accepted ==> cursor == w.journal[position].cursor
      ensures accepted ==> LastAck(w.journal, trace) == Some(position) && !LossDeclared(trace)
    {
      hide MayConsume, Orderly, ValidCursor;
      Record(position, ack);
      if ack.Refused? {
        return false;
      }
      if ack.Recorded? && !recoveryPending && lastFailure.Some? && w.journal[position].Trusted() {
        DeclareRecovered(position);
      }
      return true;
    }

    // record_persisted: a new trusted entry clears the retained failure evidence.
    method DeclareRecovered(position: nat)
      requires trace.Then? && trace.last == Consumed(position, Recorded)
      requires position < |w.journal| && w.journal[position].Trusted()
      requires Safe(w, trace) && StateKept() && (qualityFailure.Some? ==> lastFailure.Some?)
      modifies this`trace, this`lastFailure, this`qualityFailure
      ensures Safe(w, trace) && StateKept() && lastFailure == qualityFailure == None && !Evidence(trace)
      ensures LastAck(w.journal, trace) == LastAck(w.journal, old(trace))
      ensures LossDeclared(trace) == LossDeclared(old(trace)) && CurrentLaunch(trace) == CurrentLaunch(old(trace))
      ensures DegradationFailed(trace) == DegradationFailed(old(trace)) && IsLive(trace) == IsLive(old(trace))
      ensures Replayed(trace) == Replayed(old(trace)) && !Pending(w.journal, trace)
      ensures trace == Then(old(trace), Published(Status(Running, RecordPersisted), None, true))
    {
      hide MayConsume, Orderly, ValidCursor;
      var _ := Publish(Status(Running, RecordPersisted), None, None, true);
    }

    // A quality loss: it must be durably recorded before reading goes on.
    method LoseQuality(r: Reader, status: Status, position: nat, durable: bool,
                       ghost launch: Event, ghost frontier: nat, ghost first: bool)
      returns (stop: Option<Failure>)
      requires status.QualityDegraded() && Diagnose(status.reason).Some?
      requires Attempting(r, launch)
      requires w.orderly ==> first || position <= frontier
      requires w.orderly && !r.verifyCursor ==> Contiguous(r, frontier, first)
      modifies this`trace, this`lastFailure, this`qualityFailure, this`recoveryPending
      ensures Replayed(trace) == Replayed(old(trace))
      ensures trace == Then(old(trace), Published(status, Some(position), durable))
      ensures stop.None? <==> durable
      ensures stop.Some? ==> stop.value.reason == PersistFailed
      ensures Stopped(launch)
      ensures stop.None? ==> Attempting(r, launch)
      ensures stop.None? && w.orderly && !r.verifyCursor ==> Contiguous(r, frontier, first) && Contiguous(r, position + 1, false)
      ensures stop.Some? ==> stop.value.Ends()
    {
      hide Orderly, ValidCursor;
      recoveryPending := true;
      var ok := Publish(status, None, Some(position), durable);
      assert ok ==> BadRecorded(trace) == BadRecorded(old(trace)) + {position};
      stop := if ok then None else Some(Failure(PersistFailed, Diagnose(PersistFailed)));
    }

    // One iteration of the read loop, on a line.
    method HandleLine(given: Reader, line: Line, ghost launch: Event, ghost frontier: nat, ghost first: bool)
      returns (r: Reader, stop: Option<Failure>)
      requires InAttempt(given, launch, frontier, first)
      requires line.position < |w.journal|
      requires w.orderly ==> Orderly(w.journal) && (first || line.position <= frontier)
      modifies this
      ensures stop.None? ==> InAttempt(r, launch, line.position + 1, false)
      ensures stop.Some? ==> Stopped(launch) && stop.value.Ends()
      ensures ReadOf(trace, r, stop) == ReadLine(w, old(trace), given, line)
    {
      hide Orderly, ValidCursor, ReadEntry;
      r := given;
      if !r.live {
        r := r.(backfill := r.backfill + 1);
      }
      var entry := w.journal[line.position];
      if line.shape.Oversized? || line.shape.Garbled? || !entry.Addressable() {
        stop := LoseQuality(r, Status(Gap, MalformedRecord), line.position, line.durable, launch, frontier, first);
        if stop.Some? {
          return;
        }
      } else {
        r, stop := HandleRecord(r, line, entry, launch, frontier, first);
        return;
      }
      if r.OverLimit(w.maxBackfill) {
        return r, Some(Failure(BackfillCountLimit, None));
      }
    }

    // A decoded record: boundary verification, the replay window and its limit.
    method HandleRecord(given: Reader, line: Line, entry: Entry, ghost launch: Event, ghost frontier: nat, ghost first: bool)
      returns (r: Reader, stop: Option<Failure>)
      requires Attempting(given, launch) && (w.orderly && !given.verifyCursor ==> Contiguous(given, frontier, first))
      requires !given.live ==> Replayed(trace) < given.backfill && given.backfill <= w.maxBackfill + 1
      requires line.position < |w.journal| && entry == w.journal[line.position] && entry.Addressable()
      requires w.orderly ==> Orderly(w.journal) && (first || line.position <= frontier)
      modifies this
      ensures stop.None? ==> InAttempt(r, launch, line.position + 1, false)
      ensures stop.Some? ==> Stopped(launch) && stop.value.Ends()
      ensures ReadOf(trace, r, stop) == ReadRecord(w, old(trace), given, line)
    {
      hide ValidCursor, Safe, StateKept, RecoveryKept, ReadDue;
      r := given;
      if r.verifyCursor {
        if entry.cursor != r.launchCursor {
          return r, Some(Failure(CursorUnavailable, None));
        }
        // Seen before this launch, the boundary does not count toward the limit.
        return r.(verifyCursor := false, backfill := r.backfill - 1), None;
      }
      if entry.ReceivedAt() >= r.started && !r.live {
        NoteLive(r, line.position, launch, frontier, first);
        r := r.(live := true);
      }
      if entry.ReceivedAt() < r.since {
        if r.launchCursor != "" {
          return r, Some(Failure(BackfillTimeLimit, None));
        }
        if r.OverLimit(w.maxBackfill) {
          return r, Some(Failure(BackfillCountLimit, None));
        }
        if w.orderly && LastAck(w.journal, trace).Some? && !LossDeclared(trace) {
          assert line.position < LastAck(w.journal, trace).value;
        }
        return r, None;
      }
      if r.OverLimit(w.maxBackfill) {
        return r, Some(Failure(BackfillCountLimit, None));
      }
      r, stop := HandleEntry(r, line, entry, launch, frontier, first);
      if stop.None? && r.OverLimit(w.maxBackfill) {
        assert false; // the limit was checked before the delivery
      }
    }

    method NoteLive(r: Reader, position: nat, ghost launch: Event, ghost frontier: nat, ghost first: bool)
      requires Attempting(r, launch) && !r.live && !r.verifyCursor
      requires position < |w.journal| && w.journal[position].ReceivedAt() >= r.started
      requires w.orderly ==> Contiguous(r, frontier, first)
      modifies this`trace
      ensures Attempting(r.(live := true), launch) && trace == Then(old(trace), WentLive(position))
      ensures w.orderly ==> Contiguous(r, frontier, first)
    {
      hide Orderly, ValidCursor;
      trace := Then(trace, WentLive(position));
      assert BadRecorded(trace) == BadRecorded(old(trace));
    }

    // An entry inside the replay window.
    method HandleEntry(given: Reader, line: Line, entry: Entry, ghost launch: Event, ghost frontier: nat, ghost first: bool)
      returns (r: Reader, stop: Option<Failure>)
      requires InAttempt(given, launch, frontier, first) && !given.verifyCursor
      requires line.position < |w.journal| && entry == w.journal[line.position] && entry.Addressable()
      requires w.orderly ==> Orderly(w.journal) && (first || line.position <= frontier)
      requires entry.ReceivedAt() >= given.since
      requires !given.live ==> Replayed(trace) < given.backfill && entry.ReceivedAt() < given.started
      modifies this
      ensures stop.None? ==> InAttempt(r, launch, line.position + 1, false)
      ensures stop.Some? ==> Stopped(launch) && stop.value.Ends()
      ensures ReadOf(trace, r, stop) == ReadDue(w, old(trace), given, line)
    {
      hide Orderly, ValidCursor, Safe, StateKept, RecoveryKept, Taken;
      r := given;
      if entry.skip.MalformedMessage? || entry.skip.UntrustedOrigin? {
        var reason := if entry.skip.MalformedMessage? then MalformedRecord else UntrustedRecord;
        stop := LoseQuality(r, Status(Degraded, reason), line.position, line.durable, launch, frontier, first);
        if stop.Some? {
          return;
        }
      }
      if entry.cursor == r.lastCursor {
        return r, None;
      }
      assert w.orderly ==> Accounted(w.journal, trace, line.position);
      assert entry.Trusted() || (trace.last.BadLine(line.position) && trace.last.durable);
      stop := Acknowledge(r, line, entry, launch);
      r := r.(lastCursor := entry.cursor);
    }

    lemma DeliveryPermitted(r: Reader, position: nat, launch: Event)
      requires Attempting(r, launch) && position < |w.journal|
      requires w.orderly ==> Accounted(w.journal, trace, position)
      requires w.journal[position].Trusted() || (trace.Then? && trace.last.BadLine(position) && trace.last.durable)
      requires w.journal[position].ReceivedAt() >= r.since
      requires !r.live ==> Replayed(trace) < w.maxBackfill && w.journal[position].ReceivedAt() < r.started
      ensures MayConsume(w, trace, position)
    {
      hide Accounted, Safe, Pending, LastAck;
    }

    // Hands an entry to the consumer and, on a trusted new record, declares recovery.
    method Acknowledge(r: Reader, line: Line, entry: Entry, ghost launch: Event) returns (stop: Option<Failure>)
      requires Attempting(r, launch) && !r.verifyCursor && !r.OverLimit(w.maxBackfill)
      requires line.position < |w.journal| && entry == w.journal[line.position] && entry.Addressable()
      requires w.orderly ==> Accounted(w.journal, trace, line.position) && Orderly(w.journal)
      requires entry.Trusted() || (trace.Then? && trace.last.BadLine(line.position) && trace.last.durable)
      requires entry.ReceivedAt() >= r.since
      requires !r.live ==> Replayed(trace) < r.backfill && entry.ReceivedAt() < r.started
      modifies this
      ensures stop.None? ==> InAttempt(r.(lastCursor := entry.cursor), launch, line.position + 1, false)
      ensures stop.Some? ==> Stopped(launch) && stop.value.Ends()
      ensures stop.Some? <==> line.ack.Refused?
      ensures stop.Some? ==> stop.value.reason == PersistFailed && trace == Then(old(trace), Consumed(line.position, line.ack))
      ensures stop.None? ==> trace == Taken(w, old(trace), line)
    {
      assert entry.cursor != "";
      DeliveryPermitted(r, line.position, launch);
      hide Orderly, ValidCursor, Accounted, MayConsume, StateKept, CursorKept, Safe, Pending, LastAck, LossDeclared,
           CurrentLaunch, DegradationFailed, IsLive, Replayed, AckTime, ForcedSince, Evidence;
      PendingEvidence();
      var accepted := Deliver(line.position, line.ack);
      if !accepted {
        CursorUnmoved();
        return Some(Failure(PersistFailed, Diagnose(PersistFailed)));
      }
      SettleRecovery(line.position, line.ack);
      CursorMoved(line.position);
      AccountedNext(w.journal, trace, line.position);
      return None;
    }

    lemma PendingEvidence()
      requires RecoveryKept()
      ensures recoveryPending ==> Evidence(trace)
    {
    }

    // The read loop's part in recovery, after an accepted delivery.
    method SettleRecovery(position: nat, ack: Ack)
      requires position < |w.journal| && !ack.Refused? && Safe(w, trace) && StateKept()
      requires recoveryPending <==> qualityFailure.Some?
      requires qualityFailure.Some? ==> lastFailure.Some?
      requires Pending(w.journal, trace) <==> recoveryPending && !(ack.Recorded? && w.journal[position].Trusted())
      requires recoveryPending ==> trace.Then? && trace.last == Consumed(position, ack)
      requires lastFailure.Some? == Evidence(trace)
      modifies this`trace, this`lastFailure, this`qualityFailure, this`recoveryPending
      ensures Safe(w, trace) && StateKept() && RecoveryKept()
      ensures trace == if ack.Recorded? && old(recoveryPending) && w.journal[position].Trusted()
                       then Then(old(trace), Published(Status(Running, RecordPersisted), None, true)) else old(trace)
      ensures LastAck(w.journal, trace) == LastAck(w.journal, old(trace))
      ensures LossDeclared(trace) == LossDeclared(old(trace)) && CurrentLaunch(trace) == CurrentLaunch(old(trace))
      ensures DegradationFailed(trace) == DegradationFailed(old(trace)) && IsLive(trace) == IsLive(old(trace))
      ensures Replayed(trace) == Replayed(old(trace))
    {
      hide Safe, StateKept, Pending, LastAck, LossDeclared, CurrentLaunch, DegradationFailed, IsLive, Replayed;
      if ack.Recorded? && recoveryPending && w.journal[position].Trusted() {
        recoveryPending := false;
        DeclareRecovered(position);
      }
    }

    // An acknowledged position and its cursor, or no change at all.
    lemma CursorMoved(position: nat)
      requires position < |w.journal| && cursor == w.journal[position].cursor != ""
      requires LastAck(w.journal, trace) == Some(position)
      requires w.orderly ==> Orderly(w.journal)
      ensures CursorKept()
    {
      if w.orderly {
        CursorUnique(w.journal, position);
      }
    }

    twostate lemma CursorUnmoved()
      requires old(CursorKept()) && LastAck(w.journal, trace) == LastAck(w.journal, old(trace))
      requires LossDeclared(trace) == LossDeclared(old(trace))
      requires unchanged(this`cursor, this`acknowledgedAt, this`forceSince)
      ensures CursorKept()
    {
    }

    // runReliableAttempt, from the start of the process to its end.
    method RunAttempt(a: Attempt, ghost ackedAt: Option<Time>, start: Time) returns (failure: Failure)
      requires Steady() && InLines(w, a.lines)
      requires w.orderly ==> Orderly(w.journal) && Follows(a.lines)
      requires cursor == "" && ackedAt.Some? ==> start > ackedAt.value
      requires CurrentLaunch(trace) == Some(Launched(cursor, ackedAt, start, a.started))
      requires !DegradationFailed(trace) && Replayed(trace) == 0 && !IsLive(trace)
      modifies this
      ensures Steady() && failure.Ends() && CurrentLaunch(trace) == CurrentLaunch(old(trace))
      ensures (trace, failure.reason) == Attempted(w, old(trace), a)
    {
      hide Orderly, ValidCursor, Contiguous, ReadLine, ReportedUp, StateKept, Safe, Pending, LastAck, LossDeclared, CurrentLaunch, DegradationFailed, Replayed, IsLive;
      if a.startError.Some? {
        return Failure(StartFailed, a.startError);
      }
      ghost var launch := Launched(cursor, ackedAt, start, a.started);
      var r := BeginAttempt(a.started, start, launch);
      ghost var reading := ReadLines(w, trace, r, a.lines);
      assert a.lines[0..] == a.lines;
      ghost var frontier: nat := 0;
      var i := 0;
      while i < |a.lines|
        invariant 0 <= i <= |a.lines|
        invariant InAttempt(r, launch, frontier, i == 0)
        invariant ReadLines(w, trace, r, a.lines[i..]) == reading
        invariant i > 0 ==> frontier == a.lines[i - 1].position + 1
      {
        assert a.lines[i..][0] == a.lines[i] && a.lines[i..][1..] == a.lines[i + 1..];
        var stop;
        r, stop := HandleLine(r, a.lines[i], launch, frontier, i == 0);
        if stop.Some? {
          return stop.value;
        }
        frontier := a.lines[i].position + 1;
        i := i + 1;
      }
      if r.OverLimit(w.maxBackfill) {
        assert false; // it was checked after every line
      }
      match a.outcome {
        case StreamError(cause) =>
          failure := Failure(ReadFailed, Some(cause));
        case Exited(cursorRejected, cause) =>
          failure := Failure(if r.launchCursor != "" && cursorRejected then CursorUnavailable else ProcessExited, Some(cause));
      }
    }

    method BeginAttempt(begun: Time, start: Time, ghost launch: Event) returns (r: Reader)
      requires Steady() && launch.Launched? && launch == Launched(cursor, launch.ackedAt, start, begun)
      requires cursor == "" && launch.ackedAt.Some? ==> start > launch.ackedAt.value
      requires CurrentLaunch(trace) == Some(launch)
      requires !DegradationFailed(trace) && Replayed(trace) == 0 && !IsLive(trace)
      modifies this`trace, this`lastFailure, this`qualityFailure
      ensures InAttempt(r, launch, 0, true)
      ensures r == FreshReader(old(cursor), start, begun) && trace == ReportedUp(w, old(trace))
    {
      hide Orderly, ValidCursor;
      ReportStart();
      if cursor == "" {
        ColdStart();
      }
      return Reader(cursor, start, begun, 0, cursor != "", cursor, false);
    }

    lemma ColdStart()
      requires CursorKept() && cursor == ""
      ensures LastAck(w.journal, trace).None? || LossDeclared(trace)
    {
    }

    method ReportStart()
      requires Steady()
      modifies this`trace, this`lastFailure, this`qualityFailure
      ensures Steady() && CurrentLaunch(trace) == CurrentLaunch(old(trace))
      ensures trace == ReportedUp(w, old(trace))
      ensures DegradationFailed(trace) == DegradationFailed(old(trace))
      ensures Replayed(trace) == Replayed(old(trace)) && IsLive(trace) == IsLive(old(trace))
    {
      hide Orderly, ValidCursor;
      var _ := Publish(Status(if recoveryPending then Retrying else Running, ProcessStarted), None, None, true);
    }

    // RunReliable's loop body: one launch, one attempt, one restart delay.
    method RunOnce(a: Attempt)
      requires Steady() && InLines(w, a.lines)
      requires w.orderly ==> Orderly(w.journal) && Follows(a.lines)
      modifies this
      ensures Steady() && trace == Round(w, old(trace), a)
    {
      hide Orderly, ValidCursor, Safe, Pending, LastAck, LossDeclared, DegradationFailed, Replayed, IsLive,
           Launching, Attempted, Settled, Delayed;
      var start := Launch(a.started);
      ghost var launch := CurrentLaunch(trace);
      var before := cursor;
      var failure := RunAttempt(a, acknowledgedAt, start);
      Settle(failure, a.started, launch);
      Sleep(before, a.overMinute);
    }

    // Chooses where the next attempt starts, declaring what it gives up.
    method Launch(begun: Time) returns (start: Time)
      requires Steady()
      modifies this`cursor, this`trace, this`lastFailure, this`qualityFailure
      ensures Steady() && (cursor == "" && acknowledgedAt.Some? ==> start > acknowledgedAt.value)
      ensures CurrentLaunch(trace) == Some(Launched(cursor, acknowledgedAt, start, begun))
      ensures !DegradationFailed(trace) && Replayed(trace) == 0 && !IsLive(trace)
      ensures trace == Launching(w, old(trace), begun) && cursor == CursorOf(w, trace)
    {
      hide Orderly, ValidCursor;
      if cursor != "" && acknowledgedAt.Some? && acknowledgedAt.value < begun - w.window {
        DeclareLoss(BackfillTimeLimit);
      }
      start := ChooseStart(begun);
      if cursor == "" && acknowledgedAt.None? && forceSince.None? {
        DeclareLoss(BackfillTimeLimit);
      }
      assert w.anchored && cursor == "" ==> LossDeclared(trace);
      Announce();
      hide CursorKept, RecoveryKept, Pending, LastAck, BadRecorded;
      EnterAttempt(start, begun);
    }

    method ChooseStart(begun: Time) returns (start: Time)
      ensures start == SinceOf(w.window, cursor, acknowledgedAt, forceSince, begun)
    {
      start := begun - w.window;
      if cursor == "" && acknowledgedAt.Some? {
        var recent := acknowledgedAt.value - acknowledgedAt.value % MICROSECOND + MICROSECOND;
        if recent > start {
          start := recent;
        }
      }
      if forceSince.Some? && forceSince.value > start {
        start := forceSince.value;
      }
    }

    method EnterAttempt(start: Time, begun: Time)
      requires Steady() && start == SinceOf(w.window, cursor, acknowledgedAt, forceSince, begun)
      requires cursor != "" && acknowledgedAt.Some? ==> acknowledgedAt.value >= begun - w.window
      requires w.anchored && cursor == "" ==> LossDeclared(trace)
      modifies this`trace
      ensures Steady() && CurrentLaunch(trace) == Some(Launched(cursor, acknowledgedAt, start, begun))
      ensures !DegradationFailed(trace) && Replayed(trace) == 0 && !IsLive(trace)
      ensures trace == Then(old(trace), Launched(cursor, acknowledgedAt, start, begun))
    {
      hide Orderly, ValidCursor, SinceOf;
      trace := Then(trace, Launched(cursor, acknowledgedAt, start, begun));
    }

    method Announce()
      requires Steady()
      modifies this`trace, this`lastFailure, this`qualityFailure
      ensures Steady() && LossDeclared(trace) == LossDeclared(old(trace))
      ensures trace == Then(old(trace), Published(Status(Starting, ProcessStarted), None, true))
    {
      hide Orderly, ValidCursor;
      var _ := Publish(Status(Starting, ProcessStarted), None, None, true);
    }

    // A declared loss of coverage gives the cursor up.
    method DeclareLoss(reason: Reason)
      requires Steady()
      requires reason in {InvalidCursor, CursorUnavailable, BackfillTimeLimit}
      modifies this`cursor, this`trace, this`lastFailure, this`qualityFailure
      ensures Steady() && cursor == "" && LossDeclared(trace)
      ensures trace == Then(old(trace), Published(Status(Gap, reason), None, true))
    {
      hide Orderly, ValidCursor;
      var _ := Publish(Status(Gap, reason), None, None, true);
      cursor := "";
    }

    // After an attempt: an unusable cursor is given up with a declared gap.
    method Settle(failure: Failure, begun: Time, ghost launch: Option<Event>)
      requires Steady() && failure.Ends()
      requires CurrentLaunch(trace) == launch && launch.Some? && launch.value.started == begun
      modifies this`cursor, this`forceSince, this`trace, this`lastFailure, this`qualityFailure
      ensures Steady() && CurrentLaunch(trace) == launch && trace == Settled(old(trace), failure.reason)
    {
      hide Orderly, ValidCursor;
      match failure.reason {
        case CursorUnavailable =>
          DeclareLoss(failure.reason);
        case BackfillTimeLimit =>
          DeclareLoss(failure.reason);
        case BackfillCountLimit =>
          var _ := Publish(Status(Gap, failure.reason), None, None, true);
          cursor, forceSince := "", Some(begun);
        case _ =>
      }
      ReportRetry(failure);
    }

    method ReportRetry(failure: Failure)
      requires Steady() && failure.Ends()
      modifies this`trace, this`lastFailure, this`qualityFailure
      ensures Steady() && CurrentLaunch(trace) == CurrentLaunch(old(trace))
      ensures trace == Then(old(trace), Published(Status(Retrying, failure.reason), None, true))
    {
      hide Orderly, ValidCursor;
      var _ := Publish(Status(Retrying, failure.reason), failure.diagnostic, None, true);
    }

    // The restart delay doubles until an attempt makes progress or lasts.
    method Sleep(before: string, overMinute: bool)
      requires Steady() && CurrentLaunch(trace).Some? && CurrentLaunch(trace).value.cursor == before
      modifies this`trace, this`backoff
      ensures Steady() && trace == Delayed(w, old(trace), before, overMinute)
    {
      hide Orderly, ValidCursor;
      if cursor != before || overMinute {
        backoff := w.restartMin;
      }
      trace := Then(trace, Slept(backoff, overMinute));
      backoff := if backoff * 2 < w.restartMax then backoff * 2 else w.restartMax;
    }
  }

  // The hypotheses are about the journal and its reader, and about the caller.
  function WorldOf(options: Options, journal: seq<Entry>, ghost attempts: seq<Attempt>): World
    requires options.Bounded()
  {
    World(journal, options.initialCursor, options.initialObservedAt, options.initialPending,
          options.backfillWindow, options.maxBackfill, options.restartMin, options.restartMax,
          Orderly(journal) && AllFollow(attempts),
          options.initialObservedAt.Some? ==> options.initialCursor != "")
  }

  // RunReliable: None for bounds it refuses, otherwise the history of a run that
  // was stopped after these attempts.
  method RunReliable(given: Options, journal: seq<Entry>, attempts: seq<Attempt>) returns (history: Option<Trace>)
    requires forall a :: a in attempts ==> forall l :: l in a.lines ==> l.position < |journal|
    ensures history.None? <==> !given.WithDefaults().Bounded()
    ensures history.Some? ==>
      var w := WorldOf(given.WithDefaults(), journal, attempts);
      Safe(w, history.value) && InJournal(w, attempts) && history.value == History(w, attempts)
  {
    var options := given.WithDefaults();
    if !options.Bounded() {
      return None;
    }
    var w := WorldOf(options, journal, attempts);
    var ingest := new Ingest(w);
    ingest.CheckInitialCursor();
    assert attempts[..0] == [];
    for i := 0 to |attempts|
      invariant ingest.Steady() && ingest.w == w && fresh(ingest)
      invariant ingest.trace == History(w, attempts[..i])
    {
      assert attempts[..i + 1][..i] == attempts[..i];
      ingest.RunOnce(attempts[i]);
    }
    assert attempts[..|attempts|] == attempts;
    history := Some(ingest.trace);
  }
}
