// What one RunReliable call does, as a function of what happens to it: the lines
// each attempt reads, how it ends, and what the consumer and OnDegradation answer.
module JournalRun {
  import opened Wrappers
  import opened JournalTrace

  // A line read from journalctl: drained because oversized, not decodable, or
  // the journal record at `position`.
  datatype Shape = Oversized | Garbled | Json

  datatype Line = Line(position: nat, shape: Shape, durable: bool, ack: Ack)

  datatype Cause = Named(reason: Reason) | Classified(code: nat)

  // How the process ended once its lines were read.
  datatype Outcome = StreamError(cause: Cause) | Exited(cursorRejected: bool, cause: Cause)

  datatype Attempt = Attempt(started: Time, startError: Option<Cause>, lines: seq<Line>, outcome: Outcome, overMinute: bool)

  // journalctl follows the journal: it may start anywhere and repeat itself, but
  // never jumps over a record.
  ghost predicate Follows(lines: seq<Line>) {
    forall i :: 0 < i < |lines| ==> lines[i].position <= lines[i - 1].position + 1
  }

  ghost predicate AllFollow(attempts: seq<Attempt>) {
    forall i :: 0 <= i < |attempts| ==> Follows(attempts[i].lines)
  }

  ghost predicate InLines(w: World, lines: seq<Line>) {
    forall i :: 0 <= i < |lines| ==> lines[i].position < |w.journal|
  }

  ghost predicate InJournal(w: World, attempts: seq<Attempt>) {
    forall i :: 0 <= i < |attempts| ==> InLines(w, attempts[i].lines)
  }

  // The variables of one attempt's read loop.
  datatype Reader = Reader(launchCursor: string, since: Time, started: Time, backfill: int,
                           verifyCursor: bool, lastCursor: string, live: bool)
  {
    predicate OverLimit(maxBackfill: nat) { !live && backfill > maxBackfill }
  }

  function FreshReader(cursor: string, since: Time, started: Time): Reader {
    Reader(cursor, since, started, 0, cursor != "", cursor, false)
  }

  // No metadata could be read from the line.
  predicate Unreadable(w: World, line: Line)
    requires line.position < |w.journal|
  {
    !line.shape.Json? || !w.journal[line.position].Addressable()
  }

  function LostLine(line: Line): Event {
    Published(Status(Gap, MalformedRecord), Some(line.position), line.durable)
  }

  function LostTrust(line: Line, entry: Entry): Event {
    Published(Status(Degraded, if entry.skip.MalformedMessage? then MalformedRecord else UntrustedRecord),
              Some(line.position), line.durable)
  }

  // ---------------------------------------------------------------- one line

  datatype Read = More(t: Trace, r: Reader) | Ended(t: Trace, reason: Reason)

  function ReadLine(w: World, t: Trace, given: Reader, line: Line): Read
    requires line.position < |w.journal|
  {
    var r := if given.live then given else given.(backfill := given.backfill + 1);
    if Unreadable(w, line) then
      var lost := Then(t, LostLine(line));
      if !line.durable then Ended(lost, PersistFailed)
      else if r.OverLimit(w.maxBackfill) then Ended(lost, BackfillCountLimit)
      else More(lost, r)
    else ReadRecord(w, t, r, line)
  }

  // A decoded record: the boundary is verified before anything else counts.
  function ReadRecord(w: World, t: Trace, r: Reader, line: Line): Read
    requires line.position < |w.journal|
  {
    var entry := w.journal[line.position];
    if r.verifyCursor then
      if entry.cursor != r.launchCursor then Ended(t, CursorUnavailable)
      else More(t, r.(verifyCursor := false, backfill := r.backfill - 1))
    else if entry.ReceivedAt() >= r.started && !r.live then
      ReadEntry(w, Then(t, WentLive(line.position)), r.(live := true), line)
    else ReadEntry(w, t, r, line)
  }

  // A record that is not the boundary: the replay window and its limit.
  function ReadEntry(w: World, t: Trace, r: Reader, line: Line): Read
    requires line.position < |w.journal|
  {
    if w.journal[line.position].ReceivedAt() < r.since && r.launchCursor != "" then Ended(t, BackfillTimeLimit)
    else if r.OverLimit(w.maxBackfill) then Ended(t, BackfillCountLimit)
    else if w.journal[line.position].ReceivedAt() < r.since then More(t, r)
    else ReadDue(w, t, r, line)
  }

  // A record inside the window: its loss of trust, then its delivery.
  function ReadDue(w: World, t: Trace, r: Reader, line: Line): Read
    requires line.position < |w.journal|
  {
    var entry := w.journal[line.position];
    if entry.Trusted() then Offer(w, t, r, line)
    else
      var lost := Then(t, LostTrust(line, entry));
      if line.durable then Offer(w, lost, r, line) else Ended(lost, PersistFailed)
  }

  function Offer(w: World, t: Trace, r: Reader, line: Line): Read
    requires line.position < |w.journal|
  {
    var entry := w.journal[line.position];
    if entry.cursor == r.lastCursor then More(t, r)
    else if line.ack.Refused? then Ended(Then(t, Consumed(line.position, line.ack)), PersistFailed)
    else More(Taken(w, t, line), r.(lastCursor := entry.cursor))
  }

  // An accepted delivery; a new trusted record clears retained failure evidence.
  function Taken(w: World, t: Trace, line: Line): Trace
    requires line.position < |w.journal|
  {
    var taken := Then(t, Consumed(line.position, line.ack));
    if line.ack.Recorded? && w.journal[line.position].Trusted() && Evidence(t)
    then Then(taken, Published(Status(Running, RecordPersisted), None, true)) else taken
  }

  function ReadLines(w: World, t: Trace, r: Reader, lines: seq<Line>): Read
    requires InLines(w, lines)
    decreases |lines|
  {
    if lines == [] then More(t, r)
    else
      match ReadLine(w, t, r, lines[0])
      case Ended(t', reason) => Ended(t', reason)
      case More(t', r') => ReadLines(w, t', r', lines[1..])
  }

  // ---------------------------------------------------------------- one attempt

  function Declared(t: Trace, reason: Reason): Trace { Then(t, Published(Status(Gap, reason), None, true)) }

  // What precedes an attempt: the losses it declares, and its launch.
  function Launching(w: World, t: Trace, started: Time): Trace {
    var kept := AckTime(w, t);
    var t1 := if CursorOf(w, t) != "" && kept.Some? && kept.value < started - w.window
              then Declared(t, BackfillTimeLimit) else t;
    var cursor, forced := CursorOf(w, t1), ForcedSince(t1);
    var t2 := if cursor == "" && kept.None? && forced.None? then Declared(t1, BackfillTimeLimit) else t1;
    Then(Then(t2, Published(Status(Starting, ProcessStarted), None, true)),
         Launched(cursor, kept, SinceOf(w.window, cursor, kept, forced, started), started))
  }

  // The process is up and its lines are read.
  function ReportedUp(w: World, t: Trace): Trace {
    Then(t, Published(Status(if Pending(w.journal, t) then Retrying else Running, ProcessStarted), None, true))
  }

  function ReaderAt(t: Trace): Reader
    requires CurrentLaunch(t).Some?
  {
    var launch := CurrentLaunch(t).value;
    FreshReader(launch.cursor, launch.since, launch.started)
  }

  function Attempted(w: World, t: Trace, a: Attempt): (Trace, Reason)
    requires CurrentLaunch(t).Some? && InLines(w, a.lines)
  {
    if a.startError.Some? then (t, StartFailed)
    else
      match ReadLines(w, ReportedUp(w, t), ReaderAt(t), a.lines)
      case Ended(t', reason) => (t', reason)
      case More(t', _) =>
        (t', match a.outcome
             case StreamError(_) => ReadFailed
             case Exited(rejected, _) =>
               if ReaderAt(t).launchCursor != "" && rejected then CursorUnavailable else ProcessExited)
  }

  // What follows it: the loss it declares, the retry and the restart delay.
  function Settled(t: Trace, reason: Reason): Trace {
    var t' := if reason in {CursorUnavailable, BackfillTimeLimit, BackfillCountLimit} then Declared(t, reason) else t;
    Then(t', Published(Status(Retrying, reason), None, true))
  }

  function Delayed(w: World, t: Trace, before: string, overMinute: bool): Trace {
    Then(t, Slept(if overMinute || CursorOf(w, t) != before then w.restartMin else NextBackoff(w, t), overMinute))
  }

  lemma LaunchingLaunches(w: World, t: Trace, started: Time)
    ensures var launch := CurrentLaunch(Launching(w, t, started));
            launch.Some? && launch.value.started == started
            && launch.value.cursor == CursorOf(w, Launching(w, t, started))
  {
    var launched := Launching(w, t, started);
    assert CursorOf(w, launched.past) == CursorOf(w, launched.past.past);
  }

  function Round(w: World, t: Trace, a: Attempt): Trace
    requires InLines(w, a.lines)
  {
    LaunchingLaunches(w, t, a.started);
    var launched := Launching(w, t, a.started);
    var (read, reason) := Attempted(w, launched, a);
    Delayed(w, Settled(read, reason), CursorOf(w, launched), a.overMinute)
  }

  // ---------------------------------------------------------------- the run

  function Opening(w: World): Trace {
    var t := Begin(w.initialCursor, w.initialPending);
    if w.initialCursor != "" && !ValidCursor(w.initialCursor) then Declared(t, InvalidCursor) else t
  }

  function History(w: World, attempts: seq<Attempt>): Trace
    requires InJournal(w, attempts)
  {
    if attempts == [] then Opening(w)
    else Round(w, History(w, attempts[..|attempts| - 1]), attempts[|attempts| - 1])
  }
}
