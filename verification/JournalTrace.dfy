// The history of one RunReliable call (journal_reliable.go): what the collector
// published, launched and handed to its consumer, and what must hold of it.
module JournalTrace {
  import opened Wrappers

  type Time = int                    // nanoseconds since the Unix epoch
  const MICROSECOND: int := 1000

  // ---------------------------------------------------------------- journal

  // The record's classification: JournalEntry.SkipReason.
  datatype Skip = Observed | Unrecognized | MalformedMessage | UntrustedOrigin

  datatype Entry = Entry(cursor: string, microseconds: int, skip: Skip) {
    function ReceivedAt(): Time { microseconds * MICROSECOND }

    // Evidence that ingest works again once it is persisted.
    predicate Trusted() { skip.Observed? || skip.Unrecognized? }

    // decodeJournalEntry accepts the journal-assigned metadata.
    predicate Addressable() { ValidCursor(cursor) && microseconds > 0 }
  }

  // validJournalCursor
  predicate ValidCursor(cursor: string) {
    0 < |cursor| <= 4096 && forall i :: 0 <= i < |cursor| ==> cursor[i] as int >= 0x21 && cursor[i] as int != 0x7F
  }

  // The order journald promises: distinct cursors, reception times that never go back.
  ghost predicate Orderly(journal: seq<Entry>) {
    && (forall i, j :: 0 <= i < j < |journal| ==> journal[i].microseconds <= journal[j].microseconds)
    && (forall i, j :: 0 <= i < j < |journal| ==> journal[i].cursor != journal[j].cursor)
  }

  // ---------------------------------------------------------------- events

  datatype State = Starting | Running | Retrying | Degraded | Gap

  datatype Reason =
    | ProcessStarted | RecordPersisted
    | InvalidCursor | CursorUnavailable | BackfillTimeLimit | BackfillCountLimit
    | MalformedRecord | UntrustedRecord
    | PersistFailed | StartFailed | ReadFailed | ProcessExited

  datatype Status = Status(state: State, reason: Reason) {
    predicate QualityDegraded() { state.Degraded? || (state.Gap? && reason.MalformedRecord?) }

    // A gap in coverage that is not about one bad line.
    predicate LossGap() { state.Gap? && !reason.MalformedRecord? }
  }

  // The consumer's answer: nil, ErrJournalAlreadyAcknowledged, or another error.
  datatype Ack = Recorded | Duplicate | Refused

  datatype Event =
    // `line` is the journal position a quality status is about; `durable` is
    // whether OnDegradation recorded it.
    | Published(status: Status, line: Option<nat>, durable: bool)
    | Launched(cursor: string, ackedAt: Option<Time>, since: Time, started: Time)
    | WentLive(position: nat)          // the attempt read its first live entry
    | Consumed(position: nat, ack: Ack)
    | Slept(backoff: int, overMinute: bool)
  {
    predicate Acknowledges() { Consumed? && !ack.Refused? }

    predicate LossGap() { Published? && status.LossGap() }

    predicate BadLine(position: nat) { Published? && status.QualityDegraded() && line == Some(position) }
  }

  // A history, newest event outermost.
  datatype Trace =
    | Begin(initialCursor: string, initialPending: bool)
    | Then(past: Trace, last: Event)

  // ---------------------------------------------------------------- readings of a history

  // The journal position of the last acknowledged cursor, the initial one included.
  ghost function LastAck(journal: seq<Entry>, t: Trace): Option<nat> {
    match t
    case Begin(cursor, _) =>
      if cursor != "" && exists p :: 0 <= p < |journal| && journal[p].cursor == cursor
      then (var p :| 0 <= p < |journal| && journal[p].cursor == cursor; Some(p))
      else None
    case Then(past, e) => if e.Acknowledges() then Some(e.position) else LastAck(journal, past)
  }

  // A loss gap was published since the last acknowledgement.
  predicate LossDeclared(t: Trace) {
    match t
    case Begin(_, _) => false
    case Then(past, e) => !e.Acknowledges() && (e.LossGap() || LossDeclared(past))
  }

  // Bad lines durably recorded since the last acknowledgement.
  function BadRecorded(t: Trace): set<nat> {
    match t
    case Begin(_, _) => {}
    case Then(past, e) =>
      if e.Acknowledges() then {}
      else if e.Published? && e.status.QualityDegraded() && e.line.Some? && e.durable
      then BadRecorded(past) + {e.line.value}
      else BadRecorded(past)
  }

  // A quality loss awaits a newly persisted trusted record. Process restarts and
  // duplicate acknowledgements do not appear here: they change nothing.
  predicate Pending(journal: seq<Entry>, t: Trace) {
    match t
    case Begin(_, pending) => pending
    case Then(past, e) =>
      if e.Published? && e.status.QualityDegraded() then true
      else if e.Consumed? && e.ack.Recorded? && e.position < |journal| && journal[e.position].Trusted() then false
      else Pending(journal, past)
  }

  // Failure evidence is retained: a quality loss or a failed attempt, with no
  // record_persisted since.
  predicate Evidence(t: Trace) {
    match t
    case Begin(_, pending) => pending
    case Then(past, e) =>
      if e.Published? && e.status.reason.RecordPersisted? then false
      else if e.Published? && (e.status.QualityDegraded() || (e.status.state.Retrying? && !e.status.reason.ProcessStarted?))
      then true
      else Evidence(past)
  }

  function CurrentLaunch(t: Trace): (e: Option<Event>)
    ensures e.Some? ==> e.value.Launched?
  {
    match t
    case Begin(_, _) => None
    case Then(past, e) => if e.Launched? then Some(e) else CurrentLaunch(past)
  }

  // In the current attempt OnDegradation failed.
  predicate DegradationFailed(t: Trace) {
    match t
    case Begin(_, _) => false
    case Then(past, e) => !e.Launched? && ((e.Published? && !e.durable) || DegradationFailed(past))
  }

  // The current attempt has read a live entry.
  predicate IsLive(t: Trace) {
    match t
    case Begin(_, _) => false
    case Then(past, e) => !e.Launched? && (e.WentLive? || IsLive(past))
  }

  // Deliveries of the current attempt before its first live entry.
  function Replayed(t: Trace): nat {
    match t
    case Begin(_, _) => 0
    case Then(past, e) =>
      if e.Launched? then 0 else if e.Consumed? && !IsLive(past) then 1 + Replayed(past) else Replayed(past)
  }

  // ---------------------------------------------------------------- safety

  // What is fixed for a run. `orderly` and `anchored` are the hypotheses of the
  // two claims that need them: the journal and its reader keep their order, and
  // an initial time came with an initial cursor.
  datatype World = World(journal: seq<Entry>, initialCursor: string, initialObservedAt: Option<Time>,
                         initialPending: bool, window: int, maxBackfill: nat, restartMin: int, restartMax: int,
                         ghost orderly: bool, ghost anchored: bool)

  // The state RunReliable carries, as its history determines it: the cursor to
  // resume from (given up with every declared loss), ...
  function CursorOf(w: World, t: Trace): string {
    match t
    case Begin(cursor, _) => cursor
    case Then(past, e) =>
      if e.Acknowledges() && e.position < |w.journal| then w.journal[e.position].cursor
      else if e.LossGap() then ""
      else CursorOf(w, past)
  }

  // ... the latest acknowledged reception time, ...
  function AckTime(w: World, t: Trace): Option<Time> {
    match t
    case Begin(_, _) => w.initialObservedAt
    case Then(past, e) =>
      var before := AckTime(w, past);
      if e.Acknowledges() && e.position < |w.journal|
         && (before.None? || before.value < w.journal[e.position].ReceivedAt())
      then Some(w.journal[e.position].ReceivedAt()) else before
  }

  // ... the launch to continue from after the replay limit was hit, ...
  function ForcedSince(t: Trace): Option<Time> {
    match t
    case Begin(_, _) => None
    case Then(past, e) =>
      if e.Acknowledges() then None
      else if e.LossGap() && e.status.reason.BackfillCountLimit? && CurrentLaunch(past).Some?
      then Some(CurrentLaunch(past).value.started)
      else ForcedSince(past)
  }

  // ... and the next restart delay.
  function NextBackoff(w: World, t: Trace): int {
    match t
    case Begin(_, _) => w.restartMin
    case Then(past, e) =>
      if e.Slept? then (if e.backoff * 2 < w.restartMax then e.backoff * 2 else w.restartMax)
      else NextBackoff(w, past)
  }

  function Later(a: Time, b: Time): Time { if a < b then b else a }

  // Where an attempt reads from: never before the window, without a cursor never
  // at or before the acknowledged microsecond, and never before a forced start.
  function SinceOf(window: int, cursor: string, ackedAt: Option<Time>, forced: Option<Time>, started: Time): Time {
    var recent := if cursor == "" && ackedAt.Some?
                  then Later(started - window, ackedAt.value - ackedAt.value % MICROSECOND + MICROSECOND)
                  else started - window;
    if forced.Some? then Later(recent, forced.value) else recent
  }

  // Every position after the last acknowledged one and before `position` is
  // accounted for since that acknowledgement.
  ghost predicate Accounted(journal: seq<Entry>, t: Trace, position: nat) {
    LastAck(journal, t).Some? && !LossDeclared(t) ==>
      forall m :: LastAck(journal, t).value < m < position ==> m in BadRecorded(t)
  }

  // What may be delivered.
  ghost predicate MayConsume(w: World, past: Trace, position: nat) {
    && position < |w.journal|
    && !DegradationFailed(past)
    && (!w.journal[position].Trusted() ==> past.Then? && past.last.BadLine(position) && past.last.durable)
    && CurrentLaunch(past).Some?
    && (var launch := CurrentLaunch(past).value;
        && (launch.cursor == "" && launch.ackedAt.Some? ==>
              w.journal[position].ReceivedAt() > launch.ackedAt.value)
        && (!IsLive(past) ==> Replayed(past) < w.maxBackfill && w.journal[position].ReceivedAt() < launch.started))
    && (w.orderly ==> Accounted(w.journal, past, position))
  }

  // Where and how an attempt may be launched.
  ghost predicate MayLaunch(w: World, past: Trace, cursor: string, ackedAt: Option<Time>, since: Time, started: Time) {
    && cursor == CursorOf(w, past) && ackedAt == AckTime(w, past)
    && since == SinceOf(w.window, cursor, ackedAt, ForcedSince(past), started)
    && (cursor != "" && ackedAt.Some? ==> ackedAt.value >= started - w.window)
    && (w.anchored && cursor == "" ==> LossDeclared(past))
  }

  ghost predicate Permitted(w: World, past: Trace, e: Event) {
    match e
    case Consumed(position, _) => MayConsume(w, past, position)
    case WentLive(position) =>
      && position < |w.journal| && CurrentLaunch(past).Some?
      && w.journal[position].ReceivedAt() >= CurrentLaunch(past).value.started
    case Published(status, _, _) =>
      && (status.reason.RecordPersisted? ==>
            && past.Then? && past.last.Consumed? && past.last.ack.Recorded?
            && past.last.position < |w.journal| && w.journal[past.last.position].Trusted())
      && (status.state.Retrying? && status.reason.ProcessStarted? ==> Pending(w.journal, past))
      && (status.state.Running? && status.reason.ProcessStarted? ==> !Pending(w.journal, past))
    case Launched(cursor, ackedAt, since, started) => MayLaunch(w, past, cursor, ackedAt, since, started)
    case Slept(backoff, overMinute) =>
      && CurrentLaunch(past).Some?
      && backoff == (if overMinute || CursorOf(w, past) != CurrentLaunch(past).value.cursor
                     then w.restartMin else NextBackoff(w, past))
      && w.restartMin <= backoff <= w.restartMax
  }

  ghost predicate Safe(w: World, t: Trace) {
    match t
    case Begin(_, _) => t == Begin(w.initialCursor, w.initialPending)
    case Then(past, e) => Safe(w, past) && Permitted(w, past, e)
  }
}
