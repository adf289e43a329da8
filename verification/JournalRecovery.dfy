// record_persisted is published whenever retained failure evidence is cleared:
// exactly after a trusted entry was newly persisted over such evidence.
module JournalRecovery {
  import opened Wrappers
  import opened JournalTrace
  import opened JournalRun
  import opened JournalSafety

  const RECOVERED: Event := Published(Status(Running, RecordPersisted), None, true)

  // The history ends with a recovery still to be announced.
  predicate Unannounced(w: World, t: Trace) {
    && t.Then? && t.last.Consumed? && t.last.ack.Recorded? && t.last.position < |w.journal|
    && w.journal[t.last.position].Trusted() && Evidence(t.past)
  }

  // Every recovery was announced at once, and nothing else was announced as one.
  predicate Announced(w: World, t: Trace) {
    t.Then? ==> Announced(w, t.past) && (Unannounced(w, t.past) <==> t.last == RECOVERED)
  }

  ghost predicate Quiet(w: World, t: Trace) { Announced(w, t) && !Unannounced(w, t) }

  // `u` is later in the same run.
  ghost predicate After(w: World, t: Trace, u: Trace) { Start(u) == Start(t) && (Quiet(w, t) ==> Quiet(w, u)) }

  lemma OtherEvent(w: World, t: Trace, e: Event)
    requires !e.Consumed? && e != RECOVERED
    ensures After(w, t, Then(t, e))
  {
  }

  lemma TakenAnnounced(w: World, t: Trace, r: Reader, line: Line)
    requires line.position < |w.journal|
    ensures After(w, t, Offer(w, t, r, line).t)
  {
    hide Evidence;
    var taken := Then(t, Consumed(line.position, line.ack));
    assert Start(taken) == Start(t) && Start(Then(taken, RECOVERED)) == Start(taken);
    if Quiet(w, t) {
      assert Announced(w, taken);
      if Unannounced(w, taken) {
        assert Announced(w, Then(taken, RECOVERED)) && !Unannounced(w, Then(taken, RECOVERED));
      }
    }
  }

  lemma LineAnnounced(w: World, t: Trace, r: Reader, line: Line)
    requires line.position < |w.journal|
    ensures After(w, t, ReadLine(w, t, r, line).t)
  {
    hide Evidence, Announced, Unannounced, Quiet, Offer, Unreadable, Start;
    var went := Then(t, WentLive(line.position));
    var lost := LostTrust(line, w.journal[line.position]);
    var counted := if r.live then r else r.(backfill := r.backfill + 1);
    OtherEvent(w, t, LostLine(line));
    OtherEvent(w, t, went.last);
    OtherEvent(w, t, lost);
    OtherEvent(w, went, lost);
    TakenAnnounced(w, t, counted, line);
    TakenAnnounced(w, Then(t, lost), counted, line);
    TakenAnnounced(w, went, counted.(live := true), line);
    TakenAnnounced(w, Then(went, lost), counted.(live := true), line);
  }

  lemma {:induction false} LinesAnnounced(w: World, t: Trace, r: Reader, lines: seq<Line>)
    requires InLines(w, lines)
    ensures After(w, t, ReadLines(w, t, r, lines).t)
    decreases |lines|
  {
    hide ReadLine, Quiet, Start;
    if lines != [] {
      LineAnnounced(w, t, r, lines[0]);
      match ReadLine(w, t, r, lines[0])
      case Ended(_, _) =>
      case More(t', r') => LinesAnnounced(w, t', r', lines[1..]);
    }
  }

  lemma LaunchAnnounced(w: World, t: Trace, started: Time)
    ensures After(w, t, Launching(w, t, started))
  {
    hide CursorOf, AckTime, ForcedSince, SinceOf, Quiet, Start;
    var launched := Launching(w, t, started);
    var declared := Declared(t, BackfillTimeLimit);
    OtherEvent(w, t, declared.last);
    OtherEvent(w, declared, Declared(declared, BackfillTimeLimit).last);
    OtherEvent(w, launched.past.past, launched.past.last);
    OtherEvent(w, launched.past, launched.last);
  }

  lemma EndAnnounced(w: World, t: Trace, reason: Reason, before: string, overMinute: bool)
    ensures After(w, t, Delayed(w, Settled(t, reason), before, overMinute))
  {
    hide CursorOf, NextBackoff, Quiet, Start;
    var u := Delayed(w, Settled(t, reason), before, overMinute);
    OtherEvent(w, t, Declared(t, reason).last);
    OtherEvent(w, u.past.past, u.past.last);
    OtherEvent(w, u.past, u.last);
  }

  lemma {:induction false} HistoryAnnounced(w: World, attempts: seq<Attempt>)
    requires InJournal(w, attempts)
    ensures Quiet(w, History(w, attempts)) && Start(History(w, attempts)) == Begin(w.initialCursor, w.initialPending)
    decreases |attempts|
  {
    if attempts == [] {
      var t := Begin(w.initialCursor, w.initialPending);
      OtherEvent(w, t, Declared(t, InvalidCursor).last);
    } else {
      hide Launching, Settled, Delayed, CursorOf, Quiet, ReadLines, Start;
      var n := |attempts| - 1;
      HistoryAnnounced(w, attempts[..n]);
      var t, a := History(w, attempts[..n]), attempts[n];
      LaunchAnnounced(w, t, a.started);
      LaunchingLaunches(w, t, a.started);
      var launched := Launching(w, t, a.started);
      if a.startError.None? {
        OtherEvent(w, launched, ReportedUp(w, launched).last);
        LinesAnnounced(w, ReportedUp(w, launched), ReaderAt(launched), a.lines);
      }
      var (read, reason) := Attempted(w, launched, a);
      EndAnnounced(w, read, reason, CursorOf(w, launched), a.overMinute);
    }
  }

  // ---------------------------------------------------------------- over events

  // Failure evidence: a quality loss, or an attempt reported as retrying.
  predicate Fails(e: Event) {
    e.Published? && !e.status.reason.RecordPersisted? && (e.status.QualityDegraded() || (e.status.state.Retrying? && !e.status.reason.ProcessStarted?))
  }

  // Evidence is retained: event a left it (or, at -1, the run started with it),
  // and no recovery was announced since.
  ghost predicate RetainedFrom(w: World, events: seq<Event>, a: int) {
    && -1 <= a < |events| && (if a < 0 then w.initialPending else Fails(events[a]))
    && forall c :: a < c < |events| ==> !(events[c].Published? && events[c].status.reason.RecordPersisted?)
  }

  lemma {:induction false} EvidenceIs(w: World, t: Trace)
    requires Start(t).initialPending == w.initialPending
    ensures Evidence(t) <==> exists a :: RetainedFrom(w, Events(t), a)
  {
    match t
    case Begin(_, pending) =>
      assert RetainedFrom(w, Events(t), -1) <==> pending;
    case Then(past, e) =>
      EvidenceIs(w, past);
      var n := |Events(past)|;
      assert Events(t)[n] == e;
      assert forall c :: 0 <= c < n ==> Events(t)[c] == Events(past)[c];
      if Evidence(t) {
        if Fails(e) {
          assert RetainedFrom(w, Events(t), n);
        } else {
          var a :| RetainedFrom(w, Events(past), a);
          assert RetainedFrom(w, Events(t), a);
        }
      }
      if a :| RetainedFrom(w, Events(t), a) {
        if a < n {
          assert RetainedFrom(w, Events(past), a);
        }
      }
  }

  lemma {:induction false} AnnouncedAt(w: World, t: Trace, b: nat)
    requires Announced(w, t) && b < |Events(t)|
    ensures Unannounced(w, Before(t, b)) <==> Events(t)[b] == RECOVERED
  {
    if b + 1 < |Events(t)| {
      AnnouncedAt(w, t.past, b);
    }
  }

  // Over every run: a newly persisted trusted entry is followed at once by
  // record_persisted exactly if failure evidence was retained when it came.
  lemma RecoveryAnnounced(w: World, attempts: seq<Attempt>, b: nat)
    requires InJournal(w, attempts) && b < |Events(History(w, attempts))|
    requires Ingests(w, Events(History(w, attempts))[b])
    ensures var events := Events(History(w, attempts));
            && b + 1 < |events|
            && (events[b + 1] == Published(Status(Running, RecordPersisted), None, true) <==>
                exists a :: RetainedFrom(w, events[..b], a))
  {
    hide History, InJournal, Announced, Ingests, RetainedFrom, Start;
    HistoryAnnounced(w, attempts);
    HistoryEnds(w, attempts);
    RecoveryAt(w, History(w, attempts), b);
  }

  lemma RecoveryAt(w: World, t: Trace, b: nat)
    requires Announced(w, t) && Start(t).initialPending == w.initialPending
    requires b < |Events(t)| && Ingests(w, Events(t)[b]) && !t.last.Consumed?
    ensures b + 1 < |Events(t)|
    ensures Events(t)[b + 1] == RECOVERED <==> exists a :: RetainedFrom(w, Events(t)[..b], a)
  {
    hide Announced, Evidence, RetainedFrom;
    assert Events(t)[|Events(t)| - 1] == t.last;
    AnnouncedAt(w, t, b + 1);
    var read := Before(t, b + 1);
    assert Events(read)[b] == Events(t)[b] == read.last;
    assert Events(read.past) == Events(t)[..b];
    StartBefore(t, b + 1);
    assert Start(read.past).initialPending == w.initialPending;
    EvidenceIs(w, read.past);
  }

  // A run does not end with a delivery.
  lemma HistoryEnds(w: World, attempts: seq<Attempt>)
    requires InJournal(w, attempts)
    ensures History(w, attempts).Then? ==> !History(w, attempts).last.Consumed?
  {
    hide Launching, Settled, Attempted, CursorOf, NextBackoff, ValidCursor;
    if attempts != [] {
      var n := |attempts| - 1;
      var t := History(w, attempts[..n]);
      LaunchingLaunches(w, t, attempts[n].started);
      assert History(w, attempts) == Round(w, t, attempts[n]) && Round(w, t, attempts[n]).last.Slept?;
    }
  }
}
