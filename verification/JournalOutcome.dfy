// What an attempt comes to, said of its lines and launch alone: which records it
// must deliver, which it never delivers, and why it ends.
module JournalOutcome {
  import opened Wrappers
  import opened JournalTrace
  import opened JournalRun
  import opened JournalProgress

  // A line whose metadata journalctl and the decoder both delivered.
  predicate Good(w: World, l: Line)
    requires l.position < |w.journal|
  {
    l.shape == Json && w.journal[l.position].Addressable()
  }

  // ---------------------------------------------------------------- what is recorded and delivered

  // Only good lines are delivered.
  lemma {:induction false} DeliveredIsGood(w: World, p: Place, lines: seq<Line>, e: Event) returns (l: Line)
    requires InLines(w, lines) && e in Owed(w, p, lines) && e.Consumed?
    ensures l in lines && e == Consumed(l.position, l.ack) && l.position < |w.journal| && Good(w, l)
    ensures w.journal[l.position].ReceivedAt() >= p.since
    decreases |lines|
  {
    if e in OwedFor(w, p, lines[0]) {
      l := lines[0];
    } else {
      l := DeliveredIsGood(w, Past(w, p, lines[0]), lines[1..], e);
    }
  }

  // Every bad line is recorded as one, with its own recorder's answer.
  lemma {:induction false} BadIsRecorded(w: World, p: Place, lines: seq<Line>, l: Line)
    requires InLines(w, lines) && l in lines && l.position < |w.journal| && !Good(w, l)
    ensures Published(Status(Gap, MalformedRecord), Some(l.position), l.durable) in Owed(w, p, lines)
    decreases |lines|
  {
    var first, rest := OwedFor(w, p, lines[0]), Owed(w, Past(w, p, lines[0]), lines[1..]);
    assert Owed(w, p, lines) == first + rest;
    if l == lines[0] {
      assert first[0] == Published(Status(Gap, MalformedRecord), Some(l.position), l.durable);
    } else {
      assert l in lines[1..];
      BadIsRecorded(w, Past(w, p, lines[0]), lines[1..], l);
    }
  }

  // ---------------------------------------------------------------- an attempt nothing stops

  // The lines of an attempt that follow a boundary: bad ones up to line b, there
  // the record with the cursor, then bad ones and records received at or after
  // `from`. Recording and delivery never fail.
  ghost predicate Resumable(w: World, lines: seq<Line>, b: nat, cursor: string, from: Time) {
    && b < |lines| && InLines(w, lines)
    && (forall i :: 0 <= i < b ==> !Good(w, lines[i]))
    && Good(w, lines[b]) && w.journal[lines[b].position].cursor == cursor
    && (forall i :: b < i < |lines| && Good(w, lines[i]) ==> w.journal[lines[i].position].ReceivedAt() >= from)
    && (forall i :: 0 <= i < |lines| ==> lines[i].durable && !lines[i].ack.Refused?)
  }

  lemma {:induction false} AllOwedDone(w: World, p: Place, lines: seq<Line>)
    requires InLines(w, lines) && forall i :: 0 <= i < |lines| ==> lines[i].durable && !lines[i].ack.Refused?
    ensures forall e :: e in Owed(w, p, lines) ==> Done(e)
    decreases |lines|
  {
    if lines != [] {
      AllOwedDone(w, Past(w, p, lines[0]), lines[1..]);
    }
  }

  lemma {:induction false} AfterBoundary(w: World, p: Place, lines: seq<Line>)
    requires InLines(w, lines) && !p.verify
    requires forall i :: 0 <= i < |lines| && Good(w, lines[i]) ==> w.journal[lines[i].position].ReceivedAt() >= p.since
    ensures NoneStale(w, p, lines)
    ensures forall l :: l in lines && Good(w, l) ==> l in Window(w, p, lines)
    decreases |lines|
  {
    if lines != [] {
      AfterBoundary(w, Past(w, p, lines[0]), lines[1..]);
      assert forall l :: l in lines ==> l == lines[0] || l in lines[1..];
    }
  }

  lemma {:induction false} BeforeBoundary(w: World, p: Place, lines: seq<Line>, b: nat, cursor: string)
    requires Resumable(w, lines, b, cursor, p.since) && p.verify
    ensures BoundaryMet(w, cursor, lines) && NoneStale(w, p, lines)
    ensures forall i :: b < i < |lines| && Good(w, lines[i]) ==> lines[i] in Window(w, p, lines)
    decreases |lines|
  {
    var rest := lines[1..];
    if b == 0 {
      AfterBoundary(w, Past(w, p, lines[0]), rest);
      forall i | 0 < i < |lines| && Good(w, lines[i]) ensures lines[i] in Window(w, p, lines) {
        assert lines[i] == rest[i - 1];
      }
    } else {
      assert forall i :: 0 <= i < |rest| ==> rest[i] == lines[i + 1];
      BeforeBoundary(w, Past(w, p, lines[0]), rest, b - 1, cursor);
      forall i | b < i < |lines| && Good(w, lines[i]) ensures lines[i] in Window(w, p, lines) {
        assert lines[i] == rest[i - 1];
      }
    }
  }

  // A cursor and a forced start exclude each other.
  lemma {:induction false} CursorUnforced(w: World, t: Trace)
    ensures CursorOf(w, t) != "" ==> ForcedSince(t).None?
  {
    if t.Then? {
      CursorUnforced(w, t.past);
    }
  }

  // The cursor survives a launch exactly if its time is known to be in the window.
  lemma LaunchKeepsCursor(w: World, t: Trace, started: Time)
    ensures var launched := Launching(w, t, started);
            && launched.Then? && launched.last.Launched? && launched.last.started == started
            && launched.last.cursor == (if AckTime(w, t).Some? && AckTime(w, t).value < started - w.window then ""
                                        else CursorOf(w, t))
            && (launched.last.cursor != "" ==> launched.last.since == started - w.window)
  {
    CursorUnforced(w, t);
    LaunchingLaunches(w, t, started);
    hide AckTime, ForcedSince;
    var launched := Launching(w, t, started);
    var declared := Declared(t, BackfillTimeLimit);
    assert CursorOf(w, declared) == "";
  }

  // Replay from a checkpoint: an attempt whose checkpoint is within the window,
  // whose lines follow the checkpoint's record, and of which at most MaxBackfill
  // come before the first live record, delivers every record received within the
  // window before its launch or after it, and moves the cursor to the last one.
  lemma ReplayDelivered(w: World, t: Trace, a: Attempt, b: nat, i: nat)
    requires CursorOf(w, t) != "" && (AckTime(w, t).Some? ==> AckTime(w, t).value >= a.started - w.window)
    requires a.startError.None? && Resumable(w, a.lines, b, CursorOf(w, t), a.started - w.window)
    requires Replay(w, true, a.started, a.lines) <= w.maxBackfill
    requires b < i < |a.lines| && Good(w, a.lines[i])
    ensures var cursor := w.journal[a.lines[i].position].cursor;
            cursor == CursorOf(w, t) ||
            exists e :: e in Work(Round(w, t, a)) && e.Consumed? && e.position < |w.journal|
                        && w.journal[e.position].cursor == cursor
    ensures (forall j :: i < j < |a.lines| ==> !Good(w, a.lines[j]))
            && !(a.outcome.Exited? && a.outcome.cursorRejected) ==>
              CursorOf(w, Round(w, t, a)) == w.journal[a.lines[i].position].cursor
  {
    hide Launching, CursorOf, AckTime, Owed, Window, Latest, BoundaryMet, NoneStale, Replay, Round, Work;
    LaunchKeepsCursor(w, t, a.started);
    var launch, k := AttemptProgress(w, t, a);
    LaunchIs(w, t, a, launch);
    var r := LaunchReader(launch);
    var p := PlaceOf(r);
    AllOwedDone(w, p, a.lines);
    BeforeBoundary(w, p, a.lines, b, CursorOf(w, t));
    assert Undisturbed(w, r, a.lines);
    WindowDelivered(w, p, a.lines, a.lines[i]);
    var owed := Owed(w, p, a.lines);
    assert owed[..k] == owed;
    if forall j :: i < j < |a.lines| ==> !Good(w, a.lines[j]) {
      LatestInWindow(w, p, a.lines);
      LastInWindow(w, p, a.lines, b, i);
    }
  }

  lemma LaunchIs(w: World, t: Trace, a: Attempt, launch: Event)
    requires InLines(w, a.lines) && CurrentLaunch(Round(w, t, a)) == Some(launch)
    ensures launch == Launching(w, t, a.started).last
  {
    hide Launching, Settled, Delayed, CursorOf, Launches, Sleeps, ReadLines;
    LaunchingOnce(w, t, a.started);
    LaunchingLaunches(w, t, a.started);
    var launched := Launching(w, t, a.started);
    AttemptWithin(w, launched, a);
    var (read, reason) := Attempted(w, launched, a);
    SettledKeeps(w, read, reason, launched.last.cursor, a.overMinute);
  }

  // The last good line after the boundary is the last of the window.
  lemma {:induction false} LastInWindow(w: World, p: Place, lines: seq<Line>, b: nat, i: nat)
    requires InLines(w, lines) && b < i < |lines| && Good(w, lines[i]) && (p.verify ==> Good(w, lines[b]))
    requires w.journal[lines[i].position].ReceivedAt() >= p.since
    requires forall j :: i < j < |lines| ==> !Good(w, lines[j])
    ensures Window(w, p, lines) != [] && Window(w, p, lines)[|Window(w, p, lines)| - 1] == lines[i]
    decreases |lines|
  {
    var rest, q := lines[1..], Past(w, p, lines[0]);
    assert forall j :: 0 <= j < |rest| ==> rest[j] == lines[j + 1];
    if i == 0 {
    } else if i == 1 {
      OnlyLast(w, q, rest);
    } else {
      LastInWindow(w, q, rest, if b == 0 then 0 else b - 1, i - 1);
    }
  }

  lemma OnlyLast(w: World, p: Place, lines: seq<Line>)
    requires InLines(w, lines) && lines != [] && Good(w, lines[0]) && !p.verify
    requires w.journal[lines[0].position].ReceivedAt() >= p.since
    requires forall j :: 0 < j < |lines| ==> !Good(w, lines[j])
    ensures Window(w, p, lines) == [lines[0]]
  {
    NoneGood(w, Past(w, p, lines[0]), lines[1..]);
  }

  lemma {:induction false} NoneGood(w: World, p: Place, lines: seq<Line>)
    requires InLines(w, lines) && forall j :: 0 <= j < |lines| ==> !Good(w, lines[j])
    ensures Window(w, p, lines) == []
    decreases |lines|
  {
    if lines != [] {
      NoneGood(w, Past(w, p, lines[0]), lines[1..]);
    }
  }

  // ---------------------------------------------------------------- why an attempt ends

  // Line k is the reason why reading stopped.
  ghost predicate Stops(w: World, r: Reader, lines: seq<Line>, k: nat, reason: Reason)
    requires InLines(w, lines) && k < |lines|
  {
    var l := lines[k];
    match reason
    case CursorUnavailable =>
      // the first good record is not the boundary
      && r.verifyCursor && Good(w, l) && w.journal[l.position].cursor != r.launchCursor
      && forall i :: 0 <= i < k ==> !Good(w, lines[i])
    case BackfillTimeLimit =>
      r.launchCursor != "" && Good(w, l) && w.journal[l.position].ReceivedAt() < r.since
    case BackfillCountLimit =>
      !r.live && r.backfill + Replay(w, r.verifyCursor, r.started, lines[..k + 1]) > w.maxBackfill
    case PersistFailed =>
      !l.durable || l.ack.Refused?
    case _ => false
  }

  lemma LineStopsFor(w: World, t: Trace, r: Reader, line: Line)
    requires line.position < |w.journal| && Ready(w, t, r) && ReadLine(w, t, r, line).Ended?
    ensures InLines(w, [line]) && Stops(w, r, [line], 0, ReadLine(w, t, r, line).reason)
  {
    hide Entry.Addressable, Evidence, CursorOf, Taken;
    assert [line][..1] == [line] && [line][1..] == [];
  }

  lemma {:induction false} WhyStopped(w: World, t: Trace, r: Reader, lines: seq<Line>) returns (k: nat)
    requires InLines(w, lines) && Ready(w, t, r) && ReadLines(w, t, r, lines).Ended?
    ensures k < |lines| && Stops(w, r, lines, k, ReadLines(w, t, r, lines).reason)
    decreases |lines|
  {
    hide ReadLine, CursorOf, Work, OwedFor;
    var line := lines[0];
    match ReadLine(w, t, r, line) {
      case Ended(_, _) =>
        LineStopsFor(w, t, r, line);
        k := 0;
        assert lines[..1] == [line];
      case More(t', r') =>
        var n := LineRead(w, t, r, line);
        var j := WhyStopped(w, t', r', lines[1..]);
        k := j + 1;
        assert lines[..k + 1] == [line] + lines[1..][..j + 1];
        StopsLater(w, r, r', lines, j, ReadLines(w, t, r, lines).reason);
    }
  }

  lemma StopsLater(w: World, r: Reader, s: Reader, lines: seq<Line>, j: nat, reason: Reason)
    requires InLines(w, lines) && j + 1 < |lines| && Stops(w, s, lines[1..], j, reason)
    requires s.launchCursor == r.launchCursor && s.started == r.started && PlaceOf(s) == Past(w, PlaceOf(r), lines[0])
    requires r.live ==> s.live
    requires !s.live ==> s.backfill == r.backfill + Counted(w, r.verifyCursor, r.started, lines[0])
    requires !s.live ==> !GoesLive(w, r.verifyCursor, r.started, lines[0])
    ensures Stops(w, r, lines, j + 1, reason)
  {
    hide Entry.Addressable;
    var first, rest := lines[..j + 2], lines[1..][..j + 1];
    assert first[1..] == rest && first[0] == lines[0];
    assert forall i :: 0 < i < |lines| ==> lines[i] == lines[1..][i - 1];
  }

  // How an attempt ends, as the statuses after it report: a retry with the reason,
  // behind a declared loss that gives the cursor up for three of them.
  lemma AttemptEnds(w: World, t: Trace, a: Attempt) returns (launch: Event, reason: Reason)
    requires InLines(w, a.lines)
    ensures CurrentLaunch(Round(w, t, a)) == Some(launch) && launch.Launched? && launch.started == a.started
    ensures var u := Round(w, t, a);
            && u.Then? && u.past.Then? && u.past.last == Published(Status(Retrying, reason), None, true)
            && (reason in {CursorUnavailable, BackfillTimeLimit, BackfillCountLimit} ==>
                  && u.past.past.Then? && u.past.past.last == Published(Status(Gap, reason), None, true)
                  && CursorOf(w, u) == "")
    ensures a.startError.Some? ==> reason == StartFailed
    ensures a.startError.None? && Undisturbed(w, LaunchReader(launch), a.lines) ==>
      reason == match a.outcome
                case StreamError(_) => ReadFailed
                case Exited(rejected, _) => if rejected && launch.cursor != "" then CursorUnavailable else ProcessExited
    ensures a.startError.None? && !Undisturbed(w, LaunchReader(launch), a.lines) ==>
      exists k :: 0 <= k < |a.lines| && Stops(w, LaunchReader(launch), a.lines, k, reason)
  {
    var k;
    launch, k := AttemptProgress(w, t, a);
    LaunchIs(w, t, a, launch);
    var launched := Launching(w, t, a.started);
    LaunchingLaunches(w, t, a.started);
    var (read, r) := Attempted(w, launched, a);
    reason := r;
    hide Launching, CursorOf, ReadLines, Work, Undisturbed, Stops;
    RoundEnds(w, read, reason, launch.cursor, a.overMinute);
    if a.startError.None? {
      var up := ReportedUp(w, launched);
      assert CursorOf(w, up) == CursorOf(w, launched) by { UpKeeps(w, launched); }
      ReadsOn(w, up, LaunchReader(launch), a.lines);
      if ReadLines(w, up, LaunchReader(launch), a.lines).Ended? {
        var j := WhyStopped(w, up, LaunchReader(launch), a.lines);
      }
    }
  }

  lemma RoundEnds(w: World, t: Trace, reason: Reason, before: string, overMinute: bool)
    ensures var u := Delayed(w, Settled(t, reason), before, overMinute);
            && u.Then? && u.past.Then? && u.past.last == Published(Status(Retrying, reason), None, true)
            && (reason in {CursorUnavailable, BackfillTimeLimit, BackfillCountLimit} ==>
                  && u.past.past.Then? && u.past.past.last == Published(Status(Gap, reason), None, true)
                  && CursorOf(w, u) == "")
  {
    hide NextBackoff;
    var u := Delayed(w, Settled(t, reason), before, overMinute);
    assert CursorOf(w, u) == CursorOf(w, u.past) == CursorOf(w, u.past.past);
  }

  // ---------------------------------------------------------------- the start of a run

  // A cursor the run can be started with: 1 to 4096 characters, printable but not space.
  predicate Startable(cursor: string) {
    1 <= |cursor| <= 4096 && forall i :: 0 <= i < |cursor| ==> '!' <= cursor[i] && cursor[i] != '\U{7F}'
  }

  // Any other initial cursor but none is given up with a declared loss before the
  // first attempt.
  lemma RunOpens(w: World)
    ensures w.initialCursor == "" || Startable(w.initialCursor) ==>
      History(w, []) == Begin(w.initialCursor, w.initialPending) && CursorOf(w, History(w, [])) == w.initialCursor
    ensures w.initialCursor != "" && !Startable(w.initialCursor) ==>
      && History(w, []) == Then(Begin(w.initialCursor, w.initialPending), Published(Status(Gap, InvalidCursor), None, true))
      && CursorOf(w, History(w, [])) == ""
  {
    assert forall i :: 0 <= i < |w.initialCursor| ==>
      (w.initialCursor[i] as int >= 0x21 <==> '!' <= w.initialCursor[i]);
  }
}
