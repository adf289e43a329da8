// What the attempts of a run get done: which lines they account for and deliver,
// and when they read on to the end.
module JournalProgress {
  import opened Wrappers
  import opened JournalTrace
  import opened JournalRun

  // The bad lines and deliveries recorded since the current launch.
  function Work(t: Trace): seq<Event> {
    match t
    case Begin(_, _) => []
    case Then(past, e) =>
      if e.Launched? then []
      else if e.Consumed? || (e.Published? && e.status.QualityDegraded()) then Work(past) + [e]
      else Work(past)
  }

  // Where reading stands: from when records count, whether the boundary is still
  // to come, and the last cursor seen delivered.
  datatype Place = Place(since: Time, verify: bool, last: string)

  function PlaceOf(r: Reader): Place { Place(r.since, r.verifyCursor, r.lastCursor) }

  // The record of a line is inside the window, past the boundary.
  predicate Due(w: World, p: Place, line: Line)
    requires line.position < |w.journal|
  {
    !Unreadable(w, line) && !p.verify && w.journal[line.position].ReceivedAt() >= p.since
  }

  function Past(w: World, p: Place, line: Line): Place
    requires line.position < |w.journal|
  {
    if Unreadable(w, line) then p
    else if p.verify then p.(verify := false)
    else if Due(w, p, line) then p.(last := w.journal[line.position].cursor)
    else p
  }

  // What a line calls for: recording that it is bad, delivering its record unless
  // its cursor repeats the last one, or nothing.
  function OwedFor(w: World, p: Place, line: Line): seq<Event>
    requires line.position < |w.journal|
  {
    if Unreadable(w, line) then [LostLine(line)]
    else if Due(w, p, line) then
      var entry := w.journal[line.position];
      (if entry.Trusted() then [] else [LostTrust(line, entry)])
      + (if entry.cursor == p.last then [] else [Consumed(line.position, line.ack)])
    else []
  }

  function Owed(w: World, p: Place, lines: seq<Line>): seq<Event>
    requires InLines(w, lines)
    decreases |lines|
  {
    if lines == [] then [] else OwedFor(w, p, lines[0]) + Owed(w, Past(w, p, lines[0]), lines[1..])
  }

  // The lines whose records are inside the window.
  function Window(w: World, p: Place, lines: seq<Line>): (window: seq<Line>)
    requires InLines(w, lines)
    ensures forall l :: l in window ==> l in lines && l.position < |w.journal|
    decreases |lines|
  {
    if lines == [] then []
    else (if Due(w, p, lines[0]) then [lines[0]] else []) + Window(w, Past(w, p, lines[0]), lines[1..])
  }

  // The cursor that stands once every line is read: the window's last.
  function Latest(w: World, p: Place, lines: seq<Line>): string
    requires InLines(w, lines)
    decreases |lines|
  {
    if lines == [] then p.last else Latest(w, Past(w, p, lines[0]), lines[1..])
  }

  // The event did not stop the attempt: recorded durably, or not refused.
  predicate Done(e: Event) { (e.Published? ==> e.durable) && (e.Consumed? ==> !e.ack.Refused?) }

  // The first record read is the boundary, if one is expected.
  predicate BoundaryMet(w: World, boundary: string, lines: seq<Line>)
    requires InLines(w, lines)
    decreases |lines|
  {
    lines != [] ==>
      if Unreadable(w, lines[0]) then BoundaryMet(w, boundary, lines[1..])
      else w.journal[lines[0].position].cursor == boundary
  }

  // No record after the boundary is older than the window.
  predicate NoneStale(w: World, p: Place, lines: seq<Line>)
    requires InLines(w, lines)
    decreases |lines|
  {
    lines != [] ==>
      && (Unreadable(w, lines[0]) || p.verify || Due(w, p, lines[0]))
      && NoneStale(w, Past(w, p, lines[0]), lines[1..])
  }

  // The line is the first live record.
  predicate GoesLive(w: World, verify: bool, started: Time, line: Line)
    requires line.position < |w.journal|
  {
    !Unreadable(w, line) && !verify && w.journal[line.position].ReceivedAt() >= started
  }

  // Every line before it counts as replay, except the boundary.
  function Counted(w: World, verify: bool, started: Time, line: Line): nat
    requires line.position < |w.journal|
  {
    if GoesLive(w, verify, started, line) || (!Unreadable(w, line) && verify) then 0 else 1
  }

  function Replay(w: World, verify: bool, started: Time, lines: seq<Line>): (n: nat)
    requires InLines(w, lines)
    ensures n <= |lines|
    decreases |lines|
  {
    if lines == [] || GoesLive(w, verify, started, lines[0]) then 0
    else Counted(w, verify, started, lines[0])
         + Replay(w, verify && Unreadable(w, lines[0]), started, lines[1..])
  }

  // Nothing in these lines stops a reader.
  predicate Undisturbed(w: World, r: Reader, lines: seq<Line>)
    requires InLines(w, lines)
  {
    && (forall e :: e in Owed(w, PlaceOf(r), lines) ==> Done(e))
    && (r.verifyCursor ==> BoundaryMet(w, r.launchCursor, lines))
    && (r.launchCursor != "" ==> NoneStale(w, PlaceOf(r), lines))
    && (r.live || r.backfill + Replay(w, r.verifyCursor, r.started, lines) <= w.maxBackfill)
  }

  // ---------------------------------------------------------------- one line

  ghost predicate Ready(w: World, t: Trace, r: Reader) {
    !r.OverLimit(w.maxBackfill) && (r.verifyCursor ==> !r.live) && r.lastCursor == CursorOf(w, t)
  }

  lemma Recorded(w: World, t: Trace, e: Event)
    requires e.Published? && e.status.QualityDegraded() && !e.LossGap()
    ensures Work(Then(t, e)) == Work(t) + [e] && CursorOf(w, Then(t, e)) == CursorOf(w, t)
  {
  }

  lemma Offered(w: World, t: Trace, r: Reader, line: Line)
    requires line.position < |w.journal| && r.lastCursor == CursorOf(w, t)
    ensures var m, entry := Offer(w, t, r, line), w.journal[line.position];
            && Work(m.t) == Work(t) + (if entry.cursor == r.lastCursor then [] else [Consumed(line.position, line.ack)])
            && (m.More? ==> m.r == r.(lastCursor := entry.cursor) && CursorOf(w, m.t) == m.r.lastCursor)
            && (m.Ended? <==> entry.cursor != r.lastCursor && line.ack.Refused?)
            && (m.Ended? ==> m.reason == PersistFailed)
  {
    hide Evidence;
  }

  lemma DueRead(w: World, t: Trace, r: Reader, line: Line)
    requires line.position < |w.journal| && r.lastCursor == CursorOf(w, t) && Due(w, PlaceOf(r), line)
    ensures var m, entry, owed := ReadDue(w, t, r, line), w.journal[line.position], OwedFor(w, PlaceOf(r), line);
            && (m.More? ==> m.r == r.(lastCursor := entry.cursor) && CursorOf(w, m.t) == m.r.lastCursor)
            && (m.More? ==> Work(m.t) == Work(t) + owed)
            && (m.More? <==> forall e :: e in owed ==> Done(e))
            && (m.Ended? ==> m.reason == PersistFailed)
            && (m.Ended? ==> Work(m.t) == Work(t) + owed[..if entry.Trusted() || line.durable then |owed| else 1])
            && (m.Ended? ==> StoppedAt(owed, if entry.Trusted() || line.durable then |owed| else 1, PersistFailed))
  {
    hide CursorOf, Work, Offer, Unreadable;
    var entry, owed := w.journal[line.position], OwedFor(w, PlaceOf(r), line);
    var lost := LostTrust(line, entry);
    assert !entry.Trusted() ==> owed[0] == lost;
    assert entry.cursor != r.lastCursor ==> owed[|owed| - 1] == Consumed(line.position, line.ack);
    if entry.Trusted() {
      Offered(w, t, r, line);
    } else {
      Recorded(w, t, lost);
      Offered(w, Then(t, lost), r, line);
      assert owed[..1] == [lost];
      assert entry.cursor != r.lastCursor ==> owed == [lost] + [Consumed(line.position, line.ack)];
    }
    assert owed[..|owed|] == owed;
    assert forall e :: e in owed ==> e == lost || e == Consumed(line.position, line.ack);
    assert !entry.Trusted() ==> lost in owed;
    assert entry.cursor != r.lastCursor ==> Consumed(line.position, line.ack) in owed;
  }

  // The same for a record past the boundary, inside the window or not.
  lemma EntryRead(w: World, t: Trace, r: Reader, line: Line) returns (k: nat)
    requires line.position < |w.journal| && r.lastCursor == CursorOf(w, t)
    requires !Unreadable(w, line) && !r.verifyCursor
    ensures var m, owed := ReadEntry(w, t, r, line), OwedFor(w, PlaceOf(r), line);
            && (m.More? <==> !r.OverLimit(w.maxBackfill) && (Due(w, PlaceOf(r), line) || r.launchCursor == "")
                             && forall e :: e in owed ==> Done(e))
            && (m.More? ==> m.r == r.(lastCursor := Past(w, PlaceOf(r), line).last) && CursorOf(w, m.t) == m.r.lastCursor)
            && (m.More? ==> k == |owed|)
            && k <= |owed| && Work(m.t) == Work(t) + owed[..k] && (m.Ended? ==> StoppedAt(owed, k, m.reason))
  {
    hide CursorOf, Work, ReadDue, Unreadable;
    k := 0;
    if Due(w, PlaceOf(r), line) {
      DueRead(w, t, r, line);
      var owed := OwedFor(w, PlaceOf(r), line);
      if !r.OverLimit(w.maxBackfill) {
        k := if ReadDue(w, t, r, line).More? || w.journal[line.position].Trusted() || line.durable then |owed| else 1;
      }
      assert owed[..|owed|] == owed;
    }
  }

  // Reading one line: whether it stops the reader, and the first k events it
  // calls for, which is all of them unless it does.
  lemma LineRead(w: World, t: Trace, r: Reader, line: Line) returns (k: nat)
    requires line.position < |w.journal| && Ready(w, t, r)
    ensures var m, owed, p := ReadLine(w, t, r, line), OwedFor(w, PlaceOf(r), line), PlaceOf(r);
            && k <= |owed| && Work(m.t) == Work(t) + owed[..k]
            && (m.Ended? ==> StoppedAt(owed, k, m.reason))
            && (m.More? ==> k == |owed| && Ready(w, m.t, m.r) && PlaceOf(m.r) == Past(w, p, line))
            && (m.More? ==> m.r.launchCursor == r.launchCursor && m.r.started == r.started && (r.live ==> m.r.live))
            && (m.More? <==>
                  && (forall e :: e in owed ==> Done(e))
                  && (r.verifyCursor && !Unreadable(w, line) ==> w.journal[line.position].cursor == r.launchCursor)
                  && (r.launchCursor != "" ==> Unreadable(w, line) || p.verify || Due(w, p, line))
                  && (r.live || r.backfill + Counted(w, r.verifyCursor, r.started, line) <= w.maxBackfill))
            && (m.More? && !m.r.live ==> m.r.backfill == r.backfill + Counted(w, r.verifyCursor, r.started, line))
            && (m.More? && m.r.live && !r.live ==> GoesLive(w, r.verifyCursor, r.started, line))
            && (m.More? && !m.r.live ==> !GoesLive(w, r.verifyCursor, r.started, line))
  {
    hide CursorOf, Work, ReadEntry, OwedFor, ValidCursor;
    var counted := if r.live then r else r.(backfill := r.backfill + 1);
    if Unreadable(w, line) {
      Recorded(w, t, LostLine(line));
      assert OwedFor(w, PlaceOf(r), line) == [LostLine(line)] by { OwedUnreadable(w, PlaceOf(r), line); }
      k := 1;
    } else if r.verifyCursor {
      assert OwedFor(w, PlaceOf(r), line) == [] by { OwedUnreadable(w, PlaceOf(r), line); }
      k := 0;
    } else if GoesLive(w, false, r.started, line) && !r.live {
      LiveWork(w, t, line.position);
      k := EntryRead(w, Then(t, WentLive(line.position)), counted.(live := true), line);
    } else {
      k := EntryRead(w, t, counted, line);
    }
    var owed := OwedFor(w, PlaceOf(r), line);
    assert owed[..|owed|] == owed;
  }

  lemma OwedUnreadable(w: World, p: Place, line: Line)
    requires line.position < |w.journal|
    ensures Unreadable(w, line) ==> OwedFor(w, p, line) == [LostLine(line)]
    ensures !Unreadable(w, line) && p.verify ==> OwedFor(w, p, line) == []
  {
  }

  lemma LiveWork(w: World, t: Trace, position: nat)
    ensures Work(Then(t, WentLive(position))) == Work(t) && CursorOf(w, Then(t, WentLive(position))) == CursorOf(w, t)
  {
  }

  // Of these events the first k happened; a failure to persist was the last of
  // them, and no other failed.
  predicate StoppedAt(owed: seq<Event>, k: nat, reason: Reason)
    requires k <= |owed|
  {
    if reason.PersistFailed?
    then k > 0 && !Done(owed[k - 1]) && forall i :: 0 <= i < k - 1 ==> Done(owed[i])
    else forall i :: 0 <= i < k ==> Done(owed[i])
  }

  // ---------------------------------------------------------------- all lines

  // A line and the rest are undisturbed together exactly when each is.
  lemma UndisturbedStep(w: World, t: Trace, r: Reader, lines: seq<Line>)
    requires InLines(w, lines) && lines != [] && Ready(w, t, r)
    ensures Undisturbed(w, r, lines) <==>
      var m := ReadLine(w, t, r, lines[0]);
      m.More? && Undisturbed(w, m.r, lines[1..])
  {
    hide ValidCursor, Evidence, CursorOf, Work, OwedFor, ReadLine, Unreadable, Due, Done;
    var _ := LineRead(w, t, r, lines[0]);
    var first, rest := OwedFor(w, PlaceOf(r), lines[0]), Owed(w, Past(w, PlaceOf(r), lines[0]), lines[1..]);
    assert Owed(w, PlaceOf(r), lines) == first + rest;
    assert forall e :: e in first + rest <==> e in first || e in rest;
  }

  // An attempt reads all its lines exactly when nothing in them stops it. It has
  // then recorded every bad line and delivered every record in the window, in
  // order, and resumes from the last one.
  lemma {:induction false} ReadsOn(w: World, t: Trace, r: Reader, lines: seq<Line>)
    requires InLines(w, lines) && Ready(w, t, r)
    ensures ReadLines(w, t, r, lines).More? <==> Undisturbed(w, r, lines)
    ensures var m := ReadLines(w, t, r, lines);
            m.More? ==>
              && Work(m.t) == Work(t) + Owed(w, PlaceOf(r), lines)
              && CursorOf(w, m.t) == m.r.lastCursor == Latest(w, PlaceOf(r), lines)
    decreases |lines|
  {
    hide ReadLine, OwedFor, Work, Past, CursorOf, Undisturbed, Done;
    if lines == [] {
      assert Undisturbed(w, r, lines) by { NothingDisturbs(w, t, r); }
      assert CursorOf(w, t) == r.lastCursor;
    } else {
      UndisturbedStep(w, t, r, lines);
      var k := LineRead(w, t, r, lines[0]);
      var m := ReadLine(w, t, r, lines[0]);
      if m.More? {
        var owed := OwedFor(w, PlaceOf(r), lines[0]);
        assert owed[..k] == owed;
        ReadsOn(w, m.t, m.r, lines[1..]);
      }
    }
  }

  lemma NothingDisturbs(w: World, t: Trace, r: Reader)
    requires Ready(w, t, r)
    ensures Undisturbed(w, r, [])
  {
  }

  // An attempt that is stopped has done a first part of the same, up to the event
  // that could not be persisted if that is what stopped it.
  lemma {:induction false} StopsEarly(w: World, t: Trace, r: Reader, lines: seq<Line>) returns (k: nat)
    requires InLines(w, lines) && Ready(w, t, r) && ReadLines(w, t, r, lines).Ended?
    ensures var owed, e := Owed(w, PlaceOf(r), lines), ReadLines(w, t, r, lines);
            && k <= |owed| && Work(e.t) == Work(t) + owed[..k] && StoppedAt(owed, k, e.reason)
    decreases |lines|
  {
    hide ReadLine, OwedFor, Work, Past, CursorOf, Done;
    var first := OwedFor(w, PlaceOf(r), lines[0]);
    var rest := Owed(w, Past(w, PlaceOf(r), lines[0]), lines[1..]);
    assert Owed(w, PlaceOf(r), lines) == first + rest;
    k := LineRead(w, t, r, lines[0]);
    var m := ReadLine(w, t, r, lines[0]);
    if m.More? {
      var j := StopsEarly(w, m.t, m.r, lines[1..]);
      k := |first| + j;
      assert (first + rest)[..k] == first + rest[..j] && first[..|first|] == first;
    } else {
      assert (first + rest)[..k] == first[..k];
    }
  }

  // ---------------------------------------------------------------- what is owed

  // Every event an attempt owes is about a line it read, with that line's answer.
  lemma {:induction false} OwedIsRead(w: World, p: Place, lines: seq<Line>, e: Event) returns (l: Line)
    requires InLines(w, lines) && e in Owed(w, p, lines)
    ensures l in lines
    ensures e == Consumed(l.position, l.ack) || (e.BadLine(l.position) && e.durable == l.durable)
    decreases |lines|
  {
    if e in OwedFor(w, p, lines[0]) {
      l := lines[0];
    } else {
      l := OwedIsRead(w, Past(w, p, lines[0]), lines[1..], e);
    }
  }

  // Every record in the window is delivered, unless its cursor was the one
  // already acknowledged.
  lemma {:induction false} WindowDelivered(w: World, p: Place, lines: seq<Line>, l: Line)
    requires InLines(w, lines) && l in Window(w, p, lines)
    ensures l.position < |w.journal|
    ensures w.journal[l.position].cursor == p.last ||
            exists e :: e in Owed(w, p, lines) && e.Consumed? && e.position < |w.journal|
                        && w.journal[e.position].cursor == w.journal[l.position].cursor
    decreases |lines|
  {
    var first, next := lines[0], Past(w, p, lines[0]);
    assert forall e :: e in OwedFor(w, p, first) || e in Owed(w, next, lines[1..]) ==> e in Owed(w, p, lines);
    if Due(w, p, first) && w.journal[first.position].cursor != p.last {
      assert Consumed(first.position, first.ack) in OwedFor(w, p, first);
    }
    if l in Window(w, next, lines[1..]) {
      WindowDelivered(w, next, lines[1..], l);
    }
  }

  // The cursor left standing is that of the last record in the window.
  lemma {:induction false} LatestInWindow(w: World, p: Place, lines: seq<Line>)
    requires InLines(w, lines)
    ensures var window := Window(w, p, lines);
            Latest(w, p, lines) == if window == [] then p.last else w.journal[window[|window| - 1].position].cursor
    decreases |lines|
  {
    if lines != [] {
      LatestInWindow(w, Past(w, p, lines[0]), lines[1..]);
      var rest := Window(w, Past(w, p, lines[0]), lines[1..]);
      assert rest == [] || ([lines[0]] + rest)[|rest|] == rest[|rest| - 1];
    }
  }

  // Nothing is delivered before the boundary has been read and verified.
  lemma {:induction false} BoundaryFirst(w: World, t: Trace, r: Reader, lines: seq<Line>, e: Event) returns (b: nat)
    requires InLines(w, lines) && r.verifyCursor && Ready(w, t, r)
    requires e in Work(ReadLines(w, t, r, lines).t) && e !in Work(t) && e.Consumed?
    ensures b < |lines| && !Unreadable(w, lines[b]) && w.journal[lines[b].position].cursor == r.launchCursor
    ensures forall i :: 0 <= i < b ==> Unreadable(w, lines[i])
    decreases |lines|
  {
    hide CursorOf, Evidence, ValidCursor, ReadEntry;
    if Unreadable(w, lines[0]) {
      match ReadLine(w, t, r, lines[0])
      case Ended(_, _) =>
      case More(t', r') =>
        var k := LineRead(w, t, r, lines[0]);
        b := BoundaryFirst(w, t', r', lines[1..], e);
        b := b + 1;
    } else {
      b := 0;
    }
  }

  // ---------------------------------------------------------------- attempts and runs

  function Launches(t: Trace): seq<Event> {
    match t case Begin(_, _) => [] case Then(past, e) => if e.Launched? then Launches(past) + [e] else Launches(past)
  }

  function Sleeps(t: Trace): seq<Event> {
    match t case Begin(_, _) => [] case Then(past, e) => if e.Slept? then Sleeps(past) + [e] else Sleeps(past)
  }

  // Between two histories nothing was launched and nothing slept.
  ghost predicate SameAttempt(t: Trace, u: Trace) {
    CurrentLaunch(t) == CurrentLaunch(u) && Launches(t) == Launches(u) && Sleeps(t) == Sleeps(u)
  }

  lemma Within(t: Trace, e: Event)
    requires !e.Launched? && !e.Slept?
    ensures SameAttempt(t, Then(t, e))
  {
  }

  lemma LineWithin(w: World, t: Trace, r: Reader, line: Line)
    requires line.position < |w.journal|
    ensures SameAttempt(t, ReadLine(w, t, r, line).t)
  {
    hide Unreadable, Evidence, CurrentLaunch, Launches, Sleeps, ReadDue;
    var went := Then(t, WentLive(line.position));
    Within(t, LostLine(line));
    Within(t, WentLive(line.position));
    var counted := if r.live then r else r.(backfill := r.backfill + 1);
    DueWithin(w, t, counted, line);
    DueWithin(w, went, counted.(live := true), line);
  }

  lemma DueWithin(w: World, t: Trace, r: Reader, line: Line)
    requires line.position < |w.journal|
    ensures SameAttempt(t, ReadDue(w, t, r, line).t)
  {
    hide Evidence, CurrentLaunch, Launches, Sleeps;
    var lost := Then(t, LostTrust(line, w.journal[line.position]));
    Within(t, lost.last);
    OfferWithin(w, t, r, line);
    OfferWithin(w, lost, r, line);
  }

  lemma OfferWithin(w: World, t: Trace, r: Reader, line: Line)
    requires line.position < |w.journal|
    ensures SameAttempt(t, Offer(w, t, r, line).t)
  {
    hide Evidence, CurrentLaunch, Launches, Sleeps;
    var taken := Then(t, Consumed(line.position, line.ack));
    Within(t, taken.last);
    Within(taken, Published(Status(Running, RecordPersisted), None, true));
  }

  lemma {:induction false} LinesWithin(w: World, t: Trace, r: Reader, lines: seq<Line>)
    requires InLines(w, lines)
    ensures SameAttempt(t, ReadLines(w, t, r, lines).t)
    decreases |lines|
  {
    hide ReadLine, CurrentLaunch, Launches, Sleeps;
    if lines != [] {
      LineWithin(w, t, r, lines[0]);
      match ReadLine(w, t, r, lines[0])
      case Ended(_, _) =>
      case More(t', r') => LinesWithin(w, t', r', lines[1..]);
    }
  }

  lemma AttemptWithin(w: World, t: Trace, a: Attempt)
    requires CurrentLaunch(t).Some? && InLines(w, a.lines)
    ensures SameAttempt(t, Attempted(w, t, a).0)
  {
    Within(t, ReportedUp(w, t).last);
    LinesWithin(w, ReportedUp(w, t), ReaderAt(t), a.lines);
    hide ReadLines, CurrentLaunch, Launches, Sleeps;
  }

  lemma LaunchingOnce(w: World, t: Trace, started: Time)
    ensures var u := Launching(w, t, started);
            && u.Then? && u.last.Launched? && u.last.started == started && u.last.cursor == CursorOf(w, u)
            && Launches(u) == Launches(t) + [u.last] && Sleeps(u) == Sleeps(t) && Work(u) == []
  {
    LaunchingLaunches(w, t, started);
    hide CursorOf, AckTime, ForcedSince, SinceOf, Launches, Sleeps;
    var u := Launching(w, t, started);
    var announced := u.past;
    assert SameAttempt(announced.past, announced) by { Within(announced.past, announced.last); }
    var t1 := if CursorOf(w, t) != "" && AckTime(w, t).Some? && AckTime(w, t).value < started - w.window
              then Declared(t, BackfillTimeLimit) else t;
    assert SameAttempt(t, t1) by { Within(t, Declared(t, BackfillTimeLimit).last); }
    assert SameAttempt(t1, announced.past) by { Within(t1, Declared(t1, BackfillTimeLimit).last); }
    assert Launches(u) == Launches(announced) + [u.last] && Sleeps(u) == Sleeps(announced) by { LastEvent(announced, u.last); }
  }

  lemma LastEvent(t: Trace, e: Event)
    ensures e.Launched? ==> Launches(Then(t, e)) == Launches(t) + [e] && Sleeps(Then(t, e)) == Sleeps(t) && Work(Then(t, e)) == []
    ensures e.Slept? ==> Sleeps(Then(t, e)) == Sleeps(t) + [e] && Launches(Then(t, e)) == Launches(t)
    ensures e.Slept? ==> CurrentLaunch(Then(t, e)) == CurrentLaunch(t)
    ensures (e.Published? && !e.status.QualityDegraded()) || e.Slept? ==> Work(Then(t, e)) == Work(t)
  {
  }

  lemma SettledKeeps(w: World, t: Trace, reason: Reason, before: string, overMinute: bool)
    ensures var u := Delayed(w, Settled(t, reason), before, overMinute);
            && CurrentLaunch(u) == CurrentLaunch(t) && Launches(u) == Launches(t) && Work(u) == Work(t)
            && u.Then? && u.last.Slept? && u.last.overMinute == overMinute && Sleeps(u) == Sleeps(t) + [u.last]
            && (reason !in {CursorUnavailable, BackfillTimeLimit, BackfillCountLimit} ==> CursorOf(w, u) == CursorOf(w, t))
  {
    hide NextBackoff, Launches, Sleeps, CurrentLaunch, Work;
    var declared := Declared(t, reason);
    var u := Delayed(w, Settled(t, reason), before, overMinute);
    Within(t, declared.last);
    LastEvent(t, declared.last);
    Within(u.past.past, u.past.last);
    LastEvent(u.past.past, u.past.last);
    LastEvent(u.past, u.last);
  }

  // One launch and one delay for every attempt, in order.
  ghost predicate Scheduled(launches: seq<Event>, sleeps: seq<Event>, attempts: seq<Attempt>) {
    && |launches| == |sleeps| == |attempts|
    && forall i :: 0 <= i < |attempts| ==>
         && launches[i].Launched? && launches[i].started == attempts[i].started
         && sleeps[i].Slept? && sleeps[i].overMinute == attempts[i].overMinute
  }

  // Every attempt is launched once, at its time, and followed by one delay.
  lemma {:induction false} OneLaunchEach(w: World, attempts: seq<Attempt>)
    requires InJournal(w, attempts)
    ensures Scheduled(Launches(History(w, attempts)), Sleeps(History(w, attempts)), attempts)
    decreases |attempts|
  {
    hide Scheduled, Round, Launches, Sleeps;
    if attempts == [] {
      NothingScheduled(w);
    } else {
      var n := |attempts| - 1;
      OneLaunchEach(w, attempts[..n]);
      var t := History(w, attempts[..n]);
      var launch, sleep := RoundLaunches(w, t, attempts[n]);
      assert attempts == attempts[..n] + [attempts[n]];
      ScheduledNext(Launches(t), Sleeps(t), attempts[..n], launch, sleep, attempts[n]);
    }
  }

  lemma NothingScheduled(w: World)
    ensures Scheduled(Launches(Opening(w)), Sleeps(Opening(w)), [])
  {
  }

  lemma ScheduledNext(launches: seq<Event>, sleeps: seq<Event>, attempts: seq<Attempt>, launch: Event, sleep: Event, a: Attempt)
    requires Scheduled(launches, sleeps, attempts)
    requires launch.Launched? && launch.started == a.started && sleep.Slept? && sleep.overMinute == a.overMinute
    ensures Scheduled(launches + [launch], sleeps + [sleep], attempts + [a])
  {
  }

  lemma RoundLaunches(w: World, t: Trace, a: Attempt) returns (launch: Event, sleep: Event)
    requires InLines(w, a.lines)
    ensures launch.Launched? && launch.started == a.started && sleep.Slept? && sleep.overMinute == a.overMinute
    ensures Launches(Round(w, t, a)) == Launches(t) + [launch] && Sleeps(Round(w, t, a)) == Sleeps(t) + [sleep]
  {
    hide Launches, Sleeps, Launching, Attempted, Settled, Delayed, CursorOf;
    LaunchingOnce(w, t, a.started);
    LaunchingLaunches(w, t, a.started);
    var launched := Launching(w, t, a.started);
    launch := launched.last;
    AttemptWithin(w, launched, a);
    var (read, reason) := Attempted(w, launched, a);
    SettledKeeps(w, read, reason, CursorOf(w, launched), a.overMinute);
    sleep := Round(w, t, a).last;
  }

  // The reader of an attempt as it was launched.
  function LaunchReader(launch: Event): Reader
    requires launch.Launched?
  {
    FreshReader(launch.cursor, launch.since, launch.started)
  }

  // Progress: an attempt records its bad lines and delivers its records in the
  // order read, all of them if nothing in the lines stops it; then it leaves the
  // cursor at the last record of its window.
  lemma AttemptProgress(w: World, t: Trace, a: Attempt) returns (launch: Event, k: nat)
    requires InLines(w, a.lines)
    ensures CurrentLaunch(Round(w, t, a)) == Some(launch) && launch.Launched? && launch.started == a.started
    ensures var r := LaunchReader(launch);
            var owed := Owed(w, PlaceOf(r), a.lines);
            && k <= |owed| && Work(Round(w, t, a)) == owed[..k]
            && (a.startError.Some? ==> k == 0)
            && (a.startError.None? && Undisturbed(w, r, a.lines) ==> k == |owed|)
            && (a.startError.None? && Undisturbed(w, r, a.lines)
                && (a.outcome.Exited? && a.outcome.cursorRejected ==> launch.cursor == "")
                ==> CursorOf(w, Round(w, t, a)) == Latest(w, PlaceOf(r), a.lines))
  {
    hide Launching, Settled, Delayed, CursorOf, Owed, Undisturbed, Latest, Launches, Sleeps, ReadLines;
    LaunchingOnce(w, t, a.started);
    LaunchingLaunches(w, t, a.started);
    var launched := Launching(w, t, a.started);
    launch := launched.last;
    AttemptWithin(w, launched, a);
    var (read, reason) := Attempted(w, launched, a);
    SettledKeeps(w, read, reason, launch.cursor, a.overMinute);
    k := AttemptWork(w, launched, a);
  }

  lemma AttemptWork(w: World, t: Trace, a: Attempt) returns (k: nat)
    requires InLines(w, a.lines) && t.Then? && t.last.Launched? && t.last.cursor == CursorOf(w, t)
    ensures var r, (read, reason) := ReaderAt(t), Attempted(w, t, a);
            var owed := Owed(w, PlaceOf(r), a.lines);
            && k <= |owed| && Work(read) == owed[..k]
            && (a.startError.Some? ==> k == 0)
            && (a.startError.None? && Undisturbed(w, r, a.lines) ==>
                  && k == |owed| && CursorOf(w, read) == Latest(w, PlaceOf(r), a.lines)
                  && ((a.outcome.Exited? && a.outcome.cursorRejected ==> t.last.cursor == "") ==>
                      reason !in {CursorUnavailable, BackfillTimeLimit, BackfillCountLimit}))
  {
    hide Owed, Undisturbed, Latest, ReadLines;
    k := 0;
    if a.startError.None? {
      var up, r := ReportedUp(w, t), ReaderAt(t);
      assert Work(up) == [] && CursorOf(w, up) == CursorOf(w, t);
      ReadsOn(w, up, r, a.lines);
      var owed := Owed(w, PlaceOf(r), a.lines);
      if ReadLines(w, up, r, a.lines).More? {
        k := |owed|;
        assert owed[..k] == owed;
      } else {
        k := StopsEarly(w, up, r, a.lines);
      }
    }
  }

  // An attempt launched with a cursor delivers nothing unless the first record it
  // can read is the boundary with that very cursor.
  lemma DeliversAfterBoundary(w: World, t: Trace, a: Attempt, e: Event) returns (b: nat)
    requires InLines(w, a.lines) && e in Work(Round(w, t, a)) && e.Consumed?
    requires CurrentLaunch(Round(w, t, a)).Some? && CurrentLaunch(Round(w, t, a)).value.cursor != ""
    ensures b < |a.lines| && !Unreadable(w, a.lines[b])
    ensures w.journal[a.lines[b].position].cursor == CurrentLaunch(Round(w, t, a)).value.cursor
    ensures forall i :: 0 <= i < b ==> Unreadable(w, a.lines[i])
  {
    hide Launching, Settled, Delayed, CursorOf, Launches, Sleeps, ReadLines, Unreadable;
    LaunchingOnce(w, t, a.started);
    LaunchingLaunches(w, t, a.started);
    var launched := Launching(w, t, a.started);
    AttemptWithin(w, launched, a);
    var (read, reason) := Attempted(w, launched, a);
    SettledKeeps(w, read, reason, launched.last.cursor, a.overMinute);
    var up := ReportedUp(w, launched);
    assert Work(up) == [];
    assert CursorOf(w, up) == CursorOf(w, launched) by { UpKeeps(w, launched); }
    b := BoundaryFirst(w, up, ReaderAt(launched), a.lines, e);
  }

  lemma UpKeeps(w: World, t: Trace)
    ensures CursorOf(w, ReportedUp(w, t)) == CursorOf(w, t)
  {
  }
}
