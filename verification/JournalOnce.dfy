// The dual of no silent skip: what was acknowledged is never delivered again.
module JournalOnce {
  import opened Wrappers
  import opened JournalTrace
  import opened JournalRun
  import opened JournalSafety

  // journalctl reads on: no attempt meets a record twice.
  ghost predicate Increasing(lines: seq<Line>) {
    forall i, j :: 0 <= i < j < |lines| ==> lines[i].position < lines[j].position
  }

  ghost predicate AllIncreasing(attempts: seq<Attempt>) {
    forall i :: 0 <= i < |attempts| ==> Increasing(attempts[i].lines)
  }

  // The furthest acknowledged position.
  function TopAck(t: Trace): int {
    match t
    case Begin(_, _) => -1
    case Then(past, e) => if e.Acknowledges() && e.position > TopAck(past) then e.position else TopAck(past)
  }

  // Every delivery lay beyond everything acknowledged before it.
  predicate Once(w: World, t: Trace) {
    match t
    case Begin(_, _) => true
    case Then(past, e) => Once(w, past) && (e.Consumed? ==> TopAck(past) < e.position < |w.journal|)
  }

  // ---------------------------------------------------------------- what the history pins down

  // The cursor to resume from names no position before the furthest acknowledged.
  lemma {:induction false} CursorAtTop(w: World, t: Trace, p: nat)
    requires Orderly(w.journal) && Once(w, t)
    requires p < |w.journal| && w.journal[p].cursor == CursorOf(w, t) != ""
    ensures TopAck(t) <= p
  {
    match t
    case Begin(_, _) =>
    case Then(past, e) =>
      if e.Acknowledges() {
        assert w.journal[e.position].cursor == w.journal[p].cursor;
      } else {
        assert !e.LossGap();
        CursorAtTop(w, past, p);
      }
  }

  // The acknowledged time is no earlier than the furthest acknowledged record's.
  lemma {:induction false} TimeAtTop(w: World, t: Trace)
    requires Orderly(w.journal) && Once(w, t) && TopAck(t) >= 0
    ensures TopAck(t) < |w.journal| && AckTime(w, t).Some?
    ensures w.journal[TopAck(t)].ReceivedAt() <= AckTime(w, t).value
  {
    match t
    case Begin(_, _) =>
    case Then(past, e) =>
      if TopAck(past) >= 0 {
        TimeAtTop(w, past);
      }
  }

  // ---------------------------------------------------------------- one attempt

  // What is still to be read and could be delivered lies beyond everything
  // acknowledged; before the boundary is verified, the boundary does at least.
  ghost predicate Ahead(w: World, t: Trace, r: Reader, lines: seq<Line>)
    requires InLines(w, lines)
  {
    if r.verifyCursor
    then forall p :: 0 <= p < |w.journal| && w.journal[p].cursor == r.launchCursor ==> TopAck(t) <= p
    else forall i :: 0 <= i < |lines| && w.journal[lines[i].position].ReceivedAt() >= r.since ==>
           TopAck(t) < lines[i].position
  }

  lemma OtherEvent(w: World, t: Trace, e: Event)
    requires !e.Consumed?
    ensures TopAck(Then(t, e)) == TopAck(t) && AckTime(w, Then(t, e)) == AckTime(w, t)
    ensures Once(w, t) ==> Once(w, Then(t, e))
  {
  }

  lemma OfferOnce(w: World, t: Trace, r: Reader, line: Line)
    requires line.position < |w.journal| && Once(w, t) && TopAck(t) < line.position
    ensures var m := Offer(w, t, r, line);
            && Once(w, m.t) && TopAck(t) <= TopAck(m.t) <= line.position
            && (m.More? ==> m.r == r.(lastCursor := m.r.lastCursor))
  {
    hide Evidence, Once, TopAck;
    var taken := Then(t, Consumed(line.position, line.ack));
    assert Once(w, taken) && TopAck(t) <= TopAck(taken) <= line.position by { Delivery(w, t, line.position, line.ack); }
    OtherEvent(w, taken, Published(Status(Running, RecordPersisted), None, true));
  }

  lemma Delivery(w: World, t: Trace, position: nat, ack: Ack)
    requires position < |w.journal| && Once(w, t) && TopAck(t) < position
    ensures var taken := Then(t, Consumed(position, ack));
            Once(w, taken) && TopAck(t) <= TopAck(taken) <= position
  {
  }

  lemma EntryOnce(w: World, t: Trace, r: Reader, line: Line)
    requires line.position < |w.journal| && Once(w, t)
    requires w.journal[line.position].ReceivedAt() >= r.since ==> TopAck(t) < line.position
    ensures var m := ReadEntry(w, t, r, line);
            && Once(w, m.t) && (TopAck(m.t) == TopAck(t) || TopAck(m.t) <= line.position)
            && (m.More? ==> m.r == r.(lastCursor := m.r.lastCursor))
  {
    hide Once, TopAck, Offer;
    if w.journal[line.position].ReceivedAt() >= r.since {
      var lost := Then(t, LostTrust(line, w.journal[line.position]));
      OtherEvent(w, t, lost.last);
      OfferOnce(w, t, r, line);
      OfferOnce(w, lost, r, line);
    }
  }

  // One line keeps both, for the lines after it.
  lemma LineOnce(w: World, t: Trace, r: Reader, lines: seq<Line>)
    requires InLines(w, lines) && lines != [] && Increasing(lines) && Once(w, t) && Ahead(w, t, r, lines)
    ensures var m := ReadLine(w, t, r, lines[0]);
            Once(w, m.t) && (m.More? ==> Ahead(w, m.t, m.r, lines[1..]))
  {
    hide Once, TopAck, ReadEntry, Unreadable;
    var line := lines[0];
    var counted := if r.live then r else r.(backfill := r.backfill + 1);
    var went := Then(t, WentLive(line.position));
    OtherEvent(w, t, LostLine(line));
    OtherEvent(w, t, went.last);
    if !r.verifyCursor {
      EntryOnce(w, t, counted, line);
      EntryOnce(w, went, counted.(live := true), line);
    }
    assert forall i :: 0 <= i < |lines| - 1 ==> lines[1..][i] == lines[i + 1] && line.position < lines[i + 1].position;
  }

  lemma {:induction false} LinesOnce(w: World, t: Trace, r: Reader, lines: seq<Line>)
    requires InLines(w, lines) && Increasing(lines) && Once(w, t) && Ahead(w, t, r, lines)
    ensures Once(w, ReadLines(w, t, r, lines).t)
    decreases |lines|
  {
    hide Once, Ahead, ReadLine;
    if lines != [] {
      LineOnce(w, t, r, lines);
      match ReadLine(w, t, r, lines[0])
      case Ended(_, _) =>
      case More(t', r') => LinesOnce(w, t', r', lines[1..]);
    }
  }

  // ---------------------------------------------------------------- all attempts

  // At its launch an attempt is ahead: behind the boundary to be verified, or
  // behind a start later than anything acknowledged.
  lemma LaunchAhead(w: World, t: Trace, started: Time, lines: seq<Line>)
    requires Orderly(w.journal) && InLines(w, lines) && Once(w, t)
    ensures var launched := Launching(w, t, started);
            && Once(w, launched) && CurrentLaunch(launched).Some?
            && Ahead(w, launched, ReaderAt(launched), lines)
  {
    hide Once, TopAck, Orderly;
    var launched := Launching(w, t, started);
    LaunchingLaunches(w, t, started);
    LaunchingOnce(w, t, started);
    var r := ReaderAt(launched);
    if r.verifyCursor {
      forall p | 0 <= p < |w.journal| && w.journal[p].cursor == r.launchCursor ensures TopAck(launched) <= p {
        CursorAtTop(w, launched, p);
      }
    } else if TopAck(launched) >= 0 {
      TimeAtTop(w, launched);
      SinceAfter(w, t, started);
      forall i | 0 <= i < |lines| && w.journal[lines[i].position].ReceivedAt() >= r.since
        ensures TopAck(launched) < lines[i].position
      {
        LaterReceived(w.journal, TopAck(launched), lines[i].position);
      }
    }
  }

  lemma LaterReceived(journal: seq<Entry>, p: nat, q: nat)
    requires Orderly(journal) && p < |journal| && q < |journal| && journal[p].ReceivedAt() < journal[q].ReceivedAt()
    ensures p < q
  {
  }

  lemma LaunchingOnce(w: World, t: Trace, started: Time)
    requires Once(w, t)
    ensures Once(w, Launching(w, t, started))
  {
    hide CursorOf, AckTime, ForcedSince, SinceOf, Once;
    LaunchingEvents(w, t, started);
  }

  // A launch and what precedes it deliver nothing.
  lemma LaunchingEvents(w: World, t: Trace, started: Time)
    ensures var launched := Launching(w, t, started);
            AckTime(w, launched) == AckTime(w, t) && (Once(w, t) ==> Once(w, launched))
  {
    hide CursorOf, AckTime, ForcedSince, SinceOf, Once, TopAck;
    var launched := Launching(w, t, started);
    var declared := Declared(t, BackfillTimeLimit);
    OtherEvent(w, t, declared.last);
    OtherEvent(w, declared, Declared(declared, BackfillTimeLimit).last);
    OtherEvent(w, launched.past.past, launched.past.last);
    OtherEvent(w, launched.past, launched.last);
  }

  // Without a cursor an attempt starts after the acknowledged time.
  lemma SinceAfter(w: World, t: Trace, started: Time)
    ensures var launched := Launching(w, t, started);
            && launched.Then? && launched.last.Launched?
            && (launched.last.cursor == "" && AckTime(w, launched).Some? ==>
                  launched.last.since > AckTime(w, launched).value)
  {
    hide CursorOf, ForcedSince, AckTime;
    LaunchingEvents(w, t, started);
  }

  lemma AfterwardsOnce(w: World, t: Trace, reason: Reason, before: string, overMinute: bool)
    requires Once(w, t)
    ensures Once(w, Delayed(w, Settled(t, reason), before, overMinute))
  {
    hide CursorOf, NextBackoff, Once, TopAck, AckTime;
    var u := Delayed(w, Settled(t, reason), before, overMinute);
    OtherEvent(w, t, Declared(t, reason).last);
    OtherEvent(w, u.past.past, u.past.last);
    OtherEvent(w, u.past, u.last);
  }

  lemma {:induction false} HistoryOnce(w: World, attempts: seq<Attempt>)
    requires Orderly(w.journal) && InJournal(w, attempts) && AllIncreasing(attempts)
    ensures Once(w, History(w, attempts))
    decreases |attempts|
  {
    hide Orderly, Increasing, Launching, Settled, Delayed, CursorOf, Once, Ahead, ReadLines;
    if attempts == [] {
      assert Once(w, Opening(w)) by { OpeningOnce(w); }
    } else {
      var n := |attempts| - 1;
      HistoryOnce(w, attempts[..n]);
      var t, a := History(w, attempts[..n]), attempts[n];
      LaunchAhead(w, t, a.started, a.lines);
      LaunchingLaunches(w, t, a.started);
      var launched := Launching(w, t, a.started);
      if a.startError.None? {
        UpAhead(w, launched, ReaderAt(launched), a.lines);
        LinesOnce(w, ReportedUp(w, launched), ReaderAt(launched), a.lines);
      }
      var (read, reason) := Attempted(w, launched, a);
      AfterwardsOnce(w, read, reason, CursorOf(w, launched), a.overMinute);
    }
  }

  lemma OpeningOnce(w: World)
    ensures Once(w, Opening(w))
  {
  }

  lemma UpAhead(w: World, t: Trace, r: Reader, lines: seq<Line>)
    requires InLines(w, lines) && Once(w, t) && Ahead(w, t, r, lines)
    ensures Once(w, ReportedUp(w, t)) && Ahead(w, ReportedUp(w, t), r, lines)
  {
    OtherEvent(w, t, ReportedUp(w, t).last);
  }

  // ---------------------------------------------------------------- over events

  lemma {:induction false} AckBelowTop(t: Trace, a: nat)
    requires a < |Events(t)| && Events(t)[a].Acknowledges()
    ensures Events(t)[a].position <= TopAck(t)
  {
    if a + 1 < |Events(t)| {
      AckBelowTop(t.past, a);
    }
  }

  lemma {:induction false} OnceAt(w: World, t: Trace, b: nat)
    requires Once(w, t) && b < |Events(t)| && Events(t)[b].Consumed?
    ensures TopAck(Before(t, b)) < Events(t)[b].position
  {
    if b + 1 < |Events(t)| {
      OnceAt(w, t.past, b);
    }
  }

  // Over every run, with an orderly journal and readers that read on: a delivery
  // lies beyond every position acknowledged before it. No acknowledged record is
  // ever delivered again, whatever restarts and lost cursors lie between, and
  // acknowledged positions only rise.
  lemma NeverDeliveredAgain(w: World, attempts: seq<Attempt>, a: nat, b: nat)
    requires Orderly(w.journal) && InJournal(w, attempts) && AllIncreasing(attempts)
    requires a < b < |Events(History(w, attempts))|
    requires Events(History(w, attempts))[a].Acknowledges() && Events(History(w, attempts))[b].Consumed?
    ensures Events(History(w, attempts))[a].position < Events(History(w, attempts))[b].position
  {
    hide Orderly, AllIncreasing, InJournal, History;
    var t := History(w, attempts);
    HistoryOnce(w, attempts);
    OnceAt(w, t, b);
    assert Events(Before(t, b))[a] == Events(t)[a];
    AckBelowTop(Before(t, b), a);
  }
}
