// What a safe history means, read off its events in order.
module JournalSafety {
  import opened Wrappers
  import opened JournalTrace

  function Events(t: Trace): seq<Event> {
    match t case Begin(_, _) => [] case Then(past, e) => Events(past) + [e]
  }

  // The history before event b.
  function Before(t: Trace, b: nat): (past: Trace)
    requires b <= |Events(t)|
    ensures Events(past) == Events(t)[..b]
  {
    if b == |Events(t)| then t else Before(t.past, b)
  }

  // Every event of a safe history was permitted when it happened.
  lemma {:induction false} PermittedAt(w: World, t: Trace, b: nat)
    requires Safe(w, t) && b < |Events(t)|
    ensures Safe(w, Before(t, b)) && Permitted(w, Before(t, b), Events(t)[b])
  {
    hide Permitted;
    if b + 1 < |Events(t)| {
      PermittedAt(w, t.past, b);
    }
  }

  ghost predicate NoAckFrom(events: seq<Event>, a: nat) {
    forall c :: a <= c < |events| ==> !events[c].Acknowledges()
  }

  lemma {:induction false} LastAckFound(journal: seq<Entry>, t: Trace, a: nat)
    requires a < |Events(t)| && Events(t)[a].Acknowledges() && NoAckFrom(Events(t), a + 1)
    ensures LastAck(journal, t) == Some(Events(t)[a].position)
  {
    if a + 1 < |Events(t)| {
      assert !Events(t)[|Events(t)| - 1].Acknowledges();
      assert NoAckFrom(Events(t.past), a + 1) by {
        forall c | a + 1 <= c < |Events(t.past)| ensures !Events(t.past)[c].Acknowledges() {
          assert Events(t)[c] == Events(t.past)[c];
        }
      }
      LastAckFound(journal, t.past, a);
    }
  }

  lemma {:induction false} LossFound(t: Trace) returns (c: nat)
    requires LossDeclared(t)
    ensures c < |Events(t)| && Events(t)[c].LossGap() && NoAckFrom(Events(t), c)
  {
    if t.last.LossGap() {
      c := |Events(t)| - 1;
    } else {
      c := LossFound(t.past);
    }
  }

  lemma {:induction false} BadLineFound(t: Trace, m: nat) returns (c: nat)
    requires m in BadRecorded(t)
    ensures c < |Events(t)| && Events(t)[c].BadLine(m) && Events(t)[c].durable && NoAckFrom(Events(t), c)
  {
    if m in BadRecorded(t.past) && !t.last.Acknowledges() {
      c := BadLineFound(t.past, m);
    } else {
      c := |Events(t)| - 1;
    }
  }

  // Position m is accounted for by an event strictly between a and b.
  ghost predicate CoveredBetween(events: seq<Event>, a: int, b: nat, m: nat) {
    exists c :: a < c < b <= |events| && 0 <= c &&
      (events[c].LossGap() || (events[c].BadLine(m) && events[c].durable))
  }

  lemma CoveredByHistory(journal: seq<Entry>, t: Trace, b: nat, a: int, i: nat, j: nat, m: nat)
    requires b <= |Events(t)| && -1 <= a < b
    requires LastAck(journal, Before(t, b)) == Some(i) && Accounted(journal, Before(t, b), j) && i < m < j
    requires a >= 0 ==> Events(t)[a].Acknowledges()
    ensures CoveredBetween(Events(t), a, b, m)
  {
    var past := Before(t, b);
    var c;
    if LossDeclared(past) {
      c := LossFound(past);
    } else {
      assert m in BadRecorded(past);
      c := BadLineFound(past, m);
    }
    assert Events(past)[c] == Events(t)[c];
    assert a >= 0 ==> Events(past)[a] == Events(t)[a];
  }

  // No silent skip: a journal position between two successively acknowledged
  // ones was declared lost, or recorded as a bad line, between the two
  // acknowledgements. (`b` may also be a delivery the consumer refused.)
  lemma NoSilentSkip(w: World, t: Trace, a: nat, b: nat, m: nat)
    requires Safe(w, t) && w.orderly && a < b < |Events(t)|
    requires Events(t)[a].Acknowledges() && Events(t)[b].Consumed?
    requires forall c :: a < c < b ==> !Events(t)[c].Acknowledges()
    requires Events(t)[a].position < m < Events(t)[b].position
    ensures CoveredBetween(Events(t), a, b, m)
  {
    hide Safe, LastAck, Accounted;
    PermittedAt(w, t, b);
    LastAckFound(w.journal, Before(t, b), a);
    CoveredByHistory(w.journal, t, b, a, Events(t)[a].position, Events(t)[b].position, m);
  }

  lemma {:induction false} LastAckInitial(journal: seq<Entry>, t: Trace, i: nat)
    requires Orderly(journal) && i < |journal| && NoAckFrom(Events(t), 0)
    requires Start(t).initialCursor == journal[i].cursor != ""
    ensures LastAck(journal, t) == Some(i)
  {
    match t
    case Begin(_, _) =>
    case Then(past, e) =>
      assert Events(t)[|Events(t)| - 1] == e;
      forall c | 0 <= c < |Events(past)| ensures !Events(past)[c].Acknowledges() {
        assert Events(t)[c] == Events(past)[c];
      }
      LastAckInitial(journal, past, i);
  }

  function Start(t: Trace): (s: Trace)
    ensures s.Begin?
  {
    match t case Begin(_, _) => t case Then(past, _) => Start(past)
  }

  lemma {:induction false} SafeStart(w: World, t: Trace)
    requires Safe(w, t)
    ensures Start(t) == Begin(w.initialCursor, w.initialPending)
  {
    hide Permitted;
    if t.Then? {
      SafeStart(w, t.past);
    }
  }

  // The same from the checkpoint the run was started with.
  lemma NoSilentSkipFromCheckpoint(w: World, t: Trace, i: nat, b: nat, m: nat)
    requires Safe(w, t) && w.orderly && Orderly(w.journal) && b < |Events(t)|
    requires i < |w.journal| && w.initialCursor == w.journal[i].cursor != ""
    requires Events(t)[b].Consumed?
    requires forall c :: 0 <= c < b ==> !Events(t)[c].Acknowledges()
    requires i < m < Events(t)[b].position
    ensures CoveredBetween(Events(t), -1, b, m)
  {
    hide Safe, LastAck, Accounted;
    PermittedAt(w, t, b);
    SafeStart(w, Before(t, b));
    LastAckInitial(w.journal, Before(t, b), i);
    CoveredByHistory(w.journal, t, b, -1, i, Events(t)[b].position, m);
  }

  // An attempt starts without a cursor only after declaring a loss that no
  // acknowledgement has followed.
  lemma ColdStartDeclared(w: World, t: Trace, b: nat) returns (c: nat)
    requires Safe(w, t) && w.anchored && b < |Events(t)|
    requires Events(t)[b].Launched? && Events(t)[b].cursor == ""
    ensures c < b && Events(t)[c].LossGap()
    ensures forall d :: c <= d < b ==> !Events(t)[d].Acknowledges()
  {
    hide Safe;
    PermittedAt(w, t, b);
    c := LossFound(Before(t, b));
    forall d | c <= d < b ensures !Events(t)[d].Acknowledges() {
      assert Events(t)[d] == Events(Before(t, b))[d];
    }
  }

  // The event at a belongs to the attempt that is current at the end.
  ghost predicate NoLaunchAfter(events: seq<Event>, a: nat) {
    forall c :: a < c < |events| ==> !events[c].Launched?
  }

  lemma NoLaunchAfterPast(t: Trace, a: nat)
    requires t.Then? && a + 1 < |Events(t)| && NoLaunchAfter(Events(t), a)
    ensures !t.last.Launched? && NoLaunchAfter(Events(t.past), a) && Events(t.past)[a] == Events(t)[a]
  {
    assert Events(t)[|Events(t)| - 1] == t.last;
    forall c | a < c < |Events(t.past)| ensures !Events(t.past)[c].Launched? {
      assert Events(t)[c] == Events(t.past)[c];
    }
  }

  lemma {:induction false} FailureRemembered(t: Trace, a: nat)
    requires a < |Events(t)| && NoLaunchAfter(Events(t), a)
    requires Events(t)[a].Published? && !Events(t)[a].durable
    ensures DegradationFailed(t)
  {
    if a + 1 < |Events(t)| {
      NoLaunchAfterPast(t, a);
      FailureRemembered(t.past, a);
    }
  }

  // Once a degradation could not be recorded, nothing more is delivered until
  // the next attempt is launched.
  lemma DegradationBeforeCheckpoint(w: World, t: Trace, a: nat, b: nat)
    requires Safe(w, t) && a < b < |Events(t)|
    requires Events(t)[a].Published? && !Events(t)[a].durable && Events(t)[b].Consumed?
    ensures exists c :: a < c < b && Events(t)[c].Launched?
  {
    hide Safe;
    PermittedAt(w, t, b);
    if forall c :: a < c < b ==> !Events(t)[c].Launched? {
      var past := Before(t, b);
      forall c | a < c < |Events(past)| ensures !Events(past)[c].Launched? {
        assert Events(past)[c] == Events(t)[c];
      }
      FailureRemembered(past, a);
    }
  }

  // A live entry was read after event a.
  predicate LiveSince(events: seq<Event>, a: nat) {
    exists c :: a < c < |events| && events[c].WentLive?
  }

  // Deliveries after event a made before a live entry was read.
  function ReplayCount(events: seq<Event>, a: nat): nat {
    if |events| <= a + 1 then 0
    else
      var n := |events| - 1;
      ReplayCount(events[..n], a) + if events[n].Consumed? && !LiveSince(events[..n], a) then 1 else 0
  }

  lemma {:induction false} LaunchFound(t: Trace, a: nat)
    requires a < |Events(t)| && NoLaunchAfter(Events(t), a) && Events(t)[a].Launched?
    ensures CurrentLaunch(t) == Some(Events(t)[a])
    ensures IsLive(t) <==> LiveSince(Events(t), a)
    ensures Replayed(t) == ReplayCount(Events(t), a)
  {
    NothingSince(Events(t), a);
    hide LiveSince, ReplayCount, NoLaunchAfter;
    if a + 1 < |Events(t)| {
      NoLaunchAfterPast(t, a);
      LaunchFound(t.past, a);
      LiveStep(Events(t.past), t.last, a);
      CountStep(Events(t.past), t.last, a);
    } else {
      assert t.last == Events(t)[a];
    }
  }

  lemma NothingSince(events: seq<Event>, a: nat)
    ensures |events| <= a + 1 ==> !LiveSince(events, a) && ReplayCount(events, a) == 0
  {
  }

  lemma LiveStep(events: seq<Event>, e: Event, a: nat)
    requires a < |events|
    ensures LiveSince(events + [e], a) <==> LiveSince(events, a) || e.WentLive?
  {
    var all := events + [e];
    if LiveSince(events, a) {
      var c :| a < c < |events| && events[c].WentLive?;
      assert all[c].WentLive?;
    }
    if e.WentLive? {
      assert all[|events|].WentLive?;
    }
  }

  lemma CountStep(events: seq<Event>, e: Event, a: nat)
    requires a < |events|
    ensures ReplayCount(events + [e], a) == ReplayCount(events, a) + if e.Consumed? && !LiveSince(events, a) then 1 else 0
  {
    assert (events + [e])[..|events|] == events;
  }

  // An attempt launched without a cursor delivers nothing received at or before
  // the time acknowledged when it was launched, and no attempt delivers more
  // than MaxBackfill entries before its first live one.
  lemma BoundedReplay(w: World, t: Trace, a: nat, b: nat)
    requires Safe(w, t) && a < b < |Events(t)|
    requires Events(t)[a].Launched? && Events(t)[b].Consumed?
    requires forall c :: a < c < b ==> !Events(t)[c].Launched?
    ensures Events(t)[b].position < |w.journal|
    ensures Events(t)[a].cursor == "" && Events(t)[a].ackedAt.Some? ==>
      w.journal[Events(t)[b].position].ReceivedAt() > Events(t)[a].ackedAt.value
    ensures !LiveSince(Events(t)[..b], a) ==>
      && w.journal[Events(t)[b].position].ReceivedAt() < Events(t)[a].started
      && ReplayCount(Events(t)[..b + 1], a) <= w.maxBackfill
  {
    hide Safe;
    PermittedAt(w, t, b);
    var past := Before(t, b);
    forall c | a < c < |Events(past)| ensures !Events(past)[c].Launched? {
      assert Events(past)[c] == Events(t)[c];
    }
    LaunchFound(past, a);
    assert Events(t)[..b + 1][..b] == Events(past);
  }

  // A trusted entry was newly persisted.
  ghost predicate Ingests(w: World, e: Event) {
    e.Consumed? && e.ack.Recorded? && e.position < |w.journal| && w.journal[e.position].Trusted()
  }

  predicate Degrades(e: Event) { e.Published? && e.status.QualityDegraded() }

  lemma {:induction false} BeforeBefore(t: Trace, b: nat, a: nat)
    requires a <= b <= |Events(t)|
    ensures Before(Before(t, b), a) == Before(t, a)
  {
    if b < |Events(t)| {
      BeforeBefore(t.past, b, a);
    }
  }

  lemma {:induction false} PendingCleared(w: World, t: Trace, a: nat) returns (c: nat)
    requires a <= |Events(t)| && Pending(w.journal, Before(t, a)) && !Pending(w.journal, t)
    ensures a <= c < |Events(t)| && Ingests(w, Events(t)[c])
  {
    if Pending(w.journal, t.past) {
      c := |Events(t)| - 1;
    } else {
      c := PendingCleared(w, t.past, a);
    }
  }

  lemma {:induction false} PendingSince(w: World, t: Trace) returns (a: int)
    requires Pending(w.journal, t)
    ensures -1 <= a < |Events(t)|
    ensures if a < 0 then Start(t).initialPending else Degrades(Events(t)[a])
    ensures forall c :: a < c < |Events(t)| ==> !Ingests(w, Events(t)[c])
  {
    if t.Begin? {
      a := -1;
    } else if Degrades(t.last) {
      a := |Events(t)| - 1;
    } else {
      a := PendingSince(w, t.past);
      forall c | a < c < |Events(t)| ensures !Ingests(w, Events(t)[c]) {
        if c < |Events(t.past)| {
          assert Events(t)[c] == Events(t.past)[c];
        }
      }
    }
  }

  // After event a, or from the start of the run, a quality loss awaits recovery.
  ghost predicate LossAt(w: World, t: Trace, a: int) {
    -1 <= a < |Events(t)| && if a < 0 then w.initialPending else Degrades(Events(t)[a])
  }

  // Recovery: once quality was lost, a process start is reported as running only
  // if a trusted entry has been newly persisted since. Process restarts and
  // duplicate acknowledgements never recover it.
  lemma RecoveryNeedsIngest(w: World, t: Trace, a: int, b: nat) returns (c: nat)
    requires Safe(w, t) && b < |Events(t)| && a < b && LossAt(w, t, a)
    requires Events(t)[b].Published? && Events(t)[b].status == Status(Running, ProcessStarted)
    ensures a < c < b && Ingests(w, Events(t)[c])
  {
    hide Safe;
    PermittedAt(w, t, b);
    var past := Before(t, b);
    BeforeBefore(t, b, a + 1);
    assert Pending(w.journal, Before(past, a + 1)) by { LossPending(w, t, a); }
    c := PendingCleared(w, past, a + 1);
    assert Events(past)[c] == Events(t)[c];
  }

  lemma LossPending(w: World, t: Trace, a: int)
    requires Safe(w, t) && LossAt(w, t, a)
    ensures Pending(w.journal, Before(t, a + 1))
  {
    hide Safe;
    var past := Before(t, a + 1);
    if a < 0 {
      SafeStart(w, t);
      StartBefore(t, 0);
      assert Events(past) == [];
    } else {
      assert Events(past)[a] == Events(t)[a] == past.last;
    }
  }

  lemma {:induction false} StartBefore(t: Trace, b: nat)
    requires b <= |Events(t)|
    ensures Start(Before(t, b)) == Start(t)
  {
    if b < |Events(t)| {
      StartBefore(t.past, b);
    }
  }

  // Conversely a process start is reported as retrying only over a quality loss
  // that no such entry has followed.
  lemma RetryingNeedsLoss(w: World, t: Trace, b: nat) returns (a: int)
    requires Safe(w, t) && b < |Events(t)|
    requires Events(t)[b].Published? && Events(t)[b].status == Status(Retrying, ProcessStarted)
    ensures a < b && LossAt(w, t, a)
    ensures forall c :: a < c < b ==> !Ingests(w, Events(t)[c])
  {
    hide Safe;
    PermittedAt(w, t, b);
    SafeStart(w, t);
    StartBefore(t, b);
    var past := Before(t, b);
    a := PendingSince(w, past);
    forall c | a <= c < b && 0 <= c ensures Events(t)[c] == Events(past)[c] {
    }
  }

  // "record_persisted" is published only right after such an ingest.
  lemma RecoveryReported(w: World, t: Trace, b: nat)
    requires Safe(w, t) && b < |Events(t)|
    requires Events(t)[b].Published? && Events(t)[b].status.reason.RecordPersisted?
    ensures b > 0
    ensures var e := Events(t)[b - 1];
            e.Consumed? && e.ack.Recorded? && e.position < |w.journal| && w.journal[e.position].Trusted()
  {
    PermittedAt(w, t, b);
    assert Events(Before(t, b))[b - 1] == Before(t, b).last;
  }

  // What an attempt counts as live was received at or after its launch.
  lemma LiveIsLive(w: World, t: Trace, a: nat, b: nat)
    requires Safe(w, t) && a < b < |Events(t)| && Events(t)[a].Launched? && Events(t)[b].WentLive?
    requires forall c :: a < c < b ==> !Events(t)[c].Launched?
    ensures Events(t)[b].position < |w.journal|
    ensures w.journal[Events(t)[b].position].ReceivedAt() >= Events(t)[a].started
  {
    hide Safe;
    PermittedAt(w, t, b);
    var past := Before(t, b);
    forall c | a < c < |Events(past)| ensures !Events(past)[c].Launched? {
      assert Events(past)[c] == Events(t)[c];
    }
    LaunchFound(past, a);
  }

  // An untrusted or malformed entry is delivered only right after its loss of
  // quality was durably recorded.
  lemma UntrustedRecordedFirst(w: World, t: Trace, b: nat)
    requires Safe(w, t) && b < |Events(t)| && Events(t)[b].Consumed?
    ensures Events(t)[b].position < |w.journal|
    ensures !w.journal[Events(t)[b].position].Trusted() ==>
      b > 0 && Events(t)[b - 1].BadLine(Events(t)[b].position) && Events(t)[b - 1].durable
  {
    hide Safe;
    PermittedAt(w, t, b);
    var past := Before(t, b);
    assert past.Then? ==> Events(past)[b - 1] == past.last;
  }

  // ---------------------------------------------------------------- where attempts start

  // Event a acknowledged, and nothing after it did.
  ghost predicate LatestAck(events: seq<Event>, a: nat) {
    a < |events| && events[a].Acknowledges() && NoAckFrom(events, a + 1)
  }

  ghost predicate NoLossFrom(events: seq<Event>, a: nat) {
    forall c :: a <= c < |events| ==> !events[c].LossGap()
  }

  lemma NoneFromPast(t: Trace, a: nat)
    requires t.Then? && a < |Events(t)|
    ensures NoAckFrom(Events(t), a) <==> NoAckFrom(Events(t.past), a) && !t.last.Acknowledges()
    ensures NoLossFrom(Events(t), a) <==> NoLossFrom(Events(t.past), a) && !t.last.LossGap()
  {
    assert Events(t)[|Events(t)| - 1] == t.last;
    assert forall c :: 0 <= c < |Events(t.past)| ==> Events(t)[c] == Events(t.past)[c];
  }

  // The cursor to resume from is the last acknowledged record's, unless a loss was
  // declared since ...
  lemma {:induction false} CursorIs(w: World, t: Trace, a: nat)
    requires LatestAck(Events(t), a) && Events(t)[a].position < |w.journal|
    ensures CursorOf(w, t) ==
      if NoLossFrom(Events(t), a + 1) then w.journal[Events(t)[a].position].cursor else ""
  {
    if a + 1 < |Events(t)| {
      NoneFromPast(t, a + 1);
      CursorIs(w, t.past, a);
    }
  }

  // ... and before any acknowledgement the initial one, with the same exception.
  lemma {:induction false} CursorInitially(w: World, t: Trace)
    requires Safe(w, t) && NoAckFrom(Events(t), 0)
    ensures CursorOf(w, t) == if NoLossFrom(Events(t), 0) then w.initialCursor else ""
  {
    hide Permitted;
    if t.Then? {
      NoneFromPast(t, 0);
      CursorInitially(w, t.past);
    }
  }

  // The acknowledged time is the latest of the initial one and every acknowledged
  // record's reception.
  lemma {:induction false} AckTimeIs(w: World, t: Trace)
    requires Safe(w, t)
    ensures forall a :: 0 <= a < |Events(t)| && Events(t)[a].Acknowledges() ==>
      && Events(t)[a].position < |w.journal| && AckTime(w, t).Some?
      && w.journal[Events(t)[a].position].ReceivedAt() <= AckTime(w, t).value
    ensures w.initialObservedAt.Some? ==> AckTime(w, t).Some? && w.initialObservedAt.value <= AckTime(w, t).value
    ensures AckTime(w, t) == w.initialObservedAt ||
      exists a :: 0 <= a < |Events(t)| && Events(t)[a].Acknowledges() && Events(t)[a].position < |w.journal|
                  && AckTime(w, t) == Some(w.journal[Events(t)[a].position].ReceivedAt())
  {
    hide Permitted;
    if t.Then? {
      AckTimeIs(w, t.past);
      if t.last.Acknowledges() {
        AckInJournal(w, t);
      }
      var n := |Events(t)| - 1;
      assert Events(t)[n] == t.last;
      assert forall c :: 0 <= c < n ==> Events(t)[c] == Events(t.past)[c];
      if AckTime(w, t.past) != w.initialObservedAt && AckTime(w, t) == AckTime(w, t.past) {
        var a :| 0 <= a < n && Events(t.past)[a].Acknowledges() && Events(t.past)[a].position < |w.journal|
          && AckTime(w, t.past) == Some(w.journal[Events(t.past)[a].position].ReceivedAt());
        assert Events(t)[a] == Events(t.past)[a];
      }
    }
  }

  lemma AckInJournal(w: World, t: Trace)
    requires Safe(w, t) && t.Then? && t.last.Acknowledges()
    ensures t.last.position < |w.journal|
  {
  }

  // The attempt launched at a ended with a gap at c because its replay limit was
  // hit, and nothing was acknowledged since.
  ghost predicate LimitHit(events: seq<Event>, a: nat, c: nat) {
    && a < c < |events| && events[a].Launched? && CountLimitGap(events[c])
    && (forall d :: a < d < c ==> !events[d].Launched?)
    && NoAckFrom(events, c + 1)
  }

  // The last such attempt.
  ghost predicate ForcedBy(events: seq<Event>, a: nat, c: nat) {
    LimitHit(events, a, c) && forall d :: c < d < |events| ==> !CountLimitGap(events[d])
  }

  predicate CountLimitGap(e: Event) { e.Published? && e.status == Status(Gap, BackfillCountLimit) }

  lemma {:induction false} LaunchIndex(t: Trace) returns (a: nat)
    requires CurrentLaunch(t).Some?
    ensures a < |Events(t)| && CurrentLaunch(t) == Some(Events(t)[a]) && NoLaunchAfter(Events(t), a)
  {
    if t.last.Launched? {
      a := |Events(t)| - 1;
    } else {
      a := LaunchIndex(t.past);
      assert forall c :: 0 <= c < |Events(t.past)| ==> Events(t)[c] == Events(t.past)[c];
    }
  }

  lemma {:induction false} ForcedFound(t: Trace) returns (a: nat, c: nat)
    requires ForcedSince(t).Some?
    ensures LimitHit(Events(t), a, c) && ForcedSince(t) == Some(Events(t)[a].started)
  {
    var n := |Events(t)| - 1;
    assert Events(t)[n] == t.last;
    assert forall d :: 0 <= d < n ==> Events(t)[d] == Events(t.past)[d];
    if CountLimitGap(t.last) && CurrentLaunch(t.past).Some? {
      a := LaunchIndex(t.past);
      c := n;
    } else {
      a, c := ForcedFound(t.past);
    }
  }

  lemma {:induction false} ForcedIs(t: Trace, a: nat, c: nat)
    requires ForcedBy(Events(t), a, c)
    ensures ForcedSince(t) == Some(Events(t)[a].started)
  {
    var n := |Events(t)| - 1;
    assert Events(t)[n] == t.last;
    assert forall d :: 0 <= d < n ==> Events(t)[d] == Events(t.past)[d];
    if c == n {
      LaunchFound(t.past, a);
    } else {
      assert !t.last.Acknowledges() && !CountLimitGap(t.last);
      ForcedIs(t.past, a, c);
    }
  }

  // An attempt starts a window before its launch; later only at the microsecond
  // after the acknowledged time, when it has no cursor, or where an earlier
  // attempt was launched whose replay limit was hit, with nothing acknowledged
  // since. It starts before none of these.
  lemma LaunchStart(w: World, t: Trace, b: nat)
    requires Safe(w, t) && b < |Events(t)| && Events(t)[b].Launched?
    ensures var e := Events(t)[b];
            && e.since >= e.started - w.window
            && (e.cursor == "" && e.ackedAt.Some? ==> e.since > e.ackedAt.value)
            && (forall a: nat, c: nat :: ForcedBy(Events(t)[..b], a, c) ==> e.since >= Events(t)[a].started)
            && (|| e.since == e.started - w.window
                || (e.cursor == "" && e.ackedAt.Some? && e.since % 1000 == 0 && e.since - 1000 <= e.ackedAt.value)
                || (exists a: nat, c: nat :: LimitHit(Events(t)[..b], a, c) && e.since == Events(t)[a].started))
  {
    hide Safe, ForcedSince;
    PermittedAt(w, t, b);
    var past, e := Before(t, b), Events(t)[b];
    assert Events(past) == Events(t)[..b];
    forall a: nat, c: nat | ForcedBy(Events(t)[..b], a, c) ensures e.since >= Events(t)[a].started {
      ForcedIs(past, a, c);
      assert Events(past)[a] == Events(t)[a];
    }
    if ForcedSince(past).Some? {
      var a, c := ForcedFound(past);
      assert LimitHit(Events(t)[..b], a, c) && Events(past)[a] == Events(t)[a];
    }
  }

  // What a launch was told: cursor and time as the history so far has them, and
  // no cursor that was last acknowledged before the window.
  lemma LaunchState(w: World, t: Trace, b: nat)
    requires Safe(w, t) && b < |Events(t)| && Events(t)[b].Launched?
    ensures var e := Events(t)[b];
            && e.cursor == CursorOf(w, Before(t, b)) && e.ackedAt == AckTime(w, Before(t, b))
            && (e.cursor != "" && e.ackedAt.Some? ==> e.ackedAt.value >= e.started - w.window)
  {
    hide Safe;
    PermittedAt(w, t, b);
  }

  // ---------------------------------------------------------------- restart delays

  lemma {:induction false} DelayIs(w: World, t: Trace, a: nat)
    requires a < |Events(t)| && Events(t)[a].Slept? && forall c :: a < c < |Events(t)| ==> !Events(t)[c].Slept?
    ensures NextBackoff(w, t) == Min(2 * Events(t)[a].backoff, w.restartMax)
  {
    var n := |Events(t)| - 1;
    assert Events(t)[n] == t.last;
    assert forall d :: 0 <= d < n ==> Events(t)[d] == Events(t.past)[d];
    if a < n {
      DelayIs(w, t.past, a);
    }
  }

  lemma {:induction false} DelayInitially(w: World, t: Trace)
    requires forall c :: 0 <= c < |Events(t)| ==> !Events(t)[c].Slept?
    ensures NextBackoff(w, t) == w.restartMin
  {
    if t.Then? {
      var n := |Events(t)| - 1;
      assert Events(t)[n] == t.last;
      assert forall d :: 0 <= d < n ==> Events(t)[d] == Events(t.past)[d];
      DelayInitially(w, t.past);
    }
  }

  // Restart delays stay within bounds. After an attempt that took a minute or
  // moved the cursor, and the first time, the delay is the minimum; otherwise it
  // is twice the one before, up to the maximum.
  lemma BackoffBounded(w: World, t: Trace, b: nat)
    requires Safe(w, t) && b < |Events(t)| && Events(t)[b].Slept?
    ensures w.restartMin <= Events(t)[b].backoff <= w.restartMax
    ensures CurrentLaunch(Before(t, b)).Some?
    ensures Events(t)[b].overMinute || CursorOf(w, Before(t, b)) != CurrentLaunch(Before(t, b)).value.cursor ==>
      Events(t)[b].backoff == w.restartMin
    ensures (forall c :: 0 <= c < b ==> !Events(t)[c].Slept?) ==> Events(t)[b].backoff == w.restartMin
    ensures !Events(t)[b].overMinute && CursorOf(w, Before(t, b)) == CurrentLaunch(Before(t, b)).value.cursor ==>
      forall a :: 0 <= a < b && Events(t)[a].Slept? && (forall c :: a < c < b ==> !Events(t)[c].Slept?) ==>
        Events(t)[b].backoff == Min(2 * Events(t)[a].backoff, w.restartMax)
  {
    hide Safe, NextBackoff, CursorOf, CurrentLaunch;
    PermittedAt(w, t, b);
    var past := Before(t, b);
    assert forall c :: 0 <= c < b ==> Events(past)[c] == Events(t)[c];
    if forall c :: 0 <= c < b ==> !Events(t)[c].Slept? {
      DelayInitially(w, past);
    }
    forall a | 0 <= a < b && Events(t)[a].Slept? && (forall c :: a < c < b ==> !Events(t)[c].Slept?)
      ensures NextBackoff(w, past) == Min(2 * Events(t)[a].backoff, w.restartMax)
    {
      DelayIs(w, past, a);
    }
  }
}
