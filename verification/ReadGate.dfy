// sensor_rate.go: the virtual-scheduling gate in front of the sensor socket.
// Times are readings of one clock that never goes back.
module ReadGate {
  import opened Wrappers

  type Time = int

  class SensorReadGate {
    const interval: int
    const burst: int
    var next: Time

    constructor (interval: int, burst: int)
      requires interval >= 0
      ensures this.interval == interval && this.burst == burst
    {
      this.interval, this.burst, next := interval, burst, 0;
    }

    // wait, up to the timer: the time from which the read may go ahead.
    method Reserve(now: Time) returns (ready: Time)
      modifies this`next
      ensures ready == ReadyAt(old(next), now, interval, burst)
      ensures next == NextAfterWait(old(next), now, interval)
    {
      if next < now {
        next := now;
      }
      ready := next - (Max(burst, 1) - 1) * interval;
      next := next + interval;
    }

    // readComplete
    method ReadComplete(now: Time)
      modifies this`next
      ensures next == NextAfterRead(old(next), now, interval)
    {
      var after := now + interval;
      if next < after {
        next := after;
      }
    }

    // One reader taking turns: wait, sleep until released, read, complete. The
    // timer never fires early; how late it fires, how long the frame then takes
    // to arrive, and whether it arrives at all, is up to each call.
    method Serve(calls: seq<Call>) returns (turns: seq<Turn>)
      modifies this`next
      ensures Served(old(next), turns, interval, burst)
      ensures next == NextAfter(old(next), turns, interval)
      ensures |turns| == |calls|
      ensures forall i :: 0 <= i < |calls| ==>
        turns[i] == TurnOf(NextAfter(old(next), turns[..i], interval), calls[i], interval, burst)
    {
      hide Served, NextAfter, ReadyAt, NextAfterWait, NextAfterRead;
      OneMoreTurn(next, [], Turn(0, None), interval, burst);
      turns := [];
      for i := 0 to |calls|
        invariant |turns| == i && next == NextAfter(old(next), turns, interval)
        invariant Served(old(next), turns, interval, burst)
        invariant forall j :: 0 <= j < i ==>
          turns[j] == TurnOf(NextAfter(old(next), turns[..j], interval), calls[j], interval, burst)
      {
        var call := calls[i];
        var ready := Reserve(call.at);
        var done := None;
        if call.lag.Some? {
          done := Some(Max(ready, call.at) + call.lag.value);
          ReadComplete(done.value);
        }
        ghost var before := turns;
        OneMoreTurn(old(next), before, Turn(call.at, done), interval, burst);
        turns := turns + [Turn(call.at, done)];
        assert turns[..i] == before;
        assert forall j :: 0 <= j < i ==> turns[..j] == before[..j];
      }
    }
  }

  // When wait is called, and how long after its release the read completes, if
  // it does.
  datatype Call = Call(at: Time, lag: Option<nat>)

  // A call is released at its ready time or, if that has passed, at once.
  function TurnOf(next: Time, call: Call, interval: int, burst: int): Turn {
    Turn(call.at, if call.lag.None? then None
                  else Some(Max(ReadyAt(next, call.at, interval, burst), call.at) + call.lag.value))
  }

  function ReadyAt(next: Time, now: Time, interval: int, burst: int): Time {
    Max(next, now) - (Max(burst, 1) - 1) * interval
  }

  function NextAfterWait(next: Time, now: Time, interval: int): Time { Max(next, now) + interval }

  function NextAfterRead(next: Time, now: Time, interval: int): Time { Max(next, now + interval) }

  // One turn of the reader: when it called wait and, if the read went through,
  // when readComplete was called.
  datatype Turn = Turn(waitAt: Time, done: Option<Time>)

  function NextAfter(next: Time, turns: seq<Turn>, interval: int): Time {
    if turns == [] then next
    else
      var before := NextAfter(next, turns[..|turns| - 1], interval);
      var turn := turns[|turns| - 1];
      var reserved := NextAfterWait(before, turn.waitAt, interval);
      if turn.done.Some? then NextAfterRead(reserved, turn.done.value, interval) else reserved
  }

  // The gate held every completed read until its ready time.
  predicate Served(next: Time, turns: seq<Turn>, interval: int, burst: int) {
    turns == [] ||
    (var turn := turns[|turns| - 1];
     && Served(next, turns[..|turns| - 1], interval, burst)
     && (turn.done.Some? ==>
           turn.done.value >= ReadyAt(NextAfter(next, turns[..|turns| - 1], interval), turn.waitAt, interval, burst)
           && turn.done.value >= turn.waitAt))
  }

  // Both readings of the turns, one turn later.
  lemma OneMoreTurn(next: Time, turns: seq<Turn>, turn: Turn, interval: int, burst: int)
    ensures NextAfter(next, [], interval) == next && Served(next, [], interval, burst)
    ensures var before := NextAfter(next, turns, interval);
            var reserved := NextAfterWait(before, turn.waitAt, interval);
            && NextAfter(next, turns + [turn], interval)
               == (if turn.done.Some? then NextAfterRead(reserved, turn.done.value, interval) else reserved)
            && (Served(next, turns + [turn], interval, burst) <==>
                  Served(next, turns, interval, burst) &&
                  (turn.done.Some? ==>
                     turn.done.value >= ReadyAt(before, turn.waitAt, interval, burst) && turn.done.value >= turn.waitAt))
  {
    hide NextAfterWait, NextAfterRead, ReadyAt;
    assert (turns + [turn])[..|turns|] == turns;
  }

  lemma {:induction false} ServedPrefix(next: Time, turns: seq<Turn>, n: nat, interval: int, burst: int)
    requires n <= |turns|
    ensures Served(next, turns, interval, burst) ==> Served(next, turns[..n], interval, burst)
    decreases |turns|
  {
    if n < |turns| {
      ServedPrefix(next, turns[..|turns| - 1], n, interval, burst);
      assert turns[..|turns| - 1][..n] == turns[..n];
    } else {
      assert turns[..n] == turns;
    }
  }

  // Completed reads among turns a..b (both included).
  function Completed(turns: seq<Turn>, a: nat, b: nat): nat
    requires b <= |turns|
  {
    if b <= a then 0 else Completed(turns, a, b - 1) + if turns[b - 1].done.Some? then 1 else 0
  }

  // After a read that completed at turn a, the schedule has moved on by one
  // interval for it and one for every later completion.
  lemma {:induction false} ScheduleAdvances(next: Time, turns: seq<Turn>, a: nat, b: nat, interval: int)
    requires a < b <= |turns| && turns[a].done.Some? && interval >= 0
    ensures NextAfter(next, turns[..b], interval) >= turns[a].done.value + Completed(turns, a, b) * interval
  {
    var k := Completed(turns, a, b);
    assert turns[..b][..b - 1] == turns[..b - 1];
    if a + 1 < b {
      ScheduleAdvances(next, turns, a, b - 1, interval);
      assert k * interval <= Completed(turns, a, b - 1) * interval + interval by {
        assert (Completed(turns, a, b - 1) + 1) * interval == Completed(turns, a, b - 1) * interval + interval;
      }
    } else {
      assert Completed(turns, a, a) == 0 && k == 1;
    }
  }

  // Reads that completed inside the window [s, t].
  function InWindow(turns: seq<Turn>, s: Time, t: Time): nat {
    if turns == [] then 0
    else InWindow(turns[..|turns| - 1], s, t) + if Inside(turns[|turns| - 1], s, t) then 1 else 0
  }

  predicate Inside(turn: Turn, s: Time, t: Time) { turn.done.Some? && s <= turn.done.value <= t }

  lemma {:induction false} WindowEnds(turns: seq<Turn>, s: Time, t: Time) returns (a: nat, b: nat)
    requires InWindow(turns, s, t) > 0
    ensures a <= b < |turns| && Inside(turns[a], s, t) && Inside(turns[b], s, t)
    ensures InWindow(turns, s, t) <= Completed(turns, a, b + 1)
    decreases |turns|
  {
    var shorter, n := turns[..|turns| - 1], |turns|;
    if InWindow(shorter, s, t) == 0 {
      a, b := n - 1, n - 1;
      assert Completed(turns, a, a) == 0;
    } else {
      a, b := WindowEnds(shorter, s, t);
      CompletedPrefix(turns, n - 1, a, b + 1);
      if Inside(turns[n - 1], s, t) {
        CompletedGrows(turns, a, b + 1, n - 1);
        b := n - 1;
      }
    }
  }

  lemma {:induction false} CompletedPrefix(turns: seq<Turn>, n: nat, a: nat, b: nat)
    requires b <= n <= |turns|
    ensures Completed(turns[..n], a, b) == Completed(turns, a, b)
    decreases b
  {
    if a < b {
      CompletedPrefix(turns, n, a, b - 1);
    }
  }

  lemma {:induction false} CompletedGrows(turns: seq<Turn>, a: nat, b: nat, c: nat)
    requires b <= c <= |turns|
    ensures Completed(turns, a, b) <= Completed(turns, a, c)
    decreases c
  {
    if b < c {
      CompletedGrows(turns, a, b, c - 1);
    }
  }

  lemma Products(x: int, y: int, z: int)
    ensures x * z - y * z == (x - y) * z
    ensures z >= 0 && x <= y ==> x * z <= y * z
  {
    if z >= 0 && x <= y {
      assert (y - x) * z >= 0;
    }
  }

  // The rate bound: k reads completing within any window, however long the
  // reader idled before or inside it and however often it reconnected, take at
  // least k - burst intervals.
  lemma RateBound(next: Time, turns: seq<Turn>, s: Time, t: Time, interval: int, burst: int)
    requires interval >= 0 && Served(next, turns, interval, burst) && s <= t
    ensures (InWindow(turns, s, t) - Max(burst, 1)) * interval <= t - s
  {
    hide Served, NextAfter, InWindow, Completed;
    var k, m := InWindow(turns, s, t), Max(burst, 1);
    if k <= m {
      Products(k, m, interval);
    } else {
      var a, b := WindowEnds(turns, s, t);
      SpanBound(next, turns, a, b, interval, burst);
      Products(k - m, Completed(turns, a, b + 1) - m, interval);
    }
  }

  // Between two completions lie the intervals of the completions after the first burst.
  lemma SpanBound(next: Time, turns: seq<Turn>, a: nat, b: nat, interval: int, burst: int)
    requires interval >= 0 && Served(next, turns, interval, burst)
    requires a <= b < |turns| && turns[a].done.Some? && turns[b].done.Some?
    ensures (Completed(turns, a, b + 1) - Max(burst, 1)) * interval <= turns[b].done.value - turns[a].done.value
  {
    hide ReadyAt, Completed, NextAfter;
    var k, m := Completed(turns, a, b + 1), Max(burst, 1);
    assert turns[..b + 1][..b] == turns[..b];
    if a == b {
      assert k == 1 by { CompletedOne(turns, a); }
      Products(k, m, interval);
    } else {
      ServedPrefix(next, turns, b + 1, interval, burst);
      ScheduleAdvances(next, turns, a, b, interval);
      var before := NextAfter(next, turns[..b], interval);
      assert turns[b].done.value >= before - (m - 1) * interval by {
        ReadyBound(before, turns[b].waitAt, interval, burst);
      }
      assert k == Completed(turns, a, b) + 1 by { CompletedOne(turns, b); CompletedStep(turns, a, b); }
      Products(k - 1, m - 1, interval);
    }
  }

  lemma ReadyBound(next: Time, now: Time, interval: int, burst: int)
    ensures ReadyAt(next, now, interval, burst) >= next - (Max(burst, 1) - 1) * interval
  {
  }

  lemma CompletedOne(turns: seq<Turn>, a: nat)
    requires a < |turns| && turns[a].done.Some?
    ensures Completed(turns, a, a + 1) == 1
  {
    assert Completed(turns, a, a) == 0;
  }

  lemma CompletedStep(turns: seq<Turn>, a: nat, b: nat)
    requires a <= b < |turns| && turns[b].done.Some?
    ensures Completed(turns, a, b + 1) == Completed(turns, a, b) + 1
  {
  }

  // ---------------------------------------------------------------- bursts

  // Reads without delay: each turn waits before its frame arrives and completes
  // at the instant it arrives.
  ghost predicate Prompt(turns: seq<Turn>) {
    forall i :: 0 <= i < |turns| ==> turns[i].done.Some? && turns[i].waitAt <= turns[i].done.value
  }

  // No stretch of frames exceeds m frames plus one per interval.
  ghost predicate Conforming(turns: seq<Turn>, m: nat, interval: int)
    requires Prompt(turns)
  {
    forall i, j :: 0 <= i <= j < |turns| ==>
      (j - i + 1 - m) * interval <= turns[j].done.value - turns[i].done.value
  }

  // The schedule is some completion plus one interval for it and each later one.
  lemma {:induction false} ScheduleFrom(next: Time, turns: seq<Turn>, interval: int) returns (i: nat)
    requires interval >= 0 && Prompt(turns) && turns != [] && next <= turns[0].done.value
    ensures i < |turns| && NextAfter(next, turns, interval) <= turns[i].done.value + (|turns| - i) * interval
    decreases |turns|
  {
    var n := |turns|;
    if n == 1 {
      assert turns[..0] == [];
      i := 0;
    } else {
      i := ScheduleFrom(next, turns[..n - 1], interval);
      assert (n - i) * interval == (n - 1 - i) * interval + interval;
      if NextAfter(next, turns, interval) > turns[i].done.value + (n - i) * interval {
        i := n - 1;
      }
    }
  }

  lemma Released(before: int, first: int, last: int, k: int, m: int, interval: int)
    requires before <= first + k * interval && (k + 1 - m) * interval <= last - first
    ensures last >= before - (m - 1) * interval
  {
    Products(k, m - 1, interval);
  }

  lemma ConformingPart(turns: seq<Turn>, m: nat, interval: int)
    requires Prompt(turns) && turns != [] && Conforming(turns, m, interval)
    ensures Prompt(turns[..|turns| - 1]) && Conforming(turns[..|turns| - 1], m, interval)
  {
    var earlier := turns[..|turns| - 1];
    forall i, j | 0 <= i <= j < |earlier|
      ensures (j - i + 1 - m) * interval <= earlier[j].done.value - earlier[i].done.value
    {
      assert (j - i + 1 - m) * interval <= turns[j].done.value - turns[i].done.value;
    }
  }

  lemma ConformingLast(turns: seq<Turn>, i: nat, m: nat, interval: int)
    requires Prompt(turns) && i < |turns| && Conforming(turns, m, interval)
    ensures (|turns| - i - m) * interval <= turns[|turns| - 1].done.value - turns[i].done.value
  {
    var n := |turns| - 1;
    assert (n - i + 1 - m) * interval <= turns[n].done.value - turns[i].done.value;
  }

  // Frames that conform to the rate and burst are never delayed.
  lemma {:induction false} ConformingServed(next: Time, turns: seq<Turn>, interval: int, burst: int)
    requires interval >= 0 && Prompt(turns) && Conforming(turns, Max(burst, 1), interval)
    requires turns != [] ==> next <= turns[0].done.value
    ensures Served(next, turns, interval, burst)
    decreases |turns|
  {
    hide Served, NextAfter, Conforming;
    OneMoreTurn(next, [], Turn(0, None), interval, burst);
    if turns == [] {
      assert turns == [];
    } else {
      var n, m := |turns| - 1, Max(burst, 1);
      var earlier, last := turns[..n], turns[n];
      assert turns == earlier + [last];
      OneMoreTurn(next, earlier, last, interval, burst);
      ConformingPart(turns, m, interval);
      ConformingServed(next, earlier, interval, burst);
      assert (m - 1) * interval >= 0 by { Products(0, m - 1, interval); }
      if n > 0 {
        var i := ScheduleFrom(next, earlier, interval);
        ConformingLast(turns, i, m, interval);
        Released(NextAfter(next, earlier, interval), earlier[i].done.value, last.done.value, n - i, m, interval);
      } else {
        assert earlier == [];
      }
    }
  }

  // The gate delays exactly the frames that exceed the rate and burst: reads
  // made without delay were allowed if and only if the frames conform.
  lemma ServedIffConforming(next: Time, turns: seq<Turn>, interval: int, burst: int)
    requires interval >= 0 && Prompt(turns)
    requires turns != [] ==> next <= turns[0].done.value
    ensures Served(next, turns, interval, burst) <==> Conforming(turns, Max(burst, 1), interval)
  {
    if Conforming(turns, Max(burst, 1), interval) {
      ConformingServed(next, turns, interval, burst);
    }
    if Served(next, turns, interval, burst) {
      forall i, j | 0 <= i <= j < |turns|
        ensures (j - i + 1 - Max(burst, 1)) * interval <= turns[j].done.value - turns[i].done.value
      {
        SpanBound(next, turns, i, j, interval, burst);
        AllCompleted(turns, i, j + 1);
      }
    }
  }

  lemma {:induction false} AllCompleted(turns: seq<Turn>, a: nat, b: nat)
    requires Prompt(turns) && a <= b <= |turns|
    ensures Completed(turns, a, b) == b - a
    decreases b
  {
    if a < b {
      AllCompleted(turns, a, b - 1);
    }
  }

  // A sender's rounds, frame by frame: when its round started and which place,
  // from 0, it takes there. A round has at most m frames, each arriving within
  // one interval per earlier frame of its round; rounds start at least m
  // intervals apart.
  datatype Slot = Slot(start: Time, place: nat)

  ghost predicate InRounds(turns: seq<Turn>, slots: seq<Slot>, m: nat, interval: int)
    requires Prompt(turns)
  {
    && |slots| == |turns|
    && (forall i :: 0 <= i < |turns| ==>
          slots[i].place < m && slots[i].start <= turns[i].done.value <= slots[i].start + slots[i].place * interval)
    && (forall i :: 0 < i < |turns| ==> Follows(slots[i - 1], slots[i], m, interval))
  }

  predicate Follows(a: Slot, b: Slot, m: nat, interval: int) {
    || (b.start == a.start && b.place == a.place + 1)
    || (b.start >= a.start + m * interval && b.place == 0)
  }

  // Frames advance the sender's schedule by at least one interval each.
  lemma {:induction false} RoundsAdvance(turns: seq<Turn>, slots: seq<Slot>, m: nat, interval: int, i: nat, j: nat)
    requires interval >= 0 && Prompt(turns) && InRounds(turns, slots, m, interval) && i <= j < |turns|
    ensures slots[j].start - slots[i].start >= (j - i - slots[j].place + slots[i].place) * interval
    decreases j
  {
    if i < j {
      RoundsAdvance(turns, slots, m, interval, i, j - 1);
      assert Follows(slots[j - 1], slots[j], m, interval);
      var before, now := j - 1 - i - slots[j - 1].place + slots[i].place, j - i - slots[j].place + slots[i].place;
      if slots[j].place == 0 {
        Products(now, before + m, interval);
        assert (before + m) * interval == before * interval + m * interval;
      }
    }
  }

  // A sender of at most burst frames per round is never delayed.
  lemma PacedNeverDelayed(next: Time, turns: seq<Turn>, slots: seq<Slot>, interval: int, burst: int)
    requires interval >= 0 && Prompt(turns) && InRounds(turns, slots, Max(burst, 1), interval)
    requires turns != [] ==> next <= turns[0].done.value
    ensures Served(next, turns, interval, burst)
  {
    var m := Max(burst, 1);
    forall i, j | 0 <= i <= j < |turns|
      ensures (j - i + 1 - m) * interval <= turns[j].done.value - turns[i].done.value
    {
      RoundsAdvance(turns, slots, m, interval, i, j);
      var a, b := slots[i].place, slots[j].place;
      assert (j - i - b + a) * interval == (j - i - b) * interval + a * interval;
      Products(j - i + 1 - m, j - i - b, interval);
    }
    ConformingServed(next, turns, interval, burst);
  }
}
