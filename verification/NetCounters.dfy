// netdev_set.go, runSet: raw interface counters turned into traffic deltas.
module NetCounters {
  import opened Wrappers

  const MAX_INTERFACES: nat := 8

  datatype Counters = Counters(rxBytes: uint64, txBytes: uint64, rxPackets: uint64, txPackets: uint64)

  datatype Ref = Ref(name: string, index: int)

  // One round: whether discovery succeeded (possibly in part), the interfaces it
  // returned, and what reading each of them gave.
  datatype Poll = Poll(discovered: bool, refs: seq<Ref>, readings: seq<Option<Counters>>)

  datatype Delta = Delta(name: string, counters: Counters)

  datatype Baseline = Baseline(index: int, counters: Counters, valid: bool)

  // ---------------------------------------------------------------- samples

  datatype Sample = Sample(index: int, counters: Counters)

  predicate Usable(poll: Poll) { poll.discovered && 0 < |poll.refs| <= MAX_INTERFACES }

  // What a poll says about one interface; nothing if the poll was unusable, the
  // interface absent or without an index, or its read failed.
  function View(poll: Poll, name: string): Option<Sample>
    requires |poll.refs| == |poll.readings|
  {
    if Usable(poll) then Reading(poll.refs, poll.readings, name) else None
  }

  function Reading(refs: seq<Ref>, readings: seq<Option<Counters>>, name: string): Option<Sample>
    requires |refs| == |readings|
  {
    if refs == [] then None
    else
      var n := |refs| - 1;
      if refs[n].name == name then
        (if refs[n].index > 0 && readings[n].Some? then Some(Sample(refs[n].index, readings[n].value)) else None)
      else Reading(refs[..n], readings[..n], name)
  }

  ghost predicate WellFormed(polls: seq<Poll>) {
    forall i :: 0 <= i < |polls| ==> |polls[i].refs| == |polls[i].readings|
  }

  function Views(polls: seq<Poll>, name: string): (v: seq<Option<Sample>>)
    requires WellFormed(polls)
    ensures |v| == |polls|
  {
    if polls == [] then []
    else Views(polls[..|polls| - 1], name) + [View(polls[|polls| - 1], name)]
  }

  // Consecutive samples of the same interface with no counter going back.
  predicate Clean(a: Option<Sample>, b: Option<Sample>) {
    && a.Some? && b.Some? && a.value.index == b.value.index
    && NoneBelow(b.value.counters, a.value.counters)
  }

  predicate NoneBelow(b: Counters, a: Counters) {
    && a.rxBytes <= b.rxBytes && a.txBytes <= b.txBytes
    && a.rxPackets <= b.rxPackets && a.txPackets <= b.txPackets
  }

  // ---------------------------------------------------------------- totals

  datatype Counter = RxBytes | TxBytes | RxPackets | TxPackets

  function Value(c: Counters, k: Counter): uint64 {
    match k
    case RxBytes => c.rxBytes
    case TxBytes => c.txBytes
    case RxPackets => c.rxPackets
    case TxPackets => c.txPackets
  }

  function Growth(a: Option<Sample>, b: Option<Sample>, k: Counter): int {
    if a.Some? && b.Some? then Value(b.value.counters, k) - Value(a.value.counters, k) else 0
  }

  // Everything emitted for one interface and counter.
  function Emitted(out: seq<Delta>, name: string, k: Counter): int {
    if out == [] then 0
    else
      var d := out[|out| - 1];
      Emitted(out[..|out| - 1], name, k) + if d.name == name then Value(d.counters, k) else 0
  }

  function Step(a: Option<Sample>, b: Option<Sample>, k: Counter): int {
    if Clean(a, b) then Growth(a, b, k) else 0
  }

  function Last(views: seq<Option<Sample>>): Option<Sample> {
    if views == [] then None else views[|views| - 1]
  }

  function PairTotal(views: seq<Option<Sample>>, k: Counter): int {
    if views == [] then 0
    else
      var earlier := views[..|views| - 1];
      PairTotal(earlier, k) + Step(Last(earlier), views[|views| - 1], k)
  }

  // ---------------------------------------------------------------- telescoping

  // Polls i..j: all usable, consecutively clean.
  predicate CleanSegment(views: seq<Option<Sample>>, i: nat, j: nat)
    requires i <= j < |views|
  {
    views[i].Some? && forall k :: i <= k < j ==> Clean(views[k], views[k + 1])
  }

  predicate MaximalSegment(views: seq<Option<Sample>>, i: nat, j: nat)
    requires i <= j < |views|
  {
    && CleanSegment(views, i, j)
    && (i > 0 ==> !Clean(views[i - 1], views[i]))
    && (j + 1 < |views| ==> !Clean(views[j], views[j + 1]))
  }

  // Where the clean segment that ends at j starts.
  function SegmentStart(views: seq<Option<Sample>>, j: nat): (i: nat)
    requires j < |views| && views[j].Some?
    ensures i <= j && CleanSegment(views, i, j) && (i > 0 ==> !Clean(views[i - 1], views[i]))
  {
    if j > 0 && Clean(views[j - 1], views[j]) then SegmentStart(views, j - 1) else j
  }

  // The maximal clean segments, oldest first.
  function Segments(views: seq<Option<Sample>>): seq<(nat, nat)>
    decreases |views|
  {
    if views == [] then []
    else
      var n := |views| - 1;
      if views[n].None? then Segments(views[..n])
      else
        var i := SegmentStart(views, n);
        Segments(views[..i]) + [(i, n)]
  }

  ghost predicate InRange(views: seq<Option<Sample>>, s: (nat, nat)) { s.0 <= s.1 < |views| }

  // Segments are exactly the maximal ones: each is maximal, and every sample
  // lies in one.
  lemma {:induction false} SegmentsMaximal(views: seq<Option<Sample>>)
    ensures forall s :: s in Segments(views) ==> InRange(views, s) && MaximalSegment(views, s.0, s.1)
    ensures forall k :: 0 <= k < |views| && views[k].Some? ==>
              exists s :: s in Segments(views) && s.0 <= k <= s.1
    decreases |views|
  {
    hide Clean, NoneBelow, CleanSegment, MaximalSegment;
    if views != [] {
      var n := |views| - 1;
      var i := if views[n].None? then n else SegmentStart(views, n);
      var earlier := views[..i];
      LastSegment(views);
      SegmentsMaximal(earlier);
      forall s | s in Segments(views) ensures InRange(views, s) && MaximalSegment(views, s.0, s.1) {
        if s in Segments(earlier) {
          assert InRange(earlier, s) && MaximalSegment(earlier, s.0, s.1);
          WidenSegment(views, i, s.0, s.1);
        }
      }
      forall k | 0 <= k < |views| && views[k].Some?
        ensures exists s :: s in Segments(views) && s.0 <= k <= s.1
      {
        if k < i {
          assert earlier[k].Some?;
          var s :| s in Segments(earlier) && s.0 <= k <= s.1;
          assert s in Segments(views);
        } else {
          assert (i, n) in Segments(views);
        }
      }
    }
  }

  lemma LastSegment(views: seq<Option<Sample>>)
    requires views != []
    ensures var n := |views| - 1;
            if views[n].None? then n > 0 ==> !Clean(views[n - 1], views[n])
            else
              var i := SegmentStart(views, n);
              MaximalSegment(views, i, n) && (i > 0 ==> !Clean(views[i - 1], views[i]))
  {
  }

  lemma WidenSegment(views: seq<Option<Sample>>, n: nat, i: nat, j: nat)
    requires n < |views| && i <= j < n && MaximalSegment(views[..n], i, j)
    requires n > 0 ==> !Clean(views[n - 1], views[n])
    ensures MaximalSegment(views, i, j)
  {
    var earlier := views[..n];
    assert forall k :: 0 <= k < n ==> earlier[k] == views[k];
    forall k | i <= k < j ensures Clean(views[k], views[k + 1]) {
      assert Clean(earlier[k], earlier[k + 1]);
    }
  }

  // Last sample minus first sample, summed over segments.
  function SumOver(views: seq<Option<Sample>>, s: seq<(nat, nat)>, k: Counter): int {
    if s == [] then 0
    else
      var (i, j) := s[|s| - 1];
      SumOver(views, s[..|s| - 1], k) + if i <= j < |views| then Growth(views[i], views[j], k) else 0
  }

  lemma {:induction false} SumOverPrefix(views: seq<Option<Sample>>, n: nat, s: seq<(nat, nat)>, k: Counter)
    requires n <= |views| && forall x :: x in s ==> x.1 < n
    ensures SumOver(views[..n], s, k) == SumOver(views, s, k)
    decreases |s|
  {
    if s != [] {
      assert s[|s| - 1] in s;
      SumOverPrefix(views, n, s[..|s| - 1], k);
    }
  }

  // Where the last segment starts; a missing last sample is cut off alone.
  function Cut(views: seq<Option<Sample>>): (i: nat)
    requires views != []
    ensures i < |views|
  {
    if views[|views| - 1].None? then |views| - 1 else SegmentStart(views, |views| - 1)
  }

  lemma PairsOfCut(views: seq<Option<Sample>>, k: Counter)
    requires views != []
    ensures var i, n := Cut(views), |views| - 1;
            PairTotal(views, k) == PairTotal(views[..i], k) + Growth(views[i], views[n], k)
  {
    hide CleanSegment, NoneBelow, Value;
    var i, n := Cut(views), |views| - 1;
    LastSegment(views);
    StepZero(views, i, k);
    assert views[..n + 1] == views && views[..i + 1][..i] == views[..i];
    if views[n].Some? {
      SegmentAdds(views, i, n, k);
    }
  }

  lemma SegmentsOfCut(views: seq<Option<Sample>>, k: Counter)
    requires views != []
    ensures var i, n := Cut(views), |views| - 1;
            SumOver(views, Segments(views), k)
            == SumOver(views[..i], Segments(views[..i]), k) + Growth(views[i], views[n], k)
  {
    hide CleanSegment, MaximalSegment, Clean, Value;
    var i, n := Cut(views), |views| - 1;
    SegmentsMaximal(views[..i]);
    assert forall s :: s in Segments(views[..i]) ==> InRange(views[..i], s);
    SumOverPrefix(views, i, Segments(views[..i]), k);
    if views[n].Some? {
      var all := Segments(views);
      assert all == Segments(views[..i]) + [(i, n)];
      assert all[..|all| - 1] == Segments(views[..i]);
    }
  }

  // The deltas between neighbouring polls telescope to the segments' growth.
  lemma {:induction false} Telescoping(views: seq<Option<Sample>>, k: Counter)
    ensures PairTotal(views, k) == SumOver(views, Segments(views), k)
    decreases |views|
  {
    hide Growth;
    if views != [] {
      PairsOfCut(views, k);
      SegmentsOfCut(views, k);
      Telescoping(views[..Cut(views)], k);
    }
  }

  lemma StepZero(views: seq<Option<Sample>>, i: nat, k: Counter)
    requires i < |views| && (i > 0 ==> !Clean(views[i - 1], views[i]))
    ensures Step(Last(views[..i]), views[i], k) == 0
  {
  }

  lemma {:induction false} SegmentAdds(views: seq<Option<Sample>>, i: nat, j: nat, k: Counter)
    requires i <= j < |views| && CleanSegment(views, i, j)
    ensures PairTotal(views[..j + 1], k) == PairTotal(views[..i + 1], k) + Growth(views[i], views[j], k)
    decreases j
  {
    hide NoneBelow, Value;
    if i < j {
      assert Clean(views[j - 1], views[j - 1 + 1]);
      assert CleanSegment(views, i, j - 1);
      SegmentAdds(views, i, j - 1, k);
      assert views[..j + 1][..j] == views[..j];
    }
  }

  // ---------------------------------------------------------------- the poll loop

  // The part of a poll that was processed when the loop stopped inside it.
  function Seen(poll: Poll, k: nat): Poll
    requires k <= |poll.refs| == |poll.readings|
  {
    Poll(poll.discovered && Usable(poll), poll.refs[..k], poll.readings[..k])
  }

  // The poll was left inside, at the interface after those of `part`.
  predicate Halted(part: Poll, poll: Poll)
    requires |poll.refs| == |poll.readings|
  {
    Usable(poll) && |part.refs| < |poll.refs| && part == Seen(poll, |part.refs|)
  }

  // An interface name is refused: invalid, or met before in the same poll.
  predicate Improper(poll: Poll, valid: string -> bool, n: nat)
    requires n < |poll.refs|
  {
    !valid(poll.refs[n].name) || exists m :: 0 <= m < n && poll.refs[m].name == poll.refs[n].name
  }

  function SampleAt(poll: Poll, n: nat): Option<Sample>
    requires n < |poll.refs| == |poll.readings|
  {
    var ref, reading := poll.refs[n], poll.readings[n];
    if ref.index > 0 && reading.Some? then Some(Sample(ref.index, reading.value)) else None
  }

  // An interface has traffic to deliver since the polls before.
  predicate DeltaDue(before: seq<Poll>, poll: Poll, n: nat)
    requires WellFormed(before) && n < |poll.refs| == |poll.readings|
  {
    Clean(LastView(before, poll.refs[n].name), SampleAt(poll, n))
  }

  // The deltas of a poll's first n interfaces, in order.
  function Due(before: seq<Poll>, poll: Poll, n: nat): seq<Delta>
    requires WellFormed(before) && n <= |poll.refs| == |poll.readings|
  {
    if n == 0 then []
    else
      Due(before, poll, n - 1) +
      if DeltaDue(before, poll, n - 1)
      then [Delta(poll.refs[n - 1].name,
                  Minus(poll.readings[n - 1].value, LastView(before, poll.refs[n - 1].name).value.counters))]
      else []
  }

  // All deltas of the polls, in order.
  function AllDue(polls: seq<Poll>): seq<Delta>
    requires WellFormed(polls)
  {
    if polls == [] then []
    else
      var before, poll := polls[..|polls| - 1], polls[|polls| - 1];
      AllDue(before) + if Usable(poll) then Due(before, poll, |poll.refs|) else []
  }

  predicate NamesDiffer(poll: Poll) { forall i, j :: 0 <= i < j < |poll.refs| ==> poll.refs[i].name != poll.refs[j].name }

  lemma {:induction false} ReadingIs(refs: seq<Ref>, readings: seq<Option<Counters>>, name: string, m: nat)
    requires |refs| == |readings| && m < |refs| && refs[m].name == name
    requires forall i, j :: 0 <= i < j < |refs| ==> refs[i].name != refs[j].name
    ensures Reading(refs, readings, name) ==
      if refs[m].index > 0 && readings[m].Some? then Some(Sample(refs[m].index, readings[m].value)) else None
    decreases |refs|
  {
    if m < |refs| - 1 {
      ReadingIs(refs[..|refs| - 1], readings[..|refs| - 1], name, m);
    }
  }

  lemma {:induction false} ReadingAbsent(refs: seq<Ref>, readings: seq<Option<Counters>>, name: string)
    requires |refs| == |readings| && forall i :: 0 <= i < |refs| ==> refs[i].name != name
    ensures Reading(refs, readings, name) == None
    decreases |refs|
  {
    if refs != [] {
      ReadingAbsent(refs[..|refs| - 1], readings[..|refs| - 1], name);
    }
  }

  // Interface m of one poll and n of the next: the same name and positive index,
  // both read, and no counter below its earlier value.
  predicate Grew(last: Poll, m: nat, poll: Poll, n: nat)
    requires m < |last.refs| == |last.readings| && n < |poll.refs| == |poll.readings|
  {
    && last.refs[m].name == poll.refs[n].name && last.refs[m].index == poll.refs[n].index > 0
    && last.readings[m].Some? && poll.readings[n].Some?
    && (var a, b := last.readings[m].value, poll.readings[n].value;
        && a.rxBytes <= b.rxBytes && a.txBytes <= b.txBytes && a.rxPackets <= b.rxPackets && a.txPackets <= b.txPackets)
  }

  // A delta is due exactly if the poll just before was usable and had the
  // interface, which grew since; it is the four differences.
  lemma DueMeans(before: seq<Poll>, poll: Poll, n: nat)
    requires WellFormed(before) && n < |poll.refs| == |poll.readings|
    requires before != [] ==> NamesDiffer(before[|before| - 1])
    ensures DeltaDue(before, poll, n) <==>
      && before != []
      && (var last := before[|before| - 1];
          && last.discovered && 1 <= |last.refs| <= 8 && |last.refs| == |last.readings|
          && exists m: nat :: m < |last.refs| && Grew(last, m, poll, n))
    ensures before != [] ==> var last := before[|before| - 1];
      forall m: nat :: m < |last.refs| && |last.refs| == |last.readings| && Usable(last) && Grew(last, m, poll, n) ==>
        var a, b := last.readings[m].value, poll.readings[n].value;
        Due(before, poll, n + 1) == Due(before, poll, n) +
          [Delta(poll.refs[n].name, Counters(b.rxBytes - a.rxBytes, b.txBytes - a.txBytes,
                                             b.rxPackets - a.rxPackets, b.txPackets - a.txPackets))]
    ensures !DeltaDue(before, poll, n) ==> Due(before, poll, n + 1) == Due(before, poll, n)
  {
    if before != [] {
      var last, name := before[|before| - 1], poll.refs[n].name;
      assert LastView(before, name) == View(last, name);
      hide Reading, Views;
      if m: nat :| m < |last.refs| && last.refs[m].name == name {
        ReadingIs(last.refs, last.readings, name, m);
        forall k: nat | k < |last.refs| && last.refs[k].name == name ensures k == m {
        }
        var sample := SampleAt(poll, n);
        assert |last.refs| == |last.readings|;
        assert Clean(SampleAt(last, m), sample) <==> Grew(last, m, poll, n);
      } else {
        ReadingAbsent(last.refs, last.readings, name);
      }
    }
  }

  lemma {:induction false} DueSeen(before: seq<Poll>, poll: Poll, k: nat, n: nat)
    requires WellFormed(before) && n <= k <= |poll.refs| == |poll.readings|
    ensures Due(before, Seen(poll, k), n) == Due(before, poll, n)
    decreases n
  {
    hide LastView, Minus, Clean;
    if n > 0 {
      DueSeen(before, poll, k, n - 1);
    }
  }

  lemma DueAfter(before: seq<Poll>, poll: Poll, n: nat)
    requires WellFormed(before) && n <= |poll.refs| == |poll.readings| && Usable(poll)
    ensures WellFormed(before + [Seen(poll, n)])
    ensures AllDue(before + [Seen(poll, n)]) == AllDue(before) + Due(before, poll, n)
  {
    hide DeltaDue, LastView, Minus, Due;
    var all := before + [Seen(poll, n)];
    assert all[..|all| - 1] == before;
    DueSeen(before, poll, n, n);
    if n == 0 {
      NoneDue(before, poll);
    }
  }

  lemma NoneDue(before: seq<Poll>, poll: Poll)
    requires WellFormed(before) && |poll.refs| == |poll.readings|
    ensures Due(before, poll, 0) == []
  {
  }

  // How far a poll was processed, and why it was left: all of it, up to the
  // first refused name, or up to the delta whose delivery was cancelled.
  ghost predicate Processed(before: seq<Poll>, part: Poll, poll: Poll, valid: string -> bool, failed: bool, cancelled: bool)
    requires WellFormed(before) && |poll.refs| == |poll.readings|
  {
    && (part == poll || Halted(part, poll))
    && (part != poll <==> failed || cancelled)
    && (Usable(poll) ==> forall n :: 0 <= n < |part.refs| && n < |poll.refs| ==> !Improper(poll, valid, n))
    && (failed ==> Halted(part, poll) && Improper(poll, valid, |part.refs|))
    && (cancelled ==> Halted(part, poll) && !Improper(poll, valid, |part.refs|) && DeltaDue(before, poll, |part.refs|))
  }

  function LastView(polls: seq<Poll>, name: string): Option<Sample>
    requires WellFormed(polls)
  {
    Last(Views(polls, name))
  }

  // runSet. `valid` is ValidInterfaceName; `deliveries` is how many deltas the
  // consumer takes before the context is cancelled. `done` are the polls as far
  // as they were processed.
  method RunSet(polls: seq<Poll>, valid: string -> bool, deliveries: nat)
    returns (failed: bool, cancelled: bool, out: seq<Delta>, done: seq<Poll>)
    requires WellFormed(polls)
    ensures WellFormed(done) && |done| <= |polls|
    ensures forall i :: 0 <= i < |done| - 1 ==> done[i] == polls[i]
    ensures forall i :: 0 <= i < |done| ==>
      Processed(done[..i], done[i], polls[i], valid, failed && i == |done| - 1, cancelled && i == |done| - 1)
    ensures !failed && !cancelled ==> done == polls
    ensures failed || cancelled ==> done != [] && !(failed && cancelled)
    ensures out == AllDue(done) && |out| <= deliveries && (cancelled ==> |out| == deliveries)
    ensures forall name, k :: Emitted(out, name, k) == SumOver(Views(done, name), Segments(Views(done, name)), k)
  {
    hide Emitted, PairTotal, Views, Segments, SumOver, Processed, AllDue;
    failed, cancelled, out, done := false, false, [], [];
    NothingYet();
    var baselines: map<string, Baseline> := map[];
    var p := 0;
    while p < |polls| && !failed && !cancelled
      invariant 0 <= p <= |polls| && |done| == p
      invariant !failed && !cancelled ==> done == polls[..p]
      invariant forall i :: 0 <= i < p - 1 ==> done[i] == polls[i]
      invariant forall i :: 0 <= i < p ==>
        Processed(done[..i], done[i], polls[i], valid, failed && i == p - 1, cancelled && i == p - 1)
      invariant Tracks(out, done, baselines) && |out| <= deliveries
      invariant failed || cancelled ==> p > 0 && !(failed && cancelled) && (cancelled ==> |out| == deliveries)
    {
      ghost var before := done;
      failed, cancelled, baselines, out, done := RunPoll(polls[p], valid, deliveries, baselines, out, done);
      assert forall i :: 0 <= i <= p ==> done[..i] == before[..i];
      assert before[..p] == before;
      p := p + 1;
    }
    forall name, k
      ensures Emitted(out, name, k) == SumOver(Views(done, name), Segments(Views(done, name)), k)
    {
      TrafficTelescopes(out, done, name, k);
    }
  }

  // What was emitted is what the processed polls call for, and the baselines are
  // the last samples.
  ghost predicate Tracks(out: seq<Delta>, done: seq<Poll>, baselines: map<string, Baseline>) {
    && WellFormed(done) && out == AllDue(done)
    && (forall name, k :: Emitted(out, name, k) == PairTotal(Views(done, name), k))
    && (forall name :: LastView(done, name) == Known(baselines, name))
  }

  lemma NothingYet()
    ensures Tracks([], [], map[])
  {
  }

  function Known(baselines: map<string, Baseline>, name: string): Option<Sample> {
    if name in baselines && baselines[name].valid
    then Some(Sample(baselines[name].index, baselines[name].counters)) else None
  }

  lemma NextPoll(done: seq<Poll>, poll: Poll, name: string, k: Counter)
    requires WellFormed(done) && |poll.refs| == |poll.readings|
    ensures WellFormed(done + [poll])
    ensures LastView(done + [poll], name) == View(poll, name)
    ensures PairTotal(Views(done + [poll], name), k)
            == PairTotal(Views(done, name), k) + Step(LastView(done, name), View(poll, name), k)
  {
    var all := done + [poll];
    assert all[..|done|] == done;
    var v := Views(all, name);
    assert v[..|done|] == Views(done, name);
  }

  lemma SeenView(poll: Poll, n: nat, name: string)
    requires |poll.refs| == |poll.readings| && Usable(poll) && n <= |poll.refs|
    ensures View(Seen(poll, n), name) == Reading(poll.refs[..n], poll.readings[..n], name)
  {
  }

  lemma ReadingStep(poll: Poll, n: nat, name: string)
    requires |poll.refs| == |poll.readings| && n < |poll.refs|
    ensures var ref, reading := poll.refs[n], poll.readings[n];
            Reading(poll.refs[..n + 1], poll.readings[..n + 1], name) ==
              if ref.name == name
              then (if ref.index > 0 && reading.Some? then Some(Sample(ref.index, reading.value)) else None)
              else Reading(poll.refs[..n], poll.readings[..n], name)
  {
    assert poll.refs[..n + 1][..n] == poll.refs[..n];
    assert poll.readings[..n + 1][..n] == poll.readings[..n];
  }

  // Part-way through a usable poll, n interfaces processed.
  ghost predicate MidPoll(out: seq<Delta>, done: seq<Poll>, poll: Poll, n: nat, next: map<string, Baseline>)
    requires |poll.refs| == |poll.readings| && n <= |poll.refs|
  {
    && WellFormed(done) && out == AllDue(done) + Due(done, poll, n)
    && (forall name :: Known(next, name) == Reading(poll.refs[..n], poll.readings[..n], name))
    && (forall name, k :: Emitted(out, name, k) == PairTotal(Views(done, name), k)
          + Step(LastView(done, name), Reading(poll.refs[..n], poll.readings[..n], name), k))
  }

  lemma StopMidPoll(out: seq<Delta>, done: seq<Poll>, poll: Poll, n: nat, next: map<string, Baseline>)
    requires |poll.refs| == |poll.readings| && Usable(poll) && n <= |poll.refs|
    requires MidPoll(out, done, poll, n, next)
    ensures Tracks(out, done + [Seen(poll, n)], next)
  {
    hide Emitted, PairTotal, Reading, View, Views, Step, Known, AllDue, Due;
    DueAfter(done, poll, n);
    var all := done + [Seen(poll, n)];
    forall name, k ensures Emitted(out, name, k) == PairTotal(Views(all, name), k) {
      NextPoll(done, Seen(poll, n), name, k);
      SeenView(poll, n, name);
    }
    forall name ensures LastView(all, name) == Known(next, name) {
      NextPoll(done, Seen(poll, n), name, RxBytes);
      SeenView(poll, n, name);
    }
  }

  // One interface more: its delta, if any, and its new baseline.
  lemma NextInterface(out: seq<Delta>, done: seq<Poll>, poll: Poll, n: nat, baselines: map<string, Baseline>,
                      next: map<string, Baseline>, emit: seq<Delta>, base: Baseline)
    requires |poll.refs| == |poll.readings| && n < |poll.refs| && MidPoll(out, done, poll, n, next)
    requires forall name :: LastView(done, name) == Known(baselines, name)
    requires poll.refs[n].name !in next
    requires var ref, reading := poll.refs[n], poll.readings[n];
             var sample := if ref.index > 0 && reading.Some? then Some(Sample(ref.index, reading.value)) else None;
             && Known(map[ref.name := base], ref.name) == sample
             && emit == (if Clean(Known(baselines, ref.name), sample)
                         then [Delta(ref.name, Minus(reading.value, Known(baselines, ref.name).value.counters))]
                         else [])
    ensures MidPoll(out + emit, done, poll, n + 1, next[poll.refs[n].name := base])
  {
    hide PairTotal, Views, Reading, Minus, Value, AllDue;
    assert LastView(done, poll.refs[n].name) == Known(baselines, poll.refs[n].name);
    var ref := poll.refs[n];
    var refs, readings := poll.refs[..n + 1], poll.readings[..n + 1];
    forall name ensures Known(next[ref.name := base], name) == Reading(refs, readings, name) {
      ReadingStep(poll, n, name);
    }
    forall name, k
      ensures Emitted(out + emit, name, k)
              == PairTotal(Views(done, name), k) + Step(LastView(done, name), Reading(refs, readings, name), k)
    {
      ReadingStep(poll, n, name);
      assert emit != [] ==> (out + emit)[..|out|] == out;
      assert emit == [] ==> out + emit == out;
      if name == ref.name {
        assert Known(next, name) == None;
        assert LastView(done, name) == Known(baselines, name);
        if emit != [] {
          MinusValue(poll.readings[n].value, Known(baselines, ref.name).value.counters, k);
        }
      }
    }
  }

  function Minus(b: Counters, a: Counters): Counters
    requires NoneBelow(b, a)
  {
    Counters(b.rxBytes - a.rxBytes, b.txBytes - a.txBytes, b.rxPackets - a.rxPackets, b.txPackets - a.txPackets)
  }

  lemma MinusValue(b: Counters, a: Counters, k: Counter)
    requires NoneBelow(b, a)
    ensures Value(Minus(b, a), k) == Value(b, k) - Value(a, k)
  {
  }

  // One poll: it stops at the first refused name, or where a delivery is cancelled.
  method RunPoll(poll: Poll, valid: string -> bool, deliveries: nat, baselines: map<string, Baseline>,
                 sent: seq<Delta>, before: seq<Poll>)
    returns (failed: bool, cancelled: bool, next: map<string, Baseline>, out: seq<Delta>, done: seq<Poll>)
    requires |poll.refs| == |poll.readings| && Tracks(sent, before, baselines) && |sent| <= deliveries
    ensures Tracks(out, done, next)
    ensures |done| == |before| + 1 && done[..|before|] == before
    ensures Processed(before, done[|before|], poll, valid, failed, cancelled)
    ensures !failed && !cancelled ==> done[|before|] == poll
    ensures |out| <= deliveries && (cancelled ==> |out| == deliveries && !failed)
  {
    hide Emitted, PairTotal, Views, Reading, View, Step, AllDue, Due, Minus;
    failed, cancelled, next, out := false, false, map[], sent;
    if !poll.discovered || !(0 < |poll.refs| <= MAX_INTERFACES) {
      done := before + [poll];
      UnusablePoll(sent, before, poll);
      return;
    }
    StartPoll(sent, before, poll, baselines);
    var n := 0;
    while n < |poll.refs|
      invariant 0 <= n <= |poll.refs| && MidPoll(out, before, poll, n, next)
      invariant |out| <= deliveries && next.Keys == set m | 0 <= m < n :: poll.refs[m].name
      invariant forall m :: 0 <= m < n ==> !Improper(poll, valid, m)
    {
      var ref := poll.refs[n];
      if !valid(ref.name) || ref.name in next {
        StopMidPoll(out, before, poll, n, next);
        assert Improper(poll, valid, n);
        done := before + [Seen(poll, n)];
        return true, false, next, out, done;
      }
      assert !Improper(poll, valid, n);
      var previous := if ref.name in baselines then baselines[ref.name] else Baseline(0, Counters(0, 0, 0, 0), false);
      var reading := if ref.index <= 0 then None else poll.readings[n];
      var base, emit;
      if reading.None? {
        base, emit := previous.(valid := false), [];
      } else {
        var current := reading.value;
        emit := [];
        if previous.valid && previous.index == ref.index
           && current.rxBytes >= previous.counters.rxBytes && current.txBytes >= previous.counters.txBytes
           && current.rxPackets >= previous.counters.rxPackets && current.txPackets >= previous.counters.txPackets {
          if |out| == deliveries {
            StopMidPoll(out, before, poll, n, next);
            assert LastView(before, ref.name) == Known(baselines, ref.name);
            assert DeltaDue(before, poll, n);
            done := before + [Seen(poll, n)];
            return false, true, next, out, done;
          }
          emit := [Delta(ref.name, Minus(current, previous.counters))];
        }
        base := Baseline(ref.index, current, true);
      }
      NextInterface(out, before, poll, n, baselines, next, emit, base);
      next, out, n := next[ref.name := base], out + emit, n + 1;
    }
    StopMidPoll(out, before, poll, n, next);
    assert Seen(poll, n) == poll;
    done := before + [poll];
  }

  lemma UnusablePoll(out: seq<Delta>, done: seq<Poll>, poll: Poll)
    requires |poll.refs| == |poll.readings| && !Usable(poll)
    requires WellFormed(done) && out == AllDue(done)
    requires forall name, k :: Emitted(out, name, k) == PairTotal(Views(done, name), k)
    ensures Tracks(out, done + [poll], map[])
  {
    hide Emitted, PairTotal, Views;
    assert (done + [poll])[..|done|] == done;
    forall name, k ensures Emitted(out, name, k) == PairTotal(Views(done + [poll], name), k) {
      NextPoll(done, poll, name, k);
    }
    forall name ensures LastView(done + [poll], name) == None {
      NextPoll(done, poll, name, RxBytes);
    }
  }

  lemma StartPoll(out: seq<Delta>, done: seq<Poll>, poll: Poll, baselines: map<string, Baseline>)
    requires |poll.refs| == |poll.readings| && Tracks(out, done, baselines)
    ensures MidPoll(out, done, poll, 0, map[])
  {
    hide Emitted, PairTotal, Views, AllDue;
    NoneDue(done, poll);
    assert poll.refs[..0] == [] && poll.readings[..0] == [];
  }

  // The whole loop: per interface and counter, what was emitted is the growth of
  // the maximal clean segments of the polls as far as they were processed.
  lemma TrafficTelescopes(out: seq<Delta>, done: seq<Poll>, name: string, k: Counter)
    requires WellFormed(done) && Emitted(out, name, k) == PairTotal(Views(done, name), k)
    ensures Emitted(out, name, k) == SumOver(Views(done, name), Segments(Views(done, name)), k)
  {
    Telescoping(Views(done, name), k);
  }
}
