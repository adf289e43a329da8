// What an accepted data section is, said of the writer's values: a row of finite
// values that covers the bytes exactly.
module MmdbPreflight {
  import opened Wrappers
  import opened MmdbFormat
  import opened MmdbWriter
  import opened MmdbValues
  import opened MmdbBounds

  function StartOf(records: seq<Summary>, i: nat): nat
    requires i <= |records|
  {
    if i == 0 then 0 else records[i - 1].end
  }

  // Record i is this value.
  ghost predicate Holds(data: seq<byte>, records: seq<Summary>, i: nat, v: Value)
    requires i < |records|
  {
    && Laid(data, StartOf(records, i), v)
    && records[i] == Summary(StartOf(records, i) + |Written(v)|, Count(v), Bytes(v), Height(v))
    && Height(v) <= 32 && Count(v) <= 16384 && Bytes(v) <= 8_388_608
  }

  lemma {:induction false} RecordsFollow(data: seq<byte>, offset: nat, i: nat)
    requires offset <= |data| && Records(data, offset, DEPTH_LIMIT).Some?
    requires i < |Records(data, offset, DEPTH_LIMIT).value|
    ensures var records := Records(data, offset, DEPTH_LIMIT).value;
            && Expand(data, if i == 0 then offset else records[i - 1].end, DEPTH_LIMIT) == Some(records[i])
            && records[|records| - 1].end == |data|
    decreases |data| - offset
  {
    hide Expand;
    var first := Expand(data, offset, DEPTH_LIMIT).value;
    var rest := Records(data, first.end, DEPTH_LIMIT).value;
    if rest != [] {
      RecordsFollow(data, first.end, if i == 0 then 0 else i - 1);
    }
  }

  // Accepted data is partitioned by its top-level values. Each is one finite
  // written value within the depth and record budgets, and its summary is exactly
  // what that value measures.
  lemma AcceptedPartition(data: seq<byte>, metadata: bool, i: nat) returns (v: Value)
    requires Acceptable(data, metadata) && i < |Records(data, 0, DEPTH_LIMIT).value|
    ensures var records := Records(data, 0, DEPTH_LIMIT).value;
            && Holds(data, records, i, v)
            && StartOf(records, i) < records[i].end <= |data|
            && records[|records| - 1].end == |data|
  {
    hide Expand, Records, Laid, Written;
    var records := Records(data, 0, DEPTH_LIMIT).value;
    RecordsFollow(data, 0, i);
    v := ExpandsWritten(data, StartOf(records, i), DEPTH_LIMIT);
    assert records[i] in records;
  }

  // ---------------------------------------------------------------- acceptance, without the reader

  // Values written one after another from the offset to the end of the data.
  predicate Placed(data: seq<byte>, offset: nat, vs: seq<Value>)
    decreases |vs|
  {
    if vs == [] then offset == |data|
    else Laid(data, offset, vs[0]) && Placed(data, offset + |Written(vs[0])|, vs[1..])
  }

  function TotalCount(vs: seq<Value>): nat {
    if vs == [] then 0 else Count(vs[0]) + TotalCount(vs[1..])
  }

  function TotalBytes(vs: seq<Value>): nat {
    if vs == [] then 0 else Bytes(vs[0]) + TotalBytes(vs[1..])
  }

  // Within every budget; metadata is a single map named by its control byte.
  predicate Affords(vs: seq<Value>, metadata: bool) {
    && (forall v :: v in vs ==> Height(v) <= 32 && Count(v) <= 16384 && Bytes(v) <= 8_388_608)
    && TotalCount(vs) <= 128_000_000 && TotalBytes(vs) <= 8_589_934_592
    && (metadata ==> |vs| == 1 && vs[0].Map? && !vs[0].extended)
  }

  lemma {:induction false} SumsFromFront(first: Summary, rest: seq<Summary>)
    ensures SumValues([first] + rest) == first.values + SumValues(rest)
    ensures SumBytes([first] + rest) == first.bytes + SumBytes(rest)
    decreases |rest|
  {
    var all := [first] + rest;
    if rest == [] {
      assert all[..0] == [];
    } else {
      SumsFromFront(first, rest[..|rest| - 1]);
      assert all[..|all| - 1] == [first] + rest[..|rest| - 1];
    }
  }

  function Measures(offset: nat, vs: seq<Value>): seq<Summary>
    requires forall v :: v in vs ==> Sound(v)
    decreases |vs|
  {
    if vs == [] then []
    else [Measure(vs[0], offset + |Written(vs[0])|)] + Measures(offset + |Written(vs[0])|, vs[1..])
  }

  lemma {:induction false} PlacedRecords(data: seq<byte>, offset: nat, vs: seq<Value>)
    requires offset <= |data| && Placed(data, offset, vs) && forall v :: v in vs ==> Height(v) <= DEPTH_LIMIT
    ensures forall v :: v in vs ==> Sound(v)
    ensures Records(data, offset, DEPTH_LIMIT) == Some(Measures(offset, vs))
    ensures SumValues(Measures(offset, vs)) == TotalCount(vs) && SumBytes(Measures(offset, vs)) == TotalBytes(vs)
    decreases |vs|
  {
    hide Expand, Written, Sound, TargetsLaid, SumValues, SumBytes;
    if vs == [] {
      NoSums();
    } else {
      var v, rest := vs[0], vs[1..];
      var end := offset + |Written(v)|;
      WrittenExpands(data, offset, v, DEPTH_LIMIT);
      PlacedRecords(data, end, rest);
      assert forall w :: w in vs ==> w == v || w in rest;
      SumsFromFront(Measure(v, end), Measures(end, rest));
    }
  }

  lemma NoSums()
    ensures SumValues([]) == 0 && SumBytes([]) == 0
  {
  }

  lemma {:induction false} RecordsPlaced(data: seq<byte>, offset: nat) returns (vs: seq<Value>)
    requires |data| <= MAX_DATABASE && offset <= |data| && Records(data, offset, DEPTH_LIMIT).Some?
    ensures Placed(data, offset, vs) && forall v :: v in vs ==> Height(v) <= DEPTH_LIMIT
    decreases |data| - offset
  {
    hide Expand, Written, Laid;
    vs := [];
    if offset < |data| {
      var v := ExpandsWritten(data, offset, DEPTH_LIMIT);
      LaidSound(data, offset, v);
      var rest := RecordsPlaced(data, offset + |Written(v)|);
      vs := [v] + rest;
    }
  }

  lemma {:induction false} MeasuresOf(offset: nat, vs: seq<Value>)
    requires forall v :: v in vs ==> Sound(v)
    ensures |Measures(offset, vs)| == |vs|
    ensures (forall r :: r in Measures(offset, vs) ==> WithinLimits(r)) <==>
            (forall v :: v in vs ==> Count(v) <= 16384 && Bytes(v) <= 8_388_608)
    decreases |vs|
  {
    hide Written, Sound, Count, Bytes, Height;
    if vs != [] {
      var v, end := vs[0], offset + |Written(vs[0])|;
      MeasuresOf(end, vs[1..]);
      var all, rest := Measures(offset, vs), Measures(end, vs[1..]);
      assert all == [Measure(v, end)] + rest;
      assert WithinLimits(Measure(v, end)) <==> Count(v) <= 16384 && Bytes(v) <= 8_388_608;
      assert Measure(v, end) in all && forall r :: r in rest ==> r in all;
      assert v in vs && forall w :: w in vs[1..] ==> w in vs;
    }
  }

  // A single value starts with a map's control byte exactly if it is such a map.
  lemma MapFirst(data: seq<byte>, v: Value)
    requires Laid(data, 0, v)
    ensures |data| > 0 && (data[0] / 32 == 7 <==> v.Map? && !v.extended)
  {
    hide Utf8.Valid, SizeBytes, WrittenPairs, WrittenAll, TargetsLaid;
    var bytes := Written(v);
    assert data[0] == data[0..0 + |bytes|][0];
  }

  // The preflight's acceptance, without its reader: the data is a row of written
  // values, and every budget is kept.
  lemma AcceptableIffPlaced(data: seq<byte>, metadata: bool)
    requires |data| <= MAX_DATABASE
    ensures Acceptable(data, metadata) <==> exists vs :: Placed(data, 0, vs) && Affords(vs, metadata)
  {
    hide Expand, Written, Laid, Placed, Records, SumValues, SumBytes, Measures;
    if Acceptable(data, metadata) {
      var vs := RecordsPlaced(data, 0);
      PlacedAffords(data, vs, metadata);
    }
    forall vs | Placed(data, 0, vs) && Affords(vs, metadata) ensures Acceptable(data, metadata) {
      PlacedAffords(data, vs, metadata);
    }
  }

  lemma PlacedAffords(data: seq<byte>, vs: seq<Value>, metadata: bool)
    requires |data| <= MAX_DATABASE && Placed(data, 0, vs) && forall v :: v in vs ==> Height(v) <= DEPTH_LIMIT
    ensures Acceptable(data, metadata) <==> Affords(vs, metadata)
  {
    PlacedRecords(data, 0, vs);
    MeasuresOf(0, vs);
    if vs != [] {
      MapFirst(data, vs[0]);
    }
    hide Expand, Written, Laid, Placed, Records, SumValues, SumBytes, Measures, Sound, TotalCount, TotalBytes, WithinLimits;
  }
}
