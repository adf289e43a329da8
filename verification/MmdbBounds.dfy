// mmdb_bounds.go: the memoised preflight of an MMDB data section, proved
// against the plain recursion of MmdbFormat.
module MmdbBounds {
  import opened Wrappers
  import opened MmdbFormat
  import Utf8

  const WORK_LIMIT: uint64 := 64_000_000
  const EXPANDED_VALUE_LIMIT: uint64 := 128_000_000
  const EXPANDED_BYTE_LIMIT: uint64 := 8_589_934_592
  const RECORD_VALUE_LIMIT: uint64 := 16384
  const RECORD_BYTE_LIMIT: uint64 := 8_388_608
  const DEPTH_LIMIT: nat := 32
  const CACHE_SLOTS: nat := 262_144

  datatype Error = Bounds | Budget | Cancelled | NotAMap | Trailing

  datatype Outcome = Parsed(summary: Summary) | Failed(error: Error)

  // The stored form of a summary. Go truncates on conversion; so does Pack.
  datatype Packed = Packed(end: uint32, values: uint32, bytes: uint32, height: byte) {
    function Unpack(): Summary { Summary(end, values, bytes, height) }
  }

  function Pack(s: Summary): (p: Packed)
    ensures s.end < TWO_32 && s.values < TWO_32 && s.bytes < TWO_32 && s.height < TWO_8
            ==> p.Unpack() == s
  {
    Packed(s.end % TWO_32, s.values % TWO_32, s.bytes % TWO_32, s.height % TWO_8)
  }

  datatype CacheEntry = CacheEntry(key: uint32, summary: Packed)

  // mmdbAdd: the saturating charge. The overflow test never lets a sum wrap
  // under the limit, so a charge is admitted exactly when it mathematically fits.
  function Charge(counter: uint64, amount: uint64, limit: uint64): (r: (uint64, bool))
    ensures r.1 <==> counter + amount <= limit
    ensures r.1 ==> r.0 == counter + amount
    ensures !r.1 ==> r.0 > limit || r.0 == TWO_64 - 1
  {
    if amount > TWO_64 - 1 - counter then (TWO_64 - 1, false)
    else (counter + amount, counter + amount <= limit)
  }

  datatype Counters = Counters(operations: nat, values: nat, bytes: nat)

  // A fresh expansion starting from these counters stays inside every budget;
  // the plain recursion performs one operation per value.
  ghost predicate Affordable(before: Counters, s: Summary, workLimit: nat) {
    && before.values + s.values <= RECORD_VALUE_LIMIT
    && before.bytes + s.bytes <= RECORD_BYTE_LIMIT
    && before.operations + s.values <= workLimit
  }

  // The counters moved by exactly what the fresh expansion costs, and by no
  // more operations than it would have performed.
  ghost predicate Charged(before: Counters, after: Counters, s: Summary, workLimit: nat) {
    && after.values == before.values + s.values <= RECORD_VALUE_LIMIT
    && after.bytes == before.bytes + s.bytes <= RECORD_BYTE_LIMIT
    && before.operations <= after.operations <= before.operations + s.values
    && after.operations <= workLimit
  }

  // What one parse is worth: `plain` is the plain recursion's answer at the
  // depth that is left, `unbounded` says that no depth has an answer.
  ghost predicate Faithful(plain: Option<Summary>, unbounded: bool, before: Counters, after: Counters,
                           workLimit: nat, r: Outcome)
  {
    match r
    case Parsed(s) => plain == Some(s) && Charged(before, after, s, workLimit)
    case Failed(e) =>
      && (e == Bounds ==> unbounded)
      && (e == Bounds || e == Budget || e == Cancelled)
      && (e != Cancelled && plain.Some? ==> !Affordable(before, plain.value, workLimit))
  }

  ghost function Plain(data: seq<byte>, offset: int, depth: int): Option<Summary> {
    if depth <= DEPTH_LIMIT then Expand(data, offset, DEPTH_LIMIT - depth) else None
  }

  // One record's own budget.
  ghost predicate WithinLimits(r: Summary) {
    r.values <= RECORD_VALUE_LIMIT && r.bytes <= RECORD_BYTE_LIMIT
  }

  // The top-level values partition the data, each expands within the depth and
  // record budgets, and together they stay within the expansion budgets.
  ghost predicate Acceptable(data: seq<byte>, metadata: bool) {
    && |data| <= MAX_DATABASE
    && Records(data, 0, DEPTH_LIMIT).Some?
    && (var records := Records(data, 0, DEPTH_LIMIT).value;
        && (forall r :: r in records ==> WithinLimits(r))
        && SumValues(records) <= EXPANDED_VALUE_LIMIT
        && SumBytes(records) <= EXPANDED_BYTE_LIMIT
        && (metadata ==> |data| > 0 && data[0] / 32 == 7 && |records| == 1))
  }

  // `done` are the records up to offset.
  ghost predicate Continues(data: seq<byte>, offset: nat, done: seq<Summary>)
    requires offset <= |data|
  {
    var rest := Records(data, offset, DEPTH_LIMIT);
    Records(data, 0, DEPTH_LIMIT) == if rest.None? then None else Some(done + rest.value)
  }

  lemma FirstRecord(data: seq<byte>)
    ensures Continues(data, 0, []) && SumValues([]) == 0 && SumBytes([]) == 0
  {
    var all := Records(data, 0, DEPTH_LIMIT);
    assert all.Some? ==> [] + all.value == all.value;
  }

  lemma NextRecord(data: seq<byte>, offset: nat, done: seq<Summary>)
    requires offset < |data| && Continues(data, offset, done)
    requires Expand(data, offset, DEPTH_LIMIT).Some?
    ensures var r := Expand(data, offset, DEPTH_LIMIT).value;
            && Continues(data, r.end, done + [r])
            && SumValues(done + [r]) == SumValues(done) + r.values
            && SumBytes(done + [r]) == SumBytes(done) + r.bytes
  {
    hide Expand;
    var r := Expand(data, offset, DEPTH_LIMIT).value;
    var rest := Records(data, r.end, DEPTH_LIMIT);
    assert (done + [r])[..|done|] == done;
    if rest.Some? {
      assert done + ([r] + rest.value) == done + [r] + rest.value;
    }
  }

  // In acceptable data the record at offset expands, within every budget.
  lemma NextAcceptable(data: seq<byte>, offset: nat, done: seq<Summary>, metadata: bool)
    requires offset < |data| && Continues(data, offset, done) && Acceptable(data, metadata)
    ensures Expand(data, offset, DEPTH_LIMIT).Some?
    ensures var r, all := Expand(data, offset, DEPTH_LIMIT).value, Records(data, 0, DEPTH_LIMIT).value;
            && WithinLimits(r)
            && SumValues(done) + r.values <= SumValues(all) <= EXPANDED_VALUE_LIMIT
            && SumBytes(done) + r.bytes <= SumBytes(all) <= EXPANDED_BYTE_LIMIT
            && (metadata ==> r.end == |data|)
  {
    hide Expand, SumValues, SumBytes;
    assert Records(data, offset, DEPTH_LIMIT).Some?;
    NextRecord(data, offset, done);
    var r, all := Expand(data, offset, DEPTH_LIMIT).value, Records(data, 0, DEPTH_LIMIT).value;
    var rest := Records(data, r.end, DEPTH_LIMIT).value;
    assert all == done + [r] + rest;
    assert all[..|done| + 1] == done + [r] && all[|done|] == r;
    SumsOfPrefix(all, |done| + 1);
  }

  lemma LastRecord(data: seq<byte>, done: seq<Summary>, metadata: bool)
    requires |data| <= MAX_DATABASE && Continues(data, |data|, done)
    requires forall r :: r in done ==> WithinLimits(r)
    requires SumValues(done) <= EXPANDED_VALUE_LIMIT && SumBytes(done) <= EXPANDED_BYTE_LIMIT
    requires metadata ==> |done| == 1 && |data| > 0 && data[0] / 32 == 7
    ensures Acceptable(data, metadata) && Records(data, 0, DEPTH_LIMIT) == Some(done)
  {
    hide Expand, SumValues, SumBytes;
    assert done + [] == done;
  }

  class ValueBounds {
    const data: seq<byte>
    const cancelled: nat -> bool     // the context's answer to its n-th query
    const workLimit: uint64
    const cacheSlots: nat
    const active: array<int>         // offsets of the values being read, by depth
    var queries: nat
    var operations: uint64
    var recordValues: uint64
    var recordBytes: uint64
    var expandedValues: uint64
    var expandedBytes: uint64
    var cache: array?<CacheEntry>

    ghost function Spent(): Counters
      reads this
    {
      Counters(operations, recordValues, recordBytes)
    }

    ghost predicate TrueEntry(e: CacheEntry) {
      e.key != 0 ==> Expand(data, e.key - 1, DEPTH_LIMIT) == Some(e.summary.Unpack())
    }

    // Every used slot holds the true summary of a finite expansion.
    ghost predicate Valid()
      reads this, cache
    {
      && |data| <= MAX_DATABASE
      && active.Length == DEPTH_LIMIT + 1
      && (cache != null ==>
            && cache.Length == cacheSlots > 0
            && forall i :: 0 <= i < cache.Length ==> TrueEntry(cache[i]))
    }

    ghost predicate WithinRecord()
      reads this
    {
      recordValues <= RECORD_VALUE_LIMIT && recordBytes <= RECORD_BYTE_LIMIT
    }

    twostate predicate Frame()
      reads this
    {
      && (cache == old(cache) || (old(cache) == null && fresh(cache)))
      && queries >= old(queries)
      && expandedValues == old(expandedValues) && expandedBytes == old(expandedBytes)
    }

    // Some query since the old state answered "cancelled".
    twostate predicate SawCancel()
      reads this
    {
      exists q :: old(queries) <= q < queries && cancelled(q)
    }

    constructor (data: seq<byte>, cancelled: nat -> bool)
      ensures this.data == data && this.cancelled == cancelled && workLimit == WORK_LIMIT
      ensures |data| <= MAX_DATABASE ==> Valid()
      ensures WithinRecord() && cache == null && fresh(active) && 0 < cacheSlots <= CACHE_SLOTS
      ensures Spent() == Counters(0, 0, 0) && expandedValues == expandedBytes == queries == 0
    {
      var slots := CACHE_SLOTS;
      while slots > 1 && slots > |data|
        invariant slots >= 1
      {
        slots := slots / 2;
      }
      this.data, this.cancelled, workLimit, cacheSlots := data, cancelled, WORK_LIMIT, slots;
      active := new int[DEPTH_LIMIT + 1](_ => 0);
      queries, operations, recordValues, recordBytes := 0, 0, 0, 0;
      expandedValues, expandedBytes, cache := 0, 0, null;
    }

    function SlotOf(offset: nat): (slot: nat)
      requires cacheSlots > 0
      ensures slot < cacheSlots
    {
      (((offset % TWO_32) * 2654435761) % TWO_32 / 16384) % cacheSlots
    }

    // What the cache holds for an offset: its slot may be empty, or taken by another.
    function Cached(offset: nat): Option<Packed>
      requires cache != null && cache.Length == cacheSlots > 0
      reads this`cache, cache
    {
      var entry := cache[SlotOf(offset)];
      if entry.key == offset + 1 then Some(entry.summary) else None
    }

    ghost predicate Holds(offset: nat, s: Summary)
      requires cache != null && cache.Length == cacheSlots > 0
      reads this`cache, cache
    {
      Cached(offset).Some? && Cached(offset).value.Unpack() == s
    }

    method Parse(offset: int, depth: int, target: bool, ghost path: seq<int>) returns (r: Outcome)
      requires Valid() && WithinRecord()
      requires 0 <= depth <= DEPTH_LIMIT + 1 && active[..depth] == path && Chained(data, path, offset)
      modifies this, active, cache
      ensures Valid() && Frame() && active[..depth] == path
      ensures Faithful(Plain(data, offset, depth), Unbounded(data, offset), old(Spent()), Spent(), workLimit, r)
      ensures r.Parsed? ==> operations > old(operations)
      // A finished pointer target is in the cache for the next one.
      ensures r.Parsed? && target && cacheSlots > 0 ==> cache != null && Holds(offset, r.summary)
      ensures r == Failed(Cancelled) ==> SawCancel()
      // A value met again below itself is never taken for anything else.
      ensures offset in path && depth <= DEPTH_LIMIT && old(operations) < workLimit ==>
        r == Failed(Bounds) || r == Failed(Cancelled)
      decreases DEPTH_LIMIT + 1 - depth, 3
    {
      hide Expand, ExpandMany, HeaderAt, Link, Chained, SlotOf;
      ghost var before := Spent();
      var (charged, ok) := Charge(operations, 1, workLimit);
      operations := charged;
      if !ok {
        return Failed(Budget);
      }
      if offset < 0 || offset >= |data| || depth < 0 {
        return Failed(Bounds);
      }
      if depth > DEPTH_LIMIT {
        return Failed(Budget);
      }
      if operations == 1 || operations % 1024 == 0 {
        var stop := cancelled(queries);
        queries := queries + 1;
        if stop {
          return Failed(Cancelled);
        }
      }
      var cyclic := OnPath(offset, depth);
      if cyclic {
        CycleUnbounded(data, path, offset);
        return Failed(Bounds);
      }
      r := ParseAt(offset, depth, target, path, before);
    }

    // An offset not on the active path: from the cache or afresh.
    method ParseAt(offset: nat, depth: nat, target: bool, ghost path: seq<int>, ghost before: Counters) returns (r: Outcome)
      requires Valid() && WithinRecord()
      requires offset < |data| && depth <= DEPTH_LIMIT && active[..depth] == path && Chained(data, path, offset)
      requires Spent() == before.(operations := before.operations + 1) && operations <= workLimit
      modifies this, active, cache
      ensures Valid() && Frame() && active[..depth] == path
      ensures Faithful(Plain(data, offset, depth), Unbounded(data, offset), before, Spent(), workLimit, r)
      ensures r.Parsed? ==> operations >= old(operations)
      ensures r.Parsed? && target && cacheSlots > 0 ==> cache != null && Holds(offset, r.summary)
      ensures r == Failed(Cancelled) ==> SawCancel()
      decreases DEPTH_LIMIT + 1 - depth, 2
    {
      hide Expand, ExpandMany, HeaderAt, Link, Chained, SlotOf;
      active[depth] := offset;
      var slot := 0;
      if target && cacheSlots > 0 {
        var hit;
        slot, hit := Lookup(offset);
        if hit.Some? {
          r := ChargeHit(offset, depth, hit.value.Unpack(), before);
          return;
        }
      }
      r := ParseFresh(offset, depth, target && cacheSlots > 0, slot, path, before);
    }

    // The slot of an offset and, when it holds that very offset, its summary.
    method Lookup(offset: nat) returns (slot: nat, hit: Option<Packed>)
      requires Valid() && cacheSlots > 0 && offset < |data|
      modifies this`cache
      ensures Valid() && cache != null && slot < cacheSlots
      ensures cache == old(cache) || (old(cache) == null && fresh(cache))
      ensures old(cache) != null ==> cache[..] == old(cache[..])
      ensures slot == SlotOf(offset) && hit == Cached(offset)
      ensures hit.Some? ==> Expand(data, offset, DEPTH_LIMIT) == Some(hit.value.Unpack())
    {
      hide Expand, ExpandMany, SlotOf;
      if cache == null {
        cache := new CacheEntry[cacheSlots](_ => CacheEntry(0, Packed(0, 0, 0, 0)));
      }
      slot := SlotOf(offset);
      var entry := cache[slot];
      assert TrueEntry(entry);
      hit := if entry.key == (offset % TWO_32 + 1) % TWO_32 then Some(entry.summary) else None;
    }

    method OnPath(offset: int, depth: nat) returns (found: bool)
      requires depth <= active.Length
      ensures found <==> offset in active[..depth]
    {
      for i := 0 to depth
        invariant offset !in active[..i]
      {
        if active[i] == offset {
          return true;
        }
      }
      return false;
    }

    // A cache hit: the stored expansion is charged in full.
    method ChargeHit(offset: nat, depth: nat, s: Summary, ghost before: Counters) returns (r: Outcome)
      requires Valid() && WithinRecord() && depth <= DEPTH_LIMIT
      requires Expand(data, offset, DEPTH_LIMIT) == Some(s)
      requires s.values < TWO_32 && s.bytes < TWO_32
      requires Spent() == before.(operations := before.operations + 1) && operations <= workLimit
      modifies this`recordValues, this`recordBytes
      ensures Faithful(Plain(data, offset, depth), Unbounded(data, offset), before, Spent(), workLimit, r)
      ensures r == Parsed(s) || r == Failed(Budget)
      ensures operations == old(operations)
    {
      hide Expand, ExpandMany, HeaderAt;
      ExpandExact(data, offset, DEPTH_LIMIT, DEPTH_LIMIT - depth);
      if Plain(data, offset, depth).Some? {
        ExpandAgrees(data, offset, DEPTH_LIMIT, DEPTH_LIMIT - depth);
        ExpandExact(data, offset, DEPTH_LIMIT - depth, DEPTH_LIMIT);
      }
      if depth + s.height > DEPTH_LIMIT {
        return Failed(Budget);
      }
      var (v, vOk) := Charge(recordValues, s.values, RECORD_VALUE_LIMIT);
      recordValues := v;
      if !vOk {
        return Failed(Budget);
      }
      var (b, bOk) := Charge(recordBytes, s.bytes, RECORD_BYTE_LIMIT);
      recordBytes := b;
      if !bOk {
        return Failed(Budget);
      }
      return Parsed(s);
    }

    // Reads the field at `offset` itself and, for a pointer target, publishes
    // its finished summary.
    method ParseFresh(offset: nat, depth: nat, publish: bool, slot: nat, ghost path: seq<int>, ghost before: Counters)
      returns (r: Outcome)
      requires Valid() && WithinRecord()
      requires offset < |data| && depth <= DEPTH_LIMIT
      requires active[..depth] == path && Chained(data, path, offset) && active[depth] == offset
      requires publish ==> cache != null && slot < cacheSlots && slot == SlotOf(offset)
      requires Spent() == before.(operations := before.operations + 1) && operations <= workLimit
      modifies this, active, cache
      ensures Valid() && Frame() && active[..depth] == path
      ensures Faithful(Plain(data, offset, depth), Unbounded(data, offset), before, Spent(), workLimit, r)
      ensures r.Parsed? ==> operations >= old(operations)
      ensures r.Parsed? && publish ==> cache != null && Holds(offset, r.summary)
      ensures r == Failed(Cancelled) ==> SawCancel()
      decreases DEPTH_LIMIT + 1 - depth, 1
    {
      hide Expand, ExpandMany, HeaderAt, Link, Chained, Unbounded, SlotOf;
      var beforeValues, beforeBytes := recordValues, recordBytes;
      var (v, ok) := Charge(recordValues, 1, RECORD_VALUE_LIMIT);
      recordValues := v;
      if !ok {
        return Failed(Budget);
      }
      var header := ReadHeader(offset);
      ghost var s;
      var failure, end, height;
      failure, end, height, s := ParseBody(offset, header, depth, path, before);
      if failure.Some? {
        return Failed(failure.value);
      }
      ExpandExact(data, offset, DEPTH_LIMIT - depth, DEPTH_LIMIT);
      var packed := Pack(Summary(end, recordValues - beforeValues, recordBytes - beforeBytes, height));
      assert packed.Unpack() == s;
      if publish {
        Store(slot, active[depth], packed);
      }
      return Parsed(packed.Unpack());
    }

    method Store(slot: nat, offset: nat, packed: Packed)
      requires Valid() && cache != null && offset < |data| && slot == SlotOf(offset)
      requires Expand(data, offset, DEPTH_LIMIT) == Some(packed.Unpack())
      modifies cache
      ensures Valid() && Holds(offset, packed.Unpack())
    {
      hide Expand, SlotOf;
      cache[slot] := CacheEntry((offset % TWO_32 + 1) % TWO_32, packed);
      assert TrueEntry(cache[slot]);
    }

    method ParseBody(offset: nat, header: Header, depth: nat, ghost path: seq<int>, ghost before: Counters)
      returns (failure: Option<Error>, end: nat, height: nat, ghost s: Summary)
      requires Valid() && WithinRecord() && operations <= workLimit
      requires offset < |data| && depth <= DEPTH_LIMIT && header == HeaderAt(data, offset)
      requires active[..depth] == path && Chained(data, path, offset) && active[depth] == offset
      requires Spent() == Counters(before.operations + 1, before.values + 1, before.bytes)
      modifies this, active, cache
      ensures Valid() && Frame() && active[..depth] == path && active[depth] == offset
      ensures Faithful(Plain(data, offset, depth), Unbounded(data, offset), before, Spent(), workLimit,
                       if failure.None? then Parsed(s) else Failed(failure.value))
      ensures failure.None? ==> s.end == end && s.height == height && operations >= old(operations)
      ensures failure == Some(Cancelled) ==> SawCancel()
      decreases DEPTH_LIMIT + 1 - depth, 0, 2
    {
      hide HeaderAt, Link, ExpandMany;
      HeaderAdvances(data, offset);
      failure, end, height, s := None, 0, 0, Summary(0, 0, 0, 0);
      match header {
        case Malformed =>
          UnboundedParent(data, offset);
          failure := Some(Bounds);
        case Oversized =>
          failure := Some(Budget);
        case Flag(next) =>
          end, s := next, Summary(next, 1, 0, 0);
        case Scalar(start, size, text) =>
          failure := ChargeScalar(offset, start, size, text, depth, before);
          end, s := start + size, Summary(start + size, 1, size, 0);
        case Pointer(_, _) =>
          failure, end, height, s := ParsePointer(offset, header, depth, path, before);
        case Container(_, _) =>
          failure, end, height, s := ParseContainer(offset, header, depth, path, before);
      }
    }

    // The value a pointer leads to, one level down.
    method ParsePointer(offset: nat, header: Header, depth: nat, ghost path: seq<int>, ghost before: Counters)
      returns (failure: Option<Error>, end: nat, height: nat, ghost s: Summary)
      requires Valid() && WithinRecord() && operations <= workLimit
      requires offset < |data| && depth <= DEPTH_LIMIT && header == HeaderAt(data, offset) && header.Pointer?
      requires active[..depth] == path && Chained(data, path, offset) && active[depth] == offset
      requires Spent() == Counters(before.operations + 1, before.values + 1, before.bytes)
      modifies this, active, cache
      ensures Valid() && Frame() && active[..depth] == path && active[depth] == offset
      ensures Faithful(Plain(data, offset, depth), Unbounded(data, offset), before, Spent(), workLimit,
                       if failure.None? then Parsed(s) else Failed(failure.value))
      ensures failure.None? ==> s.end == end && s.height == height && operations >= old(operations)
      ensures failure == Some(Cancelled) ==> SawCancel()
      decreases DEPTH_LIMIT + 1 - depth, 0, 0
    {
      hide HeaderAt, Link, ExpandMany;
      HeaderAdvances(data, offset);
      PointerLink(data, offset);
      ExtendChain(data, path, offset, header.target);
      assert active[..depth + 1] == path + [offset];
      failure, end, height, s := None, 0, 0, Summary(0, 0, 0, 0);
      var child := Parse(header.target, depth + 1, true, path + [offset]);
      assert active[depth] == (path + [offset])[depth];
      assert active[..depth] == (path + [offset])[..depth] == path;
      if child.Failed? {
        if child.error == Bounds {
          UnboundedParent(data, offset);
        }
        failure := Some(child.error);
      } else {
        end, height := header.next, child.summary.height + 1;
        s := Summary(header.next, 1 + child.summary.values, child.summary.bytes, height);
      }
    }

    // A map or array: its slots are charged before its items are read.
    method ParseContainer(offset: nat, header: Header, depth: nat, ghost path: seq<int>, ghost before: Counters)
      returns (failure: Option<Error>, end: nat, height: nat, ghost s: Summary)
      requires Valid() && WithinRecord() && operations <= workLimit
      requires offset < |data| && depth <= DEPTH_LIMIT && header == HeaderAt(data, offset) && header.Container?
      requires active[..depth] == path && Chained(data, path, offset) && active[depth] == offset
      requires Spent() == Counters(before.operations + 1, before.values + 1, before.bytes)
      modifies this, active, cache
      ensures Valid() && Frame() && active[..depth] == path && active[depth] == offset
      ensures Faithful(Plain(data, offset, depth), Unbounded(data, offset), before, Spent(), workLimit,
                       if failure.None? then Parsed(s) else Failed(failure.value))
      ensures failure.None? ==> s.end == end && s.height == height && operations >= old(operations)
      ensures failure == Some(Cancelled) ==> SawCancel()
      decreases DEPTH_LIMIT + 1 - depth, 0, 1
    {
      hide HeaderAt, Link, ExpandMany;
      HeaderAdvances(data, offset);
      failure, end, height, s := None, 0, 0, Summary(0, 0, 0, 0);
      var (b, ok) := Charge(recordBytes, header.count * SLOT_CHARGE, RECORD_BYTE_LIMIT);
      recordBytes := b;
      if !ok {
        return Some(Budget), end, height, s;
      }
      failure, end, height := ParseItems(offset, header.start, header.count, depth, path);
      if failure == Some(Bounds) {
        UnboundedParent(data, offset);
      }
      if failure.None? {
        s := Expand(data, offset, DEPTH_LIMIT - depth).value;
      }
    }

    method ChargeScalar(offset: nat, start: nat, size: nat, text: bool, depth: nat, ghost before: Counters)
      returns (failure: Option<Error>)
      requires offset < |data| && HeaderAt(data, offset) == Scalar(start, size, text) && depth <= DEPTH_LIMIT
      requires start <= |data| && size < TWO_32 && WithinRecord() && operations <= workLimit
      requires Spent() == Counters(before.operations + 1, before.values + 1, before.bytes)
      modifies this`recordBytes
      ensures failure == None || failure == Some(Bounds) || failure == Some(Budget)
      ensures Faithful(Plain(data, offset, depth), Unbounded(data, offset), before, Spent(), workLimit,
                       if failure.None? then Parsed(Summary(start + size, 1, size, 0)) else Failed(failure.value))
    {
      hide HeaderAt, ExpandMany, Utf8.Valid;
      failure := None;
      if size > |data| - start {
        UnboundedParent(data, offset);
        return Some(Bounds);
      }
      var (b, ok) := Charge(recordBytes, size, RECORD_BYTE_LIMIT);
      recordBytes := b;
      if !ok {
        return Some(Budget);
      }
      if text && !Utf8.Valid(data[start..start + size]) {
        UnboundedParent(data, offset);
        return Some(Bounds);
      }
    }

    // check: accepts exactly the acceptable data, unless the context is cancelled
    // or the values do not fit the work limit.
    method Check(metadata: bool) returns (error: Option<Error>)
      requires |data| <= MAX_DATABASE ==> Valid()
      requires Spent() == Counters(0, 0, 0) && expandedValues == expandedBytes == 0
      modifies this, active, cache
      ensures error.None? ==> Acceptable(data, metadata)
      ensures error.None? ==> expandedValues == SumValues(Records(data, 0, DEPTH_LIMIT).value)
      ensures error.None? ==> expandedBytes == SumBytes(Records(data, 0, DEPTH_LIMIT).value)
      ensures error == Some(Cancelled) ==> SawCancel()
      ensures error.Some? && error != Some(Cancelled) ==>
        !Acceptable(data, metadata) || SumValues(Records(data, 0, DEPTH_LIMIT).value) > workLimit
    {
      hide Expand, ExpandMany, HeaderAt, Records, SumValues, SumBytes, Continues;
      var stop := cancelled(queries);
      queries := queries + 1;
      if stop {
        return Some(Cancelled);
      }
      if |data| > MAX_DATABASE {
        return Some(Budget);
      }
      if metadata && (|data| == 0 || data[0] / 32 != 7) {
        return Some(NotAMap);
      }
      var offset: nat := 0;
      ghost var done: seq<Summary> := [];
      FirstRecord(data);
      while offset < |data|
        invariant offset <= |data| && Valid() && (cache == old(cache) || fresh(cache))
        invariant queries >= old(queries)
        invariant Counting(offset, done, metadata)
        decreases |data| - offset
      {
        var next;
        error, next, done := CheckRecord(offset, metadata, done);
        if error.Some? {
          return;
        }
        offset := next;
      }
      LastRecord(data, done, metadata);
      stop := cancelled(queries);
      queries := queries + 1;
      error := if stop then Some(Cancelled) else None;
    }

    // Between records: these came before the offset, within every budget, and
    // the totals are their sums.
    ghost predicate Counting(offset: nat, done: seq<Summary>, metadata: bool)
      reads this
    {
      && offset <= |data| && Continues(data, offset, done)
      && (forall r :: r in done ==> WithinLimits(r))
      && operations <= expandedValues == SumValues(done) <= EXPANDED_VALUE_LIMIT
      && expandedBytes == SumBytes(done) <= EXPANDED_BYTE_LIMIT
      && (metadata ==> (offset == 0 && done == []) || (offset == |data| && |done| == 1))
    }

    // The loop body of check: one top-level value.
    method CheckRecord(offset: nat, metadata: bool, ghost done: seq<Summary>)
      returns (error: Option<Error>, next: nat, ghost more: seq<Summary>)
      requires offset < |data| && Valid() && Counting(offset, done, metadata)
      requires metadata ==> data[0] / 32 == 7
      modifies this, active, cache
      ensures Valid() && queries >= old(queries) && (cache == old(cache) || fresh(cache))
      ensures error.None? ==> next > offset && Counting(next, more, metadata)
      ensures error == Some(Cancelled) ==> SawCancel()
      ensures error.Some? && error != Some(Cancelled) ==>
        !Acceptable(data, metadata) || SumValues(Records(data, 0, DEPTH_LIMIT).value) > workLimit
    {
      hide Expand, ExpandMany, HeaderAt, Records, SumValues, SumBytes, Continues;
      next, more := offset, done;
      recordValues, recordBytes := 0, 0;
      var r := Parse(offset, 0, false, []);
      if Acceptable(data, metadata) {
        NextAcceptable(data, offset, done, metadata);
      }
      if r.Failed? {
        return Some(r.error), next, more;
      }
      NextRecord(data, offset, done);
      next := r.summary.end;
      if next <= offset {
        assert false;
      }
      more := done + [r.summary];
      var (v, vOk) := Charge(expandedValues, recordValues, EXPANDED_VALUE_LIMIT);
      var (b, bOk) := Charge(expandedBytes, recordBytes, EXPANDED_BYTE_LIMIT);
      expandedValues := v;
      if !vOk {
        return Some(Budget), next, more;
      }
      expandedBytes := b;
      if !bOk {
        return Some(Budget), next, more;
      }
      error := if metadata && next != |data| then Some(Trailing) else None;
    }

    // The items of a map or array, read one after another.
    method ParseItems(origin: nat, start: nat, count: nat, depth: nat, ghost path: seq<int>)
      returns (failure: Option<Error>, end: nat, height: nat)
      requires Valid() && WithinRecord() && operations <= workLimit
      requires origin < |data| && depth <= DEPTH_LIMIT && start <= |data|
      requires active[..depth] == path && Chained(data, path, origin) && active[depth] == origin
      requires HeaderAt(data, origin) == Container(count, start)
      modifies this, active, cache
      ensures Valid() && Frame() && active[..depth] == path && active[depth] == origin
      ensures failure.None? ==>
        exists s :: ExpandMany(data, start, count, DEPTH_LIMIT - depth) == Some(s) && s.end == end
                    && s.height == height && Charged(old(Spent()), Spent(), s, workLimit)
      ensures failure.Some? ==>
        && failure.value in {Bounds, Budget, Cancelled}
        && (failure.value == Bounds ==> UnboundedMany(data, start, count))
        && (failure.value == Cancelled ==> SawCancel())
        && (failure.value != Cancelled ==>
              match ExpandMany(data, start, count, DEPTH_LIMIT - depth)
              case None => true
              case Some(s) => !Affordable(old(Spent()), s, workLimit))
      decreases DEPTH_LIMIT + 1 - depth, 0, 0
    {
      hide Expand, ExpandMany, HeaderAt, Link, Resumes;
      failure, end, height := None, start, 0;
      var i := 0;
      ghost var k0 := DEPTH_LIMIT - depth;
      ghost var done := Summary(start, 0, 0, 0);
      assert Resumes(data, start, count, done, count, k0) by {
        ResumesAtStart(data, start, count, k0);
      }
      while i < count
        invariant 0 <= i <= count && end <= |data|
        invariant Valid() && WithinRecord() && Frame()
        invariant active[..depth] == path && active[depth] == origin
        invariant done.end == end && done.height == height && Charged(old(Spent()), Spent(), done, workLimit)
        invariant Resumes(data, start, count, done, count - i, k0)
      {
        ItemLink(data, origin, start, count, done, count - i, k0);
        ExtendChain(data, path, origin, end);
        assert active[..depth + 1] == path + [origin];
        ghost var at := end;
        var child := Parse(end, depth + 1, false, path + [origin]);
        assert active[depth] == (path + [origin])[depth];
        assert active[..depth] == (path + [origin])[..depth] == path;
        if child.Failed? {
          forall k: nat ensures child.error == Bounds ==> ExpandMany(data, start, count, k).None? {
            if ExpandMany(data, start, count, k).Some? {
              ItemNeeded(data, start, count, done, count - i, k0, k);
            }
          }
          if ExpandMany(data, start, count, k0).Some? {
            ItemNeeded(data, start, count, done, count - i, k0, k0);
          }
          return Some(child.error), end, height;
        }
        ResumeStep(data, start, count, done, count - i, k0, child.summary);
        done := Join(done, Under(child.summary));
        end := child.summary.end;
        height := Max(height, child.summary.height + 1);
        i := i + 1;
      }
      ResumesAtEnd(data, start, count, done, k0);
    }

    // Decodes the control byte, the extended type and size, or the pointer.
    method ReadHeader(origin: nat) returns (h: Header)
      requires origin < |data|
      ensures h == HeaderAt(data, origin)
    {
      hide PointerTarget, ExtendedSize, Classify;
      var offset := origin;
      var control := data[offset];
      offset := offset + 1;
      var kind: nat, size: nat := control / 32, control % 32;
      if kind == 1 {
        var n := (size / 8) % 4 + 1;
        if offset + n > |data| || (n == 4 && size != 24) {
          return Malformed;
        }
        var pointer := ReadPointer(data[offset..offset + n], size);
        if pointer >= |data| {
          return Malformed;
        }
        return Pointer(pointer, offset + n);
      }
      if kind == 0 {
        if offset >= |data| {
          return Malformed;
        }
        kind := 7 + data[offset] as int;
        offset := offset + 1;
      }
      if size >= 29 {
        var n := size - 28;
        if offset + n > |data| {
          return Malformed;
        }
        size := ReadSize(data[offset..offset + n], size);
        offset := offset + n;
      }
      h := Bounded(kind, size, offset);
    }
  }

  method ReadPointer(bytes: seq<byte>, size: nat) returns (pointer: nat)
    requires size < 32 && 1 <= |bytes| <= 4
    ensures pointer == PointerTarget(size, bytes)
  {
    var n := |bytes|;
    pointer := size % 8;
    if n == 4 {
      pointer := 0;
    }
    ghost var lead: seq<byte> := if n == 4 then [] else [size % 8];
    for i := 0 to n
      invariant pointer == BigEndian(lead + bytes[..i])
    {
      var next := lead + bytes[..i + 1];
      assert next[..|next| - 1] == lead + bytes[..i];
      pointer := pointer * 256 + bytes[i];
    }
    assert bytes[..n] == bytes && (n == 4 ==> lead + bytes == bytes);
    if n == 2 {
      pointer := pointer + 2048;
    } else if n == 3 {
      pointer := pointer + 526336;
    }
  }

  method ReadSize(bytes: seq<byte>, declared: nat) returns (size: nat)
    requires 29 <= declared <= 31
    ensures size == ExtendedSize(declared, BigEndian(bytes))
  {
    var value: nat := 0;
    for i := 0 to |bytes|
      invariant value == BigEndian(bytes[..i])
    {
      assert bytes[..i + 1][..i] == bytes[..i];
      value := value * 256 + bytes[i];
    }
    assert bytes[..|bytes|] == bytes;
    size := value;
    match declared {
      case 29 => size := value + 29;
      case 30 => size := value + 285;
      case 31 => size := value + 65821;
    }
  }

  // The size rules of each kind, in the order the source's switch tests them.
  method Bounded(kind: nat, size: nat, start: nat) returns (h: Header)
    ensures h == Classify(kind, size, start)
  {
    match kind {
      case 7 =>
        return if size > 256 then Oversized else Container(size * 2, start);
      case 11 =>
        return if size > 1024 then Oversized else Container(size, start);
      case 14 =>
        return if size > 1 then Malformed else Flag(start);
      case 2 =>
        return if size > 65536 then Oversized else Scalar(start, size, true);
      case 4 =>
        return if size > 65536 then Oversized else Scalar(start, size, false);
      case 3 =>
        return if size != 8 then Malformed else Scalar(start, size, false);
      case 5 =>
        return if size > 2 then Malformed else Scalar(start, size, false);
      case 6 =>
        return if size > 4 then Malformed else Scalar(start, size, false);
      case 8 =>
        return if size > 4 then Malformed else Scalar(start, size, false);
      case 9 =>
        return if size > 8 then Malformed else Scalar(start, size, false);
      case 10 =>
        return if size > 16 then Malformed else Scalar(start, size, false);
      case 15 =>
        return if size != 4 then Malformed else Scalar(start, size, false);
      case _ =>
        return Malformed;
    }
  }

  // checkMMDBValues, on data of any size: refusal means unacceptable data or more
  // values than the work limit admits, unless the context was seen cancelled.
  method CheckValues(data: seq<byte>, cancelled: nat -> bool, metadata: bool) returns (error: Option<Error>)
    ensures error.None? ==> Acceptable(data, metadata)
    ensures error == Some(Cancelled) ==> exists n :: cancelled(n)
    ensures error.Some? && error != Some(Cancelled) ==>
      Acceptable(data, metadata) ==> SumValues(Records(data, 0, DEPTH_LIMIT).value) > WORK_LIMIT
  {
    var bounds := new ValueBounds(data, cancelled);
    error := bounds.Check(metadata);
  }
}
