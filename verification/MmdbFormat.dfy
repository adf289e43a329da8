// The data section of a MaxMind DB file ("Data Field Format" of the MaxMind DB
// File Format Specification): how one field header reads, and what the value at
// an offset expands to once every pointer is followed afresh.
module MmdbFormat {
  import opened Wrappers
  import Utf8

  const MAX_DATABASE: nat := 167_772_160 // 160 MiB

  datatype Header =
    | Malformed                                       // no valid field starts here
    | Oversized                                       // a declared size over a fixed limit
    | Pointer(target: nat, next: nat)
    | Container(count: nat, start: nat)               // map (keys and values) or array items
    | Flag(end: nat)                                  // a boolean: its size is its value
    | Scalar(start: nat, size: nat, text: bool)

  function ExtendedSize(size: nat, extra: nat): nat
    requires 29 <= size <= 31
  {
    if size == 29 then 29 + extra else if size == 30 then 285 + extra else 65821 + extra
  }

  function Classify(kind: nat, size: nat, start: nat): Header {
    if kind == 7 then (if size > 256 then Oversized else Container(2 * size, start))
    else if kind == 11 then (if size > 1024 then Oversized else Container(size, start))
    else if kind == 14 then (if size > 1 then Malformed else Flag(start))
    else if kind == 2 || kind == 4 then
      (if size > 65536 then Oversized else Scalar(start, size, kind == 2))
    else if (kind == 3 && size == 8) || (kind == 5 && size <= 2) || (kind == 6 && size <= 4)
            || (kind == 8 && size <= 4) || (kind == 9 && size <= 8) || (kind == 10 && size <= 16)
            || (kind == 15 && size == 4) then Scalar(start, size, false)
    else Malformed
  }

  // A pointer's value: the low control bits lead the following n bytes, except
  // in the four-byte form; the two longer forms are biased past the shorter ones.
  function PointerTarget(size: nat, bytes: seq<byte>): nat
    requires size < 32
  {
    match |bytes|
    case 2 => BigEndian([size % 8] + bytes) + 2048
    case 3 => BigEndian([size % 8] + bytes) + 526336
    case 4 => BigEndian(bytes)
    case _ => BigEndian([size % 8] + bytes)
  }

  function HeaderAt(data: seq<byte>, offset: nat): Header
    requires offset < |data|
  {
    var kind, size, at := data[offset] / 32, data[offset] % 32, offset + 1;
    if kind == 1 then
      var n := size / 8 + 1;
      if at + n > |data| || (n == 4 && size != 24) then Malformed
      else
        var target := PointerTarget(size, data[at..at + n]);
        if target >= |data| then Malformed else Pointer(target, at + n)
    else if kind == 0 && at >= |data| then Malformed
    else
      var kind': nat := if kind == 0 then 7 + data[at] as int else kind;
      var at' := if kind == 0 then at + 1 else at;
      if size < 29 then Classify(kind', size, at')
      else if at' + (size - 28) > |data| then Malformed
      else
        var n := size - 28;
        Classify(kind', ExtendedSize(size, BigEndian(data[at'..at' + n])), at' + n)
  }

  // Every field header ends past the byte it starts at.
  lemma HeaderAdvances(data: seq<byte>, offset: nat)
    requires offset < |data|
    ensures match HeaderAt(data, offset)
            case Malformed => true
            case Oversized => true
            case Pointer(target, next) => target < |data| && offset < next <= |data|
            case Container(count, start) => offset < start <= |data| && count <= 1024
            case Flag(end) => offset < end <= |data|
            case Scalar(start, size, _) => offset < start <= |data| && size <= 65821 + 0x100_0000
  {
  }

  // What one logical value costs a reader that decodes it: where its own
  // encoding ends, how many values it holds, how many bytes it is charged, and
  // how deep its expansion nests.
  datatype Summary = Summary(end: nat, values: nat, bytes: nat, height: nat)

  const SLOT_CHARGE: nat := 128

  // The plain recursion: no cache, no work limit, no ancestor check. `depth` is
  // the nesting still allowed below this value.
  function Expand(data: seq<byte>, offset: int, depth: nat): (s: Option<Summary>)
    ensures s.Some? ==> 0 <= offset < s.value.end <= |data| && s.value.values >= 1
    decreases depth, 1, 0
  {
    if !(0 <= offset < |data|) then None
    else
      HeaderAdvances(data, offset);
      match HeaderAt(data, offset)
      case Malformed => None
      case Oversized => None
      case Flag(end) => Some(Summary(end, 1, 0, 0))
      case Scalar(start, size, text) =>
        if start + size <= |data| && (text ==> Utf8.Valid(data[start..start + size]))
        then Some(Summary(start + size, 1, size, 0)) else None
      case Pointer(target, next) =>
        if depth == 0 then None
        else
          var child := Expand(data, target, depth - 1);
          if child.None? then None
          else Some(Summary(next, 1 + child.value.values, child.value.bytes, 1 + child.value.height))
      case Container(count, start) =>
        var items := ExpandMany(data, start, count, depth);
        if items.None? then None
        else Some(Summary(items.value.end, 1 + items.value.values,
                          count * SLOT_CHARGE + items.value.bytes, items.value.height))
  }

  function Join(first: Summary, rest: Summary): Summary {
    Summary(rest.end, first.values + rest.values, first.bytes + rest.bytes,
            Max(first.height, rest.height))
  }

  function Under(child: Summary): Summary { child.(height := child.height + 1) }

  // `count` consecutive values, each one level below their container.
  function ExpandMany(data: seq<byte>, start: int, count: nat, depth: nat): (s: Option<Summary>)
    ensures s.Some? && 0 <= start <= |data| ==> start <= s.value.end <= |data|
    decreases depth, 0, count
  {
    if count == 0 then (if start < 0 then None else Some(Summary(start, 0, 0, 0)))
    else if depth == 0 then None
    else
      var first := Expand(data, start, depth - 1);
      if first.None? then None
      else
        var rest := ExpandMany(data, first.value.end, count - 1, depth);
        if rest.None? then None else Some(Join(Under(first.value), rest.value))
  }

  // The allowed depth only decides whether an expansion is reported, never what it is.
  lemma {:induction false} ExpandExact(data: seq<byte>, offset: int, d: nat, e: nat)
    requires Expand(data, offset, d).Some?
    ensures Expand(data, offset, d).value.height <= d
    ensures Expand(data, offset, d).value.height <= e ==> Expand(data, offset, e) == Expand(data, offset, d)
    decreases d, 1, 0
  {
    hide HeaderAt, ExpandMany;
    match HeaderAt(data, offset)
    case Pointer(target, next) =>
      ExpandExact(data, target, d - 1, if e == 0 then 0 else e - 1);
    case Container(count, start) =>
      ExpandManyExact(data, start, count, d, e);
    case _ =>
  }

  lemma {:induction false} ExpandManyExact(data: seq<byte>, start: int, count: nat, d: nat, e: nat)
    requires ExpandMany(data, start, count, d).Some?
    ensures ExpandMany(data, start, count, d).value.height <= d
    ensures ExpandMany(data, start, count, d).value.height <= e
            ==> ExpandMany(data, start, count, e) == ExpandMany(data, start, count, d)
    decreases d, 0, count
  {
    hide Expand;
    if count > 0 {
      var first := Expand(data, start, d - 1).value;
      ExpandExact(data, start, d - 1, if e == 0 then 0 else e - 1);
      ExpandManyExact(data, first.end, count - 1, d, e);
    }
  }

  // Two depths that both report an expansion report the same one.
  lemma ExpandAgrees(data: seq<byte>, offset: int, d: nat, e: nat)
    requires Expand(data, offset, d).Some? && Expand(data, offset, e).Some?
    ensures Expand(data, offset, d) == Expand(data, offset, e)
  {
    ExpandExact(data, offset, d, e);
    ExpandExact(data, offset, e, d);
  }

  // ---------------------------------------------------------------- cycles

  // y is read whenever x is, one level down.
  ghost predicate Link(data: seq<byte>, x: int, y: int) {
    forall k: nat :: Expand(data, x, k).Some? ==> k > 0 && Expand(data, y, k - 1).Some?
  }

  // No depth, however large, expands the value at this offset.
  ghost predicate Unbounded(data: seq<byte>, offset: int) {
    forall k: nat :: Expand(data, offset, k).None?
  }

  // The path of values being read, each linked to the next and the last to offset.
  ghost predicate Chained(data: seq<byte>, path: seq<int>, offset: int) {
    forall i :: 0 <= i < |path| ==> Link(data, path[i], (path + [offset])[i + 1])
  }

  lemma {:induction false} ChainDescends(data: seq<byte>, path: seq<int>, offset: int, a: nat, k: nat)
    requires Chained(data, path, offset) && a < |path|
    requires Expand(data, path[a], k).Some?
    ensures k >= |path| - a && Expand(data, offset, k - (|path| - a)).Some?
    decreases |path| - a
  {
    assert Link(data, path[a], (path + [offset])[a + 1]);
    if a + 1 < |path| {
      ChainDescends(data, path, offset, a + 1, k - 1);
    }
  }

  // A value met again below itself has no finite expansion at all.
  lemma CycleUnbounded(data: seq<byte>, path: seq<int>, offset: int)
    requires Chained(data, path, offset) && offset in path
    ensures Unbounded(data, offset)
  {
    var a :| 0 <= a < |path| && path[a] == offset;
    forall k: nat ensures Expand(data, offset, k).None? {
      if Expand(data, offset, k).Some? {
        var h := Expand(data, offset, k).value.height;
        ExpandExact(data, offset, k, h);
        ChainDescends(data, path, offset, a, h);
        var h' := h - (|path| - a);
        ExpandAgrees(data, offset, k, h');
        ExpandExact(data, offset, h', h');
      }
    }
  }

  lemma ExtendChain(data: seq<byte>, path: seq<int>, offset: int, child: int)
    requires Chained(data, path, offset) && Link(data, offset, child)
    ensures Chained(data, path + [offset], child)
  {
    var longer := path + [offset];
    forall i | 0 <= i < |longer| ensures Link(data, longer[i], (longer + [child])[i + 1]) {
      if i < |path| {
        assert (path + [offset])[i + 1] == (longer + [child])[i + 1];
      }
    }
  }

  // ---------------------------------------------------------------- items

  ghost predicate UnboundedMany(data: seq<byte>, start: int, count: nat) {
    forall k: nat :: ExpandMany(data, start, count, k).None?
  }

  // Part-way through a container: `done` sums up the items read so far, and
  // reading the `left` items from done.end completes it.
  ghost predicate Resumes(data: seq<byte>, start: int, count: nat, done: Summary, left: nat, depth: nat) {
    && ExpandMany(data, start, count, depth) == (
         match ExpandMany(data, done.end, left, depth)
         case None => None
         case Some(rest) => Some(Join(done, rest)))
    && forall k: nat :: ExpandMany(data, start, count, k).Some? ==> ExpandMany(data, done.end, left, k).Some?
  }

  lemma ResumesAtStart(data: seq<byte>, start: nat, count: nat, depth: nat)
    ensures Resumes(data, start, count, Summary(start, 0, 0, 0), count, depth)
  {
  }

  lemma ResumesAtEnd(data: seq<byte>, start: nat, count: nat, done: Summary, depth: nat)
    requires Resumes(data, start, count, done, 0, depth)
    ensures ExpandMany(data, start, count, depth) == Some(done)
  {
  }

  lemma ResumeStep(data: seq<byte>, start: int, count: nat, done: Summary, left: nat, depth: nat, item: Summary)
    requires Resumes(data, start, count, done, left, depth) && left > 0 && depth > 0
    requires Expand(data, done.end, depth - 1) == Some(item)
    ensures Resumes(data, start, count, Join(done, Under(item)), left - 1, depth)
  {
    forall k: nat | ExpandMany(data, start, count, k).Some?
      ensures ExpandMany(data, item.end, left - 1, k).Some?
    {
      assert ExpandMany(data, done.end, left, k).Some?;
      ExpandAgrees(data, done.end, depth - 1, k - 1);
    }
  }

  // The item about to be read is linked to the container it belongs to.
  lemma ItemLink(data: seq<byte>, origin: nat, start: nat, count: nat, done: Summary, left: nat, depth: nat)
    requires origin < |data| && HeaderAt(data, origin) == Container(count, start)
    requires Resumes(data, start, count, done, left, depth) && left > 0
    ensures Link(data, origin, done.end)
  {
    forall k: nat | Expand(data, origin, k).Some?
      ensures k > 0 && Expand(data, done.end, k - 1).Some?
    {
      assert ExpandMany(data, start, count, k).Some?;
      assert ExpandMany(data, done.end, left, k).Some?;
    }
  }

  // A container that expands needs its current item, and costs at least as much.
  lemma ItemNeeded(data: seq<byte>, start: nat, count: nat, done: Summary, left: nat, depth: nat, k: nat)
    requires Resumes(data, start, count, done, left, depth) && left > 0
    requires ExpandMany(data, start, count, k).Some?
    ensures k > 0 && Expand(data, done.end, k - 1).Some?
    ensures k == depth ==>
      var all, item := ExpandMany(data, start, count, k).value, Expand(data, done.end, k - 1).value;
      all.values >= done.values + item.values && all.bytes >= done.bytes + item.bytes
  {
    assert ExpandMany(data, done.end, left, k).Some?;
  }

  lemma PointerLink(data: seq<byte>, offset: nat)
    requires offset < |data| && HeaderAt(data, offset).Pointer?
    ensures Link(data, offset, HeaderAt(data, offset).target)
  {
  }

  // A field needs what its header points at or contains.
  lemma UnboundedParent(data: seq<byte>, offset: nat)
    requires offset < |data|
    requires match HeaderAt(data, offset)
             case Malformed => true
             case Pointer(target, _) => Unbounded(data, target)
             case Container(count, start) => UnboundedMany(data, start, count)
             case Scalar(start, size, text) =>
               start + size > |data| || (text && !Utf8.Valid(data[start..start + size]))
             case _ => false
    ensures Unbounded(data, offset)
  {
    forall k: nat ensures Expand(data, offset, k).None? {
      if HeaderAt(data, offset).Pointer? && k > 0 {
        assert Expand(data, HeaderAt(data, offset).target, k - 1).None?;
      }
    }
  }

  // ---------------------------------------------------------------- records

  // The top-level values, each starting where the one before it ends and the
  // last one ending with the data.
  function Records(data: seq<byte>, offset: nat, depth: nat): Option<seq<Summary>>
    requires offset <= |data|
    decreases |data| - offset
  {
    if offset == |data| then Some([])
    else
      var first := Expand(data, offset, depth);
      if first.None? then None
      else
        var rest := Records(data, first.value.end, depth);
        if rest.None? then None else Some([first.value] + rest.value)
  }

  function SumValues(records: seq<Summary>): nat {
    if records == [] then 0 else SumValues(records[..|records| - 1]) + records[|records| - 1].values
  }

  function SumBytes(records: seq<Summary>): nat {
    if records == [] then 0 else SumBytes(records[..|records| - 1]) + records[|records| - 1].bytes
  }

  lemma {:induction false} SumsOfPrefix(records: seq<Summary>, n: nat)
    requires n <= |records|
    ensures SumValues(records[..n]) <= SumValues(records)
    ensures SumBytes(records[..n]) <= SumBytes(records)
    decreases |records|
  {
    if n < |records| {
      var shorter := records[..|records| - 1];
      SumsOfPrefix(shorter, n);
      assert shorter[..n] == records[..n];
    } else {
      assert records[..n] == records;
    }
  }
}
