// Reading gives back what was written: the plain recursion expands exactly the
// offsets where the writer put a finite value, to that value's measures.
module MmdbValues {
  import opened Wrappers
  import opened MmdbFormat
  import opened MmdbWriter
  import Utf8

  // ---------------------------------------------------------------- one field

  lemma BigEndian2(a: byte, b: byte)
    ensures BigEndian([a, b]) == a as int * 256 + b
  {
    assert [a, b][..1] == [a];
    BigEndian1(a);
  }

  lemma BigEndian3(a: byte, b: byte, c: byte)
    ensures BigEndian([a, b, c]) == a as int * 0x1_0000 + b as int * 256 + c
  {
    assert [a, b, c][..2] == [a, b];
    BigEndian2(a, b);
  }

  lemma BigEndian4(a: byte, b: byte, c: byte, d: byte)
    ensures BigEndian([a, b, c, d]) == a as int * 0x100_0000 + b as int * 0x1_0000 + c as int * 256 + d
  {
    assert [a, b, c, d][..3] == [a, b, c];
    BigEndian3(a, b, c);
  }

  lemma BigEndian1(a: byte)
    ensures BigEndian([a]) == a as int
  {
    assert [a][..0] == [];
  }

  // The size bytes hold what the size bits leave over.
  lemma SizeRead(size: nat)
    requires size < SIZE_LIMIT
    ensures size < 29 ==> SizeBits(size) == size && SizeBytes(size) == []
    ensures size >= 29 ==>
      && SizeBits(size) >= 29 && |SizeBytes(size)| == SizeBits(size) - 28
      && ExtendedSize(SizeBits(size), BigEndian(SizeBytes(size))) == size
  {
    if 29 <= size < 285 {
      BigEndian1(size - 29);
    } else if 285 <= size < 65821 {
      BigEndian2((size - 285) / 256, (size - 285) % 256);
    } else if size >= 65821 {
      BigEndian3((size - 65821) / 0x1_0000, (size - 65821) / 256 % 256, (size - 65821) % 256);
    }
  }

  lemma SizeFound(bits: nat, bytes: seq<byte>) returns (size: nat)
    requires 29 <= bits < 32 && |bytes| == bits - 28
    ensures size == ExtendedSize(bits, BigEndian(bytes)) && 29 <= size < SIZE_LIMIT
    ensures SizeBits(size) == bits && SizeBytes(size) == bytes
  {
    hide BigEndian, SizeBits, SizeBytes;
    size := ExtendedSize(bits, BigEndian(bytes));
    if bits == 29 {
      BigEndian1(bytes[0]);
      assert bytes == [bytes[0]];
      SizeOf1(bytes[0]);
    } else if bits == 30 {
      BigEndian2(bytes[0], bytes[1]);
      assert bytes == [bytes[0], bytes[1]];
      SizeOf2(bytes[0], bytes[1]);
    } else {
      BigEndian3(bytes[0], bytes[1], bytes[2]);
      assert bytes == [bytes[0], bytes[1], bytes[2]];
      SizeOf3(bytes[0], bytes[1], bytes[2]);
    }
  }

  lemma SizeOf1(a: byte)
    ensures SizeBits(29 + a as int) == 29 && SizeBytes(29 + a as int) == [a]
  {
  }

  lemma SizeOf2(a: byte, b: byte)
    ensures var size := 285 + a as int * 256 + b; SizeBits(size) == 30 && SizeBytes(size) == [a, b]
  {
    Places(0, 0, a, b);
  }

  lemma SizeOf3(a: byte, b: byte, c: byte)
    ensures var size := 65821 + a as int * 0x1_0000 + b as int * 256 + c; SizeBits(size) == 31 && SizeBytes(size) == [a, b, c]
  {
    Places(0, a, b, c);
    var n := a as int * 0x1_0000 + b as int * 256 + c;
    assert n / 0x1_0000 == a as int;
  }

  lemma HeadRead(data: seq<byte>, offset: nat, kind: nat, extended: bool, size: nat)
    requires 2 <= kind < 263 && size < SIZE_LIMIT && (extended ==> kind == 7)
    requires At(data, offset, Head(kind, extended, size))
    ensures offset < |data|
    ensures HeaderAt(data, offset) == Classify(kind, size, offset + |Head(kind, extended, size)|)
  {
    hide Classify, SizeBits, SizeBytes, ExtendedSize, BigEndian, PointerTarget;
    var head := Head(kind, extended, size);
    var first: seq<byte> := head[..|head| - |SizeBytes(size)|];
    SizeRead(size);
    SizeBitsBound(size);
    AtSplit(data, offset, first, SizeBytes(size));
    assert head == first + SizeBytes(size);
    assert data[offset] == data[offset..offset + |first|][0];
    assert |first| == 2 ==> data[offset + 1] == data[offset..offset + |first|][1];
  }

  lemma SizeBitsBound(size: nat)
    ensures SizeBits(size) < 32
  {
  }

  // A field's kind and size, as the reader takes them from its first bytes.
  lemma HeaderParts(data: seq<byte>, offset: nat)
    returns (kind: nat, at: nat, n: nat, size: nat)
    requires offset < |data| && data[offset] / 32 != 1 && HeaderAt(data, offset) != Malformed
    ensures var bits := data[offset] % 32;
            && (if data[offset] < 32 then at == offset + 2 <= |data| && kind == 7 + data[offset + 1] as int
                else at == offset + 1 && kind == data[offset] / 32)
            && n == (if bits < 29 then 0 else bits - 28) && at + n <= |data|
            && size == (if bits < 29 then bits else ExtendedSize(bits, BigEndian(data[at..at + n])))
            && HeaderAt(data, offset) == Classify(kind, size, at + n)
  {
    hide Classify, ExtendedSize, BigEndian, PointerTarget;
    var bits := data[offset] % 32;
    at, kind := offset + 1, data[offset] / 32;
    if kind == 0 {
      at, kind := offset + 2, 7 + data[offset + 1] as int;
    }
    n := if bits < 29 then 0 else bits - 28;
    size := if bits < 29 then bits else ExtendedSize(bits, BigEndian(data[at..at + n]));
  }

  lemma HeadFound(data: seq<byte>, offset: nat) returns (kind: nat, extended: bool, size: nat)
    requires offset < |data| && data[offset] / 32 != 1 && HeaderAt(data, offset) != Malformed
    ensures 2 <= kind < 263 && size < SIZE_LIMIT && (extended ==> kind == 7)
    ensures At(data, offset, Head(kind, extended, size))
    ensures HeaderAt(data, offset) == Classify(kind, size, offset + |Head(kind, extended, size)|)
  {
    hide Classify, ExtendedSize, BigEndian, HeaderAt, SizeBits, SizeBytes, At;
    var at, n;
    kind, at, n, size := HeaderParts(data, offset);
    extended := data[offset] < 32 && data[offset + 1] == 0;
    var bits := data[offset] % 32;
    if bits >= 29 {
      size := SizeFound(bits, data[at..at + n]);
    } else {
      SizeRead(size);
    }
    FirstBytes(data, offset, at, n, kind, extended, size);
  }

  lemma FirstBytes(data: seq<byte>, offset: nat, at: nat, n: nat, kind: nat, extended: bool, size: nat)
    requires offset < |data| && at + n <= |data| && 2 <= kind < 263 && size < SIZE_LIMIT
    requires if data[offset] < 32 then at == offset + 2 && kind == 7 + data[offset + 1] as int
             else at == offset + 1 && kind == data[offset] / 32
    requires extended <==> data[offset] < 32 && data[offset + 1] == 0
    requires SizeBits(size) == data[offset] % 32 && SizeBytes(size) == data[at..at + n]
    ensures At(data, offset, Head(kind, extended, size)) && |Head(kind, extended, size)| == at + n - offset
  {
    hide SizeBits, SizeBytes;
    var first := data[offset..at];
    assert first == if at == offset + 1 then [data[offset]] else [data[offset], data[offset + 1]];
    assert Head(kind, extended, size) == first + data[at..at + n];
    assert data[offset..at + n] == first + data[at..at + n];
  }

  lemma PointerRead(data: seq<byte>, offset: nat, form: nat, at: nat)
    requires FormFits(form, at) && At(data, offset, PointerBytes(form, at)) && at < |data|
    ensures offset < |data| && HeaderAt(data, offset) == Pointer(at, offset + form + 1)
  {
    hide BigEndian, Classify, ExtendedSize, PointerTarget, PointerBytes, FormFits;
    var bytes := PointerBytes(form, at);
    FirstPointerByte(form, at);
    PointerValue(form, at);
    assert data[offset] == data[offset..offset + |bytes|][0];
    assert data[offset + 1..offset + 1 + form] == data[offset..offset + |bytes|][1..];
  }

  lemma FirstPointerByte(form: nat, at: nat)
    requires FormFits(form, at)
    ensures var bytes := PointerBytes(form, at);
            && 1 <= form <= 4 && |bytes| == form + 1
            && bytes[0] / 32 == 1 && bytes[0] % 32 / 8 + 1 == form && (form == 4 ==> bytes[0] % 32 == 24)
  {
  }

  // A pointer's number, form by form.
  lemma TargetOf(size: nat, bytes: seq<byte>)
    requires size < 32 && 1 <= |bytes| <= 4
    ensures |bytes| == 1 ==> PointerTarget(size, bytes) == size % 8 * 256 + bytes[0]
    ensures |bytes| == 2 ==> PointerTarget(size, bytes) == size % 8 * 0x1_0000 + bytes[0] as int * 256 + bytes[1] + 2048
    ensures |bytes| == 3 ==>
      PointerTarget(size, bytes) == size % 8 * 0x100_0000 + bytes[0] as int * 0x1_0000 + bytes[1] as int * 256 + bytes[2] + 526336
    ensures |bytes| == 4 ==>
      PointerTarget(size, bytes) == bytes[0] as int * 0x100_0000 + bytes[1] as int * 0x1_0000 + bytes[2] as int * 256 + bytes[3]
  {
    hide BigEndian;
    var lead: byte := size % 8;
    if |bytes| == 1 {
      BigEndian2(lead, bytes[0]);
      assert [lead] + bytes == [lead, bytes[0]];
    } else if |bytes| == 2 {
      BigEndian3(lead, bytes[0], bytes[1]);
      assert [lead] + bytes == [lead, bytes[0], bytes[1]];
    } else if |bytes| == 3 {
      BigEndian4(lead, bytes[0], bytes[1], bytes[2]);
      assert [lead] + bytes == [lead, bytes[0], bytes[1], bytes[2]];
    } else {
      BigEndian4(bytes[0], bytes[1], bytes[2], bytes[3]);
      assert bytes == [bytes[0], bytes[1], bytes[2], bytes[3]];
    }
  }

  lemma PointerValue(form: nat, at: nat)
    requires FormFits(form, at)
    ensures var bytes := PointerBytes(form, at); |bytes| == form + 1 && PointerTarget(bytes[0] % 32, bytes[1..]) == at
  {
    hide PointerTarget;
    var bytes := PointerBytes(form, at);
    if form == 1 {
      assert bytes[1..] == [at % 256];
      TargetOf(bytes[0] % 32, bytes[1..]);
    } else if form == 2 {
      SecondForm(at - 2048);
      assert bytes[1..] == [(at - 2048) / 256 % 256, (at - 2048) % 256];
    } else if form == 3 {
      ThirdForm(at - 526336);
      assert bytes[1..] == [(at - 526336) / 0x1_0000 % 256, (at - 526336) / 256 % 256, (at - 526336) % 256];
    } else {
      FourthForm(at);
      assert bytes[1..] == [at / 0x100_0000, at / 0x1_0000 % 256, at / 256 % 256, at % 256];
    }
  }

  lemma LowBits(control: nat, low: nat)
    requires control % 8 == 0 && low < 8
    ensures (control + low) % 32 % 8 == low
  {
  }

  lemma SecondForm(n: nat)
    requires n < 0x8_0000
    ensures PointerTarget((40 + n / 0x1_0000) % 32, [n / 256 % 256, n % 256]) == n + 2048
  {
    hide PointerTarget, BigEndian;
    LowBits(40, n / 0x1_0000);
    TargetOf((40 + n / 0x1_0000) % 32, [n / 256 % 256, n % 256]);
    Digits(n);
  }

  lemma ThirdForm(n: nat)
    requires n < 0x800_0000
    ensures PointerTarget((48 + n / 0x100_0000) % 32, [n / 0x1_0000 % 256, n / 256 % 256, n % 256]) == n + 526336
  {
    hide PointerTarget, BigEndian;
    LowBits(48, n / 0x100_0000);
    TargetOf((48 + n / 0x100_0000) % 32, [n / 0x1_0000 % 256, n / 256 % 256, n % 256]);
    Digits(n);
  }

  lemma FourthForm(n: nat)
    requires n < TWO_32
    ensures PointerTarget(24, [n / 0x100_0000, n / 0x1_0000 % 256, n / 256 % 256, n % 256]) == n
  {
    hide PointerTarget;
    TargetOf(24, [n / 0x100_0000, n / 0x1_0000 % 256, n / 256 % 256, n % 256]);
    Digits(n);
  }

  lemma Digits(n: nat)
    requires n < TWO_32
    ensures n == n / 256 * 256 + n % 256
    ensures n / 256 == n / 0x1_0000 * 256 + n / 256 % 256
    ensures n / 0x1_0000 == n / 0x100_0000 * 256 + n / 0x1_0000 % 256
  {
    assert n / 0x1_0000 == n / 256 / 256;
    assert n / 0x100_0000 == n / 0x1_0000 / 256;
  }

  lemma Places(a: nat, b: byte, c: byte, d: byte)
    requires a < 256
    ensures var n := a * 0x100_0000 + b as int * 0x1_0000 + c as int * 256 + d;
            n / 0x100_0000 == a && n / 0x1_0000 % 256 == b && n / 256 % 256 == c && n % 256 == d
  {
    var n := a * 0x100_0000 + b as int * 0x1_0000 + c as int * 256 + d;
    assert n / 256 == a * 0x1_0000 + b as int * 256 + c;
    assert n / 0x1_0000 == n / 256 / 256 == a * 256 + b as int;
    assert n / 0x100_0000 == n / 0x1_0000 / 256;
  }

  lemma PointerFound(data: seq<byte>, offset: nat) returns (form: nat)
    requires offset < |data| && HeaderAt(data, offset).Pointer?
    ensures var h := HeaderAt(data, offset);
            && FormFits(form, h.target) && h.next == offset + form + 1
            && At(data, offset, PointerBytes(form, h.target))
  {
    PointerHeader(data, offset);
    hide HeaderAt, PointerTarget, PointerBytes, FormFits;
    var size := data[offset] % 32;
    form := size / 8 + 1;
    var bytes := data[offset + 1..offset + 1 + form];
    PointerBytesOf(size, bytes);
    FirstThen(data, offset, form);
  }

  lemma FirstThen(data: seq<byte>, offset: nat, n: nat)
    requires offset + 1 + n <= |data|
    ensures At(data, offset, [data[offset]] + data[offset + 1..offset + 1 + n])
  {
  }

  lemma PointerHeader(data: seq<byte>, offset: nat)
    requires offset < |data| && HeaderAt(data, offset).Pointer?
    ensures var size := data[offset] % 32; var n := size / 8 + 1;
            && data[offset] == 32 + size && offset + 1 + n <= |data| && (n == 4 ==> size == 24)
            && HeaderAt(data, offset) == Pointer(PointerTarget(size, data[offset + 1..offset + 1 + n]), offset + 1 + n)
  {
    hide PointerTarget, ExtendedSize, BigEndian;
  }

  lemma PointerBytesOf(size: nat, bytes: seq<byte>)
    requires size < 32 && |bytes| == size / 8 + 1 && (|bytes| == 4 ==> size == 24)
    ensures FormFits(|bytes|, PointerTarget(size, bytes))
    ensures PointerBytes(|bytes|, PointerTarget(size, bytes)) == [32 + size as byte] + bytes
  {
    hide PointerTarget;
    TargetOf(size, bytes);
    if |bytes| == 1 {
      assert bytes == [bytes[0]];
    } else if |bytes| == 2 {
      assert bytes == [bytes[0], bytes[1]];
      Places(0, size % 8, bytes[0], bytes[1]);
    } else if |bytes| == 3 {
      assert bytes == [bytes[0], bytes[1], bytes[2]];
      Places(size % 8, bytes[0], bytes[1], bytes[2]);
    } else {
      assert bytes == [bytes[0], bytes[1], bytes[2], bytes[3]];
      Places(bytes[0], bytes[1], bytes[2], bytes[3]);
    }
  }

  // ---------------------------------------------------------------- written values expand

  function Measure(v: Value, end: nat): Summary { Summary(end, Count(v), Bytes(v), Height(v)) }

  function EndOf(offset: int, v: Value): int
    requires Sound(v)
  {
    offset + |Written(v)|
  }

  // A field with a payload, read with its size and start.
  lemma PayloadRead(data: seq<byte>, offset: nat, kind: nat, payload: seq<byte>)
    requires 2 <= kind < 263 && |payload| < SIZE_LIMIT
    requires At(data, offset, Head(kind, false, |payload|) + payload)
    ensures offset < |data|
    ensures var start := offset + |Head(kind, false, |payload|)|;
            && HeaderAt(data, offset) == Classify(kind, |payload|, start)
            && start + |payload| <= |data| && data[start..start + |payload|] == payload
  {
    hide HeaderAt, Head, Classify;
    AtSplit(data, offset, Head(kind, false, |payload|), payload);
    HeadRead(data, offset, kind, false, |payload|);
  }

  lemma LeafExpands(data: seq<byte>, offset: nat, v: Value, depth: nat)
    requires Laid(data, offset, v) && (v.Str? || v.Blob? || v.Num? || v.Bool?)
    ensures Expand(data, offset, depth) == Some(Measure(v, EndOf(offset, v)))
  {
    hide HeaderAt, Head, ExpandMany, Utf8.Valid;
    match v
    case Str(text) => PayloadRead(data, offset, 2, text);
    case Blob(bytes) => PayloadRead(data, offset, 4, bytes);
    case Num(kind, digits) => PayloadRead(data, offset, kind, digits);
    case Bool(b) => HeadRead(data, offset, 14, false, if b then 1 else 0);
  }

  // A container's field: how many items follow, and where.
  lemma ContainerRead(data: seq<byte>, offset: nat, kind: nat, extended: bool, size: nat, items: seq<byte>)
    requires (kind == 7 && size <= 256) || (kind == 11 && size <= 1024 && !extended)
    requires At(data, offset, Head(kind, extended, size) + items)
    ensures offset < |data| && At(data, offset + |Head(kind, extended, size)|, items)
    ensures HeaderAt(data, offset)
            == Container(if kind == 7 then size + size else size, offset + |Head(kind, extended, size)|)
  {
    hide HeaderAt, Head;
    AtSplit(data, offset, Head(kind, extended, size), items);
    HeadRead(data, offset, kind, extended, size);
  }

  // What is written expands, with a value counted for each key and each value
  // of a map, and ends where its own bytes end.
  lemma {:induction false} WrittenExpands(data: seq<byte>, offset: nat, v: Value, depth: nat)
    requires Laid(data, offset, v) && Height(v) <= depth
    ensures Expand(data, offset, depth) == Some(Measure(v, EndOf(offset, v)))
    decreases v, 1
  {
    hide HeaderAt, Expand, Laid, Written;
    match v
    case Map(_, _) => MapExpands(data, offset, v, depth);
    case Arr(_) => ArrExpands(data, offset, v, depth);
    case Ref(_, _, _) => RefExpands(data, offset, v, depth);
    case _ => LeafExpands(data, offset, v, depth);
  }

  lemma {:induction false} MapExpands(data: seq<byte>, offset: nat, v: Value, depth: nat)
    requires v.Map? && Laid(data, offset, v) && Height(v) <= depth
    ensures Expand(data, offset, depth) == Some(Measure(v, EndOf(offset, v)))
    decreases v, 0
  {
    hide HeaderAt, Head, Expand, ExpandMany, WrittenPairs, SoundPairs, TargetsLaidPairs, CountPairs, BytesPairs, HeightPairs, At;
    var head := Head(7, v.extended, PairCount(v.pairs));
    ContainerRead(data, offset, 7, v.extended, PairCount(v.pairs), WrittenPairs(v.pairs));
    PairsExpand(data, offset + |head|, v.pairs, depth);
    ExpandContainer(data, offset, depth);
  }

  lemma {:induction false} ArrExpands(data: seq<byte>, offset: nat, v: Value, depth: nat)
    requires v.Arr? && Laid(data, offset, v) && Height(v) <= depth
    ensures Expand(data, offset, depth) == Some(Measure(v, EndOf(offset, v)))
    decreases v, 0
  {
    hide HeaderAt, Head, Expand, ExpandMany, WrittenAll, SoundAll, TargetsLaidAll, CountAll, BytesAll, HeightAll, At;
    var head := Head(11, false, Length(v.items));
    ContainerRead(data, offset, 11, false, Length(v.items), WrittenAll(v.items));
    ItemsExpand(data, offset + |head|, v.items, depth);
    ExpandContainer(data, offset, depth);
  }

  lemma {:induction false} RefExpands(data: seq<byte>, offset: nat, v: Value, depth: nat)
    requires v.Ref? && Laid(data, offset, v) && Height(v) <= depth
    ensures Expand(data, offset, depth) == Some(Measure(v, EndOf(offset, v)))
    decreases v, 0
  {
    hide HeaderAt, Expand, PointerBytes, At, FormFits, Written, TargetsLaid, Utf8.Valid, SoundAll, SoundPairs;
    RefParts(data, offset, v);
    PointerRead(data, offset, v.form, v.at);
    WrittenExpands(data, v.at, v.target, depth - 1);
    ExpandPointer(data, offset, depth);
    RefMeasures(v, EndOf(v.at, v.target), EndOf(offset, v));
  }

  lemma RefParts(data: seq<byte>, offset: nat, v: Value)
    requires v.Ref? && Laid(data, offset, v)
    ensures FormFits(v.form, v.at) && At(data, offset, PointerBytes(v.form, v.at)) && v.at < |data|
    ensures Laid(data, v.at, v.target) && EndOf(offset, v) == offset + v.form + 1
  {
    hide PointerBytes, FormFits;
  }

  lemma RefMeasures(v: Value, targetEnd: nat, end: nat)
    requires v.Ref?
    ensures Measure(v, end) == Summary(end, 1 + Count(v.target), Bytes(v.target), 1 + Height(v.target))
    ensures Measure(v.target, targetEnd) == Summary(targetEnd, Count(v.target), Bytes(v.target), Height(v.target))
  {
  }

  lemma ExpandContainer(data: seq<byte>, offset: nat, depth: nat)
    requires offset < |data| && HeaderAt(data, offset).Container?
    ensures var h := HeaderAt(data, offset); var items := ExpandMany(data, h.start, h.count, depth);
            Expand(data, offset, depth) == if items.None? then None
              else Some(Summary(items.value.end, 1 + items.value.values, h.count * SLOT_CHARGE + items.value.bytes, items.value.height))
  {
    hide HeaderAt, ExpandMany;
  }

  lemma ExpandPointer(data: seq<byte>, offset: nat, depth: nat)
    requires offset < |data| && HeaderAt(data, offset).Pointer? && depth > 0
    ensures var h := HeaderAt(data, offset); var child := Expand(data, h.target, depth - 1);
            Expand(data, offset, depth) == if child.None? then None
              else Some(Summary(h.next, 1 + child.value.values, child.value.bytes, 1 + child.value.height))
  {
    hide HeaderAt, ExpandMany;
  }

  // The plain recursion's charge, apart from the 128 bytes for each item.
  function Inside(vs: Values): int { BytesAll(vs) - SLOT_CHARGE * Length(vs) }

  function InsidePairs(ps: Pairs): int { BytesPairs(ps) - SLOT_CHARGE * (PairCount(ps) + PairCount(ps)) }

  lemma {:induction false} ItemsCharged(vs: Values)
    ensures Inside(vs) >= 0
  {
    if vs.Cons? {
      ItemsCharged(vs.tail);
    }
  }

  lemma {:induction false} PairsCharged(ps: Pairs)
    ensures InsidePairs(ps) >= 0
  {
    if ps.Pair? {
      PairsCharged(ps.rest);
    }
  }

  lemma {:induction false} ItemsExpand(data: seq<byte>, start: nat, vs: Values, depth: nat)
    requires SoundAll(vs) && At(data, start, WrittenAll(vs)) && TargetsLaidAll(data, vs) && HeightAll(vs) <= depth
    ensures Inside(vs) >= 0
    ensures ExpandMany(data, start, Length(vs), depth)
            == Some(Summary(start + |WrittenAll(vs)|, CountAll(vs), Inside(vs), HeightAll(vs)))
    decreases vs
  {
    hide Expand, ExpandMany, Written, Count, Bytes, Height, Sound, TargetsLaid, At;
    ItemsCharged(vs);
    match vs
    case Nil => NothingMany(data, start, depth);
    case Cons(head, tail) =>
      AtSplit(data, start, Written(head), WrittenAll(tail));
      ItemsCharged(tail);
      HeadFirst(data, start, head, depth);
      ItemsExpand(data, start + |Written(head)|, tail, depth);
      OneMore(data, start, Length(tail), depth);
  }

  lemma HeadFirst(data: seq<byte>, start: nat, v: Value, depth: nat)
    requires Laid(data, start, v) && depth > 0 && Height(v) < depth
    ensures Expand(data, start, depth - 1) == Some(Summary(start + |Written(v)|, Count(v), Bytes(v), Height(v)))
    decreases v, 2
  {
    hide Expand, Laid;
    WrittenExpands(data, start, v, depth - 1);
  }

  lemma {:induction false} PairsExpand(data: seq<byte>, start: nat, ps: Pairs, depth: nat)
    requires SoundPairs(ps) && At(data, start, WrittenPairs(ps)) && TargetsLaidPairs(data, ps) && HeightPairs(ps) <= depth
    ensures InsidePairs(ps) >= 0
    ensures ExpandMany(data, start, PairCount(ps) + PairCount(ps), depth)
            == Some(Summary(start + |WrittenPairs(ps)|, CountPairs(ps), InsidePairs(ps), HeightPairs(ps)))
    decreases ps
  {
    hide Expand, ExpandMany, Written, Count, Bytes, Height, Sound, TargetsLaid, At;
    PairsCharged(ps);
    match ps
    case NoPair => NothingMany(data, start, depth);
    case Pair(key, value, rest) =>
      AtSplit(data, start, Written(key) + Written(value), WrittenPairs(rest));
      AtSplit(data, start, Written(key), Written(value));
      var second := start + |Written(key)|;
      HeadFirst(data, start, key, depth);
      HeadFirst(data, second, value, depth);
      PairsCharged(rest);
      PairsExpand(data, second + |Written(value)|, rest, depth);
      TwoMore(data, start, PairCount(rest) + PairCount(rest), depth);
  }

  lemma TwoMore(data: seq<byte>, start: nat, count: nat, depth: nat)
    requires depth > 0 && Expand(data, start, depth - 1).Some?
    requires Expand(data, Expand(data, start, depth - 1).value.end, depth - 1).Some?
    ensures var first := Expand(data, start, depth - 1).value;
            var second := Expand(data, first.end, depth - 1).value;
            var rest := ExpandMany(data, second.end, count, depth);
            ExpandMany(data, start, count + 2, depth) ==
              if rest.None? then None
              else Some(Summary(rest.value.end, first.values + second.values + rest.value.values,
                                first.bytes + second.bytes + rest.value.bytes,
                                Max(first.height + 1, Max(second.height + 1, rest.value.height))))
  {
    hide Expand, ExpandMany;
    OneMore(data, Expand(data, start, depth - 1).value.end, count, depth);
    OneMore(data, start, count + 1, depth);
  }

  lemma NothingMany(data: seq<byte>, start: nat, depth: nat)
    ensures ExpandMany(data, start, 0, depth) == Some(Summary(start, 0, 0, 0))
  {
  }

  lemma OneMore(data: seq<byte>, start: nat, count: nat, depth: nat)
    requires depth > 0 && Expand(data, start, depth - 1).Some?
    ensures var first := Expand(data, start, depth - 1).value;
            var rest := ExpandMany(data, first.end, count, depth);
            ExpandMany(data, start, count + 1, depth) ==
              if rest.None? then None else Some(Join(Under(first), rest.value))
  {
    hide Expand;
  }

  // ---------------------------------------------------------------- what expands was written

  // Any field but a pointer that the reader knows is one of the writer's.
  lemma LeafFound(data: seq<byte>, offset: nat, depth: nat) returns (v: Value)
    requires Expand(data, offset, depth).Some? && (HeaderAt(data, offset).Scalar? || HeaderAt(data, offset).Flag?)
    ensures Laid(data, offset, v) && Height(v) == 0
    ensures Expand(data, offset, depth) == Some(Measure(v, EndOf(offset, v)))
  {
    hide HeaderAt, Head, ExpandMany, Utf8.Valid;
    ClassifiedOf(data, offset);
    var kind, extended, size := HeadFound(data, offset);
    var start := offset + |Head(kind, extended, size)|;
    var payload := if kind == 14 then [] else data[start..start + size];
    AtSplit(data, offset, Head(kind, extended, size), payload);
    v := if kind == 14 then Bool(size == 1)
         else if kind == 2 then Str(payload) else if kind == 4 then Blob(payload) else Num(kind, payload);
    LeafExpands(data, offset, v, depth);
  }

  lemma ClassifiedOf(data: seq<byte>, offset: nat)
    requires offset < |data| && !HeaderAt(data, offset).Pointer? && HeaderAt(data, offset) != Malformed
    ensures data[offset] / 32 != 1
  {
    hide Classify, PointerTarget, ExtendedSize;
  }

  lemma ContainerFound(data: seq<byte>, offset: nat) returns (kind: nat, extended: bool, size: nat)
    requires offset < |data| && HeaderAt(data, offset).Container?
    ensures (kind == 7 && size <= 256) || (kind == 11 && size <= 1024 && !extended)
    ensures At(data, offset, Head(kind, extended, size))
    ensures HeaderAt(data, offset)
            == Container(if kind == 7 then size + size else size, offset + |Head(kind, extended, size)|)
  {
    hide HeaderAt, Head;
    ClassifiedOf(data, offset);
    kind, extended, size := HeadFound(data, offset);
  }

  lemma {:induction false} ExpandsWritten(data: seq<byte>, offset: nat, depth: nat) returns (v: Value)
    requires |data| <= MAX_DATABASE && Expand(data, offset, depth).Some?
    ensures Laid(data, offset, v) && Height(v) <= depth
    ensures Expand(data, offset, depth) == Some(Measure(v, EndOf(offset, v)))
    decreases depth, 1, 1
  {
    hide HeaderAt, ExpandMany, Laid, Written, Utf8.Valid;
    match HeaderAt(data, offset) {
      case Pointer(at, next) =>
        var form := PointerFound(data, offset);
        var target := ExpandsWritten(data, at, depth - 1);
        v := Ref(form, at, target);
        RefLaid(data, offset, v);
        WrittenExpands(data, offset, v, depth);
      case Container(count, start) =>
        v := ContainerWritten(data, offset, depth);
      case _ =>
        v := LeafFound(data, offset, depth);
    }
  }

  lemma RefLaid(data: seq<byte>, offset: nat, v: Value)
    requires v.Ref? && FormFits(v.form, v.at) && At(data, offset, PointerBytes(v.form, v.at)) && Laid(data, v.at, v.target)
    ensures Laid(data, offset, v)
  {
    hide PointerBytes, At;
  }

  lemma {:induction false} ContainerWritten(data: seq<byte>, offset: nat, depth: nat) returns (v: Value)
    requires |data| <= MAX_DATABASE && Expand(data, offset, depth).Some? && HeaderAt(data, offset).Container?
    ensures Laid(data, offset, v) && Height(v) <= depth
    ensures Expand(data, offset, depth) == Some(Measure(v, EndOf(offset, v)))
    decreases depth, 1, 0
  {
    hide HeaderAt, Head, ExpandMany, Expand, At;
    ExpandContainer(data, offset, depth);
    HeaderAdvances(data, offset);
    var kind, extended, size := ContainerFound(data, offset);
    var start := HeaderAt(data, offset).start;
    if kind == 7 {
      var pairs := PairsFound(data, start, size, depth);
      v := Map(pairs, extended);
      AtSplit(data, offset, Head(kind, extended, size), WrittenPairs(pairs));
    } else {
      var items := ItemsFound(data, start, size, depth);
      v := Arr(items);
      AtSplit(data, offset, Head(kind, extended, size), WrittenAll(items));
    }
    WrittenExpands(data, offset, v, depth);
  }

  lemma {:induction false} ItemsFound(data: seq<byte>, start: nat, count: nat, depth: nat) returns (vs: Values)
    requires |data| <= MAX_DATABASE && start <= |data| && ExpandMany(data, start, count, depth).Some?
    ensures Length(vs) == count && SoundAll(vs) && At(data, start, WrittenAll(vs)) && TargetsLaidAll(data, vs)
    ensures HeightAll(vs) <= depth
    ensures ExpandMany(data, start, count, depth).value.end == start + |WrittenAll(vs)|
    decreases depth, 0, count
  {
    hide Expand, Written, Height, Sound, TargetsLaid;
    if count == 0 {
      vs := Nil;
    } else {
      var head := ExpandsWritten(data, start, depth - 1);
      var tail := ItemsFound(data, start + |Written(head)|, count - 1, depth);
      vs := Cons(head, tail);
      AtSplit(data, start, Written(head), WrittenAll(tail));
    }
  }

  lemma {:induction false} PairsFound(data: seq<byte>, start: nat, count: nat, depth: nat) returns (ps: Pairs)
    requires |data| <= MAX_DATABASE && start <= |data| && ExpandMany(data, start, count + count, depth).Some?
    ensures PairCount(ps) == count && SoundPairs(ps) && At(data, start, WrittenPairs(ps)) && TargetsLaidPairs(data, ps)
    ensures HeightPairs(ps) <= depth
    ensures ExpandMany(data, start, count + count, depth).value.end == start + |WrittenPairs(ps)|
    decreases depth, 0, count + count
  {
    hide Expand, Written, Height, Sound, TargetsLaid;
    if count == 0 {
      ps := NoPair;
    } else {
      var key := ExpandsWritten(data, start, depth - 1);
      var value := ExpandsWritten(data, start + |Written(key)|, depth - 1);
      var rest := PairsFound(data, start + |Written(key)| + |Written(value)|, count - 1, depth);
      ps := Pair(key, value, rest);
      AtSplit(data, start, Written(key) + Written(value), WrittenPairs(rest));
      AtSplit(data, start, Written(key), Written(value));
    }
  }

  // A value of allowed height is written at the offset, and s measures it.
  ghost predicate Reads(data: seq<byte>, offset: nat, depth: nat, s: Summary, v: Value) {
    Laid(data, offset, v) && Height(v) <= depth && s == Summary(offset + |Written(v)|, Count(v), Bytes(v), Height(v))
  }

  // The plain recursion reports a summary exactly where the writer put a finite
  // value of allowed height, which it measures.
  lemma ExpandIffWritten(data: seq<byte>, offset: nat, depth: nat, s: Summary)
    requires |data| <= MAX_DATABASE
    ensures Expand(data, offset, depth) == Some(s) <==> exists v :: Reads(data, offset, depth, s, v)
  {
    hide Expand, Laid, Sound, Written;
    if Expand(data, offset, depth) == Some(s) {
      var v := ExpandsWritten(data, offset, depth);
      assert Reads(data, offset, depth, s, v) by { LaidSound(data, offset, v); }
    }
    forall v | Reads(data, offset, depth, s, v) ensures Expand(data, offset, depth) == Some(s) {
      LaidSound(data, offset, v);
      WrittenExpands(data, offset, v, depth);
    }
  }

  lemma LaidSound(data: seq<byte>, offset: nat, v: Value)
    requires Laid(data, offset, v)
    ensures Sound(v)
  {
  }

  // Where no depth expands, as in a pointer cycle, no finite value is written.
  lemma UnboundedHasNoValue(data: seq<byte>, offset: nat, v: Value)
    requires Unbounded(data, offset)
    ensures !Laid(data, offset, v)
  {
    hide Expand, Laid;
    if Laid(data, offset, v) {
      WrittenExpands(data, offset, v, Height(v));
    }
  }
}
