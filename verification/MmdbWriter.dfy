// The writer's side of the data section ("Data Field Format" of the MaxMind DB
// File Format Specification), without the reader: control bytes, extended kinds
// and sizes, the four pointer forms, and the bytes of whole values.
module MmdbWriter {
  import opened Wrappers
  import Utf8

  // A pointer carries where it points and the value written there. A map's kind
  // can be named by the control byte or, as kinds above 7 must be, by a byte of
  // its own. Numbers are kept as their bytes.
  datatype Value =
    | Str(text: seq<byte>)
    | Blob(bytes: seq<byte>)
    | Num(kind: nat, digits: seq<byte>)
    | Bool(b: bool)
    | Map(pairs: Pairs, extended: bool)
    | Arr(items: Values)
    | Ref(form: nat, at: nat, target: Value)
  datatype Values = Nil | Cons(head: Value, tail: Values)
  datatype Pairs = NoPair | Pair(key: Value, value: Value, rest: Pairs)

  function Length(vs: Values): nat {
    match vs case Nil => 0 case Cons(_, tail) => 1 + Length(tail)
  }

  function PairCount(ps: Pairs): nat {
    match ps case NoPair => 0 case Pair(_, _, rest) => 1 + PairCount(rest)
  }

  // ---------------------------------------------------------------- measures

  // Number of values a reader decodes: every key and every value of a map, and
  // what a pointer leads to.
  function Count(v: Value): (n: nat)
    ensures n >= 1
  {
    match v
    case Map(pairs, _) => 1 + CountPairs(pairs)
    case Arr(items) => 1 + CountAll(items)
    case Ref(_, _, target) => 1 + Count(target)
    case _ => 1
  }

  function CountAll(vs: Values): nat {
    match vs case Nil => 0 case Cons(head, tail) => Count(head) + CountAll(tail)
  }

  function CountPairs(ps: Pairs): nat {
    match ps case NoPair => 0 case Pair(key, value, rest) => Count(key) + Count(value) + CountPairs(rest)
  }

  // Bytes charged: the payload, and 128 for each item, key and value.
  function Bytes(v: Value): nat {
    match v
    case Str(text) => |text|
    case Blob(bytes) => |bytes|
    case Num(_, digits) => |digits|
    case Bool(_) => 0
    case Map(pairs, _) => BytesPairs(pairs)
    case Arr(items) => BytesAll(items)
    case Ref(_, _, target) => Bytes(target)
  }

  function BytesAll(vs: Values): nat {
    match vs case Nil => 0 case Cons(head, tail) => 128 + Bytes(head) + BytesAll(tail)
  }

  function BytesPairs(ps: Pairs): nat {
    match ps case NoPair => 0 case Pair(key, value, rest) => 128 + Bytes(key) + 128 + Bytes(value) + BytesPairs(rest)
  }

  // How deep a value nests, pointers included.
  function Height(v: Value): nat {
    match v
    case Map(pairs, _) => HeightPairs(pairs)
    case Arr(items) => HeightAll(items)
    case Ref(_, _, target) => 1 + Height(target)
    case _ => 0
  }

  function HeightAll(vs: Values): nat {
    match vs case Nil => 0 case Cons(head, tail) => Max(1 + Height(head), HeightAll(tail))
  }

  function HeightPairs(ps: Pairs): nat {
    match ps
    case NoPair => 0
    case Pair(key, value, rest) => Max(1 + Height(key), Max(1 + Height(value), HeightPairs(rest)))
  }

  // ---------------------------------------------------------------- bytes

  // How many bytes a number of each kind takes: a double 8, 16, 32 and signed 32
  // bits up to 2, 4 and 4, 64 and 128 bits up to 8 and 16, a float 4.
  predicate NumberFits(kind: nat, size: nat) {
    || (kind == 3 && size == 8) || (kind == 5 && size <= 2) || (kind == 6 && size <= 4) || (kind == 8 && size <= 4)
    || (kind == 9 && size <= 8) || (kind == 10 && size <= 16) || (kind == 15 && size == 4)
  }

  // The targets that each pointer form can hold; the second and third continue
  // where the one before ends.
  predicate FormFits(form: nat, at: nat) {
    || (form == 1 && at < 2048)
    || (form == 2 && 2048 <= at < 526336)
    || (form == 3 && 526336 <= at < 134744064)
    || (form == 4 && at < TWO_32)
  }

  predicate Sound(v: Value) {
    match v
    case Str(text) => |text| <= 65536 && Utf8.Valid(text)
    case Blob(bytes) => |bytes| <= 65536
    case Num(kind, digits) => NumberFits(kind, |digits|)
    case Bool(_) => true
    case Map(pairs, _) => PairCount(pairs) <= 256 && SoundPairs(pairs)
    case Arr(items) => Length(items) <= 1024 && SoundAll(items)
    case Ref(form, at, target) => FormFits(form, at) && Sound(target)
  }

  predicate SoundAll(vs: Values) {
    match vs case Nil => true case Cons(head, tail) => Sound(head) && SoundAll(tail)
  }

  predicate SoundPairs(ps: Pairs) {
    match ps case NoPair => true case Pair(key, value, rest) => Sound(key) && Sound(value) && SoundPairs(rest)
  }

  const SIZE_LIMIT: nat := 65821 + 0x100_0000

  // The five size bits of the control byte, and the size's own bytes: up to 28 in
  // the control byte, from 29 in one more byte, from 285 in two, from 65821 in three.
  function SizeBits(size: nat): (bits: nat)
    ensures bits < 32
  {
    if size < 29 then size else if size < 285 then 29 else if size < 65821 then 30 else 31
  }

  function SizeBytes(size: nat): seq<byte>
    requires size < SIZE_LIMIT
  {
    if size < 29 then []
    else if size < 285 then [size - 29]
    else if size < 65821 then [(size - 285) / 256, (size - 285) % 256]
    else [(size - 65821) / 0x1_0000, (size - 65821) / 256 % 256, (size - 65821) % 256]
  }

  // A field's bytes before its payload.
  function Head(kind: nat, extended: bool, size: nat): (bytes: seq<byte>)
    requires 2 <= kind < 263 && size < SIZE_LIMIT && (extended ==> kind == 7)
    ensures |bytes| >= 1
  {
    (if kind <= 7 && !extended then [32 * kind + SizeBits(size)] else [SizeBits(size), kind - 7]) + SizeBytes(size)
  }

  function PointerBytes(form: nat, at: nat): (bytes: seq<byte>)
    requires FormFits(form, at)
    ensures |bytes| == form + 1
  {
    if form == 1 then [32 + at / 256, at % 256]
    else if form == 2 then
      var n := at - 2048;
      [40 + n / 0x1_0000, n / 256 % 256, n % 256]
    else if form == 3 then
      var n := at - 526336;
      [48 + n / 0x100_0000, n / 0x1_0000 % 256, n / 256 % 256, n % 256]
    else [56, at / 0x100_0000, at / 0x1_0000 % 256, at / 256 % 256, at % 256]
  }

  function Written(v: Value): (bytes: seq<byte>)
    requires Sound(v)
    ensures |bytes| >= 1
  {
    match v
    case Str(text) => Head(2, false, |text|) + text
    case Blob(bytes) => Head(4, false, |bytes|) + bytes
    case Num(kind, digits) => Head(kind, false, |digits|) + digits
    case Bool(b) => Head(14, false, if b then 1 else 0)
    case Map(pairs, extended) => Head(7, extended, PairCount(pairs)) + WrittenPairs(pairs)
    case Arr(items) => Head(11, false, Length(items)) + WrittenAll(items)
    case Ref(form, at, _) => PointerBytes(form, at)
  }

  function WrittenAll(vs: Values): seq<byte>
    requires SoundAll(vs)
  {
    match vs case Nil => [] case Cons(head, tail) => Written(head) + WrittenAll(tail)
  }

  // Keys and values take turns.
  function WrittenPairs(ps: Pairs): seq<byte>
    requires SoundPairs(ps)
  {
    match ps
    case NoPair => []
    case Pair(key, value, rest) => Written(key) + Written(value) + WrittenPairs(rest)
  }

  // ---------------------------------------------------------------- where values lie

  predicate At(data: seq<byte>, offset: int, bytes: seq<byte>) {
    0 <= offset <= offset + |bytes| <= |data| && data[offset..offset + |bytes|] == bytes
  }

  lemma AtSplit(data: seq<byte>, offset: int, a: seq<byte>, b: seq<byte>)
    ensures At(data, offset, a + b) <==> At(data, offset, a) && At(data, offset + |a|, b)
  {
    if At(data, offset, a + b) {
      assert data[offset..offset + |a|] == data[offset..offset + |a + b|][..|a|];
      assert data[offset + |a|..offset + |a| + |b|] == data[offset..offset + |a + b|][|a|..];
    }
    if At(data, offset, a) && At(data, offset + |a|, b) {
      assert data[offset..offset + |a + b|] == data[offset..offset + |a|] + data[offset + |a|..offset + |a| + |b|];
    }
  }

  // The value is written at the offset, and what it points to where it points.
  predicate Laid(data: seq<byte>, offset: int, v: Value) {
    Sound(v) && At(data, offset, Written(v)) && TargetsLaid(data, v)
  }

  predicate TargetsLaid(data: seq<byte>, v: Value)
    requires Sound(v)
  {
    match v
    case Map(pairs, _) => TargetsLaidPairs(data, pairs)
    case Arr(items) => TargetsLaidAll(data, items)
    case Ref(_, at, target) => At(data, at, Written(target)) && TargetsLaid(data, target)
    case _ => true
  }

  predicate TargetsLaidAll(data: seq<byte>, vs: Values)
    requires SoundAll(vs)
  {
    match vs case Nil => true case Cons(head, tail) => TargetsLaid(data, head) && TargetsLaidAll(data, tail)
  }

  predicate TargetsLaidPairs(data: seq<byte>, ps: Pairs)
    requires SoundPairs(ps)
  {
    match ps
    case NoPair => true
    case Pair(key, value, rest) =>
      TargetsLaid(data, key) && TargetsLaid(data, value) && TargetsLaidPairs(data, rest)
  }
}
