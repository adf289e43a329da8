// The kernel's side of a route message, without the parser: what each attribute
// says, and so what a whole message must be read as.
module RouteWriter {
  import opened Wrappers
  import opened DefaultRoutes

  // One attribute by what it says. Misfit is an interface, priority or table that
  // is not four bytes long.
  datatype Item =
    | Interface(n: nat)
    | Priority(n: nat)
    | Table(n: nat)
    | Multipath(nexthops: seq<byte>)
    | Nexthop(id: seq<byte>)
    | Destination(address: seq<byte>)
    | Source(address: seq<byte>)
    | Misfit(kind: nat, bytes: seq<byte>)
    | Other(kind: nat, bytes: seq<byte>)

  // Four bytes, the least significant first.
  function Little(n: nat): (s: seq<byte>)
    requires n < TWO_32
    ensures |s| == 4
  {
    [n % 256, n / 256 % 256, n / 0x1_0000 % 256, n / 0x100_0000]
  }

  predicate Fits(item: Item) {
    match item
    case Interface(n) => n < TWO_32
    case Priority(n) => n < TWO_32
    case Table(n) => n < TWO_32
    case Misfit(kind, bytes) => kind in {4, 6, 15} && |bytes| != 4
    case Other(kind, _) => kind < 0x4000 && kind !in {1, 2, 4, 6, 9, 15, 30}
    case _ => true
  }

  function AttributeOf(item: Item): Attribute
    requires Fits(item)
  {
    match item
    case Destination(address) => Attribute(1, address)
    case Source(address) => Attribute(2, address)
    case Interface(n) => Attribute(4, Little(n))
    case Priority(n) => Attribute(6, Little(n))
    case Multipath(nexthops) => Attribute(9, nexthops)
    case Table(n) => Attribute(15, Little(n))
    case Nexthop(id) => Attribute(30, id)
    case Misfit(kind, bytes) => Attribute(kind, bytes)
    case Other(kind, bytes) => Attribute(kind, bytes)
  }

  // The slots of a message say these items, in this order.
  predicate Says(slots: seq<Slot>, items: seq<Item>) {
    && AllSound(slots) && |items| == |slots|
    && (forall item :: item in items ==> Fits(item))
    && forall i :: 0 <= i < |items| ==> slots[i].attribute == AttributeOf(items[i])
  }

  // ---------------------------------------------------------------- what items mean

  // The route is not a default route: an address that is not all zero.
  predicate Elsewhere(item: Item, family: int) {
    && (item.Destination? || item.Source?)
    && |item.address| == (if family == 10 then 16 else 4) && exists i :: 0 <= i < |item.address| && item.address[i] != 0
  }

  // The attribute cannot be right.
  predicate Wrong(item: Item, family: int) {
    || ((item.Destination? || item.Source?) && |item.address| != (if family == 10 then 16 else 4))
    || (item.Interface? && item.n > 0x7FFF_FFFF)
    || item.Misfit?
  }

  // The same number is given twice.
  predicate Repeats(a: Item, b: Item) {
    (a.Interface? && b.Interface?) || (a.Priority? && b.Priority?) || (a.Table? && b.Table?)
  }

  predicate Regular(items: seq<Item>, family: int) {
    && (forall i :: 0 <= i < |items| ==> !Elsewhere(items[i], family) && !Wrong(items[i], family))
    && (forall i, j :: 0 <= i < j < |items| ==> !Repeats(items[i], items[j]))
  }

  // The numbers given, or a default.
  function InterfaceIn(items: seq<Item>, otherwise: int): int {
    if items == [] then otherwise
    else if items[0].Interface? then items[0].n else InterfaceIn(items[1..], otherwise)
  }

  function PriorityIn(items: seq<Item>, otherwise: int): int {
    if items == [] then otherwise
    else if items[0].Priority? then items[0].n else PriorityIn(items[1..], otherwise)
  }

  function TableIn(items: seq<Item>, otherwise: int): int {
    if items == [] then otherwise
    else if items[0].Table? then items[0].n else TableIn(items[1..], otherwise)
  }

  predicate Unsupported(items: seq<Item>) {
    exists i :: 0 <= i < |items| && (items[i].Multipath? || items[i].Nexthop?)
  }

  // ---------------------------------------------------------------- reading them

  lemma LittleRead(n: nat)
    requires n < TWO_32
    ensures Number32(Little(n)) == n
  {
    assert n / 0x1_0000 == n / 256 / 256;
    assert n / 0x100_0000 == n / 0x1_0000 / 256;
  }

  // Which of the numbers an item gives has been given before.
  predicate Given(facts: Facts, item: Item) {
    (item.Interface? && 4 in facts.seen) || (item.Priority? && 6 in facts.seen) || (item.Table? && 15 in facts.seen)
  }

  function Told(facts: Facts, item: Item): Facts {
    match item
    case Interface(n) => facts.(index := n, seen := facts.seen + {4})
    case Priority(n) => facts.(metric := n, seen := facts.seen + {6})
    case Table(n) => facts.(table := n, seen := facts.seen + {15})
    case Multipath(_) => facts.(unsupported := true)
    case Nexthop(_) => facts.(unsupported := true)
    case _ => facts
  }

  lemma ItemApplies(facts: Facts, family: int, item: Item)
    requires Fits(item) && !(item.Misfit? && item.kind in facts.seen)
    ensures Apply(facts, family, AttributeOf(item)) ==
      if Wrong(item, family) || Given(facts, item) then Stop(Broken)
      else if Elsewhere(item, family) then Stop(Ignored)
      else Next(Told(facts, item))
  {
    if item.Interface? || item.Priority? || item.Table? {
      LittleRead(item.n);
    }
    hide Number32, Little;
  }

  lemma MisfitBroken(facts: Facts, family: int, item: Item)
    requires Fits(item) && item.Misfit?
    ensures Apply(facts, family, AttributeOf(item)) == Stop(Broken)
  {
  }

  function AttributesOf(items: seq<Item>): (a: seq<Attribute>)
    requires forall item :: item in items ==> Fits(item)
    ensures |a| == |items|
  {
    seq(|items|, i requires 0 <= i < |items| => AttributeOf(items[i]))
  }

  ghost predicate NoneGiven(facts: Facts, items: seq<Item>) {
    forall i :: 0 <= i < |items| ==> !Given(facts, items[i])
  }

  lemma RegularTail(facts: Facts, family: int, items: seq<Item>)
    requires items != [] && Regular(items, family) && NoneGiven(facts, items)
    ensures Regular(items[1..], family) && NoneGiven(Told(facts, items[0]), items[1..])
  {
    var rest := items[1..];
    assert forall i :: 0 <= i < |rest| ==> rest[i] == items[i + 1];
    forall i | 0 <= i < |rest| ensures !Given(Told(facts, items[0]), rest[i]) {
      assert !Repeats(items[0], items[i + 1]) && !Given(facts, items[i + 1]);
    }
  }

  // Regular items leave the facts they give.
  lemma {:induction false} RegularFold(facts: Facts, family: int, items: seq<Item>)
    requires (forall item :: item in items ==> Fits(item)) && Regular(items, family) && NoneGiven(facts, items)
    ensures Fold(facts, family, AttributesOf(items)) ==
      Conclude(Facts(InterfaceIn(items, facts.index), PriorityIn(items, facts.metric), TableIn(items, facts.table),
                     facts.unsupported || Unsupported(items), {}), family)
    decreases |items|
  {
    hide Apply;
    if items != [] {
      var item, rest := items[0], items[1..];
      assert !Wrong(item, family) && !Elsewhere(item, family) && !Given(facts, item);
      ItemApplies(facts, family, item);
      RegularTail(facts, family, items);
      RegularFold(Told(facts, item), family, rest);
      assert AttributesOf(items)[0] == AttributeOf(item) && AttributesOf(items)[1..] == AttributesOf(rest);
      GivenOnce(items, family);
      UnsupportedTail(items);
    }
  }

  lemma UnsupportedTail(items: seq<Item>)
    requires items != []
    ensures Unsupported(items) <==> items[0].Multipath? || items[0].Nexthop? || Unsupported(items[1..])
  {
    var rest := items[1..];
    assert forall i :: 0 <= i < |rest| ==> rest[i] == items[i + 1];
    if Unsupported(items) {
      var i :| 0 <= i < |items| && (items[i].Multipath? || items[i].Nexthop?);
      assert i > 0 ==> rest[i - 1] == items[i];
    }
    if Unsupported(rest) {
      var i :| 0 <= i < |rest| && (rest[i].Multipath? || rest[i].Nexthop?);
      assert items[i + 1] == rest[i];
    }
  }

  // A number given first is not given again.
  lemma GivenOnce(items: seq<Item>, family: int)
    requires items != [] && Regular(items, family)
    ensures items[0].Interface? ==> forall n :: InterfaceIn(items[1..], n) == n
    ensures items[0].Priority? ==> forall n :: PriorityIn(items[1..], n) == n
    ensures items[0].Table? ==> forall n :: TableIn(items[1..], n) == n
  {
    forall i | 0 < i < |items| ensures !Repeats(items[0], items[i]) {
    }
    assert forall i :: 0 <= i < |items| - 1 ==> items[1..][i] == items[i + 1];
    if items[0].Interface? {
      NotIn(items[1..]);
    } else if items[0].Priority? {
      NotIn(items[1..]);
    } else if items[0].Table? {
      NotIn(items[1..]);
    }
  }

  lemma {:induction false} NotIn(items: seq<Item>)
    ensures (forall i :: 0 <= i < |items| ==> !items[i].Interface?) ==> forall n :: InterfaceIn(items, n) == n
    ensures (forall i :: 0 <= i < |items| ==> !items[i].Priority?) ==> forall n :: PriorityIn(items, n) == n
    ensures (forall i :: 0 <= i < |items| ==> !items[i].Table?) ==> forall n :: TableIn(items, n) == n
    decreases |items|
  {
    if items != [] {
      NotIn(items[1..]);
      assert forall i :: 0 <= i < |items| - 1 ==> items[1..][i] == items[i + 1];
    }
  }

  // The first item out of order settles the result, whatever follows it.
  lemma {:induction false} FirstIrregular(facts: Facts, family: int, items: seq<Item>, k: nat)
    requires (forall item :: item in items ==> Fits(item)) && k < |items|
    requires Regular(items[..k], family) && NoneGiven(facts, items[..k])
    requires Elsewhere(items[k], family) || Wrong(items[k], family)
             || Given(facts, items[k]) || exists i :: 0 <= i < k && Repeats(items[i], items[k])
    ensures Fold(facts, family, AttributesOf(items)) ==
      if Elsewhere(items[k], family) then Ignored else Broken
    decreases k
  {
    hide Apply;
    var item, rest := items[0], items[1..];
    assert AttributesOf(items)[0] == AttributeOf(item) && AttributesOf(items)[1..] == AttributesOf(rest);
    if k == 0 {
      if item.Misfit? {
        MisfitBroken(facts, family, item);
      } else {
        ItemApplies(facts, family, item);
      }
    } else {
      assert items[..k][0] == item && items[..k][1..] == rest[..k - 1] && rest[k - 1] == items[k];
      assert !Wrong(items[..k][0], family) && !Elsewhere(items[..k][0], family) && !Given(facts, items[..k][0]);
      ItemApplies(facts, family, item);
      RegularTail(facts, family, items[..k]);
      if Given(facts, items[k]) || exists i :: 0 <= i < k && Repeats(items[i], items[k]) {
        GivenOrRepeated(facts, items, k);
      }
      FirstIrregular(Told(facts, item), family, rest, k - 1);
    }
  }

  lemma GivenOrRepeated(facts: Facts, items: seq<Item>, k: nat)
    requires 0 < k < |items|
    requires Given(facts, items[k]) || exists i :: 0 <= i < k && Repeats(items[i], items[k])
    ensures Given(Told(facts, items[0]), items[k])
            || exists i :: 0 <= i < k - 1 && Repeats(items[1..][i], items[1..][k - 1])
  {
    if !Given(Told(facts, items[0]), items[k]) {
      var i :| 0 <= i < k && Repeats(items[i], items[k]);
      assert i > 0;
      assert items[1..][i - 1] == items[i] && items[1..][k - 1] == items[k];
    }
  }

  // ---------------------------------------------------------------- whole messages

  // A number that is given is the one read, wherever among the items it stands.
  lemma {:induction false} GivenRead(items: seq<Item>, family: int, i: nat, otherwise: int)
    requires Regular(items, family) && i < |items|
    ensures items[i].Interface? ==> InterfaceIn(items, otherwise) == items[i].n
    ensures items[i].Priority? ==> PriorityIn(items, otherwise) == items[i].n
    ensures items[i].Table? ==> TableIn(items, otherwise) == items[i].n
    decreases i
  {
    if i > 0 {
      assert !Repeats(items[0], items[i]);
      var rest := items[1..];
      assert forall j :: 0 <= j < |rest| ==> rest[j] == items[j + 1];
      GivenRead(rest, family, i - 1, otherwise);
    }
  }

  // A unicast route with no prefix lengths and no type of service, not a clone.
  predicate Plain(header: seq<byte>) {
    && |header| == 12 && header[0] in {2, 10} && header[1] == header[2] == header[3] == 0
    && header[7] == 1 && header[9] / 2 % 2 == 0
  }

  // What a message of regular items says: a default route if its table is the
  // main one and it names an interface or is of an unsupported kind.
  function Meaning(header: seq<byte>, items: seq<Item>): Parsed
    requires |header| == 12
  {
    var index := InterfaceIn(items, 0);
    if TableIn(items, header[4]) == 254 && (index > 0 || Unsupported(items))
    then Default(header[0], Candidate(index, PriorityIn(items, 0), Unsupported(items)))
    else Ignored
  }

  // A message whose items are regular is read as exactly what they say; otherwise
  // the first irregular one decides: an address ignores the route, anything else
  // breaks the message.
  lemma MessageRead(header: seq<byte>, slots: seq<Slot>, items: seq<Item>)
    requires Plain(header) && Says(slots, items)
    ensures Regular(items, header[0]) ==> ParseMessage(header + Serialise(slots)) == Meaning(header, items)
    ensures forall k :: 0 <= k < |items| && Regular(items[..k], header[0]) ==>
      && (Elsewhere(items[k], header[0]) ==> ParseMessage(header + Serialise(slots)) == Ignored)
      && (Wrong(items[k], header[0]) || (exists i :: 0 <= i < k && Repeats(items[i], items[k])) ==>
            ParseMessage(header + Serialise(slots)) == Broken)
  {
    hide ParseMessage, Serialise, Fold, AttributeOf;
    var facts := Facts(0, 0, header[4], false, {});
    FlagsPlain(header);
    MessageSerialised(header, slots);
    assert Attributes(slots) == AttributesOf(items);
    if Regular(items, header[0]) {
      RegularFold(facts, header[0], items);
    }
    forall k | 0 <= k < |items| && Regular(items[..k], header[0])
      && (Elsewhere(items[k], header[0]) || Wrong(items[k], header[0]) || exists i :: 0 <= i < k && Repeats(items[i], items[k]))
      ensures Fold(facts, header[0], AttributesOf(items)) == if Elsewhere(items[k], header[0]) then Ignored else Broken
    {
      FirstIrregular(facts, header[0], items, k);
    }
  }

  lemma FlagsPlain(header: seq<byte>)
    requires |header| == 12
    ensures Number32(header[8..12]) / RTM_F_CLONED % 2 == header[9] / 2 % 2
  {
    var low, high := header[8] as int + header[9] as int * 256, header[10] as int + header[11] as int * 256;
    assert Number32(header[8..12]) == low + high * 0x1_0000;
    assert (low + high * 0x1_0000) / 512 == low / 512 + high * 128;
    assert low / 512 == header[9] as int / 2;
  }

  // Any other header is ignored, and a short one is broken.
  lemma HeaderRead(data: seq<byte>)
    ensures |data| < 12 ==> ParseMessage(data) == Broken
    ensures |data| >= 12 && !Plain(data[..12]) ==> ParseMessage(data) == Ignored
  {
    if |data| >= 12 {
      FlagsPlain(data[..12]);
      assert data[8..12] == data[..12][8..12];
    }
  }
}
