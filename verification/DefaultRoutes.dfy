// routes_linux.go: reading one route message and choosing the default links.
module DefaultRoutes {
  import opened Wrappers
  import opened Sorting

  const AF_INET: int := 2
  const AF_INET6: int := 10
  const HEADER: nat := 12
  const RTN_UNICAST: int := 1
  const RTM_F_CLONED: int := 0x200
  const RT_TABLE_MAIN: int := 254
  const RTA_DST: int := 1
  const RTA_SRC: int := 2
  const RTA_OIF: int := 4
  const RTA_PRIORITY: int := 6
  const RTA_MULTIPATH: int := 9
  const RTA_TABLE: int := 15
  const RTA_NH_ID: int := 30

  datatype Candidate = Candidate(index: int, metric: int, unsupported: bool)

  datatype Parsed = Broken | Ignored | Default(family: int, route: Candidate)

  // ---------------------------------------------------------------- attributes

  datatype Attribute = Attribute(kind: nat, payload: seq<byte>)

  predicate WellFormed(a: Attribute) { a.kind < 0x4000 && |a.payload| + 4 < 0x1_0000 }

  // What has been learned from the attributes read so far.
  datatype Facts = Facts(index: int, metric: int, table: int, unsupported: bool, seen: set<int>)

  datatype Step = Next(facts: Facts) | Stop(parsed: Parsed)

  // Little-endian numbers, the native order of the supported machines.
  function Number16(s: seq<byte>): nat
    requires |s| == 2
  {
    s[0] as int + s[1] as int * 256
  }

  function Number32(s: seq<byte>): (n: nat)
    requires |s| == 4
    ensures n < TWO_32
  {
    s[0] as int + s[1] as int * 0x100 + s[2] as int * 0x1_0000 + s[3] as int * 0x100_0000
  }

  predicate AllZero(s: seq<byte>) { forall i :: 0 <= i < |s| ==> s[i] == 0 }

  // The meaning of one attribute.
  function Apply(facts: Facts, family: int, a: Attribute): Step {
    if a.kind in {RTA_OIF, RTA_PRIORITY, RTA_TABLE} then
      if |a.payload| != 4 || a.kind in facts.seen then Stop(Broken)
      else
        var n := Number32(a.payload);
        var known := facts.(seen := facts.seen + {a.kind});
        if a.kind == RTA_OIF then (if n > 0x7FFF_FFFF then Stop(Broken) else Next(known.(index := n)))
        else if a.kind == RTA_PRIORITY then Next(known.(metric := n))
        else Next(known.(table := n))
    else if a.kind in {RTA_MULTIPATH, RTA_NH_ID} then Next(facts.(unsupported := true))
    else if a.kind in {RTA_DST, RTA_SRC} then
      if |a.payload| != (if family == AF_INET6 then 16 else 4) then Stop(Broken)
      else if AllZero(a.payload) then Next(facts) else Stop(Ignored)
    else Next(facts)
  }

  function Conclude(facts: Facts, family: int): Parsed {
    if facts.table == RT_TABLE_MAIN && (facts.index > 0 || facts.unsupported)
    then Default(family, Candidate(facts.index, facts.metric, facts.unsupported)) else Ignored
  }

  function Fold(facts: Facts, family: int, attributes: seq<Attribute>): Parsed
    decreases |attributes|
  {
    if attributes == [] then Conclude(facts, family)
    else
      match Apply(facts, family, attributes[0])
      case Stop(parsed) => parsed
      case Next(facts') => Fold(facts', family, attributes[1..])
  }

  function Aligned(length: nat): nat { (length + 3) / 4 * 4 }

  // The attributes of a byte string, each interpreted as it is read. Only the
  // last one may lack its padding, and is interpreted before that is checked.
  function ReadAll(facts: Facts, family: int, bytes: seq<byte>): Parsed
    decreases |bytes|
  {
    if bytes == [] then Conclude(facts, family)
    else if |bytes| < 4 then Broken
    else
      var length, kind := Number16(bytes[..2]), Number16(bytes[2..4]) % 0x4000;
      if length < 4 || length > |bytes| then Broken
      else
        match Apply(facts, family, Attribute(kind, bytes[4..length]))
        case Stop(parsed) => parsed
        case Next(facts') =>
          if Aligned(length) <= |bytes| then ReadAll(facts', family, bytes[Aligned(length)..])
          else if length == |bytes| then Conclude(facts', family)
          else Broken
  }

  function ParseMessage(data: seq<byte>): Parsed {
    if |data| < HEADER then Broken
    else if (data[0] != AF_INET && data[0] != AF_INET6) || data[1] != 0 || data[2] != 0 || data[3] != 0
            || data[7] != RTN_UNICAST then Ignored
    else if Number32(data[8..12]) / RTM_F_CLONED % 2 != 0 then Ignored
    else ReadAll(Facts(0, 0, data[4], false, {}), data[0], data[HEADER..])
  }

  method ParseDefaultRoute(data: seq<byte>) returns (r: Parsed)
    ensures r == ParseMessage(data)
  {
    hide Apply;
    if |data| < HEADER {
      return Broken;
    }
    var family := data[0];
    if (family != AF_INET && family != AF_INET6) || data[1] != 0 || data[2] != 0 || data[3] != 0
       || data[7] != RTN_UNICAST {
      return Ignored;
    }
    if Number32(data[8..12]) / RTM_F_CLONED % 2 != 0 {
      return Ignored;
    }
    var attrs := data[HEADER..];
    var facts := Facts(0, 0, data[4], false, {});
    ghost var meaning := ReadAll(facts, family, attrs);
    while |attrs| > 0
      invariant ReadAll(facts, family, attrs) == meaning
      decreases |attrs|
    {
      if |attrs| < 4 {
        return Broken;
      }
      var length := Number16(attrs[..2]);
      var kind := Number16(attrs[2..4]) % 0x4000;
      if length < 4 || length > |attrs| {
        return Broken;
      }
      var step := Interpret(facts, family, kind, attrs[4..length]);
      if step.Stop? {
        return step.parsed;
      }
      facts := step.facts;
      var aligned := Aligned(length);
      if aligned > |attrs| {
        if length != |attrs| {
          return Broken;
        }
        aligned := length;
      }
      attrs := attrs[aligned..];
    }
    return Conclude(facts, family);
  }

  // The switch on the attribute's kind.
  method Interpret(facts: Facts, family: int, kind: nat, value: seq<byte>) returns (step: Step)
    ensures step == Apply(facts, family, Attribute(kind, value))
  {
    if kind == RTA_OIF || kind == RTA_PRIORITY || kind == RTA_TABLE {
      if |value| != 4 || kind in facts.seen {
        return Stop(Broken);
      }
      var known := facts.(seen := facts.seen + {kind});
      var number := Number32(value);
      if kind == RTA_OIF {
        if number > 0x7FFF_FFFF {
          return Stop(Broken);
        }
        known := known.(index := number);
      } else if kind == RTA_PRIORITY {
        known := known.(metric := number);
      } else {
        known := known.(table := number);
      }
      return Next(known);
    } else if kind == RTA_MULTIPATH || kind == RTA_NH_ID {
      return Next(facts.(unsupported := true));
    } else if kind == RTA_DST || kind == RTA_SRC {
      var want := 4;
      if family == AF_INET6 {
        want := 16;
      }
      if |value| != want {
        return Stop(Broken);
      }
      for i := 0 to |value|
        invariant forall j :: 0 <= j < i ==> value[j] == 0
      {
        if value[i] != 0 {
          return Stop(Ignored);
        }
      }
    }
    return Next(facts);
  }

  // ---------------------------------------------------------------- round trip

  function Bytes16(n: nat): (s: seq<byte>)
    requires n < 0x1_0000
    ensures |s| == 2 && Number16(s) == n
  {
    [n % 256, n / 256]
  }

  // One attribute as laid out in a message: two flag bits above its kind, and
  // whatever bytes pad it.
  datatype Slot = Slot(attribute: Attribute, flags: nat, padding: seq<byte>)

  predicate Sound(slot: Slot, last: bool) {
    && WellFormed(slot.attribute) && slot.flags < 4
    && (|slot.padding| == Aligned(4 + |slot.attribute.payload|) - 4 - |slot.attribute.payload|
        || (last && slot.padding == []))
  }

  // Every attribute is padded to four bytes; the last one's padding is optional.
  predicate AllSound(slots: seq<Slot>) {
    forall i :: 0 <= i < |slots| ==> Sound(slots[i], i == |slots| - 1)
  }

  function Encode(slot: Slot): (s: seq<byte>)
    requires WellFormed(slot.attribute) && slot.flags < 4
    ensures |s| == 4 + |slot.attribute.payload| + |slot.padding|
  {
    Bytes16(4 + |slot.attribute.payload|) + Bytes16(slot.attribute.kind + slot.flags * 0x4000)
    + slot.attribute.payload + slot.padding
  }

  function Serialise(slots: seq<Slot>): seq<byte>
    requires AllSound(slots)
    decreases |slots|
  {
    if slots == [] then [] else Encode(slots[0]) + Serialise(Rest(slots))
  }

  function Rest(slots: seq<Slot>): (r: seq<Slot>)
    requires slots != [] && AllSound(slots)
    ensures AllSound(r) && |r| == |slots| - 1
  {
    assert forall i :: 0 <= i < |slots| - 1 ==> slots[1..][i] == slots[i + 1];
    slots[1..]
  }

  function Attributes(slots: seq<Slot>): (a: seq<Attribute>)
    ensures |a| == |slots|
  {
    seq(|slots|, i requires 0 <= i < |slots| => slots[i].attribute)
  }

  // Parsing what was serialised is the fold over the attributes.
  lemma {:induction false} ParseSerialised(facts: Facts, family: int, slots: seq<Slot>)
    requires AllSound(slots)
    ensures ReadAll(facts, family, Serialise(slots)) == Fold(facts, family, Attributes(slots))
    decreases |slots|
  {
    hide Apply, Conclude;
    if slots != [] {
      var a, rest := slots[0].attribute, Serialise(Rest(slots));
      var bytes := Serialise(slots);
      EncodedHead(slots[0], rest);
      assert Attributes(slots)[1..] == Attributes(Rest(slots));
      match Apply(facts, family, a)
      case Stop(_) =>
      case Next(facts') =>
        ParseSerialised(facts', family, Rest(slots));
        if Aligned(4 + |a.payload|) <= |bytes| {
          assert bytes[Aligned(4 + |a.payload|)..] == rest;
        } else {
          assert Rest(slots) == [];
        }
    }
  }

  lemma EncodedHead(slot: Slot, rest: seq<byte>)
    requires WellFormed(slot.attribute) && slot.flags < 4
    ensures var a, bytes := slot.attribute, Encode(slot) + rest;
            && |bytes| >= 4 && Number16(bytes[..2]) == 4 + |a.payload| && Number16(bytes[2..4]) % 0x4000 == a.kind
            && 4 + |a.payload| <= |bytes| && bytes[4..4 + |a.payload|] == a.payload
  {
    var bytes := Encode(slot) + rest;
    assert bytes[..2] == Bytes16(4 + |slot.attribute.payload|);
    assert bytes[2..4] == Bytes16(slot.attribute.kind + slot.flags * 0x4000);
  }

  // Conversely, whatever is read without being found broken is a serialised list
  // of attributes whose fold is the result; bytes are left over only where an
  // last attribute, and no earlier one, made the route one to ignore.
  lemma {:induction false} ReadIsSerialised(facts: Facts, family: int, bytes: seq<byte>)
    returns (slots: seq<Slot>, left: seq<byte>)
    requires ReadAll(facts, family, bytes) != Broken
    ensures AllSound(slots) && bytes == Serialise(slots) + left
    ensures ReadAll(facts, family, bytes) == Fold(facts, family, Attributes(slots))
    ensures left != [] ==> ReadAll(facts, family, bytes) == Ignored && Halts(facts, family, Attributes(slots))
    decreases |bytes|
  {
    hide Apply, Conclude, Number16, Bytes16, Serialise, Encode, Fold, Attributes;
    FoldSteps(facts, family, []);
    NothingLaidOut();
    slots, left := [], bytes;
    if bytes != [] {
      HeadBounds(bytes);
      var length, head := Number16(bytes[..2]), Number16(bytes[2..4]);
      var a := Attribute(head % 0x4000, bytes[4..length]);
      var slot := Slot(a, head / 0x4000, []);
      StopsIgnored(facts, family, a);
      var more: seq<Slot> := [];
      match Apply(facts, family, a) {
        case Stop(_) =>
          left := bytes[length..];
          assert Serialise(more) + left == left;
        case Next(facts') =>
          if Aligned(length) <= |bytes| {
            more, left := ReadIsSerialised(facts', family, bytes[Aligned(length)..]);
            slot := slot.(padding := bytes[length..Aligned(length)]);
          } else {
            left := [];
            assert length == |bytes| && Serialise(more) + left == [];
            FoldSteps(facts', family, []);
          }
      }
      assert bytes[4..] == a.payload + slot.padding + (Serialise(more) + left);
      DecodedHead(bytes, slot, Serialise(more) + left);
      slots := [slot] + more;
      OneMore(slot, more, left);
      FoldSteps(facts, family, Attributes(slots));
      assert Attributes(slots)[1..] == Attributes(more);
    }
  }

  // The last of these attributes, and none before it, settles the result early.
  predicate Halts(facts: Facts, family: int, attributes: seq<Attribute>)
    decreases |attributes|
  {
    attributes != [] &&
    match Apply(facts, family, attributes[0])
    case Stop(_) => |attributes| == 1
    case Next(facts') => Halts(facts', family, attributes[1..])
  }

  lemma NothingLaidOut()
    ensures Attributes([]) == [] && Serialise([]) == []
  {
  }

  lemma HeadBounds(bytes: seq<byte>)
    requires |bytes| >= 4
    ensures Number16(bytes[..2]) < 0x1_0000 && Number16(bytes[2..4]) < 0x1_0000
  {
  }

  lemma FoldSteps(facts: Facts, family: int, attributes: seq<Attribute>)
    ensures Fold(facts, family, attributes) ==
      if attributes == [] then Conclude(facts, family)
      else match Apply(facts, family, attributes[0])
           case Stop(parsed) => parsed
           case Next(facts') => Fold(facts', family, attributes[1..])
  {
  }

  lemma SerialiseHead(slots: seq<Slot>)
    requires AllSound(slots) && slots != []
    ensures WellFormed(slots[0].attribute) && slots[0].flags < 4
    ensures Serialise(slots) == Encode(slots[0]) + Serialise(Rest(slots))
  {
    assert Sound(slots[0], 0 == |slots| - 1);
  }

  lemma OneMore(slot: Slot, more: seq<Slot>, left: seq<byte>)
    requires AllSound(more) && Sound(slot, more == [])
    ensures AllSound([slot] + more)
    ensures Serialise([slot] + more) + left == Encode(slot) + (Serialise(more) + left)
    ensures Attributes([slot] + more) == [slot.attribute] + Attributes(more)
  {
    hide Encode, Sound;
    var slots := [slot] + more;
    assert slots[0] == slot && forall i :: 0 <= i < |more| ==> slots[i + 1] == more[i];
    assert AllSound(slots) by {
      forall i | 0 <= i < |slots| ensures Sound(slots[i], i == |slots| - 1) {
        assert i > 0 ==> slots[i] == more[i - 1];
      }
    }
    assert Rest(slots) == more && slots[1..] == more;
    SerialiseHead(slots);
    assert Attributes(slots) == [slot.attribute] + Attributes(more);
  }

  lemma StopsIgnored(facts: Facts, family: int, a: Attribute)
    ensures Apply(facts, family, a).Stop? ==> Apply(facts, family, a).parsed in {Broken, Ignored}
  {
  }

  // The bytes of an attribute are its encoding.
  lemma DecodedHead(bytes: seq<byte>, slot: Slot, rest: seq<byte>)
    requires |bytes| >= 4 && WellFormed(slot.attribute) && slot.flags < 4
    requires Number16(bytes[..2]) == 4 + |slot.attribute.payload|
    requires Number16(bytes[2..4]) == slot.attribute.kind + slot.flags * 0x4000
    requires bytes[4..] == slot.attribute.payload + slot.padding + rest
    ensures bytes == Encode(slot) + rest
  {
    Number16Unique(bytes[..2], Bytes16(4 + |slot.attribute.payload|));
    Number16Unique(bytes[2..4], Bytes16(slot.attribute.kind + slot.flags * 0x4000));
    assert bytes == bytes[..2] + bytes[2..4] + bytes[4..];
  }

  lemma Number16Unique(a: seq<byte>, b: seq<byte>)
    requires |a| == |b| == 2 && Number16(a) == Number16(b)
    ensures a == b
  {
  }

  // A whole default-route message: unicast, no prefix lengths, not a clone.
  lemma MessageSerialised(header: seq<byte>, slots: seq<Slot>)
    requires |header| == HEADER && AllSound(slots)
    requires header[0] in {AF_INET, AF_INET6} && header[1] == header[2] == header[3] == 0
    requires header[7] == RTN_UNICAST && Number32(header[8..12]) / RTM_F_CLONED % 2 == 0
    ensures ParseMessage(header + Serialise(slots))
            == Fold(Facts(0, 0, header[4], false, {}), header[0], Attributes(slots))
  {
    hide Apply, Conclude, ReadAll, Serialise;
    var data := header + Serialise(slots);
    assert data[HEADER..] == Serialise(slots) && data[8..12] == header[8..12];
    ParseSerialised(Facts(0, 0, header[4], false, {}), header[0], slots);
  }

  // ---------------------------------------------------------------- selection

  datatype Link = Link(index: int, name: string, up: bool, loopback: bool, validName: bool)

  datatype Ref = Ref(index: int, name: string)

  // Preference within one family.
  predicate Before(a: Candidate, b: Candidate) {
    a.metric < b.metric
    || (a.metric == b.metric
        && (a.index < b.index || (a.index == b.index && (a.unsupported || !b.unsupported))))
  }

  predicate Usable(c: Candidate, lookup: int -> Option<Link>) {
    && !c.unsupported && lookup(c.index).Some?
    && (var l := lookup(c.index).value; l.index > 0 && l.up && !l.loopback && l.validName)
  }

  // The preferred usable route of a family, whatever order it was dumped in.
  ghost predicate Best(routes: multiset<Candidate>, lookup: int -> Option<Link>, c: Candidate) {
    && c in routes && Usable(c, lookup)
    && forall d :: d in routes && Usable(d, lookup) ==> Before(c, d)
  }

  ghost predicate NoneUsable(routes: multiset<Candidate>, lookup: int -> Option<Link>) {
    forall d :: d in routes ==> !Usable(d, lookup)
  }

  // The family may be observed incompletely: no usable route, or an unsupported
  // one preferred to the best usable one.
  ghost predicate Incomplete(routes: multiset<Candidate>, lookup: int -> Option<Link>) {
    && routes != multiset{}
    && (NoneUsable(routes, lookup)
        || exists c, u :: Best(routes, lookup, c) && u in routes && u.unsupported && Before(u, c))
  }

  lemma BestUnique(routes: multiset<Candidate>, lookup: int -> Option<Link>, c: Candidate, d: Candidate)
    requires Best(routes, lookup, c) && Best(routes, lookup, d)
    ensures c == d
  {
  }

  // Fit to be chosen: supported, and its link exists, is up, is no loopback and
  // has a valid name.
  predicate Fit(c: Candidate, lookup: int -> Option<Link>) {
    !c.unsupported &&
    match lookup(c.index)
    case None => false
    case Some(l) => l.index > 0 && l.up && !l.loopback && l.validName
  }

  // The choice in plain terms: the least metric, and among equals the least index.
  lemma BestMeans(routes: multiset<Candidate>, lookup: int -> Option<Link>, c: Candidate)
    ensures Best(routes, lookup, c) <==>
      && c in routes && Fit(c, lookup)
      && forall d :: d in routes && Fit(d, lookup) ==> c.metric < d.metric || (c.metric == d.metric && c.index <= d.index)
    ensures Incomplete(routes, lookup) <==>
      && routes != multiset{}
      && ((forall d :: d in routes ==> !Fit(d, lookup))
          || exists b, u :: Best(routes, lookup, b) && u in routes && u.unsupported
                            && (u.metric < b.metric || (u.metric == b.metric && u.index <= b.index)))
  {
    assert forall d :: Usable(d, lookup) <==> Fit(d, lookup);
    assert forall d: Candidate, e: Candidate :: Fit(d, lookup) && Fit(e, lookup) ==>
      (Before(d, e) <==> d.metric < e.metric || (d.metric == e.metric && d.index <= e.index));
    assert forall u: Candidate, b: Candidate :: u.unsupported ==>
      (Before(u, b) <==> u.metric < b.metric || (u.metric == b.metric && u.index <= b.index));
  }

  // The loop over one family's sorted routes.
  method Choose(dumped: seq<Candidate>, lookup: int -> Option<Link>) returns (chosen: Option<Candidate>, partial: bool)
    ensures chosen.Some? ==> Best(multiset(dumped), lookup, chosen.value)
    ensures chosen.None? <==> NoneUsable(multiset(dumped), lookup)
    ensures partial <==> Incomplete(multiset(dumped), lookup)
  {
    hide Usable, Before;
    if |dumped| == 0 {
      return None, false;
    }
    BeforeTotal();
    var routes := Sort(dumped, Before);
    assert routes != [] by { assert multiset(routes)[dumped[0]] > 0; }
    chosen, partial := None, false;
    var i := 0;
    while i < |routes| && chosen.None?
      invariant 0 <= i <= |routes|
      invariant chosen.None? ==> forall j :: 0 <= j < i ==> !Usable(routes[j], lookup)
      invariant chosen.None? ==> (partial <==> exists j :: 0 <= j < i && routes[j].unsupported)
      invariant chosen.Some? ==> i < |routes| && FirstUsable(routes, lookup, i) && chosen.value == routes[i]
      invariant chosen.Some? ==> (partial <==> exists j :: 0 <= j < i && routes[j].unsupported)
      decreases |routes| - i, chosen.None?
    {
      var usable := Usable(routes[i], lookup);
      UsableSupported(routes[i], lookup);
      if routes[i].unsupported {
        partial := true;
      }
      if usable {
        chosen := Some(routes[i]);
      } else {
        i := i + 1;
      }
    }
    if chosen.Some? {
      FirstUsableBest(routes, lookup, i);
      if partial {
        var j :| 0 <= j < i && routes[j].unsupported;
        assert routes[j] in multiset(routes) && Before(routes[j], routes[i]);
      } else {
        assert routes[i] in multiset(routes);
        NothingAhead(routes, lookup, i);
      }
    } else {
      partial := true;
    }
  }

  // The first usable route of the sorted list.
  ghost predicate FirstUsable(routes: seq<Candidate>, lookup: int -> Option<Link>, i: nat) {
    && i < |routes| && Usable(routes[i], lookup)
    && forall j :: 0 <= j < i ==> !Usable(routes[j], lookup)
  }

  lemma UsableSupported(c: Candidate, lookup: int -> Option<Link>)
    ensures Usable(c, lookup) ==> !c.unsupported
  {
  }

  lemma BeforeTotal()
    ensures TotalPreorder(Before)
  {
  }

  lemma FirstUsableBest(routes: seq<Candidate>, lookup: int -> Option<Link>, i: nat)
    requires SortedBy(routes, Before) && FirstUsable(routes, lookup, i)
    ensures Best(multiset(routes), lookup, routes[i])
  {
    hide Usable;
    forall d | d in multiset(routes) && Usable(d, lookup) ensures Before(routes[i], d) {
      var j :| 0 <= j < |routes| && routes[j] == d;
    }
  }

  lemma NothingAhead(routes: seq<Candidate>, lookup: int -> Option<Link>, i: nat)
    requires SortedBy(routes, Before) && FirstUsable(routes, lookup, i)
    requires forall j :: 0 <= j < i ==> !routes[j].unsupported
    ensures !exists c, u :: Best(multiset(routes), lookup, c) && u in multiset(routes) && u.unsupported && Before(u, c)
  {
    FirstUsableBest(routes, lookup, i);
    forall c, u | Best(multiset(routes), lookup, c) && u in multiset(routes) && u.unsupported
      ensures !Before(u, c)
    {
      BestUnique(multiset(routes), lookup, c, routes[i]);
      var j :| 0 <= j < |routes| && routes[j] == u;
      assert i < j ==> Before(routes[i], routes[j]);
    }
  }

  // Go's string order.
  predicate NameLeq(a: string, b: string) {
    a == "" || (b != "" && (a[0] < b[0] || (a[0] == b[0] && NameLeq(a[1..], b[1..]))))
  }

  lemma {:induction false} NameTotal(a: string, b: string)
    ensures NameLeq(a, b) || NameLeq(b, a)
    decreases |a|
  {
    if a != "" && b != "" {
      NameTotal(a[1..], b[1..]);
    }
  }

  // Lexicographic order: one name begins the other, or they first differ in a
  // smaller character.
  lemma {:induction false} NameOrder(a: string, b: string)
    ensures NameLeq(a, b) <==>
      exists k :: 0 <= k <= |a| && k <= |b| && a[..k] == b[..k] && (k == |a| || (k < |b| && a[k] < b[k]))
    decreases |a|
  {
    if a == "" {
      assert a[..0] == b[..0];
    } else if b != "" {
      var s, t := a[1..], b[1..];
      NameOrder(s, t);
      assert forall k :: 0 < k <= |a| && k <= |b| ==> a[..k][0] == a[0] && b[..k][0] == b[0];
      if a[0] < b[0] {
        assert a[..0] == b[..0];
      } else if a[0] == b[0] {
        if NameLeq(s, t) {
          var k :| 0 <= k <= |s| && k <= |t| && s[..k] == t[..k] && (k == |s| || (k < |t| && s[k] < t[k]));
          assert a[..k + 1] == [a[0]] + s[..k] && b[..k + 1] == [b[0]] + t[..k];
          assert k + 1 == |a| || a[k + 1] < b[k + 1];
        }
        if k :| 0 <= k <= |a| && k <= |b| && a[..k] == b[..k] && (k == |a| || (k < |b| && a[k] < b[k])) {
          assert k > 0;
          assert s[..k - 1] == a[..k][1..] && t[..k - 1] == b[..k][1..];
        }
      }
    }
  }

  // selectDefaultLinks: None when no family has a usable route.
  method SelectDefaultLinks(v4: seq<Candidate>, v6: seq<Candidate>, lookup: int -> Option<Link>)
    returns (result: Option<(seq<Ref>, bool)>)
    ensures result.None? <==> NoneUsable(multiset(v4), lookup) && NoneUsable(multiset(v6), lookup)
    ensures result.Some? ==>
      var (refs, partial) := result.value;
      && 1 <= |refs| <= 2
      && (|refs| == 2 ==> refs[0].index != refs[1].index && NameLeq(refs[0].name, refs[1].name))
      && (forall r :: r in refs ==> Chosen(multiset(v4), lookup, r) || Chosen(multiset(v6), lookup, r))
      && (forall r :: Chosen(multiset(v4), lookup, r) || Chosen(multiset(v6), lookup, r) ==>
            exists s :: s in refs && s.index == r.index)
      && (partial <==> Incomplete(multiset(v4), lookup) || Incomplete(multiset(v6), lookup))
  {
    hide Incomplete, NoneUsable, Before, NameLeq;
    var a, partialA := Choose(v4, lookup);
    var b, partialB := Choose(v6, lookup);
    var refs: seq<Ref> := [];
    if a.Some? {
      var l := lookup(a.value.index).value;
      refs := [Ref(l.index, l.name)];
      assert Chosen(multiset(v4), lookup, Ref(l.index, l.name));
    }
    if b.Some? {
      var l := lookup(b.value.index).value;
      if refs == [] || refs[0].index != l.index {
        refs := refs + [Ref(l.index, l.name)];
      }
      assert Chosen(multiset(v6), lookup, Ref(l.index, l.name));
    }
    if refs == [] {
      return None;
    }
    forall r | Chosen(multiset(v4), lookup, r) || Chosen(multiset(v6), lookup, r)
      ensures exists s :: s in refs && s.index == r.index
    {
      if Chosen(multiset(v4), lookup, r) {
        ChosenIs(multiset(v4), lookup, a, r);
        assert refs[0].index == r.index;
      } else {
        ChosenIs(multiset(v6), lookup, b, r);
        assert refs[|refs| - 1].index == r.index;
      }
    }
    if |refs| == 2 && !NameLeq(refs[0].name, refs[1].name) {
      NameTotal(refs[0].name, refs[1].name);
      refs := [refs[1], refs[0]];
    }
    return Some((refs, partialA || partialB));
  }

  // The link that a family's best route resolves to.
  ghost predicate Chosen(routes: multiset<Candidate>, lookup: int -> Option<Link>, r: Ref) {
    exists c :: Best(routes, lookup, c) && lookup(c.index).Some?
                && r == Ref(lookup(c.index).value.index, lookup(c.index).value.name)
  }

  lemma ChosenIs(routes: multiset<Candidate>, lookup: int -> Option<Link>, choice: Option<Candidate>, r: Ref)
    requires Chosen(routes, lookup, r)
    requires choice.Some? ==> Best(routes, lookup, choice.value)
    requires choice.None? ==> NoneUsable(routes, lookup)
    ensures choice.Some? && lookup(choice.value.index).Some?
    ensures r == Ref(lookup(choice.value.index).value.index, lookup(choice.value.index).value.name)
  {
    hide Before;
    var c :| Best(routes, lookup, c) && r == Ref(lookup(c.index).value.index, lookup(c.index).value.name);
    if choice.Some? {
      BestUnique(routes, lookup, c, choice.value);
    }
  }
}
