// http.go, checkJSON: the structural limits on a catalogue, over the tokens of
// encoding/json's decoder (which elides commas and colons).
module JsonWalk {
  import opened Wrappers

  const MAX_DEPTH: nat := 16
  const MAX_VALUES: nat := 500_000
  const MAX_STRING: nat := 8192
  const MAX_KEY: nat := 256
  const MAX_MEMBERS: nat := 30_000

  datatype Bracket = Object | Array

  datatype Token = Open(kind: Bracket) | Close(kind: Bracket) | Text(s: string) | Other

  // ---------------------------------------------------------------- documents

  datatype Json = Scalar | Str(s: string) | Obj(members: Members) | Arr(items: Items)
  datatype Items = NoItem | Item(head: Json, tail: Items)
  datatype Members = NoMember | Member(key: string, value: Json, rest: Members)

  function Flatten(j: Json): (t: seq<Token>)
    ensures t != [] && !t[0].Close?
  {
    match j
    case Scalar => [Other]
    case Str(s) => [Text(s)]
    case Obj(members) => [Open(Object)] + FlattenMembers(members)
    case Arr(items) => [Open(Array)] + FlattenItems(items)
  }

  // With the closing bracket.
  function FlattenItems(items: Items): seq<Token> {
    match items
    case NoItem => [Close(Array)]
    case Item(head, tail) => Flatten(head) + FlattenItems(tail)
  }

  function FlattenMembers(members: Members): seq<Token> {
    match members
    case NoMember => [Close(Object)]
    case Member(key, value, rest) => [Text(key)] + Flatten(value) + FlattenMembers(rest)
  }

  function Count(j: Json): (n: nat)
    ensures n >= 1
  {
    match j
    case Obj(members) => 1 + CountMembers(members)
    case Arr(items) => 1 + CountItems(items)
    case _ => 1
  }

  function CountItems(items: Items): nat {
    match items case NoItem => 0 case Item(head, tail) => Count(head) + CountItems(tail)
  }

  function CountMembers(members: Members): nat {
    match members case NoMember => 0 case Member(_, value, rest) => Count(value) + CountMembers(rest)
  }

  // Nesting, strings, and the identity of members: no two names of an object
  // are equal once lowercased.
  predicate Allowed(j: Json, depth: nat, lower: string -> string) {
    depth <= MAX_DEPTH &&
    match j
    case Scalar => true
    case Str(s) => |s| <= MAX_STRING
    case Obj(members) => AllowedMembers(members, depth, {}, lower)
    case Arr(items) => AllowedItems(items, depth, lower)
  }

  predicate AllowedItems(items: Items, depth: nat, lower: string -> string) {
    match items
    case NoItem => true
    case Item(head, tail) => Allowed(head, depth + 1, lower) && AllowedItems(tail, depth, lower)
  }

  predicate AllowedMembers(members: Members, depth: nat, seen: set<string>, lower: string -> string) {
    match members
    case NoMember => true
    case Member(key, value, rest) =>
      && |lower(key)| <= MAX_KEY && lower(key) !in seen && |seen| < MAX_MEMBERS
      && Allowed(value, depth + 1, lower)
      && AllowedMembers(rest, depth, seen + {lower(key)}, lower)
  }

  // An object's member names, lowercased.
  function Names(members: Members, lower: string -> string): seq<string> {
    match members case NoMember => [] case Member(key, _, rest) => [lower(key)] + Names(rest, lower)
  }

  predicate AllowedValues(members: Members, depth: nat, lower: string -> string) {
    match members
    case NoMember => true
    case Member(_, value, rest) => Allowed(value, depth + 1, lower) && AllowedValues(rest, depth, lower)
  }

  // An object's members are allowed exactly when they number at most 30000, no
  // two lowercased names are equal, none is too long, and the values are allowed.
  lemma AllowedMembersMeaning(members: Members, depth: nat, lower: string -> string)
    ensures AllowedMembers(members, depth, {}, lower) <==>
      && |Names(members, lower)| <= MAX_MEMBERS
      && (forall i :: 0 <= i < |Names(members, lower)| ==> |Names(members, lower)[i]| <= MAX_KEY)
      && (forall i, j :: 0 <= i < j < |Names(members, lower)| ==> Names(members, lower)[i] != Names(members, lower)[j])
      && AllowedValues(members, depth, lower)
  {
    AllowedAfter(members, depth, {}, lower);
  }

  // The same after other members with these names.
  lemma {:induction false} AllowedAfter(members: Members, depth: nat, seen: set<string>, lower: string -> string)
    ensures AllowedMembers(members, depth, seen, lower) <==>
      && (members.Member? ==> |seen| + |Names(members, lower)| <= MAX_MEMBERS)
      && (forall i :: 0 <= i < |Names(members, lower)| ==>
            |Names(members, lower)[i]| <= MAX_KEY && Names(members, lower)[i] !in seen)
      && (forall i, j :: 0 <= i < j < |Names(members, lower)| ==> Names(members, lower)[i] != Names(members, lower)[j])
      && AllowedValues(members, depth, lower)
    decreases members
  {
    hide Allowed;
    if members.Member? {
      var key, names, more := lower(members.key), Names(members, lower), Names(members.rest, lower);
      AllowedAfter(members.rest, depth, seen + {key}, lower);
      assert names == [key] + more;
      assert key !in seen ==> |seen + {key}| == |seen| + 1;
      if forall i, j :: 0 <= i < j < |names| ==> names[i] != names[j] {
        forall i | 0 <= i < |more| ensures more[i] != key { assert names[0] != names[i + 1]; }
        forall i, j | 0 <= i < j < |more| ensures more[i] != more[j] { assert names[i + 1] != names[j + 1]; }
      }
      if forall i :: 0 <= i < |names| ==> |names[i]| <= MAX_KEY && names[i] !in seen {
        assert names[0] == key;
        forall i | 0 <= i < |more| ensures |more[i]| <= MAX_KEY && more[i] !in seen {
          assert names[i + 1] == more[i];
        }
      }
    }
  }

  // How deep a document nests, its outermost value at depth 0.
  function Nesting(j: Json): nat {
    match j
    case Obj(members) => NestingMembers(members)
    case Arr(items) => NestingItems(items)
    case _ => 0
  }

  function NestingItems(items: Items): nat {
    match items case NoItem => 0 case Item(head, tail) => Max(1 + Nesting(head), NestingItems(tail))
  }

  function NestingMembers(members: Members): nat {
    match members case NoMember => 0 case Member(_, value, rest) => Max(1 + Nesting(value), NestingMembers(rest))
  }

  // Every string within 8192, every object with at most 30000 members whose
  // lowercased names are at most 256 long and all different.
  predicate Tame(j: Json, lower: string -> string) {
    match j
    case Scalar => true
    case Str(s) => |s| <= 8192
    case Arr(items) => TameItems(items, lower)
    case Obj(members) =>
      var names := Names(members, lower);
      && |names| <= 30_000
      && (forall i :: 0 <= i < |names| ==> |names[i]| <= 256)
      && (forall i, j :: 0 <= i < j < |names| ==> names[i] != names[j])
      && TameValues(members, lower)
  }

  predicate TameItems(items: Items, lower: string -> string) {
    match items case NoItem => true case Item(head, tail) => Tame(head, lower) && TameItems(tail, lower)
  }

  predicate TameValues(members: Members, lower: string -> string) {
    match members case NoMember => true case Member(_, value, rest) => Tame(value, lower) && TameValues(rest, lower)
  }

  // The limits of a document, depth apart from the rest.
  lemma {:induction false} AllowedMeans(j: Json, depth: nat, lower: string -> string)
    ensures Allowed(j, depth, lower) <==> depth + Nesting(j) <= 16 && Tame(j, lower)
    decreases j
  {
    hide AllowedMembers, Names;
    if depth <= 16 {
      match j
      case Obj(members) =>
        AllowedMembersMeaning(members, depth, lower);
        ValuesMean(members, depth, lower);
      case Arr(items) =>
        ItemsMean(items, depth, lower);
      case _ =>
    }
  }

  lemma {:induction false} ItemsMean(items: Items, depth: nat, lower: string -> string)
    requires depth <= 16
    ensures AllowedItems(items, depth, lower) <==> depth + NestingItems(items) <= 16 && TameItems(items, lower)
    decreases items
  {
    hide Allowed, Nesting, Tame;
    match items
    case NoItem =>
    case Item(head, tail) =>
      AllowedMeans(head, depth + 1, lower);
      ItemsMean(tail, depth, lower);
  }

  lemma {:induction false} ValuesMean(members: Members, depth: nat, lower: string -> string)
    requires depth <= 16
    ensures AllowedValues(members, depth, lower) <==> depth + NestingMembers(members) <= 16 && TameValues(members, lower)
    decreases members
  {
    hide Allowed, Nesting, Tame;
    match members
    case NoMember =>
    case Member(_, value, rest) =>
      AllowedMeans(value, depth + 1, lower);
      ValuesMean(rest, depth, lower);
  }

  // ---------------------------------------------------------------- the walk as a function

  // One value's tokens consumed: what follows and how many more values may come.
  datatype Rest = Rest(tokens: seq<Token>, left: nat)

  function Value(s: seq<Token>, depth: nat, left: nat, lower: string -> string): (r: Option<Rest>)
    ensures r.Some? ==> |r.value.tokens| < |s|
    decreases |s|, 1
  {
    if depth > MAX_DEPTH || left == 0 || s == [] then None
    else
      match s[0]
      case Other => Some(Rest(s[1..], left - 1))
      case Text(t) => if |t| > MAX_STRING then None else Some(Rest(s[1..], left - 1))
      case Open(Object) => MembersFrom(s[1..], depth, left - 1, {}, lower)
      case Open(Array) => ItemsFrom(s[1..], depth, left - 1, lower)
      case Close(_) => None
  }

  function ItemsFrom(s: seq<Token>, depth: nat, left: nat, lower: string -> string): (r: Option<Rest>)
    ensures r.Some? ==> |r.value.tokens| < |s|
    decreases |s|, 2
  {
    if s == [] || s[0] == Close(Object) then None
    else if s[0] == Close(Array) then Some(Rest(s[1..], left))
    else
      var v := Value(s, depth + 1, left, lower);
      if v.None? then None else ItemsFrom(v.value.tokens, depth, v.value.left, lower)
  }

  function MembersFrom(s: seq<Token>, depth: nat, left: nat, seen: set<string>, lower: string -> string): (r: Option<Rest>)
    ensures r.Some? ==> |r.value.tokens| < |s|
    decreases |s|, 2
  {
    if s == [] || s[0] == Close(Array) then None
    else if s[0] == Close(Object) then Some(Rest(s[1..], left))
    else if !s[0].Text? then None
    else
      var key := lower(s[0].s);
      if |key| > MAX_KEY || key in seen || |seen| >= MAX_MEMBERS then None
      else
        var v := Value(s[1..], depth + 1, left, lower);
        if v.None? then None else MembersFrom(v.value.tokens, depth, v.value.left, seen + {key}, lower)
  }

  // ---------------------------------------------------------------- documents and walks agree

  lemma {:induction false} AllowedWalks(j: Json, rest: seq<Token>, depth: nat, left: nat, lower: string -> string)
    requires Allowed(j, depth, lower) && Count(j) <= left
    ensures Value(Flatten(j) + rest, depth, left, lower) == Some(Rest(rest, left - Count(j)))
    decreases j
  {
    hide MembersFrom, ItemsFrom, AllowedMembers, AllowedItems, FlattenMembers, FlattenItems, CountMembers, CountItems;
    var s := Flatten(j) + rest;
    match j
    case Scalar => assert s[1..] == rest;
    case Str(_) => assert s[1..] == rest;
    case Obj(members) =>
      assert s[1..] == FlattenMembers(members) + rest;
      AllowedMembersWalk(members, rest, depth, left - 1, {}, lower);
    case Arr(items) =>
      assert s[1..] == FlattenItems(items) + rest;
      AllowedItemsWalk(items, rest, depth, left - 1, lower);
  }

  lemma {:induction false} AllowedItemsWalk(items: Items, rest: seq<Token>, depth: nat, left: nat, lower: string -> string)
    requires AllowedItems(items, depth, lower) && CountItems(items) <= left
    ensures ItemsFrom(FlattenItems(items) + rest, depth, left, lower) == Some(Rest(rest, left - CountItems(items)))
    decreases items
  {
    hide Value, Allowed, Flatten, Count, MembersFrom, AllowedMembers, FlattenMembers, CountMembers;
    var s := FlattenItems(items) + rest;
    match items
    case NoItem => assert s[1..] == rest;
    case Item(head, tail) =>
      assert s == Flatten(head) + (FlattenItems(tail) + rest);
      AllowedWalks(head, FlattenItems(tail) + rest, depth + 1, left, lower);
      AllowedItemsWalk(tail, rest, depth, left - Count(head), lower);
  }

  lemma {:induction false} AllowedMembersWalk(members: Members, rest: seq<Token>, depth: nat, left: nat,
                                              seen: set<string>, lower: string -> string)
    requires AllowedMembers(members, depth, seen, lower) && CountMembers(members) <= left
    ensures MembersFrom(FlattenMembers(members) + rest, depth, left, seen, lower)
            == Some(Rest(rest, left - CountMembers(members)))
    decreases members
  {
    hide Value, Allowed, Flatten, Count, ItemsFrom, AllowedItems, FlattenItems, CountItems;
    var s := FlattenMembers(members) + rest;
    match members
    case NoMember => assert s[1..] == rest;
    case Member(key, value, more) =>
      assert s[1..] == Flatten(value) + (FlattenMembers(more) + rest);
      AllowedWalks(value, FlattenMembers(more) + rest, depth + 1, left, lower);
      AllowedMembersWalk(more, rest, depth, left - Count(value), seen + {lower(key)}, lower);
  }

  lemma {:induction false} WalkIsAllowed(s: seq<Token>, depth: nat, left: nat, lower: string -> string) returns (j: Json)
    requires Value(s, depth, left, lower).Some?
    ensures Allowed(j, depth, lower) && Count(j) <= left
    ensures var r := Value(s, depth, left, lower).value; s == Flatten(j) + r.tokens && r.left == left - Count(j)
    decreases |s|, 1
  {
    hide MembersFrom, ItemsFrom, AllowedMembers, AllowedItems, FlattenMembers, FlattenItems, CountMembers, CountItems;
    j := Scalar;
    match s[0] {
      case Other => assert s == [Other] + s[1..];
      case Text(t) => j := Str(t); assert s == [Text(t)] + s[1..];
      case Open(Object) =>
        var members := MembersAllowed(s[1..], depth, left - 1, {}, lower);
        j := Obj(members);
        assert s == [s[0]] + s[1..];
      case Open(Array) =>
        var items := ItemsAllowed(s[1..], depth, left - 1, lower);
        j := Arr(items);
        assert s == [s[0]] + s[1..];
    }
  }

  lemma {:induction false} ItemsAllowed(s: seq<Token>, depth: nat, left: nat, lower: string -> string) returns (items: Items)
    requires ItemsFrom(s, depth, left, lower).Some?
    ensures AllowedItems(items, depth, lower) && CountItems(items) <= left
    ensures var r := ItemsFrom(s, depth, left, lower).value;
            s == FlattenItems(items) + r.tokens && r.left == left - CountItems(items)
    decreases |s|, 2
  {
    hide Value, Allowed, Flatten, Count, MembersFrom, AllowedMembers, FlattenMembers, CountMembers;
    if s[0] == Close(Array) {
      items := NoItem;
      assert s == [s[0]] + s[1..];
    } else {
      var head := WalkIsAllowed(s, depth + 1, left, lower);
      var v := Value(s, depth + 1, left, lower).value;
      var tail := ItemsAllowed(v.tokens, depth, v.left, lower);
      items := Item(head, tail);
    }
  }

  lemma {:induction false} MembersAllowed(s: seq<Token>, depth: nat, left: nat, seen: set<string>, lower: string -> string)
    returns (members: Members)
    requires MembersFrom(s, depth, left, seen, lower).Some?
    ensures AllowedMembers(members, depth, seen, lower) && CountMembers(members) <= left
    ensures var r := MembersFrom(s, depth, left, seen, lower).value;
            s == FlattenMembers(members) + r.tokens && r.left == left - CountMembers(members)
    decreases |s|, 2
  {
    hide Value, Allowed, Flatten, Count, ItemsFrom, AllowedItems, FlattenItems, CountItems;
    if s[0] == Close(Object) {
      members := NoMember;
      assert s == [s[0]] + s[1..];
    } else {
      var value := WalkIsAllowed(s[1..], depth + 1, left, lower);
      var v := Value(s[1..], depth + 1, left, lower).value;
      var more := MembersAllowed(v.tokens, depth, v.left, seen + {lower(s[0].s)}, lower);
      members := Member(s[0].s, value, more);
      assert s == [s[0]] + s[1..];
    }
  }

  // The token streams of one document within the limits.
  ghost predicate Document(tokens: seq<Token>, lower: string -> string) {
    exists j :: tokens == Flatten(j) && Allowed(j, 0, lower) && Count(j) <= MAX_VALUES
  }

  lemma DocumentMeans(tokens: seq<Token>, lower: string -> string)
    ensures Document(tokens, lower) <==>
      exists j :: tokens == Flatten(j) && Nesting(j) <= 16 && Count(j) <= 500_000 && Tame(j, lower)
  {
    hide Allowed, Flatten, Count, Tame, Nesting;
    if Document(tokens, lower) {
      var j :| tokens == Flatten(j) && Allowed(j, 0, lower) && Count(j) <= MAX_VALUES;
      AllowedMeans(j, 0, lower);
    }
    if j :| tokens == Flatten(j) && Nesting(j) <= 16 && Count(j) <= 500_000 && Tame(j, lower) {
      AllowedMeans(j, 0, lower);
    }
  }

  lemma DocumentWalks(tokens: seq<Token>, lower: string -> string)
    ensures Document(tokens, lower) <==>
            Value(tokens, 0, MAX_VALUES, lower).Some? && Value(tokens, 0, MAX_VALUES, lower).value.tokens == []
  {
    hide Value, Allowed, Flatten, Count;
    if Value(tokens, 0, MAX_VALUES, lower).Some? {
      var j := WalkIsAllowed(tokens, 0, MAX_VALUES, lower);
      if Value(tokens, 0, MAX_VALUES, lower).value.tokens == [] {
        assert tokens == Flatten(j) + [] == Flatten(j);
      }
    }
    if Document(tokens, lower) {
      var j :| tokens == Flatten(j) && Allowed(j, 0, lower) && Count(j) <= MAX_VALUES;
      assert Flatten(j) + [] == tokens;
      AllowedWalks(j, [], 0, MAX_VALUES, lower);
    }
  }

  // ---------------------------------------------------------------- the walk as code

  predicate Mismatch(t: Token, open: seq<Bracket>) {
    t.Close? && (open == [] || open[|open| - 1] != t.kind)
  }

  // json.Decoder: hands out tokens and refuses a bracket that does not close the
  // innermost open one.
  class Decoder {
    const tokens: seq<Token>
    var pos: nat
    var open: seq<Bracket>

    ghost predicate Valid()
      reads this
    {
      pos <= |tokens|
    }

    constructor (tokens: seq<Token>)
      ensures Valid() && this.tokens == tokens && pos == 0 && open == []
    {
      this.tokens, pos, open := tokens, 0, [];
    }

    method Next() returns (t: Option<Token>)
      requires Valid()
      modifies this
      ensures Valid()
      ensures t.None? <==> (old(pos) == |tokens| || Mismatch(tokens[old(pos)], old(open)))
      ensures t.Some? ==> t.value == tokens[old(pos)] && pos == old(pos) + 1
      ensures t.Some? && t.value.Open? ==> open == old(open) + [t.value.kind]
      ensures t.Some? && t.value.Close? ==> open == old(open)[..|old(open)| - 1]
      ensures t.Some? && !t.value.Open? && !t.value.Close? ==> open == old(open)
    {
      if pos == |tokens| {
        return None;
      }
      var next := tokens[pos];
      match next {
        case Open(kind) =>
          open := open + [kind];
        case Close(kind) =>
          if open == [] || open[|open| - 1] != kind {
            return None;
          }
          open := open[..|open| - 1];
        case _ =>
      }
      pos := pos + 1;
      return Some(next);
    }

    predicate More()
      requires Valid()
      reads this
    {
      pos < |tokens| && !tokens[pos].Close?
    }
  }

  class Checker {
    const decoder: Decoder
    const lower: string -> string    // strings.ToLower
    var count: nat

    constructor (tokens: seq<Token>, lower: string -> string)
      ensures fresh(decoder) && decoder.Valid() && decoder.tokens == tokens && decoder.pos == 0
      ensures this.lower == lower && count == 0
    {
      this.lower, count := lower, 0;
      decoder := new Decoder(tokens);
    }

    ghost predicate Valid()
      reads this, decoder
    {
      decoder.Valid() && count <= MAX_VALUES
    }

    ghost function Here(): seq<Token>
      requires Valid()
      reads this, decoder
    {
      decoder.tokens[decoder.pos..]
    }

    // The outcome agrees with the functional walk, leaving these brackets open.
    ghost predicate Walked(ok: bool, expected: Option<Rest>, open: seq<Bracket>)
      reads this, decoder
    {
      && (ok <==> expected.Some?)
      && (ok ==> Valid() && decoder.open == open && expected.value == Rest(Here(), MAX_VALUES - count))
    }

    method Visit(depth: nat) returns (ok: bool)
      requires Valid()
      modifies this, decoder
      ensures Walked(ok, Value(old(Here()), depth, MAX_VALUES - old(count), lower), old(decoder.open))
      decreases |decoder.tokens| - decoder.pos, 1
    {
      hide ItemsFrom, MembersFrom;
      count := count + 1;
      if depth > MAX_DEPTH || count > MAX_VALUES {
        return false;
      }
      ghost var stream := Here();
      var token := decoder.Next();
      if token.None? {
        return false;
      }
      match token.value {
        case Other =>
          assert stream[1..] == Here();
          return true;
        case Text(s) =>
          assert stream[1..] == Here();
          return |s| <= MAX_STRING;
        case Close(_) =>
          return false;
        case Open(Object) =>
          assert stream[1..] == Here();
          ok := VisitMembers(depth);
        case Open(Array) =>
          assert stream[1..] == Here();
          ok := VisitItems(depth);
      }
    }

    method VisitItems(depth: nat) returns (ok: bool)
      requires Valid() && decoder.open != [] && decoder.open[|decoder.open| - 1] == Array
      modifies this, decoder
      ensures Walked(ok, ItemsFrom(old(Here()), depth, MAX_VALUES - old(count), lower),
                     old(decoder.open)[..|old(decoder.open)| - 1])
      decreases |decoder.tokens| - decoder.pos, 2
    {
      hide Value;
      ghost var expected := ItemsFrom(Here(), depth, MAX_VALUES - count, lower);
      while decoder.More()
        invariant Valid() && decoder.open == old(decoder.open) && decoder.pos >= old(decoder.pos)
        invariant ItemsFrom(Here(), depth, MAX_VALUES - count, lower) == expected
        decreases |decoder.tokens| - decoder.pos
      {
        ghost var before := Here();
        ok := Visit(depth + 1);
        if !ok {
          return;
        }
        assert |Here()| < |before|;
      }
      ghost var stream := Here();
      var token := decoder.Next();
      assert token.Some? ==> stream[1..] == Here();
      return token.Some?;
    }

    method VisitMembers(depth: nat) returns (ok: bool)
      requires Valid() && decoder.open != [] && decoder.open[|decoder.open| - 1] == Object
      modifies this, decoder
      ensures Walked(ok, MembersFrom(old(Here()), depth, MAX_VALUES - old(count), {}, lower),
                     old(decoder.open)[..|old(decoder.open)| - 1])
      decreases |decoder.tokens| - decoder.pos, 2
    {
      hide Value, MembersFrom;
      ghost var expected := MembersFrom(Here(), depth, MAX_VALUES - count, {}, lower);
      var seen: set<string> := {};
      while decoder.More()
        invariant Valid() && decoder.open == old(decoder.open) && decoder.pos >= old(decoder.pos)
        invariant MembersFrom(Here(), depth, MAX_VALUES - count, seen, lower) == expected
        decreases |decoder.tokens| - decoder.pos
      {
        ghost var at := decoder.pos;
        MembersStep(Here(), depth, MAX_VALUES - count, seen, lower);
        var key := ReadKey(seen);
        if key.None? {
          return false;
        }
        seen := seen + {key.value};
        ok := Visit(depth + 1);
        if !ok {
          return;
        }
        assert |Here()| == |decoder.tokens| - decoder.pos < |decoder.tokens| - at;
      }
      MembersStep(Here(), depth, MAX_VALUES - count, seen, lower);
      ghost var stream := Here();
      var token := decoder.Next();
      assert token.Some? ==> stream[1..] == Here();
      return token.Some?;
    }

    // A member's name, lowercased, if it is new and within the limits.
    method ReadKey(seen: set<string>) returns (key: Option<string>)
      requires Valid() && decoder.More()
      modifies decoder
      ensures key.Some? ==> Valid() && decoder.open == old(decoder.open)
      ensures var t := old(Here())[0];
              key == if t.Text? && |lower(t.s)| <= MAX_KEY && lower(t.s) !in seen && |seen| < MAX_MEMBERS
                     then Some(lower(t.s)) else None
      ensures key.Some? ==> decoder.pos == old(decoder.pos) + 1 && Here() == old(Here())[1..]
    {
      ghost var stream := Here();
      var token := decoder.Next();
      if token.None? || !token.value.Text? {
        return None;
      }
      assert stream[1..] == Here();
      var name := lower(token.value.s);
      if |name| > MAX_KEY || name in seen || |seen| >= MAX_MEMBERS {
        return None;
      }
      return Some(name);
    }
  }

  // One unfolding of the member walk.
  lemma MembersStep(s: seq<Token>, depth: nat, left: nat, seen: set<string>, lower: string -> string)
    ensures s == [] || s[0] == Close(Array) ==> MembersFrom(s, depth, left, seen, lower).None?
    ensures s != [] && s[0] == Close(Object) ==> MembersFrom(s, depth, left, seen, lower) == Some(Rest(s[1..], left))
    ensures s != [] && !s[0].Close? ==>
      MembersFrom(s, depth, left, seen, lower) ==
        if s[0].Text? && |lower(s[0].s)| <= MAX_KEY && lower(s[0].s) !in seen && |seen| < MAX_MEMBERS
           && Value(s[1..], depth + 1, left, lower).Some?
        then (var v := Value(s[1..], depth + 1, left, lower).value;
              MembersFrom(v.tokens, depth, v.left, seen + {lower(s[0].s)}, lower))
        else None
  {
    hide Value;
  }

  // checkJSON: accepts exactly the streams of one document within the limits.
  method CheckJson(tokens: seq<Token>, lower: string -> string) returns (ok: bool)
    ensures ok <==> exists j :: tokens == Flatten(j) && Nesting(j) <= 16 && Count(j) <= 500_000 && Tame(j, lower)
  {
    hide Value, Document, Flatten, Nesting, Count, Tame, Allowed;
    DocumentMeans(tokens, lower);
    var checker := new Checker(tokens, lower);
    assert tokens[0..] == tokens;
    DocumentWalks(tokens, lower);
    ok := checker.Visit(0);
    if ok {
      var atEnd := checker.decoder.pos == |tokens|; // the next token is io.EOF
      ok := atEnd;
    }
  }
}
