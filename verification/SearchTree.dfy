// geo.go, boundMMDBTree: the search tree of an MMDB file ("Node Layout" of the
// MaxMind DB File Format Specification) and the coloured walk that bounds how
// many nodes a reader would visit if it unrolled every shared subtree.
module SearchTree {
  import opened Wrappers

  const VISIT_LIMIT: nat := 40_000_000
  const RECURSION_LIMIT: nat := 128

  // ---------------------------------------------------------------- records

  // The two records of one node, 24, 28 or 32 bits each. Every term of a sum
  // occupies its own bits, so the sums are the source's bitwise ors.
  function Decode(b: seq<byte>): (uint32, uint32)
    requires |b| in {6, 7, 8}
  {
    match |b|
    case 6 => (Bits(b[0], 16) + Bits(b[1], 8) + Bits(b[2], 0), Bits(b[3], 16) + Bits(b[4], 8) + Bits(b[5], 0))
    case 7 => (Bits(b[3] / 16, 24) + Bits(b[0], 16) + Bits(b[1], 8) + Bits(b[2], 0),
               Bits(b[3] % 16, 24) + Bits(b[4], 16) + Bits(b[5], 8) + Bits(b[6], 0))
    case 8 => (Bits(b[0], 24) + Bits(b[1], 16) + Bits(b[2], 8) + Bits(b[3], 0),
               Bits(b[4], 24) + Bits(b[5], 16) + Bits(b[6], 8) + Bits(b[7], 0))
  }

  // b << shift
  function Bits(b: byte, shift: nat): nat {
    if shift == 24 then b as int * 0x100_0000
    else if shift == 16 then b as int * 0x1_0000
    else if shift == 8 then b as int * 0x100
    else b
  }

  // Byte i of v, counted from the least significant.
  function ByteOf(v: nat, i: nat): byte {
    if i == 0 then v % 256 else ByteOf(v / 256, i - 1)
  }

  // The writer's side: big-endian records, the 28-bit ones sharing their middle byte.
  function Encode(left: nat, right: nat, size: nat): (b: seq<byte>)
    requires size in {6, 7, 8}
    ensures |b| == size
  {
    match size
    case 6 => [ByteOf(left, 2), ByteOf(left, 1), ByteOf(left, 0),
               ByteOf(right, 2), ByteOf(right, 1), ByteOf(right, 0)]
    case 7 => [ByteOf(left, 2), ByteOf(left, 1), ByteOf(left, 0),
               (ByteOf(left, 3) % 16) * 16 + ByteOf(right, 3) % 16,
               ByteOf(right, 2), ByteOf(right, 1), ByteOf(right, 0)]
    case 8 => [ByteOf(left, 3), ByteOf(left, 2), ByteOf(left, 1), ByteOf(left, 0),
               ByteOf(right, 3), ByteOf(right, 2), ByteOf(right, 1), ByteOf(right, 0)]
  }

  function RecordRange(size: nat): nat {
    match size case 6 => 0x100_0000 case 7 => 0x1000_0000 case _ => TWO_32
  }

  lemma BytesOf(v: nat)
    requires v < TWO_32
    ensures v == ByteOf(v, 3) * 0x100_0000 + ByteOf(v, 2) * 0x1_0000 + ByteOf(v, 1) * 0x100 + ByteOf(v, 0)
    ensures v < 0x100_0000 ==> ByteOf(v, 3) == 0
    ensures v < 0x1000_0000 ==> ByteOf(v, 3) < 16
  {
    assert ByteOf(v, 1) == ByteOf(v / 256, 0);
    assert ByteOf(v, 2) == ByteOf(v / 256, 1) == ByteOf(v / 256 / 256, 0);
    assert ByteOf(v, 3) == ByteOf(v / 256, 2) == ByteOf(v / 256 / 256, 1) == ByteOf(v / 256 / 256 / 256, 0);
  }

  lemma RecordRoundTrip(left: nat, right: nat, size: nat)
    requires size in {6, 7, 8} && left < RecordRange(size) && right < RecordRange(size)
    ensures Decode(Encode(left, right, size)) == (left, right)
  {
    BytesOf(left);
    BytesOf(right);
    hide ByteOf;
    var b := Encode(left, right, size);
    match size
    case 6 => assert Decode(b) == (Bits(b[0], 16) + Bits(b[1], 8) + Bits(b[2], 0), Bits(b[3], 16) + Bits(b[4], 8) + Bits(b[5], 0));
    case 7 => SharedByte(ByteOf(left, 3), ByteOf(right, 3));
    case 8 =>
  }

  // The middle byte of a 28-bit pair gives back both of its halves.
  lemma SharedByte(left: byte, right: byte)
    requires left < 16 && right < 16
    ensures var b := (left % 16) * 16 + right % 16;
            b / 16 == left && b % 16 == right
  {
  }

  // ---------------------------------------------------------------- meaning

  datatype Tree = Tree(data: seq<byte>, count: nat, size: nat) {
    ghost predicate WellFormed() {
      count >= 1 && size in {6, 7, 8} && count * size <= |data|
    }

    function Children(node: nat): (uint32, uint32)
      requires WellFormed() && node < count
    {
      InBounds(node);
      Decode(data[node * size..node * size + size])
    }

    lemma InBounds(node: nat)
      requires WellFormed() && node < count
      ensures node * size + size <= |data|
    {
      assert (node + 1) * size <= count * size;
    }

    ghost predicate Edge(m: nat, n: nat)
      requires WellFormed()
    {
      m < count && (n == Children(m).0 || n == Children(m).1)
    }

    // The number of nodes of the tree unrolled from `node`, if it has at most
    // `levels` levels of search nodes. A record outside the tree is one leaf.
    function Unrolled(node: nat, levels: nat): (n: Option<nat>)
      requires WellFormed()
      ensures n.Some? ==> n.value >= 1
      decreases levels
    {
      if node >= count then Some(1)
      else if levels == 0 then None
      else
        var (left, right) := Children(node);
        var a, b := Unrolled(left, levels - 1), Unrolled(right, levels - 1);
        if a.None? || b.None? then None else Some(1 + a.value + b.value)
    }

    // Walking left before right with these levels left, and passing over nodes
    // finished before: which are finished then. None if a node is arrived at with
    // no level left, a finished one included.
    function Reach(node: nat, levels: nat, finished: set<nat>): (r: Option<set<nat>>)
      requires WellFormed()
      decreases levels
    {
      if node >= count then Some(finished)
      else if levels == 0 then None
      else if node in finished then Some(finished)
      else
        var (left, right) := Children(node);
        var a := Reach(left, levels - 1, finished);
        if a.None? then None
        else
          var b := Reach(right, levels - 1, a.value);
          if b.None? then None else Some(b.value + {node})
    }

    ghost predicate Finite(node: nat)
      requires WellFormed()
    {
      exists levels: nat :: Unrolled(node, levels).Some?
    }

    // What is walked to the end has a finite unrolling, however it was shared.
    lemma {:induction false} ReachFinite(node: nat, levels: nat, finished: set<nat>)
      requires WellFormed() && Reach(node, levels, finished).Some?
      requires forall m :: m in finished ==> Finite(m)
      ensures Finite(node) && forall m :: m in Reach(node, levels, finished).value ==> Finite(m)
      decreases levels
    {
      hide Children;
      if node >= count {
        assert Unrolled(node, 0).Some?;
      } else if node !in finished {
        var (left, right) := Children(node);
        ReachFinite(left, levels - 1, finished);
        ReachFinite(right, levels - 1, Reach(left, levels - 1, finished).value);
        var j: nat :| Unrolled(left, j).Some?;
        var k: nat :| Unrolled(right, k).Some?;
        UnrolledGrows(left, j, j + k);
        UnrolledGrows(right, k, j + k);
        assert Unrolled(node, j + k + 1).Some?;
      }
    }

    // A tree within the levels is walked to the end.
    lemma {:induction false} LowReached(node: nat, levels: nat, finished: set<nat>)
      requires WellFormed() && Unrolled(node, levels).Some?
      ensures Reach(node, levels, finished).Some?
      decreases levels
    {
      hide Children;
      if node < count && node !in finished {
        LowReached(Children(node).0, levels - 1, finished);
        LowReached(Children(node).1, levels - 1, Reach(Children(node).0, levels - 1, finished).value);
      }
    }

    // Allowing more levels never changes a count.
    lemma {:induction false} UnrolledGrows(node: nat, k: nat, l: nat)
      requires WellFormed() && Unrolled(node, k).Some? && k <= l
      ensures Unrolled(node, l) == Unrolled(node, k)
      decreases k
    {
      hide Children;
      if node < count {
        UnrolledGrows(Children(node).0, k - 1, l - 1);
        UnrolledGrows(Children(node).1, k - 1, l - 1);
      }
    }

    lemma UnrolledAgrees(node: nat, k: nat, l: nat)
      requires WellFormed() && Unrolled(node, k).Some? && Unrolled(node, l).Some?
      ensures Unrolled(node, k) == Unrolled(node, l)
    {
      hide Unrolled;
      if k <= l { UnrolledGrows(node, k, l); } else { UnrolledGrows(node, l, k); }
    }

    // A walk along records, from path[0] on.
    ghost predicate IsPath(path: seq<nat>)
      requires WellFormed()
    {
      forall i :: 0 <= i < |path| - 1 ==> Edge(path[i], path[i + 1])
    }

    // Each step of a path uses up one level.
    lemma {:induction false} PathDescends(path: seq<nat>, i: nat, levels: nat)
      requires WellFormed() && IsPath(path) && i < |path|
      requires Unrolled(path[0], levels).Some?
      ensures i <= levels && Unrolled(path[i], levels - i).Some?
      decreases i
    {
      hide Children;
      if i > 0 {
        PathDescends(path, i - 1, levels);
        assert Edge(path[i - 1], path[i - 1 + 1]);
      }
    }

    // Nothing below a node of a finite unrolling leads back to it.
    lemma {:induction false} NoCycle(path: seq<nat>, levels: nat)
      requires WellFormed() && IsPath(path) && |path| >= 2 && path[0] == path[|path| - 1]
      requires Unrolled(path[0], levels).Some?
      ensures false
      decreases levels
    {
      PathDescends(path, |path| - 1, levels);
      NoCycle(path, levels - (|path| - 1));
    }
  }

  // ---------------------------------------------------------------- what a writer lays out

  // Each node's pair of records, row by row.
  function Rows(pairs: seq<(nat, nat)>, size: nat): seq<byte>
    requires size in {6, 7, 8}
  {
    if pairs == [] then [] else Rows(pairs[..|pairs| - 1], size) + Encode(pairs[|pairs| - 1].0, pairs[|pairs| - 1].1, size)
  }

  lemma {:induction false} RowsLength(pairs: seq<(nat, nat)>, size: nat)
    requires size in {6, 7, 8}
    ensures |Rows(pairs, size)| == |pairs| * size
    decreases |pairs|
  {
    hide Encode;
    if pairs != [] {
      var m := |pairs| - 1;
      RowsLength(pairs[..m], size);
      EncodeLength(pairs[m].0, pairs[m].1, size);
      assert |pairs| * size == m * size + size;
    }
  }

  lemma {:induction false} RowAt(pairs: seq<(nat, nat)>, size: nat, n: nat)
    requires size in {6, 7, 8} && n < |pairs|
    ensures |Rows(pairs, size)| == |pairs| * size && n * size + size <= |pairs| * size
    ensures Rows(pairs, size)[n * size..n * size + size] == Encode(pairs[n].0, pairs[n].1, size)
    decreases |pairs|
  {
    hide Encode;
    var m := |pairs| - 1;
    var earlier := pairs[..m];
    EncodeLength(pairs[m].0, pairs[m].1, size);
    RowsLength(pairs, size);
    RowsLength(earlier, size);
    RowEnds(n, |pairs|, size);
    var last := Encode(pairs[m].0, pairs[m].1, size);
    assert Rows(pairs, size) == Rows(earlier, size) + last;
    hide Rows;
    if n < m {
      RowAt(earlier, size, n);
      RowEnds(n, m, size);
      RowWithin(Rows(earlier, size), Rows(pairs, size), n * size, size);
    } else {
      LastRow(Rows(earlier, size), last, n * size);
    }
  }

  lemma LastRow(earlier: seq<byte>, last: seq<byte>, start: nat)
    requires |earlier| == start
    ensures (earlier + last)[start..start + |last|] == last
  {
  }

  lemma RowEnds(n: nat, m: nat, size: nat)
    requires n < m && size in {6, 7, 8}
    ensures n * size + size == (n + 1) * size <= m * size
  {
    match size
    case 6 =>
    case 7 =>
    case 8 =>
  }

  lemma RowWithin(short: seq<byte>, long: seq<byte>, start: nat, size: nat)
    requires start + size <= |short| && short <= long
    ensures long[start..start + size] == short[start..start + size]
  {
  }

  lemma EncodeLength(left: nat, right: nat, size: nat)
    requires size in {6, 7, 8}
    ensures |Encode(left, right, size)| == size
  {
  }

  // In a tree written row by row, whatever follows it, a node's children are its
  // row's records, in every layout.
  lemma ChildrenWritten(data: seq<byte>, pairs: seq<(nat, nat)>, size: nat, n: nat)
    requires size in {6, 7, 8} && n < |pairs| && Rows(pairs, size) <= data
    requires pairs[n].0 < RecordRange(size) && pairs[n].1 < RecordRange(size)
    ensures Tree(data, |pairs|, size).WellFormed() && Tree(data, |pairs|, size).Children(n) == pairs[n]
  {
    hide Encode, Decode, Rows;
    RowAt(pairs, size, n);
    RecordRoundTrip(pairs[n].0, pairs[n].1, size);
    EncodeLength(pairs[n].0, pairs[n].1, size);
    RowWithin(Rows(pairs, size), data, n * size, size);
    var tree := Tree(data, |pairs|, size);
    assert tree.WellFormed();
    tree.InBounds(n);
  }

  // The meaning of such a tree, without its bytes: the number of nodes of the
  // tree unrolled from n.
  function UnrolledPairs(pairs: seq<(nat, nat)>, n: nat, levels: nat): Option<nat>
    decreases levels
  {
    if n >= |pairs| then Some(1)
    else if levels == 0 then None
    else
      var a, b := UnrolledPairs(pairs, pairs[n].0, levels - 1), UnrolledPairs(pairs, pairs[n].1, levels - 1);
      if a.None? || b.None? then None else Some(1 + a.value + b.value)
  }

  lemma {:induction false} UnrolledWritten(data: seq<byte>, pairs: seq<(nat, nat)>, size: nat, n: nat, levels: nat)
    requires size in {6, 7, 8} && pairs != [] && Rows(pairs, size) <= data
    requires forall p :: p in pairs ==> p.0 < RecordRange(size) && p.1 < RecordRange(size)
    ensures Tree(data, |pairs|, size).WellFormed()
    ensures Tree(data, |pairs|, size).Unrolled(n, levels) == UnrolledPairs(pairs, n, levels)
    decreases levels
  {
    hide Tree.Children, Rows, RecordRange;
    ChildrenWritten(data, pairs, size, 0);
    if n < |pairs| && levels > 0 {
      assert pairs[n] in pairs;
      ChildrenWritten(data, pairs, size, n);
      UnrolledWritten(data, pairs, size, pairs[n].0, levels - 1);
      UnrolledWritten(data, pairs, size, pairs[n].1, levels - 1);
    }
  }

  // ---------------------------------------------------------------- the walk

  datatype Failure = InvalidMetadata | CycleOrDepth | TooManyVisits | Stopped

  datatype Outcome = Counted(visits: nat) | Failed(failure: Failure)

  // n is the size of the node's finite unrolling, within the budget.
  ghost predicate Counts(tree: Tree, node: nat, n: nat)
    requires tree.WellFormed()
  {
    n <= VISIT_LIMIT && exists k: nat :: tree.Unrolled(node, k) == Some(n)
  }

  // Within the given levels the unrolling is incomplete or too large.
  ghost predicate Excessive(tree: Tree, node: nat, levels: nat)
    requires tree.WellFormed()
  {
    match tree.Unrolled(node, levels)
    case None => true
    case Some(n) => n > VISIT_LIMIT
  }

  // The walk from the root ends within its recursion limit, and the unrolled tree
  // within the budget.
  ghost predicate Accepted(tree: Tree)
    requires tree.WellFormed()
  {
    tree.Reach(0, RECURSION_LIMIT + 1, {}).Some? && exists n: nat :: Counts(tree, 0, n)
  }

  lemma AcceptedMeans(tree: Tree)
    requires tree.WellFormed()
    ensures Accepted(tree) <==>
      && tree.Reach(0, 129, {}).Some?
      && exists k: nat :: tree.Unrolled(0, k).Some? && tree.Unrolled(0, k).value <= 40_000_000
  {
    hide Tree.Reach, Tree.Unrolled;
    if Accepted(tree) {
      var n: nat :| Counts(tree, 0, n);
      var k: nat :| tree.Unrolled(0, k) == Some(n);
    }
    if tree.Reach(0, 129, {}).Some? {
      if k: nat :| tree.Unrolled(0, k).Some? && tree.Unrolled(0, k).value <= 40_000_000 {
        assert Counts(tree, 0, tree.Unrolled(0, k).value);
      }
    }
  }

  // In particular every tree of at most 129 levels within the budget.
  lemma LowAccepted(tree: Tree)
    requires tree.WellFormed() && !Excessive(tree, 0, RECURSION_LIMIT + 1)
    ensures Accepted(tree)
  {
    tree.LowReached(0, RECURSION_LIMIT + 1, {});
    assert Counts(tree, 0, tree.Unrolled(0, RECURSION_LIMIT + 1).value);
  }

  // Left records followed from node to node.
  ghost predicate LeftSpine(tree: Tree, path: seq<nat>)
    requires tree.WellFormed()
  {
    && (forall i :: 0 <= i < |path| ==> path[i] < tree.count)
    && (forall i :: 0 <= i < |path| - 1 ==> path[i + 1] == tree.Children(path[i]).0)
  }

  // A tree whose left records lead through 130 nodes is refused, though its
  // count may be small: the 129 levels end there.
  lemma SpineRefused(tree: Tree, path: seq<nat>)
    requires tree.WellFormed() && LeftSpine(tree, path) && |path| == 130 && path[0] == 0
    ensures !Accepted(tree)
  {
    SpineUnreached(tree, path, 0);
  }

  lemma {:induction false} SpineUnreached(tree: Tree, path: seq<nat>, i: nat)
    requires tree.WellFormed() && LeftSpine(tree, path) && |path| == RECURSION_LIMIT + 2 && i < |path|
    ensures tree.Reach(path[i], RECURSION_LIMIT + 1 - i, {}) == None
    decreases |path| - i
  {
    hide Tree.Children;
    if i + 1 < |path| {
      assert path[i + 1] == tree.Children(path[i]).0;
      SpineUnreached(tree, path, i + 1);
    }
  }

  class Walker {
    const tree: Tree
    const cancelled: nat -> bool     // the context's answer to its n-th query
    const state: array<int>          // 0 unseen, 1 being walked, 2 finished
    const visits: array<uint32>
    var queries: nat

    // Exactly the nodes of the stack are being walked, and a finished node
    // records the size of its finite unrolling.
    ghost predicate Valid(stack: seq<nat>)
      reads state, visits
    {
      && tree.WellFormed()
      && state.Length == visits.Length == tree.count
      && (forall m :: m in stack ==> m < tree.count)
      && (forall m :: 0 <= m < tree.count ==> (state[m] == 1 <==> m in stack))
      && (forall m :: 0 <= m < tree.count && state[m] == 2 ==> Counts(tree, m, visits[m]))
    }

    ghost function Finished(): set<nat>
      reads state
    {
      set m: nat | m < state.Length && state[m] == 2
    }

    constructor (tree: Tree, cancelled: nat -> bool)
      requires tree.WellFormed()
      ensures this.tree == tree && this.cancelled == cancelled && Valid([]) && Finished() == {}
      ensures fresh(state) && fresh(visits) && queries == 0
    {
      this.tree, this.cancelled, queries := tree, cancelled, 0;
      state := new int[tree.count](_ => 0);
      visits := new uint32[tree.count](_ => 0);
    }

    // What a walk comes to, from the nodes finished before it.
    ghost predicate Walked(node: nat, levels: nat, before: set<nat>, r: Outcome)
      reads state
      requires tree.WellFormed()
    {
      match r
      case Counted(n) => Counts(tree, node, n) && tree.Reach(node, levels, before) == Some(Finished())
      case Failed(CycleOrDepth) => tree.Reach(node, levels, before) == None
      case Failed(TooManyVisits) => forall k: nat :: Excessive(tree, node, k)
      case Failed(_) => r.failure == Stopped
    }

    twostate predicate SawStop()
      reads this
    {
      exists q :: old(queries) <= q < queries && cancelled(q)
    }

    method Walk(node: uint32, depth: nat, ghost stack: seq<nat>) returns (r: Outcome)
      requires Valid(stack) && depth == |stack| <= RECURSION_LIMIT + 1
      requires tree.IsPath(stack + [node as int])
      modifies this, state, visits
      ensures tree.WellFormed() && Walked(node, RECURSION_LIMIT + 1 - depth, old(Finished()), r)
      ensures r.Counted? ==> Valid(stack)
      ensures r.Counted? && node < tree.count ==> state[node] == 2 && visits[node] == r.visits
      ensures r == Failed(Stopped) ==> SawStop()
      ensures queries >= old(queries)
      decreases RECURSION_LIMIT + 1 - depth, 1
    {
      hide Tree.Unrolled, Tree.Children, Tree.IsPath, Tree.Reach, Counts, Excessive;
      ghost var levels := RECURSION_LIMIT + 1 - depth;
      AtLimit(tree, node);
      ReachSteps(tree, node, levels, Finished());
      if node >= tree.count {
        return Counted(1);
      }
      if depth > RECURSION_LIMIT || state[node] == 1 {
        if node in stack {
          StackUnreached(tree, stack, node, levels, Finished());
        }
        return Failed(CycleOrDepth);
      }
      if state[node] == 2 {
        return Counted(visits[node]);
      }
      if node % 4096 == 0 {
        var stop := cancelled(queries);
        queries := queries + 1;
        if stop {
          return Failed(Stopped);
        }
      }
      r := Descend(node, depth, stack);
    }

    // A node met for the first time: both records, then its own count.
    method Descend(node: uint32, depth: nat, ghost stack: seq<nat>) returns (r: Outcome)
      requires Valid(stack) && depth == |stack| <= RECURSION_LIMIT
      requires tree.IsPath(stack + [node as int]) && node < tree.count && state[node] != 1 && state[node] != 2
      modifies this, state, visits
      ensures tree.WellFormed() && Walked(node, RECURSION_LIMIT + 1 - depth, old(Finished()), r)
      ensures r.Counted? ==> Valid(stack) && state[node] == 2 && visits[node] == r.visits
      ensures r == Failed(Stopped) ==> SawStop()
      ensures queries >= old(queries)
      decreases RECURSION_LIMIT + 1 - depth, 0
    {
      hide Tree.Unrolled, Tree.Children, Tree.IsPath, Tree.Reach, Counts, Excessive;
      ghost var before, deeper := Finished(), stack + [node as int];
      ReachSteps(tree, node, RECURSION_LIMIT + 1 - depth, before);
      ChildExceeds(tree, node);
      state[node] := 1;
      var (left, right) := tree.Children(node);
      PushEdge(tree, deeper, left);
      PushEdge(tree, deeper, right);
      assert Valid(deeper) && Finished() == before;
      var a := Walk(left, depth + 1, deeper);
      if a.Failed? {
        return a;
      }
      var b := Walk(right, depth + 1, deeper);
      if b.Failed? {
        return b;
      }
      var total := a.visits + b.visits + 1;
      if total > VISIT_LIMIT {
        ParentExceeds(tree, node, a.visits, b.visits);
        return Failed(TooManyVisits);
      }
      ParentCount(tree, node, a.visits, b.visits);
      ghost var walked := Finished();
      state[node], visits[node] := 2, total;
      assert Finished() == walked + {node as int};
      return Counted(total);
    }
  }

  lemma AtLimit(tree: Tree, node: nat)
    requires tree.WellFormed()
    ensures if node >= tree.count then Counts(tree, node, 1) else Excessive(tree, node, 0)
  {
    assert node >= tree.count ==> tree.Unrolled(node, 0) == Some(1);
  }

  // A node is at least as excessive as either child.
  lemma ChildExcessive(tree: Tree, node: nat, levels: nat)
    requires tree.WellFormed() && node < tree.count && levels > 0
    ensures Excessive(tree, tree.Children(node).0, levels - 1) ==> Excessive(tree, node, levels)
    ensures Excessive(tree, tree.Children(node).1, levels - 1) ==> Excessive(tree, node, levels)
  {
  }

  // A node none of whose unrollings fits cannot be below one that has one.
  lemma ChildExceeds(tree: Tree, node: nat)
    requires tree.WellFormed() && node < tree.count
    ensures (forall k: nat :: Excessive(tree, tree.Children(node).0, k)) ||
            (forall k: nat :: Excessive(tree, tree.Children(node).1, k)) ==>
              forall k: nat :: Excessive(tree, node, k)
  {
    hide Tree.Unrolled, Tree.Children, Excessive;
    if (forall k: nat :: Excessive(tree, tree.Children(node).0, k)) || (forall k: nat :: Excessive(tree, tree.Children(node).1, k)) {
      forall k: nat ensures Excessive(tree, node, k) {
        if k == 0 {
          AtLimit(tree, node);
        } else {
          ChildExcessive(tree, node, k);
        }
      }
    }
  }

  lemma ParentExceeds(tree: Tree, node: nat, a: nat, b: nat)
    requires tree.WellFormed() && node < tree.count && a + b + 1 > VISIT_LIMIT
    requires Counts(tree, tree.Children(node).0, a) && Counts(tree, tree.Children(node).1, b)
    ensures forall k: nat :: Excessive(tree, node, k)
  {
    hide Tree.Unrolled, Tree.Children, Excessive;
    var l := ParentUnrolled(tree, node, a, b);
    forall k: nat ensures Excessive(tree, node, k) {
      EitherExcessive(tree, node, k, l, a + b + 1);
    }
  }

  lemma EitherExcessive(tree: Tree, node: nat, k: nat, l: nat, n: nat)
    requires tree.WellFormed() && tree.Unrolled(node, l) == Some(n) && n > VISIT_LIMIT
    ensures Excessive(tree, node, k)
  {
    hide Tree.Unrolled;
    if tree.Unrolled(node, k).Some? {
      tree.UnrolledAgrees(node, k, l);
    }
  }

  lemma ReachSteps(tree: Tree, node: nat, levels: nat, finished: set<nat>)
    requires tree.WellFormed()
    ensures tree.Reach(node, levels, finished) ==
      if node >= tree.count then Some(finished)
      else if levels == 0 then None
      else if node in finished then Some(finished)
      else
        var a := tree.Reach(tree.Children(node).0, levels - 1, finished);
        if a.None? then None
        else
          var b := tree.Reach(tree.Children(node).1, levels - 1, a.value);
          if b.None? then None else Some(b.value + {node})
  {
    hide Tree.Children;
  }

  // A node met again while it is being walked is not walked to the end.
  lemma StackUnreached(tree: Tree, stack: seq<nat>, node: nat, levels: nat, finished: set<nat>)
    requires tree.WellFormed() && tree.IsPath(stack + [node]) && node in stack
    requires forall m :: m in finished ==> exists n: nat :: Counts(tree, m, n)
    ensures tree.Reach(node, levels, finished) == None
  {
    hide Tree.Reach, Tree.IsPath, Tree.Children, Tree.Unrolled;
    if tree.Reach(node, levels, finished).Some? {
      forall m | m in finished ensures tree.Finite(m) {
        var n: nat :| Counts(tree, m, n);
        var k: nat :| tree.Unrolled(m, k) == Some(n);
      }
      tree.ReachFinite(node, levels, finished);
      var k: nat :| tree.Unrolled(node, k).Some?;
      StackCycle(tree, stack, node, k);
    }
  }

  lemma PushEdge(tree: Tree, path: seq<nat>, next: nat)
    requires tree.WellFormed() && tree.IsPath(path) && |path| > 0
    requires tree.Edge(path[|path| - 1], next)
    ensures tree.IsPath(path + [next])
  {
  }

  // A node met again while it is being walked has no finite unrolling.
  lemma StackCycle(tree: Tree, stack: seq<nat>, node: nat, levels: nat)
    requires tree.WellFormed() && tree.IsPath(stack + [node]) && node in stack
    ensures tree.Unrolled(node, levels) == None && Excessive(tree, node, levels)
  {
    var i :| 0 <= i < |stack| && stack[i] == node;
    var path := stack + [node];
    var loop := path[i..];
    assert tree.IsPath(loop) by {
      forall j | 0 <= j < |loop| - 1 ensures tree.Edge(loop[j], loop[j + 1]) {
        assert tree.Edge(path[i + j], path[i + j + 1]);
      }
    }
    if tree.Unrolled(node, levels).Some? {
      tree.NoCycle(loop, levels);
    }
  }

  // The counts of two finite children add up to their parent's.
  lemma ParentUnrolled(tree: Tree, node: nat, a: nat, b: nat) returns (l: nat)
    requires tree.WellFormed() && node < tree.count
    requires Counts(tree, tree.Children(node).0, a) && Counts(tree, tree.Children(node).1, b)
    ensures tree.Unrolled(node, l) == Some(a + b + 1)
  {
    hide Tree.Children;
    var (left, right) := tree.Children(node);
    var j: nat :| tree.Unrolled(left, j) == Some(a);
    var k: nat :| tree.Unrolled(right, k) == Some(b);
    tree.UnrolledGrows(left, j, j + k);
    tree.UnrolledGrows(right, k, j + k);
    l := j + k + 1;
  }

  lemma ParentCount(tree: Tree, node: nat, a: nat, b: nat)
    requires tree.WellFormed() && node < tree.count && a + b + 1 <= VISIT_LIMIT
    requires Counts(tree, tree.Children(node).0, a) && Counts(tree, tree.Children(node).1, b)
    ensures Counts(tree, node, a + b + 1)
  {
    hide Tree.Unrolled, Tree.Children;
    var l := ParentUnrolled(tree, node, a, b);
  }

  // In an accepted tree no walk from the root, however long, meets a node twice.
  lemma AcceptedAcyclic(tree: Tree, n: nat, path: seq<nat>, i: nat, j: nat)
    requires tree.WellFormed() && Counts(tree, 0, n)
    requires tree.IsPath(path) && i < j < |path| && path[0] == 0
    ensures path[i] != path[j]
  {
    var k: nat :| tree.Unrolled(0, k) == Some(n);
    tree.PathDescends(path, i, k);
    if path[i] == path[j] {
      var loop := path[i..j + 1];
      assert tree.IsPath(loop) by {
        forall m | 0 <= m < |loop| - 1 ensures tree.Edge(loop[m], loop[m + 1]) {
          assert tree.Edge(path[i + m], path[i + m + 1]);
        }
      }
      tree.NoCycle(loop, k - i);
    }
  }

  // Go's conversion of an unsigned metadata field to a signed integer.
  function IntOf(n: uint64): int { if n < TWO_64 / 2 then n else n - TWO_64 }

  // boundMMDBTree.
  method BoundTree(data: seq<byte>, nodeCount: uint64, recordSize: uint64, cancelled: nat -> bool)
    returns (failure: Option<Failure>)
    ensures failure == Some(InvalidMetadata) <==>
      IntOf(nodeCount) < 1 || recordSize / 4 !in {6, 7, 8} || nodeCount > |data| / (recordSize / 4)
    ensures failure != Some(InvalidMetadata) ==> Tree(data, nodeCount, recordSize / 4).WellFormed()
    ensures failure.None? ==> Accepted(Tree(data, nodeCount, recordSize / 4))
    ensures failure == Some(Stopped) ==> exists q :: cancelled(q)
    ensures failure == Some(CycleOrDepth) || failure == Some(TooManyVisits) ==>
      !Accepted(Tree(data, nodeCount, recordSize / 4))
  {
    hide Tree.Reach, Tree.Unrolled, Tree.Children, Excessive, Counts, Accepted;
    var count, size := IntOf(nodeCount), IntOf(recordSize) / 4;
    if count < 1 || (size != 6 && size != 7 && size != 8) || count > |data| / size {
      return Some(InvalidMetadata);
    }
    var tree := Tree(data, count, size);
    assert tree.WellFormed() by {
      assert count * size <= (|data| / size) * size <= |data|;
    }
    var walker := new Walker(tree, cancelled);
    var r := walker.Walk(0, 0, []);
    failure := if r.Failed? then Some(r.failure) else None;
    if r == Failed(TooManyVisits) {
      NeverCounts(tree, 0);
    }
    AcceptedWhen(tree);
  }

  lemma AcceptedWhen(tree: Tree)
    requires tree.WellFormed()
    ensures Accepted(tree) <==> tree.Reach(0, RECURSION_LIMIT + 1, {}).Some? && exists n: nat :: Counts(tree, 0, n)
  {
  }

  lemma NeverCounts(tree: Tree, node: nat)
    requires tree.WellFormed() && forall k: nat :: Excessive(tree, node, k)
    ensures !exists n: nat :: Counts(tree, node, n)
  {
    if n: nat :| Counts(tree, node, n) {
      var k := NotExcessive(tree, node, n);
    }
  }

  lemma NotExcessive(tree: Tree, node: nat, n: nat) returns (k: nat)
    requires tree.WellFormed() && Counts(tree, node, n)
    ensures !Excessive(tree, node, k)
  {
    k :| tree.Unrolled(node, k) == Some(n);
  }

  // ---------------------------------------------------------------- a taller tree

  const CHAIN: nat := 100
  const NODES: nat := 2 * CHAIN + 1

  // Below the root, on the left a chain of 100 nodes along left records, on the
  // right a chain of 100 along right records whose end leads back to the first.
  // Every other record is a leaf.
  function TallLeft(n: nat): nat {
    if n == 0 then 1 else if n < CHAIN then n + 1 else NODES
  }

  function TallRight(n: nat): nat {
    if n == 0 then CHAIN + 1
    else if n <= CHAIN then NODES
    else if n < 2 * CHAIN then n + 1
    else 1
  }

  function TallPairs(): seq<(nat, nat)> { seq(NODES, i requires 0 <= i < NODES => (TallLeft(i), TallRight(i))) }

  function TallTree(): Tree { Tree(Rows(TallPairs(), 6), NODES, 6) }

  lemma TallChildren(n: nat)
    requires n < NODES
    ensures TallTree().WellFormed() && TallTree().Children(n) == (TallLeft(n), TallRight(n))
  {
    hide Rows;
    ChildrenWritten(Rows(TallPairs(), 6), TallPairs(), 6, n);
  }

  // The nodes of a chain from n to its end.
  function Chain(n: nat, end: nat): (chain: set<nat>)
    ensures forall m: nat :: m in chain <==> n <= m <= end
    decreases end - n
  {
    if n > end then {} else Chain(n + 1, end) + {n}
  }

  lemma {:induction false} LeftChain(n: nat, levels: nat)
    requires 1 <= n <= CHAIN && levels >= CHAIN - n + 1
    ensures TallTree().WellFormed()
    ensures TallTree().Reach(n, levels, {}) == Some(Chain(n, CHAIN))
    ensures TallTree().Unrolled(n, levels) == Some(2 * (CHAIN - n) + 3)
    decreases CHAIN - n
  {
    hide TallTree, Tree.Children, Tree.WellFormed, Chain, Tree.Reach;
    TallChildren(n);
    TallSize();
    ChainSteps(n, CHAIN);
    if n < CHAIN {
      LeftChain(n + 1, levels - 1);
    }
    ReachSteps(TallTree(), n, levels, {});
    ReachSteps(TallTree(), NODES, levels - 1, {});
    ReachSteps(TallTree(), NODES, levels - 1, Chain(n + 1, CHAIN));
  }

  lemma ChainSteps(n: nat, end: nat)
    requires n <= end
    ensures Chain(n, end) == Chain(n + 1, end) + {n} && n in Chain(n, end) && Chain(end + 1, end) == {}
    ensures forall m: nat :: m in Chain(n, end) <==> n <= m <= end
  {
  }

  lemma TallSize()
    ensures TallTree().WellFormed() && TallTree().count == NODES
  {
    TallChildren(0);
  }

  lemma {:induction false} RightChain(n: nat, levels: nat)
    requires CHAIN < n <= 2 * CHAIN && levels > 2 * CHAIN - n + 1
    ensures TallTree().WellFormed()
    ensures TallTree().Reach(n, levels, Chain(1, CHAIN)) == Some(Chain(1, CHAIN) + Chain(n, 2 * CHAIN))
    decreases 2 * CHAIN - n
  {
    hide TallTree, Tree.Children, Tree.WellFormed, Chain, Tree.Reach;
    TallChildren(n);
    TallSize();
    ChainSteps(1, CHAIN);
    ChainSteps(n, 2 * CHAIN);
    if n < 2 * CHAIN {
      RightChain(n + 1, levels - 1);
      assert Chain(1, CHAIN) + Chain(n + 1, 2 * CHAIN) + {n} == Chain(1, CHAIN) + Chain(n, 2 * CHAIN);
    } else {
      assert Chain(n, 2 * CHAIN) == {n};
      ReachSteps(TallTree(), 1, levels - 1, Chain(1, CHAIN));
    }
    ReachSteps(TallTree(), n, levels, Chain(1, CHAIN));
    ReachSteps(TallTree(), NODES, levels - 1, Chain(1, CHAIN));
  }

  lemma {:induction false} RightUnrolled(n: nat, levels: nat)
    requires CHAIN < n <= 2 * CHAIN && levels >= 3 * CHAIN - n + 1
    ensures TallTree().WellFormed()
    ensures TallTree().Unrolled(n, levels) == Some(2 * (2 * CHAIN - n) + 2 * CHAIN + 3)
    decreases 2 * CHAIN - n
  {
    hide TallTree, Tree.Children, Tree.WellFormed, Tree.Reach, Chain;
    TallChildren(n);
    TallSize();
    if n < 2 * CHAIN {
      RightUnrolled(n + 1, levels - 1);
    } else {
      LeftChain(1, levels - 1);
    }
  }

  // It is accepted, though it has 201 levels: the limit bounds the depth at which
  // the walk arrives, not the height of what is shared.
  lemma TallAccepted()
    ensures TallTree().WellFormed() && Accepted(TallTree())
    ensures TallTree().Unrolled(0, NODES - 1) == None && TallTree().Unrolled(0, NODES).Some?
  {
    hide TallTree, Tree.Children, Tree.WellFormed, Chain, Tree.Reach, Tree.Unrolled;
    TallSize();
    TallHeight();
    TallReached();
    TallCounted();
    assert Counts(TallTree(), 0, 4 * CHAIN + 2 * CHAIN + 3);
  }

  lemma TallReached()
    ensures TallTree().WellFormed() && TallTree().Reach(0, RECURSION_LIMIT + 1, {}).Some?
  {
    hide TallTree, Tree.Children, Tree.WellFormed, Chain, Tree.Reach;
    TallChildren(0);
    TallSize();
    LeftChain(1, RECURSION_LIMIT);
    RightChain(CHAIN + 1, RECURSION_LIMIT);
    ReachSteps(TallTree(), 0, RECURSION_LIMIT + 1, {});
  }

  lemma TallCounted()
    ensures TallTree().WellFormed() && TallTree().Unrolled(0, NODES) == Some(4 * CHAIN + 2 * CHAIN + 3)
  {
    hide TallTree, Tree.Children, Tree.WellFormed, Chain, Tree.Reach;
    TallChildren(0);
    TallSize();
    LeftChain(1, NODES - 1);
    RightUnrolled(CHAIN + 1, NODES - 1);
  }

  // Its longest walk visits all 201 nodes.
  lemma TallHeight()
    ensures TallTree().WellFormed() && TallTree().Unrolled(0, NODES - 1) == None
  {
    hide TallTree, Tree.Children, Tree.WellFormed;
    TallSize();
    var path := seq(NODES, i requires 0 <= i < NODES => if i == 0 then 0 else if i <= CHAIN then CHAIN + i else i - CHAIN);
    forall i | 0 <= i < |path| - 1 ensures TallTree().Edge(path[i], path[i + 1]) {
      TallChildren(path[i]);
    }
    if TallTree().Unrolled(0, NODES - 1).Some? {
      TallTree().PathDescends(path, NODES - 1, NODES - 1);
    }
  }
}
