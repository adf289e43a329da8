// The standard library's sort, for the callers that use it: any arrangement in
// key order may come back, whichever way ties fall.
module Sorting {

  ghost predicate SortedBy<T>(s: seq<T>, leq: (T, T) -> bool) {
    forall i, j :: 0 <= i < j < |s| ==> leq(s[i], s[j])
  }

  ghost predicate TotalPreorder<T(!new)>(leq: (T, T) -> bool) {
    && (forall x, y :: leq(x, y) || leq(y, x))
    && (forall x, y, z :: leq(x, y) && leq(y, z) ==> leq(x, z))
  }

  lemma Chain<T(!new)>(leq: (T, T) -> bool, x: T, y: T, z: T)
    requires TotalPreorder(leq)
    ensures leq(x, y) || leq(y, x)
    ensures leq(x, y) && leq(y, z) ==> leq(x, z)
  {
  }

  lemma MultisetSplit<T>(s: seq<T>, k: nat)
    requires k < |s|
    ensures multiset(s) == multiset(s[..k] + s[k + 1..]) + multiset{s[k]}
  {
    assert s == s[..k] + [s[k]] + s[k + 1..];
  }

  lemma InsertedContents<T>(s: seq<T>, x: T, k: nat)
    requires k <= |s|
    ensures multiset(s[..k] + [x] + s[k..]) == multiset(s) + multiset{x}
  {
    assert s == s[..k] + s[k..];
  }

  method InsertSorted<T(!new)>(s: seq<T>, x: T, leq: (T, T) -> bool) returns (r: seq<T>)
    requires TotalPreorder(leq) && SortedBy(s, leq)
    ensures SortedBy(r, leq) && multiset(r) == multiset(s) + multiset{x}
  {
    hide TotalPreorder;
    var k := |s|;
    while k > 0 && !leq(s[k - 1], x)
      invariant 0 <= k <= |s|
      invariant forall i :: k <= i < |s| ==> leq(x, s[i])
    {
      Chain(leq, x, s[k - 1], x);
      k := k - 1;
    }
    forall i | 0 <= i < k ensures leq(s[i], x) {
      Chain(leq, s[i], s[k - 1], x);
    }
    r := s[..k] + [x] + s[k..];
    InsertedSorted(s, x, k, leq);
    InsertedContents(s, x, k);
  }

  lemma InsertedSorted<T>(s: seq<T>, x: T, k: nat, leq: (T, T) -> bool)
    requires k <= |s| && SortedBy(s, leq)
    requires (forall i :: 0 <= i < k ==> leq(s[i], x)) && (forall i :: k <= i < |s| ==> leq(x, s[i]))
    ensures SortedBy(s[..k] + [x] + s[k..], leq)
  {
    var r := s[..k] + [x] + s[k..];
    forall i, j | 0 <= i < j < |r| ensures leq(r[i], r[j]) {
      assert r[i] == if i < k then s[i] else if i == k then x else s[i - 1];
      assert r[j] == if j < k then s[j] else if j == k then x else s[j - 1];
    }
  }

  method Sort<T(!new)>(s: seq<T>, leq: (T, T) -> bool) returns (r: seq<T>)
    requires TotalPreorder(leq)
    ensures SortedBy(r, leq) && multiset(r) == multiset(s)
  {
    hide TotalPreorder;
    r := [];
    for i := 0 to |s|
      invariant SortedBy(r, leq) && multiset(r) == multiset(s[..i])
    {
      assert s[..i + 1] == s[..i] + [s[i]];
      r := InsertSorted(r, s[i], leq);
    }
    assert s[..|s|] == s;
  }

  lemma WithoutFirst<T>(s: seq<T>)
    requires s != []
    ensures s == [s[0]] + s[1..] && multiset(s[1..]) == multiset(s) - multiset{s[0]}
  {
    assert s == [s[0]] + s[1..];
  }

  // Two sorted arrangements of the same elements agree when the first has no ties.
  lemma {:induction false} SortUnique<T(!new)>(a: seq<T>, b: seq<T>, leq: (T, T) -> bool)
    requires multiset(a) == multiset(b) && SortedBy(b, leq)
    requires forall i, j :: 0 <= i < j < |a| ==> leq(a[i], a[j]) && !leq(a[j], a[i])
    ensures a == b
    decreases |a|
  {
    assert |a| == |multiset(a)| == |multiset(b)| == |b|;
    if a != [] {
      SameFirst(a, b, leq);
      WithoutFirst(a);
      WithoutFirst(b);
      SortUnique(a[1..], b[1..], leq);
    }
  }

  lemma SameFirst<T(!new)>(a: seq<T>, b: seq<T>, leq: (T, T) -> bool)
    requires multiset(a) == multiset(b) && SortedBy(b, leq) && a != [] && b != []
    requires forall i, j :: 0 <= i < j < |a| ==> leq(a[i], a[j]) && !leq(a[j], a[i])
    ensures a[0] == b[0]
  {
    assert a[0] in multiset(b) && b[0] in multiset(a);
    var k :| 0 <= k < |b| && b[k] == a[0];
    var j :| 0 <= j < |a| && a[j] == b[0];
  }
}
