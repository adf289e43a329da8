// journal_diagnostics.go: the first and the last 4 KiB of a child's stderr.
module StderrBuffer {
  import opened Wrappers

  const HALF: nat := 4096

  // The last n bytes, or all of them.
  function LastOf(s: seq<byte>, n: nat): seq<byte> { s[|s| - Min(n, |s|)..] }

  // What the buffer keeps of everything written.
  function KeptPrefix(w: seq<byte>): seq<byte> { w[..Min(HALF, |w|)] }

  function KeptTail(w: seq<byte>): seq<byte> { LastOf(w[Min(HALF, |w|)..], HALF) }

  class BoundedStderr {
    const prefix: array<byte>
    const tail: array<byte>
    var prefixLength: nat
    var tailLength: nat
    var truncated: bool
    ghost var written: seq<byte>

    ghost predicate Valid()
      reads this, prefix, tail
    {
      && prefix.Length == tail.Length == HALF && prefix != tail
      && prefixLength <= HALF && tailLength <= HALF
      && prefix[..prefixLength] == KeptPrefix(written)
      && tail[..tailLength] == KeptTail(written)
      && (truncated <==> |written| > 2 * HALF)
    }

    constructor ()
      ensures Valid() && written == [] && fresh(prefix) && fresh(tail)
    {
      prefix := new byte[HALF](_ => 0);
      tail := new byte[HALF](_ => 0);
      prefixLength, tailLength, truncated, written := 0, 0, false, [];
    }

    method Write(data: seq<byte>) returns (n: nat)
      requires Valid()
      modifies this, prefix, tail
      ensures Valid() && written == old(written) + data && n == |data|
    {
      hide LastOf, KeptPrefix, KeptTail;
      n := |data|;
      PrefixLength(written);
      TailLength(written);
      var rest := data;
      if prefixLength < HALF {
        var take := Min(HALF - prefixLength, |data|);
        Fill(prefix, prefixLength, data[..take]);
        prefixLength := prefixLength + take;
        rest := data[take..];
      }
      assert data[..|data| - |rest|] + rest == data;
      TailOfWrite(written, data, rest);
      truncated := truncated || tailLength + |rest| > HALF;
      AppendTail(rest);
      written := written + data;
    }

    // The rest of the write goes to the tail, which keeps its last bytes.
    method AppendTail(rest: seq<byte>)
      requires tail.Length == HALF && tailLength <= HALF
      modifies this`tailLength, tail
      ensures tailLength <= HALF
      ensures tail[..tailLength] == LastOf(old(tail[..tailLength]) + rest, HALF)
    {
      hide LastOf;
      ghost var kept := tail[..tailLength];
      TailAppends(kept, rest);
      if |rest| >= HALF {
        Fill(tail, 0, rest[|rest| - HALF..]);
        tailLength := HALF;
      } else if |rest| > 0 {
        var keep := HALF - |rest|;
        LastOfLength(kept, keep);
        if tailLength > keep {
          ShiftDown(tailLength - keep, keep);
          tailLength := keep;
        }
        assert tail[..tailLength] == LastOf(kept, keep);
        Fill(tail, tailLength, rest);
        tailLength := tailLength + |rest|;
      }
    }

    // append: the bytes land behind those already there.
    method Fill(a: array<byte>, at: nat, bytes: seq<byte>)
      requires at + |bytes| <= a.Length
      modifies a
      ensures a[..at + |bytes|] == old(a[..at]) + bytes
    {
      for i := 0 to |bytes|
        invariant a[..at] == old(a[..at]) && a[at..at + i] == bytes[..i]
      {
        a[at + i] := bytes[i];
        assert bytes[..i + 1] == bytes[..i] + [bytes[i]];
      }
      assert a[..at + |bytes|] == a[..at] + a[at..at + |bytes|];
    }

    // copy within the tail, towards its start.
    method ShiftDown(from: nat, keep: nat)
      requires from + keep <= tail.Length
      modifies tail
      ensures tail[..keep] == old(tail[from..from + keep])
    {
      for i := 0 to keep
        invariant tail[..i] == old(tail[from..from + i])
        invariant tail[i..] == old(tail[i..])
      {
        ghost var before := tail[i..];
        tail[i] := tail[from + i];
        assert tail[i + 1..] == before[1..];
      }
    }

    // The text that failure messages are searched in, before lowercasing.
    method Captured() returns (text: seq<byte>)
      requires Valid()
      ensures |written| <= 8192 ==> text == written
      ensures |written| > 8192 ==> text == written[..4096] + [10] + written[|written| - 4096..]
    {
      var separator: seq<byte> := [];
      if truncated {
        separator := [10];
      }
      text := prefix[..prefixLength] + separator + tail[..tailLength];
      var rest := written[Min(HALF, |written|)..];
      assert written == written[..Min(HALF, |written|)] + rest;
    }
  }

  lemma PrefixLength(w: seq<byte>)
    ensures |KeptPrefix(w)| == Min(HALF, |w|)
  {
  }

  lemma TailLength(w: seq<byte>)
    ensures |KeptTail(w)| == if |w| <= HALF then 0 else Min(HALF, |w| - HALF)
  {
  }

  lemma LastOfLength(s: seq<byte>, n: nat)
    ensures |LastOf(s, n)| == Min(n, |s|)
    ensures n >= |s| ==> LastOf(s, n) == s
    ensures n < |s| ==> LastOf(s, n) == s[|s| - n..]
  {
  }

  // Keeping the last half of everything needs only the last half kept so far.
  lemma TailAppends(kept: seq<byte>, rest: seq<byte>)
    ensures LastOf(kept + rest, HALF) ==
      if |rest| >= HALF then rest[|rest| - HALF..]
      else LastOf(kept, HALF - |rest|) + rest
    ensures |kept| <= HALF && rest == [] ==> LastOf(kept + rest, HALF) == kept
  {
  }

  lemma LastOfLast(x: seq<byte>, rest: seq<byte>, n: nat)
    ensures LastOf(LastOf(x, n) + rest, n) == LastOf(x + rest, n)
  {
    var cut := |x| - Min(n, |x|);
    assert x == x[..cut] + x[cut..];
    assert x + rest == x[..cut] + (LastOf(x, n) + rest);
  }

  lemma TailOfWrite(w: seq<byte>, data: seq<byte>, rest: seq<byte>)
    requires rest == data[if |w| < HALF then Min(HALF - |w|, |data|) else 0..]
    ensures KeptTail(w + data) == LastOf(KeptTail(w) + rest, HALF)
    ensures KeptPrefix(w + data) == KeptPrefix(w) + data[..|data| - |rest|]
  {
    hide LastOf;
    var all := w + data;
    if |w| < HALF {
      assert all[Min(HALF, |all|)..] == rest;
      assert w[|w|..] == [];
      LastOfLength([], HALF);
      assert KeptTail(w) + rest == rest;
    } else {
      assert all[HALF..] == w[HALF..] + rest;
      LastOfLast(w[HALF..], rest, HALF);
    }
  }
}
