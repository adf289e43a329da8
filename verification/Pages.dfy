// console.go, outputPages: long output cut into pages without breaking a character.
module Pages {
  import opened Wrappers
  import opened Utf8

  const MAX_OUTPUT: nat := 262_144
  const PAGE: nat := 16_384

  // A boundary of valid text splits it into valid halves.
  lemma {:induction false} SplitValid(s: seq<byte>, k: nat)
    requires Valid(s) && k <= |s| && (k < |s| ==> RuneStart(s[k]))
    ensures Valid(s[..k]) && Valid(s[k..])
    decreases |s|
  {
    var n := CharLength(s);
    if k == 0 {
      assert s[0..] == s && s[..0] == [];
    } else if k == |s| {
      assert s[..k] == s && s[k..] == [];
    } else {
      BoundaryPastFirst(s, k);
      assert s[n..][k - n..] == s[k..] && s[n..][..k - n] == s[n..k];
      SplitValid(s[n..], k - n);
      HeadOfPrefix(s, k);
      assert s[..k][n..] == s[n..k];
    }
  }

  lemma BoundaryPastFirst(s: seq<byte>, k: nat)
    requires CharLength(s) > 0 && 0 < k < |s| && RuneStart(s[k])
    ensures CharLength(s) <= k
  {
  }

  lemma HeadOfPrefix(s: seq<byte>, k: nat)
    requires CharLength(s) > 0 && CharLength(s) <= k <= |s|
    ensures CharLength(s[..k]) == CharLength(s)
  {
  }

  // Every position of valid text has a character start at most three bytes back.
  lemma {:induction false} StartNearby(s: seq<byte>, k: nat) returns (j: nat)
    requires Valid(s) && k < |s|
    ensures k - 3 <= j <= k && RuneStart(s[j])
    decreases |s|
  {
    var n := CharLength(s);
    if k < n {
      j := 0;
    } else {
      j := StartNearby(s[n..], k - n);
      j := j + n;
    }
  }

  // `end` is the last character start at or before the limit, or the very beginning.
  ghost predicate CutAt(text: seq<byte>, limit: nat, end: nat)
    requires limit < |text|
  {
    && end <= limit && (end == 0 || RuneStart(text[end]))
    && forall k :: end < k <= limit ==> !RuneStart(text[k])
  }

  // In valid text that cut loses at most three bytes and no part of a character.
  lemma CutValid(text: seq<byte>, limit: nat, end: nat)
    requires Valid(text) && limit < |text| && CutAt(text, limit, end)
    ensures limit - 3 <= end && RuneStart(text[end])
    ensures Valid(text[..end]) && Valid(text[end..])
  {
    hide Valid;
    var j := StartNearby(text, limit);
    var first := StartNearby(text, 0);
    SplitValid(text, end);
  }

  // The unguarded backward scan, on valid text.
  method Boundary(text: seq<byte>, limit: nat) returns (end: nat)
    requires Valid(text) && limit < |text|
    ensures CutAt(text, limit, end)
  {
    hide Valid;
    var j := StartNearby(text, limit);
    end := limit;
    while !RuneStart(text[end])
      invariant j <= end <= limit
      invariant forall k :: end < k <= limit ==> !RuneStart(text[k])
      decreases end
    {
      end := end - 1;
    }
  }

  // The guarded scan before cleaning, on text of any bytes.
  method RawBoundary(text: seq<byte>, limit: nat) returns (end: nat)
    requires limit < |text|
    ensures CutAt(text, limit, end)
  {
    end := limit;
    while end > 0 && !RuneStart(text[end])
      invariant end <= limit && forall k :: end < k <= limit ==> !RuneStart(text[k])
    {
      end := end - 1;
    }
  }

  function Concat(pages: seq<seq<byte>>): seq<byte> {
    if pages == [] then [] else Concat(pages[..|pages| - 1]) + pages[|pages| - 1]
  }

  // Pages of valid text, all full to within a character except the last.
  ghost predicate WellPaged(pages: seq<seq<byte>>) {
    && pages != []
    && (forall i :: 0 <= i < |pages| ==> Valid(pages[i]) && |pages[i]| <= PAGE)
    && (forall i :: 0 <= i < |pages| - 1 ==> |pages[i]| >= PAGE - 3)
  }

  // `shown` is `text`, or its longest cut at a character within the budget.
  ghost predicate CutOf(shown: seq<byte>, text: seq<byte>) {
    if |text| <= MAX_OUTPUT then shown == text else shown <= text && CutAt(text, MAX_OUTPUT, |shown|)
  }

  // outputPages. `clean` stands for cleanText, which returns valid UTF-8. The
  // cut is made twice, before and after cleaning; in valid text each loses at
  // most three bytes of the budget.
  method OutputPages(text: seq<byte>, clean: seq<byte> -> seq<byte>)
    returns (pages: seq<seq<byte>>, truncated: bool, ghost raw: seq<byte>)
    requires forall s :: Valid(clean(s))
    ensures CutOf(raw, text)
    ensures |text| > MAX_OUTPUT && Valid(text) ==> |raw| >= MAX_OUTPUT - 3 && Valid(raw)
    ensures WellPaged(pages) && CutOf(Concat(pages), clean(raw))
    ensures |clean(raw)| > MAX_OUTPUT ==> |Concat(pages)| >= MAX_OUTPUT - 3
    ensures truncated <==> |text| > MAX_OUTPUT || |clean(raw)| > MAX_OUTPUT
  {
    hide Valid;
    truncated := |text| > MAX_OUTPUT;
    var shown := text;
    if truncated {
      var end := RawBoundary(text, MAX_OUTPUT);
      if Valid(text) {
        CutValid(text, MAX_OUTPUT, end);
      }
      shown := text[..end];
    }
    raw := shown;
    var cleaned := clean(shown);
    shown := cleaned;
    if |cleaned| > MAX_OUTPUT {
      truncated := true;
      var end := Boundary(cleaned, MAX_OUTPUT);
      CutValid(cleaned, MAX_OUTPUT, end);
      shown := cleaned[..end];
    }
    pages := Paginate(shown);
  }

  // The page loop: nothing is lost, repeated or split inside a character.
  method Paginate(whole: seq<byte>) returns (pages: seq<seq<byte>>)
    requires Valid(whole)
    ensures WellPaged(pages) && Concat(pages) == whole
  {
    hide Valid;
    pages := [];
    var text := whole;
    while |text| > PAGE
      invariant Valid(text) && Concat(pages) + text == whole
      invariant forall i :: 0 <= i < |pages| ==> Valid(pages[i]) && PAGE - 3 <= |pages[i]| <= PAGE
      decreases |text|
    {
      var end := Boundary(text, PAGE);
      CutValid(text, PAGE, end);
      ghost var before := pages;
      pages := pages + [text[..end]];
      assert pages[..|before|] == before && text == text[..end] + text[end..];
      text := text[end..];
    }
    assert (pages + [text])[..|pages|] == pages;
    pages := pages + [text];
  }
}
