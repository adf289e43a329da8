// check-current-release.py: product tags, their order, and the newest release.
module ReleaseOrder {
  import opened Wrappers

  // ---------------------------------------------------------------- tags

  datatype Stage = Alpha | Beta | Rc

  // v1.2.3, optionally -alpha, -beta or -rc, optionally numbered.
  datatype Tag = Tag(major: nat, minor: nat, patch: nat, stage: Option<Stage>, number: Option<nat>)

  predicate Canonical(t: Tag) { t.number.Some? ==> t.stage.Some? }

  function StageName(s: Stage): string {
    match s case Alpha => "alpha" case Beta => "beta" case Rc => "rc"
  }

  predicate IsDigit(c: char) { '0' <= c <= '9' }

  function Digit(n: nat): char
    requires n < 10
  {
    '0' + n as char
  }

  // Decimal notation without leading zeros.
  function Decimal(n: nat): (s: string)
    ensures s != "" && forall i :: 0 <= i < |s| ==> IsDigit(s[i])
  {
    if n < 10 then [Digit(n)] else Decimal(n / 10) + [Digit(n % 10)]
  }

  function Suffix(t: Tag): string {
    if t.stage.None? then ""
    else "-" + StageName(t.stage.value) + if t.number.None? then "" else "." + Decimal(t.number.value)
  }

  function Render(t: Tag): string {
    "v" + (Decimal(t.major) + ("." + (Decimal(t.minor) + ("." + (Decimal(t.patch) + Suffix(t))))))
  }

  predicate NoDigitFirst(s: string) { s == "" || !IsDigit(s[0]) }

  lemma {:induction false} DecimalInjective(a: nat, b: nat)
    requires Decimal(a) == Decimal(b)
    ensures a == b
    decreases a
  {
    var s := Decimal(a);
    if a >= 10 && b >= 10 {
      assert s[..|s| - 1] == Decimal(a / 10) == Decimal(b / 10);
      DecimalInjective(a / 10, b / 10);
      assert s[|s| - 1] == Digit(a % 10) == Digit(b % 10);
    } else {
      assert |Decimal(a / 10)| >= 1 && |Decimal(b / 10)| >= 1;
      assert s[|s| - 1] == Digit(a % 10) == Digit(b % 10);
    }
  }

  lemma AfterPatch(t: Tag)
    ensures NoDigitFirst(Suffix(t))
  {
  }

  // ---------------------------------------------------------------- keys

  // The tuple version_key returns.
  datatype Key = Key(major: nat, minor: nat, patch: nat, release: bool, stage: string, number: int)

  function KeyOf(t: Tag): Key {
    Key(t.major, t.minor, t.patch, t.stage.None?,
        if t.stage.None? then "" else StageName(t.stage.value),
        if t.number.None? then -1 else t.number.value)
  }

  // ---------------------------------------------------------------- parsing

  function DigitRun(s: string): (k: nat)
    ensures k <= |s| && (forall i :: 0 <= i < k ==> IsDigit(s[i])) && NoDigitFirst(s[k..])
  {
    if s == "" || !IsDigit(s[0]) then 0 else 1 + DigitRun(s[1..])
  }

  function DigitValue(c: char): (n: nat)
    requires IsDigit(c)
    ensures n < 10 && Digit(n) == c
  {
    c as int - '0' as int
  }

  function ToNat(d: string): nat
    requires forall i :: 0 <= i < |d| ==> IsDigit(d[i])
  {
    if d == "" then 0 else ToNat(d[..|d| - 1]) * 10 + DigitValue(d[|d| - 1])
  }

  // NUMBER: zero, or digits that do not start with zero.
  function Number(s: string): Option<(nat, string)> {
    var k := DigitRun(s);
    if k == 0 || (k > 1 && s[0] == '0') then None else Some((ToNat(s[..k]), s[k..]))
  }

  lemma {:induction false} ToNatPositive(d: string)
    requires d != "" && d[0] != '0' && forall i :: 0 <= i < |d| ==> IsDigit(d[i])
    ensures ToNat(d) >= 1
    decreases |d|
  {
    if |d| > 1 {
      ToNatPositive(d[..|d| - 1]);
    }
  }

  lemma LastDigit(n: nat, c: char)
    requires n > 0 && IsDigit(c)
    ensures Decimal(n * 10 + (c as int - '0' as int)) == Decimal(n) + [c]
  {
  }

  lemma {:induction false} DecimalOfDigits(d: string)
    requires d != "" && (|d| > 1 ==> d[0] != '0') && forall i :: 0 <= i < |d| ==> IsDigit(d[i])
    ensures Decimal(ToNat(d)) == d
    decreases |d|
  {
    var init := d[..|d| - 1];
    assert d == init + [d[|d| - 1]];
    if init != "" {
      ToNatPositive(init);
      DecimalOfDigits(init);
      LastDigit(ToNat(init), d[|d| - 1]);
    }
  }

  lemma {:induction false} DecimalFirst(n: nat)
    ensures Decimal(n)[0] == '0' ==> n == 0
    decreases n
  {
    if n >= 10 {
      DecimalFirst(n / 10);
    }
  }

  lemma NumberReads(s: string)
    requires Number(s).Some?
    ensures var (n, rest) := Number(s).value; s == Decimal(n) + rest && NoDigitFirst(rest)
  {
    DecimalOfDigits(s[..DigitRun(s)]);
  }

  lemma NumberOfDecimal(n: nat, rest: string)
    requires NoDigitFirst(rest)
    ensures Number(Decimal(n) + rest) == Some((n, rest))
  {
    var d, s := Decimal(n), Decimal(n) + rest;
    var k := DigitRun(s);
    assert s[..|d|] == d && s[|d|..] == rest;
    assert k == |d|;
    DecimalFirst(n);
    assert |d| > 1 ==> n != 0;
    DecimalOfDigits(d);
    DecimalInjective(ToNat(d), n);
  }

  // ".N" for a part of the version, then what follows.
  function Dotted(s: string): Option<(nat, string)> {
    if s == "" || s[0] != '.' then None else Number(s[1..])
  }

  function StageAt(s: string): Option<(Stage, string)> {
    if "alpha" <= s then Some((Alpha, s[5..]))
    else if "beta" <= s then Some((Beta, s[4..]))
    else if "rc" <= s then Some((Rc, s[2..]))
    else None
  }

  function ParseSuffix(s: string): Option<(Option<Stage>, Option<nat>)> {
    if s == "" then Some((None, None))
    else if s[0] != '-' || StageAt(s[1..]).None? then None
    else
      var (stage, rest) := StageAt(s[1..]).value;
      if rest == "" then Some((Some(stage), None))
      else
        var number := Dotted(rest);
        if number.None? || number.value.1 != "" then None else Some((Some(stage), Some(number.value.0)))
  }

  function ParseTag(s: string): Option<Tag> {
    if s == "" || s[0] != 'v' || Number(s[1..]).None? then None
    else
      var (major, afterMajor) := Number(s[1..]).value;
      if Dotted(afterMajor).None? then None
      else
        var (minor, afterMinor) := Dotted(afterMajor).value;
        if Dotted(afterMinor).None? then None
        else
          var (patch, suffix) := Dotted(afterMinor).value;
          var tail := ParseSuffix(suffix);
          if tail.None? then None else Some(Tag(major, minor, patch, tail.value.0, tail.value.1))
  }

  lemma SuffixReads(s: string, t: Tag)
    requires ParseSuffix(s) == Some((t.stage, t.number))
    ensures Canonical(t) && s == Suffix(t)
  {
    hide Number, Decimal, StageAt, StageName;
    if s != "" {
      var (stage, rest) := StageAt(s[1..]).value;
      StageSplits(s[1..]);
      assert s == "-" + s[1..];
      if rest != "" {
        NumberReads(rest[1..]);
        assert rest == "." + rest[1..];
      }
    }
  }

  lemma StageSplits(s: string)
    requires StageAt(s).Some?
    ensures s == StageName(StageAt(s).value.0) + StageAt(s).value.1
  {
    hide Number, Decimal;
  }

  lemma StageReads(stage: Stage, rest: string)
    ensures StageAt(StageName(stage) + rest) == Some((stage, rest))
  {
    var name, s := StageName(stage), StageName(stage) + rest;
    assert s[..|name|] == name && s[|name|..] == rest;
    assert s[0] == name[0];
  }

  lemma SuffixParses(t: Tag)
    requires Canonical(t)
    ensures ParseSuffix(Suffix(t)) == Some((t.stage, t.number))
  {
    hide Number, Decimal, StageAt, StageName;
    if t.stage.Some? {
      var name, s := StageName(t.stage.value), Suffix(t);
      var rest := if t.number.None? then "" else "." + Decimal(t.number.value);
      assert s[1..] == name + rest;
      StageReads(t.stage.value, rest);
      if t.number.Some? {
        assert rest[1..] == Decimal(t.number.value) + "";
        NumberOfDecimal(t.number.value, "");
      }
    }
  }

  lemma TagReads(s: string)
    requires ParseTag(s).Some?
    ensures Canonical(ParseTag(s).value) && s == Render(ParseTag(s).value)
  {
    hide Number, Decimal, ParseSuffix, Suffix;
    var t := ParseTag(s).value;
    NumberReads(s[1..]);
    var (major, a) := Number(s[1..]).value;
    NumberReads(a[1..]);
    var (minor, b) := Number(a[1..]).value;
    NumberReads(b[1..]);
    var (patch, c) := Number(b[1..]).value;
    SuffixReads(c, t);
    assert s == "v" + s[1..] && a == "." + a[1..] && b == "." + b[1..];
  }

  lemma TagParses(t: Tag)
    requires Canonical(t)
    ensures ParseTag(Render(t)) == Some(t)
  {
    hide Number, Decimal, ParseSuffix, Suffix;
    AfterPatch(t);
    var c := Suffix(t);
    var b := "." + (Decimal(t.patch) + c);
    var a := "." + (Decimal(t.minor) + b);
    assert Render(t)[1..] == Decimal(t.major) + a;
    assert a[1..] == Decimal(t.minor) + b && b[1..] == Decimal(t.patch) + c;
    NumberOfDecimal(t.major, a);
    NumberOfDecimal(t.minor, b);
    NumberOfDecimal(t.patch, c);
    SuffixParses(t);
  }

  function VersionKey(tag: string): Option<Key> {
    if |tag| > 128 || ParseTag(tag).None? then None else Some(KeyOf(ParseTag(tag).value))
  }

  // version_key answers for exactly the canonical tags, with their key.
  lemma VersionKeyOf(tag: string, t: Tag)
    requires Canonical(t)
    ensures |tag| <= 128 && tag == Render(t) ==> VersionKey(tag) == Some(KeyOf(t))
    ensures VersionKey(tag).Some? && KeyOf(t) == VersionKey(tag).value ==> tag == Render(t)
  {
    hide ParseTag, Render;
    if tag == Render(t) {
      TagParses(t);
    }
    if VersionKey(tag).Some? && KeyOf(t) == VersionKey(tag).value {
      TagReads(tag);
      KeyOfInjective(t, ParseTag(tag).value);
    }
  }

  // Different product tags have different keys.
  lemma VersionKeyInjective(a: string, b: string)
    requires VersionKey(a).Some? && VersionKey(a) == VersionKey(b)
    ensures a == b
  {
    hide ParseTag, Render;
    TagReads(a);
    TagReads(b);
    KeyOfInjective(ParseTag(a).value, ParseTag(b).value);
  }

  lemma KeyOfInjective(t: Tag, u: Tag)
    requires Canonical(t) && Canonical(u) && KeyOf(t) == KeyOf(u)
    ensures t == u
  {
    assert t.stage.Some? ==> StageName(t.stage.value) == StageName(u.stage.value);
  }

  // Python's order on strings and on the tuples.
  predicate TextLess(a: string, b: string) {
    b != "" && (a == "" || a[0] < b[0] || (a[0] == b[0] && TextLess(a[1..], b[1..])))
  }

  predicate KeyLess(a: Key, b: Key) {
    if a.major != b.major then a.major < b.major
    else if a.minor != b.minor then a.minor < b.minor
    else if a.patch != b.patch then a.patch < b.patch
    else if a.release != b.release then b.release
    else if a.stage != b.stage then TextLess(a.stage, b.stage)
    else a.number < b.number
  }

  // ---------------------------------------------------------------- semantic versioning

  // Precedence by item 11 of Semantic Versioning 2.0.0, for any list of
  // dot-separated pre-release identifiers.
  datatype Identifier = Numeric(n: nat) | Letters(s: string)

  predicate IdentifierLess(a: Identifier, b: Identifier) {
    match (a, b)
    case (Numeric(m), Numeric(n)) => m < n
    case (Letters(s), Letters(t)) => TextLess(s, t)
    case (Numeric(_), Letters(_)) => true
    case (Letters(_), Numeric(_)) => false
  }

  predicate PrereleaseLess(a: seq<Identifier>, b: seq<Identifier>) {
    if a == [] || b == [] then a == [] && b != []
    else if a[0] != b[0] then IdentifierLess(a[0], b[0])
    else PrereleaseLess(a[1..], b[1..])
  }

  datatype SemVer = SemVer(major: nat, minor: nat, patch: nat, prerelease: seq<Identifier>)

  predicate Precedes(a: SemVer, b: SemVer) {
    if a.major != b.major then a.major < b.major
    else if a.minor != b.minor then a.minor < b.minor
    else if a.patch != b.patch then a.patch < b.patch
    else if a.prerelease == [] || b.prerelease == [] then a.prerelease != [] && b.prerelease == []
    else PrereleaseLess(a.prerelease, b.prerelease)
  }

  function Semantic(t: Tag): SemVer {
    SemVer(t.major, t.minor, t.patch,
           if t.stage.None? then []
           else [Letters(StageName(t.stage.value))] + if t.number.None? then [] else [Numeric(t.number.value)])
  }

  // The tuple order is the precedence of semantic versions.
  lemma KeyOrderIsPrecedence(t: Tag, u: Tag)
    requires Canonical(t) && Canonical(u)
    ensures KeyLess(KeyOf(t), KeyOf(u)) <==> Precedes(Semantic(t), Semantic(u))
  {
    hide TextLess;
    var a, b := Semantic(t).prerelease, Semantic(u).prerelease;
    if a != [] && b != [] && a[0] == b[0] {
      NumberOrder(t, u);
    }
  }

  lemma NumberOrder(t: Tag, u: Tag)
    requires Canonical(t) && Canonical(u) && t.stage.Some? && t.stage == u.stage
    ensures PrereleaseLess(Semantic(t).prerelease, Semantic(u).prerelease) <==>
            (if t.number.None? then -1 else t.number.value) < (if u.number.None? then -1 else u.number.value)
  {
    hide TextLess;
    var a, b := Semantic(t).prerelease, Semantic(u).prerelease;
    assert a[1..] == if t.number.None? then [] else [Numeric(t.number.value)];
    assert b[1..] == if u.number.None? then [] else [Numeric(u.number.value)];
    assert t.number.Some? && u.number.Some? ==> a[1..][1..] == b[1..][1..] == [];
    assert PrereleaseLess(a, b) == PrereleaseLess(a[1..], b[1..]);
    if t.number.Some? && u.number.Some? && a[1] == b[1] {
      assert PrereleaseLess(a[1..], b[1..]) == PrereleaseLess(a[1..][1..], b[1..][1..]);
    }
  }

  // ---------------------------------------------------------------- listings

  // A field whose JSON type the script inspects.
  datatype Flag = NotBool | Bool(b: bool)
  datatype Stamp = Absent | NotText | Stamped(s: string)

  datatype Release = Release(id: Option<int>, tag: Option<string>, draft: Flag, prerelease: Flag, publishedAt: Stamp)

  datatype Entry = Page(entries: seq<Entry>) | Object(release: Release) | Unsupported

  function Flat(pages: seq<Entry>): seq<Entry>
    requires forall p :: p in pages ==> p.Page?
  {
    if pages == [] then [] else Flat(pages[..|pages| - 1]) + pages[|pages| - 1].entries
  }

  function Objects(entries: seq<Entry>): (r: seq<Release>)
    requires forall e :: e in entries ==> e.Object?
    ensures |r| == |entries| && forall i :: 0 <= i < |r| ==> entries[i].Object? && r[i] == entries[i].release
  {
    seq(|entries|, i requires 0 <= i < |entries| && entries[i] in entries => entries[i].release)
  }

  // published_objects: one complete list, or an array of pages.
  function PublishedObjects(data: seq<Entry>): Option<seq<Release>> {
    var paged := data != [] && forall e :: e in data ==> e.Page?;
    if paged && |data| > 20 then None
    else
      var entries := if paged then Flat(data) else data;
      if |entries| > 2000 || exists e :: e in entries && !e.Object? then None else Some(Objects(entries))
  }

  // How the releases are split into pages makes no difference.
  lemma PagingIrrelevant(data: seq<Entry>, paging: seq<Entry>)
    requires paging != [] && |paging| <= 20 && (forall p :: p in paging ==> p.Page?) && Flat(paging) == data
    requires forall e :: e in data ==> e.Object?
    ensures PublishedObjects(paging) == PublishedObjects(data)
  {
    assert data != [] ==> data[0] in data;
  }

  // Where page p's entries start among all of them.
  function PageStart(pages: seq<Entry>, p: nat): nat
    requires p <= |pages| && forall q :: 0 <= q < p ==> pages[q].Page?
  {
    if p == 0 then 0 else PageStart(pages, p - 1) + |pages[p - 1].entries|
  }

  lemma {:induction false} PageStartOf(pages: seq<Entry>, n: nat, p: nat)
    requires p <= n <= |pages| && forall q :: 0 <= q < |pages| ==> pages[q].Page?
    ensures PageStart(pages[..n], p) == PageStart(pages, p)
    decreases p
  {
    if p > 0 {
      PageStartOf(pages, n, p - 1);
    }
  }

  lemma {:induction false} FlatHolds(pages: seq<Entry>, p: nat)
    requires (forall q :: 0 <= q < |pages| ==> pages[q].Page?) && p < |pages|
    ensures forall e :: e in pages ==> e.Page?
    ensures |Flat(pages)| == PageStart(pages, |pages|)
    ensures PageStart(pages, p) + |pages[p].entries| <= |Flat(pages)|
    ensures forall i :: 0 <= i < |pages[p].entries| ==> Flat(pages)[PageStart(pages, p) + i] == pages[p].entries[i]
    decreases |pages|
  {
    var n := |pages| - 1;
    var earlier := pages[..n];
    assert forall e :: e in pages ==> e.Page?;
    PageStartOf(pages, n, n);
    if n == 0 {
      assert Flat(earlier) == [];
    } else {
      FlatHolds(earlier, if p < n then p else 0);
      if p < n {
        PageStartOf(pages, n, p);
      }
    }
  }

  // What a paged listing lists: the entries of every page, page by page and in
  // order; it is refused exactly for more than 20 pages, more than 2000 entries,
  // or one that is no object.
  lemma PagesListed(pages: seq<Entry>, p: nat)
    requires (forall q :: 0 <= q < |pages| ==> pages[q].Page?) && p < |pages|
    ensures PublishedObjects(pages).None? <==>
      || |pages| > 20 || PageStart(pages, |pages|) > 2000
      || exists q, i :: 0 <= q < |pages| && 0 <= i < |pages[q].entries| && !pages[q].entries[i].Object?
    ensures PublishedObjects(pages).Some? ==>
      var r := PublishedObjects(pages).value;
      && |r| == PageStart(pages, |pages|) && PageStart(pages, p) + |pages[p].entries| <= |r|
      && forall i :: 0 <= i < |pages[p].entries| ==>
           pages[p].entries[i] == Object(r[PageStart(pages, p) + i])
  {
    hide Flat, PageStart;
    FlatHolds(pages, p);
    var all := Flat(pages);
    forall q, i | 0 <= q < |pages| && 0 <= i < |pages[q].entries| ensures pages[q].entries[i] in all {
      FlatHolds(pages, q);
      assert all[PageStart(pages, q) + i] == pages[q].entries[i];
    }
    if e :| e in all && !e.Object? {
      var q, i := FlatFound(pages, e);
      assert !pages[q].entries[i].Object?;
    }
  }

  lemma {:induction false} FlatFound(pages: seq<Entry>, e: Entry) returns (q: nat, i: nat)
    requires (forall p :: p in pages ==> p.Page?) && e in Flat(pages)
    ensures q < |pages| && pages[q].Page? && i < |pages[q].entries| && pages[q].entries[i] == e
    decreases |pages|
  {
    var n := |pages| - 1;
    if e in pages[n].entries {
      q := n;
      i :| 0 <= i < |pages[n].entries| && pages[n].entries[i] == e;
    } else {
      q, i := FlatFound(pages[..n], e);
    }
  }

  // A listing in one piece lists its own entries.
  lemma ListListed(data: seq<Entry>)
    requires data == [] || exists i :: 0 <= i < |data| && !data[i].Page?
    ensures PublishedObjects(data).None? <==> |data| > 2000 || exists i :: 0 <= i < |data| && !data[i].Object?
    ensures PublishedObjects(data).Some? ==>
      var r := PublishedObjects(data).value;
      |r| == |data| && forall i :: 0 <= i < |data| ==> data[i] == Object(r[i])
  {
    if data != [] {
      var i :| 0 <= i < |data| && !data[i].Page?;
      assert data[i] in data;
    }
  }

  predicate Product(r: Release) { r.tag.Some? && VersionKey(r.tag.value).Some? }

  predicate Published(r: Release) { r.draft == Bool(false) && !r.publishedAt.Absent? }

  function KeyOfRelease(r: Release): Key
    requires Product(r)
  {
    VersionKey(r.tag.value).value
  }

  // A product entry the script can judge.
  predicate Sound(r: Release, timestamp: string -> bool) {
    Product(r) ==> r.draft.Bool? && (Published(r) ==> r.publishedAt.Stamped? && timestamp(r.publishedAt.s))
  }

  // The published product release that no other one exceeds.
  ghost predicate Newest(releases: seq<Release>, tag: string) {
    && (exists r :: r in releases && Product(r) && Published(r) && r.tag == Some(tag))
    && VersionKey(tag).Some?
    && forall r :: r in releases && Product(r) && Published(r) ==> !KeyLess(VersionKey(tag).value, KeyOfRelease(r))
  }

  lemma {:induction false} TextTotal(a: string, b: string)
    ensures TextLess(a, b) || TextLess(b, a) || a == b
    ensures !(TextLess(a, b) && TextLess(b, a))
    decreases |a|
  {
    if a != "" && b != "" && a[0] == b[0] {
      TextTotal(a[1..], b[1..]);
      assert a == [a[0]] + a[1..] && b == [b[0]] + b[1..];
    }
  }

  lemma {:induction false} TextChain(a: string, b: string, c: string)
    requires !TextLess(a, b) && !TextLess(b, c)
    ensures !TextLess(a, c)
    decreases |a|
  {
    if a != "" && b != "" && c != "" && a[0] == b[0] == c[0] {
      TextChain(a[1..], b[1..], c[1..]);
    }
  }

  lemma KeyTotal(a: Key, b: Key)
    ensures KeyLess(a, b) || KeyLess(b, a) || a == b
    ensures !(KeyLess(a, b) && KeyLess(b, a))
  {
    TextTotal(a.stage, b.stage);
  }

  lemma KeyChain(a: Key, b: Key, c: Key)
    requires !KeyLess(a, b) && !KeyLess(b, c)
    ensures !KeyLess(a, c)
  {
    TextTotal(a.stage, b.stage);
    TextTotal(b.stage, c.stage);
    TextTotal(a.stage, c.stage);
    if !TextLess(a.stage, b.stage) && !TextLess(b.stage, c.stage) {
      TextChain(a.stage, b.stage, c.stage);
    }
  }

  // Whatever the order of the listing, at most one tag is the newest.
  lemma NewestUnique(a: seq<Release>, b: seq<Release>, s: string, t: string)
    requires multiset(a) == multiset(b) && Newest(a, s) && Newest(b, t)
    ensures s == t
  {
    hide VersionKey;
    var r :| r in a && Product(r) && Published(r) && r.tag == Some(s);
    var q :| q in b && Product(q) && Published(q) && q.tag == Some(t);
    assert r in multiset(a) && q in multiset(b);
    KeyTotal(VersionKey(s).value, VersionKey(t).value);
    VersionKeyInjective(s, t);
  }

  // A listed release of this version: its tag is the version written out, in at
  // most 128 characters, and it is neither a draft nor unpublished.
  predicate ReleaseOf(r: Release, t: Tag) {
    Canonical(t) && r.tag == Some(Render(t)) && |Render(t)| <= 128 && r.draft == Bool(false) && !r.publishedAt.Absent?
  }

  ghost predicate Unexceeded(releases: seq<Release>, t: Tag) {
    forall u, s :: s in releases && ReleaseOf(s, u) ==> !Precedes(Semantic(t), Semantic(u))
  }

  lemma VersionOf(tag: string) returns (t: Tag)
    requires VersionKey(tag).Some?
    ensures Canonical(t) && tag == Render(t) && |tag| <= 128 && VersionKey(tag) == Some(KeyOf(t))
  {
    hide ParseTag, Render;
    TagReads(tag);
    t := ParseTag(tag).value;
  }

  // The newest release, without keys: a listed release of some version that
  // precedes the version of no other one.
  lemma NewestMeans(releases: seq<Release>, tag: string)
    ensures Newest(releases, tag) <==>
      exists t, r :: r in releases && ReleaseOf(r, t) && tag == Render(t) && Unexceeded(releases, t)
  {
    hide VersionKey, Render, KeyLess, Precedes, Semantic;
    if Newest(releases, tag) {
      var r :| r in releases && Product(r) && Published(r) && r.tag == Some(tag);
      var t := VersionOf(tag);
      assert ReleaseOf(r, t);
      forall u, s | s in releases && ReleaseOf(s, u) ensures !Precedes(Semantic(t), Semantic(u)) {
        VersionKeyOf(Render(u), u);
        KeyOrderIsPrecedence(t, u);
      }
    }
    if t, r :| r in releases && ReleaseOf(r, t) && tag == Render(t) && Unexceeded(releases, t) {
      VersionKeyOf(tag, t);
      forall s | s in releases && Product(s) && Published(s) ensures !KeyLess(VersionKey(tag).value, KeyOfRelease(s)) {
        var u := VersionOf(s.tag.value);
        assert ReleaseOf(s, u);
        KeyOrderIsPrecedence(t, u);
      }
    }
  }

  // newest_published
  method NewestPublished(data: seq<Entry>, timestamp: string -> bool) returns (newest: Option<string>)
    ensures newest.Some? <==>
      var releases := PublishedObjects(data);
      && releases.Some? && (forall r :: r in releases.value ==> Sound(r, timestamp))
      && exists r :: r in releases.value && Product(r) && Published(r)
    ensures newest.Some? ==> Newest(PublishedObjects(data).value, newest.value)
  {
    hide VersionKey, KeyLess, PublishedObjects;
    var releases := PublishedObjects(data);
    if releases.None? {
      return None;
    }
    newest := Highest(releases.value, timestamp);
  }

  method Highest(releases: seq<Release>, timestamp: string -> bool) returns (newest: Option<string>)
    ensures newest.Some? <==>
      && (forall r :: r in releases ==> Sound(r, timestamp))
      && exists r :: r in releases && Product(r) && Published(r)
    ensures newest.Some? ==> Newest(releases, newest.value)
  {
    hide VersionKey, KeyLess;
    newest := None;
    for i := 0 to |releases|
      invariant forall j :: 0 <= j < i ==> Sound(releases[j], timestamp)
      invariant newest.None? ==> forall j :: 0 <= j < i ==> !(Product(releases[j]) && Published(releases[j]))
      invariant newest.Some? ==> Newest(releases[..i], newest.value)
    {
      var r := releases[i];
      if r.tag.None? || VersionKey(r.tag.value).None? {
        continue;
      }
      if r.draft.NotBool? {
        assert !Sound(r, timestamp);
        return None;
      }
      if r.draft.b || r.publishedAt.Absent? {
        continue;
      }
      if r.publishedAt.NotText? || !timestamp(r.publishedAt.s) {
        assert !Sound(r, timestamp);
        return None;
      }
      if newest.None? {
        KeyTotal(KeyOfRelease(r), KeyOfRelease(r));
        newest := r.tag;
      } else if KeyLess(VersionKey(newest.value).value, VersionKey(r.tag.value).value) {
        Overtakes(releases[..i], newest.value, r);
        newest := r.tag;
      }
    }
    assert releases[..|releases|] == releases;
    if newest.Some? {
      var r :| r in releases && Product(r) && Published(r) && r.tag == newest;
    }
  }

  lemma Overtakes(before: seq<Release>, newest: string, r: Release)
    requires Newest(before, newest) && Product(r) && Published(r)
    requires KeyLess(VersionKey(newest).value, KeyOfRelease(r))
    ensures Newest(before + [r], r.tag.value)
  {
    hide VersionKey, KeyLess;
    var key := KeyOfRelease(r);
    assert r in before + [r];
    forall q | q in before + [r] && Product(q) && Published(q) ensures !KeyLess(key, KeyOfRelease(q)) {
      KeyTotal(key, KeyOfRelease(r));
      if q in before {
        KeyTotal(VersionKey(newest).value, key);
        KeyChain(key, VersionKey(newest).value, KeyOfRelease(q));
      }
    }
  }

  // ---------------------------------------------------------------- the latest release

  predicate Positive(id: Option<int>) { id.Some? && id.value > 0 }

  predicate Matches(r: Release, latest: Release, tag: string) { r.id == latest.id || r.tag == Some(tag) }

  predicate PublishedProduct(r: Release) { Product(r) && Published(r) }

  // check_published_latest accepts: the latest release is the newest product
  // release, and exactly one listed object shares its id or its tag, in full.
  ghost predicate LatestConfirmed(latest: Release, releases: seq<Release>, tag: string) {
    && Newest(releases, tag) && latest.tag == Some(tag)
    && Positive(latest.id) && latest.draft == Bool(false) && latest.prerelease == Bool(false)
    && (forall i :: 0 <= i < |releases| ==> Positive(releases[i].id))
    && (exists i :: 0 <= i < |releases| && releases[i] == latest
          && forall j :: 0 <= j < |releases| && Matches(releases[j], latest, tag) ==> j == i)
    && Distinct(releases)
  }

  // No two published product releases share an id or a tag.
  ghost predicate Distinct(releases: seq<Release>) {
    forall i, j :: 0 <= i < j < |releases| && PublishedProduct(releases[i]) && PublishedProduct(releases[j]) ==>
      releases[i].id != releases[j].id && releases[i].tag != releases[j].tag
  }

  lemma DistinctNext(releases: seq<Release>, i: nat)
    requires i < |releases|
    ensures Distinct(releases[..i + 1]) <==>
      && Distinct(releases[..i])
      && (PublishedProduct(releases[i]) ==>
            forall j :: 0 <= j < i && PublishedProduct(releases[j]) ==>
              releases[j].id != releases[i].id && releases[j].tag != releases[i].tag)
    ensures Distinct(releases) ==> Distinct(releases[..i + 1])
  {
    hide PublishedProduct;
    var all := releases[..i + 1];
    assert all[..i] == releases[..i] && all[i] == releases[i];
    if Distinct(all) {
      forall j | 0 <= j < i && PublishedProduct(releases[j]) && PublishedProduct(releases[i])
        ensures releases[j].id != releases[i].id && releases[j].tag != releases[i].tag
      {
        assert all[j] == releases[j];
      }
    }
  }

  method CheckPublishedLatest(latest: Release, listing: seq<Entry>, tag: string, timestamp: string -> bool) returns (ok: bool)
    ensures ok <==>
      && PublishedObjects(listing).Some?
      && (forall r :: r in PublishedObjects(listing).value ==> Sound(r, timestamp))
      && latest.publishedAt.Stamped? && timestamp(latest.publishedAt.s)
      && LatestConfirmed(latest, PublishedObjects(listing).value, tag)
  {
    hide VersionKey, PublishedObjects, Product, Published, Sound;
    if !Positive(latest.id) || latest.draft != Bool(false) || latest.prerelease != Bool(false) {
      return false;
    }
    if !latest.publishedAt.Stamped? || !timestamp(latest.publishedAt.s) {
      return false;
    }
    var newest := NewestPublished(listing, timestamp);
    if newest.None? {
      return false;
    }
    if latest.tag != Some(tag) || newest != Some(tag) {
      if newest != Some(tag) {
        NewestIsTag(PublishedObjects(listing).value, newest.value, tag);
      }
      return false;
    }
    ok := CheckIdentity(latest, PublishedObjects(listing).value, tag);
  }

  lemma NewestIsTag(releases: seq<Release>, newest: string, tag: string)
    requires Newest(releases, newest) && newest != tag
    ensures !Newest(releases, tag)
  {
    hide VersionKey, KeyLess;
    if Newest(releases, tag) {
      NewestUnique(releases, releases, newest, tag);
    }
  }

  // The listed objects that share the latest release's id or tag, among the first i.
  ghost predicate MatchesAre(releases: seq<Release>, i: nat, latest: Release, tag: string, matches: seq<Release>, at: nat)
    requires i <= |releases|
  {
    && (matches == [] ==> forall j :: 0 <= j < i ==> !Matches(releases[j], latest, tag))
    && (|matches| == 1 ==> at < i && matches == [releases[at]] && Matches(releases[at], latest, tag))
    && (|matches| == 1 ==> forall j :: 0 <= j < i && Matches(releases[j], latest, tag) ==> j == at)
    && (|matches| > 1 ==>
          exists j, k :: 0 <= j < k < i && Matches(releases[j], latest, tag) && Matches(releases[k], latest, tag))
  }

  lemma MatchesNext(releases: seq<Release>, i: nat, latest: Release, tag: string, matches: seq<Release>, at: nat)
    requires i < |releases| && MatchesAre(releases, i, latest, tag, matches, at)
    ensures if Matches(releases[i], latest, tag)
            then MatchesAre(releases, i + 1, latest, tag, matches + [releases[i]], if matches == [] then i else at)
            else MatchesAre(releases, i + 1, latest, tag, matches, at)
  {
    hide Matches;
    if Matches(releases[i], latest, tag) && |matches| == 1 {
      assert Matches(releases[at], latest, tag) && at < i;
    }
  }

  ghost predicate OnlyMatch(releases: seq<Release>, latest: Release, tag: string) {
    exists i :: 0 <= i < |releases| && releases[i] == latest
      && forall j :: 0 <= j < |releases| && Matches(releases[j], latest, tag) ==> j == i
  }

  lemma MatchesEnd(releases: seq<Release>, latest: Release, tag: string, matches: seq<Release>, at: nat)
    requires MatchesAre(releases, |releases|, latest, tag, matches, at)
    ensures OnlyMatch(releases, latest, tag) <==> |matches| == 1 && matches[0] == latest
  {
    if OnlyMatch(releases, latest, tag) {
      var i :| 0 <= i < |releases| && releases[i] == latest
        && forall j :: 0 <= j < |releases| && Matches(releases[j], latest, tag) ==> j == i;
      assert Matches(releases[i], latest, tag);
    }
  }

  // The ids and tags of published products among the first i.
  ghost predicate SeenAre(releases: seq<Release>, i: nat, ids: set<int>, tags: set<string>)
    requires i <= |releases|
  {
    && (forall x :: x in ids <==> exists j :: 0 <= j < i && PublishedProduct(releases[j]) && releases[j].id == Some(x))
    && (forall x :: x in tags <==> exists j :: 0 <= j < i && PublishedProduct(releases[j]) && releases[j].tag == Some(x))
  }

  lemma SeenNext(releases: seq<Release>, i: nat, ids: set<int>, tags: set<string>)
    requires i < |releases| && SeenAre(releases, i, ids, tags)
    ensures !PublishedProduct(releases[i]) ==> SeenAre(releases, i + 1, ids, tags)
    ensures PublishedProduct(releases[i]) && releases[i].id.Some? && releases[i].tag.Some? ==>
      SeenAre(releases, i + 1, ids + {releases[i].id.value}, tags + {releases[i].tag.value})
  {
    hide PublishedProduct;
  }

  lemma SeenDistinct(releases: seq<Release>, i: nat, ids: set<int>, tags: set<string>)
    requires i < |releases| && SeenAre(releases, i, ids, tags) && Distinct(releases[..i])
    requires PublishedProduct(releases[i]) ==> releases[i].id.Some? && releases[i].tag.Some?
    ensures Distinct(releases[..i + 1]) <==>
      (PublishedProduct(releases[i]) ==> releases[i].id.value !in ids && releases[i].tag.value !in tags)
    ensures Distinct(releases) ==> Distinct(releases[..i + 1])
  {
    hide PublishedProduct, Distinct;
    DistinctNext(releases, i);
    if PublishedProduct(releases[i]) {
      var x, y := releases[i].id.value, releases[i].tag.value;
      assert x in ids <==> exists j :: 0 <= j < i && PublishedProduct(releases[j]) && releases[j].id == Some(x);
      assert y in tags <==> exists j :: 0 <= j < i && PublishedProduct(releases[j]) && releases[j].tag == Some(y);
    }
  }

  method CheckIdentity(latest: Release, releases: seq<Release>, tag: string) returns (ok: bool)
    requires Newest(releases, tag) && latest.tag == Some(tag)
    requires Positive(latest.id) && latest.draft == Bool(false) && latest.prerelease == Bool(false)
    ensures ok <==> LatestConfirmed(latest, releases, tag)
  {
    hide VersionKey, Newest, Product, Published, PublishedProduct, Distinct, MatchesAre, SeenAre, OnlyMatch, Matches;
    var matches: seq<Release> := [];
    var seenIds: set<int>, seenTags: set<string> := {}, {};
    ghost var at := 0;
    NoneRead(releases, latest, tag);
    ConfirmedIs(latest, releases, tag);
    hide LatestConfirmed;
    for i := 0 to |releases|
      invariant forall j :: 0 <= j < i ==> Positive(releases[j].id)
      invariant MatchesAre(releases, i, latest, tag, matches, at)
      invariant SeenAre(releases, i, seenIds, seenTags) && Distinct(releases[..i])
    {
      var r := releases[i];
      if !Positive(r.id) {
        return false;
      }
      MatchesNext(releases, i, latest, tag, matches, at);
      if Matches(r, latest, tag) {
        if matches == [] {
          at := i;
        }
        matches := matches + [r];
      }
      assert PublishedProduct(r) ==> r.id.Some? && r.tag.Some? by {
        if PublishedProduct(r) {
          TagOf(r);
        }
      }
      SeenDistinct(releases, i, seenIds, seenTags);
      SeenNext(releases, i, seenIds, seenTags);
      if PublishedProduct(r) {
        if r.id.value in seenIds || r.tag.value in seenTags {
          return false;
        }
        seenIds, seenTags := seenIds + {r.id.value}, seenTags + {r.tag.value};
      }
    }
    assert releases[..|releases|] == releases;
    MatchesEnd(releases, latest, tag, matches, at);
    if |matches| != 1 {
      return false;
    }
    ok := matches[0] == latest;
  }

  lemma NoneRead(releases: seq<Release>, latest: Release, tag: string)
    ensures MatchesAre(releases, 0, latest, tag, [], 0) && SeenAre(releases, 0, {}, {}) && Distinct(releases[..0])
  {
  }

  lemma ConfirmedIs(latest: Release, releases: seq<Release>, tag: string)
    requires Newest(releases, tag) && latest.tag == Some(tag)
    requires Positive(latest.id) && latest.draft == Bool(false) && latest.prerelease == Bool(false)
    ensures LatestConfirmed(latest, releases, tag) <==>
      && (forall i :: 0 <= i < |releases| ==> Positive(releases[i].id))
      && OnlyMatch(releases, latest, tag) && Distinct(releases)
  {
    hide Newest, Distinct, Matches;
  }

  lemma TagOf(r: Release)
    requires PublishedProduct(r)
    ensures r.tag.Some?
  {
  }
}
