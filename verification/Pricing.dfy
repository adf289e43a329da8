// pricing.go: published price tiers, collected in any order, normalised to a
// billing profile that keeps the catalogue's price of every gigabyte.
module Pricing {
  import opened Wrappers
  import opened Billing
  import opened Sorting

  const LARGEST: real := 1_000_000_000_000_000.0
  const OCI_UNBOUNDED: real := 999_999_999_999_999.0

  datatype RateTier = RateTier(start: real, end: real, price: real, infinite: bool)

  predicate ValidNumber(v: real) { 0.0 <= v <= LARGEST }

  predicate StartsBefore(a: RateTier, b: RateTier) { a.start <= b.start }

  // Contiguous from zero, priced, with one final unbounded tier.
  ghost predicate Contiguous(s: seq<RateTier>) {
    forall i :: 0 <= i < |s| ==> Fits(s[i], PreviousEnd(s, i), i == |s| - 1)
  }

  predicate Fits(tier: RateTier, previous: real, last: bool) {
    && ValidNumber(tier.start) && ValidNumber(tier.price) && tier.price != 0.0
    && tier.start == previous
    && (tier.infinite <==> last)
    && (!tier.infinite ==> ValidNumber(tier.end) && tier.end > tier.start)
  }

  function PreviousEnd(s: seq<RateTier>, i: nat): real
    requires i <= |s|
  {
    if i == 0 then 0.0 else s[i - 1].end
  }

  function AsTier(tier: RateTier): Tier {
    Tier(if tier.infinite then 0.0 else tier.end, tier.price)
  }

  function Normalised(s: seq<RateTier>): (t: seq<Tier>)
    ensures |t| == |s|
    ensures forall i :: 0 <= i < |s| ==> t[i] == AsTier(s[i])
  {
    seq(|s|, i requires 0 <= i < |s| => AsTier(s[i]))
  }

  // The published tiers, whatever order they came in, form a tariff.
  ghost predicate Tariff(tiers: multiset<RateTier>) {
    exists s :: multiset(s) == tiers && Contiguous(s) && 1 <= |s| <= MAX_TIERS
  }

  lemma FitsAt(s: seq<RateTier>, i: nat)
    requires Contiguous(s) && i < |s|
    ensures s[i].start == (if i == 0 then 0.0 else s[i - 1].end)
    ensures s[i].infinite <==> i == |s| - 1
    ensures !s[i].infinite ==> s[i].end > s[i].start
  {
    hide ValidNumber;
    assert Fits(s[i], PreviousEnd(s, i), i == |s| - 1);
  }

  lemma {:induction false} StartsRise(s: seq<RateTier>, i: nat, j: nat)
    requires Contiguous(s) && i < j < |s|
    ensures s[i].start < s[j].start && s[i].end <= s[j].start && !s[i].infinite
    decreases j - i
  {
    hide *;
    FitsAt(s, j);
    FitsAt(s, j - 1);
    if i < j - 1 {
      StartsRise(s, i, j - 1);
    }
  }

  // A contiguous arrangement is the only sorted one: ties in an unstable sort,
  // and the order tiers were collected in, cannot matter.
  lemma ContiguousUnique(s: seq<RateTier>, r: seq<RateTier>)
    requires Contiguous(s) && multiset(s) == multiset(r) && SortedBy(r, StartsBefore)
    ensures s == r
  {
    forall i, j | 0 <= i < j < |s| ensures StartsBefore(s[i], s[j]) && !StartsBefore(s[j], s[i]) {
      StartsRise(s, i, j);
    }
    SortUnique(s, r, StartsBefore);
  }

  // Contiguity, in published numbers: from zero, each tier's end the next one's
  // start, the last one unbounded, and every price above zero.
  lemma ContiguousMeans(s: seq<RateTier>)
    ensures Contiguous(s) <==>
      && (s != [] ==> s[0].start == 0.0 && s[|s| - 1].infinite)
      && (forall i :: 0 <= i < |s| ==> 0.0 < s[i].price <= 1_000_000_000_000_000.0)
      && (forall i :: 0 <= i < |s| ==> 0.0 <= s[i].start <= 1_000_000_000_000_000.0)
      && (forall i :: 0 <= i < |s| - 1 ==>
            !s[i].infinite && s[i].start < s[i].end == s[i + 1].start)
  {
    if Contiguous(s) {
      forall i | 0 <= i < |s| ensures Fits(s[i], PreviousEnd(s, i), i == |s| - 1) {
      }
      forall i | 0 <= i < |s| - 1 ensures s[i].end == s[i + 1].start {
        assert Fits(s[i + 1], PreviousEnd(s, i + 1), i + 1 == |s| - 1);
      }
    } else {
      var i :| 0 <= i < |s| && !Fits(s[i], PreviousEnd(s, i), i == |s| - 1);
      assert i > 0 ==> s[i - 1].end == s[i].start || s[i - 1].end != s[i].start;
      assert i < |s| - 1 ==> s[i].end == s[i + 1].start || s[i].end != s[i + 1].start;
    }
  }

  lemma NormalisedValid(s: seq<RateTier>)
    requires Contiguous(s) && 1 <= |s| <= MAX_TIERS
    ensures ValidTiers(Normalised(s))
    ensures forall i :: 0 <= i < |s| ==> LowerLimit(Normalised(s), i) == s[i].start
  {
    PriceCap();
    hide Ten;
    var t := Normalised(s);
    forall i | 0 <= i < |t| - 1 ensures t[i].upTo > LowerLimit(t, i) {
      assert !s[i].infinite && s[i].end > s[i].start == PreviousEnd(s, i);
      assert i > 0 ==> !s[i - 1].infinite;
    }
    forall i | 0 <= i < |s| ensures LowerLimit(t, i) == s[i].start {
      assert i > 0 ==> !s[i - 1].infinite;
    }
  }

  lemma {:induction false} TenGrows(m: nat, n: nat)
    requires m <= n
    ensures Ten(m) <= Ten(n)
    decreases n
  {
    if m < n {
      TenGrows(m, n - 1);
    }
  }

  lemma PriceCap()
    ensures LARGEST <= MAX_PRICE
  {
    TenGrows(15, 100);
    assert Ten(3) == 1000.0;
    assert Ten(6) == 1_000_000.0;
    assert Ten(9) == 1_000_000_000.0;
    assert Ten(12) == 1_000_000_000_000.0;
    assert Ten(15) == LARGEST;
  }

  // The tier part of makeSnapshot: the tiers are accepted exactly when they form
  // a tariff, and the result depends on the collection alone.
  method MakeTiers(tiers: seq<RateTier>) returns (result: Option<seq<Tier>>)
    ensures result.Some? <==> Tariff(multiset(tiers))
    ensures forall s :: multiset(s) == multiset(tiers) && Contiguous(s) && 1 <= |s| <= MAX_TIERS ==>
              result == Some(Normalised(s)) && ValidTiers(Normalised(s))
  {
    hide Ten, ValidTiers, SortedBy, Normalised, Contiguous;
    var sorted := Sort(tiers, StartsBefore);
    forall s | multiset(s) == multiset(tiers) && Contiguous(s) ensures s == sorted {
      ContiguousUnique(s, sorted);
    }
    result := Convert(sorted);
    if result.Some? {
      if 1 <= |sorted| <= MAX_TIERS {
        NormalisedValid(sorted);
      }
      var ok := ValidateAmounts(Profile(0.0, BINARY_UNIT, result.value));
      assert ok ==> 1 <= |result.value| <= MAX_TIERS by { CountOf(result.value); }
      assert |Normalised(sorted)| == |sorted| by { Lengths(sorted); }
      if !ok {
        result := None;
      }
    }
  }

  lemma CountOf(t: seq<Tier>)
    ensures ValidTiers(t) ==> 1 <= |t| <= MAX_TIERS
  {
    hide Ten;
  }

  lemma Lengths(s: seq<RateTier>)
    ensures |Normalised(s)| == |s|
  {
  }

  lemma Misfit(s: seq<RateTier>, i: nat)
    requires i < |s| && !Fits(s[i], PreviousEnd(s, i), i == |s| - 1)
    ensures !Contiguous(s)
  {
  }

  lemma AllFit(s: seq<RateTier>, t: seq<Tier>)
    requires forall j :: 0 <= j < |s| ==> Fits(s[j], PreviousEnd(s, j), j == |s| - 1)
    requires |t| == |s| && forall j :: 0 <= j < |s| ==> t[j] == AsTier(s[j])
    ensures Contiguous(s) && t == Normalised(s)
  {
    hide Fits;
  }

  // makeSnapshot's loop over the sorted tiers.
  method Convert(sorted: seq<RateTier>) returns (result: Option<seq<Tier>>)
    ensures result == if Contiguous(sorted) then Some(Normalised(sorted)) else None
  {
    hide ValidNumber, Contiguous, Normalised;
    var previous := 0.0;
    var internetEgress: seq<Tier> := [];
    for i := 0 to |sorted|
      invariant |internetEgress| == i && forall j :: 0 <= j < i ==> internetEgress[j] == AsTier(sorted[j])
      invariant previous == PreviousEnd(sorted, i)
      invariant forall j :: 0 <= j < i ==> Fits(sorted[j], PreviousEnd(sorted, j), j == |sorted| - 1)
    {
      var tier := sorted[i];
      if !ValidNumber(tier.start) || !ValidNumber(tier.price) || tier.price == 0.0 || tier.start != previous
         || tier.infinite != (i == |sorted| - 1)
         || (!tier.infinite && (!ValidNumber(tier.end) || tier.end <= tier.start)) {
        Misfit(sorted, i);
        return None;
      }
      assert Fits(sorted[i], PreviousEnd(sorted, i), i == |sorted| - 1);
      hide Fits;
      var end := tier.end;
      if tier.infinite {
        end := 0.0;
      }
      internetEgress := internetEgress + [Tier(end, tier.price)];
      previous := tier.end;
    }
    AllFit(sorted, internetEgress);
    return Some(internetEgress);
  }

  // ---------------------------------------------------------------- meaning

  predicate Covers(tier: RateTier, x: real) { tier.start <= x && (tier.infinite || x < tier.end) }

  // An accepted profile prices every gigabyte as the published tier covering it.
  lemma CataloguePrice(s: seq<RateTier>, tier: RateTier, x: real)
    requires Contiguous(s) && 1 <= |s| <= MAX_TIERS && x >= 0.0
    requires tier in s && Covers(tier, x)
    ensures ValidTiers(Normalised(s)) && MarginalPrice(Normalised(s), x) == tier.price
  {
    var k := CoveredAt(s, x);
    var i :| 0 <= i < |s| && s[i] == tier;
    CoverUnique(s, i, k, x);
  }

  lemma CoverUnique(s: seq<RateTier>, i: nat, k: nat, x: real)
    requires Contiguous(s) && i < |s| && k < |s| && Covers(s[i], x) && Covers(s[k], x)
    ensures i == k
  {
    hide Contiguous;
    if i < k {
      StartsRise(s, i, k);
    } else if k < i {
      StartsRise(s, k, i);
    }
  }

  lemma CoveredAt(s: seq<RateTier>, x: real) returns (k: nat)
    requires Contiguous(s) && 1 <= |s| <= MAX_TIERS && x >= 0.0
    ensures k < |s| && Covers(s[k], x) && (!s[k].infinite || k == |s| - 1)
    ensures ValidTiers(Normalised(s)) && MarginalPrice(Normalised(s), x) == s[k].price
  {
    NormalisedValid(s);
    hide Ten, Find, ValidTiers;
    k := TierAt(Normalised(s), x);
  }

  // ... and some published tier covers it.
  lemma CatalogueCovers(s: seq<RateTier>, x: real) returns (tier: RateTier)
    requires Contiguous(s) && 1 <= |s| <= MAX_TIERS && x >= 0.0
    ensures tier in s && Covers(tier, x)
  {
    var k := CoveredAt(s, x);
    tier := s[k];
  }

  // Usage charged straight from published tiers, in any order.
  function RawCost(tiers: seq<RateTier>, x: real): real {
    if tiers == [] then 0.0 else RawCost(tiers[..|tiers| - 1], x) + RawShare(tiers[|tiers| - 1], x)
  }

  function RawShare(tier: RateTier, x: real): real {
    Times(Span(tier.start, if tier.infinite then x else Lesser(x, tier.end)), tier.price)
  }

  lemma {:induction false} RawCostSplit(s: seq<RateTier>, k: nat, x: real)
    requires k < |s|
    ensures RawCost(s, x) == RawCost(s[..k] + s[k + 1..], x) + RawShare(s[k], x)
    decreases |s|
  {
    hide RawShare;
    var n := |s| - 1;
    var without := s[..k] + s[k + 1..];
    if k < n {
      RawCostSplit(s[..n], k, x);
      assert without[..n - 1] == s[..n][..k] + s[..n][k + 1..];
      assert without[n - 1] == s[n];
    } else {
      assert without == s[..n];
    }
  }

  lemma {:induction false} RawCostOrder(a: seq<RateTier>, b: seq<RateTier>, x: real)
    requires multiset(a) == multiset(b)
    ensures RawCost(a, x) == RawCost(b, x)
    decreases |a|
  {
    hide RawShare;
    assert |a| == |multiset(a)| == |multiset(b)| == |b|;
    if a != [] {
      var n := |a| - 1;
      assert a[n] in multiset(b);
      var k :| 0 <= k < |b| && b[k] == a[n];
      RawCostSplit(b, k, x);
      MultisetSplit(b, k);
      assert a == a[..n] + [a[n]];
      assert multiset(a[..n]) == multiset(a) - multiset{a[n]};
      RawCostOrder(a[..n], b[..k] + b[k + 1..], x);
    }
  }

  lemma {:induction false} RawCostContiguous(s: seq<RateTier>, i: nat, x: real)
    requires Contiguous(s) && 1 <= |s| <= MAX_TIERS && i < |s|
    ensures RawCost(s[..i], x) + CostFrom(Normalised(s)[i..], s[i].start, x) == RawCost(s, x)
    decreases |s| - i
  {
    hide *;
    CostStep(s, i, x);
    RawCostLast(s, i, x);
    if i + 1 < |s| {
      RawCostContiguous(s, i + 1, x);
    } else {
      assert s[..i + 1] == s;
    }
  }

  lemma CostStep(s: seq<RateTier>, i: nat, x: real)
    requires Contiguous(s) && 1 <= |s| <= MAX_TIERS && i < |s|
    ensures CostFrom(Normalised(s)[i..], s[i].start, x) == RawShare(s[i], x)
      + if i + 1 < |s| then CostFrom(Normalised(s)[i + 1..], s[i + 1].start, x) else 0.0
  {
    NormalisedValid(s);
    UnfoldCost(Normalised(s), i, x);
    LastPrice(s, i);
    ShareOf(s, i, x);
    hide Ten, RawShare, Times, CostFrom, ValidTiers, Contiguous, RawCost;
  }

  lemma RawCostLast(s: seq<RateTier>, i: nat, x: real)
    requires i < |s|
    ensures RawCost(s[..i + 1], x) == RawCost(s[..i], x) + RawShare(s[i], x)
  {
    assert s[..i + 1][..i] == s[..i];
  }

  lemma LastPrice(s: seq<RateTier>, i: nat)
    requires Contiguous(s) && i < |s|
    ensures i + 1 < |s| ==> Normalised(s)[i].upTo == s[i].end == s[i + 1].start
    ensures Normalised(s)[i].price == s[i].price
  {
    assert i + 1 < |s| ==> Fits(s[i + 1], PreviousEnd(s, i + 1), i + 1 == |s| - 1);
  }

  lemma ShareOf(s: seq<RateTier>, i: nat, x: real)
    requires Contiguous(s) && i < |s|
    ensures RawShare(s[i], x) ==
      Times(Span(s[i].start, if i == |s| - 1 then x else Lesser(x, Normalised(s)[i].upTo)), s[i].price)
  {
    hide Times;
  }

  // The normalised tiers cost what the published ones do.
  lemma NormalisedCost(tiers: seq<RateTier>, s: seq<RateTier>, x: real)
    requires Contiguous(s) && 1 <= |s| <= MAX_TIERS && multiset(s) == multiset(tiers)
    ensures CostTo(Normalised(s), x) == RawCost(tiers, x)
  {
    hide Ten, CostFrom;
    RawCostContiguous(s, 0, x);
    assert s[..0] == [] && Normalised(s)[0..] == Normalised(s);
    RawCostOrder(s, tiers, x);
  }

  // ---------------------------------------------------------------- AWS

  // One price dimension; the numbers are None where they do not parse.
  datatype Dimension = Dimension(begin: Option<real>, end: Option<real>, price: Option<real>,
                                 endsInf: bool, gigabytes: bool, appliesToNothing: bool)

  predicate Supported(d: Dimension) {
    d.begin.Some? && d.price.Some? && (d.end.Some? || d.endsInf) && d.gigabytes && d.appliesToNothing
  }

  function RateOf(d: Dimension): RateTier
    requires Supported(d)
  {
    RateTier(d.begin.value, if d.end.Some? then d.end.value else 0.0, d.price.value, d.endsInf)
  }

  // The tiers of these dimensions, as a collection without order.
  ghost function Rates(dims: map<string, Dimension>, keys: set<string>): multiset<RateTier>
    requires forall k :: k in keys ==> k in dims && Supported(dims[k])
  {
    if keys == {} then multiset{}
    else
      var k :| k in keys;
      Rates(dims, keys - {k}) + multiset{RateOf(dims[k])}
  }

  lemma {:induction false} RatesRemove(dims: map<string, Dimension>, keys: set<string>, x: string)
    requires forall k :: k in keys ==> k in dims && Supported(dims[k])
    requires x in keys
    ensures Rates(dims, keys) == Rates(dims, keys - {x}) + multiset{RateOf(dims[x])}
    decreases keys
  {
    hide Supported, RateOf;
    var k :| k in keys && Rates(dims, keys) == Rates(dims, keys - {k}) + multiset{RateOf(dims[k])};
    if k != x {
      RatesRemove(dims, keys - {k}, x);
      RatesRemove(dims, keys - {x}, k);
      assert keys - {k} - {x} == keys - {x} - {k};
    }
  }

  lemma RatesAdd(dims: map<string, Dimension>, keys: set<string>, x: string)
    requires forall k :: k in keys + {x} ==> k in dims && Supported(dims[k])
    requires x !in keys
    ensures Rates(dims, keys + {x}) == Rates(dims, keys) + multiset{RateOf(dims[x])}
  {
    hide Supported, RateOf;
    RatesRemove(dims, keys + {x}, x);
    assert keys + {x} - {x} == keys;
  }

  lemma NoRates(dims: map<string, Dimension>)
    ensures Rates(dims, {}) == multiset{}
  {
  }

  // awsTiers: Go ranges over the dimensions in some order of its own; which
  // tiers come out does not depend on it.
  method AwsTiers(dims: map<string, Dimension>) returns (tiers: Option<seq<RateTier>>)
    ensures tiers.Some? <==> 1 <= |dims| <= 32 && forall k :: k in dims ==> Supported(dims[k])
    ensures tiers.Some? ==> multiset(tiers.value) == Rates(dims, dims.Keys)
  {
    hide Supported, RateOf, Rates;
    NoRates(dims);
    if |dims| == 0 || |dims| > 32 {
      return None;
    }
    var collected: seq<RateTier> := [];
    var rest := dims.Keys;
    assert dims.Keys - rest == {};
    while rest != {}
      invariant rest <= dims.Keys
      invariant forall k :: k in dims.Keys - rest ==> Supported(dims[k])
      invariant multiset(collected) == Rates(dims, dims.Keys - rest)
      decreases |rest|
    {
      var k :| k in rest;
      if !Supported(dims[k]) {
        return None;
      }
      ghost var done := dims.Keys - rest;
      RatesAdd(dims, done, k);
      assert dims.Keys - (rest - {k}) == done + {k};
      collected := collected + [RateOf(dims[k])];
      rest := rest - {k};
    }
    assert dims.Keys - rest == dims.Keys;
    tiers := Some(collected);
  }

  // The tariff that a collection of tiers forms, without their order.
  ghost function TariffOf(tiers: multiset<RateTier>): Option<seq<Tier>> {
    if Tariff(tiers)
    then (var s :| multiset(s) == tiers && Contiguous(s) && 1 <= |s| <= MAX_TIERS; Some(Normalised(s)))
    else None
  }

  // From published dimensions to profile tiers: the dimensions alone decide
  // whether there is a profile and which, in whatever order they are visited and
  // sorted; it prices every gigabyte as the dimension covering it.
  method AwsProfile(dims: map<string, Dimension>) returns (result: Option<seq<Tier>>)
    ensures result ==
      if 1 <= |dims| <= 32 && forall k :: k in dims ==> Supported(dims[k])
      then TariffOf(Rates(dims, dims.Keys)) else None
    ensures result.Some? ==> ValidTiers(result.value)
    ensures result.Some? ==> forall k, x :: k in dims && InDimension(dims[k], x) ==>
              dims[k].price == Some(MarginalPrice(result.value, x))
  {
    hide Supported, RateOf, Contiguous, Normalised, ValidTiers, Ten, MarginalPrice, Covers, Rates;
    var tiers := AwsTiers(dims);
    if tiers.None? {
      return None;
    }
    result := MakeTiers(tiers.value);
    if result.Some? {
      ghost var rates := Rates(dims, dims.Keys);
      ghost var s: seq<RateTier> :| multiset(s) == rates && Contiguous(s) && 1 <= |s| <= MAX_TIERS;
      forall k, x | k in dims && InDimension(dims[k], x)
        ensures dims[k].price == Some(MarginalPrice(result.value, x))
      {
        RateListed(dims, k);
        DimensionCovers(dims[k], x);
        assert RateOf(dims[k]) in multiset(s);
        CataloguePrice(s, RateOf(dims[k]), x);
      }
    }
  }

  // x gigabytes fall into the dimension's published range.
  predicate InDimension(d: Dimension, x: real) {
    && x >= 0.0 && d.begin.Some? && d.begin.value <= x
    && (d.endsInf || (d.end.Some? && x < d.end.value))
  }

  lemma DimensionCovers(d: Dimension, x: real)
    requires Supported(d) && InDimension(d, x)
    ensures Covers(RateOf(d), x) && Some(RateOf(d).price) == d.price
  {
  }

  lemma RateListed(dims: map<string, Dimension>, k: string)
    requires k in dims && forall j :: j in dims ==> Supported(dims[j])
    ensures RateOf(dims[k]) in Rates(dims, dims.Keys)
  {
    hide Supported, RateOf, Rates;
    RatesRemove(dims, dims.Keys, k);
  }

  // ---------------------------------------------------------------- OCI

  datatype OciPrice = OciPrice(payAsYouGo: bool, value: Option<real>, min: Option<real>, max: Option<real>)

  predicate OciSupported(p: OciPrice) {
    && p.payAsYouGo && p.value.Some? && p.min.Some? && p.max.Some?
    && ValidNumber(p.value.value) && ValidNumber(p.min.value) && ValidNumber(p.max.value)
  }

  function OciRate(p: OciPrice): RateTier
    requires OciSupported(p)
  {
    RateTier(p.min.value, p.max.value, p.value.value, p.max.value == OCI_UNBOUNDED)
  }

  function OciRates(prices: seq<OciPrice>): (rates: seq<RateTier>)
    requires forall p :: p in prices ==> OciSupported(p)
    ensures |rates| == |prices|
  {
    seq(|prices|, i requires 0 <= i < |prices| && OciSupported(prices[i]) => OciRate(prices[i]))
  }

  function Rebase(tier: RateTier, free: real): RateTier {
    tier.(start := tier.start - free, end := if tier.infinite then tier.end else tier.end - free)
  }

  function Rebased(tiers: seq<RateTier>, free: real): (r: seq<RateTier>)
    ensures |r| == |tiers|
    ensures forall i :: 0 <= i < |r| ==> r[i] == Rebase(tiers[i], free)
  {
    seq(|tiers|, i requires 0 <= i < |tiers| => Rebase(tiers[i], free))
  }

  // Moving every tier down by the free amount moves its share of the cost along.
  lemma {:induction false} RebasedCost(tiers: seq<RateTier>, free: real, x: real)
    ensures RawCost(Rebased(tiers, free), x - free) == RawCost(tiers, x)
    decreases |tiers|
  {
    if tiers != [] {
      var n := |tiers| - 1;
      assert Rebased(tiers, free)[..n] == Rebased(tiers[..n], free);
      RebasedCost(tiers[..n], free, x);
    }
  }

  lemma {:induction false} BelowStart(s: seq<RateTier>, x: real, y: real)
    requires x <= 0.0 && y <= 0.0
    requires forall i :: 0 <= i < |s| ==> s[i].start >= 0.0
    ensures RawCost(s, x) == RawCost(s, y) == 0.0
    decreases |s|
  {
    if s != [] {
      TimesSum(0.0, 0.0, s[|s| - 1].price);
      BelowStart(s[..|s| - 1], x, y);
    }
  }

  // A published zero tier followed, once moved down by its size, by a tariff.
  ghost predicate FreeThenTariff(s: seq<RateTier>) {
    && s != [] && SortedBy(s, StartsBefore)
    && s[0].start == 0.0 && s[0].price == 0.0 && s[0].end > 0.0 && !s[0].infinite
    && Tariff(multiset(Rebased(s[1..], s[0].end)))
  }

  // Such an arrangement is the only sorted one.
  lemma FreeThenTariffUnique(s: seq<RateTier>, r: seq<RateTier>)
    requires FreeThenTariff(s) && multiset(s) == multiset(r) && SortedBy(r, StartsBefore)
    ensures s == r
  {
    hide ValidNumber, Contiguous;
    forall i, j | 0 <= i < j < |s| ensures StartsBefore(s[i], s[j]) && !StartsBefore(s[j], s[i]) {
      PaidRises(s, i, j);
    }
    SortUnique(s, r, StartsBefore);
  }

  lemma PaidContiguous(s: seq<RateTier>)
    requires FreeThenTariff(s)
    ensures Contiguous(Rebased(s[1..], s[0].end))
  {
    hide ValidNumber;
    var paid := Rebased(s[1..], s[0].end);
    var t: seq<RateTier> :| multiset(t) == multiset(paid) && Contiguous(t) && 1 <= |t| <= MAX_TIERS;
    hide Contiguous;
    forall i, j | 0 <= i < j < |paid| ensures StartsBefore(paid[i], paid[j]) {
      assert StartsBefore(s[i + 1], s[j + 1]);
    }
    ContiguousUnique(t, paid);
  }

  lemma PaidRises(s: seq<RateTier>, i: nat, j: nat)
    requires FreeThenTariff(s) && i < j < |s|
    ensures s[i].start < s[j].start
  {
    hide ValidNumber, Tariff, Contiguous;
    PaidContiguous(s);
    var paid := Rebased(s[1..], s[0].end);
    if i == 0 {
      StartNonNegative(paid, j - 1);
    } else {
      StartsRise(paid, i - 1, j - 1);
    }
  }

  lemma StartNonNegative(s: seq<RateTier>, i: nat)
    requires Contiguous(s) && i < |s|
    ensures s[i].start >= 0.0
  {
    assert Fits(s[i], PreviousEnd(s, i), i == |s| - 1);
  }

  // The tier part of fetchOCI: the published free tier's size becomes the
  // allowance and the paid tiers, moved down by it, become the profile's.
  method OciTiers(prices: seq<OciPrice>) returns (result: Option<(seq<Tier>, real)>)
    ensures result.Some? <==>
      && 2 <= |prices| <= 32 && (forall p :: p in prices ==> OciSupported(p))
      && exists s :: multiset(s) == multiset(OciRates(prices)) && FreeThenTariff(s)
    ensures result.Some? ==>
      forall s: seq<RateTier> :: multiset(s) == multiset(OciRates(prices)) && FreeThenTariff(s) ==>
        result.value == (Normalised(Rebased(s[1..], s[0].end)), s[0].end)
    ensures result.Some? ==>
      && ValidTiers(result.value.0) && result.value.1 > 0.0
      && (exists p :: p in prices && p.min == p.value == Some(0.0) && p.max == Some(result.value.1))
      && forall x :: x >= 0.0 ==>
           CostTo(result.value.0, if x > result.value.1 then x - result.value.1 else 0.0) == PublishedCost(prices, x)
  {
    hide Ten, ValidTiers, RawCost, CostTo, Normalised, FreeThenTariff, OciRate, OciSupported, SortedBy, PublishedCost;
    if |prices| < 2 || |prices| > 32 {
      return None;
    }
    var read := ReadOci(prices);
    if read.None? {
      return None;
    }
    var sorted := Sort(read.value, StartsBefore);
    assert |sorted| == |multiset(sorted)| == |multiset(read.value)| == |read.value|;
    forall s | multiset(s) == multiset(read.value) && FreeThenTariff(s) ensures s == sorted {
      FreeThenTariffUnique(s, sorted);
    }
    result := Rebate(sorted, read.value);
    if result.Some? {
      forall x ensures PublishedCost(prices, x) == RawCost(OciRates(prices), x) {
        PublishedIsRaw(prices, x);
      }
      FreePublished(prices, sorted);
    }
  }

  // Usage charged straight from the published prices, field by field: each price
  // for the usage between its minimum and its maximum, the largest number being
  // no bound.
  function PublishedCost(prices: seq<OciPrice>, x: real): real
    requires forall p :: p in prices ==> OciSupported(p)
    decreases |prices|
  {
    if prices == [] then 0.0
    else
      var p := prices[|prices| - 1];
      assert OciSupported(p);
      PublishedCost(prices[..|prices| - 1], x) + PublishedShare(p.min.value, p.max.value, p.value.value, x)
  }

  function PublishedShare(min: real, max: real, price: real, x: real): real {
    var end := if max == 999_999_999_999_999.0 || x < max then x else max;
    if min < end then (end - min) * price else 0.0
  }

  lemma ShareIsRaw(p: OciPrice, x: real)
    requires OciSupported(p)
    ensures RawShare(OciRate(p), x) == PublishedShare(p.min.value, p.max.value, p.value.value, x)
  {
    hide ValidNumber;
  }

  lemma {:induction false} PublishedIsRaw(prices: seq<OciPrice>, x: real)
    requires forall p :: p in prices ==> OciSupported(p)
    ensures PublishedCost(prices, x) == RawCost(OciRates(prices), x)
    decreases |prices|
  {
    hide ValidNumber, RawShare, PublishedShare, OciSupported, OciRate;
    if prices != [] {
      var n := |prices| - 1;
      assert prices[n] in prices;
      ShareIsRaw(prices[n], x);
      PublishedIsRaw(prices[..n], x);
      assert OciRates(prices)[..n] == OciRates(prices[..n]);
    }
  }

  lemma FreePublished(prices: seq<OciPrice>, sorted: seq<RateTier>)
    requires (forall p :: p in prices ==> OciSupported(p)) && multiset(sorted) == multiset(OciRates(prices))
    requires FreeThenTariff(sorted)
    ensures exists p :: p in prices && p.min == p.value == Some(0.0) && p.max == Some(sorted[0].end)
  {
    hide Tariff, SortedBy, ValidNumber;
    assert sorted[0] in multiset(OciRates(prices));
    var i :| 0 <= i < |prices| && OciRates(prices)[i] == sorted[0];
    assert prices[i] in prices && OciRate(prices[i]) == sorted[0];
  }

  // fetchOCI's treatment of the sorted tiers.
  method Rebate(sorted: seq<RateTier>, ghost tiers: seq<RateTier>) returns (result: Option<(seq<Tier>, real)>)
    requires sorted != [] && SortedBy(sorted, StartsBefore) && multiset(sorted) == multiset(tiers)
    ensures result.Some? <==> FreeThenTariff(sorted)
    ensures result.Some? ==>
      && result.value == (Normalised(Rebased(sorted[1..], sorted[0].end)), sorted[0].end)
      && ValidTiers(result.value.0) && result.value.1 > 0.0
      && forall x :: x >= 0.0 ==>
           CostTo(result.value.0, if x > result.value.1 then x - result.value.1 else 0.0) == RawCost(tiers, x)
  {
    hide Ten, ValidTiers, RawCost, CostTo, ValidNumber, Contiguous, Normalised, Tariff, SortedBy, Rebased;
    if sorted[0].start != 0.0 || sorted[0].price != 0.0 || sorted[0].end <= 0.0 || sorted[0].infinite {
      return None;
    }
    var free := sorted[0].end;
    var paid := Rebased(sorted[1..], free);
    var made := MakeTiers(paid);
    if made.None? {
      return None;
    }
    PaidContiguous(sorted);
    TariffSize(paid);
    MadeFrom(paid, made);
    forall x | x >= 0.0
      ensures CostTo(made.value, if x > free then x - free else 0.0) == RawCost(tiers, x)
    {
      OciCost(tiers, sorted, paid, made.value, free, x);
    }
    return Some((made.value, free));
  }

  lemma TariffSize(paid: seq<RateTier>)
    requires Tariff(multiset(paid))
    ensures 1 <= |paid| <= MAX_TIERS
  {
    hide Contiguous;
    var s: seq<RateTier> :| multiset(s) == multiset(paid) && Contiguous(s) && 1 <= |s| <= MAX_TIERS;
    assert |s| == |multiset(s)| == |multiset(paid)| == |paid|;
  }

  lemma MadeFrom(paid: seq<RateTier>, made: Option<seq<Tier>>)
    requires Tariff(multiset(paid))
    requires forall s :: multiset(s) == multiset(paid) && Contiguous(s) && 1 <= |s| <= MAX_TIERS ==>
              made == Some(Normalised(s)) && ValidTiers(Normalised(s))
    ensures made.Some? && ValidTiers(made.value)
  {
    hide Ten, Contiguous, Normalised, ValidTiers;
  }

  method ReadOci(prices: seq<OciPrice>) returns (tiers: Option<seq<RateTier>>)
    ensures tiers.Some? <==> forall p :: p in prices ==> OciSupported(p)
    ensures tiers.Some? ==> tiers.value == OciRates(prices)
  {
    hide OciSupported, OciRate;
    var collected: seq<RateTier> := [];
    for i := 0 to |prices|
      invariant forall j :: 0 <= j < i ==> OciSupported(prices[j])
      invariant |collected| == i && forall j :: 0 <= j < i ==> OciSupported(prices[j]) && collected[j] == OciRate(prices[j])
    {
      if !OciSupported(prices[i]) {
        return None;
      }
      collected := collected + [OciRate(prices[i])];
    }
    assert collected == OciRates(prices);
    return Some(collected);
  }

  lemma OciCost(tiers: seq<RateTier>, sorted: seq<RateTier>, paid: seq<RateTier>, made: seq<Tier>,
                free: real, x: real)
    requires sorted != [] && multiset(sorted) == multiset(tiers) && sorted[0].price == 0.0
    requires paid == Rebased(sorted[1..], free)
    requires Tariff(multiset(paid))
    requires forall s :: multiset(s) == multiset(paid) && Contiguous(s) && 1 <= |s| <= MAX_TIERS ==> made == Normalised(s)
    ensures CostTo(made, if x > free then x - free else 0.0) == RawCost(tiers, x)
  {
    hide Ten, RawCost, CostTo, ValidNumber, Normalised;
    var s: seq<RateTier> :| multiset(s) == multiset(paid) && Contiguous(s) && 1 <= |s| <= MAX_TIERS;
    var y := if x > free then x - free else 0.0;
    NormalisedCost(paid, s, y);
    if y != x - free {
      forall i | 0 <= i < |s| ensures s[i].start >= 0.0 {
        StartNonNegative(s, i);
      }
      BelowStart(s, y, x - free);
      RawCostOrder(s, paid, y);
      RawCostOrder(s, paid, x - free);
    }
    RebasedCost(sorted[1..], free, x);
    FreeShare(sorted, x);
    RawCostOrder(sorted, tiers, x);
  }

  lemma FreeShare(sorted: seq<RateTier>, x: real)
    requires sorted != [] && sorted[0].price == 0.0
    ensures RawCost(sorted, x) == RawCost(sorted[1..], x)
  {
    RawCostSplit(sorted, 0, x);
    assert sorted[..0] + sorted[1..] == sorted[1..];
  }
}
