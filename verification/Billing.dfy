// billing.go: tiered egress estimates, over exact reals.
module Billing {
  import opened Wrappers

  const MAX_TIERS: nat := 32
  const MAX_PRICE: real := Ten(100)
  const DEFAULT_UNIT: nat := 1_000_000_000
  const BINARY_UNIT: nat := 1_073_741_824

  function Ten(n: nat): (r: real)
    ensures r >= 1.0
  {
    if n == 0 then 1.0 else 10.0 * Ten(n - 1)
  }

  // upTo 0 means unbounded.
  datatype Tier = Tier(upTo: real, price: real)

  datatype Profile = Profile(freeGB: real, unitBytes: nat, tiers: seq<Tier>)

  datatype Estimated = Unavailable | Estimated(billableGB: real, cost: real)

  // Bounded tiers with rising limits, then one unbounded tier.
  ghost predicate ValidTiers(tiers: seq<Tier>) {
    && 1 <= |tiers| <= MAX_TIERS
    && tiers[|tiers| - 1].upTo == 0.0
    && (forall i :: 0 <= i < |tiers| ==> 0.0 <= tiers[i].price <= MAX_PRICE)
    && (forall i :: 0 <= i < |tiers| - 1 ==> tiers[i].upTo > LowerLimit(tiers, i))
  }

  function LowerLimit(tiers: seq<Tier>, i: nat): real
    requires i <= |tiers|
  {
    if i == 0 then 0.0 else tiers[i - 1].upTo
  }

  ghost predicate ValidAmounts(p: Profile) {
    && p.unitBytes in {0, DEFAULT_UNIT, BINARY_UNIT}
    && p.freeGB >= 0.0
    && ValidTiers(p.tiers)
  }

  method ValidateAmounts(p: Profile) returns (ok: bool)
    ensures ok <==> ValidAmounts(p)
  {
    hide Ten;
    if p.unitBytes != 0 && p.unitBytes != DEFAULT_UNIT && p.unitBytes != BINARY_UNIT {
      return false;
    }
    if p.freeGB < 0.0 || |p.tiers| == 0 || |p.tiers| > MAX_TIERS {
      return false;
    }
    ValidTierByTier(p.tiers);
    hide LowerLimit, TierFits, ValidTiers;
    var previous := 0.0;
    LimitAfter(p.tiers, 0);
    for i := 0 to |p.tiers|
      invariant forall j :: 0 <= j < i ==> TierFits(p.tiers, j)
      invariant i < |p.tiers| ==> previous == LowerLimit(p.tiers, i) >= 0.0
    {
      var tier := p.tiers[i];
      assert TierFits(p.tiers, i) <==>
        && 0.0 <= tier.price <= MAX_PRICE
        && (if i == |p.tiers| - 1 then tier.upTo == 0.0 else tier.upTo > previous) by { LimitAfter(p.tiers, i); }
      if tier.upTo < 0.0 || tier.price < 0.0 || tier.price > MAX_PRICE {
        return false;
      }
      if i < |p.tiers| - 1 && tier.upTo <= previous {
        return false;
      }
      if i == |p.tiers| - 1 && tier.upTo != 0.0 {
        return false;
      }
      LimitAfter(p.tiers, i);
      if tier.upTo > 0.0 {
        previous := tier.upTo;
      }
    }
    return true;
  }

  predicate TierFits(tiers: seq<Tier>, i: nat)
    requires i < |tiers|
  {
    && 0.0 <= tiers[i].price <= MAX_PRICE
    && if i == |tiers| - 1 then tiers[i].upTo == 0.0 else tiers[i].upTo > LowerLimit(tiers, i)
  }

  lemma ValidTierByTier(tiers: seq<Tier>)
    ensures ValidTiers(tiers) <==> 1 <= |tiers| <= MAX_TIERS && forall i :: 0 <= i < |tiers| ==> TierFits(tiers, i)
  {
    hide Ten;
    if 1 <= |tiers| && forall i :: 0 <= i < |tiers| ==> TierFits(tiers, i) {
      assert TierFits(tiers, |tiers| - 1);
      forall i | 0 <= i < |tiers| ensures 0.0 <= tiers[i].price <= MAX_PRICE {
        assert TierFits(tiers, i);
      }
      forall i | 0 <= i < |tiers| - 1 ensures tiers[i].upTo > LowerLimit(tiers, i) {
        assert TierFits(tiers, i);
      }
    }
  }

  lemma LimitAfter(tiers: seq<Tier>, i: nat)
    requires i < |tiers|
    ensures LowerLimit(tiers, 0) == 0.0 && LowerLimit(tiers, i + 1) == tiers[i].upTo
    ensures TierFits(tiers, i) <==>
      && 0.0 <= tiers[i].price <= MAX_PRICE
      && (if i == |tiers| - 1 then tiers[i].upTo == 0.0 else tiers[i].upTo > LowerLimit(tiers, i))
  {
    hide Ten;
  }

  // ---------------------------------------------------------------- cost

  function Span(a: real, b: real): real { if a < b then b - a else 0.0 }

  function Lesser(a: real, b: real): real { if a < b then a else b }

  // An amount at a price.
  function Times(amount: real, price: real): real { amount * price }

  lemma TimesSum(a: real, b: real, price: real)
    ensures Times(a, price) + Times(b, price) == Times(a + b, price)
    ensures Times(0.0, price) == 0.0
    ensures a <= b && price >= 0.0 ==> Times(a, price) <= Times(b, price)
  {
    if a <= b && price >= 0.0 {
      assert (b - a) * price >= 0.0;
    }
  }

  // The cost of the usage between `lower` and x.
  function CostFrom(tiers: seq<Tier>, lower: real, x: real): real {
    if tiers == [] then 0.0
    else
      var tier := tiers[0];
      if tier.upTo == 0.0 then Times(Span(lower, x), tier.price)
      else Times(Span(lower, Lesser(x, tier.upTo)), tier.price) + CostFrom(tiers[1..], tier.upTo, x)
  }

  function CostTo(tiers: seq<Tier>, x: real): real { CostFrom(tiers, 0.0, x) }

  function Unit(p: Profile): (u: nat)
    ensures u > 0
  {
    if p.unitBytes == 0 then DEFAULT_UNIT else p.unitBytes
  }

  function Billable(p: Profile, bytes: nat): (b: real)
    ensures b >= 0.0
  {
    var total := bytes as real / Unit(p) as real;
    if total > p.freeGB then total - p.freeGB else 0.0
  }

  // What is billed, without its formula: nothing up to the allowance, and beyond
  // it exactly the usage that the allowance leaves, in gigabytes of the profile's
  // own kind.
  ghost predicate Bills(p: Profile, bytes: nat, billable: real) {
    var gigabyte := if p.unitBytes == 1_073_741_824 then 1_073_741_824.0 else 1_000_000_000.0;
    && (bytes as real <= p.freeGB * gigabyte ==> billable == 0.0)
    && (bytes as real >= p.freeGB * gigabyte ==> (p.freeGB + billable) * gigabyte == bytes as real)
  }

  lemma BillableBills(p: Profile, bytes: nat)
    requires ValidAmounts(p)
    ensures Bills(p, bytes, Billable(p, bytes))
  {
    hide Ten, ValidTiers;
    var gigabyte := Unit(p) as real;
    assert gigabyte == if p.unitBytes == 1_073_741_824 then 1_073_741_824.0 else 1_000_000_000.0;
    assert bytes as real / gigabyte * gigabyte == bytes as real;
  }

  // Usage of the allowance and x gigabytes more bills exactly x, and nothing else does.
  lemma BillsBeyond(p: Profile, bytes: nat, x: real, billable: real)
    requires ValidAmounts(p) && x >= 0.0 && Bills(p, bytes, billable)
    requires p.unitBytes == 1_073_741_824 ==> bytes as real == (p.freeGB + x) * 1_073_741_824.0
    requires p.unitBytes != 1_073_741_824 ==> bytes as real == (p.freeGB + x) * 1_000_000_000.0
    ensures billable == x
  {
    hide Ten, ValidTiers;
  }

  method Estimate(p: Profile, bytes: uint64) returns (e: Estimated)
    ensures e == if ValidAmounts(p) then Estimated(Billable(p, bytes), CostTo(p.tiers, Billable(p, bytes)))
                 else Unavailable
    ensures e.Estimated? ==> Bills(p, bytes, e.billableGB)
  {
    hide Ten;
    if ValidAmounts(p) {
      BillableBills(p, bytes);
    }
    var ok := ValidateAmounts(p);
    if !ok {
      return Unavailable;
    }
    var unit := p.unitBytes;
    if unit == 0 {
      unit := DEFAULT_UNIT;
    }
    var totalGB := bytes as real / unit as real;
    var billable := if totalGB - p.freeGB > 0.0 then totalGB - p.freeGB else 0.0;
    var cost, remaining := Accumulate(p.tiers, billable);
    if cost < 0.0 || remaining > 0.0 {
      assert false; // the loop never ends short
    }
    return Estimated(billable, cost);
  }

  // Estimate's loop: takes from each tier what it holds until nothing remains.
  method Accumulate(tiers: seq<Tier>, billable: real) returns (cost: real, remaining: real)
    requires ValidTiers(tiers) && billable >= 0.0
    ensures cost == CostTo(tiers, billable) >= 0.0 && remaining == 0.0
  {
    hide Ten, Times;
    remaining, cost := billable, 0.0;
    var lower := 0.0;
    var i := 0;
    assert tiers[0..] == tiers;
    while i < |tiers| && remaining > 0.0
      invariant 0 <= i <= |tiers| && remaining >= 0.0 && cost >= 0.0
      invariant i < |tiers| ==> lower == LowerLimit(tiers, i) && remaining == Span(lower, billable)
      invariant i == |tiers| ==> remaining == 0.0
      invariant cost + (if i < |tiers| then CostFrom(tiers[i..], lower, billable) else 0.0) == CostTo(tiers, billable)
    {
      var tier := tiers[i];
      LimitsRise(tiers, 0, i);
      assert tiers[i..][1..] == tiers[i + 1..];
      var amount := remaining;
      if tier.upTo > 0.0 {
        var capacity := tier.upTo - lower;
        if amount > capacity {
          amount := capacity;
        }
        assert amount == Span(lower, Lesser(billable, tier.upTo));
      }
      TimesSum(0.0, amount, tier.price);
      cost := cost + Times(amount, tier.price);
      remaining := remaining - amount;
      if tier.upTo > 0.0 {
        lower := tier.upTo;
      }
      i := i + 1;
    }
    if i < |tiers| {
      NothingBeyond(tiers, i, lower, billable);
    }
  }

  lemma {:induction false} NothingBeyond(tiers: seq<Tier>, i: nat, lower: real, x: real)
    requires ValidTiers(tiers) && i < |tiers| && lower == LowerLimit(tiers, i) && x <= lower
    ensures CostFrom(tiers[i..], lower, x) == 0.0
    decreases |tiers| - i
  {
    hide Ten, Times;
    assert tiers[i..][1..] == tiers[i + 1..];
    TimesSum(0.0, 0.0, tiers[i].price);
    if i + 1 < |tiers| {
      NothingBeyond(tiers, i + 1, tiers[i].upTo, x);
    }
  }

  // ---------------------------------------------------------------- the price function

  // The tier that prices the next gigabyte at usage x.
  function TierAt(tiers: seq<Tier>, x: real): (i: nat)
    requires ValidTiers(tiers) && x >= 0.0
    ensures i < |tiers| && LowerLimit(tiers, i) <= x
    ensures tiers[i].upTo == 0.0 || x < tiers[i].upTo
  {
    hide Ten;
    Find(tiers, x, 0)
  }

  function Find(tiers: seq<Tier>, x: real, from: nat): (i: nat)
    requires ValidTiers(tiers) && from < |tiers| && LowerLimit(tiers, from) <= x
    ensures from <= i < |tiers| && LowerLimit(tiers, i) <= x
    ensures tiers[i].upTo == 0.0 || x < tiers[i].upTo
    decreases |tiers| - from
  {
    if tiers[from].upTo == 0.0 || x < tiers[from].upTo then from else Find(tiers, x, from + 1)
  }

  function MarginalPrice(tiers: seq<Tier>, x: real): real
    requires ValidTiers(tiers) && x >= 0.0
  {
    tiers[TierAt(tiers, x)].price
  }

  // No tier boundary lies strictly between x and y.
  ghost predicate SameTier(tiers: seq<Tier>, x: real, y: real)
    requires ValidTiers(tiers)
  {
    0.0 <= x <= y && (var t := tiers[TierAt(tiers, x)]; t.upTo == 0.0 || y <= t.upTo)
  }

  // F is an integral of the marginal price from 0.
  ghost predicate IsIntegral(tiers: seq<Tier>, F: real -> real)
    requires ValidTiers(tiers)
  {
    && F(0.0) == 0.0
    && forall x, y :: SameTier(tiers, x, y) ==> F(y) - F(x) == Times(y - x, MarginalPrice(tiers, x))
  }

  lemma {:induction false} SlopeFrom(tiers: seq<Tier>, i: nat, t: nat, x: real, y: real)
    requires ValidTiers(tiers) && i <= t < |tiers|
    requires LowerLimit(tiers, t) <= x <= y && (tiers[t].upTo == 0.0 || y <= tiers[t].upTo)
    requires LowerLimit(tiers, i) <= x
    ensures CostFrom(tiers[i..], LowerLimit(tiers, i), y) - CostFrom(tiers[i..], LowerLimit(tiers, i), x)
            == Times(y - x, tiers[t].price)
    decreases t - i
  {
    hide Ten, Times, CostFrom;
    UnfoldCost(tiers, i, x);
    UnfoldCost(tiers, i, y);
    if i < t {
      LimitsRise(tiers, i + 1, t);
      SlopeFrom(tiers, i + 1, t, x, y);
    } else {
      TimesSum(x - LowerLimit(tiers, i), y - x, tiers[i].price);
      if i + 1 < |tiers| {
        NothingBeyond(tiers, i + 1, tiers[i].upTo, x);
        NothingBeyond(tiers, i + 1, tiers[i].upTo, y);
      }
    }
  }

  lemma UnfoldCost(tiers: seq<Tier>, i: nat, x: real)
    requires ValidTiers(tiers) && i < |tiers|
    ensures CostFrom(tiers[i..], LowerLimit(tiers, i), x) ==
      if i == |tiers| - 1 then Times(Span(LowerLimit(tiers, i), x), tiers[i].price)
      else Times(Span(LowerLimit(tiers, i), Lesser(x, tiers[i].upTo)), tiers[i].price)
           + CostFrom(tiers[i + 1..], LowerLimit(tiers, i + 1), x)
    ensures i < |tiers| - 1 ==> tiers[i].upTo > LowerLimit(tiers, i) >= 0.0
  {
    hide Ten, Times;
    LimitsRise(tiers, 0, i);
    assert tiers[i..][1..] == tiers[i + 1..];
  }

  lemma {:induction false} LimitsRise(tiers: seq<Tier>, i: nat, j: nat)
    requires ValidTiers(tiers) && i <= j < |tiers|
    ensures LowerLimit(tiers, i) <= LowerLimit(tiers, j)
    decreases j - i
  {
    hide Ten;
    if i < j {
      LimitsRise(tiers, i, j - 1);
      assert tiers[j - 1].upTo > LowerLimit(tiers, j - 1);
    }
  }

  // What Estimate charges is the integral of the marginal price ...
  lemma CostIsIntegral(tiers: seq<Tier>)
    requires ValidTiers(tiers)
    ensures IsIntegral(tiers, x => CostTo(tiers, x))
  {
    hide Ten, Times, CostFrom, TierAt;
    assert tiers[0..] == tiers;
    NothingBeyond(tiers, 0, 0.0, 0.0);
    forall x, y | SameTier(tiers, x, y)
      ensures CostTo(tiers, y) - CostTo(tiers, x) == Times(y - x, MarginalPrice(tiers, x))
    {
      SlopeFrom(tiers, 0, TierAt(tiers, x), x, y);
    }
  }

  // ... and the only one.
  lemma IntegralUnique(tiers: seq<Tier>, F: real -> real, x: real)
    requires ValidTiers(tiers) && IsIntegral(tiers, F) && x >= 0.0
    ensures F(x) == CostTo(tiers, x)
  {
    hide Ten, Times, CostTo, TierAt, MarginalPrice;
    var t := TierAt(tiers, x);
    AgreeAtLimits(tiers, F, t);
    TierAtLimit(tiers, t);
    AgreeWithin(tiers, F, LowerLimit(tiers, t), x);
  }

  lemma {:induction false} TierAtLimit(tiers: seq<Tier>, t: nat)
    requires ValidTiers(tiers) && t < |tiers|
    ensures LowerLimit(tiers, t) >= 0.0 && TierAt(tiers, LowerLimit(tiers, t)) == t
  {
    hide Ten, Find;
    LimitsRise(tiers, 0, t);
    var x := LowerLimit(tiers, t);
    assert t < |tiers| - 1 ==> tiers[t].upTo > x;
    var u := TierAt(tiers, x);
    if u < t {
      LimitsRise(tiers, 0, u);
      assert tiers[u].upTo > LowerLimit(tiers, u);
      LimitsRise(tiers, u + 1, t);
    } else if t < u {
      LimitsRise(tiers, t + 1, u);
    }
  }

  lemma {:induction false} AgreeAtLimits(tiers: seq<Tier>, F: real -> real, t: nat)
    requires ValidTiers(tiers) && IsIntegral(tiers, F) && t < |tiers|
    ensures F(LowerLimit(tiers, t)) == CostTo(tiers, LowerLimit(tiers, t))
    decreases t
  {
    hide Ten, Times, CostTo, TierAt, MarginalPrice;
    if t > 0 {
      AgreeAtLimits(tiers, F, t - 1);
      TierAtLimit(tiers, t - 1);
      assert tiers[t - 1].upTo > LowerLimit(tiers, t - 1);
      AgreeWithin(tiers, F, LowerLimit(tiers, t - 1), LowerLimit(tiers, t));
    } else {
      CostIsIntegral(tiers);
      assert (y => CostTo(tiers, y))(0.0) == 0.0;
    }
  }

  // Two integrals that agree at x agree throughout its tier.
  lemma AgreeWithin(tiers: seq<Tier>, F: real -> real, x: real, y: real)
    requires ValidTiers(tiers) && IsIntegral(tiers, F) && SameTier(tiers, x, y)
    requires F(x) == CostTo(tiers, x)
    ensures F(y) == CostTo(tiers, y)
  {
    hide Ten, Times, CostTo, TierAt, MarginalPrice, ValidTiers;
    CostIsIntegral(tiers);
    var C := z => CostTo(tiers, z);
    assert C(y) - C(x) == Times(y - x, MarginalPrice(tiers, x));
  }

  // ---------------------------------------------------------------- consequences

  lemma {:induction false} CostRises(tiers: seq<Tier>, lower: real, x: real, y: real)
    requires forall i :: 0 <= i < |tiers| ==> tiers[i].price >= 0.0
    requires x <= y
    ensures CostFrom(tiers, lower, x) <= CostFrom(tiers, lower, y)
    decreases |tiers|
  {
    hide Times;
    if tiers != [] {
      var tier := tiers[0];
      CostRises(tiers[1..], tier.upTo, x, y);
      var a := if tier.upTo == 0.0 then Span(lower, x) else Span(lower, Lesser(x, tier.upTo));
      var b := if tier.upTo == 0.0 then Span(lower, y) else Span(lower, Lesser(y, tier.upTo));
      TimesSum(a, b, tier.price);
    }
  }

  // More bytes never cost less, and the free allowance costs nothing.
  lemma EstimateMonotone(p: Profile, m: nat, n: nat)
    requires ValidAmounts(p) && m <= n
    ensures CostTo(p.tiers, Billable(p, m)) <= CostTo(p.tiers, Billable(p, n))
    ensures m as real / Unit(p) as real <= p.freeGB ==> CostTo(p.tiers, Billable(p, m)) == 0.0
  {
    hide Ten, Times, CostFrom;
    var unit := Unit(p) as real;
    assert n as real / unit - m as real / unit == (n - m) as real / unit >= 0.0;
    CostRises(p.tiers, 0.0, Billable(p, m), Billable(p, n));
    assert p.tiers[0..] == p.tiers;
    NothingBeyond(p.tiers, 0, 0.0, 0.0);
  }

  // Tier i cut in two at the same price.
  function Split(tiers: seq<Tier>, i: nat, at: real): (split: seq<Tier>)
    requires i < |tiers|
    ensures |split| == |tiers| + 1
    ensures forall j :: 0 <= j < |split| ==>
      split[j] == if j < i then tiers[j] else if j == i then Tier(at, tiers[i].price) else tiers[j - 1]
  {
    tiers[..i] + [Tier(at, tiers[i].price)] + tiers[i..]
  }

  // `at` lies strictly inside tier i.
  predicate Within(tiers: seq<Tier>, i: nat, at: real)
    requires i < |tiers|
  {
    at > LowerLimit(tiers, i) && (tiers[i].upTo == 0.0 || at < tiers[i].upTo)
  }

  // Splitting a tier in two at the same price changes no cost, and the result is
  // valid exactly if it still has at most 32 tiers.
  lemma SplitTier(tiers: seq<Tier>, i: nat, at: real, x: real)
    requires ValidTiers(tiers) && i < |tiers| && Within(tiers, i, at)
    ensures CostTo(Split(tiers, i, at), x) == CostTo(tiers, x)
    ensures ValidTiers(Split(tiers, i, at)) <==> |tiers| < MAX_TIERS
  {
    hide Ten, CostFrom, Split;
    LimitsRise(tiers, 0, i);
    forall j | 0 <= j < i ensures tiers[j].upTo > 0.0 {
      LimitsRise(tiers, 0, j);
    }
    SplitCost(tiers, i, at, 0.0, x);
    if |tiers| < MAX_TIERS {
      SplitRises(tiers, i, at);
    }
  }

  lemma SplitRises(tiers: seq<Tier>, i: nat, at: real)
    requires ValidTiers(tiers) && i < |tiers| < MAX_TIERS && Within(tiers, i, at)
    ensures ValidTiers(Split(tiers, i, at))
  {
    LimitsRise(tiers, 0, i);
    var split := Split(tiers, i, at);
    ValidTierByTier(tiers);
    ValidTierByTier(split);
    hide Ten, ValidTiers;
    forall j | 0 <= j < |split| ensures TierFits(split, j) {
      SplitFits(tiers, i, at, j);
    }
  }

  lemma SplitFits(tiers: seq<Tier>, i: nat, at: real, j: nat)
    requires i < |tiers| && j <= |tiers| && Within(tiers, i, at) && LowerLimit(tiers, i) >= 0.0
    requires forall k :: 0 <= k < |tiers| ==> TierFits(tiers, k)
    ensures TierFits(Split(tiers, i, at), j)
  {
    hide Ten;
    assert TierFits(tiers, if j <= i then j else j - 1) && TierFits(tiers, i);
  }

  // The estimate itself therefore survives a split of up to 31 tiers and no other.
  lemma SplitEstimate(p: Profile, i: nat, at: real, bytes: nat)
    requires ValidAmounts(p) && i < |p.tiers| && Within(p.tiers, i, at)
    ensures var q := p.(tiers := Split(p.tiers, i, at));
            && Billable(q, bytes) == Billable(p, bytes)
            && CostTo(q.tiers, Billable(q, bytes)) == CostTo(p.tiers, Billable(p, bytes))
            && (ValidAmounts(q) <==> |p.tiers| < MAX_TIERS)
  {
    hide Ten, CostTo, ValidTiers;
    SplitTier(p.tiers, i, at, Billable(p, bytes));
  }

  // The largest profile: 31 bounded tiers of one gigabyte each, then the rest.
  function FullProfile(): Profile {
    Profile(0.0, 0, seq(MAX_TIERS, i requires 0 <= i < MAX_TIERS =>
                      Tier(if i == MAX_TIERS - 1 then 0.0 else (i + 1) as real, 1.0)))
  }

  // It is valid, and split once it is refused.
  lemma FullProfileSplit()
    ensures ValidAmounts(FullProfile()) && Within(FullProfile().tiers, 0, 0.5)
    ensures !ValidAmounts(FullProfile().(tiers := Split(FullProfile().tiers, 0, 0.5)))
  {
    assert MAX_PRICE >= 1.0;
    hide Ten;
    var tiers := FullProfile().tiers;
    forall i | 0 <= i < |tiers| - 1 ensures tiers[i].upTo > LowerLimit(tiers, i) {
      assert tiers[i].upTo == (i + 1) as real;
    }
  }

  lemma CostUnfolds(tiers: seq<Tier>, lower: real, x: real)
    requires tiers != []
    ensures CostFrom(tiers, lower, x) ==
      var tier := tiers[0];
      if tier.upTo == 0.0 then Times(Span(lower, x), tier.price)
      else Times(Span(lower, Lesser(x, tier.upTo)), tier.price) + CostFrom(tiers[1..], tier.upTo, x)
  {
  }

  lemma SplitFirst(tiers: seq<Tier>, at: real, lower: real, x: real)
    requires tiers != [] && at > lower && at > 0.0 && (tiers[0].upTo == 0.0 || at < tiers[0].upTo)
    ensures CostFrom([Tier(at, tiers[0].price)] + tiers, lower, x) == CostFrom(tiers, lower, x)
  {
    hide Times, CostFrom;
    var split := [Tier(at, tiers[0].price)] + tiers;
    assert split[1..] == tiers;
    CostUnfolds(split, lower, x);
    CostUnfolds(tiers, lower, x);
    CostUnfolds(tiers, at, x);
    var price, upTo := tiers[0].price, tiers[0].upTo;
    var end := if upTo == 0.0 then x else Lesser(x, upTo);
    assert Span(lower, Lesser(x, at)) + Span(at, end) == Span(lower, end);
    TimesSum(Span(lower, Lesser(x, at)), Span(at, end), price);
  }

  lemma SplitTail(tiers: seq<Tier>, i: nat, at: real)
    requires 0 < i < |tiers|
    ensures Split(tiers, i, at)[1..] == Split(tiers[1..], i - 1, at)
  {
  }

  lemma {:induction false} SplitCost(tiers: seq<Tier>, i: nat, at: real, lower: real, x: real)
    requires i < |tiers| && at > (if i == 0 then lower else tiers[i - 1].upTo) && at > 0.0
    requires tiers[i].upTo == 0.0 || at < tiers[i].upTo
    requires forall j :: 0 <= j < i ==> tiers[j].upTo > 0.0
    ensures CostFrom(Split(tiers, i, at), lower, x) == CostFrom(tiers, lower, x)
    decreases i
  {
    hide Times, CostFrom, Span, Lesser;
    var split := Split(tiers, i, at);
    if i > 0 {
      SplitTail(tiers, i, at);
      SplitCost(tiers[1..], i - 1, at, tiers[0].upTo, x);
      CostUnfolds(tiers, lower, x);
      CostUnfolds(split, lower, x);
      assert split[0] == tiers[0];
    } else {
      assert split == [Tier(at, tiers[0].price)] + tiers;
      SplitFirst(tiers, at, lower, x);
    }
  }
}
