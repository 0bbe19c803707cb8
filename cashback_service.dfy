/** The tiered cashback rule engine of services/cashbackService.ts: rule-set
    selection, first-matching-tier lookup, the calculation base, truncation to
    whole cents and the minimum / maximum payout clamps.  Money is an exact
    `real`. */
module CashbackService {
  import opened Outcomes
  import opened Types
  import opened Constants

  /** `v` is a whole number of cents. */
  predicate IsWholeCents(v: real) {
    (v * 100.0).Floor as real == v * 100.0
  }

  /** `truncateToTwoDecimals`: drop everything below the cent, never rounding up. */
  function TruncateToTwoDecimals(v: real): (r: real)
    ensures IsWholeCents(r)
    ensures r <= v < r + 0.01
    ensures 0.0 <= v ==> 0.0 <= r
  {
    (v * 100.0).Floor as real / 100.0
  }

  /** The truncation is the largest whole-cent amount that does not exceed `v`. */
  lemma TruncateIsGreatestCentsBelow(v: real, c: real)
    requires IsWholeCents(c) && c <= v
    ensures c <= TruncateToTwoDecimals(v)
  {
    var r := TruncateToTwoDecimals(v);
    // Both are whole cents and c < r + 0.01, so c cannot exceed r.
    assert (c * 100.0).Floor <= (v * 100.0).Floor;
  }

  /** Whole-cent amounts are left unchanged, so truncating twice is truncating once. */
  lemma TruncateKeepsCents(v: real)
    requires IsWholeCents(v)
    ensures TruncateToTwoDecimals(v) == v
  {
  }

  /** Truncation preserves order. */
  lemma TruncateMonotone(a: real, b: real)
    requires a <= b
    ensures TruncateToTwoDecimals(a) <= TruncateToTwoDecimals(b)
  {
    TruncateIsGreatestCentsBelow(b, TruncateToTwoDecimals(a));
  }

  /** The loss lies in the tier's `[min, max]` range (`max` may be `Infinity`). */
  predicate Within(t: Tier, loss: real) {
    t.min <= loss && (t.max.Unbounded? || loss <= t.max.value)
  }

  /** `tiers.find(...)` from position `i` on: the index of the first tier containing the loss. */
  function FirstTierFrom(tiers: seq<Tier>, loss: real, i: nat): (r: Option<nat>)
    requires i <= |tiers|
    ensures r.Some? ==> i <= r.value < |tiers| && Within(tiers[r.value], loss)
    ensures r.Some? ==> forall j :: i <= j < r.value ==> !Within(tiers[j], loss)
    ensures r.None? ==> forall j :: i <= j < |tiers| ==> !Within(tiers[j], loss)
    decreases |tiers| - i
  {
    if i == |tiers| then None
    else if Within(tiers[i], loss) then Some(i)
    else FirstTierFrom(tiers, loss, i + 1)
  }

  function FirstTier(tiers: seq<Tier>, loss: real): Option<nat> {
    FirstTierFrom(tiers, loss, 0)
  }

  /** A tier table as constants.ts lays them out: ascending, contiguous at cent
      resolution (each tier starts one cent after the previous one ends), with
      strictly increasing percentages and an unbounded last tier. */
  ghost predicate WellFormedTiers(ts: seq<Tier>) {
    && |ts| > 0
    && ts[0].min > 0.0
    && ts[|ts| - 1].max.Unbounded?
    && (forall i :: 0 <= i < |ts| ==> IsWholeCents(ts[i].min) && 0.0 < ts[i].percent <= 1.0)
    && (forall i :: 0 <= i < |ts| - 1 ==> ts[i].max.Finite? && ts[i].min <= ts[i].max.value)
    && (forall i, j :: 0 <= i < j < |ts| && j == i + 1 ==>
          ts[j].min == ts[i].max.value + 0.01 && ts[i].percent < ts[j].percent)
  }

  /** A rule set whose cap equals its top percentage applied to its base limit. */
  ghost predicate WellFormedRules(rs: RuleSet) {
    && WellFormedTiers(rs.tiers)
    && 0.0 < rs.minCashback <= rs.maxCashback
    && IsWholeCents(rs.minCashback) && IsWholeCents(rs.maxCashback)
    && rs.baseLimit > 0.0
    && rs.tiers[|rs.tiers| - 1].percent * rs.baseLimit == rs.maxCashback
  }

  /** The `switch (mode)` of `calculateCashback`: tiers, minimum, maximum and base limit. */
  function SelectRules(mode: Mode, platform: Platform): (rs: RuleSet)
    ensures WellFormedRules(rs)
    ensures rs.maxCashback == 5000.0
    ensures mode == Weekly ==> rs.tiers == WeeklyTiers && rs.baseLimit == WeeklyCalcLimitBase
    ensures mode == Weekly ==> rs.minCashback == (if platform == Vera then 0.01 else 0.50)
    ensures mode != Weekly ==> rs.minCashback == 0.01
    ensures mode == Daily && platform == Vera ==> rs.tiers == VeraDailyTiers && rs.baseLimit == 25000.0
    ensures mode == Daily && platform != Vera ==> rs.tiers == DailyTiers && rs.baseLimit == 20000.0
    ensures mode == Sports ==> rs == RuleSet(SportsTiers, 0.01, 5000.0, 50000.0)
    ensures mode == Aviator ==> rs == RuleSet(DailyTiers, 0.01, 5000.0, 20000.0)
  {
    TablesWellFormed();
    match mode
    case Weekly =>
      RuleSet(WeeklyTiers,
              if platform == Vera then VeraWeeklyMinCashback else WeeklyMinCashback,
              WeeklyMaxCashback, WeeklyCalcLimitBase)
    case Daily =>
      if platform == Vera then RuleSet(VeraDailyTiers, DailyMinCashback, DailyMaxCashback, VeraDailyCalcLimitBase)
      else RuleSet(DailyTiers, DailyMinCashback, DailyMaxCashback, DailyCalcLimitBase)
    case Sports => RuleSet(SportsTiers, SportsMinCashback, SportsMaxCashback, SportsCalcLimitBase)
    case Aviator => RuleSet(AviatorTiers, AviatorMinCashback, AviatorMaxCashback, AviatorCalcLimitBase)
  }

  /** Every tier table of constants.ts is well formed. */
  lemma TablesWellFormed()
    ensures WellFormedTiers(WeeklyTiers)
    ensures WellFormedTiers(DailyTiers)
    ensures WellFormedTiers(VeraDailyTiers)
    ensures WellFormedTiers(SportsTiers)
  {
    WeeklyTiersWellFormed();
    DailyTiersWellFormed();
    VeraDailyTiersWellFormed();
    SportsTiersWellFormed();
  }

  lemma WeeklyTiersWellFormed() ensures WellFormedTiers(WeeklyTiers) {}
  lemma DailyTiersWellFormed() ensures WellFormedTiers(DailyTiers) {}
  lemma VeraDailyTiersWellFormed() ensures WellFormedTiers(VeraDailyTiers) {}
  lemma SportsTiersWellFormed() ensures WellFormedTiers(SportsTiers) {}

  function Min(a: real, b: real): real {
    if a <= b then a else b
  }

  /** The untruncated rebate `min(loss, baseLimit) × percent`. */
  function RawRebate(loss: real, rs: RuleSet, percent: real): real {
    Min(loss, rs.baseLimit) * percent
  }

  /** The truncated rebate of a matched tier: `min(loss, baseLimit) × percent`, cut to cents. */
  function Rebate(loss: real, rs: RuleSet, tier: Tier): (r: real)
    ensures IsWholeCents(r)
    ensures r <= RawRebate(loss, rs, tier.percent) < r + 0.01
    ensures 0.0 <= RawRebate(loss, rs, tier.percent) ==> 0.0 <= r
  {
    TruncateToTwoDecimals(RawRebate(loss, rs, tier.percent))
  }

  /** The payout once the clamps apply: below the minimum it is exactly 0, above the maximum it is the maximum. */
  function Clamp(rebate: real, rs: RuleSet): (c: real)
    ensures 0.0 <= rs.minCashback <= rs.maxCashback ==> 0.0 <= c && (c == 0.0 || rs.minCashback <= c)
    ensures rs.minCashback <= rs.maxCashback ==> c <= rs.maxCashback
    ensures 0.0 <= rs.minCashback <= rs.maxCashback && 0.0 <= rebate ==> c <= rebate
    ensures IsWholeCents(rebate) && IsWholeCents(rs.maxCashback) ==> IsWholeCents(c)
    ensures rs.minCashback <= rebate <= rs.maxCashback ==> c == rebate
    ensures rs.minCashback <= rs.maxCashback < rebate ==> c == rs.maxCashback
    ensures rebate < rs.minCashback && 0.0 <= rs.maxCashback ==> c == 0.0
  {
    var floored := if rebate < rs.minCashback then 0.0 else rebate;
    if floored > rs.maxCashback then rs.maxCashback else floored
  }

  /** The calculation of `calculateCashback` once the rule set is chosen. */
  function ApplyRules(loss: real, rs: RuleSet): (r: CashbackResult)
    ensures r.lossAmount == loss
    ensures loss <= 0.0 ==> r.cashbackAmount == 0.0 && r.appliedPercent == 0.0
    ensures FirstTier(rs.tiers, loss).None? ==> r.cashbackAmount == 0.0 && r.appliedPercent == 0.0
    ensures loss > 0.0 && FirstTier(rs.tiers, loss).Some? ==>
              r.appliedPercent == rs.tiers[FirstTier(rs.tiers, loss).value].percent
    ensures 0.0 <= rs.minCashback <= rs.maxCashback ==>
              && 0.0 <= r.cashbackAmount
              && (r.cashbackAmount == 0.0 || rs.minCashback <= r.cashbackAmount <= rs.maxCashback)
    ensures IsWholeCents(rs.maxCashback) ==> IsWholeCents(r.cashbackAmount)
    ensures 0.0 <= rs.minCashback <= rs.maxCashback && loss > 0.0 && FirstTier(rs.tiers, loss).Some? ==>
              var t := TruncateToTwoDecimals(RawRebate(loss, rs, r.appliedPercent));
              r.cashbackAmount == if t < rs.minCashback then 0.0 else if t > rs.maxCashback then rs.maxCashback else t
  {
    if loss <= 0.0 then CashbackResult(loss, 0.0, 0.0)
    else
      match FirstTier(rs.tiers, loss)
      case None => CashbackResult(loss, 0.0, 0.0)
      case Some(i) =>
        var tier := rs.tiers[i];
        CashbackResult(loss, Clamp(Rebate(loss, rs, tier), rs), tier.percent)
  }

  /** `calculateCashback(lossAmount, mode, platform)`. */
  function CalculateCashback(loss: real, mode: Mode, platform: Platform): (r: CashbackResult)
    ensures r.lossAmount == loss
    ensures loss <= 0.0 ==> r.cashbackAmount == 0.0 && r.appliedPercent == 0.0
    ensures var rs := SelectRules(mode, platform);
      && 0.0 <= r.cashbackAmount <= rs.maxCashback
      && IsWholeCents(r.cashbackAmount)
      && (r.cashbackAmount == 0.0 || rs.minCashback <= r.cashbackAmount)
    ensures var rs := SelectRules(mode, platform);
      forall i :: 0 <= i < |rs.tiers| && Within(rs.tiers[i], loss) && loss > 0.0 ==>
        r.appliedPercent == rs.tiers[i].percent
    ensures var rs := SelectRules(mode, platform);
      (forall i :: 0 <= i < |rs.tiers| ==> !Within(rs.tiers[i], loss)) ==>
        r.cashbackAmount == 0.0 && r.appliedPercent == 0.0
    ensures r.cashbackAmount <= RawRebate(loss, SelectRules(mode, platform), r.appliedPercent)
    ensures var rs := SelectRules(mode, platform);
      loss > 0.0 && FirstTier(rs.tiers, loss).Some? ==>
        var t := TruncateToTwoDecimals(RawRebate(loss, rs, r.appliedPercent));
        r.cashbackAmount == if t < rs.minCashback then 0.0 else t
  {
    var rs := SelectRules(mode, platform);
    PayoutIsTruncatedRebate(loss, rs);
    PayoutBounds(loss, rs);
    AppliedPercentOfContainingTier(loss, rs);
    PayoutAtMostRawRebate(loss, rs);
    ApplyRules(loss, rs)
  }

  /** Under a well-formed rule set a matched loss is paid its truncated rebate
      whenever that reaches the minimum, and nothing otherwise: the cap never
      lowers it. */
  lemma PayoutIsTruncatedRebate(loss: real, rs: RuleSet)
    requires WellFormedRules(rs)
    ensures loss > 0.0 && FirstTier(rs.tiers, loss).Some? ==>
              var r := ApplyRules(loss, rs);
              var t := TruncateToTwoDecimals(RawRebate(loss, rs, r.appliedPercent));
              r.cashbackAmount == if t < rs.minCashback then 0.0 else t
  {
    if loss > 0.0 && FirstTier(rs.tiers, loss).Some? {
      CapNeverBinds(loss, rs, FirstTier(rs.tiers, loss).value);
    }
  }

  /** Under a well-formed rule set the payout is 0 or lies between the minimum and the cap, in whole cents. */
  lemma PayoutBounds(loss: real, rs: RuleSet)
    requires WellFormedRules(rs)
    ensures var r := ApplyRules(loss, rs);
      && 0.0 <= r.cashbackAmount <= rs.maxCashback
      && IsWholeCents(r.cashbackAmount)
      && (r.cashbackAmount == 0.0 || rs.minCashback <= r.cashbackAmount)
  {
  }

  /** Under a well-formed rule set the applied percent is that of THE tier containing the loss. */
  lemma AppliedPercentOfContainingTier(loss: real, rs: RuleSet)
    requires WellFormedRules(rs)
    ensures var r := ApplyRules(loss, rs);
      && (forall i :: 0 <= i < |rs.tiers| && Within(rs.tiers[i], loss) && loss > 0.0 ==>
            r.appliedPercent == rs.tiers[i].percent)
      && ((forall i :: 0 <= i < |rs.tiers| ==> !Within(rs.tiers[i], loss)) ==>
            r.cashbackAmount == 0.0 && r.appliedPercent == 0.0)
  {
    TierUnique(rs.tiers, loss);
  }

  /** The payout never exceeds the raw rebate `min(loss, baseLimit) × appliedPercent`. */
  lemma PayoutAtMostRawRebate(loss: real, rs: RuleSet)
    requires 0.0 <= rs.minCashback <= rs.maxCashback && 0.0 < rs.baseLimit
    requires forall i :: 0 <= i < |rs.tiers| ==> 0.0 <= rs.tiers[i].percent
    ensures var r := ApplyRules(loss, rs);
      r.cashbackAmount <= RawRebate(loss, rs, r.appliedPercent)
  {
    if loss > 0.0 && FirstTier(rs.tiers, loss).Some? {
      var tier := rs.tiers[FirstTier(rs.tiers, loss).value];
      var raw := RawRebate(loss, rs, tier.percent);
      MulNonNegative(Min(loss, rs.baseLimit), tier.percent);
      var rebate := Rebate(loss, rs, tier);
      assert 0.0 <= rebate <= raw;
      assert Clamp(rebate, rs) <= rebate;
      assert ApplyRules(loss, rs) == CashbackResult(loss, Clamp(rebate, rs), tier.percent);
    }
  }

  lemma MulNonNegative(a: real, b: real)
    requires 0.0 <= a && 0.0 <= b
    ensures 0.0 <= a * b
  {
  }

  /** In a well-formed table every tier ends below the start of every later tier. */
  lemma {:induction false} EndsBeforeLaterStart(ts: seq<Tier>, i: nat, j: nat)
    requires WellFormedTiers(ts)
    requires i < j < |ts|
    ensures ts[i].max.Finite? && ts[i].max.value < ts[j].min
    decreases j - i
  {
    if j > i + 1 {
      EndsBeforeLaterStart(ts, i, j - 1);
    }
    assert ts[j].min == ts[j - 1].max.value + 0.01;
  }

  /** At most one tier of a well-formed table contains a given loss. */
  lemma TierUnique(ts: seq<Tier>, loss: real)
    requires WellFormedTiers(ts)
    ensures forall i, j :: 0 <= i < |ts| && 0 <= j < |ts| && Within(ts[i], loss) && Within(ts[j], loss) ==> i == j
  {
    forall i, j | 0 <= i < |ts| && 0 <= j < |ts| && Within(ts[i], loss) && Within(ts[j], loss)
      ensures i == j
    {
      if i < j {
        EndsBeforeLaterStart(ts, i, j);
      } else if j < i {
        EndsBeforeLaterStart(ts, j, i);
      }
    }
  }

  /** Percentages strictly increase with the tier index. */
  lemma {:induction false} PercentIncreasing(ts: seq<Tier>, i: nat, j: nat)
    requires WellFormedTiers(ts)
    requires i < j < |ts|
    ensures ts[i].percent < ts[j].percent
    decreases j - i
  {
    if j > i + 1 {
      PercentIncreasing(ts, i, j - 1);
    }
    assert ts[j - 1].percent < ts[j].percent;
  }

  /** The tier containing a smaller loss never comes after the tier containing a larger one. */
  lemma TierIndexMonotone(ts: seq<Tier>, a: real, b: real, i: nat, j: nat)
    requires WellFormedTiers(ts)
    requires i < |ts| && j < |ts| && Within(ts[i], a) && Within(ts[j], b)
    requires a <= b
    ensures i <= j
  {
    if j < i {
      EndsBeforeLaterStart(ts, j, i);
    }
  }

  /** No tier starts before the first one, so a loss below `tiers[0].min` matches nothing. */
  lemma BelowFirstTierPaysNothing(loss: real, rs: RuleSet)
    requires WellFormedRules(rs)
    requires loss < rs.tiers[0].min
    ensures ApplyRules(loss, rs) == CashbackResult(loss, 0.0, 0.0)
  {
    forall i | 0 < i < |rs.tiers|
      ensures !Within(rs.tiers[i], loss)
    {
      EndsBeforeLaterStart(rs.tiers, 0, i);
    }
  }

  /** A loss strictly inside the one-cent gap after a tier's maximum matches no tier and pays nothing. */
  lemma GapPaysNothing(loss: real, rs: RuleSet, i: nat)
    requires WellFormedRules(rs)
    requires i + 1 < |rs.tiers|
    requires rs.tiers[i].max.value < loss < rs.tiers[i + 1].min
    ensures ApplyRules(loss, rs) == CashbackResult(loss, 0.0, 0.0)
  {
    forall k | 0 <= k < |rs.tiers|
      ensures !Within(rs.tiers[k], loss)
    {
      if k < i {
        EndsBeforeLaterStart(rs.tiers, k, i);
      } else if k > i + 1 {
        EndsBeforeLaterStart(rs.tiers, i + 1, k);
      }
    }
  }

  /** Two distinct whole-cent amounts are at least a cent apart. */
  lemma CentsApart(x: real, y: real)
    requires IsWholeCents(x) && IsWholeCents(y) && x < y
    ensures x + 0.01 <= y
  {
    assert (x * 100.0).Floor < (y * 100.0).Floor;
  }

  /** One cent below a whole-cent amount is a whole-cent amount. */
  lemma CentBelow(x: real)
    requires IsWholeCents(x)
    ensures IsWholeCents(x - 0.01)
  {
    assert (x - 0.01) * 100.0 == x * 100.0 - 1.0;
    assert ((x - 0.01) * 100.0).Floor == (x * 100.0).Floor - 1;
  }

  /** When tier `i` is the first match, the payout is that tier's clamped rebate. */
  lemma MatchedPayout(loss: real, rs: RuleSet, i: nat)
    requires 0.0 < loss && FirstTier(rs.tiers, loss) == Some(i)
    ensures ApplyRules(loss, rs) == CashbackResult(loss, Clamp(Rebate(loss, rs, rs.tiers[i]), rs), rs.tiers[i].percent)
  {
  }

  /** Every whole-cent loss from the tier's minimum on is contained in that tier or a later one. */
  lemma {:induction false} CentsCoveredFrom(ts: seq<Tier>, loss: real, i: nat)
    requires WellFormedTiers(ts)
    requires i < |ts| && IsWholeCents(loss) && ts[i].min <= loss
    ensures exists k :: i <= k < |ts| && Within(ts[k], loss)
    decreases |ts| - i
  {
    if ts[i].max.Unbounded? || loss <= ts[i].max.value {
      assert Within(ts[i], loss);
    } else {
      var max := ts[i].max.value;
      assert ts[i + 1].min == max + 0.01;
      assert IsWholeCents(ts[i + 1].min);
      CentBelow(ts[i + 1].min);
      CentsApart(max, loss);
      CentsCoveredFrom(ts, loss, i + 1);
    }
  }

  /** Every whole-cent loss at or above the first tier's minimum finds a tier. */
  lemma CentsCovered(ts: seq<Tier>, loss: real)
    requires WellFormedTiers(ts)
    requires IsWholeCents(loss) && ts[0].min <= loss
    ensures FirstTier(ts, loss).Some?
  {
    CentsCoveredFrom(ts, loss, 0);
  }

  /** Multiplying non-negative factors preserves order in each. */
  lemma MulMonotone(a: real, b: real, p: real, q: real)
    requires 0.0 <= a <= b && 0.0 <= p <= q
    ensures a * p <= b * q
  {
    assert a * p <= b * p;
    assert b * p <= b * q;
  }

  /** The clamps preserve order. */
  lemma ClampMonotone(x: real, y: real, rs: RuleSet)
    requires 0.0 <= rs.minCashback <= rs.maxCashback
    requires x <= y
    ensures Clamp(x, rs) <= Clamp(y, rs)
  {
  }

  /** Between two losses that both find a tier, the larger loss never pays less. */
  lemma CashbackMonotone(a: real, b: real, rs: RuleSet)
    requires WellFormedRules(rs)
    requires 0.0 < a <= b
    requires FirstTier(rs.tiers, a).Some? && FirstTier(rs.tiers, b).Some?
    ensures ApplyRules(a, rs).cashbackAmount <= ApplyRules(b, rs).cashbackAmount
  {
    var i := FirstTier(rs.tiers, a).value;
    var j := FirstTier(rs.tiers, b).value;
    TierIndexMonotone(rs.tiers, a, b, i, j);
    if i < j {
      PercentIncreasing(rs.tiers, i, j);
    }
    PayoutMonotoneInTier(a, b, rs, i, j);
  }

  /** The payout grows with the loss and with the percentage of the matched tier. */
  lemma PayoutMonotoneInTier(a: real, b: real, rs: RuleSet, i: nat, j: nat)
    requires 0.0 < a <= b && 0.0 < rs.baseLimit && 0.0 <= rs.minCashback <= rs.maxCashback
    requires FirstTier(rs.tiers, a) == Some(i) && FirstTier(rs.tiers, b) == Some(j)
    requires 0.0 <= rs.tiers[i].percent <= rs.tiers[j].percent
    ensures ApplyRules(a, rs).cashbackAmount <= ApplyRules(b, rs).cashbackAmount
  {
    var p, q := rs.tiers[i].percent, rs.tiers[j].percent;
    MulMonotone(Min(a, rs.baseLimit), Min(b, rs.baseLimit), p, q);
    TruncateMonotone(RawRebate(a, rs, p), RawRebate(b, rs, q));
    ClampMonotone(Rebate(a, rs, rs.tiers[i]), Rebate(b, rs, rs.tiers[j]), rs);
    MatchedPayout(a, rs, i);
    MatchedPayout(b, rs, j);
  }

  /** Between two whole-cent losses from the first tier's minimum on, the larger never pays less. */
  lemma CashbackMonotoneOnCents(a: real, b: real, rs: RuleSet)
    requires WellFormedRules(rs)
    requires rs.tiers[0].min <= a <= b && IsWholeCents(a) && IsWholeCents(b)
    ensures ApplyRules(a, rs).cashbackAmount <= ApplyRules(b, rs).cashbackAmount
  {
    CentsCovered(rs.tiers, a);
    CentsCovered(rs.tiers, b);
    CashbackMonotone(a, b, rs);
  }

  /** The top percentage applied to the base limit equals the cap, so no tier's rebate exceeds it: the max clamp never lowers a value. */
  lemma CapNeverBinds(loss: real, rs: RuleSet, i: nat)
    requires WellFormedRules(rs)
    requires i < |rs.tiers|
    ensures Rebate(loss, rs, rs.tiers[i]) <= rs.maxCashback
    ensures Clamp(Rebate(loss, rs, rs.tiers[i]), rs) ==
              if Rebate(loss, rs, rs.tiers[i]) < rs.minCashback then 0.0 else Rebate(loss, rs, rs.tiers[i])
  {
    var last := |rs.tiers| - 1;
    if i < last {
      PercentIncreasing(rs.tiers, i, last);
    }
    var m := Min(loss, rs.baseLimit);
    if 0.0 <= m {
      MulMonotone(m, rs.baseLimit, rs.tiers[i].percent, rs.tiers[last].percent);
    } else {
      MulNonNegative(-m, rs.tiers[i].percent);
    }
    assert RawRebate(loss, rs, rs.tiers[i].percent) <= rs.maxCashback;
  }

  /** Above the base limit the payout of a tier no longer grows: a loss in the same tier as the base limit pays what the limit pays. */
  lemma AboveBaseLimitPaysAsLimit(loss: real, rs: RuleSet)
    requires WellFormedRules(rs)
    requires rs.baseLimit <= loss
    requires FirstTier(rs.tiers, rs.baseLimit).Some?
    requires Within(rs.tiers[FirstTier(rs.tiers, rs.baseLimit).value], loss)
    ensures ApplyRules(loss, rs).cashbackAmount == ApplyRules(rs.baseLimit, rs).cashbackAmount
    ensures ApplyRules(loss, rs).appliedPercent == ApplyRules(rs.baseLimit, rs).appliedPercent
  {
    var i := FirstTier(rs.tiers, rs.baseLimit).value;
    TierUnique(rs.tiers, loss);
    assert FirstTier(rs.tiers, loss) == Some(i);
    assert RawRebate(loss, rs, rs.tiers[i].percent) == RawRebate(rs.baseLimit, rs, rs.tiers[i].percent);
    MatchedPayout(loss, rs, i);
    MatchedPayout(rs.baseLimit, rs, i);
  }

  /** Once the loss reaches both the base limit and the unbounded top tier, the payout is exactly the cap. */
  lemma TopOfTablePaysCap(loss: real, rs: RuleSet)
    requires WellFormedRules(rs)
    requires rs.baseLimit <= loss && rs.tiers[|rs.tiers| - 1].min <= loss
    ensures ApplyRules(loss, rs).cashbackAmount == rs.maxCashback
    ensures ApplyRules(loss, rs).appliedPercent == rs.tiers[|rs.tiers| - 1].percent
  {
    var last := |rs.tiers| - 1;
    assert Within(rs.tiers[last], loss);
    TierUnique(rs.tiers, loss);
    assert RawRebate(loss, rs, rs.tiers[last].percent) == rs.maxCashback;
    TruncateKeepsCents(rs.maxCashback);
  }

  /** Weekly on 7K: a loss of 100.00 pays 1.00 at 1%. */
  lemma WeeklyHundred()
    ensures CalculateCashback(100.0, Weekly, SevenK) == CashbackResult(100.0, 1.0, 0.01)
  {
    assert FirstTier(WeeklyTiers, 100.0) == Some(0);
  }

  /** Weekly on 7K: a loss of 40.00 matches the 1% tier, but 0.40 is below the 0.50 minimum, so nothing is paid. */
  lemma WeeklyFortyBelowMinimum()
    ensures CalculateCashback(40.0, Weekly, SevenK) == CashbackResult(40.0, 0.0, 0.01)
  {
    assert FirstTier(WeeklyTiers, 40.0) == Some(0);
  }

  /** Weekly on 7K: a loss of 200000.00 is past the 100000 base limit and pays the 5000.00 cap at 5%. */
  lemma WeeklyAboveBaseLimit()
    ensures CalculateCashback(200000.0, Weekly, SevenK) == CashbackResult(200000.0, 5000.0, 0.05)
  {
    TopOfTablePaysCap(200000.0, SelectRules(Weekly, SevenK));
  }

  /** The one-cent gap: weekly 499.99 pays 4.99 while the larger 499.995 finds no tier and pays 0. */
  lemma WeeklyGapBetweenTiers()
    ensures CalculateCashback(499.99, Weekly, SevenK).cashbackAmount == 4.99
    ensures CalculateCashback(499.995, Weekly, SevenK) == CashbackResult(499.995, 0.0, 0.0)
  {
    assert FirstTier(WeeklyTiers, 499.99) == Some(0);
    GapPaysNothing(499.995, SelectRules(Weekly, SevenK), 0);
  }

  /** Vera weekly pays from 0.01: a loss of 40.00 pays 0.40. */
  lemma VeraWeeklyForty()
    ensures CalculateCashback(40.0, Weekly, Vera) == CashbackResult(40.0, 0.4, 0.01)
  {
    assert FirstTier(WeeklyTiers, 40.0) == Some(0);
  }

  /** Vera daily: at 29000.00 the 15% tier applies to the 25000 base limit, paying 3750.00, below the cap. */
  lemma VeraDailyBaseLimitBeforeTopTier()
    ensures CalculateCashback(29000.0, Daily, Vera) == CashbackResult(29000.0, 3750.0, 0.15)
  {
    assert FirstTierFrom(VeraDailyTiers, 29000.0, 5) == Some(5);
    assert FirstTierFrom(VeraDailyTiers, 29000.0, 3) == Some(5);
    assert FirstTier(VeraDailyTiers, 29000.0) == Some(5);
  }

  /** Sports starts at 0.01 where the weekly table starts at 1.00: a loss of 0.50 pays 0.01 in sports and nothing weekly. */
  lemma SportsFirstTierStartsAtOneCent()
    ensures CalculateCashback(0.5, Sports, SevenK) == CashbackResult(0.5, 0.01, 0.02)
    ensures CalculateCashback(0.5, Weekly, SevenK) == CashbackResult(0.5, 0.0, 0.0)
  {
    assert FirstTier(SportsTiers, 0.5) == Some(0);
    BelowFirstTierPaysNothing(0.5, SelectRules(Weekly, SevenK));
  }
}
