/** Promotion pricing: whole-Rupiah charges for impressions priced per thousand, in 64-bit integers. */
module PromotionCpm {
  import opened Common

  type int64 = x: int | -MAX_INT64 - 1 <= x <= MAX_INT64

  /** S(n): the spend after n impressions, over unbounded integers. */
  function Spend(n: nat, cpm: nat): nat {
    n * cpm / 1000
  }

  /** n fits into a division exactly if its multiple fits below the dividend. */
  lemma DivisionIff(n: int, d: int, x: int)
    requires d > 0
    ensures n <= x / d <==> n * d <= x
  {
    var q := x / d;
    assert q * d <= x < q * d + d;
    if n <= q {
      assert n * d <= q * d;
    } else {
      assert (q + 1) * d <= n * d;
    }
  }

  /** The guard against overflow is exact: the product is refused iff an argument is negative or the
      true product exceeds the 64-bit maximum. */
  function Product(n: int64, cpm: int64): (r: Result<int64>)
    ensures r.Ok? <==> n >= 0 && cpm >= 0 && n * cpm <= MAX_INT64
    ensures r.Ok? ==> r.value == n * cpm >= 0
  {
    if n < 0 then Err("impression count must not be negative")
    else if cpm < 0 then Err("cpm must not be negative")
    else if n == 0 || cpm == 0 then Ok(0)
    else
      DivisionIff(n, cpm, MAX_INT64);
      if n > MAX_INT64 / cpm then Err("integer overflow") else Ok(n * cpm)
  }

  /** MAIN: cumulative spend fails iff an argument is negative or the product overflows, and else is the
      floor over unbounded integers. */
  function CumulativeSpend(impressions: int64, cpm: int64): (r: Result<int64>)
    ensures r.Ok? <==> impressions >= 0 && cpm >= 0 && impressions * cpm <= MAX_INT64
    ensures r.Ok? ==> r.value == Spend(impressions, cpm)
  {
    match Product(impressions, cpm)
    case Err(e) => Err(e)
    case Ok(product) => Ok(product / 1000)
  }

  /** The charge for one impression: nothing before the first; else what it adds to the cumulative spend, refused
      if that cannot be computed. */
  function Charge(impressions: int64, cpm: int64): (r: Result<int64>)
    ensures r.Ok? <==> impressions <= 0 || (cpm >= 0 && impressions * cpm <= MAX_INT64)
    ensures r.Ok? ==> r.value == if impressions <= 0 then 0 else Spend(impressions, cpm) - Spend(impressions - 1, cpm)
  {
    if impressions <= 0 then Ok(0) else
    ChargeFits(impressions, cpm);
    match CumulativeSpend(impressions, cpm)
    case Err(e) => Err(e)
    case Ok(sn) =>
      match CumulativeSpend(impressions - 1, cpm)
      case Err(e) => Err(e)
      case Ok(before) => Ok(sn - before)
  }

  /** The earlier spend can be computed whenever the later can, and is no greater. */
  lemma ChargeFits(n: int, cpm: int)
    requires n > 0
    ensures cpm >= 0 ==> 0 <= (n - 1) * cpm <= n * cpm
  {
  }

  /** MAIN: the estimate is refused iff an argument is negative or, unless the CPM is zero, a thousand times the budget
      exceeds the 64-bit maximum; it is none for a CPM of zero. */
  function EstimatedImpressions(budget: int64, cpm: int64): (r: Result<int64>)
    ensures r.Ok? <==> budget >= 0 && cpm >= 0 && (cpm == 0 || 1000 * budget <= MAX_INT64)
    ensures r.Ok? && cpm == 0 ==> r.value == 0
  {
    if budget < 0 then Err("budget must not be negative")
    else if cpm < 0 then Err("cpm must not be negative")
    else if cpm == 0 then Ok(0)
    else if budget > MAX_INT64 / 1000 then Err("integer overflow estimating impressions")
    else
      QuotientFits(budget * 1000, cpm);
      Ok(budget * 1000 / cpm)
  }

  lemma QuotientFits(x: nat, d: int)
    requires d > 0
    ensures 0 <= x / d <= x
  {
    var q := x / d;
    assert q * d <= x;
    assert q <= q * d;
  }

  /** The arguments for which there is an estimate and a price. */
  predicate Estimable(budget: int64, cpm: int64) {
    budget >= 0 && cpm > 0 && 1000 * budget <= 0x7FFF_FFFF_FFFF_FFFF
  }

  // ---------- Charges ----------

  lemma ProductGrows(m: nat, n: nat, cpm: nat)
    requires m <= n
    ensures m * cpm <= n * cpm
  {
  }

  /** If the spend after n impressions can be computed, so can every earlier spend and charge. */
  lemma SuccessIsMonotone(m: nat, n: nat, cpm: int64)
    requires m <= n <= MAX_INT64 && CumulativeSpend(n, cpm).Ok?
    ensures CumulativeSpend(m, cpm).Ok? && Charge(m, cpm).Ok?
    ensures Charge(m, cpm).value == if m == 0 then 0 else Spend(m, cpm) - Spend(m - 1, cpm)
  {
    ProductGrows(m, n, cpm);
    if m > 0 {
      ProductGrows(m - 1, n, cpm);
    }
  }

  /** The charges for impressions start + 1 .. end, added up one by one. */
  function ChargesBetween(start: nat, end: nat, cpm: int64): int
    requires start <= end <= MAX_INT64 && CumulativeSpend(end, cpm).Ok?
    decreases end
  {
    if start == end then 0 else
    SuccessIsMonotone(end - 1, end, cpm);
    SuccessIsMonotone(end, end, cpm);
    ChargesBetween(start, end - 1, cpm) + Charge(end, cpm).value
  }

  /** MAIN: charges never drift. Over any window they add up to the difference of the cumulative
      spends, so the first n of them to S(n) exactly. */
  lemma {:induction false} ChargesAddUp(start: nat, end: nat, cpm: int64)
    requires start <= end <= MAX_INT64 && CumulativeSpend(end, cpm).Ok?
    ensures ChargesBetween(start, end, cpm) == Spend(end, cpm) - Spend(start, cpm)
    ensures start == 0 ==> ChargesBetween(start, end, cpm) == Spend(end, cpm)
    decreases end
  {
    if start != end {
      SuccessIsMonotone(end - 1, end, cpm);
      SuccessIsMonotone(end, end, cpm);
      ChargesAddUp(start, end - 1, cpm);
    }
  }

  /** A sum of two parts divided by 1000, against the parts divided. */
  lemma FloorOfSum(x: nat, y: nat)
    ensures x / 1000 + y / 1000 <= (x + y) / 1000 <= x / 1000 + (y + 999) / 1000
  {
  }

  /** A window of w impressions costs the floor or the ceiling of w * cpm / 1000. */
  lemma WindowCost(start: nat, w: nat, cpm: int64)
    requires start + w <= MAX_INT64 && CumulativeSpend(start + w, cpm).Ok?
    ensures w * cpm / 1000 <= ChargesBetween(start, start + w, cpm) <= (w * cpm + 999) / 1000
  {
    ChargesAddUp(start, start + w, cpm);
    assert (start + w) * cpm == start * cpm + w * cpm;
    FloorOfSum(start * cpm, w * cpm);
  }

  /** MAIN: any 1000 consecutive impressions cost exactly the CPM. */
  lemma ThousandCostsCpm(start: nat, cpm: int64)
    requires start + 1000 <= MAX_INT64 && CumulativeSpend(start + 1000, cpm).Ok?
    ensures ChargesBetween(start, start + 1000, cpm) == cpm
  {
    WindowCost(start, 1000, cpm);
  }

  /** MAIN: two windows of equal length differ by at most one Rupiah. */
  lemma WindowsAreBalanced(a: nat, b: nat, w: nat, cpm: int64)
    requires a + w <= MAX_INT64 && CumulativeSpend(a + w, cpm).Ok?
    requires b + w <= MAX_INT64 && CumulativeSpend(b + w, cpm).Ok?
    ensures -1 <= ChargesBetween(a, a + w, cpm) - ChargesBetween(b, b + w, cpm) <= 1
  {
    WindowCost(a, w, cpm);
    WindowCost(b, w, cpm);
    assert (w * cpm + 999) / 1000 <= w * cpm / 1000 + 1;
  }

  /** MAIN: every charge is the floor or the ceiling of the price of one impression. */
  lemma ChargeIsFloorOrCeiling(n: int64, cpm: int64)
    requires n > 0 && CumulativeSpend(n, cpm).Ok?
    ensures Charge(n, cpm).Ok?
    ensures Charge(n, cpm).value == cpm / 1000 || Charge(n, cpm).value == (cpm + 999) / 1000
  {
    SuccessIsMonotone(n, n, cpm);
    assert n * cpm == (n - 1) * cpm + cpm;
    FloorOfSum((n - 1) * cpm, cpm);
  }

  // ---------- The estimate ----------

  /** MAIN: the estimate is the largest n whose full price n * cpm / 1000, not its floor, is within
      budget; its spend can be computed and is within budget. */
  lemma EstimateIsLargestFullPrice(budget: int64, cpm: int64, n: nat)
    requires Estimable(budget, cpm)
    ensures EstimatedImpressions(budget, cpm).Ok?
    ensures var est := EstimatedImpressions(budget, cpm).value;
      && est >= 0
      && (n <= est <==> n * cpm <= 1000 * budget)
      && CumulativeSpend(est, cpm).Ok? && CumulativeSpend(est, cpm).value <= budget
  {
    var est := EstimatedImpressions(budget, cpm).value;
    assert est == budget * 1000 / cpm;
    QuotientFits(budget * 1000, cpm);
    DivisionIff(n, cpm, budget * 1000);
    DivisionIff(est, cpm, budget * 1000);
    ThousandthFits(est * cpm, budget);
  }

  lemma ThousandthFits(x: nat, b: nat)
    requires x <= b * 1000
    ensures x / 1000 <= b
  {
  }

  /** The largest n with S(n) <= budget. */
  function TrueMaximum(budget: nat, cpm: nat): nat
    requires cpm > 0
  {
    (1000 * budget + 999) / cpm
  }

  lemma TrueMaximumIsLargest(budget: nat, cpm: nat, n: nat)
    requires cpm > 0
    ensures Spend(n, cpm) <= budget <==> n <= TrueMaximum(budget, cpm)
  {
    DivisionIff(n, cpm, 1000 * budget + 999);
    DivisionIff(budget + 1, 1000, n * cpm);
  }

  lemma QuotientShift(x: nat, y: nat, d: nat)
    requires d > 0
    ensures x / d <= (x + y) / d
    ensures (x + y) / d == x / d <==> x % d + y < d
  {
    var q, r := x / d, x % d;
    assert x == q * d + r;
    DivisionIff(q, d, x + y);
    DivisionIff(q + 1, d, x + y);
    assert (q + 1) * d == q * d + d;
  }

  lemma QuotientOfSum(x: nat, y: nat, d: nat)
    requires d > 0
    ensures (x + y) / d <= x / d + (y + d - 1) / d
  {
    var q, c := x / d, (y + d - 1) / d;
    assert x < q * d + d;
    assert y + d - 1 < c * d + d;
    DivisionIff(q + c + 1, d, x + y);
    assert (q + c + 1) * d == q * d + c * d + d;
  }

  /** MAIN: the estimate falls short of the largest n with S(n) <= budget by at most ceil(999 / cpm),
      and is that n if and only if (1000 * budget) mod cpm + 999 < cpm. */
  lemma EstimateGap(budget: int64, cpm: int64)
    requires Estimable(budget, cpm)
    ensures EstimatedImpressions(budget, cpm).Ok?
    ensures var est := EstimatedImpressions(budget, cpm).value;
      && est <= TrueMaximum(budget, cpm) <= est + (999 + cpm - 1) / cpm
      && (est == TrueMaximum(budget, cpm) <==> (1000 * budget) % cpm + 999 < cpm)
  {
    QuotientShift(1000 * budget, 999, cpm);
    QuotientOfSum(1000 * budget, 999, cpm);
  }

  /** MAIN: from a CPM of 1000 on the estimate is at most one impression short, and for a CPM that is a
      multiple of 1000 it is exact. */
  lemma EstimateGapSmall(budget: int64, cpm: int64)
    requires Estimable(budget, cpm)
    ensures EstimatedImpressions(budget, cpm).Ok?
    ensures cpm >= 1000 ==> TrueMaximum(budget, cpm) <= EstimatedImpressions(budget, cpm).value + 1
    ensures cpm % 1000 == 0 ==> TrueMaximum(budget, cpm) == EstimatedImpressions(budget, cpm).value
  {
    EstimateGap(budget, cpm);
    if cpm >= 1000 {
      assert (999 + cpm - 1) / cpm <= 1 by {
        DivisionIff(2, cpm, 999 + cpm - 1);
      }
    }
    if cpm % 1000 == 0 {
      MultipleRemainder(budget, cpm / 1000);
    }
  }

  lemma MultipleRemainder(b: nat, c: nat)
    requires c > 0
    ensures (1000 * b) % (1000 * c) + 999 < 1000 * c
  {
    var q, r := (1000 * b) / (1000 * c), (1000 * b) % (1000 * c);
    assert 1000 * b == q * (1000 * c) + r;
    assert q * (1000 * c) == 1000 * (q * c);
    assert r == 1000 * (b - q * c);
  }

  /** The documented claim, S(est) <= budget < S(est + 1), fails: at CPM 7500 a budget of 7 pays for one
      impression, and the estimate is none. */
  lemma EstimateIsNotLargestSpend()
    ensures EstimatedImpressions(7, 7500) == Ok(0)
    ensures CumulativeSpend(1, 7500) == Ok(7)
  {
  }

  /** MAIN: the documented claim holds exactly under the remainder condition. */
  lemma DocumentedEstimateIff(budget: int64, cpm: int64)
    requires Estimable(budget, cpm)
    ensures EstimatedImpressions(budget, cpm).Ok?
    ensures var est := EstimatedImpressions(budget, cpm).value;
      est >= 0 && (Spend(est, cpm) <= budget < Spend(est + 1, cpm) <==> (1000 * budget) % cpm + 999 < cpm)
  {
    var est := EstimatedImpressions(budget, cpm).value;
    EstimateIsLargestFullPrice(budget, cpm, 0);
    EstimateGap(budget, cpm);
    TrueMaximumIsLargest(budget, cpm, est);
    TrueMaximumIsLargest(budget, cpm, est + 1);
  }

  // ---------- The budget over a run ----------

  /** MAIN: while at most est impressions are charged, every charge can be computed, the budget left is
      never negative, and charges plus the remainder released at the end are the budget. */
  lemma {:induction false} BudgetIsConserved(budget: int64, cpm: int64, n: nat)
    requires Estimable(budget, cpm) && n <= EstimatedImpressions(budget, cpm).value
    ensures CumulativeSpend(n, cpm).Ok?
    ensures forall m: nat :: m <= n ==> CumulativeSpend(m, cpm).Ok? && 0 <= budget - ChargesBetween(0, m, cpm)
    ensures ChargesBetween(0, n, cpm) + (budget - CumulativeSpend(n, cpm).value) == budget
  {
    var est := EstimatedImpressions(budget, cpm).value;
    EstimateIsLargestFullPrice(budget, cpm, n);
    SuccessIsMonotone(n, est, cpm);
    forall m: nat | m <= n
      ensures CumulativeSpend(m, cpm).Ok? && 0 <= budget - ChargesBetween(0, m, cpm)
    {
      SuccessIsMonotone(m, est, cpm);
      EstimateIsLargestFullPrice(budget, cpm, m);
      ChargesAddUp(0, m, cpm);
      DivisionIff(budget + 1, 1000, m * cpm);
    }
    ChargesAddUp(0, n, cpm);
  }
}
