/**
 The insurance payout arithmetic (oracle/src/claims/payout-calculator.ts): exact integers for
 amounts, reals for percentages and confidences, truncating integer division.
 */
module PayoutCalculator {
  import opened Arithmetic

  const SCALE: int := 10_000_000

  datatype Config = Config(deductiblePercent: real, minOracleConfidence: real, confidenceDiscountRate: real)

  datatype Payout = Payout(grossAmount: int, cappedAmount: int, deductibleAmount: int, netPayoutAmount: int,
                           usdValue: int, confidenceDiscount: real)

  /** Math.round */
  function Round(x: real): int { (x + 0.5).Floor }

  function Deductible(cfg: Config, capped: int): int {
    if cfg.deductiblePercent <= 0.0 then 0
    else TruncDiv(capped * Round(cfg.deductiblePercent * 1000.0), 100_000)
  }

  function ConfidenceDiscount(cfg: Config, confidence: real): real {
    if confidence >= cfg.minOracleConfidence then 0.0
    else Penalty(cfg.minOracleConfidence - confidence, cfg.confidenceDiscountRate)
  }

  function Penalty(shortfall: real, rate: real): (share: real)
    ensures 0.0 <= share <= 0.5
  {
    Clamp(shortfall * rate / 100.0)
  }

  function Clamp(discount: real): (share: real)
    ensures 0.0 <= share <= 0.5
  {
    if discount < 0.0 then 0.0 else if discount > 0.5 then 0.5 else discount
  }

  function AfterDeductible(cfg: Config, capped: int): int {
    var d := Deductible(cfg, capped);
    if capped > d then capped - d else 0
  }

  /** The share paid out, in millionths. */
  function DiscountFactor(cfg: Config, confidence: real): int {
    Round((1.0 - ConfidenceDiscount(cfg, confidence)) * 1_000_000.0)
  }

  function Capped(claimed: int, limit: int): int { if claimed > limit then limit else claimed }

  function Calculate(cfg: Config, claimed: int, limit: int, confidence: real, price: int): Payout {
    var capped := Capped(claimed, limit);
    var net := TruncDiv(AfterDeductible(cfg, capped) * DiscountFactor(cfg, confidence), 1_000_000);
    Payout(claimed, capped, Deductible(cfg, capped), net, TruncDiv(net * price, SCALE),
           ConfidenceDiscount(cfg, confidence))
  }

  // ---------------------------------------------------------------------------
  // Arithmetic
  // ---------------------------------------------------------------------------

  lemma DivBounds(a: int, b: int)
    requires b > 0
    ensures b * (a / b) <= a < b * (a / b) + b
  {
  }

  lemma DivMonotone(a: int, a': int, b: int)
    requires b > 0 && a <= a'
    ensures a / b <= a' / b
  {
    DivBounds(a, b);
    DivBounds(a', b);
    if a / b > a' / b {
      MulMonotone(a' / b + 1, a / b, b);
    }
  }

  lemma MulMonotone(x: int, y: int, k: int)
    requires x <= y && k >= 0
    ensures k * x <= k * y && x * k <= y * k
  {
  }

  /** Taking a share k / b with 0 <= k <= b away grows with the amount and stays within it. */
  lemma RemainderMonotone(x: int, y: int, k: int, b: int)
    requires b > 0 && 0 <= k <= b && 0 <= x <= y
    ensures 0 <= (x * k) / b <= x
    ensures x - (x * k) / b <= y - (y * k) / b
  {
    var d := y - x;
    MulMonotone(0, k, x);
    MulMonotone(k, b, x);
    DivMonotone(0, x * k, b);
    DivMonotone(x * k, 0 + x * b, b);
    DivShift(0, x, b);
    MulMonotone(k, b, d);
    Distribute(x, d, k);
    DivMonotone(y * k, x * k + d * b, b);
    DivShift(x * k, d, b);
  }

  lemma Distribute(x: int, y: int, k: int)
    ensures (x + y) * k == x * k + y * k && k * (x + y) == k * x + k * y
  {
  }

  lemma DivShift(a: int, d: int, b: int)
    requires b > 0
    ensures (a + d * b) / b == a / b + d
  {
    DivBounds(a, b);
    DivBounds(a + d * b, b);
    var p, q := a / b, (a + d * b) / b;
    Distribute(p, d, b);
    Distribute(p + d, 1, b);
    Distribute(q, 1, b);
    CancelLess(q, p + d + 1, b);
    CancelLess(p + d, q + 1, b);
  }

  lemma CancelLess(x: int, y: int, k: int)
    requires k > 0 && k * x < k * y
    ensures x < y
  {
    if x >= y { MulMonotone(y, x, k); }
  }

  lemma RoundMonotone(x: real, y: real)
    requires x <= y
    ensures Round(x) <= Round(y)
  {
  }

  ghost predicate Sane(cfg: Config) {
    0.0 <= cfg.deductiblePercent <= 100.0 && cfg.confidenceDiscountRate >= 0.0
  }

  lemma DeductibleShare(cfg: Config) returns (k: int)
    requires Sane(cfg)
    ensures 0 <= k <= 100_000
    ensures forall c | c >= 0 :: Deductible(cfg, c) == (c * k) / 100_000
  {
    if cfg.deductiblePercent <= 0.0 {
      k := 0;
    } else {
      k := Round(cfg.deductiblePercent * 1000.0);
      RoundMonotone(0.0, cfg.deductiblePercent * 1000.0);
      RoundMonotone(cfg.deductiblePercent * 1000.0, 100_000.0);
      forall c | c >= 0
        ensures Deductible(cfg, c) == (c * k) / 100_000
      {
        MulMonotone(0, k, c);
      }
    }
  }

  lemma RealMul(x: real, y: real, k: real)
    requires x <= y && k >= 0.0
    ensures x * k <= y * k
  {
  }

  lemma ClampMonotone(x: real, y: real)
    requires x <= y
    ensures 0.0 <= Clamp(x / 100.0) <= Clamp(y / 100.0) <= 0.5
  {
  }

  lemma PenaltyMonotone(x: real, y: real, rate: real)
    requires x <= y && rate >= 0.0
    ensures 0.0 <= Penalty(x, rate) <= Penalty(y, rate) <= 0.5
  {
    var a, b := x * rate, y * rate;
    assert a <= b by { RealMul(x, y, rate); }
    ClampMonotone(a, b);
  }

  lemma DiscountIsShare(cfg: Config, confidence: real)
    ensures 0.0 <= ConfidenceDiscount(cfg, confidence) <= 0.5
  {
  }

  lemma DiscountFalls(cfg: Config, low: real, high: real)
    requires Sane(cfg) && low <= high < cfg.minOracleConfidence
    ensures ConfidenceDiscount(cfg, high) <= ConfidenceDiscount(cfg, low)
  {
    var x, y, rate := cfg.minOracleConfidence - high, cfg.minOracleConfidence - low, cfg.confidenceDiscountRate;
    assert ConfidenceDiscount(cfg, high) == Penalty(x, rate);
    assert ConfidenceDiscount(cfg, low) == Penalty(y, rate);
    PenaltyMonotone(x, y, rate);
  }

  lemma DiscountMonotone(cfg: Config, low: real, high: real)
    requires Sane(cfg) && low <= high
    ensures 0.0 <= ConfidenceDiscount(cfg, high) <= ConfidenceDiscount(cfg, low) <= 0.5
    ensures 500_000 <= DiscountFactor(cfg, low) <= DiscountFactor(cfg, high) <= 1_000_000
  {
    var dl, dh := ConfidenceDiscount(cfg, low), ConfidenceDiscount(cfg, high);
    DiscountIsShare(cfg, low);
    DiscountIsShare(cfg, high);
    if high < cfg.minOracleConfidence { DiscountFalls(cfg, low, high); }
    FactorMonotone(dl, dh);
  }

  lemma FactorMonotone(dl: real, dh: real)
    requires 0.0 <= dh <= dl <= 0.5
    ensures 500_000 <= Round((1.0 - dl) * 1_000_000.0) <= Round((1.0 - dh) * 1_000_000.0) <= 1_000_000
  {
    RoundMonotone(500_000.0, (1.0 - dl) * 1_000_000.0);
    RoundMonotone((1.0 - dl) * 1_000_000.0, (1.0 - dh) * 1_000_000.0);
    RoundMonotone((1.0 - dh) * 1_000_000.0, 1_000_000.0);
  }

  // ---------------------------------------------------------------------------
  // What a payout satisfies
  // ---------------------------------------------------------------------------

  /**
   For non-negative amounts, a deductible between 0 and 100 percent and a non-negative discount
   rate, 0 <= net <= capped <= coverage limit, and the discount takes at most half of what is left
   after the deductible.
   */
  lemma PayoutWithinBounds(cfg: Config, claimed: int, limit: int, confidence: real, price: int)
    requires Sane(cfg) && claimed >= 0 && limit >= 0
    ensures var p := Calculate(cfg, claimed, limit, confidence, price);
      && 0 <= p.netPayoutAmount <= p.cappedAmount <= limit && p.cappedAmount <= claimed
      && p.netPayoutAmount + p.deductibleAmount <= p.cappedAmount
      && p.netPayoutAmount >= AfterDeductible(cfg, p.cappedAmount) / 2
  {
    var k := DeductibleShare(cfg);
    var capped := Capped(claimed, limit);
    RemainderMonotone(0, capped, k, 100_000);
    RemainderMonotone(capped, capped, k, 100_000);
    var a, f := AfterDeductible(cfg, capped), DiscountFactor(cfg, confidence);
    DiscountMonotone(cfg, confidence, confidence);
    MulMonotone(0, f, a);
    MulMonotone(500_000, f, a);
    MulMonotone(f, 1_000_000, a);
    DivMonotone(a * 500_000, a * f, 1_000_000);
    DivMonotone(a * f, a * 1_000_000, 1_000_000);
    assert a * 500_000 / 1_000_000 == a / 2;
  }

  /** The payout never falls when the claimed amount, the coverage limit or the oracle's confidence rises. */
  lemma PayoutMonotone(cfg: Config, claimed: int, limit: int, confidence: real,
                       claimed': int, limit': int, confidence': real, price: int)
    requires Sane(cfg) && 0 <= claimed <= claimed' && 0 <= limit <= limit' && confidence <= confidence'
    ensures Calculate(cfg, claimed, limit, confidence, price).netPayoutAmount
         <= Calculate(cfg, claimed', limit', confidence', price).netPayoutAmount
  {
    var k := DeductibleShare(cfg);
    var c, c' := Capped(claimed, limit), Capped(claimed', limit');
    RemainderMonotone(c, c', k, 100_000);
    RemainderMonotone(c', c', k, 100_000);
    var a, a' := AfterDeductible(cfg, c), AfterDeductible(cfg, c');
    var f, f' := DiscountFactor(cfg, confidence), DiscountFactor(cfg, confidence');
    DiscountMonotone(cfg, confidence, confidence');
    MulMonotone(0, f, a);
    MulMonotone(a, a', f);
    MulMonotone(f, f', a');
    DivMonotone(a * f, a' * f', 1_000_000);
  }

  /** `k` is the whole number nearest to `x`, the greater one of two. */
  predicate Nearest(k: int, x: real) {
    k as real - 0.5 <= x < k as real + 0.5
  }

  /** `q` is a / b without its fraction. */
  predicate Quotient(q: int, a: int, b: int) {
    b * q <= a < b * q + b
  }

  lemma TruncDivIsQuotient(a: int, b: int)
    requires a >= 0 && b > 0
    ensures Quotient(TruncDiv(a, b), a, b)
  {
    DivBounds(a, b);
  }

  /**
   What a payout is made of.  The capped amount is the lesser of claim and limit; the deductible is the
   configured percentage of it, in thousandths of a percent; the discount is the configured rate for
   every point of confidence that is missing, at most one half; the net amount is the rest in millionths
   of what the deductible leaves; and its value is that amount at a price with seven decimals.  All
   divisions drop their fraction.
   */
  lemma PayoutExplained(cfg: Config, claimed: int, limit: int, confidence: real, price: int)
    returns (share: int, factor: int)
    requires Sane(cfg) && claimed >= 0 && limit >= 0 && price >= 0
    ensures var p := Calculate(cfg, claimed, limit, confidence, price);
      && p.grossAmount == claimed
      && p.cappedAmount <= claimed && p.cappedAmount <= limit && (p.cappedAmount == claimed || p.cappedAmount == limit)
      && Nearest(share, cfg.deductiblePercent * 1000.0)
      && Quotient(p.deductibleAmount, p.cappedAmount * share, 100_000)
      && (confidence >= cfg.minOracleConfidence ==> p.confidenceDiscount == 0.0)
      && (confidence < cfg.minOracleConfidence ==>
            var d := (cfg.minOracleConfidence - confidence) * cfg.confidenceDiscountRate / 100.0;
            p.confidenceDiscount == if d > 0.5 then 0.5 else d)
      && Nearest(factor, (1.0 - p.confidenceDiscount) * 1_000_000.0)
      && Quotient(p.netPayoutAmount, (p.cappedAmount - p.deductibleAmount) * factor, 1_000_000)
      && Quotient(p.usdValue, p.netPayoutAmount * price, 10_000_000)
  {
    share, factor := Round(cfg.deductiblePercent * 1000.0), DiscountFactor(cfg, confidence);
    var p := Calculate(cfg, claimed, limit, confidence, price);
    PayoutWithinBounds(cfg, claimed, limit, confidence, price);
    DeductibleExplained(cfg, p.cappedAmount);
    if confidence < cfg.minOracleConfidence { DiscountExplained(cfg, confidence); }
    DiscountMonotone(cfg, confidence, confidence);
    assert AfterDeductible(cfg, p.cappedAmount) == p.cappedAmount - p.deductibleAmount;
    MulMonotone(0, factor, p.cappedAmount - p.deductibleAmount);
    TruncDivIsQuotient((p.cappedAmount - p.deductibleAmount) * factor, 1_000_000);
    MulMonotone(0, price, p.netPayoutAmount);
    TruncDivIsQuotient(p.netPayoutAmount * price, 10_000_000);
  }

  lemma DeductibleExplained(cfg: Config, capped: int)
    requires Sane(cfg) && capped >= 0
    ensures var share := Round(cfg.deductiblePercent * 1000.0);
      Nearest(share, cfg.deductiblePercent * 1000.0) && Quotient(Deductible(cfg, capped), capped * share, 100_000)
  {
    var share := Round(cfg.deductiblePercent * 1000.0);
    RoundMonotone(0.0, cfg.deductiblePercent * 1000.0);
    MulMonotone(0, share, capped);
    TruncDivIsQuotient(capped * share, 100_000);
  }

  lemma DiscountExplained(cfg: Config, confidence: real)
    requires Sane(cfg) && confidence < cfg.minOracleConfidence
    ensures var d := (cfg.minOracleConfidence - confidence) * cfg.confidenceDiscountRate / 100.0;
      ConfidenceDiscount(cfg, confidence) == if d > 0.5 then 0.5 else d
  {
    RealMul(0.0, cfg.minOracleConfidence - confidence, cfg.confidenceDiscountRate);
  }
}
