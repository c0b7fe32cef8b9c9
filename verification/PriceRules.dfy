/** Reference-price enrichment and the price-drop rule.

Decimal arithmetic rounds every result to the context precision. The rounding is the
parameter `rnd`; what is proved for a `Context` holds in any context, what is proved for
`Default()` in the one the program uses. */
module PriceRules {
  import opened Domain
  import opened Sequences
  import opened DecimalContext
  import opened ObservationLog
  import AmountText

  datatype EnrichError = ForeignHistory | InvalidPercentage

  function DiscountPercentage(rnd: Context, reference: real, current: real): real {
    if reference == 0.0 || current >= reference then 0.0
    else rnd(rnd(rnd(reference - current) * 100.0) / reference)
  }

  /** `max` over the prices in one currency: the first of the largest. */
  function FirstMaximumPrice(history: seq<Snapshot>, currency: Currency): Option<Money> {
    if history == [] then None
    else
      var best := FirstMaximumPrice(history[..|history| - 1], currency);
      var price := history[|history| - 1].product.currentPrice;
      if price.currency == currency && (best.None? || Value(price.amount) > Value(best.value.amount)) then Some(price)
      else best
  }

  function ReferencePrice(current: Product, history: seq<Snapshot>): Option<Money> {
    if current.originalPrice.Some? then current.originalPrice
    else FirstMaximumPrice(history, current.currentPrice.currency)
  }

  function WithReference(rnd: Context, current: Product, reference: Option<Money>): Result<Product, EnrichError> {
    if reference.None? then Ok(current)
    else
      var discount := DiscountPercentage(rnd, Value(reference.value.amount), Value(current.currentPrice.amount));
      if 0.0 <= discount <= 100.0 then Ok(current.(originalPrice := reference, discount := discount))
      else Err(InvalidPercentage)
  }

  function Enrich(rnd: Context, current: Product, history: seq<Snapshot>): Result<Product, EnrichError> {
    if exists s :: s in history && s.product.id != current.id then Err(ForeignHistory)
    else WithReference(rnd, current, ReferencePrice(current, history))
  }

  // ---------- The price-drop rule ----------

  datatype FixedAmount = NoFixed | FixedMoney(money: Money) | FixedDecimal(amount: Decimal)

  datatype Rule = Rule(
    enabled: bool,
    ruleType: RuleType,
    availableOnly: bool,
    fixed: FixedAmount,
    percentage: Option<real>)

  datatype Reason =
    | Disabled
    | Unavailable
    | NoPrevious
    | CurrencyMismatch
    | NoDecrease
    | BelowFixed
    | BelowPercentage
    | Decreased
    | WasAvailable
    | StillUnavailable
    | BackAgain

  datatype Evaluation = Evaluation(matched: bool, reason: Reason, timestamp: Timestamp)

  datatype RuleError = FixedCurrencyMismatch

  function No(reason: Reason, timestamp: Timestamp): Result<Evaluation, RuleError> {
    Ok(Evaluation(false, reason, timestamp))
  }

  function EvaluatePriceDrop(
    rnd: Context, rule: Rule, previous: Option<Product>, current: Product, timestamp: Timestamp)
    : Result<Evaluation, RuleError>
  {
    if rule.availableOnly && !current.available then No(Unavailable, timestamp)
    else if current.originalPrice.None? && previous.None? then No(NoPrevious, timestamp)
    else
      var reference := if current.originalPrice.Some? then current.originalPrice.value else previous.value.currentPrice;
      if reference.currency != current.currentPrice.currency then No(CurrencyMismatch, timestamp)
      else
        var drop := rnd(Value(reference.amount) - Value(current.currentPrice.amount));
        if drop <= 0.0 then No(NoDecrease, timestamp)
        else if rule.fixed.FixedMoney? && rule.fixed.money.currency != current.currentPrice.currency then
          Err(FixedCurrencyMismatch)
        else if rule.fixed.FixedMoney? && drop < Value(rule.fixed.money.amount) then No(BelowFixed, timestamp)
        else if rule.fixed.FixedDecimal? && drop < Value(rule.fixed.amount) then No(BelowFixed, timestamp)
        else if rule.percentage.Some?
          && rnd(rnd(drop * 100.0) / Value(reference.amount)) < rule.percentage.value then
          No(BelowPercentage, timestamp)
        else Ok(Evaluation(true, Decreased, timestamp))
  }

  function EvaluateBackInStock(previous: Option<Product>, current: Product, timestamp: Timestamp)
    : Result<Evaluation, RuleError>
  {
    if previous.None? then No(NoPrevious, timestamp)
    else if previous.value.available then No(WasAvailable, timestamp)
    else if !current.available then No(StillUnavailable, timestamp)
    else Ok(Evaluation(true, BackAgain, timestamp))
  }

  function EvaluateRule(
    rnd: Context, rule: Rule, previous: Option<Product>, current: Product, timestamp: Timestamp)
    : Result<Evaluation, RuleError>
  {
    if !rule.enabled then No(Disabled, timestamp)
    else match rule.ruleType
      case PriceDrop => EvaluatePriceDrop(rnd, rule, previous, current, timestamp)
      case BackInStock => EvaluateBackInStock(previous, current, timestamp)
  }

  /** The digest's qualification test. */
  predicate Qualifies(product: Product, minimum: real) {
    product.available && product.originalPrice.Some? && product.discount >= minimum
  }

  // ---------- What the discount means ----------

  lemma ScaleKeepsOrder(x: real, y: real, c: real)
    requires c > 0.0
    ensures x <= y <==> x * c <= y * c
  {
    if x <= y {
      assert (y - x) * c >= 0.0;
    } else {
      assert (x - y) * c > 0.0;
    }
  }

  lemma DividePreservesOrder(a: real, b: real, c: real)
    requires a <= b && c > 0.0
    ensures a / c <= b / c
  {
    assert a / c * c == a && b / c * c == b;
    ScaleKeepsOrder(a / c, b / c, c);
  }

  /** In every context the discount is non-negative and never grows when the price rises. */
  lemma DiscountFallsAsPriceRises(rnd: Context, reference: real, lower: real, higher: real)
    requires reference >= 0.0 && lower <= higher
    ensures DiscountPercentage(rnd, reference, lower) >= DiscountPercentage(rnd, reference, higher) >= 0.0
  {
    if reference != 0.0 && lower < reference {
      var a := rnd(rnd(reference - lower) * 100.0);
      DividePreservesOrder(0.0, a, reference);
      assert rnd(0.0) <= rnd(reference - lower);
      assert rnd(0.0) <= a;
      assert rnd(0.0 / reference) <= rnd(a / reference);
      if higher < reference {
        var b := rnd(rnd(reference - higher) * 100.0);
        assert rnd(reference - higher) <= rnd(reference - lower);
        assert b <= a;
        DividePreservesOrder(b, a, reference);
        DividePreservesOrder(0.0, b, reference);
        assert rnd(0.0) <= rnd(reference - higher);
        assert rnd(0.0) <= b;
        assert rnd(0.0 / reference) <= rnd(b / reference);
      }
    }
  }

  lemma QuotientNearHundred(whole: real, reference: real, factor: real)
    requires reference > 0.0 && whole <= reference * factor
    ensures whole * 100.0 / reference <= 100.0 * factor
  {
    var q := whole * 100.0 / reference;
    assert q * reference == whole * 100.0;
    ScaleKeepsOrder(q, 100.0 * factor, reference);
    assert 100.0 * factor * reference == reference * factor * 100.0;
  }

  lemma WholeReduction(reference: real)
    requires reference > 0.0
    ensures DiscountPercentage(Default(), reference, 0.0) == RoundHalfEven(RoundHalfEven(reference) * 100.0 / reference)
  {
    RoundingScalesByHundred(RoundHalfEven(reference));
    RoundingIsIdempotent(reference);
    assert reference - 0.0 == reference;
  }

  lemma WholeReductionIsAtMostHundred(reference: real)
    requires reference > 0.0
    ensures DiscountPercentage(Default(), reference, 0.0) <= 100.0
  {
    var whole := RoundHalfEven(reference);
    WholeReduction(reference);
    RoundsUpByHalfUnit(reference);
    QuotientNearHundred(whole, reference, ONE_AND_HALF_UNIT);
    RoundHalfEvenKeepsOrder(whole * 100.0 / reference, 100.0 * ONE_AND_HALF_UNIT);
    HundredAbsorbsHalfUnit();
  }

  /** The discount is a percentage for every reference, of any number of digits. */
  lemma DiscountIsPercentage(reference: real, current: real)
    requires reference >= 0.0 && current >= 0.0
    ensures 0.0 <= DiscountPercentage(Default(), reference, current) <= 100.0
  {
    DiscountFallsAsPriceRises(Default(), reference, 0.0, current);
    if reference > 0.0 {
      WholeReductionIsAtMostHundred(reference);
    }
  }

  /** Enrichment raises only for a history that is not the product's own. */
  lemma EnrichmentRaisesOnlyForForeignHistory(current: Product, history: seq<Snapshot>)
    ensures Enrich(Default(), current, history).Ok? <==> forall s :: s in history ==> s.product.id == current.id
  {
    var reference := ReferencePrice(current, history);
    if reference.Some? {
      DiscountIsPercentage(Value(reference.value.amount), Value(current.currentPrice.amount));
    }
  }

  /** Of the prices in the currency, history[i] carries one that none before it reaches and none after it
  exceeds. */
  ghost predicate IsEarliestHighest(history: seq<Snapshot>, currency: Currency, i: nat) {
    && i < |history| && history[i].product.currentPrice.currency == currency
    && (forall k :: 0 <= k < i && history[k].product.currentPrice.currency == currency ==>
          Value(history[k].product.currentPrice.amount) < Value(history[i].product.currentPrice.amount))
    && (forall k :: i < k < |history| && history[k].product.currentPrice.currency == currency ==>
          Value(history[k].product.currentPrice.amount) <= Value(history[i].product.currentPrice.amount))
  }

  lemma EarliestHighestStays(init: seq<Snapshot>, last: Snapshot, currency: Currency, i: nat)
    requires IsEarliestHighest(init, currency, i)
    requires last.product.currentPrice.currency == currency ==>
               Value(last.product.currentPrice.amount) <= Value(init[i].product.currentPrice.amount)
    ensures IsEarliestHighest(init + [last], currency, i)
  {
    var history := init + [last];
    assert forall k :: 0 <= k < |init| ==> history[k] == init[k];
  }

  lemma LastIsHighest(init: seq<Snapshot>, last: Snapshot, currency: Currency)
    requires last.product.currentPrice.currency == currency
    requires forall k :: 0 <= k < |init| && init[k].product.currentPrice.currency == currency ==>
               Value(init[k].product.currentPrice.amount) < Value(last.product.currentPrice.amount)
    ensures IsEarliestHighest(init + [last], currency, |init|)
  {
    var history := init + [last];
    assert forall k :: 0 <= k < |init| ==> history[k] == init[k];
  }

  lemma HighestBounds(init: seq<Snapshot>, currency: Currency, i: nat, bound: real)
    requires IsEarliestHighest(init, currency, i) && Value(init[i].product.currentPrice.amount) < bound
    ensures forall k :: 0 <= k < |init| && init[k].product.currentPrice.currency == currency ==>
              Value(init[k].product.currentPrice.amount) < bound
  {
    forall k | 0 <= k < |init| && init[k].product.currentPrice.currency == currency
      ensures Value(init[k].product.currentPrice.amount) < bound
    {
      assert k < i || k == i || k > i;
    }
  }

  lemma {:induction false} EarliestHighest(history: seq<Snapshot>, currency: Currency) returns (i: nat)
    ensures match FirstMaximumPrice(history, currency)
            case None => forall s :: s in history ==> s.product.currentPrice.currency != currency
            case Some(price) => IsEarliestHighest(history, currency, i) && price == history[i].product.currentPrice
  {
    i := 0;
    if history != [] {
      var init, last := history[..|history| - 1], history[|history| - 1];
      assert history == init + [last];
      i := EarliestHighest(init, currency);
      var best, price := FirstMaximumPrice(init, currency), last.product.currentPrice;
      if price.currency == currency && (best.None? || Value(price.amount) > Value(best.value.amount)) {
        if best.None? {
          assert forall k :: 0 <= k < |init| ==> init[k] in init;
        } else {
          HighestBounds(init, currency, i, Value(price.amount));
        }
        i := |init|;
        LastIsHighest(init, last, currency);
      } else if best.Some? {
        EarliestHighestStays(init, last, currency, i);
      }
    }
  }

  lemma EarliestHighestIsUnique(history: seq<Snapshot>, currency: Currency, i: nat, j: nat)
    requires IsEarliestHighest(history, currency, i) && IsEarliestHighest(history, currency, j)
    ensures i == j
  {
  }

  /** The product as enriched from one reference amount. */
  ghost predicate RefersTo(rnd: Context, enriched: Product, current: Product, reference: Money) {
    enriched == current.(
      originalPrice := Some(reference),
      discount := DiscountPercentage(rnd, Value(reference.amount), Value(current.currentPrice.amount)))
  }

  /** Which reference an enriched product carries: the advertised one if there is one; else the highest price
  of its own history in its currency, the earliest if several are equal; else none, and nothing changes.
  Nothing else of the product changes, and the discount is the one the reference gives. */
  lemma EnrichmentCarries(rnd: Context, current: Product, history: seq<Snapshot>)
    requires Enrich(rnd, current, history).Ok?
    ensures var enriched, currency := Enrich(rnd, current, history).value, current.currentPrice.currency;
      if current.originalPrice.Some? then RefersTo(rnd, enriched, current, current.originalPrice.value)
      else if exists s :: s in history && s.product.currentPrice.currency == currency then
        exists i: nat :: IsEarliestHighest(history, currency, i)
          && RefersTo(rnd, enriched, current, history[i].product.currentPrice)
      else enriched == current
  {
    if current.originalPrice.None? {
      var currency := current.currentPrice.currency;
      var i := EarliestHighest(history, currency);
      if FirstMaximumPrice(history, currency).Some? {
        assert history[i] in history;
        assert RefersTo(rnd, Enrich(rnd, current, history).value, current, history[i].product.currentPrice);
      }
    }
  }

  // ---------- What a rule decides ----------

  /** The price a drop is measured from: the reference, or without one the previous price. */
  function MeasuredFrom(previous: Option<Product>, current: Product): Option<Money> {
    if current.originalPrice.Some? then current.originalPrice
    else if previous.Some? then Some(previous.value.currentPrice)
    else None
  }

  /** A fixed amount in another currency than the price. */
  predicate ForeignFixed(rule: Rule, current: Product) {
    rule.fixed.FixedMoney? && rule.fixed.money.currency != current.currentPrice.currency
  }

  /** The price fell, in one currency, for a product the rule looks at. */
  predicate Fell(rnd: Context, rule: Rule, previous: Option<Product>, current: Product) {
    var base := MeasuredFrom(previous, current);
    && (rule.availableOnly ==> current.available)
    && base.Some? && base.value.currency == current.currentPrice.currency
    && rnd(Value(base.value.amount) - Value(current.currentPrice.amount)) > 0.0
  }

  /** When an enabled price-drop rule matches, for all its options: the price fell, by no less than the fixed
  amount and by no less than the percentage, if these are given. It raises only if the price fell and the
  fixed amount is in another currency. */
  lemma PriceDropVerdict(rnd: Context, rule: Rule, previous: Option<Product>, current: Product, timestamp: Timestamp)
    requires rule.enabled && rule.ruleType == PriceDrop
    ensures var r := EvaluateRule(rnd, rule, previous, current, timestamp);
      && (r.Err? <==> Fell(rnd, rule, previous, current) && ForeignFixed(rule, current))
      && (r.Ok? ==> r.value.timestamp == timestamp)
      && (r.Ok? ==> (r.value.matched <==> r.value.reason == Decreased))
      && (r.Ok? && r.value.matched <==>
            && Fell(rnd, rule, previous, current) && !ForeignFixed(rule, current)
            && var reference := Value(MeasuredFrom(previous, current).value.amount);
               var drop := rnd(reference - Value(current.currentPrice.amount));
               && (rule.fixed.FixedMoney? ==> drop >= Value(rule.fixed.money.amount))
               && (rule.fixed.FixedDecimal? ==> drop >= Value(rule.fixed.amount))
               && (rule.percentage.Some? ==> rnd(rnd(drop * 100.0) / reference) >= rule.percentage.value))
  {
    if Fell(rnd, rule, previous, current) {
      FallsFromPositive(rnd, Value(MeasuredFrom(previous, current).value.amount), Value(current.currentPrice.amount));
    }
  }

  lemma FallsFromPositive(rnd: Context, reference: real, price: real)
    requires rnd(reference - price) > 0.0 && price >= 0.0
    ensures reference > 0.0
  {
    assert reference <= 0.0 ==> rnd(reference - price) <= rnd(0.0);
  }

  /** A back-in-stock rule matches exactly if the product was seen unavailable and is available; a disabled
  rule never matches. Neither raises. */
  lemma OtherVerdicts(rnd: Context, rule: Rule, previous: Option<Product>, current: Product, timestamp: Timestamp)
    requires !rule.enabled || rule.ruleType == BackInStock
    ensures var r := EvaluateRule(rnd, rule, previous, current, timestamp);
      && r.Ok? && r.value.timestamp == timestamp
      && (r.value.matched <==> rule.enabled && previous.Some? && !previous.value.available && current.available)
      && (r.value.matched ==> r.value.reason == BackAgain)
  {
  }

  // ---------- The discount and the reference ----------
  // ---------- The discount and the reference ----------

  lemma CrossMultiplied(a: real, b: real, lower: real, higher: real)
    requires lower > 0.0 && higher > 0.0
    ensures a * higher <= b * lower <==> a / lower <= b / higher
  {
    var p, q := a / lower, b / higher;
    assert p * lower == a && q * higher == b;
    ScaleKeepsOrder(p, q, lower * higher);
    assert p * (lower * higher) == p * lower * higher;
    assert q * (lower * higher) == q * higher * lower;
  }

  /** The reduction in hundredths, as rounded on the way to the discount. */
  function Reduction(rnd: Context, reference: real, current: real): real {
    rnd(rnd(reference - current) * 100.0)
  }

  /** For all prices and in every context: as the reference rises the discount follows the ratio of
  the rounded reduction to the reference. */
  lemma DiscountFollowsReduction(rnd: Context, lower: real, higher: real, current: real)
    requires 0.0 <= current < lower <= higher
    ensures var a, b := Reduction(rnd, lower, current), Reduction(rnd, higher, current);
      && (a * higher <= b * lower ==> DiscountPercentage(rnd, lower, current) <= DiscountPercentage(rnd, higher, current))
      && (a * higher >= b * lower ==> DiscountPercentage(rnd, lower, current) >= DiscountPercentage(rnd, higher, current))
  {
    var a, b := Reduction(rnd, lower, current), Reduction(rnd, higher, current);
    CrossMultiplied(a, b, lower, higher);
    CrossMultiplied(b, a, higher, lower);
    assert a / lower <= b / higher ==> rnd(a / lower) <= rnd(b / higher);
    assert b / higher <= a / lower ==> rnd(b / higher) <= rnd(a / lower);
  }

  /** The context represents the difference and a hundred times it. */
  predicate ExactReduction(rnd: Context, reference: real, current: real) {
    rnd(reference - current) == reference - current && rnd((reference - current) * 100.0) == (reference - current) * 100.0
  }

  lemma ExactReductionsGrow(lower: real, higher: real, current: real)
    requires 0.0 <= current < lower <= higher
    ensures (lower - current) * 100.0 * higher <= (higher - current) * 100.0 * lower
  {
    var c := current * 100.0;
    assert c * (higher - lower) >= 0.0;
    assert (lower - current) * 100.0 * higher == lower * higher * 100.0 - c * higher;
    assert (higher - current) * 100.0 * lower == lower * higher * 100.0 - c * lower;
  }

  lemma ReductionGrows(rnd: Context, lower: real, higher: real, current: real, a: real, b: real)
    requires 0.0 <= current < lower <= higher
    requires a == Reduction(rnd, lower, current) && b == Reduction(rnd, higher, current)
    requires a * higher <= b * lower
    ensures DiscountPercentage(rnd, lower, current) <= DiscountPercentage(rnd, higher, current)
  {
    DiscountFollowsReduction(rnd, lower, higher, current);
  }

  lemma ExactReductionsMatch(rnd: Context, lower: real, higher: real, current: real)
    requires 0.0 <= current < lower <= higher
    requires ExactReduction(rnd, lower, current) && ExactReduction(rnd, higher, current)
    ensures DiscountPercentage(rnd, lower, current) <= DiscountPercentage(rnd, higher, current)
  {
    ExactReductionsGrow(lower, higher, current);
    ReductionGrows(rnd, lower, higher, current, (lower - current) * 100.0, (higher - current) * 100.0);
  }

  /** The discount grows with the reference in every context that represents the differences;
  nothing else need be represented, and below the current price nothing at all. */
  lemma DiscountGrowsWithReference(rnd: Context, lower: real, higher: real, current: real)
    requires 0.0 <= lower <= higher && current >= 0.0
    requires current < lower ==> ExactReduction(rnd, lower, current) && ExactReduction(rnd, higher, current)
    ensures DiscountPercentage(rnd, lower, current) <= DiscountPercentage(rnd, higher, current)
  {
    if current < lower {
      ExactReductionsMatch(rnd, lower, higher, current);
    } else {
      DiscountFallsAsPriceRises(rnd, higher, current, current);
    }
  }

  lemma {:induction false} TimesSubtracts(a: nat, b: nat, k: nat)
    requires b <= a
    ensures Times10(a, k) - Times10(b, k) == Times10(a - b, k)
  {
    if k > 0 {
      TimesSubtracts(a, b, k - 1);
    }
  }

  lemma ValueSubtracts(a: nat, b: nat, e: int)
    requires b <= a
    ensures Value(Decimal(a, e)) - Value(Decimal(b, e)) == Value(Decimal(a - b, e))
  {
    if e >= 0 {
      TimesSubtracts(a, b, e);
    } else {
      TenthAdds((a - b) as real, b as real, -e);
    }
  }

  lemma ValueKeepsOrder(a: nat, b: nat, e: int)
    ensures Value(Decimal(a, e)) <= Value(Decimal(b, e)) <==> a <= b
  {
    if a <= b {
      ValueSubtracts(b, a, e);
    } else {
      ValueSubtracts(a, b, e);
      AmountText.ZeroValue(Decimal(a - b, e));
    }
  }

  /** Amounts written with the same number of places and at most 28 digits subtract exactly. */
  lemma PricesSubtractExactly(reference: Decimal, current: Decimal)
    requires reference.exponent == current.exponent && Value(current) <= Value(reference)
    requires AmountText.WithinPrecision(reference)
    ensures ExactReduction(Default(), Value(reference), Value(current))
  {
    var e, drop := reference.exponent, reference.coefficient - current.coefficient;
    ValueKeepsOrder(current.coefficient, reference.coefficient, e);
    ValueSubtracts(reference.coefficient, current.coefficient, e);
    AmountText.DigitsLength(reference.coefficient, AmountText.PRECISION);
    PowersHaveNames();
    ShortIntegersStay(drop);
    RoundingIgnoresExponent(drop, drop, e);
    RoundingScalesByHundred(Value(Decimal(drop, e)));
  }

  /** For prices with the same number of places the discount grows with the reference. */
  lemma DiscountGrowsForPrices(lower: Decimal, higher: Decimal, current: Decimal)
    requires lower.exponent == current.exponent && higher.exponent == current.exponent
    requires AmountText.WithinPrecision(lower) && AmountText.WithinPrecision(higher)
    requires Value(lower) <= Value(higher)
    ensures DiscountPercentage(Default(), Value(lower), Value(current))
         <= DiscountPercentage(Default(), Value(higher), Value(current))
  {
    if Value(current) < Value(lower) {
      PricesSubtractExactly(lower, current);
      PricesSubtractExactly(higher, current);
    }
    DiscountGrowsWithReference(Default(), Value(lower), Value(higher), Value(current));
  }

  // ---------- How far the discount can fall ----------

  /** The discount before any rounding. */
  function ExactDiscount(reference: real, current: real): real
    requires reference > 0.0
  {
    (reference - current) * 100.0 / reference
  }

  lemma FactorOut(x: real, factor: real, c: real)
    requires c > 0.0
    ensures x * factor / c == x / c * factor
  {
    var q, p := x / c, x * factor / c;
    assert q * c == x && p * c == x * factor;
    assert (p - q * factor) * c == 0.0;
  }

  lemma ReductionIsRounded(reference: real, current: real)
    ensures Reduction(Default(), reference, current) == RoundHalfEven(reference - current) * 100.0
  {
    RoundingScalesByHundred(RoundHalfEven(reference - current));
    RoundingIsIdempotent(reference - current);
  }

  lemma QuotientAtMost(a: real, x: real, factor: real, c: real)
    requires c > 0.0 && a <= x * factor
    ensures a / c <= x / c * factor
  {
    FactorOut(x, factor, c);
    DividePreservesOrder(a, x * factor, c);
  }

  lemma QuotientAtLeast(a: real, x: real, factor: real, c: real)
    requires c > 0.0 && a >= x * factor
    ensures a / c >= x / c * factor
  {
    FactorOut(x, factor, c);
    DividePreservesOrder(x * factor, a, c);
  }

  lemma QuotientNearExact(reference: real, current: real)
    requires 0.0 <= current < reference
    ensures var q := Reduction(Default(), reference, current) / reference;
      ExactDiscount(reference, current) * 0.9999999999999999999999999995 <= q
      <= ExactDiscount(reference, current) * 1.0000000000000000000000000005
  {
    var drop := reference - current;
    var a := Reduction(Default(), reference, current);
    ReductionIsRounded(reference, current);
    RoundsUpByHalfUnit(drop);
    RoundsDownByHalfUnit(drop);
    QuotientAtLeast(a, drop * 100.0, 0.9999999999999999999999999995, reference);
    QuotientAtMost(a, drop * 100.0, 1.0000000000000000000000000005, reference);
  }

  lemma ExactDiscountIsPositive(reference: real, current: real)
    requires 0.0 <= current < reference
    ensures ExactDiscount(reference, current) > 0.0
  {
    assert ExactDiscount(reference, current) * reference == (reference - current) * 100.0;
  }

  lemma DiscountNearExact(reference: real, current: real)
    requires 0.0 <= current < reference
    ensures var exact := ExactDiscount(reference, current);
      exact * 0.9999999999999999999999999995 * 0.9999999999999999999999999995
      <= DiscountPercentage(Default(), reference, current)
      <= exact * 1.0000000000000000000000000005 * 1.0000000000000000000000000005
  {
    var q := Reduction(Default(), reference, current) / reference;
    ExactDiscountIsPositive(reference, current);
    QuotientNearExact(reference, current);
    RoundsUpByHalfUnit(q);
    RoundsDownByHalfUnit(q);
  }

  lemma ExactDiscountsGrow(lower: real, higher: real, current: real)
    requires 0.0 <= current < lower <= higher
    ensures ExactDiscount(lower, current) <= ExactDiscount(higher, current) <= 100.0
  {
    ExactReductionsGrow(lower, higher, current);
    CrossMultiplied((lower - current) * 100.0, (higher - current) * 100.0, lower, higher);
    QuotientNearHundred(higher - current, higher, 1.0);
  }

  /** For all references and prices: where the discount falls, it falls by at most 2 * 10^-25 percentage
  points, so every fall is an effect of rounding. */
  lemma DiscountHardlyFalls(lower: real, higher: real, current: real)
    requires 0.0 <= lower <= higher && current >= 0.0
    ensures DiscountPercentage(Default(), lower, current)
         <= DiscountPercentage(Default(), higher, current) + 0.0000000000000000000000002
  {
    if current < lower {
      DiscountNearExact(lower, current);
      DiscountNearExact(higher, current);
      ExactDiscountsGrow(lower, higher, current);
    } else {
      DiscountFallsAsPriceRises(Default(), higher, current, current);
    }
  }

  lemma BelowHundred(x: real)
    requires 10.0 <= x && x * 100000000000000000000000000.0 <= T28 - 1.0
    ensures RoundHalfEven(x) < 100.0
  {
    RoundingScalesByTenToTwentyFive(x);
    RoundingScales(x * 10000000000000000000000000.0);
    NearestEvenIsNear(x * 100000000000000000000000000.0);
    assert x * 10000000000000000000000000.0 * 10.0 == x * 100000000000000000000000000.0;
  }

  const L: real := 2.0 * T27
  const H: real := 2.0 * T27 + 1.0

  lemma DropsMerge()
    ensures RoundHalfEven(L - 0.5) == L == RoundHalfEven(H - 0.5)
  {
    assert (L - 0.5).Floor == 1999999999999999999999999999;
    assert (H - 0.5).Floor == 2000000000000000000000000000;
  }

  lemma MergedReduction()
    ensures RoundHalfEven(L * 100.0) == L * 100.0
  {
    RoundingIsIdempotent(L - 0.5);
    DropsMerge();
    RoundingScalesByHundred(L);
  }

  lemma LowerDiscount()
    ensures DiscountPercentage(Default(), L, 0.5) == 100.0
  {
    DropsMerge();
    MergedReduction();
    ShortIntegersStay(100);
    assert L * 100.0 / L == 100.0;
  }

  lemma HigherDiscount()
    ensures DiscountPercentage(Default(), H, 0.5) < 100.0
  {
    DropsMerge();
    MergedReduction();
    var q := L * 100.0 / H;
    assert q * H == L * 100.0;
    BelowHundred(q);
  }

  /** With different numbers of places the law fails in the program's own context: 28 digits against
  one half. The two differences round to the same number, and the higher reference gets the smaller
  discount. */
  lemma DiscountCanFall() returns (lower: Decimal, higher: Decimal, current: Decimal)
    ensures AmountText.WithinPrecision(lower) && AmountText.WithinPrecision(higher) && AmountText.WithinPrecision(current)
    ensures Value(lower) < Value(higher)
    ensures DiscountPercentage(Default(), Value(lower), Value(current))
          > DiscountPercentage(Default(), Value(higher), Value(current))
  {
    lower := Decimal(2_000_000_000_000_000_000_000_000_000, 0);
    higher := Decimal(2_000_000_000_000_000_000_000_000_001, 0);
    current := Decimal(5, -1);
    PowersHaveNames();
    AmountText.DigitsLength(lower.coefficient, AmountText.PRECISION);
    AmountText.DigitsLength(higher.coefficient, AmountText.PRECISION);
    OneHalf();
    assert Value(lower) == L && Value(higher) == H;
    LowerDiscount();
    HigherDiscount();
  }

  lemma OneHalf()
    ensures Value(Decimal(5, -1)) == 0.5
  {
    assert Tenth(5.0, 1) == Tenth(5.0 / 10.0, 0);
  }

  // ---------- The alert and the digest agree ----------

  function LatestProduct(history: seq<Snapshot>): Option<Product> {
    if history == [] then None else Some(history[|history| - 1].product)
  }

  /** The rule catalog monitoring configures. */
  predicate CatalogRule(rule: Rule, minimum: real) {
    && rule.enabled && rule.ruleType == PriceDrop && rule.availableOnly
    && rule.fixed.NoFixed? && rule.percentage == Some(minimum)
  }

  lemma {:induction false} NoReferenceMeansForeignCurrency(history: seq<Snapshot>, currency: Currency)
    ensures FirstMaximumPrice(history, currency).None? <==>
            (forall s :: s in history ==> s.product.currentPrice.currency != currency)
    ensures FirstMaximumPrice(history, currency).Some? ==>
            FirstMaximumPrice(history, currency).value.currency == currency
  {
    if history != [] {
      NoReferenceMeansForeignCurrency(history[..|history| - 1], currency);
      assert history == history[..|history| - 1] + [history[|history| - 1]];
    }
  }

  /** An enriched product's reference is in its own currency and gives its discount; without one every
  observation is in another currency. */
  predicate WellReferenced(rnd: Context, product: Product, previous: Option<Product>) {
    if product.originalPrice.Some? then
      && product.originalPrice.value.currency == product.currentPrice.currency
      && product.discount
         == DiscountPercentage(rnd, Value(product.originalPrice.value.amount), Value(product.currentPrice.amount))
    else previous.Some? ==> previous.value.currentPrice.currency != product.currentPrice.currency
  }

  lemma EnrichedIsWellReferenced(rnd: Context, current: Product, history: seq<Snapshot>)
    requires ValidProduct(current) && Enrich(rnd, current, history).Ok?
    ensures WellReferenced(rnd, Enrich(rnd, current, history).value, LatestProduct(history))
  {
    NoReferenceMeansForeignCurrency(history, current.currentPrice.currency);
  }

  lemma WellReferencedMatches(
    rnd: Context, rule: Rule, minimum: real, previous: Option<Product>, product: Product, timestamp: Timestamp)
    requires CatalogRule(rule, minimum) && WellReferenced(rnd, product, previous)
    ensures var r := EvaluateRule(rnd, rule, previous, product, timestamp);
      && r.Ok?
      && (r.value.matched <==>
            && Qualifies(product, minimum)
            && rnd(Value(product.originalPrice.value.amount) - Value(product.currentPrice.amount)) > 0.0)
  {
    if product.originalPrice.Some? {
      var reference, price := Value(product.originalPrice.value.amount), Value(product.currentPrice.amount);
      assert price >= reference ==> rnd(reference - price) <= rnd(0.0);
    }
  }

  /** For every threshold, the rule matches an enriched product exactly when the digest qualifies
  it and its price really is below the reference. */
  lemma MatchIsQualificationOfADrop(
    rnd: Context, rule: Rule, minimum: real, current: Product, history: seq<Snapshot>, timestamp: Timestamp)
    requires ValidProduct(current) && CatalogRule(rule, minimum)
    requires Enrich(rnd, current, history).Ok?
    ensures var product := Enrich(rnd, current, history).value;
      var r := EvaluateRule(rnd, rule, LatestProduct(history), product, timestamp);
      && r.Ok?
      && (r.value.matched <==>
            && Qualifies(product, minimum)
            && rnd(Value(product.originalPrice.value.amount) - Value(product.currentPrice.amount)) > 0.0)
  {
    EnrichedIsWellReferenced(rnd, current, history);
    WellReferencedMatches(
      rnd, rule, minimum, LatestProduct(history), Enrich(rnd, current, history).value, timestamp);
  }

  /** With a positive threshold the alert rule and the digest select the same products. */
  lemma AlertAgreesWithDigest(
    rnd: Context, rule: Rule, minimum: real, current: Product, history: seq<Snapshot>, timestamp: Timestamp)
    requires ValidProduct(current) && CatalogRule(rule, minimum) && minimum > 0.0
    requires Enrich(rnd, current, history).Ok?
    ensures var product := Enrich(rnd, current, history).value;
      var r := EvaluateRule(rnd, rule, LatestProduct(history), product, timestamp);
      r.Ok? && r.value.matched == Qualifies(product, minimum)
  {
    MatchIsQualificationOfADrop(rnd, rule, minimum, current, history, timestamp);
    var product := Enrich(rnd, current, history).value;
    if product.originalPrice.Some? {
      var reference, price := Value(product.originalPrice.value.amount), Value(product.currentPrice.amount);
      var drop := rnd(reference - price);
      if reference != 0.0 && price < reference && drop <= 0.0 {
        assert rnd(0.0) <= drop;
        assert drop == 0.0;
        assert rnd(drop * 100.0) == 0.0;
        assert rnd(0.0 / reference) == 0.0;
      } else if price >= reference {
        assert drop <= rnd(0.0);
      }
    }
  }

  /** At threshold zero they part: a reduced-price listing with no reduction qualifies for the
  digest and raises no alert. */
  lemma ZeroThresholdDisagrees() returns (rule: Rule, current: Product)
    ensures ValidProduct(current) && CatalogRule(rule, 0.0)
    ensures Enrich(Default(), current, []) == Ok(current) && Qualifies(current, 0.0)
    ensures EvaluateRule(Default(), rule, None, current, 0) == Ok(Evaluation(false, NoDecrease, 0))
  {
    var price := Money(Decimal(10, 0), CZK);
    rule := Rule(true, PriceDrop, true, NoFixed, Some(0.0));
    current := Product(1, 1, "saw", price, Some(price), 0.0, "u", true);
  }
}
