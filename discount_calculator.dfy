/**
 * `calculateDiscount`: a percentage or flat discount, capped first by the
 * offer's `maxDiscount` and then by the order amount.
 */
module DiscountCalculator {
  import opened Wrappers
  import opened OfferModel

  /**
   * `n / 10000` rounded to a whole number with RoundingMode.HALF_UP (halves
   * away from zero). A percentage applied to an amount in cents, with the
   * percentage itself in hundredths, gives the discount in cents times 10000.
   */
  function HalfUpQuotient(n: int): (q: int)
    ensures n >= 0 ==> q * 10000 - 5000 <= n < q * 10000 + 5000
    ensures n < 0 ==> q * 10000 - 5000 < n <= q * 10000 + 5000
  {
    if n >= 0 then (n + 5000) / 10000 else -((-n + 5000) / 10000)
  }

  /** `orderAmount × discountValue / 100`, rounded HALF_UP to cents. */
  function PercentageOf(orderAmount: Money, discountValue: Money): (p: Money)
    ensures orderAmount * discountValue >= 0 ==>
              p * 10000 - 5000 <= orderAmount * discountValue < p * 10000 + 5000
    ensures orderAmount * discountValue < 0 ==>
              p * 10000 - 5000 < orderAmount * discountValue <= p * 10000 + 5000
  {
    HalfUpQuotient(orderAmount * discountValue)
  }

  /** The discount before any cap: a percentage of the order, or the flat value. */
  function RawDiscount(offer: Offer, orderAmount: Money): Money {
    match offer.offerType
    case Percentage => PercentageOf(orderAmount, offer.discountValue)
    case Flat => offer.discountValue
  }

  /**
   * The capped discount: never above the raw discount, the cap or the order
   * amount, and equal to one of them, so it is the least of the three.
   */
  function CalculateDiscount(offer: Offer, orderAmount: Money): (discount: Money)
    ensures discount <= RawDiscount(offer, orderAmount)
    ensures offer.maxDiscount.Some? ==> discount <= offer.maxDiscount.value
    ensures discount <= orderAmount
    ensures || discount == RawDiscount(offer, orderAmount)
            || (offer.maxDiscount.Some? && discount == offer.maxDiscount.value)
            || discount == orderAmount
  {
    var raw := RawDiscount(offer, orderAmount);
    var capped := if offer.maxDiscount.Some? && raw > offer.maxDiscount.value then offer.maxDiscount.value else raw;
    if capped > orderAmount then orderAmount else capped
  }

  /** A percentage of at most 100 of a non-negative order lies between zero and the order. */
  lemma PercentageWithinOrder(orderAmount: Money, discountValue: Money)
    requires orderAmount >= 0
    requires 0 <= discountValue <= HundredPercent
    ensures 0 <= PercentageOf(orderAmount, discountValue) <= orderAmount
  {
    assert 0 <= orderAmount * discountValue <= orderAmount * HundredPercent by {
      assert orderAmount * HundredPercent - orderAmount * discountValue == orderAmount * (HundredPercent - discountValue);
    }
  }

  /** With a non-negative order, value and cap, the discount is never negative. */
  lemma DiscountNonNegative(offer: Offer, orderAmount: Money)
    requires orderAmount >= 0
    requires offer.discountValue >= 0
    requires offer.maxDiscount.Some? ==> offer.maxDiscount.value >= 0
    ensures 0 <= CalculateDiscount(offer, orderAmount)
  {
    assert orderAmount * offer.discountValue >= 0;
  }

  /**
   * For an uncapped percentage offer of at most 100, the order-amount cap
   * never applies: the discount is exactly the rounded percentage.
   */
  lemma UncappedPercentageIsExact(offer: Offer, orderAmount: Money)
    requires orderAmount >= 0
    requires offer.offerType == Percentage && 0 <= offer.discountValue <= HundredPercent
    requires offer.maxDiscount.None?
    ensures CalculateDiscount(offer, orderAmount) == PercentageOf(orderAmount, offer.discountValue)
  {
    PercentageWithinOrder(orderAmount, offer.discountValue);
  }

  /** 30 % of 400.00 capped at 150.00 is 120.00. */
  lemma ThirtyPercentOfFourHundred(offer: Offer)
    requires offer.offerType == Percentage && offer.discountValue == 3000 && offer.maxDiscount == Some(15000)
    ensures CalculateDiscount(offer, 40000) == 12000
  {
  }

  /** 10 % of 500.00 capped at 100.00 is 50.00. */
  lemma TenPercentOfFiveHundred(offer: Offer)
    requires offer.offerType == Percentage && offer.discountValue == 1000 && offer.maxDiscount == Some(10000)
    ensures CalculateDiscount(offer, 50000) == 5000
  {
  }

  /** A cap below the rounded percentage wins: 30 % of 600.00 capped at 150.00 is 150.00. */
  lemma CapApplies(offer: Offer)
    requires offer.offerType == Percentage && offer.discountValue == 3000 && offer.maxDiscount == Some(15000)
    ensures CalculateDiscount(offer, 60000) == 15000
  {
  }

  /** HALF_UP rounding: 12.5 % of 0.04 is 0.005, which rounds up to 0.01. */
  lemma HalfCentRoundsUp()
    ensures PercentageOf(4, 1250) == 1
  {
  }
}
