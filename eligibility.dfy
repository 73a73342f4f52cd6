/**
 * `isApplicable` and `evaluateSingleOffer`: whether one offer applies to a
 * booking at a given time, given the redemptions recorded so far, and if so
 * the discount it gives.
 */
module Eligibility {
  import opened Wrappers
  import opened JavaStrings
  import opened OfferModel
  import opened Repositories
  import opened DiscountCalculator

  /** The booking an offer is evaluated against (the request fields after validation). */
  datatype BookingContext = BookingContext(
    userId: string,
    movieId: Option<string>,
    theaterId: Option<string>,
    paymentPartner: Option<string>,
    sourceApp: Option<string>,
    orderAmount: Money)

  /** `EvaluatedOfferResponse`: one eligible offer and what it would save. */
  datatype EvaluatedOffer = EvaluatedOffer(
    code: string,
    title: string,
    estimatedDiscount: Money,
    finalPayable: Money,
    reason: string)

  const EligibleReason := "ELIGIBLE"

  function Max(a: int, b: int): int {
    if a >= b then a else b
  }

  /**
   * `isApplicable`: a blank rule matches anything; a non-blank rule needs a
   * non-blank request value equal to it, both trimmed, ignoring case.
   */
  function IsApplicable(ruleValue: Option<string>, requestValue: Option<string>): (applies: bool)
    ensures IsBlank(ruleValue) ==> applies
    ensures !IsBlank(ruleValue) && IsBlank(requestValue) ==> !applies
    ensures !IsBlank(ruleValue) && !IsBlank(requestValue) ==>
              (applies <==> ToUpper(Trim(ruleValue.value)) == ToUpper(Trim(requestValue.value)))
  {
    if IsBlank(ruleValue) then true
    else if IsBlank(requestValue) then false
    else
      EqualsIgnoreCaseIsUpperEquality(Trim(ruleValue.value), Trim(requestValue.value));
      EqualsIgnoreCase(Trim(ruleValue.value), Trim(requestValue.value))
  }

  /** Matching is symmetric once the rule and the request value are both non-blank. */
  lemma IsApplicableSymmetric(a: Option<string>, b: Option<string>)
    requires !IsBlank(a) && !IsBlank(b)
    ensures IsApplicable(a, b) <==> IsApplicable(b, a)
  {
  }

  /** Every non-blank rule matches the value it was written with, whatever its case and padding. */
  lemma IsApplicableToItself(rule: string, request: string)
    requires !IsBlank(Some(rule))
    requires ToUpper(Trim(request)) == ToUpper(Trim(rule))
    ensures IsApplicable(Some(rule), Some(request))
  {
    EqualsIgnoreCaseIsUpperEquality(Trim(rule), Trim(request));
  }

  /** All the conditions under which `evaluateSingleOffer` yields a result, as one conjunction. */
  predicate Qualifies(offer: Offer, ctx: BookingContext, now: int, redemptions: seq<OfferRedemption>) {
    && offer.active
    && offer.validFrom <= now <= offer.validTill
    && ctx.orderAmount >= offer.minOrderAmount
    && IsApplicable(offer.applicableMovieId, ctx.movieId)
    && IsApplicable(offer.applicableTheaterId, ctx.theaterId)
    && IsApplicable(offer.paymentPartner, ctx.paymentPartner)
    && IsApplicable(offer.assignedUserId, Some(ctx.userId))
    && (offer.offerOrigin == ThirdParty ==> IsApplicable(offer.sourceApp, ctx.sourceApp))
    && (offer.totalUsageLimit.None? || CountByOffer(redemptions, offer.id) < offer.totalUsageLimit.value)
    && CountByOfferAndUserId(redemptions, offer.id, Trim(ctx.userId)) < offer.perUserUsageLimit
    && CalculateDiscount(offer, ctx.orderAmount) > 0
  }

  /**
   * `evaluateSingleOffer`: the checks in the source's order, stopping at the
   * first that fails. A result exists exactly when every condition holds;
   * it then carries a positive discount no larger than the order and the
   * remainder the customer pays.
   */
  function EvaluateSingleOffer(offer: Offer, ctx: BookingContext, now: int, redemptions: seq<OfferRedemption>)
    : (r: Option<EvaluatedOffer>)
    ensures r.Some? <==> Qualifies(offer, ctx, now, redemptions)
    ensures r.Some? ==>
              && r.value.code == offer.code
              && r.value.title == offer.title
              && r.value.reason == EligibleReason
              && r.value.estimatedDiscount == CalculateDiscount(offer, ctx.orderAmount)
              && 0 < r.value.estimatedDiscount <= ctx.orderAmount
              && 0 <= r.value.finalPayable
              && r.value.finalPayable + r.value.estimatedDiscount == ctx.orderAmount
  {
    if !offer.active then None
    else if now < offer.validFrom || now > offer.validTill then None
    else if ctx.orderAmount < offer.minOrderAmount then None
    else if !IsApplicable(offer.applicableMovieId, ctx.movieId) || !IsApplicable(offer.applicableTheaterId, ctx.theaterId)
         || !IsApplicable(offer.paymentPartner, ctx.paymentPartner) then None
    else if !IsApplicable(offer.assignedUserId, Some(ctx.userId)) then None
    else if offer.offerOrigin == ThirdParty && !IsApplicable(offer.sourceApp, ctx.sourceApp) then None
    else
      var totalUsage := CountByOffer(redemptions, offer.id);
      if offer.totalUsageLimit.Some? && totalUsage >= offer.totalUsageLimit.value then None
      else
        var userUsage := CountByOfferAndUserId(redemptions, offer.id, Trim(ctx.userId));
        if userUsage >= offer.perUserUsageLimit then None
        else
          var discount := CalculateDiscount(offer, ctx.orderAmount);
          if discount <= 0 then None
          else
            var finalPayable := ctx.orderAmount - discount;
            Some(EvaluatedOffer(offer.code, offer.title, discount, Max(finalPayable, 0), EligibleReason))
  }

  /** Once a user holds as many redemptions as the per-user limit allows, the offer no longer applies to them. */
  lemma PerUserLimitReached(offer: Offer, ctx: BookingContext, now: int, redemptions: seq<OfferRedemption>)
    requires CountByOfferAndUserId(redemptions, offer.id, Trim(ctx.userId)) >= offer.perUserUsageLimit
    ensures EvaluateSingleOffer(offer, ctx, now, redemptions).None?
  {
  }

  /**
   * With a per-user limit of one, a user who already redeemed the offer for
   * some booking is refused it for any other booking.
   */
  lemma SecondRedemptionByUserRefused(offer: Offer, ctx: BookingContext, now: int, redemptions: seq<OfferRedemption>, k: nat)
    requires offer.perUserUsageLimit == 1
    requires k < |redemptions|
    requires redemptions[k].offerId == offer.id && redemptions[k].userId == Trim(ctx.userId)
    ensures EvaluateSingleOffer(offer, ctx, now, redemptions).None?
  {
    CountByOfferAndUserIdPositive(redemptions, k, offer.id, Trim(ctx.userId));
  }

  /** Once the offer's global limit is used up, it applies to nobody. */
  lemma TotalLimitReached(offer: Offer, ctx: BookingContext, now: int, redemptions: seq<OfferRedemption>)
    requires offer.totalUsageLimit.Some? && CountByOffer(redemptions, offer.id) >= offer.totalUsageLimit.value
    ensures EvaluateSingleOffer(offer, ctx, now, redemptions).None?
  {
  }

  /**
   * Both ends of the validity window are inclusive: a booking that qualifies
   * at some time inside the window also qualifies at its first and its last
   * instant.
   */
  lemma WindowIsInclusive(offer: Offer, ctx: BookingContext, now: int, redemptions: seq<OfferRedemption>)
    requires offer.validFrom <= now <= offer.validTill
    requires EvaluateSingleOffer(offer, ctx, now, redemptions).Some?
    ensures EvaluateSingleOffer(offer, ctx, offer.validFrom, redemptions).Some?
    ensures EvaluateSingleOffer(offer, ctx, offer.validTill, redemptions).Some?
  {
  }

  /** An order one cent below the minimum amount never qualifies. */
  lemma MinimumOrderBoundary(offer: Offer, ctx: BookingContext, now: int, redemptions: seq<OfferRedemption>)
    requires ctx.orderAmount == offer.minOrderAmount - 1
    ensures EvaluateSingleOffer(offer, ctx, now, redemptions).None?
  {
  }

  /** An offer assigned to "user-vip" is refused to "user-other", whatever the rest of the booking. */
  lemma AssignedUserOnly(offer: Offer, ctx: BookingContext, now: int, redemptions: seq<OfferRedemption>)
    requires offer.assignedUserId == Some("user-vip")
    requires ctx.userId == "user-other"
    ensures EvaluateSingleOffer(offer, ctx, now, redemptions).None?
  {
    DifferentLengthsDoNotMatch("user-vip", "user-other");
  }

  /** Non-blank trimmed values of different lengths never match. */
  lemma DifferentLengthsDoNotMatch(rule: string, request: string)
    requires rule != [] && IsTrimmed(rule) && request != [] && IsTrimmed(request)
    requires |rule| != |request|
    ensures !IsApplicable(Some(rule), Some(request))
  {
    TrimOfTrimmed(rule);
    TrimOfTrimmed(request);
    assert !IsBlank(Some(rule)) && !IsBlank(Some(request)) by {
      assert !IsSpace(rule[0]) && !IsSpace(request[0]);
    }
  }
}
