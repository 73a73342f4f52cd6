/** `AppliedOfferResponse.from`: the summary of one recorded redemption. */
module AppliedOfferResponses {
  import opened OfferModel

  datatype AppliedOfferResponse = AppliedOfferResponse(
    offerCode: string,
    bookingId: string,
    userId: string,
    orderAmount: Money,
    discountAmount: Money,
    finalPayable: Money,
    redeemedAt: int)

  /**
   * Maps a redemption, joined with its offer, to its summary. The amounts
   * are already in cents, so rescaling them to two places keeps them as
   * they are; what is left to pay is the order less the discount, or zero
   * when the discount exceeds the order.
   */
  function From(redemption: OfferRedemption, offer: Offer): (r: AppliedOfferResponse)
    requires redemption.offerId == offer.id
    ensures r.offerCode == offer.code
    ensures r.bookingId == redemption.bookingId && r.userId == redemption.userId
    ensures r.redeemedAt == redemption.redeemedAt
    ensures r.orderAmount == redemption.orderAmount && r.discountAmount == redemption.discountAmount
    ensures r.finalPayable >= 0
    ensures r.finalPayable >= redemption.orderAmount - redemption.discountAmount
    ensures r.finalPayable == 0 || r.finalPayable == redemption.orderAmount - redemption.discountAmount
  {
    var finalPayable := redemption.orderAmount - redemption.discountAmount;
    AppliedOfferResponse(
      offer.code,
      redemption.bookingId,
      redemption.userId,
      redemption.orderAmount,
      redemption.discountAmount,
      if finalPayable >= 0 then finalPayable else 0,
      redemption.redeemedAt)
  }

  /** When the discount does not exceed the order, the summary shows exactly the difference. */
  lemma FromFinalPayableExact(redemption: OfferRedemption, offer: Offer)
    requires redemption.offerId == offer.id
    requires redemption.discountAmount <= redemption.orderAmount
    ensures From(redemption, offer).finalPayable == redemption.orderAmount - redemption.discountAmount
  {
  }

  /** 400.00 less a 40.00 discount leaves 360.00. */
  lemma FourHundredLessForty(redemption: OfferRedemption, offer: Offer)
    requires redemption.offerId == offer.id
    requires redemption.orderAmount == 40000 && redemption.discountAmount == 4000
    ensures From(redemption, offer).finalPayable == 36000
  {
  }
}
