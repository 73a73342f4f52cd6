/**
 * The two persisted entities, Offer and OfferRedemption, as values.
 * Money is held in integer cents (every money column has scale 2) and
 * timestamps as integers on one clock.
 */
module OfferModel {
  import opened Wrappers

  /** Cents. */
  type Money = int

  datatype OfferType = Percentage | Flat

  datatype OfferOrigin = Internal | ThirdParty

  /** A percentage of 100 written in cents: `discountValue` of a PERCENTAGE offer is at most this. */
  const HundredPercent: Money := 10000

  /**
   * An offer row. `id` is the identity the database generates; `code` and
   * `sourceOfferCode` (the alias) are the two unique columns.
   */
  datatype Offer = Offer(
    id: nat,
    code: string,
    title: string,
    description: Option<string>,
    offerType: OfferType,
    discountValue: Money,
    maxDiscount: Option<Money>,
    minOrderAmount: Money,
    validFrom: int,
    validTill: int,
    totalUsageLimit: Option<int>,
    perUserUsageLimit: int,
    active: bool,
    applicableMovieId: Option<string>,
    applicableTheaterId: Option<string>,
    paymentPartner: Option<string>,
    assignedUserId: Option<string>,
    offerOrigin: OfferOrigin,
    sourceApp: Option<string>,
    sourceOfferCode: Option<string>)

  /** A redemption row; `offerId` is the foreign key to its offer and `bookingId` is unique. */
  datatype OfferRedemption = OfferRedemption(
    offerId: nat,
    userId: string,
    bookingId: string,
    orderAmount: Money,
    discountAmount: Money,
    redeemedAt: int)

  /** What the service throws, by the Java exception (or database constraint) behind it. */
  datatype ServiceError =
    | OfferValidation(message: string)   // OfferValidationException, answered as 400 VALIDATION_ERROR
    | UniqueViolation(column: string)    // a unique column refusing an insert, answered as 500 INTERNAL_ERROR
}
