/**
 * The queries the service makes of its two repositories, over the rows
 * held as sequences in insertion order.
 */
module Repositories {
  import opened Wrappers
  import opened OfferModel

  /** `countByOffer`: redemptions recorded against the offer with this id. */
  function CountByOffer(redemptions: seq<OfferRedemption>, offerId: nat): (n: nat)
    ensures n <= |redemptions|
  {
    if redemptions == [] then 0
    else
      var last := redemptions[|redemptions| - 1];
      CountByOffer(redemptions[..|redemptions| - 1], offerId) + (if last.offerId == offerId then 1 else 0)
  }

  /** `countByOfferAndUserId`: redemptions of the offer by this (exact) user id. */
  function CountByOfferAndUserId(redemptions: seq<OfferRedemption>, offerId: nat, userId: string): (n: nat)
    ensures n <= CountByOffer(redemptions, offerId)
  {
    if redemptions == [] then 0
    else
      var last := redemptions[|redemptions| - 1];
      CountByOfferAndUserId(redemptions[..|redemptions| - 1], offerId, userId)
        + (if last.offerId == offerId && last.userId == userId then 1 else 0)
  }

  /** Saving one more redemption raises the count of its own offer by one and no other. */
  lemma {:induction false} CountByOfferAppend(redemptions: seq<OfferRedemption>, r: OfferRedemption, offerId: nat)
    ensures CountByOffer(redemptions + [r], offerId)
         == CountByOffer(redemptions, offerId) + (if r.offerId == offerId then 1 else 0)
  {
    assert (redemptions + [r])[..|redemptions|] == redemptions;
  }

  /** Saving one more redemption raises the count of its own (offer, user) pair by one and no other. */
  lemma {:induction false} CountByOfferAndUserIdAppend(redemptions: seq<OfferRedemption>, r: OfferRedemption, offerId: nat, userId: string)
    ensures CountByOfferAndUserId(redemptions + [r], offerId, userId)
         == CountByOfferAndUserId(redemptions, offerId, userId)
            + (if r.offerId == offerId && r.userId == userId then 1 else 0)
  {
    assert (redemptions + [r])[..|redemptions|] == redemptions;
  }

  /** A user who has a redemption of the offer has a per-user count of at least one. */
  lemma {:induction false} CountByOfferAndUserIdPositive(redemptions: seq<OfferRedemption>, k: nat, offerId: nat, userId: string)
    requires k < |redemptions|
    requires redemptions[k].offerId == offerId && redemptions[k].userId == userId
    ensures CountByOfferAndUserId(redemptions, offerId, userId) >= 1
    decreases |redemptions|
  {
    if k < |redemptions| - 1 {
      var prefix := redemptions[..|redemptions| - 1];
      assert prefix[k] == redemptions[k];
      CountByOfferAndUserIdPositive(prefix, k, offerId, userId);
    }
  }

  /** `existsByBookingId`: some redemption carries exactly this booking id. */
  function ExistsByBookingId(redemptions: seq<OfferRedemption>, bookingId: string): (b: bool)
    ensures b <==> exists k :: 0 <= k < |redemptions| && redemptions[k].bookingId == bookingId
  {
    if redemptions == [] then false
    else redemptions[0].bookingId == bookingId || ExistsByBookingId(redemptions[1..], bookingId)
  }

  /** `findByCode`: the offer whose code is exactly `code`, if any. */
  function FindByCode(offers: seq<Offer>, code: string): (r: Option<Offer>)
    ensures r.Some? ==> r.value in offers && r.value.code == code
    ensures r.None? <==> forall k :: 0 <= k < |offers| ==> offers[k].code != code
  {
    if offers == [] then None
    else if offers[0].code == code then Some(offers[0])
    else FindByCode(offers[1..], code)
  }

  /** `findBySourceOfferCode`: the offer whose alias is exactly `alias`, if any. */
  function FindBySourceOfferCode(offers: seq<Offer>, alias: string): (r: Option<Offer>)
    ensures r.Some? ==> r.value in offers && r.value.sourceOfferCode == Some(alias)
    ensures r.None? <==> forall k :: 0 <= k < |offers| ==> offers[k].sourceOfferCode != Some(alias)
  {
    if offers == [] then None
    else if offers[0].sourceOfferCode == Some(alias) then Some(offers[0])
    else FindBySourceOfferCode(offers[1..], alias)
  }

  /** `findByActiveTrue`: the active offers, in repository order. */
  function FindByActiveTrue(offers: seq<Offer>): (r: seq<Offer>)
    ensures forall o :: o in r <==> o in offers && o.active
  {
    if offers == [] then []
    else (if offers[0].active then [offers[0]] else []) + FindByActiveTrue(offers[1..])
  }
}
