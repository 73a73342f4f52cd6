/**
 * `evaluateOffers`: evaluate every active offer against one booking, keep
 * the eligible results and order them by discount, largest first.
 */
module OfferRanking {
  import opened Wrappers
  import opened JavaStrings
  import opened OfferModel
  import opened Repositories
  import opened Eligibility

  /** `EvaluateOffersRequest`; every field may be null. */
  datatype EvaluateOffersRequest = EvaluateOffersRequest(
    userId: Option<string>,
    movieId: Option<string>,
    theaterId: Option<string>,
    paymentPartner: Option<string>,
    sourceApp: Option<string>,
    orderAmount: Option<Money>)

  /** `validateEvaluateRequest`: a user id and an order amount are required. */
  function ValidateEvaluateRequest(request: EvaluateOffersRequest): (o: Outcome<ServiceError>)
    ensures o.Pass? <==> !IsBlank(request.userId) && request.orderAmount.Some?
    ensures o.Fail? ==> o.error == OfferValidation("userId and orderAmount are required")
  {
    if IsBlank(request.userId) || request.orderAmount.None? then
      Fail(OfferValidation("userId and orderAmount are required"))
    else Pass
  }

  /** Non-increasing by estimated discount. */
  ghost predicate SortedByDiscountDesc(s: seq<EvaluatedOffer>) {
    forall i, j :: 0 <= i < j < |s| ==> s[i].estimatedDiscount >= s[j].estimatedDiscount
  }

  /** The stream's `map(evaluateSingleOffer).filter(nonNull)` over the given offers. */
  function EligibleResults(offers: seq<Offer>, ctx: BookingContext, now: int, redemptions: seq<OfferRedemption>)
    : (r: seq<EvaluatedOffer>)
    ensures |r| <= |offers|
    ensures forall x :: x in r <==>
              exists k :: 0 <= k < |offers| && EvaluateSingleOffer(offers[k], ctx, now, redemptions) == Some(x)
  {
    if offers == [] then []
    else
      var rest := EligibleResults(offers[1..], ctx, now, redemptions);
      assert forall k :: 0 <= k < |offers| - 1 ==> offers[1..][k] == offers[k + 1];
      match EvaluateSingleOffer(offers[0], ctx, now, redemptions)
      case Some(x) => [x] + rest
      case None => rest
  }

  /** Every estimated discount in `s` is at most `bound`. */
  ghost predicate DiscountsAtMost(s: seq<EvaluatedOffer>, bound: Money) {
    forall i :: 0 <= i < |s| ==> s[i].estimatedDiscount <= bound
  }

  /**
   * Places `x` before the first element whose discount is not larger than
   * its own, so ahead of any equal discounts. `SortByDiscountDesc` inserts
   * each head into the sorted tail, so equal discounts keep their order.
   */
  function InsertByDiscount(x: EvaluatedOffer, s: seq<EvaluatedOffer>): (r: seq<EvaluatedOffer>)
    requires SortedByDiscountDesc(s)
    ensures SortedByDiscountDesc(r)
    ensures forall bound :: DiscountsAtMost(s, bound) && x.estimatedDiscount <= bound ==> DiscountsAtMost(r, bound)
  {
    if s == [] || x.estimatedDiscount >= s[0].estimatedDiscount then [x] + s
    else
      var rest := InsertByDiscount(x, s[1..]);
      assert DiscountsAtMost(s[1..], s[0].estimatedDiscount);
      var r := [s[0]] + rest;
      assert forall i :: 0 < i < |r| ==> r[i] == rest[i - 1];
      r
  }

  /** Inserting adds exactly the one element. */
  lemma {:induction false} InsertByDiscountPermutes(x: EvaluatedOffer, s: seq<EvaluatedOffer>)
    requires SortedByDiscountDesc(s)
    ensures multiset(InsertByDiscount(x, s)) == multiset(s) + multiset{x}
  {
    if s != [] && x.estimatedDiscount < s[0].estimatedDiscount {
      InsertByDiscountPermutes(x, s[1..]);
      assert s == [s[0]] + s[1..];
    }
  }

  /** `sorted(comparing(estimatedDiscount).reversed())`: a stable sort, largest discount first. */
  function SortByDiscountDesc(s: seq<EvaluatedOffer>): (r: seq<EvaluatedOffer>)
    ensures SortedByDiscountDesc(r)
  {
    if s == [] then [] else InsertByDiscount(s[0], SortByDiscountDesc(s[1..]))
  }

  /** Sorting keeps every element, as often as it occurs. */
  lemma {:induction false} SortByDiscountDescPermutes(s: seq<EvaluatedOffer>)
    ensures multiset(SortByDiscountDesc(s)) == multiset(s)
  {
    if s != [] {
      SortByDiscountDescPermutes(s[1..]);
      InsertByDiscountPermutes(s[0], SortByDiscountDesc(s[1..]));
      assert s == [s[0]] + s[1..];
    }
  }

  /** Sorting neither drops nor invents a result. */
  lemma SortByDiscountDescKeepsMembers(s: seq<EvaluatedOffer>)
    ensures forall x :: x in SortByDiscountDesc(s) <==> x in s
  {
    SortByDiscountDescPermutes(s);
    forall x ensures x in SortByDiscountDesc(s) <==> x in s {
      assert x in SortByDiscountDesc(s) <==> x in multiset(SortByDiscountDesc(s));
      assert x in s <==> x in multiset(s);
    }
  }

  /**
   * `evaluateOffers`: after validation, the eligible results of the active
   * offers, each exactly once, largest discount first.
   */
  function EvaluateOffers(request: EvaluateOffersRequest, offers: seq<Offer>, now: int, redemptions: seq<OfferRedemption>)
    : (r: Result<seq<EvaluatedOffer>, ServiceError>)
    ensures r.Success? <==> ValidateEvaluateRequest(request).Pass?
    ensures r.Failure? ==> r.error == ValidateEvaluateRequest(request).error
    ensures r.Success? ==> SortedByDiscountDesc(r.value)
    ensures r.Success? ==>
              var ctx := ContextOf(request);
              && multiset(r.value) == multiset(EligibleResults(FindByActiveTrue(offers), ctx, now, redemptions))
              && forall x :: x in r.value <==>
                   exists k :: 0 <= k < |offers| && offers[k].active
                            && EvaluateSingleOffer(offers[k], ctx, now, redemptions) == Some(x)
  {
    match ValidateEvaluateRequest(request)
    case Fail(e) => Failure(e)
    case Pass =>
      var ctx := ContextOf(request);
      var active := FindByActiveTrue(offers);
      var eligible := EligibleResults(active, ctx, now, redemptions);
      var sorted := SortByDiscountDesc(eligible);
      ActiveResultsMembership(offers, ctx, now, redemptions);
      SortByDiscountDescPermutes(eligible);
      SortByDiscountDescKeepsMembers(eligible);
      Success(sorted)
  }

  /** The booking context built from a validated request. */
  function ContextOf(request: EvaluateOffersRequest): BookingContext
    requires ValidateEvaluateRequest(request).Pass?
  {
    BookingContext(request.userId.value, request.movieId, request.theaterId, request.paymentPartner,
                   request.sourceApp, request.orderAmount.value)
  }

  /** The eligible results of the active offers are exactly the results of active offers. */
  lemma ActiveResultsMembership(offers: seq<Offer>, ctx: BookingContext, now: int, redemptions: seq<OfferRedemption>)
    ensures forall x :: x in EligibleResults(FindByActiveTrue(offers), ctx, now, redemptions) <==>
              exists k :: 0 <= k < |offers| && offers[k].active
                       && EvaluateSingleOffer(offers[k], ctx, now, redemptions) == Some(x)
  {
    var active := FindByActiveTrue(offers);
    var eligible := EligibleResults(active, ctx, now, redemptions);
    forall x | x in eligible
      ensures exists k :: 0 <= k < |offers| && offers[k].active && EvaluateSingleOffer(offers[k], ctx, now, redemptions) == Some(x)
    {
      var j :| 0 <= j < |active| && EvaluateSingleOffer(active[j], ctx, now, redemptions) == Some(x);
      assert active[j] in offers;
      var k :| 0 <= k < |offers| && offers[k] == active[j];
    }
    forall k | 0 <= k < |offers| && offers[k].active && EvaluateSingleOffer(offers[k], ctx, now, redemptions).Some?
      ensures EvaluateSingleOffer(offers[k], ctx, now, redemptions).value in eligible
    {
      assert offers[k] in active;
      var j :| 0 <= j < |active| && active[j] == offers[k];
    }
  }
}
