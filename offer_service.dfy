/**
 * `OfferService`: creating offers and applying them to bookings. The two
 * repositories become the two sequences of a ledger object; each public
 * operation runs as one atomic step on it.
 */
module Service {
  import opened Wrappers
  import opened JavaStrings
  import opened OfferModel
  import opened Repositories
  import opened DiscountCalculator
  import opened Eligibility
  import opened AppliedOfferResponses

  // ---------------------------------------------------------------------
  // Requests and responses
  // ---------------------------------------------------------------------

  /** `CreateOfferRequest`; every field may be null. */
  datatype CreateOfferRequest = CreateOfferRequest(
    code: Option<string>,
    title: Option<string>,
    description: Option<string>,
    offerType: Option<OfferType>,
    discountValue: Option<Money>,
    maxDiscount: Option<Money>,
    minOrderAmount: Option<Money>,
    validFrom: Option<int>,
    validTill: Option<int>,
    totalUsageLimit: Option<int>,
    perUserUsageLimit: Option<int>,
    active: Option<bool>,
    applicableMovieId: Option<string>,
    applicableTheaterId: Option<string>,
    paymentPartner: Option<string>,
    assignedUserId: Option<string>,
    offerOrigin: Option<OfferOrigin>,
    sourceApp: Option<string>,
    sourceOfferCode: Option<string>)

  /** `ApplyOfferRequest`; every field may be null. */
  datatype ApplyOfferRequest = ApplyOfferRequest(
    code: Option<string>,
    userId: Option<string>,
    bookingId: Option<string>,
    movieId: Option<string>,
    theaterId: Option<string>,
    paymentPartner: Option<string>,
    sourceApp: Option<string>,
    orderAmount: Option<Money>)

  /** `ApplyOfferResponse`. */
  datatype ApplyOfferResponse = ApplyOfferResponse(
    code: string,
    bookingId: string,
    orderAmount: Money,
    discountAmount: Money,
    finalPayable: Money)

  // ---------------------------------------------------------------------
  // Normalisation
  // ---------------------------------------------------------------------

  /** `normalizeNullable`: null for a blank value, the trimmed value otherwise. */
  function NormalizeNullable(value: Option<string>): (r: Option<string>)
    ensures r.None? <==> IsBlank(value)
    ensures r.Some? ==> r.value != [] && IsTrimmed(r.value) && r.value == Trim(value.value)
  {
    if IsBlank(value) then None else Some(Trim(value.value))
  }

  /** The form in which codes and aliases are stored: non-empty, trimmed, upper case. */
  predicate IsNormalizedCode(code: string) {
    && code != [] && IsTrimmed(code)
    && forall i :: 0 <= i < |code| ==> UpperChar(code[i]) == code[i]
  }

  /** `normalizeOfferCode`: null for a blank value, the trimmed upper-cased value otherwise. */
  function NormalizeOfferCode(value: Option<string>): (r: Option<string>)
    ensures r.None? <==> IsBlank(value)
    ensures r.Some? ==> IsNormalizedCode(r.value) && r.value == ToUpper(Trim(value.value))
  {
    if IsBlank(value) then None
    else
      ToUpperKeepsTrimmed(Trim(value.value));
      ToUpperIdempotent(Trim(value.value));
      Some(ToUpper(Trim(value.value)))
  }

  /** A stored code normalises to itself. */
  lemma NormalizedCodeIsFixed(code: string)
    requires IsNormalizedCode(code)
    ensures NormalizeOfferCode(Some(code)) == Some(code)
  {
    assert !IsBlank(Some(code)) by {
      assert !IsSpace(code[0]);
    }
    TrimOfTrimmed(code);
    assert ToUpper(code) == code by {
      assert forall k :: 0 <= k < |code| ==> ToUpper(code)[k] == code[k];
    }
  }

  /** Normalising a code twice is normalising it once. */
  lemma NormalizeOfferCodeIdempotent(value: Option<string>)
    ensures NormalizeOfferCode(NormalizeOfferCode(value)) == NormalizeOfferCode(value)
  {
    if NormalizeOfferCode(value).Some? {
      NormalizedCodeIsFixed(NormalizeOfferCode(value).value);
    }
  }

  /**
   * Spaces around a code and the case of its letters do not matter: any
   * padding of `t`, in any case, normalises to `t` upper-cased.
   */
  lemma NormalizeIgnoresPaddingAndCase(pre: string, t: string, post: string, u: string)
    requires forall k :: 0 <= k < |pre| ==> IsSpace(pre[k])
    requires forall k :: 0 <= k < |post| ==> IsSpace(post[k])
    requires t != [] && IsTrimmed(t)
    requires EqualsIgnoreCase(t, u)
    ensures NormalizeOfferCode(Some(pre + t + post)) == Some(ToUpper(u))
  {
    TrimPadded(pre, t, post);
    EqualsIgnoreCaseIsUpperEquality(t, u);
  }

  // ---------------------------------------------------------------------
  // Validation
  // ---------------------------------------------------------------------

  /** The fields `createOffer` refuses to do without: a non-blank code and title, and the rest non-null. */
  predicate HasRequiredFields(request: CreateOfferRequest) {
    && !IsBlank(request.code) && !IsBlank(request.title)
    && request.offerType.Some? && request.discountValue.Some? && request.minOrderAmount.Some?
    && request.validFrom.Some? && request.validTill.Some?
    && request.perUserUsageLimit.Some? && request.offerOrigin.Some?
  }

  /**
   * `validateCreateRequest`: the checks in the source's order, each with its
   * own message. It passes exactly when every required field is there and
   * every value is in range. The window may be empty but not reversed.
   */
  function ValidateCreateRequest(request: CreateOfferRequest): (o: Outcome<ServiceError>)
    ensures o.Pass? <==> HasRequiredFields(request) && SatisfiesCreateRules(request)
    ensures o.Fail? ==> o.error.OfferValidation?
    ensures !HasRequiredFields(request) ==> o == Fail(OfferValidation("Missing required fields"))
  {
    if !HasRequiredFields(request) then Fail(OfferValidation("Missing required fields"))
    else CheckCreateRules(request)
  }

  /** The range checks of `validateCreateRequest`, all passed. */
  predicate PassesRangeChecks(request: CreateOfferRequest)
    requires HasRequiredFields(request)
  {
    && request.discountValue.value > 0
    && request.minOrderAmount.value >= 0
    && request.validFrom.value <= request.validTill.value
    && (request.totalUsageLimit.None? || request.totalUsageLimit.value > 0)
    && request.perUserUsageLimit.value > 0
    && (request.offerType.value == Percentage ==> request.discountValue.value <= HundredPercent)
  }

  /** The source checks of `validateCreateRequest`, all passed. */
  predicate PassesSourceChecks(request: CreateOfferRequest)
    requires HasRequiredFields(request)
  {
    && (request.offerOrigin.value == ThirdParty ==> !IsBlank(request.sourceApp) && !IsBlank(request.sourceOfferCode))
    && (!IsBlank(request.sourceOfferCode) ==> !IsBlank(request.sourceApp))
  }

  /** The rules `createOffer` checks once every required field is there. */
  predicate SatisfiesCreateRules(request: CreateOfferRequest)
    requires HasRequiredFields(request)
  {
    PassesRangeChecks(request) && PassesSourceChecks(request)
  }

  /** The checks on amounts, window, limits and percentage, in the service's order. */
  function CheckRanges(request: CreateOfferRequest): (o: Outcome<ServiceError>)
    requires HasRequiredFields(request)
    ensures o.Pass? <==> PassesRangeChecks(request)
    ensures o.Fail? ==> o.error.OfferValidation?
    ensures request.discountValue.value <= 0 ==> o == Fail(OfferValidation("discountValue must be greater than 0"))
  {
    if request.discountValue.value <= 0 then
      Fail(OfferValidation("discountValue must be greater than 0"))
    else if request.minOrderAmount.value < 0 then
      Fail(OfferValidation("minOrderAmount cannot be negative"))
    else if request.validTill.value < request.validFrom.value then
      Fail(OfferValidation("validTill must be after validFrom"))
    else if request.totalUsageLimit.Some? && request.totalUsageLimit.value <= 0 then
      Fail(OfferValidation("totalUsageLimit must be greater than 0"))
    else if request.perUserUsageLimit.value <= 0 then
      Fail(OfferValidation("perUserUsageLimit must be greater than 0"))
    else if request.offerType.value == Percentage && request.discountValue.value > HundredPercent then
      Fail(OfferValidation("Percentage discount cannot be greater than 100"))
    else Pass
  }

  /** Each range check fails with its own message once the checks before it pass. */
  lemma CheckRangesMessages(request: CreateOfferRequest)
    requires HasRequiredFields(request)
    ensures request.discountValue.value > 0 && request.minOrderAmount.value < 0 ==>
              CheckRanges(request) == Fail(OfferValidation("minOrderAmount cannot be negative"))
    ensures request.discountValue.value > 0 && request.minOrderAmount.value >= 0
            && request.validTill.value < request.validFrom.value ==>
              CheckRanges(request) == Fail(OfferValidation("validTill must be after validFrom"))
    ensures request.discountValue.value > 0 && request.minOrderAmount.value >= 0
            && request.validFrom.value <= request.validTill.value
            && request.totalUsageLimit.Some? && request.totalUsageLimit.value <= 0 ==>
              CheckRanges(request) == Fail(OfferValidation("totalUsageLimit must be greater than 0"))
    ensures request.discountValue.value > 0 && request.minOrderAmount.value >= 0
            && request.validFrom.value <= request.validTill.value
            && (request.totalUsageLimit.None? || request.totalUsageLimit.value > 0)
            && request.perUserUsageLimit.value <= 0 ==>
              CheckRanges(request) == Fail(OfferValidation("perUserUsageLimit must be greater than 0"))
    ensures request.discountValue.value > 0 && request.minOrderAmount.value >= 0
            && request.validFrom.value <= request.validTill.value
            && (request.totalUsageLimit.None? || request.totalUsageLimit.value > 0)
            && request.perUserUsageLimit.value > 0
            && request.offerType.value == Percentage && request.discountValue.value > HundredPercent ==>
              CheckRanges(request) == Fail(OfferValidation("Percentage discount cannot be greater than 100"))
  {
    if request.discountValue.value <= 0 {
    } else if request.minOrderAmount.value < 0 {
    } else if request.validTill.value < request.validFrom.value {
    } else if request.totalUsageLimit.Some? && request.totalUsageLimit.value <= 0 {
    } else if request.perUserUsageLimit.value <= 0 {
    } else {
    }
  }

  /** Messages of the create-offer failures after the range checks. */
  const DuplicateCodeMessage := "Offer code already exists"
  const DuplicateSourceCodeMessage := "Source offer code already exists"
  const ThirdPartySourceMessage := "sourceApp and sourceOfferCode are required for THIRD_PARTY offers"
  const SourceAppMessage := "sourceApp is required when sourceOfferCode is provided"

  /**
   * The checks on source app and alias: a third-party offer needs both, and
   * an alias needs a source app. The message depends on the offer's origin.
   */
  function CheckSourceFields(request: CreateOfferRequest): (o: Outcome<ServiceError>)
    requires HasRequiredFields(request)
    ensures o.Pass? <==> PassesSourceChecks(request)
    ensures o.Fail? && request.offerOrigin.value == ThirdParty ==>
              o == Fail(OfferValidation(ThirdPartySourceMessage))
    ensures o.Fail? && request.offerOrigin.value == Internal ==>
              o == Fail(OfferValidation(SourceAppMessage))
  {
    var appBlank := IsBlank(request.sourceApp);
    var codeBlank := IsBlank(request.sourceOfferCode);
    if request.offerOrigin.value == ThirdParty then
      if appBlank || codeBlank then
        Fail(OfferValidation(ThirdPartySourceMessage))
      else Pass
    else if !codeBlank && appBlank then
      Fail(OfferValidation(SourceAppMessage))
    else Pass
  }

  /**
   * The checks after the required fields: the range checks first, and the
   * source checks only once those pass.
   */
  function CheckCreateRules(request: CreateOfferRequest): (o: Outcome<ServiceError>)
    requires HasRequiredFields(request)
    ensures o.Pass? <==> SatisfiesCreateRules(request)
    ensures o.Fail? ==> o.error.OfferValidation?
    ensures !PassesRangeChecks(request) ==> o == CheckRanges(request)
    ensures PassesRangeChecks(request) ==> o == CheckSourceFields(request)
  {
    match CheckRanges(request)
    case Fail(e) => Fail(e)
    case Pass => CheckSourceFields(request)
  }

  /** `validateApplyRequest`: code, user id, booking id and order amount are required. */
  function ValidateApplyRequest(request: ApplyOfferRequest): (o: Outcome<ServiceError>)
    ensures o.Pass? <==>
              !IsBlank(request.code) && !IsBlank(request.userId) && !IsBlank(request.bookingId)
              && request.orderAmount.Some?
    ensures o.Fail? ==> o.error == OfferValidation("code, userId, bookingId and orderAmount are required")
  {
    if IsBlank(request.code) || IsBlank(request.userId) || IsBlank(request.bookingId) || request.orderAmount.None? then
      Fail(OfferValidation("code, userId, bookingId and orderAmount are required"))
    else Pass
  }

  /** The booking an apply request describes, once it has passed validation. */
  function ApplyContext(request: ApplyOfferRequest): BookingContext
    requires ValidateApplyRequest(request).Pass?
  {
    BookingContext(request.userId.value, request.movieId, request.theaterId, request.paymentPartner,
                   request.sourceApp, request.orderAmount.value)
  }

  // ---------------------------------------------------------------------
  // The stored offers
  // ---------------------------------------------------------------------

  /** What `createOffer`'s validation guarantees of every offer it stores. */
  predicate WellFormedOffer(offer: Offer) {
    && IsNormalizedCode(offer.code)
    && offer.discountValue > 0
    && offer.minOrderAmount >= 0
    && offer.validFrom <= offer.validTill
    && (offer.totalUsageLimit.None? || offer.totalUsageLimit.value > 0)
    && offer.perUserUsageLimit > 0
    && (offer.offerType == Percentage ==> offer.discountValue <= HundredPercent)
    && (offer.offerOrigin == ThirdParty ==> offer.sourceApp.Some? && offer.sourceOfferCode.Some?)
    && (offer.sourceOfferCode.Some? ==> offer.sourceApp.Some? && IsNormalizedCode(offer.sourceOfferCode.value))
  }

  /**
   * The offer the builder in `createOffer` assembles: normalised code and
   * alias, trimmed title, blank scope fields turned into null, and `active`
   * only when the request says true. Whatever passed validation is well formed.
   */
  function BuildOffer(id: nat, request: CreateOfferRequest): (offer: Offer)
    requires ValidateCreateRequest(request).Pass?
    ensures WellFormedOffer(offer)
    ensures offer.id == id
    ensures offer.code == ToUpper(Trim(request.code.value))
    ensures offer.sourceOfferCode == NormalizeOfferCode(request.sourceOfferCode)
    ensures offer.active <==> request.active == Some(true)
    ensures offer.title == Trim(request.title.value) && offer.description == request.description
    ensures offer.offerType == request.offerType.value && offer.offerOrigin == request.offerOrigin.value
    ensures offer.discountValue == request.discountValue.value && offer.maxDiscount == request.maxDiscount
    ensures offer.minOrderAmount == request.minOrderAmount.value
    ensures offer.validFrom == request.validFrom.value && offer.validTill == request.validTill.value
    ensures offer.totalUsageLimit == request.totalUsageLimit
    ensures offer.perUserUsageLimit == request.perUserUsageLimit.value
    ensures offer.applicableMovieId == NormalizeNullable(request.applicableMovieId)
    ensures offer.applicableTheaterId == NormalizeNullable(request.applicableTheaterId)
    ensures offer.paymentPartner == NormalizeNullable(request.paymentPartner)
    ensures offer.assignedUserId == NormalizeNullable(request.assignedUserId)
    ensures offer.sourceApp == NormalizeNullable(request.sourceApp)
  {
    Offer(
      id,
      NormalizeOfferCode(request.code).value,
      Trim(request.title.value),
      request.description,
      request.offerType.value,
      request.discountValue.value,
      request.maxDiscount,
      request.minOrderAmount.value,
      request.validFrom.value,
      request.validTill.value,
      request.totalUsageLimit,
      request.perUserUsageLimit.value,
      request.active == Some(true),
      NormalizeNullable(request.applicableMovieId),
      NormalizeNullable(request.applicableTheaterId),
      NormalizeNullable(request.paymentPartner),
      NormalizeNullable(request.assignedUserId),
      request.offerOrigin.value,
      NormalizeNullable(request.sourceApp),
      NormalizeOfferCode(request.sourceOfferCode))
  }

  /** The unique `code` column. */
  ghost predicate UniqueCodes(offers: seq<Offer>) {
    forall i, j :: 0 <= i < j < |offers| ==> offers[i].code != offers[j].code
  }

  /** The unique `source_offer_code` column (nulls do not collide). */
  ghost predicate UniqueAliases(offers: seq<Offer>) {
    forall i, j :: 0 <= i < j < |offers| && offers[i].sourceOfferCode.Some? ==>
      offers[i].sourceOfferCode != offers[j].sourceOfferCode
  }

  /** The unique `booking_id` column. */
  ghost predicate UniqueBookings(redemptions: seq<OfferRedemption>) {
    forall i, j :: 0 <= i < j < |redemptions| ==> redemptions[i].bookingId != redemptions[j].bookingId
  }

  /** No offer has more redemptions than its global limit, nor any user more than the per-user limit. */
  ghost predicate WithinUsageLimits(offers: seq<Offer>, redemptions: seq<OfferRedemption>) {
    && (forall i :: 0 <= i < |offers| && offers[i].totalUsageLimit.Some? ==>
          CountByOffer(redemptions, i) <= offers[i].totalUsageLimit.value)
    && (forall i, userId :: 0 <= i < |offers| ==>
          CountByOfferAndUserId(redemptions, i, userId) <= offers[i].perUserUsageLimit)
  }

  /** What a recorded redemption always satisfies on its own. */
  predicate WellFormedRedemption(offers: seq<Offer>, redemption: OfferRedemption) {
    && redemption.offerId < |offers|
    && 0 < redemption.discountAmount <= redemption.orderAmount
    && redemption.userId != [] && IsTrimmed(redemption.userId)
    && redemption.bookingId != [] && IsTrimmed(redemption.bookingId)
  }

  /** The ledger invariant: ids are positions, offers well formed, keys unique, limits respected. */
  ghost predicate LedgerInvariant(offers: seq<Offer>, redemptions: seq<OfferRedemption>) {
    && (forall i :: 0 <= i < |offers| ==> offers[i].id == i && WellFormedOffer(offers[i]))
    && UniqueCodes(offers)
    && UniqueAliases(offers)
    && (forall k :: 0 <= k < |redemptions| ==> WellFormedRedemption(offers, redemptions[k]))
    && UniqueBookings(redemptions)
    && WithinUsageLimits(offers, redemptions)
  }

  /** Adding an offer whose code and alias are both new keeps the invariant. */
  lemma AddOfferKeepsInvariant(offers: seq<Offer>, redemptions: seq<OfferRedemption>, offer: Offer)
    requires LedgerInvariant(offers, redemptions)
    requires offer.id == |offers| && WellFormedOffer(offer)
    requires FindByCode(offers, offer.code).None?
    requires offer.sourceOfferCode.None? || FindBySourceOfferCode(offers, offer.sourceOfferCode.value).None?
    ensures LedgerInvariant(offers + [offer], redemptions)
  {
    var offers' := offers + [offer];
    AddOfferKeepsKeysUnique(offers, offer);
    assert forall k :: 0 <= k < |redemptions| ==> WellFormedRedemption(offers', redemptions[k]) by {
      forall k | 0 <= k < |redemptions| ensures WellFormedRedemption(offers', redemptions[k]) {
        assert WellFormedRedemption(offers, redemptions[k]);
      }
    }
    assert forall i :: 0 <= i < |offers'| ==> offers'[i].id == i && WellFormedOffer(offers'[i]);
    forall i, userId | 0 <= i < |offers'|
      ensures CountByOfferAndUserId(redemptions, i, userId) <= offers'[i].perUserUsageLimit
    {
      if i == |offers| {
        assert forall k :: 0 <= k < |redemptions| ==> redemptions[k].offerId != i;
        NoRedemptionsOfUnknownOffer(redemptions, i, userId);
      }
    }
    forall i | 0 <= i < |offers'| && offers'[i].totalUsageLimit.Some?
      ensures CountByOffer(redemptions, i) <= offers'[i].totalUsageLimit.value
    {
      if i == |offers| {
        NoRedemptionsOfUnknownOffer(redemptions, i, []);
      }
    }
  }

  /** A code and an alias that no stored offer has yet keep both columns unique. */
  lemma AddOfferKeepsKeysUnique(offers: seq<Offer>, offer: Offer)
    requires UniqueCodes(offers) && UniqueAliases(offers)
    requires FindByCode(offers, offer.code).None?
    requires offer.sourceOfferCode.None? || FindBySourceOfferCode(offers, offer.sourceOfferCode.value).None?
    ensures UniqueCodes(offers + [offer]) && UniqueAliases(offers + [offer])
  {
    var offers' := offers + [offer];
    forall i, j | 0 <= i < j < |offers'| ensures offers'[i].code != offers'[j].code {
      if j == |offers| {
        assert offers'[i] == offers[i];
      }
    }
    forall i, j | 0 <= i < j < |offers'| && offers'[i].sourceOfferCode.Some?
      ensures offers'[i].sourceOfferCode != offers'[j].sourceOfferCode
    {
      if j == |offers| {
        assert offers'[i] == offers[i];
      }
    }
  }

  /** An offer that no redemption refers to has counts of zero. */
  lemma {:induction false} NoRedemptionsOfUnknownOffer(redemptions: seq<OfferRedemption>, offerId: nat, userId: string)
    requires forall k :: 0 <= k < |redemptions| ==> redemptions[k].offerId != offerId
    ensures CountByOffer(redemptions, offerId) == 0
    ensures CountByOfferAndUserId(redemptions, offerId, userId) == 0
  {
    if redemptions != [] {
      NoRedemptionsOfUnknownOffer(redemptions[..|redemptions| - 1], offerId, userId);
    }
  }

  /**
   * Recording a redemption whose offer was still under both limits, for a
   * booking id not yet used, keeps the invariant: no count passes its limit
   * and booking ids stay unique.
   */
  lemma RecordKeepsInvariant(offers: seq<Offer>, redemptions: seq<OfferRedemption>, r: OfferRedemption)
    requires LedgerInvariant(offers, redemptions)
    requires WellFormedRedemption(offers, r)
    requires offers[r.offerId].totalUsageLimit.Some? ==>
               CountByOffer(redemptions, r.offerId) < offers[r.offerId].totalUsageLimit.value
    requires CountByOfferAndUserId(redemptions, r.offerId, r.userId) < offers[r.offerId].perUserUsageLimit
    requires !ExistsByBookingId(redemptions, r.bookingId)
    ensures LedgerInvariant(offers, redemptions + [r])
  {
    var redemptions' := redemptions + [r];
    forall i | 0 <= i < |offers| && offers[i].totalUsageLimit.Some?
      ensures CountByOffer(redemptions', i) <= offers[i].totalUsageLimit.value
    {
      CountByOfferAppend(redemptions, r, i);
    }
    forall i, userId | 0 <= i < |offers|
      ensures CountByOfferAndUserId(redemptions', i, userId) <= offers[i].perUserUsageLimit
    {
      CountByOfferAndUserIdAppend(redemptions, r, i, userId);
    }
    assert forall k :: 0 <= k < |redemptions| ==> redemptions'[k] == redemptions[k];
  }

  /** Every stored offer sits at the position of its id. */
  lemma OfferAtItsId(offers: seq<Offer>, redemptions: seq<OfferRedemption>, offer: Offer)
    requires LedgerInvariant(offers, redemptions)
    requires offer in offers
    ensures offer.id < |offers| && offers[offer.id] == offer
  {
    var k :| 0 <= k < |offers| && offers[k] == offer;
  }

  // ---------------------------------------------------------------------
  // Resolving the code given to applyOffer
  // ---------------------------------------------------------------------

  /**
   * `findOfferForApply`: normalise the code, then look it up as a code and,
   * failing that, as an alias. An alias is only reached when no offer has
   * that code.
   */
  function FindOfferForApply(offers: seq<Offer>, requestedCode: Option<string>): (r: Result<Offer, ServiceError>)
    ensures IsBlank(requestedCode) ==> r == Failure(OfferValidation("code is required"))
    ensures !IsBlank(requestedCode) ==>
              var code := ToUpper(Trim(requestedCode.value));
              && (r.Success? ==>
                    && r.value in offers
                    && (|| r.value.code == code
                        || ((forall k :: 0 <= k < |offers| ==> offers[k].code != code)
                            && r.value.sourceOfferCode == Some(code))))
              && (r.Failure? <==>
                    forall k :: 0 <= k < |offers| ==> offers[k].code != code && offers[k].sourceOfferCode != Some(code))
              && (r.Failure? ==> r.error == OfferValidation("Offer not found"))
  {
    match NormalizeOfferCode(requestedCode)
    case None => Failure(OfferValidation("code is required"))
    case Some(code) =>
      match FindByCode(offers, code)
      case Some(offer) => Success(offer)
      case None =>
        match FindBySourceOfferCode(offers, code)
        case Some(offer) => Success(offer)
        case None => Failure(OfferValidation("Offer not found"))
  }

  /** With unique codes, the code lookup finds the one offer that has it. */
  lemma {:induction false} FindByCodeUnique(offers: seq<Offer>, k: nat)
    requires UniqueCodes(offers)
    requires k < |offers|
    ensures FindByCode(offers, offers[k].code) == Some(offers[k])
  {
    if k > 0 {
      assert offers[0].code != offers[k].code;
      assert UniqueCodes(offers[1..]) by {
        forall i, j | 0 <= i < j < |offers[1..]| ensures offers[1..][i].code != offers[1..][j].code {
          assert offers[1..][i] == offers[i + 1] && offers[1..][j] == offers[j + 1];
        }
      }
      FindByCodeUnique(offers[1..], k - 1);
    }
  }

  /** With unique aliases, the alias lookup finds the one offer that has it. */
  lemma {:induction false} FindBySourceOfferCodeUnique(offers: seq<Offer>, k: nat)
    requires UniqueAliases(offers)
    requires k < |offers| && offers[k].sourceOfferCode.Some?
    ensures FindBySourceOfferCode(offers, offers[k].sourceOfferCode.value) == Some(offers[k])
  {
    if k > 0 {
      assert offers[0].sourceOfferCode != offers[k].sourceOfferCode;
      assert UniqueAliases(offers[1..]) by {
        forall i, j | 0 <= i < j < |offers[1..]| && offers[1..][i].sourceOfferCode.Some?
          ensures offers[1..][i].sourceOfferCode != offers[1..][j].sourceOfferCode
        {
          assert offers[1..][i] == offers[i + 1] && offers[1..][j] == offers[j + 1];
        }
      }
      FindBySourceOfferCodeUnique(offers[1..], k - 1);
    }
  }

  /**
   * Applying by alias: a code that normalises to an offer's alias resolves
   * to that offer (so "paytm50" reaches the offer "INT_BANK50" whose alias
   * is "PAYTM50"), provided no offer has that text as its own code.
   */
  lemma AliasResolvesToOwner(offers: seq<Offer>, k: nat, requested: string)
    requires UniqueAliases(offers)
    requires !IsBlank(Some(requested))
    requires k < |offers| && NormalizeOfferCode(Some(requested)) == offers[k].sourceOfferCode
    requires forall i :: 0 <= i < |offers| ==> offers[i].code != offers[k].sourceOfferCode.value
    ensures FindOfferForApply(offers, Some(requested)) == Success(offers[k])
  {
    FindBySourceOfferCodeUnique(offers, k);
  }

  /** An offer's own code shadows any alias spelled the same: the lookup never reaches the alias. */
  lemma CodeShadowsAlias(offers: seq<Offer>, requested: string, i: nat)
    requires !IsBlank(Some(requested))
    requires i < |offers| && offers[i].code == ToUpper(Trim(requested))
    ensures FindOfferForApply(offers, Some(requested)).Success?
    ensures FindOfferForApply(offers, Some(requested)).value.code == ToUpper(Trim(requested))
  {
  }

  /** An offer's own code always resolves to that offer. */
  lemma CodeResolvesToOwner(offers: seq<Offer>, k: nat)
    requires UniqueCodes(offers)
    requires k < |offers| && IsNormalizedCode(offers[k].code)
    ensures FindOfferForApply(offers, Some(offers[k].code)) == Success(offers[k])
  {
    NormalizedCodeIsFixed(offers[k].code);
    FindByCodeUnique(offers, k);
  }

  // ---------------------------------------------------------------------
  // The outcome of applyOffer
  // ---------------------------------------------------------------------

  /** What a successful `applyOffer` saves and what it answers. */
  datatype Applied = Applied(redemption: OfferRedemption, response: ApplyOfferResponse)

  /**
   * The checks of `applyOffer`, in the order the service makes them. The
   * duplicate check before the lookup compares the booking id as given,
   * while the saved row holds it trimmed, and the unique `booking_id` column
   * refuses a trimmed id that is already there.
   */
  function ApplyOutcome(offers: seq<Offer>, redemptions: seq<OfferRedemption>, request: ApplyOfferRequest, now: int)
    : (r: Result<Applied, ServiceError>)
    ensures ValidateApplyRequest(request).Fail? ==> r == Failure(ValidateApplyRequest(request).error)
    ensures ValidateApplyRequest(request).Pass? && ExistsByBookingId(redemptions, request.bookingId.value) ==>
              r == Failure(OfferValidation("Offer already applied for this booking"))
    ensures ValidateApplyRequest(request).Pass? && !ExistsByBookingId(redemptions, request.bookingId.value)
            && FindOfferForApply(offers, request.code).Failure? ==>
              r == Failure(FindOfferForApply(offers, request.code).error)
    ensures ValidateApplyRequest(request).Pass? && !ExistsByBookingId(redemptions, request.bookingId.value)
            && FindOfferForApply(offers, request.code).Success?
            && EvaluateSingleOffer(FindOfferForApply(offers, request.code).value, ApplyContext(request), now, redemptions).None? ==>
              r == Failure(OfferValidation("Offer is not eligible for this booking"))
    ensures r.Success? <==>
              && ValidateApplyRequest(request).Pass?
              && !ExistsByBookingId(redemptions, request.bookingId.value)
              && FindOfferForApply(offers, request.code).Success?
              && Qualifies(FindOfferForApply(offers, request.code).value, ApplyContext(request), now, redemptions)
              && !ExistsByBookingId(redemptions, Trim(request.bookingId.value))
    ensures r.Success? ==>
              var offer := FindOfferForApply(offers, request.code).value;
              var saved := r.value.redemption;
              && saved.offerId == offer.id
              && saved.userId == Trim(request.userId.value)
              && saved.bookingId == Trim(request.bookingId.value)
              && saved.orderAmount == request.orderAmount.value
              && saved.discountAmount == CalculateDiscount(offer, request.orderAmount.value)
              && 0 < saved.discountAmount <= saved.orderAmount
              && saved.redeemedAt == now
              && r.value.response.code == offer.code
              && r.value.response.bookingId == saved.bookingId
              && r.value.response.orderAmount == saved.orderAmount
              && r.value.response.discountAmount == saved.discountAmount
              && r.value.response.finalPayable == saved.orderAmount - saved.discountAmount
  {
    match ValidateApplyRequest(request)
    case Fail(e) => Failure(e)
    case Pass =>
      if ExistsByBookingId(redemptions, request.bookingId.value) then
        Failure(OfferValidation("Offer already applied for this booking"))
      else
        match FindOfferForApply(offers, request.code)
        case Failure(e) => Failure(e)
        case Success(offer) =>
          var ctx := ApplyContext(request);
          match EvaluateSingleOffer(offer, ctx, now, redemptions)
          case None => Failure(OfferValidation("Offer is not eligible for this booking"))
          case Some(evaluated) =>
            var bookingId := Trim(request.bookingId.value);
            if ExistsByBookingId(redemptions, bookingId) then
              Failure(UniqueViolation("booking_id"))
            else
              var redemption := OfferRedemption(offer.id, Trim(request.userId.value), bookingId, ctx.orderAmount,
                                                evaluated.estimatedDiscount, now);
              Success(Applied(redemption, ApplyOfferResponse(offer.code, bookingId, ctx.orderAmount,
                                                             evaluated.estimatedDiscount, evaluated.finalPayable)))
  }

  /** Saving the redemption of a successful outcome keeps the invariant. */
  lemma ApplyKeepsInvariant(offers: seq<Offer>, redemptions: seq<OfferRedemption>, request: ApplyOfferRequest, now: int)
    requires LedgerInvariant(offers, redemptions)
    requires ApplyOutcome(offers, redemptions, request, now).Success?
    ensures LedgerInvariant(offers, redemptions + [ApplyOutcome(offers, redemptions, request, now).value.redemption])
  {
    var offer := FindOfferForApply(offers, request.code).value;
    OfferAtItsId(offers, redemptions, offer);
    RecordKeepsInvariant(offers, redemptions, ApplyOutcome(offers, redemptions, request, now).value.redemption);
  }

  // ---------------------------------------------------------------------
  // The service and its ledger
  // ---------------------------------------------------------------------

  class OfferService {
    /** The rows of the offer repository, `offers[i].id == i`. */
    var offers: seq<Offer>
    /** The rows of the redemption repository, in the order they were saved. */
    var redemptions: seq<OfferRedemption>

    ghost predicate Valid()
      reads this
    {
      LedgerInvariant(offers, redemptions)
    }

    constructor ()
      ensures Valid()
      ensures offers == [] && redemptions == []
    {
      offers := [];
      redemptions := [];
    }

    /**
     * `createOffer`: validate, refuse an existing code or alias, then save the
     * built offer as the next row. Nothing changes on failure.
     */
    method CreateOffer(request: CreateOfferRequest) returns (r: Result<Offer, ServiceError>)
      requires Valid()
      modifies this
      ensures Valid()
      ensures redemptions == old(redemptions)
      ensures ValidateCreateRequest(request).Fail? ==> r == Failure(ValidateCreateRequest(request).error)
      ensures ValidateCreateRequest(request).Pass? && FindByCode(old(offers), ToUpper(Trim(request.code.value))).Some? ==>
                r == Failure(OfferValidation(DuplicateCodeMessage))
      ensures ValidateCreateRequest(request).Pass? && FindByCode(old(offers), ToUpper(Trim(request.code.value))).None?
              && !IsBlank(request.sourceOfferCode)
              && FindBySourceOfferCode(old(offers), ToUpper(Trim(request.sourceOfferCode.value))).Some? ==>
                r == Failure(OfferValidation(DuplicateSourceCodeMessage))
      ensures r.Success? <==>
                && ValidateCreateRequest(request).Pass?
                && FindByCode(old(offers), ToUpper(Trim(request.code.value))).None?
                && (IsBlank(request.sourceOfferCode)
                    || FindBySourceOfferCode(old(offers), ToUpper(Trim(request.sourceOfferCode.value))).None?)
      ensures r.Success? ==> r.value == BuildOffer(|old(offers)|, request) && offers == old(offers) + [r.value]
      ensures r.Failure? ==> offers == old(offers)
    {
      var validation := ValidateCreateRequest(request);
      if validation.Fail? {
        return Failure(validation.error);
      }
      var normalizedCode := NormalizeOfferCode(request.code).value;
      if FindByCode(offers, normalizedCode).Some? {
        return Failure(OfferValidation(DuplicateCodeMessage));
      }
      var normalizedSourceOfferCode := NormalizeOfferCode(request.sourceOfferCode);
      if normalizedSourceOfferCode.Some? && FindBySourceOfferCode(offers, normalizedSourceOfferCode.value).Some? {
        return Failure(OfferValidation(DuplicateSourceCodeMessage));
      }
      var offer := BuildOffer(|offers|, request);
      AddOfferKeepsInvariant(offers, redemptions, offer);
      offers := offers + [offer];
      return Success(offer);
    }

    /**
     * `applyOffer`: work out the outcome of the request against the current
     * ledger and, when it succeeds, save its one redemption. On any failure
     * nothing is saved.
     */
    method ApplyOffer(request: ApplyOfferRequest, now: int) returns (r: Result<ApplyOfferResponse, ServiceError>)
      requires Valid()
      modifies this
      ensures Valid()
      ensures offers == old(offers)
      ensures var outcome := ApplyOutcome(old(offers), old(redemptions), request, now);
              && (outcome.Success? ==>
                    r == Success(outcome.value.response) && redemptions == old(redemptions) + [outcome.value.redemption])
              && (outcome.Failure? ==> r == Failure(outcome.error) && redemptions == old(redemptions))
    {
      var outcome := ApplyOutcome(offers, redemptions, request, now);
      if outcome.Failure? {
        return Failure(outcome.error);
      }
      ApplyKeepsInvariant(offers, redemptions, request, now);
      redemptions := redemptions + [outcome.value.redemption];
      return Success(outcome.value.response);
    }

    /**
     * `listAppliedOffers`: every redemption joined with its offer, newest
     * first. Each summary shows the order less the discount, which is never
     * negative here because no recorded discount exceeds its order.
     */
    function AppliedOffers(): (r: seq<AppliedOfferResponse>)
      reads this
      requires Valid()
      ensures JoinsResolve(offers, redemptions) && r == ListAppliedOffers(offers, redemptions)
    {
      InvariantResolvesJoins(offers, redemptions);
      ListAppliedOffers(offers, redemptions)
    }
  }

  /** Every redemption refers to a stored offer and none discounts more than its order. */
  ghost predicate JoinsResolve(offers: seq<Offer>, redemptions: seq<OfferRedemption>) {
    forall k :: 0 <= k < |redemptions| ==>
      && redemptions[k].offerId < |offers|
      && offers[redemptions[k].offerId].id == redemptions[k].offerId
      && 0 < redemptions[k].discountAmount <= redemptions[k].orderAmount
  }

  lemma InvariantResolvesJoins(offers: seq<Offer>, redemptions: seq<OfferRedemption>)
    requires LedgerInvariant(offers, redemptions)
    ensures JoinsResolve(offers, redemptions)
  {
  }

  /** The redemptions, last saved first, each mapped by `AppliedOfferResponse.from`. */
  function ListAppliedOffers(offers: seq<Offer>, redemptions: seq<OfferRedemption>): (r: seq<AppliedOfferResponse>)
    requires JoinsResolve(offers, redemptions)
    ensures |r| == |redemptions|
    ensures forall k :: 0 <= k < |r| ==>
              var redemption := redemptions[|redemptions| - 1 - k];
              && r[k] == From(redemption, offers[redemption.offerId])
              && r[k].finalPayable == redemption.orderAmount - redemption.discountAmount
              && r[k].discountAmount > 0
  {
    if redemptions == [] then []
    else
      var last := redemptions[|redemptions| - 1];
      var earlier := redemptions[..|redemptions| - 1];
      assert JoinsResolve(offers, earlier) by {
        forall k | 0 <= k < |earlier| ensures earlier[k] == redemptions[k] { }
      }
      [From(last, offers[last.offerId])] + ListAppliedOffers(offers, earlier)
  }

  /**
   * A second booking by the same user is refused once the per-user limit of
   * one is used: after a successful apply, a second apply with the same
   * code by the same user fails, whatever its booking and amount.
   */
  method SecondBookingBySameUserRefused(service: OfferService, first: ApplyOfferRequest, second: ApplyOfferRequest, now: int)
    returns (r1: Result<ApplyOfferResponse, ServiceError>, r2: Result<ApplyOfferResponse, ServiceError>)
    requires service.Valid()
    requires ValidateApplyRequest(first).Pass? && ValidateApplyRequest(second).Pass?
    requires second.code == first.code && Trim(second.userId.value) == Trim(first.userId.value)
    requires FindOfferForApply(service.offers, first.code).Success?
    requires FindOfferForApply(service.offers, first.code).value.perUserUsageLimit == 1
    modifies service
    ensures r1.Success? ==> r2.Failure?
  {
    r1 := service.ApplyOffer(first, now);
    r2 := service.ApplyOffer(second, now);
  }
}
