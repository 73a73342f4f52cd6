# Movie offer service: a Dafny model of `OfferService`

This project models the business rules of a service that issues and redeems
discount offers for movie-ticket bookings, and proves properties of them.

- **Discount calculator** (`DiscountCalculator`). It computes a percentage or flat discount.
  The discount is capped first by the offer's `maxDiscount`, then by the order amount.
  Percentages are rounded HALF_UP to cents.
- **Eligibility evaluator** (`Eligibility`). It runs the short-circuit chain of checks in `evaluateSingleOffer`:
  - the offer is active and the time is inside its validity window;
  - the order meets the minimum amount;
  - movie, theater and payment-partner scopes match;
  - the offer is not assigned to another user;
  - a third-party offer matches the source app;
  - the global and per-user usage limits are not used up;
  - the discount is positive.
- **Ranked evaluation** (`OfferRanking`). `evaluateOffers` maps every active offer through the evaluator, drops the ineligible ones and sorts the rest by discount, largest first.
- **Ledger and workflows** (`Service`). The class `OfferService` holds the two repositories as sequences.
  - `CreateOffer` validates a request, normalises its code and alias, refuses duplicates and saves the offer.
  - `ApplyOutcome` holds the checks of `applyOffer`, and the method `ApplyOffer` applies its result to the ledger. A booking that already has a redemption is refused. The code is then resolved, first as a code and then as an alias. The offer is re-evaluated, and exactly one redemption is saved.
  - `Valid()` is the ledger invariant. Ids are positions and every stored offer passed validation. Code, alias and booking id are each unique. No offer has more redemptions than `totalUsageLimit`, and no (offer, user) pair has more than `perUserUsageLimit`.
- **Redemption summary** (`AppliedOfferResponses`). `AppliedOfferResponse.from` maps a redemption and its offer to the summary that lists applied offers.

Modelling choices:
- Money is integer cents, because every money column has scale 2.
- Times are integers on one clock. The current time is the parameter `now`.
- Strings follow Java's `trim`, which strips every character at or below U+0020. Case folding is ASCII only.
- The repositories are pure queries over the two sequences, in insertion order.

Behaviour of the code that the model keeps as written:
- An offer whose `validTill` equals its `validFrom` is accepted. The check uses `isBefore`, so only a reversed window is refused.
- Codes and aliases are unique each in their own column. A new offer's code may equal another offer's alias. Code lookup comes first, so that alias can no longer be reached (`CodeShadowsAlias`).
- The duplicate-booking check before the lookup compares the booking id as given, but the saved row holds it trimmed. A padded id that is already stored, such as `" booking-1"`, passes that check. The unique `booking_id` column then refuses it. The model returns `UniqueViolation("booking_id")`, a database error rather than the "already applied" message. The ledger stays unchanged either way, so booking ids remain unique.
- `maxDiscount` is not validated, and the order amount of an evaluation request is not checked for sign. A negative cap or amount makes the discount non-positive, and the offer is then ineligible.
- Three repository methods the service calls are not declared in the repositories. Line 289 calls `findByCodeForUpdate` and line 290 calls `findBySourceOfferCodeForUpdate`; they are modelled as the exact lookups by code and by alias (`findByCode`, `findBySourceOfferCode`). Line 79 calls `findAllWithOfferByOrderByRedeemedAtDesc`; it is modelled as all redemptions in reverse save order, each joined to its offer.

## Model

| member | source | states |
|---|---|---|
| JavaStrings.Trim | src/main/java/com/suvrat/movieofferservice/offer/service/OfferService.java:294-296 | the trimmed value neither starts nor ends with a space, and is empty exactly when the input is all spaces |
| JavaStrings.TrimPadded | src/main/java/com/suvrat/movieofferservice/offer/service/OfferService.java:267 | trimming any space-padded trimmed string gives back exactly that string |
| JavaStrings.TrimIdempotent | src/main/java/com/suvrat/movieofferservice/offer/service/OfferService.java:281 | trimming twice equals trimming once |
| JavaStrings.IsBlank | src/main/java/com/suvrat/movieofferservice/offer/service/OfferService.java:294-296 | a value is blank exactly when it is null or empty after `trim` |
| JavaStrings.TrimOfTrimmed | src/main/java/com/suvrat/movieofferservice/offer/service/OfferService.java:281 | `trim` leaves a string that neither starts nor ends with a space unchanged |
| JavaStrings.EqualsIgnoreCaseIsUpperEquality | src/main/java/com/suvrat/movieofferservice/offer/service/OfferService.java:267 | `equalsIgnoreCase` holds exactly when the upper-cased strings are equal |
| JavaStrings.ToUpper | src/main/java/com/suvrat/movieofferservice/offer/service/OfferService.java:281 | the result has the input's length and, at each position, the input's character upper-cased |
| JavaStrings.ToUpperIdempotent | src/main/java/com/suvrat/movieofferservice/offer/service/OfferService.java:281 | upper-casing twice equals upper-casing once |
| JavaStrings.ToUpperKeepsTrimmed | src/main/java/com/suvrat/movieofferservice/offer/service/OfferService.java:281 | upper-casing a trimmed string leaves it trimmed |
| Repositories.CountByOffer | src/main/java/com/suvrat/movieofferservice/offer/repository/OfferRedemptionRepository.java:11 | the global usage count never exceeds the number of redemptions |
| Repositories.CountByOfferAndUserId | src/main/java/com/suvrat/movieofferservice/offer/repository/OfferRedemptionRepository.java:13 | a user's count for an offer never exceeds the offer's global count |
| Repositories.CountByOfferAppend | src/main/java/com/suvrat/movieofferservice/offer/repository/OfferRedemptionRepository.java:11 | saving a redemption raises its own offer's count by one and leaves every other offer's count unchanged |
| Repositories.CountByOfferAndUserIdAppend | src/main/java/com/suvrat/movieofferservice/offer/repository/OfferRedemptionRepository.java:13 | saving a redemption raises only its own (offer, user) count, by one |
| Repositories.CountByOfferAndUserIdPositive | src/main/java/com/suvrat/movieofferservice/offer/repository/OfferRedemptionRepository.java:13 | a user holding a redemption of the offer has a count of at least one |
| Repositories.ExistsByBookingId | src/main/java/com/suvrat/movieofferservice/offer/repository/OfferRedemptionRepository.java:15 | true exactly when some redemption carries that booking id |
| Repositories.FindByCode | src/main/java/com/suvrat/movieofferservice/offer/repository/OfferRepository.java:16 | a found offer is stored and has that code; nothing is found exactly when no offer has it |
| Repositories.FindBySourceOfferCode | src/main/java/com/suvrat/movieofferservice/offer/repository/OfferRepository.java:19 | a found offer is stored and has that alias; nothing is found exactly when no offer has it |
| Repositories.FindByActiveTrue | src/main/java/com/suvrat/movieofferservice/offer/repository/OfferRepository.java:21 | the result holds exactly the stored offers that are active |
| DiscountCalculator.HalfUpQuotient | src/main/java/com/suvrat/movieofferservice/offer/service/OfferService.java:246 | the quotient is within half a unit of the exact value, and ties round away from zero (HALF_UP) |
| DiscountCalculator.PercentageOf | src/main/java/com/suvrat/movieofferservice/offer/service/OfferService.java:246 | the amount is within half a cent of order × percentage / 100, and an exact half cent rounds away from zero (HALF_UP at scale 2) |
| DiscountCalculator.CalculateDiscount | src/main/java/com/suvrat/movieofferservice/offer/service/OfferService.java:243-258 | the discount is at most the raw discount, the cap (if any) and the order amount, and equals one of them, so it is their minimum |
| DiscountCalculator.PercentageWithinOrder | src/main/java/com/suvrat/movieofferservice/offer/service/OfferService.java:246 | a percentage of at most 100 of a non-negative order, rounded, lies between 0 and the order |
| DiscountCalculator.DiscountNonNegative | src/main/java/com/suvrat/movieofferservice/offer/service/OfferService.java:243-258 | with a non-negative order, value and cap, the discount is never negative |
| DiscountCalculator.UncappedPercentageIsExact | src/main/java/com/suvrat/movieofferservice/offer/service/OfferService.java:245-256 | for an uncapped percentage of at most 100, the order-amount cap never applies |
| DiscountCalculator.ThirtyPercentOfFourHundred | src/test/java/com/suvrat/movieofferservice/offer/OfferControllerIntegrationTest.java:56-74 | 30 % of 400.00 capped at 150.00 is 120.00 |
| DiscountCalculator.TenPercentOfFiveHundred | src/test/java/com/suvrat/movieofferservice/offer/service/OfferServiceTest.java:102-124 | 10 % of 500.00 capped at 100.00 is 50.00 |
| DiscountCalculator.CapApplies | src/main/java/com/suvrat/movieofferservice/offer/service/OfferService.java:251-253 | a cap below the percentage wins: 30 % of 600.00 capped at 150.00 is 150.00 |
| DiscountCalculator.HalfCentRoundsUp | src/main/java/com/suvrat/movieofferservice/offer/service/OfferService.java:246 | half a cent rounds up |
| Eligibility.IsApplicable | src/main/java/com/suvrat/movieofferservice/offer/service/OfferService.java:260-268 | a blank rule matches; a non-blank rule against a blank value does not; otherwise the rule matches exactly when the trimmed values are equal up to case |
| Eligibility.DifferentLengthsDoNotMatch | src/main/java/com/suvrat/movieofferservice/offer/service/OfferService.java:267 | two non-empty trimmed values of different lengths never match each other |
| Eligibility.IsApplicableSymmetric | src/main/java/com/suvrat/movieofferservice/offer/service/OfferService.java:267 | with both sides non-blank, matching is symmetric |
| Eligibility.IsApplicableToItself | src/main/java/com/suvrat/movieofferservice/offer/service/OfferService.java:267 | a non-blank rule matches any value equal to it up to padding and case |
| Eligibility.EvaluateSingleOffer | src/main/java/com/suvrat/movieofferservice/offer/service/OfferService.java:185-241 | a result exists iff every check holds; it then has reason ELIGIBLE, the offer's code and title, a discount with 0 < discount <= order, and a non-negative final payable that adds up to the order |
| Eligibility.PerUserLimitReached | src/main/java/com/suvrat/movieofferservice/offer/service/OfferService.java:223-226 | a user at the per-user limit gets no result |
| Eligibility.SecondRedemptionByUserRefused | src/main/java/com/suvrat/movieofferservice/offer/service/OfferService.java:223-226 | with a per-user limit of 1, a user who already redeemed the offer gets no result |
| Eligibility.TotalLimitReached | src/main/java/com/suvrat/movieofferservice/offer/service/OfferService.java:218-221 | an offer at its global limit gives nobody a result |
| Eligibility.WindowIsInclusive | src/main/java/com/suvrat/movieofferservice/offer/service/OfferService.java:198-201 | if an offer is eligible at some time in its window, it is also eligible at `validFrom` and at `validTill`, so both ends are inside the window |
| Eligibility.MinimumOrderBoundary | src/main/java/com/suvrat/movieofferservice/offer/service/OfferService.java:203-205 | one cent below the minimum order is ineligible |
| Eligibility.AssignedUserOnly | src/test/java/com/suvrat/movieofferservice/offer/OfferControllerIntegrationTest.java:89-103 | an offer assigned to "user-vip" is refused to "user-other" |
| OfferRanking.ValidateEvaluateRequest | src/main/java/com/suvrat/movieofferservice/offer/service/OfferService.java:172-176 | passes iff the user id is not blank and an order amount is given |
| OfferRanking.EligibleResults | src/main/java/com/suvrat/movieofferservice/offer/service/OfferService.java:87-89 | the kept results are exactly the non-null evaluations of the given offers |
| OfferRanking.InsertByDiscount | src/main/java/com/suvrat/movieofferservice/offer/service/OfferService.java:90 | inserting into a list sorted by discount (largest first) keeps it sorted and adds no larger discount |
| OfferRanking.InsertByDiscountPermutes | src/main/java/com/suvrat/movieofferservice/offer/service/OfferService.java:90 | inserting adds exactly the one element |
| OfferRanking.SortByDiscountDesc | src/main/java/com/suvrat/movieofferservice/offer/service/OfferService.java:90 | the result is ordered by discount, largest first |
| OfferRanking.SortByDiscountDescPermutes | src/main/java/com/suvrat/movieofferservice/offer/service/OfferService.java:90 | sorting is a permutation of its input |
| OfferRanking.SortByDiscountDescKeepsMembers | src/main/java/com/suvrat/movieofferservice/offer/service/OfferService.java:90 | sorting neither drops nor invents a result |
| OfferRanking.ActiveResultsMembership | src/main/java/com/suvrat/movieofferservice/offer/service/OfferService.java:86-89 | the results kept are exactly those of active offers that evaluate as eligible |
| OfferRanking.EvaluateOffers | src/main/java/com/suvrat/movieofferservice/offer/service/OfferService.java:84-92 | after validation, the result is sorted largest discount first and is a permutation of the eligible results of the active offers; an element is in it iff an active offer evaluates to it |
| AppliedOfferResponses.From | src/main/java/com/suvrat/movieofferservice/offer/dto/AppliedOfferResponse.java:17-28 | the summary carries the offer's code and the redemption's ids, amounts and time unchanged; the final payable is never negative and is the order less the discount, or zero |
| AppliedOfferResponses.FromFinalPayableExact | src/main/java/com/suvrat/movieofferservice/offer/dto/AppliedOfferResponse.java:18-25 | when the discount does not exceed the order, the final payable is exactly their difference |
| AppliedOfferResponses.FourHundredLessForty | src/test/java/com/suvrat/movieofferservice/offer/service/OfferServiceTest.java:144-161 | 400.00 less 40.00 shows 360.00 |
| Service.NormalizeNullable | src/main/java/com/suvrat/movieofferservice/offer/service/OfferService.java:270-275 | null iff the value is blank; otherwise the non-empty trimmed value |
| Service.NormalizeOfferCode | src/main/java/com/suvrat/movieofferservice/offer/service/OfferService.java:277-282 | null iff the value is blank; otherwise the trimmed upper-cased value, which is in stored-code form |
| Service.NormalizedCodeIsFixed | src/main/java/com/suvrat/movieofferservice/offer/service/OfferService.java:277-282 | a code in stored form normalises to itself |
| Service.NormalizeOfferCodeIdempotent | src/main/java/com/suvrat/movieofferservice/offer/service/OfferService.java:277-282 | normalising twice equals normalising once |
| Service.NormalizeIgnoresPaddingAndCase | src/test/java/com/suvrat/movieofferservice/offer/service/OfferServiceTest.java:90-100 | padding and letter case do not change the normalised code, e.g. "test10" is stored as "TEST10" |
| Service.ValidateCreateRequest | src/main/java/com/suvrat/movieofferservice/offer/service/OfferService.java:135-170 | passes iff every required field is present and every rule holds; a missing field fails with "Missing required fields" before any other check |
| Service.CheckRanges | src/main/java/com/suvrat/movieofferservice/offer/service/OfferService.java:145-162 | passes iff the discount is positive, the minimum is non-negative, the window is not reversed, the limits are positive and a percentage is at most 100; every failure is a validation error; a non-positive discount fails with its own message |
| Service.CheckRangesMessages | src/main/java/com/suvrat/movieofferservice/offer/service/OfferService.java:148-162 | each later range check, once the checks before it pass, fails with its own message |
| Service.CheckSourceFields | src/main/java/com/suvrat/movieofferservice/offer/service/OfferService.java:163-169 | passes iff a third-party offer has both source app and alias and an alias comes with a source app; a third-party failure and an internal failure each carry their own message |
| Service.CheckCreateRules | src/main/java/com/suvrat/movieofferservice/offer/service/OfferService.java:145-169 | passes iff the range checks and the source checks hold; a failing range check decides the message, and only once the range checks pass do the source checks decide it |
| Service.ValidateApplyRequest | src/main/java/com/suvrat/movieofferservice/offer/service/OfferService.java:178-183 | passes iff code, user id and booking id are not blank and an amount is given |
| Service.BuildOffer | src/main/java/com/suvrat/movieofferservice/offer/service/OfferService.java:49-69 | a validated request builds a well-formed offer with the normalised code and alias, the trimmed title, every other field copied from the request (optional text fields normalised), and active only when the request says true |
| Service.AddOfferKeepsInvariant | src/main/java/com/suvrat/movieofferservice/offer/model/Offer.java:26 | adding a well-formed offer whose code and alias are both new keeps codes and aliases unique and all limits respected |
| Service.AddOfferKeepsKeysUnique | src/main/java/com/suvrat/movieofferservice/offer/model/Offer.java:82 | adding an offer whose code and alias no stored offer has keeps both columns unique |
| Service.NoRedemptionsOfUnknownOffer | src/main/java/com/suvrat/movieofferservice/offer/service/OfferService.java:218-223 | an offer no redemption refers to has a global and per-user count of zero |
| Service.RecordKeepsInvariant | src/main/java/com/suvrat/movieofferservice/offer/service/OfferService.java:113-124 | saving a redemption for an offer still under both limits, with an unused booking id, keeps every count within its limit and booking ids unique |
| Service.OfferAtItsId | src/main/java/com/suvrat/movieofferservice/offer/service/OfferService.java:218 | a stored offer sits at the position of its id, so counting by id counts that offer |
| Service.FindOfferForApply | src/main/java/com/suvrat/movieofferservice/offer/service/OfferService.java:284-292 | a blank code fails with "code is required"; otherwise the result has the normalised code, or has it as alias when no offer has it as code; it fails with "Offer not found" iff neither exists |
| Service.FindByCodeUnique | src/main/java/com/suvrat/movieofferservice/offer/model/Offer.java:26 | with unique codes, the lookup by code finds the one offer that has it |
| Service.FindBySourceOfferCodeUnique | src/main/java/com/suvrat/movieofferservice/offer/model/Offer.java:82 | with unique aliases, the lookup by alias finds the one offer that has it |
| Service.AliasResolvesToOwner | src/test/java/com/suvrat/movieofferservice/offer/OfferControllerIntegrationTest.java:105-121 | a code whose normalised form is an offer's alias resolves to that offer when no offer has it as code |
| Service.CodeShadowsAlias | src/main/java/com/suvrat/movieofferservice/offer/service/OfferService.java:289-290 | when some offer has the normalised code, the resolved offer is one with that code, never an alias owner |
| Service.CodeResolvesToOwner | src/main/java/com/suvrat/movieofferservice/offer/service/OfferService.java:289 | with unique codes, an offer's own code resolves to that offer |
| Service.OfferService.constructor | src/main/java/com/suvrat/movieofferservice/offer/service/OfferService.java:31-34 | the service starts with empty repositories, and the invariant holds |
| Service.OfferService.CreateOffer | src/main/java/com/suvrat/movieofferservice/offer/service/OfferService.java:36-72 | a failed validation returns its error; an existing code fails with "Offer code already exists", then an existing alias with "Source offer code already exists"; it succeeds iff validation passes and neither exists, and then appends the built offer, otherwise nothing changes; redemptions are untouched and the invariant is kept |
| Service.ApplyOutcome | src/main/java/com/suvrat/movieofferservice/offer/service/OfferService.java:94-133 | fails with the validation message, then "Offer already applied for this booking" when the untrimmed booking id is used, then the lookup's error, then "Offer is not eligible for this booking"; succeeds iff the request validates, both booking-id checks pass, the code resolves and the offer qualifies; the saved row then holds the resolved offer's id, the trimmed user and booking ids, the order, its calculated discount (0 < discount <= order) and the time, and the answer shows the offer's code and the order less the discount |
| Service.ApplyKeepsInvariant | src/main/java/com/suvrat/movieofferservice/offer/service/OfferService.java:113-124 | saving the redemption of a successful outcome keeps the ledger invariant: limits respected, booking ids unique |
| Service.OfferService.ApplyOffer | src/main/java/com/suvrat/movieofferservice/offer/service/OfferService.java:94-133 | on success it saves exactly the outcome's one redemption and answers its response; on failure the ledger is unchanged; offers are never touched and the invariant is kept |
| Service.OfferService.AppliedOffers | src/main/java/com/suvrat/movieofferservice/offer/service/OfferService.java:78-82 | under the invariant every redemption joins a stored offer, and the answer is the listing of all redemptions, last saved first |
| Service.InvariantResolvesJoins | src/main/java/com/suvrat/movieofferservice/offer/model/OfferRedemption.java:26-28 | under the invariant every redemption joins a stored offer and its discount does not exceed its order |
| Service.ListAppliedOffers | src/main/java/com/suvrat/movieofferservice/offer/service/OfferService.java:78-82 | one `from` summary per redemption, last saved first, each with its offer's code; each final payable is the order less a positive discount |
| Service.SecondBookingBySameUserRefused | src/test/java/com/suvrat/movieofferservice/offer/OfferControllerIntegrationTest.java:76-87 | with a per-user limit of 1, once a user's apply succeeds, a second apply by the same user with the same code fails |

## Left out

- The HTTP controller, the exception-to-status handler and the API documentation config. `ServiceError` only records which kind of exception the service throws.
- Row locks and `@Transactional`. Each public operation is one atomic method on the ledger, so interleavings and lock timeouts are not modelled.
- A null request body (lines 136, 173 and 179). Requests are values here; only their fields may be null.
- `LocalDateTime.now()`. The current time is the parameter `now`, and `redeemedAt` is set to it. The `createdAt`/`updatedAt` timestamps are not modelled.
- `listOffers` and `OfferResponse.from`. They only copy fields.
- Generated redemption ids, and toggling `active` after creation. Neither is done by the service.
- Amounts with more than two fractional digits. Money is whole cents, so `setScale(2, HALF_UP)` on an amount is the identity.
- Unicode case folding in `toUpperCase` and `equalsIgnoreCase`. Only ASCII letters are folded; `trim` is modelled exactly.
- Column lengths (for example, a code of at most 32 characters).
- The 32-bit `Integer` limits and the `long` counts. Integers are unbounded.
- The order of rows the database returns. `findByActiveTrue` returns offers in insertion order. `listAppliedOffers` uses reverse save order in place of `ORDER BY redeemedAt DESC`. The two agree while the clock never runs backwards.
- OfferRanking.EvaluateOffers: the contract does not state that equal discounts keep their repository order. `SortByDiscountDesc` is stable, as Java's sort is, but that is not proved.
- Service.OfferService.AppliedOffers: its contract states reverse save order, not an ordering by `redeemedAt`.
