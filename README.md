# Food donation safety core, in Dafny

This project models the decision logic of a food-donation platform's server
(`src/server/server.js`) and of the scoring function in its API test script
(`test-api.js`).

- **Safety scanner.** `AIFoodSafetyScanner.performAnalysis` turns these inputs into a 0–100 score, a status, a confidence and an explanation:
  - four image signals;
  - the hours elapsed since preparation;
  - the food type;
  - the storage condition.
- **Scoring variant.** The script's `calculateAISafetyScore` uses the same rule tables with a weighted image formula.
- **Donation store.** Two handlers write the `food_donations` and `donation_claims` tables:
  - creating a donation inserts it and then records the scanner's assessment;
  - claiming a donation inserts a claim and marks the donation claimed.
- **Analytics.** The admin endpoint reports four aggregate counts.
- **Nearby search.** It selects donations, rounds the distance, filters by radius and sorts nearest first.
- **Upload filter.** It checks an uploaded file's extension and MIME type.

Modules:

- `Basics` (basics.dfy): Option/Result, `Math.round`, ASCII lower-casing, number printing, `join`, substring search.
- `SafetyRules` (safety_rules.dfy): the rule tables and steps the two scorers share. It covers the food-type profiles, the time score, the storage multiplier, the clamp, the thresholds, the confidence ranges and the explanation clauses.
- `Scanner` (scanner.dfy): the server's `performAnalysis`.
- `TestApiScoring` (test_api_scoring.dfy): the script's `calculateAISafetyScore` and its test vector.
- `Donations` (donations.dfy): the table rows, the create and claim steps and analytics.
  - Each handler is a pure step function on both tables.
  - The `DonationStore` class holds the tables as sequence fields and performs the same steps in place.
  - Each of its methods ensures that its outcome and new state are exactly what the step function gives.
- `Nearby` (nearby.dfy): the map/filter/sort pipeline of the nearby endpoint.
- `Upload` (upload.dfy): the multer `fileFilter` predicate, including `path.extname`.

Random draws and the clock are parameters:
- the four image signals;
- the confidence draw, uniform in [0, 1);
- the whole hours that `moment().diff(.., 'hours')` reports, or `None` when the preparation time does not parse (NaN).
- in the test script, the hours as given, or `None` when they are NaN or missing.

The geodesic distance in metres is a function parameter. The uuid of a new row is a parameter, and so is the stored file name.

Four behaviours of the handlers and the scanner are easy to miss:
- **No donation is ever approved.** Nothing ever sets a donation's status to 'approved':
  - creation leaves the default 'pending' and only sets `safety_verified`;
  - no other handler in the core writes it.

  The nearby query and the claim handler both require 'approved'. So from empty tables they never find a row (`Donations.NothingIsEverApproved`, `Nearby.NearbyAlwaysEmpty`). No pending→approved step is invented.
- **A zero coordinate counts as missing.** The request is refused when the parsed latitude or longitude is 0, because `!userLat` is true for 0. So a requester at (0, 0) gets an error rather than a list. A donation whose latitude or longitude is 0 or missing gets no distance. It is always kept and sorts as distance 0, first rather than last.
- **An inherited property name is a food type with no thresholds.** The rule table is a plain object, so a food type such as "constructor" or "toString" finds an inherited property rather than nothing. That property has no `maxHours`, every comparison with it is false, and the scan goes on as if the food were fresh (`Scanner.InheritedNameScoresAsFresh`). Only a name the table knows nothing about makes the scan throw. In the server the food_type CHECK keeps such names from reaching the scan.
- **Rounded score and status can disagree only in the script.** In the server the rounded score and the unrounded status always agree, because both halves of the final score come from finite sets:
  - with whole hours the time score is one of 0, 30, 40 and 100 (`Scanner.WholeHoursTimeScore`);
  - the image score is one of the eight deducted scores times one of the four multipliers.

  No sum of the two lies in [99, 100) or [159, 160), so the final score never falls just short of 50 or 80 (`Scanner.SumAvoidsThresholdGaps`). The script's image score is the weighted formula 0.3·quality + 0.4·texture + 0.3·(100 − moisture), less 20 for discoloration, and it takes fractional values. With quality 100, texture 98 and moisture 0 at room temperature it is 99.2. After 9 hours, veg food has a time score of 0, so the final score is 49.6. That is reported as score 50 with status 'Not Safe to Consume' (`TestApiScoring.ScoreAndStatusCanDisagree`).

## Model

| member | source | states |
|---|---|---|
| Basics.Round | src/server/server.js:272 | `Math.round`: the result is the integer within half a unit below or above, halves rounded up |
| Basics.RoundCents | src/server/server.js:274 | the result is a whole number of hundredths, within 0.005 of the value |
| Basics.Clamp | src/server/server.js:246 | `Math.max(lo, Math.min(hi, x))` lies in [lo, hi], is x inside the range and the nearer bound outside it |
| Basics.Lower | src/server/server.js:242 | lower-casing keeps the length, maps every character by ASCII lower-casing and leaves no upper-case letter |
| Basics.LowerOfLowercase | src/server/server.js:242 | a string without upper-case letters is unchanged by lower-casing |
| Basics.LowerIdempotent | src/server/server.js:242 | lower-casing twice equals lower-casing once |
| Basics.NatText | src/server/server.js:264 | the printed hours are one or more decimal digits with no leading zero |
| Basics.NatTextRoundTrip | src/server/server.js:264 | reading the printed hours back as decimal digits gives the number |
| Basics.Join | src/server/server.js:275 | `join` of no parts is empty, of one part is that part, and always starts with the first part |
| Basics.JoinAppend | src/server/server.js:275 | joining one more part appends the separator and that part |
| Basics.HasInfix | src/server/server.js:93-95 | an unanchored literal pattern matches exactly when it occurs at some position |
| SafetyRules.ParseFoodType | src/server/server.js:214-219 | only the exact keys 'veg' and 'non-veg' have a rule profile, and the found type's name is the key |
| SafetyRules.FoodTypeNameRoundTrip | src/server/server.js:133 | each food type's column value looks up that food type |
| SafetyRules.LookupRules | src/server/server.js:214-219 | the lookup finds an own profile exactly for 'veg' and 'non-veg', an inherited property exactly for the names of Object.prototype's properties, and nothing otherwise |
| SafetyRules.Exceeded | src/server/server.js:214-222 | the time limit is exceeded exactly when the hours are known and above 8 for veg, above 4 for non-veg |
| SafetyRules.ProfileOf | src/server/server.js:214-217 | both profiles leave two hours between the immediate threshold and the maximum |
| SafetyRules.TimeScore | src/server/server.js:220-226 | time score in [0, 100]; 100 exactly when hours are unknown (NaN) or at most the threshold; 0 exactly when beyond maxHours; between the two it is 50 less 10 for each hour past the threshold, so in [30, 50) |
| SafetyRules.TimeScoreNeverRises | src/server/server.js:220-226 | the time score never rises as the hours grow |
| SafetyRules.EntryTimeScore | src/server/server.js:219-226 | under an inherited entry the time score stays 100; under an own profile it is that profile's time score |
| SafetyRules.StorageMultiplier | src/server/server.js:235-243 | by the lower-cased condition: 'refrigerated' exactly gives 1.2, 'covered' exactly 1.1, 'uncovered' exactly 0.8; 'room temperature' and any other condition give 1.0; so it lies in [0.8, 1.2] |
| SafetyRules.StorageMultiplierIgnoresCase | src/server/server.js:242 | the lookup gives the same multiplier for a condition and its lower-cased form |
| SafetyRules.FinalScore | src/server/server.js:246 | the final score lies in [0, 100] and is the plain average when that is in range |
| SafetyRules.ReportedScore | src/server/server.js:272 | the reported score is an integer in [0, 100] within half a unit of the final score |
| SafetyRules.Classify | src/server/server.js:249-259 | Safe exactly when final ≥ 80, Consume Immediately exactly when 50 ≤ final < 80, Not Safe exactly when final < 50 |
| SafetyRules.Confidence | src/server/server.js:250-274 | the reported confidence is a whole number of hundredths |
| SafetyRules.RoundCentsWithin | src/server/server.js:274 | a value in [lo/100, hi/100) stays within [lo/100, hi/100] after rounding to cents |
| SafetyRules.ConfidenceInRange | src/server/server.js:250-259 | with a draw in [0, 1) the confidence lies in [0.85, 0.95], [0.70, 0.85] or [0.90, 0.98] by status |
| SafetyRules.PrependIf | src/server/server.js:262-269 | pushing a clause that fires keeps the clause order strict, and a clause is present exactly when it fired or was already there |
| SafetyRules.SignalClauses | src/server/server.js:265-268 | the image and final-score clauses are in the fixed order, never a time clause, and each is present exactly when its condition holds |
| SafetyRules.Clauses | src/server/server.js:262-269 | clauses are in the fixed order; time-exceeded appears exactly when hours > maxHours (with that food type and hours); discoloration, moisture > 80, texture < 40 and final ≥ 80 each add their clause exactly when they hold |
| SafetyRules.EntryClauses | src/server/server.js:262-268 | under an entry the lookup found: clauses in order; a time clause exactly when an own profile's maxHours is exceeded; the signal clauses exactly when their conditions hold; no clause at all exactly when none of the conditions holds |
| SafetyRules.ClauseText | src/server/server.js:264-269 | every clause has non-empty text |
| SafetyRules.ExplanationText | src/server/server.js:275 | the explanation is empty exactly when no clause fires, and starts with the first clause's text |
| SafetyRules.ExplanationAppend | src/server/server.js:275 | one more clause appends '; ' and its text |
| SafetyRules.ExplanationEndsWithLast | src/server/server.js:275 | the explanation ends with the last clause's text |
| SafetyRules.OnlyNoSpoilageEndsInS | src/server/server.js:264-268 | only the no-spoilage text ends in the letter s |
| SafetyRules.ExplanationSaysNoSpoilage | src/server/server.js:262-275 | for ordered clauses the explanation ends with 'No visible spoilage indicators' exactly when that clause is present |
| Scanner.Deducted | src/server/server.js:229-232 | 100 less 30 if discolored, less 20 if moisture is above 80, less 25 if texture is below 40; so one of eight values |
| Scanner.SignalDeductions | src/server/server.js:229-232 | turning discoloration on costs 30, moisture above 80 costs 20, texture below 40 costs 25, and with none of them the score is 100 |
| Scanner.ImageScore | src/server/server.js:229-243 | the server's image score lies in [20, 120] |
| Scanner.Evaluate | src/server/server.js:210-246 | the final score of an analysis lies in [0, 100] |
| Scanner.ServerClauses | src/server/server.js:262-269 | every server clause can be printed: the hours are whole and not negative |
| Scanner.WholeHoursTimeScore | src/server/server.js:211-226 | with truncated whole hours the time score is one of 0, 30, 40, 100 |
| Scanner.SumAvoidsThresholdGaps | src/server/server.js:246-250 | no server sum of time and image score falls in [99, 100) or [159, 160) |
| Scanner.RoundedScoreAgreesWithStatus | src/server/server.js:246-272 | rounded score ≥ 50 exactly when the status is not Not Safe, ≥ 80 exactly when Safe |
| Scanner.ExceededIsNeverSafe | src/server/server.js:222-269 | beyond maxHours the final score is ≤ 60, the status is never Safe, the no-spoilage clause is absent and the time clause present |
| Scanner.PerformAnalysis | src/server/server.js:203-283 | fails exactly when the lookup finds nothing; otherwise score in [0, 100], agreeing with the status at 50 and 80, the confidence in its status's range, never Safe past maxHours, the explanation empty exactly when no clause fires and ending with 'No visible spoilage indicators' exactly when Safe |
| Scanner.InheritedNameScoresAsFresh | src/server/server.js:219-269 | a food type naming an inherited property scans exactly like veg prepared 0 hours ago |
| Scanner.FreshRefrigeratedVegIsSafe | src/server/server.js:203-283 | veg made an hour ago, refrigerated, with clean signals scores 100, is Safe, and says 'No visible spoilage indicators' |
| TestApiScoring.WeightedImageScore | test-api.js:122-149 | with signals in range and no discoloration the weighted image score is not negative |
| TestApiScoring.WeightedImageBounds | test-api.js:122-123 | with signals in [0, 100] the weighted image score lies in [-24, 120] |
| TestApiScoring.TestFinalScore | test-api.js:152 | the script's final score lies in [0, 100] even when the image score is negative |
| TestApiScoring.CalculateAISafetyScore | test-api.js:118-183 | fails exactly when the lookup finds nothing; otherwise score in [0, 100], confidence in its status's range, clauses in order, and 'No visible spoilage indicators' exactly when Safe |
| TestApiScoring.InheritedNameIgnoresHours | test-api.js:131-138 | a food type naming an inherited property scores like veg prepared 0 hours ago, whatever the hours |
| TestApiScoring.ExceededIsNeverSafe | test-api.js:134-165 | with signals in range, past maxHours the final score is ≤ 60 and the status is never Safe |
| TestApiScoring.VectorMultiplier | test-api.js:141-149 | 'refrigerated' multiplies by 1.2 and 'room temperature' by 1.0 |
| TestApiScoring.UnknownHoursScoreAsFresh | test-api.js:134-138 | hours that are NaN or missing score like 0 hours: time score 100 and no time clause |
| TestApiScoring.ScriptVector | test-api.js:85-96 | the script's vector gives image score 87.84, final score 93.92, score 94, Safe, explanation 'No visible spoilage indicators' |
| TestApiScoring.ScoreAndStatusCanDisagree | test-api.js:152-178 | quality 100, texture 98, moisture 0, 9 hours of veg at room temperature reports score 50 with status Not Safe |
| TestApiScoring.ExpiredWithoutImageCreditScoresZero | test-api.js:122-152 | past maxHours with an image score ≤ 0 the score is 0 and Not Safe |
| TestApiScoring.WeightedOfWorstSignals | test-api.js:122-123 | quality 0, texture 0, moisture 100 with discoloration leave -20 times the multiplier |
| TestApiScoring.NegativeImageScoreReachable | test-api.js:122-123 | quality 0, texture 0, moisture 100 with discoloration gives image score -20 |
| Donations.Insertable | src/server/server.js:424-430 | an insertable row's food type is exactly 'veg' or 'non-veg' |
| Donations.InsertedRow | src/server/server.js:424-430 | the inserted row has the new id, the donor, the food type, the image path, the defaulted unit, status 'pending', no assessment and safety_verified unset |
| Donations.UnitOrDefault | src/server/server.js:429 | the unit is the sent value when non-empty, 'plates' otherwise |
| Donations.WithAssessment | src/server/server.js:455-468 | the update sets the assessment and safety_verified on the rows with that id only |
| Donations.AnalysisFor | src/server/server.js:445-452 | the scan of an inserted row succeeds with a score in [0, 100] that is ≥ 50 exactly when the status is not Not Safe |
| Donations.CreateDonationStep | src/server/server.js:405-477 | nothing is written without an image, a ticked hygiene box and a valid insert; otherwise exactly one row is appended, holding the form's donor, food type, description, quantity, preparation time, storage, location and coordinates, status 'pending', the unit defaulted, and the assessment of the scan of that form; safety_verified and new_donation both exactly when score ≥ 50 |
| Donations.Available | src/server/server.js:596-603 | an available donation exists |
| Donations.WithStatus | src/server/server.js:616 | the update sets the status on the rows with that id only |
| Donations.ClaimDonationStep | src/server/server.js:589-619 | succeeds exactly for an ngo/admin on an approved donation with a fresh claim id; a donor is refused; failure writes nothing; success appends one pending claim and sets only that donation to 'claimed' |
| Donations.CreatePreservesWellFormed | src/server/server.js:128-160 | creation keeps donation and claim ids unique and every claim naming a donation |
| Donations.ClaimUpdatesOneRow | src/server/server.js:596-616 | with unique ids a successful claim marks exactly the one approved row 'claimed' and leaves every other row unchanged |
| Donations.ClaimPreservesWellFormed | src/server/server.js:153-160 | claiming keeps ids unique and every claim naming a donation |
| Donations.CreateKeepsNoneApproved | src/server/server.js:424-468 | creation never makes a donation approved, claimed or completed and adds no claim |
| Donations.ClaimNeedsApproved | src/server/server.js:596-603 | without an approved donation every claim fails and writes nothing |
| Donations.ApplyKeepsNoneApproved | src/server/server.js:405-628 | neither handler leaves a state with an approved, claimed or completed donation or a claim, starting from one without |
| Donations.NothingIsEverApproved | src/server/server.js:147 | from such a state, after any sequence of create and claim requests, no donation is approved, claimed or completed and there are no claims |
| Donations.CountVerified | src/server/server.js:638 | when every row is verified, every row is counted |
| Donations.CompletedQuantity | src/server/server.js:640-651 | non-negative quantities never sum below zero |
| Donations.AnalyticsOf | src/server/server.js:631-660 | refused exactly for a non-admin; otherwise the totals are the row counts, the safe count is the number of safety_verified rows (never more than the donations), and meals saved is the quantity summed over 'completed' rows |
| Donations.VerifiedAtMostTotal | src/server/server.js:637-638 | the safe count never exceeds the total count |
| Donations.CountVerifiedIsCardinality | src/server/server.js:638 | the safe count is the number of rows with safety_verified set |
| Donations.NoCompletedNoMeals | src/server/server.js:640-651 | with no completed donation the meals-saved sum is 0 |
| Donations.ReplayedAnalytics | src/server/server.js:636-656 | from empty tables analytics always report 0 claims, 0 meals saved and no more safe than total donations |
| Donations.DonationStore.constructor | src/server/server.js:128-160 | the store starts with both tables empty and well formed |
| Donations.DonationStore.CreateDonation | src/server/server.js:389-520 | the in-place handler's outcome and new tables are exactly the creation step's, and well-formedness is kept |
| Donations.DonationStore.ClaimDonation | src/server/server.js:588-628 | the in-place handler's outcome and new tables are exactly the claim step's, well-formedness is kept, and a successful claim changes exactly one row |
| Donations.DonationStore.Analytics | src/server/server.js:631-660 | the one-pass counts equal the four aggregates, and a non-admin is refused |
| Nearby.Selected | src/server/server.js:539-545 | the query returns exactly the verified, approved rows, and the last inserted one, when listed, first |
| Nearby.ListedInOrder | src/server/server.js:539-545 | the verified, approved rows in table order, read from the front; never longer than the table |
| Nearby.ListedInOrderAppend | src/server/server.js:539-545 | appending a row appends it to the table-order listing exactly when it is listed |
| Nearby.SelectedIsReversedListing | src/server/server.js:545 | the query result is the table-order listing reversed, so of two listed rows the later-inserted one comes first |
| Nearby.DistanceKm | src/server/server.js:554-559 | the distance is a whole number of hundredths of a kilometre, within 0.005 km of the true value |
| Nearby.Attach | src/server/server.js:552-562 | a row gets a distance exactly when its latitude and longitude are both non-zero numbers |
| Nearby.AttachAll | src/server/server.js:551-562 | the map step builds, position by position, a copy of each row carrying its distance |
| Nearby.KeepAll | src/server/server.js:563 | a row survives the filter exactly when it has no distance, distance 0, or distance ≤ radius |
| Nearby.Keep | src/server/server.js:563 | a row whose sort key is 0 always passes the filter |
| Nearby.Key | src/server/server.js:564 | the sort key is the distance, or 0 without one |
| Nearby.Insert | src/server/server.js:564 | inserting into a list sorted by distance-or-0 keeps it sorted and adds exactly that row |
| Nearby.SortByKey | src/server/server.js:564 | the sort output is ordered by distance-or-0 and is a permutation of its input |
| Nearby.Matches | src/server/server.js:539-563 | the order-free reference (listed rows that pass the filter, in table order) is no longer than the table |
| Nearby.MatchesMembers | src/server/server.js:539-563 | the reference holds a located row exactly when some listed row of the table, with its distance, passes the filter |
| Nearby.PipelineMatches | src/server/server.js:539-563 | selecting newest first, attaching distances and filtering keeps the same rows, as often, as the reference |
| Nearby.NearbyDonations | src/server/server.js:530-566 | refused exactly when a coordinate is 0 or NaN; otherwise sorted by distance-or-0, a permutation of the reference, so holding exactly the listed rows that pass the filter, each as often as it stands in the table |
| Nearby.RadiusIsInclusive | src/server/server.js:563 | a row exactly at the radius is kept |
| Nearby.FarRowsAreDropped | src/server/server.js:563 | a row beyond the radius, or with a non-zero distance and a radius that is not a number, is dropped |
| Nearby.ZeroCoordinateRowIsAlwaysKept | src/server/server.js:553-564 | a row with a zero or missing coordinate gets no distance, sorts as 0 and is always kept |
| Nearby.ZeroCoordinateRequestIsRefused | src/server/server.js:532-537 | a requester on latitude 0 or longitude 0 is refused |
| Nearby.NothingApprovedNothingNearby | src/server/server.js:543 | without an approved donation the list is empty |
| Nearby.NearbyAlwaysEmpty | src/server/server.js:539-566 | from empty tables, whatever requests came before, the nearby list is empty |
| Upload.LastIndex | src/server/server.js:94 | the result is the last position holding the character, or -1 when none does |
| Upload.TrimSlashes | src/server/server.js:94 | trailing slashes are dropped and nothing else |
| Upload.BaseName | src/server/server.js:94 | the last path segment holds no slash |
| Upload.BaseNameIsLastSegment | src/server/server.js:94 | the last segment is the end of the slash-trimmed path, preceded by a slash unless it is the whole path |
| Upload.ExtName | src/server/server.js:94 | the extension is empty or a dot followed by no dot or slash, and is a proper suffix of the last segment |
| Upload.ExtNamePresent | src/server/server.js:94 | the extension is non-empty exactly when the last segment is not '..' and has a dot after its first character |
| Upload.ImageType | src/server/server.js:93-95 | the pattern matches exactly when jpeg, jpg, png or gif occurs at some position |
| Upload.Accepted | src/server/server.js:92-101 | an accepted file has an extension and a matching MIME type |
| Upload.ExtNameOfLower | src/server/server.js:94 | the extension of the lower-cased name is the lower-cased extension |
| Upload.AcceptanceIgnoresNameCase | src/server/server.js:92-101 | acceptance does not depend on the case of the file name |
| Upload.NoExtensionRefused | src/server/server.js:92-101 | a file without an extension is refused whatever its MIME type |
| Upload.DotFileHasNoExtension | src/server/server.js:94 | a dot file such as `photos/.png` has no extension |
| Upload.NoSlashBaseName | src/server/server.js:94 | a name without a slash is its own last segment |
| Upload.SimpleExtName | src/server/server.js:94 | `stem.ext` has extension `.ext` when the stem is not empty and the extension has no dot or slash |
| Upload.ImageTypeAt | src/server/server.js:93 | a string holding jpeg, jpg, png or gif matches the pattern |
| Upload.PrefixKeepsImageType | src/server/server.js:93-95 | a match survives text put in front of it |
| Upload.ImageFileAccepted | src/server/server.js:92-101 | `stem.ext` with a lower-case image extension sent as `image/ext` is accepted |
| Upload.UnanchoredMatch | src/server/server.js:93 | the pattern is unanchored: a format name followed by anything, such as `pngx`, matches |

## Left out

- I/O and timing are not modelled: Express routing, authentication, multer storage and file naming, the 10 MB size limit, sharp resizing, the 2-second delay, socket delivery, the Google Apps Script sync and console logging. Emitted events are returned as values.
- The hygiene_checklist insert is not modelled. It writes a separate table that no modelled operation reads.
- Randomness and the clock are parameters, so is geolib's great-circle distance, and the uuids come from the caller.
- A failure of sharp, or of the analysis itself after the insert, is not modelled. The analysis runs in a timer callback inside a promise (src/server/server.js:193-201), so a throw there would not reach the catch at src/server/server.js:514-520: it would be an uncaught exception that ends the process and leaves the request without an answer. Once the insert succeeds the food type has a profile, so the modelled analysis cannot fail.
- Floating point: the model computes with exact reals. IEEE rounding of values such as 0.3·85 or 1.2·73.2 is not captured, and neither are infinities.
- `Basics.Lower` lower-cases only ASCII letters, while `toLowerCase` follows Unicode.
- Storage conditions that name an inherited object property are not modelled. For example, "constructor" would give a function rather than a number.
- The JavaScript types of form fields are not modelled. The model takes quantity and the coordinates as already-converted numbers, while SQLite would also store text in those columns.
- `SafetyRules.ClauseText` renders only whole, non-negative hours. The script's fractional hours text is left out.
- `Nearby.Selected`: `ORDER BY created_at DESC` is taken as newest inserted first. Rows created within the same second may come back in another order, and the JOIN with users is assumed to find every donor.
- `Nearby.SortByKey` is stable, but its contract does not state the order among rows with equal keys.
- `Donations.DonationStore.ClaimDonation`: the check-then-update race between the SELECT and the UPDATE is concurrency and is not modelled. The claim is one sequential step.
- The client screens, seed data and the other test scripts are not part of this model.
- The analytics JSON key order is not modelled. A failed query would be reported as 0, and that error path is not modelled.
