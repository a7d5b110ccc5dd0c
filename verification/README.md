# Solar installer matching, modelled in Dafny

This project models the core of a marketplace that matches solar-installation
jobs to professionals. Customers post jobs. Professionals register with their
expertise, availability slots, service radius and rates. A matching run scores
each candidate professional for a job on five dimensions: distance, expertise,
availability, rating and price. It keeps the candidates at or above a threshold,
ranks them by weighted total and stores the best ones as suggested matches.
Professionals then quote for jobs. Accepting one quote rejects the job's other
pending quotes.

The modules follow the program's own structure:

- `GeoUtils`, `ValidationUtils`: the two utility classes. They cover the distance
  score with its sentinel for missing coordinates, coordinate ranges,
  `String.trim`, the email and phone patterns, and ASCII case mapping.
- `Criteria`: the weights, threshold, cap and pool filter of one run, with the
  builder defaults.
- `MatchingEngine`: the five dimension scores, the weighted and rounded total,
  and the buckets of the reason texts. The expertise loop and the slot
  counting streams are methods proved equal to specification functions. The
  `anyMatch` of related expertise and the streams of the expertise and
  availability reasons are functions. Lemmas give the shape, bounds and
  monotonicity of each score.
- `MatchSpec`, `MatchService`, `MatchProperties`: the matching run.
  - `MatchSpec` gives it as a function of the tables.
  - `MatchService` gives the imperative service, whose loops are proved
    against that function.
  - `MatchProperties` proves what a run guarantees: the answer is capped, above
    the threshold and ranked; pairs stay unique; the job status moves from
    PENDING to MATCHED; a second identical run changes nothing; a failed save
    rolls back.
- `QuoteService`, `ProfessionalService`, `CustomerService`, `JobService`: the
  remaining services, over the tables of one `Store.Database`.
- `ProfessionalEntity`: the `Professional` entity's own helper methods on its
  two child lists, as a class.
- `Numbers`, `Ranking`, `Setters`, `Wrappers`, `Domain`, `Store`: supporting
  pieces.
  - `Numbers`: `BigDecimal.setScale(2, HALF_UP)`.
  - `Ranking`: the stable descending sort and `limit`.
  - `Setters`: the "set if given" pattern of the update methods.
  - `Wrappers`: optional values and error outcomes.
  - `Domain`: the rows of each table.
  - `Store`: the tables and their invariants.

Figures are exact rationals. The match table's columns are checked against
their declared precision: a score or distance too wide for its column fails the
insert. The other tables' column widths are not checked.
Repository queries with no `ORDER BY` return rows in ascending id order.
The ordered queries of matches by score and quotes by amount take ties in
ascending id order, which `ORDER BY` itself does not promise. Their lemmas
state only the order, soundness, completeness and distinctness.

The comment above the expertise scorer
(`solar/src/main/java/com/example/solar/matching/service/MatchingEngine.java:87-92`)
budgets 50 points for an exact match, 30 for experience and 20 for a
certification. The code gives 3 points per year, capped at 30, so an exact
match with 5 years and a certification scores 50 + 15 + 20 = 85, and so does
`MatchingEngine.ExpertiseScore`.

## Model

| member | source | states |
|---|---|---|
| Criteria.DefaultsAreBalanced | solar/src/main/java/com/example/solar/matching/domain/MatchCriteria.java:13-27 | the builder's default weights 30, 25, 20, 15 and 10 are non-negative and add up to 100 |
| Criteria.OneOverrideUnbalances | solar/src/main/java/com/example/solar/matching/domain/MatchCriteria.java:13-27 | changing any one of the five weights of balanced criteria, such as the defaults, leaves them summing to something other than 100: nothing keeps overrides balanced |
| Numbers.Round2 | solar/src/main/java/com/example/solar/matching/service/MatchingEngine.java:52-58 | `setScale(2, HALF_UP)`: the result is a whole number of hundredths, within half a hundredth of the input, and not negative for a non-negative input |
| Numbers.RoundUpHalf | solar/src/main/java/com/example/solar/matching/service/MatchingEngine.java:52-58 | for a non-negative value the result is a non-negative whole number of hundredths, above the value minus half a hundredth and at most the value plus half a hundredth |
| Numbers.Round2Monotone | solar/src/main/java/com/example/solar/matching/service/MatchingEngine.java:52-58 | rounding to two decimals never reverses the order of two values |
| Numbers.Round2Exact | solar/src/main/java/com/example/solar/matching/service/MatchingEngine.java:52-58 | a value already on two decimals is unchanged by the rounding |
| Numbers.Round2Within | solar/src/main/java/com/example/solar/matching/service/MatchingEngine.java:52-58 | a value inside an interval whose ends are on two decimals stays inside it once rounded |
| Numbers.HundredthsAreCents | solar/src/main/java/com/example/solar/matching/domain/Match.java:38-54 | every integer number of hundredths is a value a scale-2 column holds |
| GeoUtils.CalculateDistance | solar/src/main/java/com/example/solar/common/util/GeoUtils.java:18-39 | any missing coordinate gives the sentinel `Double.MAX_VALUE`; four present coordinates give the great-circle distance |
| GeoUtils.IsValidLatitude | solar/src/main/java/com/example/solar/common/util/GeoUtils.java:59-63 | a latitude is refused when absent, and every valid latitude is also a valid longitude |
| GeoUtils.IsValidLongitude | solar/src/main/java/com/example/solar/common/util/GeoUtils.java:66-70 | a longitude is refused when absent |
| GeoUtils.CoordinateRangesSymmetric | solar/src/main/java/com/example/solar/common/util/GeoUtils.java:59-70 | both ranges are closed and symmetric: a coordinate is valid exactly when its mirror is, the poles and the antimeridian included |
| GeoUtils.DistanceScore | solar/src/main/java/com/example/solar/common/util/GeoUtils.java:45-57 | the score is in [0, 100]; it is 0 beyond the service radius and 100 within 10 km when inside the radius |
| GeoUtils.BandFractionInUnit | solar/src/main/java/com/example/solar/common/util/GeoUtils.java:45-57 | between 10 km and the radius, the share of the band covered lies in (0, 1] |
| GeoUtils.DistanceScoreInBand | solar/src/main/java/com/example/solar/common/util/GeoUtils.java:45-57 | between 10 km and the radius the clamp never acts: the score is the straight line from 100 down, and the divisor is positive |
| GeoUtils.DistanceScoreZeroAtRadius | solar/src/main/java/com/example/solar/common/util/GeoUtils.java:45-57 | with a radius above 10 km the line reaches exactly 0 at the radius |
| GeoUtils.DistanceScoreRadiusFirst | solar/src/main/java/com/example/solar/common/util/GeoUtils.java:45-57 | with a radius below 10 km a distance past the radius scores 0 even within 10 km, because the radius test comes first |
| GeoUtils.BandFractionMonotone | solar/src/main/java/com/example/solar/common/util/GeoUtils.java:45-57 | further into the band covers more of it |
| GeoUtils.DistanceScoreAntitone | solar/src/main/java/com/example/solar/common/util/GeoUtils.java:45-57 | for a fixed radius, moving further away never raises the score |
| GeoUtils.MissingCoordinateScoresZero | solar/src/main/java/com/example/solar/common/util/GeoUtils.java:18-57 | a professional or job without a coordinate scores 0 on distance for every radius a Java `int` can hold |
| MatchingEngine.ExpertiseTag | solar/src/main/java/com/example/solar/matching/service/MatchingEngine.java:266-275 | each job type maps to a non-empty tag with no lower-case letter, the form in which expertise types are stored |
| MatchingEngine.IsRelated | solar/src/main/java/com/example/solar/matching/service/MatchingEngine.java:277-295 | the related-tag table: a held tag relates to a required one only for PANEL_INSTALLATION, MAINTENANCE and REPAIR, and then it is a different, non-empty tag of capitals and underscores, compared exactly |
| MatchingEngine.HasRelatedExpertise | solar/src/main/java/com/example/solar/matching/service/MatchingEngine.java:277-295 | `anyMatch`: some held entry is related to the required tag; this needs a non-empty list and one of the three job types with related tags |
| MatchingEngine.RelatedTableIsDirectional | solar/src/main/java/com/example/solar/matching/service/MatchingEngine.java:277-295 | REPAIR and MAINTENANCE credit each other, but UPGRADE counts for PANEL_INSTALLATION and INSPECTION for MAINTENANCE only one way; BATTERY_SETUP and UPGRADE accept no related tag; the table compares exactly, so no held tag with a lower-case letter ever relates |
| MatchingEngine.ExactYears | solar/src/main/java/com/example/solar/matching/service/MatchingEngine.java:105-119 | the result is 0 or the years of some exact-match entry, and no exact-match entry records more |
| MatchingEngine.ScanExpertise | solar/src/main/java/com/example/solar/matching/service/MatchingEngine.java:105-119 | the loop over the expertise list yields whether some entry matches exactly, the most years on such an entry, and whether one is certified |
| MatchingEngine.CalculateExpertiseScore | solar/src/main/java/com/example/solar/matching/service/MatchingEngine.java:93-142 | the method's score equals the expertise score: 50 for an exact match or else 25 for a related tag, plus up to 30 for years and 20 for a certification on an exact entry, at most 100, and 0 for an empty list |
| MatchingEngine.NoExactMeansNoYears | solar/src/main/java/com/example/solar/matching/service/MatchingEngine.java:105-141 | without an exact match neither years nor a certification count |
| MatchingEngine.ExpertiseScore | solar/src/main/java/com/example/solar/matching/service/MatchingEngine.java:93-142 | the expertise score lies in [0, 100]; it is at least 50 with an exact match, and without one it is exactly 25 when a related tag is held and 0 otherwise, since years and certifications count only on exact entries |
| MatchingEngine.ExpertiseScoreFull | solar/src/main/java/com/example/solar/matching/service/MatchingEngine.java:121-141 | an exact, certified entry with ten or more years reaches the cap of 100 |
| MatchingEngine.IrrelevantEntryIgnored | solar/src/main/java/com/example/solar/matching/service/MatchingEngine.java:105-119 | appending an entry that neither matches nor relates to the required tag leaves the score unchanged |
| MatchingEngine.CountFree | solar/src/main/java/com/example/solar/matching/service/MatchingEngine.java:162-164 | the count of unbooked slots is at most the number of slots, and is positive exactly when some slot is free |
| MatchingEngine.CountFreeOn | solar/src/main/java/com/example/solar/matching/service/MatchingEngine.java:169-171 | the count of unbooked slots on the day is at most the free count, and is positive exactly when a free slot falls on that day |
| MatchingEngine.CountFreeNear | solar/src/main/java/com/example/solar/matching/service/MatchingEngine.java:185-192 | the count of unbooked slots within seven days either side (ends included) is at most the free count, and is positive exactly when such a slot exists |
| MatchingEngine.CountSlots | solar/src/main/java/com/example/solar/matching/service/MatchingEngine.java:162-192 | the three slot counts gathered in one pass equal the free, on-the-day and nearby counts |
| MatchingEngine.CalculateAvailabilityScore | solar/src/main/java/com/example/solar/matching/service/MatchingEngine.java:150-200 | the method's score equals the availability score: 20 without slots, 70 or 20 without a preferred date, else 60 for a free slot on the day, 5 per free slot up to 30, 10 for a nearby free slot when none is on the day, at most 100 |
| MatchingEngine.AvailabilityWithDate | solar/src/main/java/com/example/solar/matching/service/MatchingEngine.java:168-199 | with a preferred date the score never exceeds 90, and is at least 60 exactly when a free slot falls on that day |
| MatchingEngine.AvailabilityScore | solar/src/main/java/com/example/solar/matching/service/MatchingEngine.java:150-200 | the availability score lies in [0, 100]; it is 20 without slots, and without a preferred date it is 70 exactly when some slot is free and 20 otherwise |
| MatchingEngine.AvailabilityOneSlotNearby | solar/src/main/java/com/example/solar/matching/service/MatchingEngine.java:177-197 | example: one free slot three days after the preferred date scores 15: 5 for the slot and 10 for flexibility |
| MatchingEngine.RatingScore | solar/src/main/java/com/example/solar/matching/service/MatchingEngine.java:206-224 | a missing or zero rating scores 50; the score never exceeds 100 and is non-negative for a non-negative rating |
| MatchingEngine.RatingScoreMonotone | solar/src/main/java/com/example/solar/matching/service/MatchingEngine.java:206-224 | among rated professionals, a better rating or a longer record never lowers the score |
| MatchingEngine.NewProfessionalOutscoresLowRating | solar/src/main/java/com/example/solar/matching/service/MatchingEngine.java:206-224 | an unrated professional (rating 0, scored 50) outscores every rated one below 2 stars with no completed jobs |
| MatchingEngine.PriceScore | solar/src/main/java/com/example/solar/matching/service/MatchingEngine.java:230-264 | the score is 50 exactly when no rate is known, and always lies in [20, 100] |
| MatchingEngine.PriceScoreAntitone | solar/src/main/java/com/example/solar/matching/service/MatchingEngine.java:230-264 | for a fixed budget, or none, a dearer hourly rate never scores higher |
| MatchingEngine.WeightedTermBounds | solar/src/main/java/com/example/solar/matching/service/MatchingEngine.java:44-48 | a score in [0, 100] weighted by a non-negative weight contributes between 0 and the weight |
| MatchingEngine.WeightedTotal | solar/src/main/java/com/example/solar/matching/service/MatchingEngine.java:43-48 | the weighted sum: when every dimension has the same score, the total is that score times the weight sum over 100 |
| MatchingEngine.WeightedTotalInRange | solar/src/main/java/com/example/solar/matching/service/MatchingEngine.java:44-48 | with non-negative weights summing to 100 and every dimension in [0, 100], the weighted total is in [0, 100] |
| MatchingEngine.WeightedTotalOfEqualScores | solar/src/main/java/com/example/solar/matching/service/MatchingEngine.java:44-48 | with weights summing to 100, five equal dimension scores give that score as the total |
| MatchingEngine.DistanceReasonOf | solar/src/main/java/com/example/solar/matching/service/MatchingEngine.java:297-307 | with a radius of at least 10 km, the "very close" text is chosen exactly when the distance score is 100, and the "outside" text only with a score of 0 |
| MatchingEngine.DistanceReasonDisagrees | solar/src/main/java/com/example/solar/matching/service/MatchingEngine.java:297-307 | with a radius under 10 km, a distance past the radius but within 10 km scores 0 yet is described as very close; with a radius over 10 km, a distance equal to the radius scores 0 yet is described as within the service area |
| MatchingEngine.ExpertiseReasonOf | solar/src/main/java/com/example/solar/matching/service/MatchingEngine.java:309-322 | the expertise text is "exact" exactly when the score is at least 50, "related" exactly when it is 25, and "no relevant" exactly when it is 0 |
| MatchingEngine.AvailabilityReasonOf | solar/src/main/java/com/example/solar/matching/service/MatchingEngine.java:324-338 | the open-scheduling text is chosen exactly without a preferred date; with one, the text names availability on that date exactly when the score is at least 60 |
| MatchingEngine.RatingReasonOf | solar/src/main/java/com/example/solar/matching/service/MatchingEngine.java:340-351 | the "new professional" text goes with the neutral rating score 50; for a rated professional the printed rating and job count determine the rating score (20 per star plus half a point per job up to 10, at most 100) |
| MatchingEngine.PriceReasonOf | solar/src/main/java/com/example/solar/matching/service/MatchingEngine.java:352-371 | "negotiable" is chosen exactly when the price score is the neutral 50; with a rate and a budget, "well within budget" exactly when the score is 100, "within budget" exactly when it is 80, and "above budget" exactly when it is 60 or less |
| MatchingEngine.DistanceTo | solar/src/main/java/com/example/solar/matching/service/MatchingEngine.java:35 | the distance of a professional without a coordinate is the sentinel `Double.MAX_VALUE`; otherwise it is the arc between the professional and the job, whose coordinates are always present |
| MatchingEngine.CalculateMatchScore | solar/src/main/java/com/example/solar/matching/service/MatchingEngine.java:30-65 | the method's breakdown equals the match score of the professional for the job: a failure for a missing radius, else the five rounded scores, the rounded weighted total and the reasons |
| MatchingEngine.MatchScoreBounds | solar/src/main/java/com/example/solar/matching/service/MatchingEngine.java:30-65 | every figure of a breakdown is whole hundredths; every rounded dimension score is in [0, 100] (price in [20, 100], rating at most 100), and the total is in [0, 100] for balanced weights and a non-negative rating |
| MatchingEngine.MatchScore | solar/src/main/java/com/example/solar/matching/service/MatchingEngine.java:30-65 | scoring a professional fails exactly when its service radius is missing, the one value the engine unboxes |
| ValidationUtils.TrimLeft | solar/src/main/java/com/example/solar/common/util/ValidationUtils.java:37-42 | the result is a suffix of the input that does not start with a character at or below U+0020, and only such characters were removed |
| ValidationUtils.TrimRight | solar/src/main/java/com/example/solar/common/util/ValidationUtils.java:37-42 | the result is a prefix of the input that does not end with a character at or below U+0020, and only such characters were removed |
| ValidationUtils.Trim | solar/src/main/java/com/example/solar/common/util/ValidationUtils.java:37-42 | `String.trim`: a slice of the input that neither starts nor ends with a control or space character, every character cut from the left or the right being such a character; empty exactly when the input holds nothing else |
| ValidationUtils.TrimIdempotent | solar/src/main/java/com/example/solar/common/util/ValidationUtils.java:37-42 | trimming a trimmed string changes nothing |
| ValidationUtils.IsNotEmpty | solar/src/main/java/com/example/solar/common/util/ValidationUtils.java:32-34 | a value counts as not empty exactly when it is present and holds a character above U+0020 |
| ValidationUtils.Sanitize | solar/src/main/java/com/example/solar/common/util/ValidationUtils.java:37-42 | null stays null, and any other input becomes its trim |
| ValidationUtils.SanitizeIdempotent | solar/src/main/java/com/example/solar/common/util/ValidationUtils.java:37-42 | sanitizing twice is sanitizing once |
| ValidationUtils.UpperChar | solar/src/main/java/com/example/solar/professional/service/ProfessionalService.java:166 | upper-casing maps an ASCII small letter to the capital 32 code points below it and leaves every other character unchanged |
| ValidationUtils.LowerChar | solar/src/main/java/com/example/solar/professional/service/ProfessionalService.java:66 | lower-casing maps an ASCII capital to the small letter 32 code points above it and leaves every other character unchanged |
| ValidationUtils.EqualsIgnoreCase | solar/src/main/java/com/example/solar/matching/service/MatchingEngine.java:108-110 | two strings are equal ignoring case exactly when their upper-cased forms are equal |
| ValidationUtils.ToUpper | solar/src/main/java/com/example/solar/professional/service/ProfessionalService.java:166 | the result has the input's length and the upper-case of each of its characters |
| ValidationUtils.ToLower | solar/src/main/java/com/example/solar/professional/service/ProfessionalService.java:66 | the result has the input's length and the lower-case of each of its characters |
| ValidationUtils.UpperCaseEqualsIgnoringCase | solar/src/main/java/com/example/solar/matching/service/MatchingEngine.java:108-110 | an upper-cased tag still equals the original ignoring case, so stored tags meet the engine's case-insensitive comparison |
| ValidationUtils.TrimSameCut | solar/src/main/java/com/example/solar/common/util/ValidationUtils.java:37-42 | two strings with trimmable characters at the same positions are trimmed at the same cut |
| ValidationUtils.TrimLowerCommute | solar/src/main/java/com/example/solar/professional/service/ProfessionalService.java:66 | lower-casing then trimming gives the same as trimming then lower-casing |
| ValidationUtils.TrimUpperCommute | solar/src/main/java/com/example/solar/professional/service/ProfessionalService.java:166 | upper-casing then trimming gives the same as trimming then upper-casing |
| ValidationUtils.MatchesEmailIsPattern | solar/src/main/java/com/example/solar/common/util/ValidationUtils.java:8-9 | the position-based check holds exactly when the text is local characters, '@', domain characters, '.', and two or more letters |
| ValidationUtils.IsValidEmail | solar/src/main/java/com/example/solar/common/util/ValidationUtils.java:15-20 | an address is valid exactly when it is present and its trimmed text matches the email pattern; the blank check adds nothing |
| ValidationUtils.LowerKeepsEmailPattern | solar/src/main/java/com/example/solar/common/util/ValidationUtils.java:8-9 | lower-casing keeps an address inside the pattern |
| ValidationUtils.NormalizedEmailValid | solar/src/main/java/com/example/solar/customer/service/CustomerService.java:60 | the stored form of a valid address (lower-cased, then trimmed) is itself a valid address |
| ValidationUtils.NormalizedEmailLowerCase | solar/src/main/java/com/example/solar/customer/service/CustomerService.java:60 | the stored form of an address holds no upper-case ASCII letter |
| ValidationUtils.StripSeparators | solar/src/main/java/com/example/solar/common/util/ValidationUtils.java:26-27 | the result holds no whitespace, '-', '(' or ')', keeps every other character as many times as the input holds it, and is the input itself when the input has no separator |
| ValidationUtils.KeptPositions | solar/src/main/java/com/example/solar/common/util/ValidationUtils.java:26-27 | the positions of the input that hold no separator, all of them, in increasing order |
| ValidationUtils.StripSeparatorsInOrder | solar/src/main/java/com/example/solar/common/util/ValidationUtils.java:26-27 | order is kept: the k-th character left is the input's character at the k-th non-separator position |
| ValidationUtils.StripSeparatorsConcat | solar/src/main/java/com/example/solar/common/util/ValidationUtils.java:26-27 | stripping a concatenation is concatenating the stripped parts |
| ValidationUtils.IsValidPhone | solar/src/main/java/com/example/solar/common/util/ValidationUtils.java:22-29 | a phone is valid exactly when it is present and, separators deleted, is an optional '+' and 2 to 15 digits not starting with '0'; the blank check adds nothing |
| ValidationUtils.MatchingPhoneNotBlank | solar/src/main/java/com/example/solar/common/util/ValidationUtils.java:22-29 | a phone that matches once its separators are deleted still holds a digit, so it is never blank |
| ValidationUtils.SeparatorsDoNotMatter | solar/src/main/java/com/example/solar/common/util/ValidationUtils.java:22-29 | inserting a space, hyphen or parenthesis anywhere never changes whether a phone is valid |
| Setters.TextUpdate | solar/src/main/java/com/example/solar/customer/service/CustomerService.java:113-121 | a text field changes only to a non-blank input, trimmed, and otherwise keeps its value |
| Setters.ValueUpdate | solar/src/main/java/com/example/solar/professional/service/ProfessionalService.java:141-149 | a field changes only to a present input, and otherwise keeps its value |
| Setters.TextUpdateIdempotent | solar/src/main/java/com/example/solar/customer/service/CustomerService.java:113-121 | applying the same text update twice is applying it once |
| Ranking.SortDesc | solar/src/main/java/com/example/solar/matching/service/MatchService.java:84-86 | the sort keeps the number of elements |
| Ranking.SortDescCorrect | solar/src/main/java/com/example/solar/matching/service/MatchService.java:84-86 | the sort returns a permutation of its input ordered by non-increasing key |
| Ranking.SortDescStable | solar/src/main/java/com/example/solar/matching/service/MatchService.java:84-86 | among elements of equal key the sort keeps the input order, as Java's stable sort does |
| Ranking.SortDescSameElements | solar/src/main/java/com/example/solar/matching/service/MatchService.java:84-86 | the sort neither loses nor adds an element |
| Ranking.SortDescDistinct | solar/src/main/java/com/example/solar/matching/service/MatchService.java:84-86 | a list without repeats is still without repeats once sorted |
| Ranking.Take | solar/src/main/java/com/example/solar/matching/service/MatchService.java:87 | `limit(n)`: a prefix of the input, exactly `n` elements long when the input is longer and the whole input otherwise |
| Ranking.InsertDescSorted | solar/src/main/java/com/example/solar/matching/service/MatchService.java:84-86 | inserting into a sorted list keeps it sorted and adds exactly the new element |
| Store.Select | solar/src/main/java/com/example/solar/matching/repository/MatchRepository.java:13-16 | a query returns, in ascending id order, exactly the stored ids below the counter whose rows satisfy the filter |
| Store.Rows | solar/src/main/java/com/example/solar/matching/repository/MatchRepository.java:13-16 | the rows of a selection, one per id, in the selection's order |
| Store.Database.constructor | solar/src/main/java/com/example/solar/matching/domain/Match.java:16-18 | an empty database: every table is empty, every identity counter starts at 1, and the table invariants hold |
| ProfessionalEntity.FirstMatch | solar/src/main/java/com/example/solar/professional/domain/Professional.java:96-99 | `List.remove`'s search: the first position whose element equals the argument, or the length when none does |
| ProfessionalEntity.RemoveFirstBy | solar/src/main/java/com/example/solar/professional/domain/Professional.java:96-99 | `List.remove(Object)` under the elements' `equals`: no equal element leaves the list alone; otherwise it is one shorter and adds nothing |
| ProfessionalEntity.RemoveFirstByCutsFirst | solar/src/main/java/com/example/solar/professional/domain/Professional.java:96-99 | the removal cuts out exactly the element at the first equal position and keeps the order of the rest |
| ProfessionalEntity.RemoveFirstByMultiset | solar/src/main/java/com/example/solar/professional/domain/Professional.java:96-99 | as a bag, the removal takes away exactly the element at the first equal position |
| ProfessionalEntity.RemoveFirstByDistinctKeys | solar/src/main/java/com/example/solar/professional/domain/Professional.java:96-99 | when no two listed elements are equal, removing an element's value removes that element itself |
| ProfessionalEntity.RemoveFirstByEarlierTwin | solar/src/main/java/com/example/solar/professional/domain/Professional.java:96-99 | when an earlier element equals the argument, the argument itself stays in the list |
| ProfessionalEntity.ProfessionalExpertise.constructor | solar/src/main/java/com/example/solar/professional/domain/ProfessionalExpertise.java:22-41 | a new expertise entry has the given type, years and certification, and no id, owner or creation time |
| ProfessionalEntity.AvailabilitySlot.constructor | solar/src/main/java/com/example/solar/professional/domain/AvailabilitySlot.java:24-47 | a new slot has the given date and times, no id, owner or creation time, and is not booked |
| ProfessionalEntity.Professional.constructor | solar/src/main/java/com/example/solar/professional/domain/Professional.java:52-80 | a professional built with its identifying fields takes every builder default: radius 50, rating 0, no completed jobs, unverified, empty lists |
| ProfessionalEntity.Professional.AddExpertise | solar/src/main/java/com/example/solar/professional/domain/Professional.java:91-94 | the entry is appended, the slots are untouched, the entry's owner becomes this professional, and ownership of the lists is kept |
| ProfessionalEntity.Professional.RemoveExpertise | solar/src/main/java/com/example/solar/professional/domain/Professional.java:96-99 | the first listed entry equal to the argument under Lombok's field-by-field `equals` (ProfessionalExpertise.java:16) is removed, which need not be the argument; the slots are untouched; the argument loses its owner; ownership is kept when the argument is no longer listed |
| ProfessionalEntity.Professional.AddAvailabilitySlot | solar/src/main/java/com/example/solar/professional/domain/Professional.java:101-104 | the slot is appended, the expertise is untouched, the slot's owner becomes this professional, and ownership of the lists is kept |
| ProfessionalEntity.Professional.RemoveAvailabilitySlot | solar/src/main/java/com/example/solar/professional/domain/Professional.java:106-109 | the first listed slot equal to the argument under Lombok's `equals` (AvailabilitySlot.java:18) is removed; the expertise is untouched; the argument loses its owner; ownership is kept when the argument is no longer listed |
| ProfessionalEntity.RemoveTwinLeavesOrphan | solar/src/main/java/com/example/solar/professional/domain/Professional.java:91-99 | example: after adding two new entries with the same fields, removing the second drops the first, so the second stays listed with no owner and the list no longer points back consistently |
| MatchSpec.CriteriaFor | solar/src/main/java/com/example/solar/matching/service/MatchService.java:190-219 | with no overrides the criteria are the defaults; unchanged weights stay balanced; an absent cap, threshold or pool filter keeps 10, 50 and verified-only |
| MatchSpec.Pool | solar/src/main/java/com/example/solar/matching/service/MatchService.java:56-61 | the pool holds, in ascending id order, every stored professional, or every verified one when the pool is verified-only, and nothing else |
| MatchSpec.Scored | solar/src/main/java/com/example/solar/matching/service/MatchService.java:66-81 | each scored candidate is a pool professional whose score succeeded and reached the threshold, carrying that score; a failed score is skipped |
| MatchSpec.ScoredComplete | solar/src/main/java/com/example/solar/matching/service/MatchService.java:66-81 | every pool professional whose score succeeds and reaches the threshold is among the scored candidates |
| MatchSpec.ScoredStep | solar/src/main/java/com/example/solar/matching/service/MatchService.java:66-81 | one step of the scoring loop keeps what was kept before and appends the last professional when it qualifies |
| MatchSpec.Ranked | solar/src/main/java/com/example/solar/matching/service/MatchService.java:84-88 | the ranked list holds at most the cap and no more than the scored candidates, sorted by total score from the best down |
| MatchSpec.NewMatchRow | solar/src/main/java/com/example/solar/matching/service/MatchService.java:106-116 | the saved row is a SUGGESTED match of the job and the candidate, holding the candidate's total as match score and its rounded distance and dimension scores |
| MatchSpec.ViewWithBreakdown | solar/src/main/java/com/example/solar/matching/service/MatchService.java:247-262 | the answered view carries the row's ids, match score and status, and the engine's own breakdown, reasons included |
| MatchSpec.FitsColumns | solar/src/main/java/com/example/solar/matching/domain/Match.java:38-54 | the declared NUMERIC(6,2) and NUMERIC(5,2) columns: a breakdown with every score in [0, 100] and a non-negative distance fits exactly when the distance is below 10000 km |
| MatchSpec.StatusAfterRun | solar/src/main/java/com/example/solar/matching/service/MatchService.java:127-130 | a run changes a job's status only from PENDING to MATCHED, exactly when it created a match; an open job stays open |
| MatchSpec.ReadBack | solar/src/main/java/com/example/solar/matching/service/MatchService.java:221-245 | a stored match read back keeps its ids, status and stored figures, reports the stored match score as its total, carries no reasons, and derives a distance score that with twice the distance makes 100 |
| MatchSpec.PersistStep | solar/src/main/java/com/example/solar/matching/service/MatchService.java:97-119 | one save fails exactly when the pair is unmatched and a figure is too wide for its column; otherwise the pair is matched afterwards, the created views grow by at most one with the counter, and with the counter above every key the old rows are kept |
| MatchSpec.Persist | solar/src/main/java/com/example/solar/matching/service/MatchService.java:93-124 | the persisting loop fails only when some candidate has a figure too wide for its column |
| MatchSpec.Conclude | solar/src/main/java/com/example/solar/matching/service/MatchService.java:93-130 | a run whose saving fails changes no table |
| MatchSpec.FindMatchesSpec | solar/src/main/java/com/example/solar/matching/service/MatchService.java:41-134 | a failed run, for an unknown or closed job, a negative cap or a failed save, changes no table |
| MatchSpec.JobMatchIdsCorrect | solar/src/main/java/com/example/solar/matching/repository/MatchRepository.java:18-19 | the job's match query returns each of the job's matches exactly once, best score first |
| MatchSpec.JobMatchIds | solar/src/main/java/com/example/solar/matching/repository/MatchRepository.java:19 | `findByJobIdOrderByMatchScoreDesc`: the ids listed are exactly the stored matches of the job |
| MatchSpec.SelectedMatches | solar/src/main/java/com/example/solar/matching/repository/MatchRepository.java:13 | the job's filter selects each match of the job exactly once |
| MatchSpec.JobMatchIdsOrdered | solar/src/main/java/com/example/solar/matching/repository/MatchRepository.java:18-19 | the job's match ids come best score first |
| MatchSpec.ReadBackAll | solar/src/main/java/com/example/solar/matching/service/MatchService.java:221-245 | each id's stored match, read back, in the ids' order |
| MatchSpec.MatchesByJob | solar/src/main/java/com/example/solar/matching/service/MatchService.java:137-147 | an unknown job is not found; otherwise every match of the job is read back, once, best score first |
| MatchSpec.MatchesByProfessional | solar/src/main/java/com/example/solar/matching/service/MatchService.java:150-160 | an unknown professional is not found; otherwise every match of the professional is read back, once, in id order |
| MatchService.BuildMatchCriteria | solar/src/main/java/com/example/solar/matching/service/MatchService.java:190-219 | the criteria built from the builder defaults and the present overrides are the criteria of the request |
| MatchService.ScorePool | solar/src/main/java/com/example/solar/matching/service/MatchService.java:66-81 | the scoring loop yields the scored candidates of the pool, in pool order |
| MatchService.SaveMatches | solar/src/main/java/com/example/solar/matching/service/MatchService.java:93-124 | the saving loop fails exactly when the persisting function fails, and then leaves the match table as it was; otherwise it leaves the table and the views that function gives, keeping ids below the counter and pairs unique |
| MatchService.FinishRun | solar/src/main/java/com/example/solar/matching/service/MatchService.java:93-130 | saving the ranked candidates and setting the job's status leaves the tables and the answer of concluding the run |
| MatchService.FindMatches | solar/src/main/java/com/example/solar/matching/service/MatchService.java:41-134 | the method's answer and tables are those of the matching run's specification, and the database invariants hold |
| MatchService.GetMatchesByJobId | solar/src/main/java/com/example/solar/matching/service/MatchService.java:137-147 | the answer is the job's matches read back, best first, or not found |
| MatchService.GetMatchesByProfessionalId | solar/src/main/java/com/example/solar/matching/service/MatchService.java:150-160 | the answer is the professional's matches read back, in id order, or not found |
| MatchService.UpdateMatchStatus | solar/src/main/java/com/example/solar/matching/service/MatchService.java:163-174 | an unknown match is not found and nothing changes; otherwise only that match's status changes, to any status, and it is read back |
| MatchService.DeleteMatch | solar/src/main/java/com/example/solar/matching/service/MatchService.java:177-186 | an unknown match is not found and nothing changes; otherwise exactly that match is removed |
| MatchProperties.PersistGrows | solar/src/main/java/com/example/solar/matching/service/MatchService.java:93-124 | the saving loop keeps every existing row and numbers the rows it adds from the counter, one per created view |
| MatchProperties.PersistOrigins | solar/src/main/java/com/example/solar/matching/service/MatchService.java:106-119 | every created view comes from a ranked candidate: it has that candidate's professional and total score |
| MatchProperties.PersistKeepsRank | solar/src/main/java/com/example/solar/matching/service/MatchService.java:95-119 | views created from ranked candidates come out ranked the same way |
| MatchProperties.PersistKeepsPairsUnique | solar/src/main/java/com/example/solar/matching/domain/Match.java:16-18 | the loop never adds a second row for a (job, professional) pair, and adds only pairs that were not matched |
| MatchProperties.PersistCovers | solar/src/main/java/com/example/solar/matching/service/MatchService.java:97-103 | after the loop, every ranked candidate's pair is matched |
| MatchProperties.PersistNoop | solar/src/main/java/com/example/solar/matching/service/MatchService.java:97-103 | when every pair is already matched the loop saves nothing and changes nothing |
| MatchProperties.PersistFailsOnOverflow | solar/src/main/java/com/example/solar/matching/domain/Match.java:38-54 | an unmatched candidate with a figure too wide for its column makes the whole loop fail |
| MatchProperties.UnlocatedProfessionalOverflows | solar/src/main/java/com/example/solar/common/util/GeoUtils.java:20-22 | a professional without coordinates is placed at `Double.MAX_VALUE` km, too wide for the distance column |
| MatchProperties.RankedFromScored | solar/src/main/java/com/example/solar/matching/service/MatchService.java:84-88 | the ranked list holds exactly the cap, or all the scored candidates when fewer; it holds only scored candidates, all of them when they fit under the cap, and the cap cuts only candidates scoring no higher than every one it keeps |
| MatchProperties.ScoredIgnoresStatus | solar/src/main/java/com/example/solar/matching/service/MatchService.java:66-81 | scoring never reads the job's status |
| MatchProperties.RunConcludes | solar/src/main/java/com/example/solar/matching/service/MatchService.java:41-134 | a successful run found an open job and a non-negative cap, and is the conclusion of its ranked selection |
| MatchProperties.ConcludeKeepsMatchTable | solar/src/main/java/com/example/solar/matching/service/MatchService.java:93-124 | concluding keeps the match table's keys below its counter, its pairs unique and its old rows |
| MatchProperties.FindMatchesKeepsMatchTable | solar/src/main/java/com/example/solar/matching/service/MatchService.java:41-134 | a run keeps the match table's keys below its counter and its pairs unique, and keeps every existing row |
| MatchProperties.FindMatchesAnswer | solar/src/main/java/com/example/solar/matching/service/MatchService.java:41-134 | a successful run answers at most the cap of new suggestions, each at or above the threshold, for a pool professional not matched before, under a fresh id, best score first |
| MatchProperties.RankedAnswer | solar/src/main/java/com/example/solar/matching/service/MatchService.java:84-124 | the answer properties for the saving loop over a ranked selection of a scored pool |
| MatchProperties.FindMatchesComplete | solar/src/main/java/com/example/solar/matching/service/MatchService.java:66-124 | after a successful run, a pool professional whose score reaches the threshold was already matched to the job, or is answered a new suggestion, or the cap was filled by candidates scoring at least as high |
| MatchProperties.PoolKeeps | solar/src/main/java/com/example/solar/matching/service/MatchService.java:66-81 | a qualifying professional of the pool is among the scored candidates, with its own total |
| MatchProperties.ConcludedAnswer | solar/src/main/java/com/example/solar/matching/service/MatchService.java:93-134 | the answer of a successful run is exactly the views the persisting loop created |
| MatchProperties.RankedComplete | solar/src/main/java/com/example/solar/matching/service/MatchService.java:84-124 | for the persisting loop over a ranked selection, a scored candidate is matched before, answered, or cut by a full cap of candidates scoring at least as high |
| MatchProperties.FindMatchesJobStatus | solar/src/main/java/com/example/solar/matching/service/MatchService.java:126-130 | a successful run changes only the requested job's status: PENDING becomes MATCHED exactly when a match was created, and MATCHED stays so |
| MatchProperties.FindMatchesIdempotent | solar/src/main/java/com/example/solar/matching/service/MatchService.java:97-103 | running the same request again right after a successful run creates nothing and changes no table |
| MatchProperties.RerunRanksAlike | solar/src/main/java/com/example/solar/matching/service/MatchService.java:41-88 | a second run passes the same checks and ranks the same candidates |
| MatchProperties.ConcludeAgain | solar/src/main/java/com/example/solar/matching/service/MatchService.java:93-130 | concluding the same candidates again saves nothing and changes nothing |
| MatchProperties.UnlocatedCandidateFailsRun | solar/src/main/java/com/example/solar/matching/service/MatchService.java:93-124 | a run whose ranked list holds an unlocated professional not yet matched to the job fails and changes nothing |
| MatchProperties.ReadBackOfSaved | solar/src/main/java/com/example/solar/matching/service/MatchService.java:221-245 | a saved match read back differs from the run's answer only in the distance score, derived as 100 - 2 * distanceKm, and the missing reasons |
| MatchProperties.ReadBackUnderratesNearby | solar/src/main/java/com/example/solar/matching/service/MatchService.java:234-235 | a professional within 10 km and the radius has an engine distance score of 100, but its match reads back below 100 |
| MatchProperties.ReadBackNegativeFar | solar/src/main/java/com/example/solar/matching/service/MatchService.java:234-235 | beyond 50 km the read-back distance score is negative, which the engine never produces |
| QuoteService.CreateQuote | solar/src/main/java/com/example/solar/quote/service/QuoteService.java:40-90 | an unknown job or professional, a quote already given for the pair, or an unknown match is refused, in that order, and changes nothing; otherwise the pending quote, details trimmed, is stored under the next id |
| QuoteService.CreateQuoteError | solar/src/main/java/com/example/solar/quote/service/QuoteService.java:44-62 | a request is refused exactly when the job or the professional is unknown, the pair already has a quote, or a given match is unknown |
| QuoteService.NewQuote | solar/src/main/java/com/example/solar/quote/service/QuoteService.java:73-84 | a new quote is PENDING, for the requested job, professional, match and amount, with its details present exactly when given and trimmed |
| QuoteService.SecondQuoteRefused | solar/src/main/java/com/example/solar/quote/service/QuoteService.java:53-55 | once a quote is stored, a second request for the same job and professional is refused as a duplicate |
| QuoteService.CostsDoNotMatter | solar/src/main/java/com/example/solar/quote/service/QuoteService.java:65-70 | whether a request is accepted never depends on its costs, even when they do not add up to the amount |
| QuoteService.GetQuoteById | solar/src/main/java/com/example/solar/quote/service/QuoteService.java:93-98 | an unknown quote is not found, otherwise it is returned with its id |
| QuoteService.Views | solar/src/main/java/com/example/solar/quote/service/QuoteService.java:108-110 | the ids' quotes, one per id, in order |
| QuoteService.SelectedQuotes | solar/src/main/java/com/example/solar/quote/repository/QuoteRepository.java:14 | the job's filter selects each of its quotes exactly once |
| QuoteService.JobQuoteIdsOrdered | solar/src/main/java/com/example/solar/quote/repository/QuoteRepository.java:20-21 | the job's quote ids come cheapest first |
| QuoteService.JobQuoteIdsCorrect | solar/src/main/java/com/example/solar/quote/repository/QuoteRepository.java:20-21 | the job's quote query returns each of its quotes exactly once, cheapest first |
| QuoteService.JobQuoteIds | solar/src/main/java/com/example/solar/quote/repository/QuoteRepository.java:21 | `findByJobIdOrderByAmountAsc`: the ids listed are exactly the stored quotes of the job |
| QuoteService.GetQuotesByJobId | solar/src/main/java/com/example/solar/quote/service/QuoteService.java:101-111 | an unknown job fails; otherwise every quote of the job, once, cheapest first |
| QuoteService.GetQuotesByProfessionalId | solar/src/main/java/com/example/solar/quote/service/QuoteService.java:114-124 | an unknown professional fails; otherwise every quote of the professional, once, in id order |
| QuoteService.Amounts | solar/src/main/java/com/example/solar/quote/service/QuoteService.java:143-155 | the amounts of the ids' quotes, in order |
| QuoteService.Sum | solar/src/main/java/com/example/solar/quote/service/QuoteService.java:153-155 | the `reduce` from zero with `add`: a single amount sums to itself; the bounds of a sum are `SumBetween` |
| QuoteService.Lowest | solar/src/main/java/com/example/solar/quote/service/QuoteService.java:143-146 | the least amount is one of the amounts and no amount is below it |
| QuoteService.Highest | solar/src/main/java/com/example/solar/quote/service/QuoteService.java:148-151 | the greatest amount is one of the amounts and no amount is above it |
| QuoteService.SumBetween | solar/src/main/java/com/example/solar/quote/service/QuoteService.java:153-155 | the sum of n amounts lies between n times their least and n times their greatest |
| QuoteService.AverageBetween | solar/src/main/java/com/example/solar/quote/service/QuoteService.java:157-158 | a mean between two amounts stays within half a cent of them once rounded, and between them when they are whole cents |
| QuoteService.MeanBetween | solar/src/main/java/com/example/solar/quote/service/QuoteService.java:157-158 | the mean of values between two bounds lies between them |
| QuoteService.CompareQuotes | solar/src/main/java/com/example/solar/quote/service/QuoteService.java:127-169 | an unknown job and a job without quotes are not found; a known job with quotes is compared, and the comparison is for that job and counts its quotes |
| QuoteService.CompareQuotesCorrect | solar/src/main/java/com/example/solar/quote/service/QuoteService.java:127-169 | a comparison lists exactly the job's quotes and counts them; its lowest and highest are amounts of those quotes bounding every one of them; its average is their sum over their count rounded half up to two decimals, within half a cent of that range, and inside it when both ends are whole cents |
| QuoteService.SummaryBounds | solar/src/main/java/com/example/solar/quote/service/QuoteService.java:143-158 | for a non-empty selection the lowest and highest are amounts of the selection bounding every amount, and the rounded average is within half a cent of them, and between them when they are whole cents |
| QuoteService.AcceptSettlesJob | solar/src/main/java/com/example/solar/quote/service/QuoteService.java:172-198 | after accepting, the quote is accepted, no quote of its job is left pending, only statuses change, quotes of other jobs and quotes that were not pending are untouched, and no other quote becomes accepted |
| QuoteService.AfterAccept | solar/src/main/java/com/example/solar/quote/service/QuoteService.java:182-194 | after accepting, the same quotes are stored, the accepted one is ACCEPTED, only statuses change, and every other quote that changes was a PENDING quote of the same job and is now REJECTED |
| QuoteService.AcceptKeepsPairsUnique | solar/src/main/java/com/example/solar/quote/service/QuoteService.java:172-198 | accepting keeps every (job, professional) pair to a single quote |
| QuoteService.RejectEach | solar/src/main/java/com/example/solar/quote/service/QuoteService.java:189-194 | the loop rejects each listed quote except the accepted one and changes nothing else |
| QuoteService.AcceptThenRejectPending | solar/src/main/java/com/example/solar/quote/service/QuoteService.java:182-194 | accepting the quote and then rejecting the job's other pending quotes gives the state after accepting |
| QuoteService.SettleJob | solar/src/main/java/com/example/solar/quote/service/QuoteService.java:182-194 | the accepting branch leaves the quotes as after accepting |
| QuoteService.AcceptQuote | solar/src/main/java/com/example/solar/quote/service/QuoteService.java:172-198 | an unknown quote is not found and a non-pending one refused, both changing nothing; a pending one is accepted and the job's other pending quotes are rejected |
| QuoteService.RejectQuote | solar/src/main/java/com/example/solar/quote/service/QuoteService.java:201-216 | an unknown quote is not found and a non-pending one refused; a pending one becomes rejected and no other quote changes |
| QuoteService.DeleteQuote | solar/src/main/java/com/example/solar/quote/service/QuoteService.java:219-228 | an unknown quote is not found; otherwise exactly that quote is removed, whatever its status |
| ProfessionalService.CreateProfessionalError | solar/src/main/java/com/example/solar/professional/service/ProfessionalService.java:34-60 | a request is refused exactly when the address is invalid, the raw address or the given user id is taken, or a given coordinate pair is invalid |
| ProfessionalService.InsertKeepsKeysUnique | solar/src/main/java/com/example/solar/professional/domain/Professional.java:31-38 | a row clashing with no stored email or user id keeps both columns unique |
| ProfessionalService.SaveProfessional | solar/src/main/java/com/example/solar/professional/domain/Professional.java:31-38 | a row clashing with the unique email or user id columns is refused and changes nothing; otherwise it is stored under the next id |
| ProfessionalService.CheckProfessionalRequest | solar/src/main/java/com/example/solar/professional/service/ProfessionalService.java:37-60 | the checks, in their order, return the first reason for refusing the request |
| ProfessionalService.CreateProfessional | solar/src/main/java/com/example/solar/professional/service/ProfessionalService.java:34-80 | a refused request changes nothing; an accepted one stores the built professional, or fails on a unique column |
| ProfessionalService.NewProfessionalShape | solar/src/main/java/com/example/solar/professional/service/ProfessionalService.java:63-74 | a professional built from a request with a valid address and coordinates has a valid address and a position only when both coordinates are valid |
| ProfessionalService.NewProfessional | solar/src/main/java/com/example/solar/professional/service/ProfessionalService.java:63-74 | a new professional has the requested user id or else the generated one, an address without capitals, the requested position, a radius (50 unless given), rating 0, no completed jobs, no verification and empty lists |
| ProfessionalService.CaseVariantEmailReachesTable | solar/src/main/java/com/example/solar/professional/service/ProfessionalService.java:43-45 | the duplicate check compares the raw address: a case variant of a stored address passes it and clashes only at the unique column |
| ProfessionalService.MixedCaseAddress | solar/src/main/java/com/example/solar/professional/service/ProfessionalService.java:66 | example: "A@b.co" is a valid address, differs from "a@b.co", and is stored as "a@b.co" |
| ProfessionalService.CaseVariantEmailExample | solar/src/main/java/com/example/solar/professional/service/ProfessionalService.java:43-66 | example: with "a@b.co" stored, a request for "A@b.co" passes every check of the service |
| ProfessionalService.OnlyAddressTaken | solar/src/main/java/com/example/solar/professional/service/ProfessionalService.java:43 | example: with one professional stored, exactly its own address counts as taken |
| ProfessionalService.UpdatedProfessional | solar/src/main/java/com/example/solar/professional/service/ProfessionalService.java:115-155 | the update fails exactly when a coordinate pair given in full is invalid; otherwise email, user id, rating, job count, verification and the expertise and slot lists are kept |
| ProfessionalService.UpdateChangesOnlyRequested | solar/src/main/java/com/example/solar/professional/service/ProfessionalService.java:121-149 | every field the request leaves out keeps its value |
| ProfessionalService.UpdateIdempotent | solar/src/main/java/com/example/solar/professional/service/ProfessionalService.java:115-155 | applying the same update twice changes nothing more |
| ProfessionalService.EmptyUpdateKeeps | solar/src/main/java/com/example/solar/professional/service/ProfessionalService.java:115-155 | a request with nothing to change leaves the professional as it was |
| ProfessionalService.ApplyContact | solar/src/main/java/com/example/solar/professional/service/ProfessionalService.java:122-130 | the contact setters give the contact update |
| ProfessionalService.ApplyTerms | solar/src/main/java/com/example/solar/professional/service/ProfessionalService.java:141-149 | the setters of radius, rate and years give the terms update |
| ProfessionalService.ApplyUpdate | solar/src/main/java/com/example/solar/professional/service/ProfessionalService.java:121-149 | the setters, applied in order, give the updated professional or its failure |
| ProfessionalService.ReplaceKeepsKeysUnique | solar/src/main/java/com/example/solar/professional/domain/Professional.java:31-38 | replacing a row by one with the same email and user id keeps the columns unique |
| ProfessionalService.UpdateProfessional | solar/src/main/java/com/example/solar/professional/service/ProfessionalService.java:115-155 | an unknown professional is not found and an invalid position fails, both changing nothing; otherwise exactly that row is replaced by the updated professional |
| ProfessionalService.NewExpertise | solar/src/main/java/com/example/solar/professional/service/ProfessionalService.java:164-169 | a stored expertise type holds no lower-case letter, is the trimmed input upper-cased, and equals the trimmed input ignoring case |
| ProfessionalService.AddExpertise | solar/src/main/java/com/example/solar/professional/service/ProfessionalService.java:158-175 | an unknown professional is not found; otherwise the new expertise is appended to its list and nothing else changes |
| ProfessionalService.GetProfessionalExpertise | solar/src/main/java/com/example/solar/professional/service/ProfessionalService.java:178-188 | an unknown professional is not found; otherwise its expertise, in the order added |
| ProfessionalService.AddAvailability | solar/src/main/java/com/example/solar/professional/service/ProfessionalService.java:191-214 | an unknown professional is not found and an end before the start is refused; otherwise an unbooked slot is appended |
| ProfessionalService.SlotsWhere | solar/src/main/java/com/example/solar/professional/repository/AvailabilitySlotRepository.java:13-22 | the kept slots are slots of the list that satisfy the filter, and every such slot is kept |
| ProfessionalService.SlotsWhereAll | solar/src/main/java/com/example/solar/professional/repository/AvailabilitySlotRepository.java:13 | a filter every slot satisfies keeps the whole list |
| ProfessionalService.GetProfessionalAvailability | solar/src/main/java/com/example/solar/professional/service/ProfessionalService.java:217-234 | an unknown professional is not found; otherwise every slot, or the slots on the given date |
| ProfessionalService.GetAvailableSlots | solar/src/main/java/com/example/solar/professional/service/ProfessionalService.java:237-247 | an unknown professional is not found; otherwise the unbooked slots on the date, and none without a date |
| ProfessionalService.AvailableAmongAvailability | solar/src/main/java/com/example/solar/professional/repository/AvailabilitySlotRepository.java:15-22 | the available slots of a date are exactly the unbooked ones among that date's slots |
| ProfessionalService.SlotsWhereFused | solar/src/main/java/com/example/solar/professional/repository/AvailabilitySlotRepository.java:17-18 | filtering on the date and on being unbooked together is filtering by one then the other |
| ProfessionalService.GetProfessionalById | solar/src/main/java/com/example/solar/professional/service/ProfessionalService.java:83-88 | an unknown professional is not found, otherwise it is returned with its id |
| ProfessionalService.GetProfessionalByUserId | solar/src/main/java/com/example/solar/professional/service/ProfessionalService.java:91-96 | a user id no professional holds is not found; otherwise a professional holding it is returned |
| ProfessionalService.UserIdLookupUnique | solar/src/main/java/com/example/solar/professional/domain/Professional.java:31-32 | with unique user ids the lookup finds the only professional holding it |
| ProfessionalService.Views | solar/src/main/java/com/example/solar/professional/service/ProfessionalService.java:99-104 | the ids' professionals, one per id, in order |
| ProfessionalService.GetAllProfessionals | solar/src/main/java/com/example/solar/professional/service/ProfessionalService.java:99-104 | every stored professional, once, in id order |
| ProfessionalService.GetVerifiedProfessionals | solar/src/main/java/com/example/solar/professional/service/ProfessionalService.java:107-112 | every verified professional and nothing else, once, in id order |
| ProfessionalService.DeleteProfessional | solar/src/main/java/com/example/solar/professional/service/ProfessionalService.java:250-259 | an unknown professional is not found; otherwise exactly that row, with its expertise and slots, is removed |
| CustomerService.CreateCustomerError | solar/src/main/java/com/example/solar/customer/service/CustomerService.java:28-54 | a request is refused exactly when the address is invalid, the raw address or the given user id is taken, or a given coordinate pair is invalid |
| CustomerService.CheckCustomerRequest | solar/src/main/java/com/example/solar/customer/service/CustomerService.java:31-54 | the checks, in their order, return the first reason for refusing the request |
| CustomerService.CreateCustomer | solar/src/main/java/com/example/solar/customer/service/CustomerService.java:28-71 | a refused request changes nothing; an accepted one stores the built customer under the next id |
| CustomerService.SaveCustomer | solar/src/main/java/com/example/solar/customer/service/CustomerService.java:67 | the row is stored under the next id, which was free, and the counter moves on |
| CustomerService.NewCustomerShape | solar/src/main/java/com/example/solar/customer/service/CustomerService.java:57-65 | a customer built from a request with a valid address and coordinates has a valid address, trimmed name, phone and address, and a position only when both coordinates are valid |
| CustomerService.NewCustomer | solar/src/main/java/com/example/solar/customer/service/CustomerService.java:57-65 | a new customer has the requested user id or else the generated one, an address without capitals, the requested position, and a name present exactly when given and trimmed |
| CustomerService.GetCustomerById | solar/src/main/java/com/example/solar/customer/service/CustomerService.java:74-79 | an unknown customer is not found, otherwise it is returned with its id |
| CustomerService.FindOne | solar/src/main/java/com/example/solar/customer/service/CustomerService.java:82-95 | a single-result query with no qualifying row is not found; with one it returns that row, the only one qualifying; it fails otherwise, and then two rows qualify |
| CustomerService.GetCustomerByUserId | solar/src/main/java/com/example/solar/customer/service/CustomerService.java:82-87 | a user id no customer holds is not found; a found customer holds it |
| CustomerService.GetCustomerByEmail | solar/src/main/java/com/example/solar/customer/service/CustomerService.java:90-95 | an address no customer holds is not found; a found customer holds exactly that address |
| CustomerService.Views | solar/src/main/java/com/example/solar/customer/service/CustomerService.java:98-103 | the ids' customers, one per id, in order |
| CustomerService.GetAllCustomers | solar/src/main/java/com/example/solar/customer/service/CustomerService.java:98-103 | every stored customer, once, in id order |
| CustomerService.SharedEmailBreaksLookup | solar/src/main/java/com/example/solar/customer/service/CustomerService.java:90-95 | once two customers share an address, the lookup by that address fails, assuming, as the model does, that the customer table has no unique email column |
| CustomerService.CaseVariantBreaksEmailLookup | solar/src/main/java/com/example/solar/customer/service/CustomerService.java:28-65 | for a request `createCustomer` accepts whose address is a case variant of a stored one, storing the customer it builds under the next id makes the lookup by that address fail, assuming, as the model does, that the customer table has no unique email column |
| CustomerService.StoredVariantBreaksLookup | solar/src/main/java/com/example/solar/customer/service/CustomerService.java:57-65 | storing a customer whose normalised address another customer already holds makes the lookup by that address fail |
| CustomerService.UpdatedCustomer | solar/src/main/java/com/example/solar/customer/service/CustomerService.java:106-137 | the update fails exactly when a coordinate pair given in full is invalid; otherwise name, phone and address change only to non-blank input, trimmed, and email and user id never change |
| CustomerService.EmptyUpdateKeeps | solar/src/main/java/com/example/solar/customer/service/CustomerService.java:106-137 | a request with nothing to change leaves the customer as it was |
| CustomerService.UpdateIdempotent | solar/src/main/java/com/example/solar/customer/service/CustomerService.java:106-137 | applying the same update twice changes nothing more |
| CustomerService.ApplyUpdate | solar/src/main/java/com/example/solar/customer/service/CustomerService.java:112-131 | the setters, applied in order, give the updated customer or its failure |
| CustomerService.UpdateCustomer | solar/src/main/java/com/example/solar/customer/service/CustomerService.java:106-137 | an unknown customer is not found and an invalid position fails, both changing nothing; otherwise exactly that row is replaced by the updated customer |
| CustomerService.DeleteCustomer | solar/src/main/java/com/example/solar/customer/service/CustomerService.java:140-149 | an unknown customer is not found; otherwise exactly that row is removed |
| JobService.CreateJobError | solar/src/main/java/com/example/solar/job/service/JobService.java:28-48 | a request is accepted exactly when the customer exists, both coordinates are valid, and the budget range is not inverted |
| JobService.NewJobShape | solar/src/main/java/com/example/solar/job/service/JobService.java:28-78 | a job posted from an accepted request belongs to a stored customer, lies at valid coordinates, has its budget in order, and has trimmed title and description |
| JobService.NewJob | solar/src/main/java/com/example/solar/job/service/JobService.java:50-78 | a new job is PENDING, for the requested customer and type at the requested coordinates, NORMAL urgency unless given, a requirement exactly when some detail is given (a battery not required unless said), and trimmed title and description |
| JobService.HasRequirementDetails | solar/src/main/java/com/example/solar/job/service/JobService.java:157-165 | no requirement detail is given exactly when the request equals itself with all seven requirement fields cleared |
| JobService.NewRequirement | solar/src/main/java/com/example/solar/job/service/JobService.java:66-78 | the requirement keeps the capacities and property type, requires a battery only when the request says so, and holds each text field exactly when given, trimmed |
| JobService.CheckJobRequest | solar/src/main/java/com/example/solar/job/service/JobService.java:31-48 | the checks, in their order, return the first reason for refusing the request |
| JobService.CreateJob | solar/src/main/java/com/example/solar/job/service/JobService.java:28-84 | a refused request changes nothing; an accepted one stores the built job under the next id |
| JobService.PostedJobIsOpen | solar/src/main/java/com/example/solar/job/service/JobService.java:56 | a new job is open to matching |
| JobService.UpdateJobStatus | solar/src/main/java/com/example/solar/job/service/JobService.java:132-143 | an unknown job is not found; otherwise only its status changes, to any status |
| JobService.DeleteJob | solar/src/main/java/com/example/solar/job/service/JobService.java:146-155 | an unknown job is not found; otherwise exactly that job is removed |
| JobService.GetJobById | solar/src/main/java/com/example/solar/job/service/JobService.java:87-92 | an unknown job is not found, otherwise it is returned with its id |
| JobService.Views | solar/src/main/java/com/example/solar/job/service/JobService.java:95-100 | the ids' jobs, one per id, in order |
| JobService.JobsWhere | solar/src/main/java/com/example/solar/job/service/JobService.java:103-129 | the jobs satisfying the filter, each once, in id order, and nothing else |
| JobService.GetJobsByCustomerId | solar/src/main/java/com/example/solar/job/service/JobService.java:103-113 | an unknown customer is not found; otherwise every job of the customer and nothing else |
| JobService.GetAllJobs | solar/src/main/java/com/example/solar/job/service/JobService.java:95-100 | every stored job is listed, and only stored jobs, each with its own row |
| JobService.GetJobsByStatus | solar/src/main/java/com/example/solar/job/service/JobService.java:116-121 | every job in the status and nothing else |
| JobService.GetOpenJobs | solar/src/main/java/com/example/solar/job/repository/JobRepository.java:18-19 | every PENDING or MATCHED job and nothing else, the statuses a matching run accepts |

## Left out

- The haversine formula and floating point. The distance between two present points comes from a function parameter (`GeoUtils.Arc`). Every figure is an exact rational, so `double` rounding is not modelled. Rounding to two decimals is modelled exactly.
- `Double.MAX_VALUE` is kept only as the distance sentinel for missing coordinates. Other `double`-to-`BigDecimal` conversions are taken as exact.
- Case mapping: `toUpperCase`, `toLowerCase` and `equalsIgnoreCase` are modelled for ASCII letters only. Locale and other Unicode letters are not modelled.
- `UUID.randomUUID()`: the freshly generated user id is a parameter of the create methods.
- Clocks and auditing: creation and update timestamps, and the quotes' `validUntil` beyond storing it.
- Logging.
- The DTO mapping of each service, beyond the fields the model returns. The rendered reason texts are modelled by the bucket each text chooses, not as strings.
- Bean-validation annotations on the request classes (`@NotNull`, `@Email`, sizes and ranges). The model assumes only what the types carry, for example a present quote amount, and a present date and times for an availability slot.
- Foreign keys and cascades on delete. Deleting a customer, job or professional removes only its own row (a professional's expertise and slots live in its row). Rows that referred to it, such as jobs, matches and quotes, are left as they were, and the database's foreign-key refusal is not modelled.
- Concurrency and transaction isolation: every service call is atomic. Two concurrent matching runs for the same job are not modelled.
- Column widths outside the match table. Job budgets and coordinates, quote amounts and costs, a professional's phone length, hourly rate and rating, and the expertise type's length of 100 are stored whatever their size. In the source a value too wide for its column, such as a quote amount of 10^8, fails the insert.
- ProfessionalEntity.Professional.RemoveExpertise compares the entries' owners by reference. Lombok compares two distinct owner objects field by field, which through the back-references from the children may not terminate; that deep comparison is not modelled.
- ProfessionalEntity.Professional.RemoveAvailabilitySlot compares the slots' owners by reference, for the same reason.
- The database's own failures. A failed match save is modelled only as a figure too wide for its column. That save marks the transaction for rollback, so the whole run fails and changes nothing.
- Customer.java, the enum files and the request classes other than the fields modelled are not part of this model.
  - The customer table is modelled without unique columns.
  - A job's type is taken as always present.
- MatchingEngine.MatchScore: the only scoring failure modelled is a missing service radius, where unboxing fails. Other runtime exceptions inside the engine are not modelled.
- CustomerService.FindOne: the failure of a single-result query that finds several rows is modelled as a generic fault, not as Spring's exception type.
- QuoteService.CreateQuote: a materials and labour cost that do not add up to the amount are only logged by the source, so the model accepts them as well. Amounts are stored as given, not rounded to the column's scale.
- MatchService.FindMatches: a negative `maxMatches` makes `Stream.limit` throw, and is modelled as a failure before any save.
- MatchSpec.ReadBack models the distance score of a stored match read back exactly as `mapToDto(Match)` computes it, 100 - 2 * distanceKm. `MatchProperties.ReadBackUnderratesNearby` and `MatchProperties.ReadBackNegativeFar` show how it differs from the engine's score.
- The controllers and the remaining repository methods that the services do not call.
