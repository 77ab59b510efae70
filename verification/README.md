# Physical-age scoring and facility ranking, modelled in Dafny

This project models the computational core of the fitness back end in
`backend/main.py`: the part between the HTTP handlers and the Supabase store.

- **Sex normalisation** (`normalize_sex`). A free-text sex field is stripped
  and lower-cased. It is accepted as `"Female"` or `"Male"` only when it is
  one of six listed spellings for each; anything else is rejected.
- **Quantile scoring** (`get_quantile_from_table`). A reference table holds
  a quantile index and one column of raw scores per sex. Its rows become
  (score, quantile) anchors, sorted by score. A raw measurement is
  interpolated against them the way `np.interp(value, xp, fp, left=0.0,
  right=1.0)` does. A missing sex column and an empty table are errors.
- **The four tests** (`compute_physical_age_quantiles`). Sit-ups,
  flexibility, jump power and cardio endurance are scored in that order. The
  first failing test aborts the request with its error.
- **Classification** (`predict_physical_age`, `quantile_to_grade`,
  `grade_idx_to_label`, `grade_index_to_lo_age_value`).
  - The four quantiles are averaged.
  - The mean is clipped to [0, 1] and put into one of 17 bands. The band is
    inverted into a tier index, so that a fitter person gets a younger tier.
  - The tier gives a Korean label and a representative age.
  - The percentile is the mean times 100.
  - The weak point is the first test, in dictionary order, with the
    smallest quantile.
- **Categories** (`infer_category`, `weak_point_to_category`). A facility's
  flags pick its exercise category, first match wins. A weak-point name is
  lower-cased and searched for token groups, first group wins.
- **Recommendation** (`recommend_facilities`).
  - Keep the facilities within the radius, in input order.
  - Describe each one with its category, mission text, distance rounded to
    three decimals and a match flag.
  - Stable-sort them by `(not match, distance)`.

Modules, one per file:

- `Results` (`results.dfy`): `Option` and `Result`.
- `Text` (`text.dfy`): `str.strip`, `str.lower` and the `in` test on
  strings.
- `Grades` (`grades.dfy`): the 17-tier classifier.
- `Interpolation` (`interpolation.dfy`): anchors, sorting and `np.interp`.
- `Assessment` (`assessment.dfy`): sex, the four tests, the quantile set,
  the mean, the weak point and the prediction.
- `Categories` (`categories.dfy`): the two category classifiers.
- `Ranking` (`ranking.dfy`): rounding, the radius filter, the mission text,
  the match flag and the stable sort.

Modelling choices:

- Python floats are modelled as Dafny `real`s.
- The reference tables and the facility list are plain inputs.
- The haversine distance is a function parameter `Distance`, so no
  trigonometry appears in the model.
- A facility's flags are integers. A missing or null flag is 0, and `True`
  is 1.
- The equipment cell is `Option<string>`. `None` stands for a missing cell
  or one that is not a string.

Three details of the code worth stating plainly:

- The percentile is the *unclipped* mean times 100 (main.py:516, 524).
- A non-positive radius is not rejected (main.py:742-745). Such a radius
  simply keeps no facility farther than it.
- The fallback mission text is `"{category} 운동"` (main.py:749). The
  equipment text is used only when it is still non-empty after stripping.

## Model

| member | source | states |
|---|---|---|
| Grades.ClampIndex | backend/main.py:145 | the clamp `max(0, min(idx, 16))` lands in [0, 16], keeps in-range indices and sends negative ones to 0 and large ones to 16 |
| Grades.GradeLabel | backend/main.py:143-146 | the label is always one of `AGE_GRADES`: `AGE_GRADES[idx]` in range, the first label below and the last label above |
| Grades.Clip01 | backend/main.py:153 | `np.clip(q, 0, 1)` lies in [0, 1], keeps values inside and sends values below to 0 and above to 1 |
| Grades.QuantileToGrade | backend/main.py:149-167 | for every real q the index is in [0, 16]; the clipped q lies in that tier's band [(16-k)/17, (17-k)/17) (the youngest tier also owns 1.0); the label is `AGE_GRADES[index]` |
| Grades.BandIsUnique | backend/main.py:153-161 | tier k's band contains the clipped quantile if and only if k is the returned index, so the bands characterise the classifier completely |
| Grades.GradeMonotone | backend/main.py:156-160 | q1 <= q2 implies grade(q2) <= grade(q1): a higher quantile never gives an older tier |
| Grades.GradeOfOutOfRange | backend/main.py:153 | every q <= 0 grades like 0.0 and every q >= 1 grades like 1.0 |
| Grades.GradeExamples | backend/main.py:153-161 | q = 1.0 gives tier 0 "19세 이하", q = 0.0 gives tier 16 "70대 이상", q = 0.5 gives tier 8 "40대 중반" |
| Grades.LoAgeValue | backend/main.py:170-194 | the index is clamped before the lookup, so the age is one of the 17 mapped ages, lies in [18, 72] and is never the fallback 40 |
| Grades.LoAgeStrictlyIncreasing | backend/main.py:177-194 | the representative age strictly increases with the tier index over [0, 16] |
| Grades.LoAgeExamples | backend/main.py:176-194 | tier 0 is 18, tier 8 is 45, tier 16 is 72; any index <= 0 gives 18 and any index >= 16 gives 72 |
| Interpolation.Insert | backend/main.py:306-308 | inserting into a score-sorted sequence keeps it sorted and adds exactly one copy of the new anchor |
| Interpolation.SortByValue | backend/main.py:306-308 | the anchors come out sorted by score and as a permutation of the input |
| Interpolation.SortKeepsMembers | backend/main.py:306-308 | sorting neither adds nor drops an anchor |
| Interpolation.SortKeepsSortedInput | backend/main.py:306-308 | anchors already sorted by score come out unchanged |
| Interpolation.SortedArrangementUnique | backend/main.py:306-308 | when equal scores carry equal quantiles, two score-sorted permutations of the same anchors are identical |
| Interpolation.Bracket | backend/main.py:310 | the bracket index is the last anchor with score <= x: every later anchor lies strictly above x |
| Interpolation.Lerp | backend/main.py:310 | the value satisfies the two-point form of the line, r·(v_hi − v_lo) = q_lo·(v_hi − x) + q_hi·(x − v_lo), so it passes through both anchors; on the segment it stays between their quantiles |
| Interpolation.InterpSorted | backend/main.py:310 | on sorted anchors: below the first score gives 0.0, above the last gives 1.0, and quantiles in [0, 1] give a result in [0, 1] |
| Interpolation.TwoPointForm | backend/main.py:310 | numpy's slope-intercept expression `slope*(x - xp[j]) + fp[j]` equals the two-point form of the line through the two anchors |
| Interpolation.LineBetween | backend/main.py:310 | on the segment between two anchors, numpy's line through them stays between their quantiles |
| Interpolation.InterpOnSegment | backend/main.py:310 | strictly between two neighbouring sorted anchors the result lies on the straight line through them |
| Interpolation.InterpAtHit | backend/main.py:310 | a score equal to an anchor's score gives that anchor's quantile when equal scores carry equal quantiles |
| Interpolation.Quantile | backend/main.py:306-310 | an empty anchor set is an error; otherwise a score below every anchor gives 0.0, above every anchor 1.0, and quantiles in [0, 1] give a result in [0, 1], whatever the input order |
| Interpolation.QuantileAtAnchor | backend/main.py:306-310 | when anchors with equal scores carry equal quantiles, a score equal to some anchor's score returns that anchor's quantile, for anchors in any order |
| Interpolation.QuantileOrderIndependent | backend/main.py:306-310 | two orderings of the same anchors give the same quantile when equal scores carry equal quantiles |
| Interpolation.TiedScoresOrderMatters | backend/main.py:306-310 | with two anchors at the same score but different quantiles the input order changes the result (0.7 against 0.6 at score 1.5) |
| Interpolation.LerpMonotone | backend/main.py:310 | on a rising segment a larger score gives a larger value |
| Interpolation.InterpWithinBracket | backend/main.py:310 | inside the table the result lies between the quantiles of the bracketing anchors |
| Interpolation.InterpSortedMonotone | backend/main.py:310 | on sorted anchors with nondecreasing quantiles in [0, 1] the result is monotone in the score |
| Interpolation.QuantileMonotone | backend/main.py:306-310 | when a higher score never carries a lower quantile and every quantile lies in [0, 1], a higher raw score never gives a lower quantile |
| Interpolation.ColumnAnchors | backend/main.py:303-304 | row i of the anchors pairs the column's score with the index's quantile, one anchor per row |
| Interpolation.QuantileFromTable | backend/main.py:296-311 | a missing sex column fails with that column; an empty table fails; otherwise the lookup succeeds, and with the column present the result is the interpolation of the score against the column's (value, quantile) anchors |
| Interpolation.QuantileFromTableAtRow | backend/main.py:296-311 | when rows with equal values carry equal quantiles, a score equal to row i's value in the column reads back row i's quantile |
| Interpolation.QuantileFromTableBounds | backend/main.py:296-311 | against a table column, a score below every row gives 0.0, above every row 1.0, and an index in [0, 1] gives a result in [0, 1] |
| Text.Strip | backend/main.py:211 | `str.strip()`: the result is a slice of the input, everything cut from either end is whitespace, and neither end of the result is whitespace |
| Text.StripNoEdgeSpaces | backend/main.py:211 | a string with no whitespace at either end strips to itself |
| Text.StripBlank | backend/main.py:749 | a string strips to empty exactly when it is all whitespace, the test `equip.strip() != ""` makes |
| Text.Lower | backend/main.py:211 | `str.lower()` on ASCII: same length, each capital letter replaced by its small letter and every other character kept |
| Text.LowerNoCapitals | backend/main.py:450 | a string without capitals lower-cases to itself |
| Text.ContainsWindow | backend/main.py:451-457 | `needle in haystack` holds for every window of the haystack |
| Text.AbsentAtOffset | backend/main.py:451-457 | `needle in haystack` fails when some character of the needle never lines up with the same character in any window |
| Assessment.NormalizeSex | backend/main.py:210-216 | "Female" exactly when the stripped, lower-cased input is a female spelling, "Male" exactly when it is a male spelling, and an error carrying the input otherwise |
| Assessment.NormalizeSexRoundTrip | backend/main.py:210-216 | the normalised values "Female" and "Male" normalise to themselves |
| Assessment.TestQuantile | backend/main.py:321-324 | each test is scored against its own table, with the request's sex column and that test's raw score; the quantile lies in [0, 1] whenever its table's quantile index does |
| Assessment.ComputeQuantiles | backend/main.py:314-331 | success exactly when all four tests succeed, holding each test's own quantile; otherwise the error of the first failing test in the order sit-ups, flexibility, jump power, cardio endurance |
| Assessment.MissingColumnFailsFirst | backend/main.py:300-321 | a sex column missing from the sit-ups table fails with that column before any other table is read |
| Assessment.Average | backend/main.py:515-516 | the four deviations from the mean sum to zero (which pins the mean down), and the mean lies between the smallest and the largest quantile, in [0, 1] when they all do |
| Assessment.MinScan | backend/main.py:525 | the scan returns a test whose quantile is <= every other one and strictly below every earlier test's quantile |
| Assessment.WeakPoint | backend/main.py:525 | the weak point has the minimal quantile and every test before it in the order sit_ups, flexibility, jump_power, cardio_endurance is strictly larger |
| Assessment.WeakPointUnique | backend/main.py:525 | exactly one test is minimal and beaten by all tests before it, so the first minimum is the weak point |
| Assessment.WeakPointTieExample | backend/main.py:525 | flexibility and jump_power tied at the minimum give flexibility, the earlier key |
| Assessment.Classify | backend/main.py:515-525 | the reported quantiles are the input; the mean is their average; the tier is the band of the clipped mean with its label and age; the percentile is the mean times 100; the weak point is the first minimal test |
| Assessment.Predict | backend/main.py:508-525 | the prediction succeeds exactly when scoring does, passes any scoring error on unchanged, and on success is the classification of the computed quantiles |
| Assessment.ClassifyInRange | backend/main.py:515-524 | quantiles in [0, 1] give a mean in [0, 1] and a percentile in [0, 100] |
| Assessment.AllIn01Index | backend/main.py:303 | the entry-by-entry range predicate on a quantile index agrees with the indexed statement |
| Assessment.TestInRange | backend/main.py:314-331 | when scoring succeeds, a test's reported quantile lies in [0, 1] provided every table's index does |
| Assessment.QuantilesInRange | backend/main.py:314-331 | with every table's index in [0, 1], a successful scoring has all four quantiles in [0, 1] |
| Assessment.PredictInRange | backend/main.py:508-524 | with every table's index in [0, 1], a successful prediction keeps the reported quantiles, the mean and the percentile in range |
| Categories.LabelInjective | backend/main.py:430-459 | two categories have the same Korean label exactly when they are the same category, so comparing labels is comparing categories |
| Categories.InferCategory | backend/main.py:422-442 | cardio exactly when `is_cardio` is 1; muscular endurance exactly when it is not and `is_muscular_endurance` is 1; flexibility likewise next; "other" when none of the three is 1; never strength |
| Categories.MentionsTokens | backend/main.py:450-457 | each token group holds exactly the tokens the source tests, in its order |
| Categories.WeakPointToCategory | backend/main.py:445-459 | on the lower-cased name: cardio exactly when a cardio token occurs; each later group decides exactly when no earlier group's token occurs and one of its own does; "other" when none occurs |
| Categories.StrengthUnreachable | backend/main.py:430-442 | no facility's flags lead to strength, while each of the other four categories is reachable |
| Categories.SitUpsCategory | backend/main.py:445-453 | "sit_ups" maps to muscular endurance |
| Categories.FlexibilityCategory | backend/main.py:445-455 | "flexibility" maps to flexibility |
| Categories.JumpPowerCategory | backend/main.py:445-457 | "jump_power" maps to strength |
| Categories.CardioEnduranceCategory | backend/main.py:445-451 | "cardio_endurance" maps to cardio, because the cardio tokens are looked for before "endurance" |
| Categories.TestKeyCategory | backend/main.py:445-459 | every weak point the prediction can report maps to its own test's category |
| Ranking.RoundHalfEven | backend/main.py:762 | the result is within 0.5 of the input and even on an exact half |
| Ranking.RoundHalfEvenMonotone | backend/main.py:762 | rounding to an integer preserves order |
| Ranking.Round3 | backend/main.py:762 | the rounded distance is a multiple of 0.001, within 0.0005 of the true distance, and has an even number of thousandths when the distance lies exactly halfway |
| Ranking.RoundHalfEvenUnique | backend/main.py:762 | any integer within 0.5 of y that is even on an exact half is the rounded value, so the contract of RoundHalfEven determines it |
| Ranking.Round3Unique | backend/main.py:762 | any multiple of 0.001 within 0.0005 of d with an even thousandth on an exact half is the rounded value, so the contract of Round3 determines it |
| Ranking.Round3Monotone | backend/main.py:762 | rounding preserves the order of distances: d1 <= d2 gives round(d1) <= round(d2); distinct distances may round to the same value |
| Ranking.Round3Idempotent | backend/main.py:762 | a rounded distance rounds to itself |
| Ranking.Mission | backend/main.py:748-749 | the equipment text when it is a string that stays non-empty after stripping, otherwise the category label followed by " 운동" |
| Ranking.MissionNotBlank | backend/main.py:748-749 | a mission is never blank after stripping |
| Ranking.Target | backend/main.py:736-738 | a target category exists exactly when a non-empty weak point is given, and it is that weak point's category |
| Ranking.Describe | backend/main.py:747-764 | the entry copies the facility's identity and position, carries its inferred category and mission, the rounded distance, and a match flag that holds exactly when a target exists and equals the category |
| Ranking.Candidates | backend/main.py:740-765 | every facility within the radius is described in the result, and every entry describes some facility within the radius |
| Ranking.CandidatesAppend | backend/main.py:740-765 | the filter distributes over concatenation, so entries appear in input order, one per facility kept |
| Ranking.CandidatesOne | backend/main.py:741-765 | a single facility gives its one described entry when within the radius, and nothing otherwise |
| Ranking.KeyLeTotal | backend/main.py:767 | the sort key order is total and antisymmetric |
| Ranking.WithKey | backend/main.py:767 | an entry is selected exactly when it is in the input and carries the key |
| Ranking.WithKeyAppend | backend/main.py:767 | selecting by key distributes over concatenation, so the selection keeps input order |
| Ranking.InsertStable | backend/main.py:767 | inserting into a key-sorted list keeps it sorted and adds exactly one copy of the entry |
| Ranking.InsertStableWithKey | backend/main.py:767 | insertion puts the new entry ahead of the entries with its key and leaves every other key's entries unchanged |
| Ranking.SortStable | backend/main.py:767 | the result is sorted by key and a permutation of the input |
| Ranking.SortStableKeepsOrder | backend/main.py:767 | stability: for every key, the entries with that key keep their input order |
| Ranking.Recommend | backend/main.py:736-769 | the response is a key-sorted permutation of the described facilities within the radius |
| Ranking.RecommendStable | backend/main.py:740-769 | entries with equal keys appear in the order their facilities were read |
| Ranking.RecommendMembers | backend/main.py:740-769 | an entry is in the response exactly when it describes some facility within the radius |
| Ranking.RecommendOrder | backend/main.py:767 | matching entries come before non-matching ones, and distances never decrease within a group |
| Ranking.RecommendMatchRule | backend/main.py:736-751 | an entry matches exactly when a non-empty weak point was given and the entry's category is that weak point's category |
| Ranking.JumpPowerNeverMatches | backend/main.py:430-459 | with weak point "jump_power" no entry of the response matches |
| Ranking.MatchOvertakes | backend/main.py:767 | a matching entry placed after a non-matching one is moved ahead of it, whatever their distances |
| Ranking.MatchBeatsDistanceExample | backend/main.py:767 | a matching facility 2 km away is listed before a non-matching one 1 km away |

## Left out

- Supabase access is left out: the REST helpers, the inserts, the favourites and missions endpoints, and the assessment insert in `predict_physical_age`. All of it is network I/O.
- `load_engine` and `load_facilities` are left out, with their global caches. They are file and HTTP loading. Their results appear as the plain inputs `Engine` and `seq<Facility>`. `Engine` already holds the four tables `load_engine` checks for.
- `haversine_km` is left out. Its trigonometry on floats is replaced by the `Distance` function parameter.
- `get_near_facilities` is left out. It is a second endpoint, outside this core, that repeats the radius filter, category and mission code of `recommend_facilities` without the distance, the match flag or the sort.
- The `/route` Naver Directions passthrough is left out. It is network I/O.
- FastAPI and pydantic plumbing are left out: pydantic's type coercion of the request, the response models and the HTTP error mapping. A scoring error is modelled as a `Result` failure, not as an HTTP 500.
- Floating-point behaviour is left out: NaN, infinities and rounding error. Reals stand for floats. `Round3` rounds the exact real half-to-even, whereas CPython rounds the nearest binary double.
- Interpolation.SortByValue: `np.argsort` uses an unstable sort by default; the model uses a stable insertion sort. The two agree whenever equal scores carry equal quantiles, which `QuantileOrderIndependent` covers. `TiedScoresOrderMatters` shows that the order of tied anchors can matter otherwise.
- Text.Lower: only ASCII letters are lower-cased. Python's full `str.lower` differs from this only on cased non-ASCII characters. Of those, only two lower-case to anything ASCII: the Kelvin sign U+212A becomes "k", and U+0130 becomes "i" followed by the combining dot U+0307. Every other cased character becomes a non-ASCII, non-Hangul character, and no token or sex spelling has one. No token or sex spelling has a "k" or a U+0307, and every "i" in them ("sit", "cardio", "girl") is followed by an ASCII letter, never by U+0307. So an "i" that came from U+0130 can never be part of a match, and neither can the characters the two lowerings treat differently. Substring and equality tests therefore come out the same as with Python's `str.lower`, even though U+0130 lengthens the string.
- Categories.InferCategory: a flag counts only when it equals 1. Flags are integers; a pandas NaN, `None` or a missing column is modelled as 0, and `True` as 1.
- Ranking.Candidates: the `id`, `name`, `lat`, `lon` and `address` casts (`int(...)`, `str(...)`, `float(...)`) are modelled as already done.
