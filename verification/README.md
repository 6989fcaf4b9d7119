# Symptom checker: a Dafny model of the disease matcher

This project models the logic at the centre of a small web-based patient
symptom checker. It covers three parts.

- **`predict_disease`** (`app.py`). It groups the disease–symptom association
  rows into a per-disease catalog. It scores every disease by the share of its
  symptoms that the patient reported, and keeps the best match. It then
  collects up to three alternatives that score at least 30 %, and maps the best
  score to a low, medium or high recommendation.
- **The registration form checks** (`app.py`). Required fields must be present
  after trimming, the age and the optional measurements must parse, and the
  blood type must be one of eight values.
- **The password widgets** (`static/js/main.js`). These are the five-criterion
  strength hint and the show/hide toggle of the password fields.

Probabilities are exact. A score is a natural number of hundredths of a
percent, so `Full` = 10000 stands for 100.00. Python's `round(x, 2)` on the
exact ratio becomes `Scoring.Round2`, which rounds half to even as Python does.
The test "fresh ratio > stored value" (app.py:329) is `Scoring.Beats`,
compared as `10000 * matched > stored * total`.

Each reported alternative carries its disease id (`Alternatives.Alternative`).
The source's alternative records hold only a name and a probability
(app.py:341-344). The id is there so that "never the best match" and "no
disease twice" can be stated; the name and probability are as in the source.

Modules:

| module | models |
|---|---|
| `Options` | optional values (`None` for Python's `None`) |
| `Catalog` | the association rows and the grouping loop (app.py:298-308) |
| `Scoring` | the percentage, its rounding, and the two comparisons (app.py:326-340) |
| `BestMatch` | the best-match scan (app.py:310-333) |
| `Alternatives` | the alternative diseases: filter, stable descending sort, first three (app.py:335-347) |
| `Urgency` | the recommendation tiers (app.py:349-357) |
| `Predict` | the whole function and the error fallback (app.py:288-371) |
| `Registration` | the field reading, `str.strip` and the checks of `register` (app.py:47-80) |
| `PasswordUi` | `checkStrength` and the two toggles (static/js/main.js:7-11, 22-33, 42-46) |

The model follows the code in two places where the code does not do what one
would expect.

- **Ties in the best match depend on rounding, not on position.** The running
  best is stored rounded and then compared with the next disease's unrounded
  ratio. So a later disease with the same ratio takes over exactly when the
  stored value was rounded down (`BestMatch.EqualRatioReplaces`). When the
  value was rounded up or stored exactly, the earlier disease stays. Two
  diseases at 1/3 are stored as 33.33, and the later one wins
  (`BestMatch.LaterEqualRatioCanWin`). Two at 2/3 are stored as 66.67, and the
  earlier one stays (`BestMatch.EarlierEqualRatioCanStay`). One might expect
  the first disease always to win a tie, but that does not hold in general.
- **The password is not trimmed.** Every other registration field is read with
  `.strip()`. The password is read as it is (app.py:48), so a password of
  spaces counts as present (`Registration.BlankPasswordCounts`).

## Model

| member | source | states |
|---|---|---|
| Catalog.Group | app.py:298-308 | The grouping loop: one `AddRow` per row, in row order. Its meaning is proved by `Catalog.GroupSpec`. |
| Catalog.AddRow | app.py:305-308 | One iteration of the loop: create the entry on first sight, then add the symptom. Its effect is proved by `Catalog.AddRowExisting` and `Catalog.AddRowNew`. |
| Catalog.GroupSpec | app.py:298-308 | The grouped catalog has one entry per disease id that occurs in the rows and no other, with distinct ids. Each entry's symptom set is exactly the symptoms of that id's rows, and its name comes from the id's first row. Entries are in order of first occurrence. |
| Catalog.AddRowExisting | app.py:305-308 | Adding a row for a disease already in the catalog turns a correct catalog of the earlier rows into a correct catalog of all the rows, in the full sense of `GroupSpec`. |
| Catalog.AddRowNew | app.py:305-308 | Adding a row for a disease not yet in the catalog turns a correct catalog of the earlier rows into a correct catalog of all the rows, in the full sense of `GroupSpec`. |
| Catalog.FirstRowIsFirst | app.py:305-307 | The reference "first row of a disease" exists exactly when the disease occurs, and then no earlier row is about it. This is where an entry's name is taken from. |
| Catalog.GroupedNonEmpty | app.py:305-308 | No grouped entry has an empty symptom set, so the guards at lines 326 and 339 never fire on a catalog built from rows. |
| Scoring.Round2 | app.py:332 | The stored score lies within half a hundredth of the exact percentage `100 * matched / total`. |
| Scoring.RoundBounds | app.py:326-332 | A stored score is between 0 and 100.00. It is 0 when nothing matched and 100.00 when everything matched. A positive match never rounds to 0 for a disease with fewer than 20000 symptoms. With more symptoms, one match can round down to 0.00. |
| Scoring.RoundTiesEven | app.py:332 | When the exact percentage lies exactly halfway between two hundredths, the stored one is even, as Python's `round` gives. |
| Scoring.SameRatioBeats | app.py:329 | Two equal ratios compare the same way against any stored value. |
| Scoring.HalfToEven | app.py:332 | Exact halves round to the even hundredth as Python's `round` does (1/32 gives 3.12, 3/32 gives 9.38). 1/3 and 2/3 are stored as 33.33 and 66.67. |
| Scoring.BeatsAndRounding | app.py:329-332 | If a fresh ratio beats the stored score, its own rounded score is at least the stored one. If it does not beat it, its rounded score is at most the stored one. |
| Scoring.ThirtyStored | app.py:340-344 | A disease that passes the "at least 30" test is stored with at least 30.00. |
| Scoring.Beats | app.py:329 | The strict test "fresh ratio above the stored value". Only a positive match can pass it. Against the initial 0 it passes exactly for a positive match. Nothing passes it once 100.00 is stored. |
| Scoring.AtLeastThirty | app.py:340 | The "at least 30 percent" test on the exact ratio. For a disease with symptoms only a positive match passes it, and a full match always passes it. |
| BestMatch.Stored | app.py:326-332 | The score the source stores for a disease: its rounded percentage, or 0 for a disease without symptoms. Its properties are those of `Scoring.Round2`. |
| BestMatch.StoredRange | app.py:326-340 | A stored score is at most 100.00. It is at least 30.00 for a disease with symptoms that passes the "at least 30" test. |
| BestMatch.Consider | app.py:323-333 | One iteration of the scan: the disease replaces the running best when its fresh ratio beats the stored value. Its effect on ties is proved by `BestMatch.EqualRatioReplaces`. |
| BestMatch.Scan | app.py:320-333 | The scan over the catalog in order. Its meaning is proved by `BestMatch.ScanSpec` and `BestMatch.BestIsMax`. |
| BestMatch.SharedAtMostAll | app.py:324-327 | The number of shared symptoms never exceeds the disease's own symptom count, so the ratio is at most 100. |
| BestMatch.ScanSpec | app.py:310-333 | The scan reports no disease exactly when no disease shares a symptom with the observation, and then the defaults are untouched. Otherwise it reports one catalog entry: its id, name, shared symptoms and stored score. No entry's stored score exceeds the reported score, which is at most 100.00. |
| BestMatch.MaxStoredSpec | app.py:320-333 | The reference maximum of all stored scores is an upper bound that some entry attains, or 0. |
| BestMatch.BestIsMax | app.py:320-333 | The scanned best score equals the reference maximum of all stored scores. |
| BestMatch.EqualRatioReplaces | app.py:329-333 | When the running best was stored from a ratio and the next disease has the same ratio, the next disease replaces it if and only if the stored value was rounded down. Otherwise the running best is left exactly as it was. |
| BestMatch.LaterEqualRatioCanWin | app.py:329-332 | Of two diseases both at 1/3, the later one becomes the best match, because the earlier one was stored rounded down. |
| BestMatch.EarlierEqualRatioCanStay | app.py:329-332 | Of two diseases both at 2/3, the earlier one stays the best match, because it was stored rounded up. |
| Alternatives.Candidates | app.py:336-345 | The qualifying diseases, in catalog order. There are never more than the catalog has. Membership is characterised by `Alternatives.CandidatesSpec`. |
| Alternatives.Eligible | app.py:337-340 | A disease qualifies as an alternative when it is not the best match, has symptoms, and scores at least 30 percent exactly. A qualifying disease shares at least one observed symptom, and its reported score is at least 30.00. |
| Alternatives.AlternativeOf | app.py:341-344 | The reported record of a disease: its name and stored score. The score is at most 100.00, and at least 30.00 when the exact score is at least 30 percent. |
| Alternatives.SortDesc | app.py:346 | The sort by descending stored score keeps the length of its input. `Alternatives.SortDescSpec` proves it a stable permutation into descending order. |
| Alternatives.TopAlternatives | app.py:346-347 | The reported alternatives: never more than three. The full contract is `Alternatives.AlternativesSpec`. |
| Alternatives.CandidatesSpec | app.py:336-345 | A disease's record is among the candidates if and only if the disease is other than the best, has symptoms, and scores at least 30 %. |
| Alternatives.CandidateScores | app.py:337-345 | No candidate is the best match, and every candidate's stored score lies between 30.00 and 100.00. |
| Alternatives.NothingSharedNoCandidates | app.py:338-341 | When no disease shares a symptom, there are no candidates. |
| Alternatives.InsertStable | app.py:346 | Inserting into the sorted list puts the new element ahead of all earlier elements with the same score. |
| Alternatives.SortDescSpec | app.py:346 | The sort is a permutation of its input. It is ordered by non-increasing score, and among equal scores it keeps the input order, as Python's stable `sort(reverse=True)` does. |
| Alternatives.AlternativesSpec | app.py:335-347 | At most three alternatives are reported: exactly three when there are more than three candidates, and all of them otherwise. They are sorted non-increasingly, are all candidates, exclude the best match, and score between 30.00 and 100.00. |
| Alternatives.AlternativesTop | app.py:346-347 | A candidate that was left out scores no more than any reported alternative. |
| Alternatives.NoEmptyAlternative | app.py:339-340 | A disease with an empty symptom set is never reported as an alternative. |
| Alternatives.CandidatesInOrder | app.py:336 | Candidates appear in catalog order. |
| Alternatives.AlternativesStable | app.py:346 | Reported alternatives with equal scores keep their catalog order. |
| Urgency.LevelOf | app.py:349-357 | The tier of a stored score, with strict thresholds at 75 and 50. The boundary and monotonicity lemmas below state how it behaves. |
| Urgency.Advice | app.py:350-356 | The recommendation text of each tier. `Urgency.AdviceRoundTrip` proves the texts tell the tiers apart. |
| Urgency.AdviceRoundTrip | app.py:349-357 | The three recommendation texts are pairwise distinct, so the urgency level can be read back from the text. |
| Urgency.LevelMonotone | app.py:349-357 | A higher best score never gives a lower urgency level. |
| Urgency.LevelBoundaries | app.py:349-357 | 50.00 is low, 50.01 is medium, 75.00 is medium and 75.01 is high. |
| Urgency.LevelFromRatio | app.py:349-357 | In terms of the exact ratio: at most a half is always low, at most three quarters is never high, at least 50.01 % is never low, and at least 75.01 % is high. |
| Urgency.LevelExamples | app.py:349-357 | 3 of 4 symptoms gives medium, 5 of 5 gives high, and 1 of 2 gives low. |
| Predict.Match | app.py:320-357 | Best match, alternatives and tier for a grouped catalog and a set of observed symptoms. |
| Predict.Observed | app.py:320 | The observed symptom list as a set. It is empty exactly when the list is, and repeated symptoms collapse, so it is never larger than the list (`Predict.ObservedSize`). |
| Predict.ObservedSize | app.py:320 | The set of a list's symptoms has at most as many members as the list. |
| Predict.PredictDisease | app.py:288-359 | The whole prediction from the rows and the observed symptom list. Its properties are the `Predict` lemmas below. |
| Predict.PredictFromFetch | app.py:288-371 | The prediction when the rows could be read, and the fixed error result when they could not. Proved by `Predict.FetchSpec`. |
| Predict.ErrorPrediction | app.py:363-371 | The fixed error result. Its recommendation text is none of the three tier texts, and its low urgency agrees with its probability of 0. |
| Predict.PredictNone | app.py:310-333 | The prediction names no disease if and only if no row's symptom was observed. In that case it keeps the name "Unknown", probability 0 and no matched symptoms. |
| Predict.PredictSome | app.py:320-333 | A named disease occurs in the rows and carries its first row's name. Its matched symptoms are exactly the observed symptoms among its rows, and there is at least one. Its probability is its rounded ratio, computed from the rows. |
| Predict.PredictMax | app.py:320-357 | No disease in the rows scores more than the reported probability, which is at most 100.00. The urgency is the tier of that probability, and the recommendation text is that tier's text. |
| Predict.PredictAlternatives | app.py:335-347 | There are at most three alternatives, sorted non-increasingly. Each one is a disease of the rows, other than the best, with symptoms and a score of at least 30 %. Each carries its first row's name and its score computed from the rows. |
| Predict.PredictAlternativesComplete | app.py:335-347 | Every qualifying disease is reported, or scores no more than each reported alternative. When fewer than three are reported, every qualifying disease is among them. |
| Predict.PredictAlternativesDistinct | app.py:336-345 | No disease is reported twice as an alternative. |
| Predict.PredictAlternativesOrder | app.py:336-346 | Alternatives with equal scores appear in the order in which their diseases first occur in the rows. |
| Predict.NoOverlapDefaults | app.py:310-357 | If no row's symptom was observed, the whole result is the default one: no disease, "Unknown", 0, nothing matched, no alternatives, the low recommendation. |
| Predict.FetchSpec | app.py:361-371 | The error result is returned exactly when reading the rows fails. Its recommendation is none of the three tier texts. |
| Predict.GroupExample | app.py:298-308 | Five rows about two diseases, with the two diseases' rows interleaved, group into two entries in first-seen order. Each has its full symptom set. |
| Predict.MatchExample | app.py:320-357 | With both symptoms of D1 observed, D1 is the best match at 100.00 with high urgency. D2 (2 of 3) is its single alternative, at 66.67. |
| Predict.TwoDiseaseExample | app.py:288-357 | The same outcome, starting from the raw rows. |
| Registration.Strip | app.py:47-55 | Python's `str.strip`: never longer than its input. It is characterised by `Registration.StripSpec`. |
| Registration.ReadForm | app.py:47-55 | Reads every field, stripping all but the password. A missing field reads as empty. |
| Registration.Check | app.py:57-80 | The checks on the fields as read, in the handler's order: missing fields, then age, then the measurements, then the blood type. |
| Registration.Complete | app.py:58 | The required-fields test: Python's `all` over the seven-item list of username, password, email, name, age, gender and blood type, where only an empty string fails. |
| Registration.Validate | app.py:47-80 | The whole validation of a submitted form. It is characterised over the raw form by `Registration.MissingExactly` and `Registration.AcceptedExactly`. |
| Registration.StripSpec | app.py:47-55 | `strip` gives the empty string exactly when the input is all whitespace. Otherwise the result starts and ends with a non-space character. It is a contiguous part of the input with only whitespace around it. |
| Registration.StripKeeps | app.py:47-55 | A string without surrounding whitespace is left unchanged by `strip`. |
| Registration.StripIdempotent | app.py:47-55 | Stripping twice is the same as stripping once. |
| Registration.ReadFormComplete | app.py:47-60 | The seven required values are all non-empty exactly when each raw required field is not all whitespace and the raw password is non-empty. |
| Registration.MissingExactly | app.py:57-60 | The form is rejected for missing fields if and only if some required field is absent or blank (for the password: empty). |
| Registration.AcceptedValid | app.py:57-80 | An accepted profile is the checked profile, unchanged. It has every required field, an integer age, and a blood type from the eight valid ones. |
| Registration.AcceptedExactly | app.py:57-80 | A submitted form is accepted if and only if its required fields are present, its age and any measurements parse once stripped, and its stripped blood type is one of the eight. It is turned back for the blood type exactly when all the rest pass and the stripped blood type is not one of the eight. An accepted profile is the form as read. |
| Registration.EightBloodTypes | app.py:77 | There are exactly eight valid blood types, each two or three characters long. |
| Registration.PaddedBloodTypeAccepted | app.py:55-80 | A form whose required fields are present and whose numbers parse, with the blood type submitted as " AB- ", is accepted with the blood type trimmed to "AB-". |
| Registration.LowerCaseBloodTypeRejected | app.py:77-80 | The membership test is case-sensitive: "ab-" is rejected. |
| Registration.BlankPasswordCounts | app.py:48-60 | A password of spaces is kept as it is. When the other six required fields are not blank, the form is not rejected for missing fields. A blank username, by contrast, is rejected as missing. |
| PasswordUi.Utf16Length | static/js/main.js:24 | The JavaScript length of a string: between its character count and twice that. |
| PasswordUi.Score | static/js/main.js:22-28 | The strength score, one point per criterion met: never above 5. |
| PasswordUi.StrengthText | static/js/main.js:29-33 | The hint text: empty exactly for the empty password. |
| PasswordUi.Toggle | static/js/main.js:7-11 | The toggle: the field always ends as a text or a password field. |
| PasswordUi.Utf16LengthSpec | static/js/main.js:24 | The JavaScript length of a string is between its character count and twice that. It adds up over concatenation. |
| PasswordUi.Utf16LengthBmp | static/js/main.js:24 | For text in the Basic Multilingual Plane, the JavaScript length is the character count. |
| PasswordUi.ScoreRange | static/js/main.js:22-28 | The strength score is between 0 and 5, and it is 0 exactly for the empty password. |
| PasswordUi.ScoreMonotone | static/js/main.js:23-28 | Appending characters never lowers the strength score. |
| PasswordUi.LabelIndex | static/js/main.js:30-32 | The clamped label index is always a valid index into the five labels. |
| PasswordUi.LabelIndexSpec | static/js/main.js:31-32 | Scores 1 to 5 select labels 1 to 5 in order. Scores 0 and 1 both select "Very Weak", and 5 or more selects "Strong". |
| PasswordUi.StrengthTextSpec | static/js/main.js:29-33 | The hint is empty exactly when the password is empty. Otherwise it is "Strength: " followed by one of the five labels. It reads "Strength: Strong" exactly when all five criteria hold, so never for a password shorter than eight. |
| PasswordUi.ToggleSpec | static/js/main.js:7-11 | After a toggle, the icon reads "visibility" exactly when the field shows text. A password field becomes a text field, and any other field becomes a password field. |
| PasswordUi.ToggleTwice | static/js/main.js:42-46 | Toggling twice restores a password or text field, and restores the icon too when it matched the type. |
| PasswordUi.OtherTypeNotRestored | static/js/main.js:8-9 | A field of another type (such as "email") is not restored by two toggles: it ends as a text field. |
| PasswordUi.WeakExample | static/js/main.js:22-33 | "abc" meets one criterion and is labelled "Very Weak". |
| PasswordUi.StrongExample | static/js/main.js:22-33 | "Abcdef1!" meets all five criteria and is labelled "Strong". |

## Left out

- Flask routing, sessions, templates, redirects and flash messages: these are web plumbing with no logic of their own.
- The SQL query and the database cursor: the association rows are a parameter of `Predict.PredictDisease`. A failed read is the `None` case of `Predict.PredictFromFetch`.
- Exceptions other than a failed read are not modelled. With the rows in hand, the modelled computation raises none, and the logging call has no effect on the result.
- Storing the prediction, the session checks around it, and the disease id truthiness test in the caller: these are outside `predict_disease`.
- Password hashing (Werkzeug), the database insert of the new user, and the BMI computation: these are foreign library calls, persistence and floating point.
- `int(age)` and `float(height)` / `float(weight)`: Python's parsing rules are not modelled. They are the caller-supplied predicates `isInt` and `isFloat` of `Registration.Validate`, which keeps the order in which the checks reject a form.
- Scoring.Round2: rounds the exact ratio, not the binary floating-point value the source computes. The two differ on some inputs. For 11 of 20 the float product is 55.00000000000001, so a later disease at 11/20 would beat a stored 55.00 in the source but not in the model. For some exact half-hundredths (for example, denominators of 160), the float is slightly above or below the half and rounds the other way.
- Predict.PredictSome: the matched symptoms are a set. The source turns them into a list whose order is that of Python's set iteration, which is unspecified.
- The disease ids are integers. A NULL id from the database is not modelled.
- The keyboard handler (Enter or space calls the same toggle) and the DOM wiring (`getElementById`, `addEventListener`, `preventDefault`): these are browser I/O. Only the toggle's effect on the field type and icon, and the strength text, are modelled.
