# Cricket score predictor: overs parser, derived match state and fallback projector

This project models the logic of the cricket score predictor's web app and proves properties of that logic. The logic has three parts:

- `parse_overs` turns a free-text overs value such as "10.4" (10 overs and 4 balls) into the pair `(balls_bowled, overs_for_crr)`.
- `index` derives the balls left, the wickets left and the current run rate from the form.
- `DummyPipe`, the fallback heuristic predictor, projects a final innings score from one row of match state.

Modules:

- `Wrappers`: `Option`. `None` stands for Python's `None` where the app passes one, and for a raised exception inside `parse_overs`.
- `PyNum`: `round` with one argument (ties go to the even integer), `int` of a float (truncation toward zero), `max` and `min`.
- `PyText`: `str.strip`, `int(text)`, `float(text)` and `s.split('.')` into exactly two parts.
   - `str.strip` removes every `str.isspace` character at either end.
   - `int` and `float` follow Python's decimal grammar restricted to ASCII digits: surrounding whitespace, an optional sign, and digit groups joined by single underscores.
   - The whitespace `int` and `float` skip is a smaller set than `strip` removes: the separators U+001C to U+001F count as whitespace for `strip` but not for `int` or `float`. So "10\u001c.4" survives `strip` and then makes both conversions raise.
   - `float` additionally takes one decimal point, with digits on at least one side of it.
- `Overs`: `parse_overs`, built from its `try` block (`PrimaryBalls`), its `except` block (`FallbackBalls`) and the overall function (`ParseOvers`).
- `Heuristic`: the team-strength table and the per-row projection (`RowPrediction`). The class `DummyPipe` holds the table in a field, and its `Predict` method loops over the rows.
- `MatchState`: balls left, wickets left and run rate (`Derive`), the row `index` builds for the predictor (`MatchRow`), and the call to the predictor (`PredictScore`).

Floats are modelled as exact reals. Python's `hash` of the city name is salted per process, so it is a parameter: any function from strings to integers.

The docstring of `parse_overs` (app.py lines 77-79) reads: "Parse overs input (accepts '10', '10.4' meaning 10 overs + 4 balls, or decimal like 10.40). Returns (balls_bowled:int, overs_for_crr:float)." It says nothing about signs. A ball count and a predicted score read naturally as non-negative, but the code does not make them so, and the model follows the code:

- **Negative balls.** `int` accepts a minus sign, so "-3" gives -18 balls (app.py line 96). The balls-left value for such input is then above 120. Non-negativity is proved only for text without a minus sign (`Overs.UnsignedNonNegative`, `MatchState.DeriveFromForm`).
- **Negative predictions.** The code promises only that the prediction is at least the current score (app.py line 42). The current score comes from `int` on the form (line 120), which accepts negative numbers.

## Model

| member | source | states |
|---|---|---|
| Overs.ParseOvers | cricket_score_predictor-main/app.py:76-108 | The function is total. The second component, `overs_for_crr`, is never negative. It is balls/6 when the ball count is positive and 0.0 otherwise. |
| Overs.PrimaryBalls | cricket_score_predictor-main/app.py:85-97 | When the `try` block succeeds on text without a point, the balls are a multiple of 6. When it succeeds on text with a point, the text splits into exactly two sides. |
| Overs.PointBalls | cricket_score_predictor-main/app.py:86-94 | When the point branch succeeds, `int` accepted both sides, and the balls lie between 6 × `int(left)` and 6 more than that. |
| Overs.FractionBalls | cricket_score_predictor-main/app.py:92-94 | When `float('0.' + right)` succeeds, the over part gains between 0 and 6 balls. |
| Overs.FallbackBalls | cricket_score_predictor-main/app.py:99-106 | When `float` gives x, the `except` block gives 6 × x rounded half to even. When `float` raises, it gives 0. |
| Overs.FloatBalls | cricket_score_predictor-main/app.py:100-104 | `whole * 6 + int(round(frac * 6))` with `whole = int(x)` and `frac = x - whole` equals 6 × x rounded half to even. Splitting x into `int(x)` and its fraction loses nothing, because 6 × int(x) is even. |
| Overs.StrippedBalls | cricket_score_predictor-main/app.py:84-106 | When the `try` block succeeds, its ball count is the result. When it raises, the `except` block gives round-half-even of 6 × `float(s)` if `float` accepts the text, and 0 if it does not. |
| Overs.BlankGivesZero | cricket_score_predictor-main/app.py:81-82 | `None`, the empty string and all-whitespace text give `(0, 0.0)`. |
| Overs.StripInvariant | cricket_score_predictor-main/app.py:81-83 | Surrounding whitespace does not change the result. |
| Overs.WholeOvers | cricket_score_predictor-main/app.py:95-97 | A digit string denoting n gives `(6n, n)`. |
| Overs.NegatedWholeOvers | cricket_score_predictor-main/app.py:95-97 | "-" followed by digits denoting n gives `(-6n, 0.0)`. |
| Overs.SplitDigitsAtPoint | cricket_score_predictor-main/app.py:86 | `split('.')` of "n.b" succeeds and gives back the two digit strings. |
| Overs.SplitOnePoint | cricket_score_predictor-main/app.py:86 | `split('.')` of text with exactly one point succeeds and gives back the text before and after the point. |
| Overs.EmptySideRaises | cricket_score_predictor-main/app.py:86-88 | An empty side of the one point makes `int` raise, so the `try` block raises. |
| Overs.LiteralBalls | cricket_score_predictor-main/app.py:85-90 | In "n.b" with b reading 0 to 5 (leading zeros allowed), the ball count is 6n + b. |
| Overs.LiteralSidesBalls | cricket_score_predictor-main/app.py:85-90 | When the two sides of the one point read through `int` as n and as b in 0 to 5, whatever whitespace they carry, the `try` block gives 6n + b. |
| Overs.PaddedLiteralBalls | cricket_score_predictor-main/app.py:81-90 | Text "n.b" with whitespace that `int` skips around either side, and none at the ends of the whole text, gives 6n + b balls for b reading 0 to 5. |
| Overs.FractionBallsOf | cricket_score_predictor-main/app.py:92-94 | The digits r become the fraction 0.r of an over, and the over part gains 6 × 0.r rounded half to even. |
| Overs.PointBallsFraction | cricket_score_predictor-main/app.py:87-94 | For "n.r" with r reading above 5, the `try` block succeeds with 6n + round(6 × 0.r). |
| Overs.FractionalBalls | cricket_score_predictor-main/app.py:91-94 | For "n.r" with r reading above 5, the ball count is 6n + round(6 × 0.r), which lies between 6n and 6n + 6. |
| Overs.TrailingPoint | cricket_score_predictor-main/app.py:98-104 | "n." fails `int` on the empty right side and falls back to `float`, giving 6n balls. |
| Overs.LeadingPoint | cricket_score_predictor-main/app.py:98-104 | ".r" fails `int` on the empty left side and falls back to `float`, giving round(6 × 0.r) balls. |
| Overs.NoDigitsGivesZero | cricket_score_predictor-main/app.py:98-106 | Text with no ASCII digit makes both `int` and `float` raise, so the result is `(0, 0.0)`. |
| Overs.TwoPointsGiveZero | cricket_score_predictor-main/app.py:98-106 | Text with two points after stripping fails to unpack and fails `float`, so the result is `(0, 0.0)`. |
| Overs.UnsignedNonNegative | cricket_score_predictor-main/app.py:81-106 | For any text without a minus sign, the ball count is never negative on any branch. |
| Overs.RoundSixthsOfFraction | cricket_score_predictor-main/app.py:93 | Six times a fraction in [0, 1) rounds to between 0 and 6 balls. |
| Overs.CaseWholeOvers | cricket_score_predictor-main/app.py:78 | "10" gives 60 balls and 10.0 overs. |
| Overs.CaseOversAndBalls | cricket_score_predictor-main/app.py:78 | "10.4" gives 64 balls. |
| Overs.CaseLeadingZeroBalls | cricket_score_predictor-main/app.py:88-90 | "10.05" gives 65 balls. |
| Overs.CaseDecimalOvers | cricket_score_predictor-main/app.py:79 | "10.40" is read as decimal overs and gives 62 balls. |
| Overs.CaseTieToEven | cricket_score_predictor-main/app.py:93 | "10.75" gives 64 balls, because 4.5 rounds to the even 4. |
| Overs.CaseTrailingPoint | cricket_score_predictor-main/app.py:98-104 | "10." gives 60 balls. |
| Overs.CaseLeadingPoint | cricket_score_predictor-main/app.py:98-104 | ".5" gives 3 balls. |
| Overs.CaseNoDigits | cricket_score_predictor-main/app.py:105-106 | "abc" gives `(0, 0.0)`. |
| Overs.CaseTwoPoints | cricket_score_predictor-main/app.py:105-106 | "1.2.3" gives `(0, 0.0)`. |
| Overs.CaseNegative | cricket_score_predictor-main/app.py:96-97 | "-3" gives `(-18, 0.0)`. |
| Overs.CaseSeparatorBeforePoint | cricket_score_predictor-main/app.py:83-106 | "10\u001c.4" survives `strip`, but `int("10\u001c")` and `float` both raise, so the result is `(0, 0.0)`. |
| Overs.CaseSpaceAtPoint | cricket_score_predictor-main/app.py:85-90 | "10 .4" and "10. 4" both give 64 balls, because `int` skips the space next to the point. |
| PyNum.RoundHalfEven | cricket_score_predictor-main/app.py:93 | `round` gives an integer within 0.5 of its argument. On an exact tie it gives the even integer. |
| PyNum.RoundHalfEvenUnique | cricket_score_predictor-main/app.py:93 | Those two properties determine the rounded value. |
| PyNum.RoundHalfEvenMonotone | cricket_score_predictor-main/app.py:43 | Rounding preserves order. |
| PyNum.Trunc | cricket_score_predictor-main/app.py:101 | `int(x)` drops the fraction toward zero: from 0 to 1 below x for x ≥ 0, and from 0 to 1 above x for x < 0. |
| PyNum.RoundShiftEven | cricket_score_predictor-main/app.py:103 | Adding an even integer before rounding half to even adds it after. |
| PyText.StripBy | cricket_score_predictor-main/app.py:81-83 | `strip` returns a contiguous slice of the text. Everything before and after that slice is whitespace, and the slice itself has no whitespace at either end. |
| PyText.StripEmptyIffBlank | cricket_score_predictor-main/app.py:81 | Stripped text is empty exactly when the original text is all whitespace. |
| PyText.StripTrimmed | cricket_score_predictor-main/app.py:83 | Text with no whitespace at either end is left unchanged by `strip`. |
| PyText.NumStripTrimmed | cricket_score_predictor-main/app.py:87-88 | Text with no `strip` whitespace at either end has nothing for `int` or `float` to skip either. |
| PyText.StripIdempotent | cricket_score_predictor-main/app.py:83 | Stripping twice is stripping once. |
| PyText.StripPadded | cricket_score_predictor-main/app.py:83 | Text with no whitespace at its ends comes back whole from stripping any whitespace padding around it. |
| PyText.SplitAtPoint | cricket_score_predictor-main/app.py:86 | `left, right = s.split('.')` succeeds exactly when there is one point. The two parts rebuild s around that point, and failure means there is no point or there are two. |
| PyText.ParseInt | cricket_score_predictor-main/app.py:87-88 | Empty text after skipping whitespace makes `int` raise. A negative result needs the skipped text to start with a minus sign. The lemmas `ParseIntSkipsSpace`, `ParseIntOfPaddedDigits`, `ParseIntOfPlusDigits`, `ParseIntOfDigitGroups`, `ParseIntOfDigits` and `ParseIntOfNegatedDigits` give its values. |
| PyText.ParseFloat | cricket_score_predictor-main/app.py:100 | Empty text after skipping whitespace makes `float` raise. A negative result needs the skipped text to start with a minus sign. The lemmas `ParseFloatSkipsSpace`, `ParseFloatOfPlus`, `ParseFloatOfMinus`, `UnsignedDecimalAt` and the `ParseFloatOf*` cases give its values. |
| PyText.ParseIntSkipsSpace | cricket_score_predictor-main/app.py:87-88 | `int` reads only what is left once the whitespace around the text is skipped. |
| PyText.ParseFloatSkipsSpace | cricket_score_predictor-main/app.py:100 | `float` reads only what is left once the whitespace around the text is skipped. |
| PyText.ParseIntOfPaddedDigits | cricket_score_predictor-main/app.py:87-88 | `int` of digits with whitespace on either side is the digits' value. |
| PyText.ParseIntOfPlusDigits | cricket_score_predictor-main/app.py:96 | `int` of "+" followed by digits is the digits' value. |
| PyText.ParseIntOfDigitGroups | cricket_score_predictor-main/app.py:96 | `int` of digit groups joined by single underscores, such as "1_000", is the value of the digits with the underscores dropped. |
| PyText.ParseFloatOfPlus | cricket_score_predictor-main/app.py:100 | `float` of "+" followed by text is that text read as an unsigned decimal. |
| PyText.ParseFloatOfMinus | cricket_score_predictor-main/app.py:100 | `float` of "-" followed by text is that text read as an unsigned decimal and negated, and it raises when the unsigned reading does. |
| PyText.PointFractionBelowOne | cricket_score_predictor-main/app.py:92 | `float` of text starting "0." that succeeds lies in [0, 1). |
| PyText.ParseIntOfDigits | cricket_score_predictor-main/app.py:87-88 | `int` of a digit string is its decimal value. |
| PyText.ParseIntOfNegatedDigits | cricket_score_predictor-main/app.py:96 | `int` of "-" followed by digits is the negated value. |
| PyText.ParseIntUnsigned | cricket_score_predictor-main/app.py:87-88 | Text without a minus sign never gives a negative `int`. |
| PyText.ParseFloatUnsigned | cricket_score_predictor-main/app.py:100 | Text without a minus sign never gives a negative `float`. |
| PyText.UnsignedDecimalAt | cricket_score_predictor-main/app.py:100 | The `float` grammar reads digits around one point, with at least one side non-empty, as the whole part plus the fraction. |
| PyText.ParseFloatOfFraction | cricket_score_predictor-main/app.py:92 | `float("0." + r)` for digits r is the fraction 0.r. |
| PyText.ParseFloatOfTrailingPoint | cricket_score_predictor-main/app.py:100 | `float("n.")` is n. |
| PyText.ParseFloatOfLeadingPoint | cricket_score_predictor-main/app.py:100 | `float(".r")` is 0.r. |
| PyText.NoDigitsRejected | cricket_score_predictor-main/app.py:96-100 | Text with no ASCII digit makes both `int` and `float` raise. |
| PyText.NoDigitsNoNumber | cricket_score_predictor-main/app.py:96-100 | Text with no ASCII digit is neither a digit group nor an unsigned decimal. |
| PyText.TwoPointsRejected | cricket_score_predictor-main/app.py:100 | Text with two points makes `float` raise. |
| PyText.DecValue | cricket_score_predictor-main/app.py:87-88 | The decimal value of k digits is below 10^k. |
| PyText.Fraction | cricket_score_predictor-main/app.py:92 | The fraction 0.r lies in [0, 1). |
| Heuristic.DummyPipe.constructor | cricket_score_predictor-main/app.py:10-15 | The object holds the fixed ten-team strength table. |
| Heuristic.DefaultTeamStrength | cricket_score_predictor-main/app.py:11-15 | Every strength in the table lies in [-2, 3]. India has the top strength 3 and Afghanistan the bottom strength -2. |
| Heuristic.Strength | cricket_score_predictor-main/app.py:35-36 | `team_strength.get(team, 0)` is the team's own table entry when the team is listed, and 0 when it is not. |
| Heuristic.TeamInfluence | cricket_score_predictor-main/app.py:35-37 | Teams both missing from the table contribute nothing. |
| Heuristic.RawPrediction | cricket_score_predictor-main/app.py:26-41 | For crr ≥ 0 the projection is at least score + 0.6 × last five + team term + city bias. With no balls left it equals that sum. For crr ≥ 0 and balls left ≥ 0, the extrapolated runs on top of that sum lie between 0.8 × crr × balls/6 and crr × balls/6. |
| Heuristic.DummyPipe.Predict | cricket_score_predictor-main/app.py:17-44 | There is one prediction per row, in row order. Each is that row's projection and is at least that row's current score. |
| Heuristic.RowPrediction | cricket_score_predictor-main/app.py:41-43 | The prediction is at least the current score. It equals the current score when the projection is not above it, and is otherwise within 0.5 of the projection. |
| Heuristic.RowPredictionOfParts | cricket_score_predictor-main/app.py:26-43 | The loop body's step-by-step rate, overs, team term, city bias, raw projection and rounding give exactly `RowPrediction` of the row. |
| Heuristic.ExpectedRate | cricket_score_predictor-main/app.py:26-29 | With no wickets left the rate is 0.8 × crr. For crr ≥ 0 the rate lies between 0.8 × crr and crr. |
| Heuristic.FullRateWithAllWickets | cricket_score_predictor-main/app.py:29 | With ten or more wickets in hand the rate is crr. |
| Heuristic.ExpectedRateMonotone | cricket_score_predictor-main/app.py:26-29 | For crr ≥ 0, more wickets in hand never lower the expected rate. |
| Heuristic.ExtrapolationBounds | cricket_score_predictor-main/app.py:26-31 | At a non-negative current rate and balls left, the expected rate times the overs remaining lies between 0.8 × crr × balls/6 and crr × balls/6. |
| Heuristic.OversRemaining | cricket_score_predictor-main/app.py:30 | The overs remaining are never negative. They are exactly 0 when no balls are left or the count is negative, and balls/6 for a non-negative ball count. |
| Heuristic.CityBias | cricket_score_predictor-main/app.py:39 | The city bias lies in [-0.9, 0.9]. |
| Heuristic.CityBiasValues | cricket_score_predictor-main/app.py:39 | The bias is one of -0.9, -0.6, -0.3, 0.0, 0.3, 0.6 and 0.9, and depends on the hash only modulo 7. |
| Heuristic.UnknownTeamNeutral | cricket_score_predictor-main/app.py:35-37 | A team missing from the table contributes strength 0. |
| Heuristic.DefaultStrengthBounds | cricket_score_predictor-main/app.py:11-15 | Every strength in the default table, with 0 for missing teams, lies in [-2, 3]. |
| Heuristic.DefaultInfluenceBounds | cricket_score_predictor-main/app.py:35-37 | With the default table the team term lies in [-2.4, 2.6]. |
| Heuristic.IndiaAgainstAustralia | cricket_score_predictor-main/app.py:37 | India batting against Australia gives a team term of 1.0. |
| Heuristic.PredictionMonotoneInLastFive | cricket_score_predictor-main/app.py:41-43 | More runs in the last five overs never lower the prediction. |
| Heuristic.IndiaAustraliaScenario | cricket_score_predictor-main/app.py:26-43 | India against Australia at 100 runs, with 30 balls and 10 wickets left and 40 runs in the last five overs: the projection is 125 + 5 × crr + bias, and the prediction lies within 1.4 of 125 + 5 × crr. |
| MatchState.BallsLeft | cricket_score_predictor-main/app.py:127 | Balls left are never negative and at most 120 for a non-negative ball count. With at most 120 balls bowled, balls left and balls bowled add up to 120. |
| MatchState.WicketsLeft | cricket_score_predictor-main/app.py:130 | Wickets left are never negative and at most 10 for a non-negative wicket count. With at most 10 wickets fallen they add up to 10. |
| MatchState.RunRate | cricket_score_predictor-main/app.py:133 | When the overs are positive, the rate times the overs is the score. Otherwise the rate is 0.0, and it is never negative for a non-negative score. |
| MatchState.Derive | cricket_score_predictor-main/app.py:126-133 | Balls bowled and overs pass through from `parse_overs`. Balls left, wickets left and the rate are `BallsLeft`, `WicketsLeft` and `RunRate` of the parsed balls, the wickets and the score over the parsed overs. Balls left and wickets left are never negative. Balls left are at most 120 for a non-negative ball count, and add up with the balls bowled to 120 when at most 120 are bowled. Wickets left are at most 10 for a non-negative wicket count. The rate is never negative for a non-negative score. |
| MatchState.DeriveFromForm | cricket_score_predictor-main/app.py:126-133 | Balls bowled and overs are the pair `parse_overs` returns for the text. Balls left, wickets left and the rate are `BallsLeft`, `WicketsLeft` and `RunRate` of those balls, the wickets and the score over those overs. For any overs text: the overs are balls/6 when balls are positive, and otherwise overs and rate are 0.0. The bounds of balls left, wickets left and rate hold as for `Derive`, wickets left and wickets add up to 10 when at most 10 have fallen, and text without a minus sign gives a non-negative ball count and at most 120 balls left. |
| MatchState.DeriveRunRate | cricket_score_predictor-main/app.py:126-133 | On any pair `parse_overs` returns, the run rate times the balls bowled is six times the score. The rate is 0.0 when no balls are bowled. |
| MatchState.TenOversAtEight | cricket_score_predictor-main/app.py:126-133 | A score of 80 with overs "10" and 2 wickets gives 60 balls bowled, 10.0 overs, 60 balls left, 8 wickets left and a rate of 8.0. |
| MatchState.MatchRow | cricket_score_predictor-main/app.py:136-147 | The row carries the form's teams, city, score and last-five runs unchanged. Its balls left, wickets left and rate are `BallsLeft` of the balls `parse_overs` gives for the text, `WicketsLeft` of the wickets, and `RunRate` of the score over the parsed overs. Balls left and wickets left are never negative. Wickets left are at most 10 for a non-negative wicket count, and add up with the wickets to 10 when at most 10 have fallen. The rate is never negative for a non-negative score. Balls left are at most 120 for overs text without a minus sign. |
| MatchState.PredictScore | cricket_score_predictor-main/app.py:154-155 | The app's prediction is the row's projection and is never below the current score. |

## Left out

- The Flask route, the form reads and their `int` conversions, `render_template` and `app.run` (app.py lines 110-125 and 156-163): web input and output. The model takes the converted integers and the overs text as parameters.
- Loading and saving `pipe.pkl` and the `print` diagnostics (lines 46-59): file input and output. A loaded model would be an unknown foreign object, so the model always uses `DummyPipe`. Swapping in a trained predictor is not modelled.
- pandas: building the data frame, the `astype` casts, and the `row.get` defaults for missing columns (lines 19-24 and 136-152). A row is a record with every column present. The duplicate columns `wicket_left` and `current_run_rate` are left out, because the row always has `wickets_left` and `crr` and the defaults that would consult the duplicates never apply.
- Python's `hash` on strings (line 39) is salted per process, so it is a parameter `hash: string -> int`. Only its value modulo 7 matters.
- The static `teams` and `cities` lists (lines 61-74) are display data for the form and are not used by the logic.
- IEEE-754 floating point. Every float is an exact real.
   - The fallback subtraction `overs_float - whole` (line 102) and the heuristic's sums carry no rounding error here. The rounding of long fractions by `float` is not modelled either.
   - `balls_bowled / 6.0` raising `OverflowError` for a ball count beyond the float range is not modelled.
- `int` and `float` are modelled only for ASCII digits. Exponents (`"1e1"`) and non-ASCII Unicode digits are not accepted by the model.
   - For `"inf"` and `"nan"`, Python's `float` succeeds and the `int` that follows raises instead. The model rejects them in `float`. Both routes give 0 balls.
- CPython's limit of 4300 digits on `int` of a decimal string is not modelled. Above it `int` raises, the fallback `float` gives `inf`, and `int(inf)` raises too, so the app gives 0 balls where the model gives 6n.
- `str(overs_value)` on a non-string value: the app always passes the form's string, so the model takes `Option<string>`.
- Overs.FractionalBalls: the half-to-even rounding on reals matches Python's float only where the decimal 0.r is exact in binary or far from a tie. The ties that 6 × 0.r can reach, 0.25 and 0.75, are exact in binary.
