/**
 * The match state `index` derives from the submitted form before calling
 * the predictor: balls and wickets left in a 20-over, 10-wicket innings
 * and the current run rate, guarded against a zero over count.
 */
module MatchState {
  import opened Wrappers
  import opened PyNum
  import opened Overs
  import opened Heuristic

  /** Balls in a 20-over innings. */
  const InningsBalls := 120

  /** Wickets in an innings. */
  const InningsWickets := 10

  /** `max(0, 120 - balls_bowled)`. */
  function BallsLeft(ballsBowled: int): (r: int)
    ensures r >= 0
    ensures ballsBowled >= 0 ==> r <= InningsBalls
    ensures ballsBowled <= InningsBalls ==> r + ballsBowled == InningsBalls
    ensures ballsBowled >= InningsBalls ==> r == 0
  {
    MaxInt(0, InningsBalls - ballsBowled)
  }

  /** `max(0, 10 - wickets)`. */
  function WicketsLeft(wickets: int): (r: int)
    ensures r >= 0
    ensures wickets >= 0 ==> r <= InningsWickets
    ensures wickets <= InningsWickets ==> r + wickets == InningsWickets
    ensures wickets >= InningsWickets ==> r == 0
  {
    MaxInt(0, InningsWickets - wickets)
  }

  /** `current_score / overs_for_crr if overs_for_crr > 0 else 0.0`. */
  function RunRate(currentScore: int, oversForRate: real): (crr: real)
    ensures oversForRate > 0.0 ==> crr * oversForRate == currentScore as real
    ensures oversForRate <= 0.0 ==> crr == 0.0
    ensures currentScore >= 0 ==> crr >= 0.0
  {
    if oversForRate > 0.0 then currentScore as real / oversForRate else 0.0
  }

  /** The values `index` computes from the form fields. */
  datatype Derived = Derived(ballsBowled: int, oversForRate: real, ballsLeft: int, wicketsLeft: int, crr: real)

  /**
   * Lines 127-133 of `index`, from the current score, the `parse_overs`
   * pair and the wickets fallen: the pair passes through, the counts left
   * are never negative and stay within the innings when the inputs do,
   * and the run rate is not negative for a score that is not.
   */
  function Derive(currentScore: int, parsed: Parsed, wickets: int): (d: Derived)
    ensures d.ballsBowled == parsed.balls && d.oversForRate == parsed.oversForRate
    ensures d.ballsLeft == BallsLeft(parsed.balls) && d.wicketsLeft == WicketsLeft(wickets)
    ensures d.crr == RunRate(currentScore, parsed.oversForRate)
    ensures 0 <= d.ballsLeft && 0 <= d.wicketsLeft
    ensures parsed.balls >= 0 ==> d.ballsLeft <= InningsBalls
    ensures 0 <= parsed.balls <= InningsBalls ==> d.ballsBowled + d.ballsLeft == InningsBalls
    ensures wickets >= 0 ==> d.wicketsLeft <= InningsWickets
    ensures currentScore >= 0 ==> d.crr >= 0.0
  {
    Derived(
      parsed.balls,
      parsed.oversForRate,
      BallsLeft(parsed.balls),
      WicketsLeft(wickets),
      RunRate(currentScore, parsed.oversForRate))
  }

  /**
   * Lines 126-133 of `index`: parse the overs text, then derive the rest.
   * The overs for the rate are the balls bowled in overs, and with none
   * bowled both they and the run rate are 0. The counts left are never
   * negative; overs text without a minus sign never gives negative balls,
   * so the balls left then lie between 0 and 120.
   */
  function DeriveFromForm(currentScore: int, oversInput: string, wickets: int): (d: Derived)
    ensures var p := ParseOvers(Some(oversInput));
      d.ballsBowled == p.balls && d.oversForRate == p.oversForRate
    ensures d.ballsLeft == BallsLeft(d.ballsBowled) && d.wicketsLeft == WicketsLeft(wickets)
    ensures d.crr == RunRate(currentScore, d.oversForRate)
    ensures d.ballsBowled > 0 ==> d.oversForRate * 6.0 == d.ballsBowled as real
    ensures d.ballsBowled <= 0 ==> d.oversForRate == 0.0 && d.crr == 0.0
    ensures 0 <= d.ballsLeft && 0 <= d.wicketsLeft
    ensures 0 <= d.ballsBowled <= InningsBalls ==> d.ballsBowled + d.ballsLeft == InningsBalls
    ensures wickets >= 0 ==> d.wicketsLeft <= InningsWickets
    ensures wickets <= InningsWickets ==> d.wicketsLeft + wickets == InningsWickets
    ensures currentScore >= 0 ==> d.crr >= 0.0
    ensures '-' !in oversInput ==> d.ballsBowled >= 0 && d.ballsLeft <= InningsBalls
  {
    UnsignedNonNegative(oversInput);
    Derive(currentScore, ParseOvers(Some(oversInput)), wickets)
  }

  /**
   * On a pair `parse_overs` can return, the run rate is runs per over of the
   * balls bowled: six times the score over the balls, or 0 when none are.
   */
  lemma DeriveRunRate(currentScore: int, parsed: Parsed, wickets: int)
    requires Consistent(parsed)
    ensures var d := Derive(currentScore, parsed, wickets);
      d.ballsBowled > 0 ==> d.crr * d.ballsBowled as real == 6.0 * currentScore as real
    ensures var d := Derive(currentScore, parsed, wickets);
      d.ballsBowled <= 0 ==> d.crr == 0.0
  {
    if parsed.balls > 0 {
      RateOverBalls(RunRate(currentScore, parsed.oversForRate), parsed.oversForRate,
        parsed.balls as real, currentScore as real);
    }
  }

  /** A rate per over times the overs is the runs; with six balls to the over, the rate times the balls is six times the runs. */
  lemma RateOverBalls(rate: real, overs: real, balls: real, runs: real)
    requires overs * 6.0 == balls && rate * overs == runs
    ensures rate * balls == 6.0 * runs
  {
  }

  /** Ten overs with 80 runs and 2 wickets down: 60 balls and 8 wickets left at 8 runs an over. */
  lemma TenOversAtEight()
    ensures DeriveFromForm(80, "10", 2) == Derived(60, 10.0, 60, 8, 8.0)
  {
    CaseWholeOvers();
  }

  /**
   * The row `index` hands to the predictor: the form's fields as given, and
   * the counts left and the run rate derived from the parsed overs.
   */
  function MatchRow(battingTeam: string, bowlingTeam: string, city: string,
                    currentScore: int, oversInput: string, wickets: int, lastFive: int): (row: Row)
    ensures row.currentScore == currentScore && row.lastFive == lastFive && row.city == city
    ensures row.battingTeam == battingTeam && row.bowlingTeam == bowlingTeam
    ensures var p := ParseOvers(Some(oversInput));
      row.ballsLeft == BallsLeft(p.balls) && row.wicketsLeft == WicketsLeft(wickets)
        && row.crr == RunRate(currentScore, p.oversForRate)
    ensures row.ballsLeft >= 0 && row.wicketsLeft >= 0
    ensures wickets >= 0 ==> row.wicketsLeft <= InningsWickets
    ensures wickets <= InningsWickets ==> row.wicketsLeft + wickets == InningsWickets
    ensures currentScore >= 0 ==> row.crr >= 0.0
    ensures '-' !in oversInput ==> row.ballsLeft <= InningsBalls
  {
    var d := DeriveFromForm(currentScore, oversInput, wickets);
    Row(battingTeam, bowlingTeam, city, currentScore, d.ballsLeft, d.wicketsLeft, d.crr, lastFive)
  }

  /**
   * `pipe.predict(input_df)` on the one-row frame and `int(result[0])`:
   * the row's projection, never below the current score.
   */
  method PredictScore(pipe: DummyPipe, battingTeam: string, bowlingTeam: string, city: string,
                      currentScore: int, oversInput: string, wickets: int, lastFive: int,
                      hash: string -> int) returns (prediction: int)
    ensures prediction == RowPrediction(pipe.teamStrength,
      MatchRow(battingTeam, bowlingTeam, city, currentScore, oversInput, wickets, lastFive), hash(city))
    ensures prediction >= currentScore
  {
    var row := MatchRow(battingTeam, bowlingTeam, city, currentScore, oversInput, wickets, lastFive);
    var result := pipe.Predict([row], hash);
    prediction := result[0];
  }
}
