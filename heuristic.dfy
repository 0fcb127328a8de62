/**
 * `DummyPipe`: the fallback score projector used when no trained model can
 * be loaded. For each row of match state it extrapolates the current run
 * rate over the overs left, adds a share of the last five overs' runs, a
 * team-strength term and a per-city bias, floors the sum at the current
 * score and rounds it to a whole score.
 *
 * Float arithmetic is modelled on exact reals. Python's salted `hash` of
 * the city name is a parameter: any function from strings to integers.
 */
module Heuristic {
  import opened PyNum

  /** One row of the input frame, with every column the app supplies present. */
  datatype Row = Row(
    battingTeam: string,
    bowlingTeam: string,
    city: string,
    currentScore: int,
    ballsLeft: int,
    wicketsLeft: int,
    crr: real,
    lastFive: int)

  /** The table `DummyPipe.__init__` stores: ten sides, each rated between -2 and 3. */
  function DefaultTeamStrength(): (m: map<string, int>)
    ensures forall team :: team in m ==> -2 <= m[team] <= 3
    ensures "India" in m && m["India"] == 3 && "Afghanistan" in m && m["Afghanistan"] == -2
  {
    map[
      "Australia" := 2, "India" := 3, "Bangladesh" := -1, "New Zealand" := 1,
      "South Africa" := 2, "England" := 2, "West Indies" := 0, "Afghanistan" := -2,
      "Pakistan" := 1, "Sri Lanka" := -1]
  }

  /** `team_strength.get(team, 0)`: the team's entry, or 0 for a team the table lacks. */
  function Strength(table: map<string, int>, team: string): (v: int)
    ensures team in table ==> v == table[team]
    ensures team !in table ==> v == 0
  {
    if team in table then table[team] else 0
  }

  /**
   * The batting side's strength counts for, the bowling side's against:
   * nothing when neither is in the table.
   */
  function TeamInfluence(table: map<string, int>, bat: string, bowl: string): (i: real)
    ensures bat !in table && bowl !in table ==> i == 0.0
  {
    0.6 * Strength(table, bat) as real - 0.4 * Strength(table, bowl) as real
  }

  /** `(hash(city) % 7 - 3) * 0.3`, where Python's `%` by 7 is never negative. */
  function CityBias(h: int): (b: real)
    ensures -0.9 <= b <= 0.9
  {
    ((h % 7) - 3) as real * 0.3
  }

  /** The scoring rate expected over the rest of the innings, from the current rate and the wickets in hand. */
  function ExpectedRate(wicketsLeft: int, crr: real): (rate: real)
    ensures wicketsLeft <= 0 ==> rate == 0.8 * crr
    ensures crr >= 0.0 ==> 0.8 * crr <= rate <= crr
  {
    if wicketsLeft <= 0 then 0.8 * crr
    else crr * (0.9 + 0.01 * MinInt(wicketsLeft, 10) as real)
  }

  /** `max(0.0, balls_left / 6.0)`. */
  function OversRemaining(ballsLeft: int): (o: real)
    ensures o >= 0.0
    ensures ballsLeft <= 0 ==> o == 0.0
    ensures ballsLeft >= 0 ==> o * 6.0 == ballsLeft as real
  {
    MaxReal(0.0, ballsLeft as real / 6.0)
  }

  /**
   * `raw_pred`, given the city's hash value `h`: the current score, the
   * last-five-overs term, the team term and the city bias, plus the runs
   * expected from the balls left, which are never negative at a
   * non-negative run rate and are none when no balls are left.
   */
  function RawPrediction(table: map<string, int>, row: Row, h: int): (raw: real)
    ensures var base := row.currentScore as real + 0.6 * row.lastFive as real
        + TeamInfluence(table, row.battingTeam, row.bowlingTeam) + CityBias(h);
      (row.crr >= 0.0 ==> raw >= base) && (row.ballsLeft <= 0 ==> raw == base)
    ensures var base := row.currentScore as real + 0.6 * row.lastFive as real
        + TeamInfluence(table, row.battingTeam, row.bowlingTeam) + CityBias(h);
      var overs := row.ballsLeft as real / 6.0;
      row.crr >= 0.0 && row.ballsLeft >= 0 ==>
        base + 0.8 * row.crr * overs <= raw <= base + row.crr * overs
  {
    var rate := ExpectedRate(row.wicketsLeft, row.crr);
    var overs := OversRemaining(row.ballsLeft);
    assert row.crr >= 0.0 ==> rate * overs >= 0.0;
    assert row.crr >= 0.0 && row.ballsLeft >= 0 ==>
        0.8 * row.crr * (row.ballsLeft as real / 6.0) <= rate * overs <= row.crr * (row.ballsLeft as real / 6.0) by {
      if row.crr >= 0.0 && row.ballsLeft >= 0 {
        ExtrapolationBounds(row.wicketsLeft, row.crr, row.ballsLeft);
      }
    }
    var expectedAdditional := rate * overs;
    row.currentScore as real + expectedAdditional + 0.6 * row.lastFive as real
      + TeamInfluence(table, row.battingTeam, row.bowlingTeam) + CityBias(h)
  }

  /**
   * `int(round(max(current, raw_pred)))`: never below the current score,
   * the current score itself when the projection does not exceed it, and
   * otherwise the projection rounded to the nearest run.
   */
  function RowPrediction(table: map<string, int>, row: Row, h: int): (p: int)
    ensures p >= row.currentScore
    ensures RawPrediction(table, row, h) <= row.currentScore as real ==> p == row.currentScore
    ensures RawPrediction(table, row, h) > row.currentScore as real ==>
      RawPrediction(table, row, h) - 0.5 <= p as real <= RawPrediction(table, row, h) + 0.5
  {
    var raw := RawPrediction(table, row, h);
    var finalPred := MaxReal(row.currentScore as real, raw);
    RoundHalfEvenOfInt(row.currentScore);
    RoundHalfEvenMonotone(row.currentScore as real, finalPred);
    RoundHalfEven(finalPred)
  }

  /** The loop's step by step computation of one row agrees with RowPrediction. */
  lemma RowPredictionOfParts(table: map<string, int>, row: Row, h: int, rate: real, overs: real,
                             influence: real, bias: real, raw: real, p: int)
    requires rate == ExpectedRate(row.wicketsLeft, row.crr) && overs == OversRemaining(row.ballsLeft)
    requires influence == TeamInfluence(table, row.battingTeam, row.bowlingTeam) && bias == CityBias(h)
    requires raw == row.currentScore as real + rate * overs + 0.6 * row.lastFive as real + influence + bias
    requires p == RoundHalfEven(MaxReal(row.currentScore as real, raw))
    ensures p == RowPrediction(table, row, h)
  {
    assert raw == RawPrediction(table, row, h);
  }

  class DummyPipe {
    const teamStrength: map<string, int>

    /** `__init__`: the fixed strength table. */
    constructor()
      ensures teamStrength == DefaultTeamStrength()
    {
      teamStrength := DefaultTeamStrength();
    }

    /**
     * `predict(X)`: one prediction per row, in row order, each the row's
     * own projection and never below that row's current score. `hash`
     * stands for Python's `hash` on strings.
     */
    method Predict(rows: seq<Row>, hash: string -> int) returns (preds: seq<int>)
      ensures |preds| == |rows|
      ensures forall i :: 0 <= i < |rows| ==> preds[i] == RowPrediction(teamStrength, rows[i], hash(rows[i].city))
      ensures forall i :: 0 <= i < |rows| ==> preds[i] >= rows[i].currentScore
    {
      preds := [];
      for k := 0 to |rows|
        invariant |preds| == k
        invariant forall i :: 0 <= i < k ==> preds[i] == RowPrediction(teamStrength, rows[i], hash(rows[i].city))
        invariant forall i :: 0 <= i < k ==> preds[i] >= rows[i].currentScore
      {
        var row := rows[k];
        var current := row.currentScore as real;
        var expectedScoringRate := if row.wicketsLeft <= 0 then 0.8 * row.crr
          else row.crr * (0.9 + 0.01 * MinInt(row.wicketsLeft, 10) as real);
        var oversRemaining := MaxReal(0.0, row.ballsLeft as real / 6.0);
        var expectedAdditional := expectedScoringRate * oversRemaining;
        var batStr := if row.battingTeam in teamStrength then teamStrength[row.battingTeam] else 0;
        var bowlStr := if row.bowlingTeam in teamStrength then teamStrength[row.bowlingTeam] else 0;
        var teamInfluence := 0.6 * batStr as real - 0.4 * bowlStr as real;
        var cityBias := ((hash(row.city) % 7) - 3) as real * 0.3;
        var rawPred := current + expectedAdditional + 0.6 * row.lastFive as real + teamInfluence + cityBias;
        var finalPred := MaxReal(current, rawPred);
        assert expectedScoringRate == ExpectedRate(row.wicketsLeft, row.crr);
        assert oversRemaining == OversRemaining(row.ballsLeft);
        assert teamInfluence == TeamInfluence(teamStrength, row.battingTeam, row.bowlingTeam);
        assert cityBias == CityBias(hash(row.city));
        var p := RoundHalfEven(finalPred);
        RowPredictionOfParts(teamStrength, row, hash(row.city), expectedScoringRate, oversRemaining,
          teamInfluence, cityBias, rawPred, p);
        preds := preds + [p];
      }
    }
  }

  /** A name missing from the table contributes strength 0, batting or bowling. */
  lemma UnknownTeamNeutral(table: map<string, int>, bat: string, bowl: string)
    ensures bat !in table ==> TeamInfluence(table, bat, bowl) == -0.4 * Strength(table, bowl) as real
    ensures bowl !in table ==> TeamInfluence(table, bat, bowl) == 0.6 * Strength(table, bat) as real
    ensures bat !in table && bowl !in table ==> TeamInfluence(table, bat, bowl) == 0.0
  {
  }

  /** Every strength in the default table lies between -2 and 3. */
  lemma DefaultStrengthBounds(team: string)
    ensures -2 <= Strength(DefaultTeamStrength(), team) <= 3
  {
  }

  /** With the default table the team term lies between -2.4 and 2.6. */
  lemma DefaultInfluenceBounds(bat: string, bowl: string)
    ensures -2.4 <= TeamInfluence(DefaultTeamStrength(), bat, bowl) <= 2.6
  {
    DefaultStrengthBounds(bat);
    DefaultStrengthBounds(bowl);
  }

  /** India batting against Australia: 0.6 * 3 - 0.4 * 2 = 1.0. */
  lemma IndiaAgainstAustralia()
    ensures TeamInfluence(DefaultTeamStrength(), "India", "Australia") == 1.0
  {
  }

  /** The city bias is one of the seven values -0.9, -0.6, ..., 0.9, and depends on the hash only modulo 7. */
  lemma CityBiasValues(h: int)
    ensures CityBias(h) in {-0.9, -0.6, -0.3, 0.0, 0.3, 0.6, 0.9}
    ensures CityBias(h + 7) == CityBias(h)
  {
    var m := h % 7;
    assert (h + 7) % 7 == m;
    if m == 0 { assert CityBias(h) == -0.9; }
    else if m == 1 { assert CityBias(h) == -0.6; }
    else if m == 2 { assert CityBias(h) == -0.3; }
    else if m == 3 { assert CityBias(h) == 0.0; }
    else if m == 4 { assert CityBias(h) == 0.3; }
    else if m == 5 { assert CityBias(h) == 0.6; }
    else { assert CityBias(h) == 0.9; }
  }

  /** With ten or more wickets in hand the expected rate is the current rate. */
  lemma FullRateWithAllWickets(wicketsLeft: int, crr: real)
    requires wicketsLeft >= 10
    ensures ExpectedRate(wicketsLeft, crr) == crr
  {
  }

  /** More wickets in hand never lower the expected rate when the current rate is not negative. */
  lemma ExpectedRateMonotone(w1: int, w2: int, crr: real)
    requires w1 <= w2 && crr >= 0.0
    ensures ExpectedRate(w1, crr) <= ExpectedRate(w2, crr)
  {
    if w1 > 0 {
      var a := 0.9 + 0.01 * MinInt(w1, 10) as real;
      var b := 0.9 + 0.01 * MinInt(w2, 10) as real;
      ScaledOrder(crr, a, b, ExpectedRate(w1, crr), ExpectedRate(w2, crr));
    }
  }

  /**
   * The runs expected from the balls left at a non-negative current rate lie
   * between 0.8 and 1.0 times that rate over the overs left.
   */
  lemma ExtrapolationBounds(wicketsLeft: int, crr: real, ballsLeft: int)
    requires crr >= 0.0 && ballsLeft >= 0
    ensures var overs := ballsLeft as real / 6.0;
      0.8 * crr * overs <= ExpectedRate(wicketsLeft, crr) * OversRemaining(ballsLeft) <= crr * overs
  {
    var rate := ExpectedRate(wicketsLeft, crr);
    var overs := OversRemaining(ballsLeft);
    assert overs == ballsLeft as real / 6.0 && overs >= 0.0;
    ScaledOrder(overs, 0.8 * crr, rate, overs * (0.8 * crr), overs * rate);
    ScaledOrder(overs, rate, crr, overs * rate, overs * crr);
  }

  /** Scaling two ordered factors by a non-negative rate keeps them ordered. */
  lemma ScaledOrder(k: real, a: real, b: real, x: real, y: real)
    requires k >= 0.0 && a <= b && x == k * a && y == k * b
    ensures x <= y
  {
    assert y - x == k * (b - a);
  }

  /** More runs in the last five overs never lower the prediction. */
  lemma PredictionMonotoneInLastFive(table: map<string, int>, row: Row, h: int, more: int)
    requires more >= row.lastFive
    ensures RowPrediction(table, row, h) <= RowPrediction(table, row.(lastFive := more), h)
  {
    var row' := row.(lastFive := more);
    assert RawPrediction(table, row, h) <= RawPrediction(table, row', h);
    RoundHalfEvenMonotone(
      MaxReal(row.currentScore as real, RawPrediction(table, row, h)),
      MaxReal(row'.currentScore as real, RawPrediction(table, row', h)));
  }

  /**
   * India batting against Australia at 100 with 30 balls and all ten
   * wickets left and 40 runs in the last five overs: the projection is
   * 125 plus five overs at the current rate plus the city bias, which is
   * above 100, so the prediction is that projection rounded.
   */
  lemma IndiaAustraliaScenario(crr: real, city: string, h: int)
    requires crr >= 0.0
    ensures RawPrediction(DefaultTeamStrength(), Row("India", "Australia", city, 100, 30, 10, crr, 40), h)
      == 125.0 + 5.0 * crr + CityBias(h)
    ensures var p := RowPrediction(DefaultTeamStrength(), Row("India", "Australia", city, 100, 30, 10, crr, 40), h);
      124.1 + 5.0 * crr - 0.5 <= p as real <= 125.9 + 5.0 * crr + 0.5
  {
    IndiaAgainstAustralia();
    assert OversRemaining(30) == 5.0;
    FullRateWithAllWickets(10, crr);
  }
}
