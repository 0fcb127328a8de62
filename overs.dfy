/**
 * `parse_overs`: free-text overs notation to the pair
 * `(balls_bowled, overs_for_crr)`.
 *
 * In cricket notation the digits after the point count balls, six to an
 * over, so "10.4" is 10 overs and 4 balls. When those digits do not read as
 * 0 to 5 they are taken as a decimal fraction of an over instead. A Python
 * exception inside the function is modelled as `None`; the function itself
 * always returns.
 */
module Overs {
  import opened Wrappers
  import opened PyNum
  import opened PyText

  /** The pair `(balls_bowled, overs_for_crr)`. */
  datatype Parsed = Parsed(balls: int, oversForRate: real)

  /**
   * The `try` block on the stripped text `s`: the balls it computes, or
   * `None` where one of its conversions raises. Text without a point gives
   * whole overs; text with a point gets through only when it splits in two.
   */
  function PrimaryBalls(s: string): (r: Option<int>)
    ensures r.Some? && '.' !in s ==> r.value % 6 == 0
    ensures r.Some? && '.' in s ==> SplitAtPoint(s).Some?
  {
    if '.' in s then
      match SplitAtPoint(s)
      case None => None
      case Some((left, right)) => PointBalls(left, right)
    else
      match ParseInt(s)
      case None => None
      case Some(overPart) => Some(overPart * 6)
  }

  /**
   * The `try` block once `left, right = s.split('.')` has succeeded: both
   * sides must convert with `int`, and the balls then lie within the over
   * after the `int(left)` whole ones.
   */
  function PointBalls(left: string, right: string): (r: Option<int>)
    ensures r.Some? ==> ParseInt(left).Some? && ParseInt(right).Some?
    ensures r.Some? ==> ParseInt(left).value * 6 <= r.value <= ParseInt(left).value * 6 + 6
  {
    match ParseInt(left)
    case None => None
    case Some(overPart) =>
      match ParseInt(right)
      case None => None
      case Some(ballPart) =>
        if 0 <= ballPart <= 5 then Some(overPart * 6 + ballPart)
        else FractionBalls(overPart, "0." + right)
  }

  /**
   * `float('0.' + right)`, the digits after the point read as a decimal
   * fraction of an over, rounded to whole balls, which stay within the over.
   */
  function FractionBalls(overPart: int, fracText: string): (r: Option<int>)
    requires |fracText| >= 2 && fracText[0] == '0' && fracText[1] == '.'
    ensures r.Some? ==> overPart * 6 <= r.value <= overPart * 6 + 6
  {
    match ParseFloat(fracText)
    case None => None
    case Some(frac) =>
      PointFractionBelowOne(fracText);
      RoundSixthsOfFraction(frac);
      Some(overPart * 6 + RoundHalfEven(frac * 6.0))
  }

  /**
   * The `except` block: parse the whole text as a float, or give 0 when
   * that raises too.
   */
  function FallbackBalls(s: string): (b: int)
    ensures ParseFloat(s).Some? ==> b == RoundHalfEven(6.0 * ParseFloat(s).value)
    ensures ParseFloat(s).None? ==> b == 0
  {
    match ParseFloat(s)
    case None => 0
    case Some(oversFloat) => FloatBalls(oversFloat)
  }

  /**
   * The balls in a float number of overs x, counting whole overs and the
   * rounded fraction separately: together x overs in balls, rounded half
   * to even.
   */
  function FloatBalls(oversFloat: real): (b: int)
    ensures b == RoundHalfEven(6.0 * oversFloat)
  {
    var whole := Trunc(oversFloat);
    var frac := oversFloat - whole as real;
    RoundShiftEven(frac * 6.0, 3 * whole);
    assert frac * 6.0 + (2 * (3 * whole)) as real == 6.0 * oversFloat;
    whole * 6 + RoundHalfEven(frac * 6.0)
  }

  /** The second component is the first in overs when it is positive, and 0.0 otherwise. */
  predicate Consistent(p: Parsed)
  {
    && p.oversForRate >= 0.0
    && (p.balls > 0 ==> p.oversForRate * 6.0 == p.balls as real)
    && (p.balls <= 0 ==> p.oversForRate == 0.0)
  }

  /** `parse_overs(overs_value)`; `None` stands for Python's `None`. */
  function ParseOvers(value: Option<string>): (p: Parsed)
    ensures Consistent(p)
  {
    if value.None? || Strip(value.value) == [] then Parsed(0, 0.0)
    else
      var balls := StrippedBalls(Strip(value.value));
      Parsed(balls, if balls > 0 then balls as real / 6.0 else 0.0)
  }

  /**
   * The balls computed from non-blank stripped text: the `try` block, or
   * the `except` block when it raises. The `except` block is never reached
   * when the `try` block succeeds.
   */
  function StrippedBalls(s: string): (b: int)
    ensures PrimaryBalls(s).Some? ==> b == PrimaryBalls(s).value
    ensures PrimaryBalls(s).None? && ParseFloat(s).Some? ==> b == RoundHalfEven(6.0 * ParseFloat(s).value)
    ensures PrimaryBalls(s).None? && ParseFloat(s).None? ==> b == 0
  {
    match PrimaryBalls(s)
    case Some(b) => b
    case None => FallbackBalls(s)
  }

  /** On text already stripped and not blank, the result is computed from StrippedBalls. */
  lemma ParseTrimmed(s: string)
    requires s != [] && Trimmed(s)
    ensures ParseOvers(Some(s)).balls == StrippedBalls(s)
  {
    StripTrimmed(s, IsSpace);
  }

  /** `None`, the empty text and whitespace give `(0, 0.0)`. */
  lemma BlankGivesZero(value: Option<string>)
    requires value.None? || AllSpace(value.value)
    ensures ParseOvers(value) == Parsed(0, 0.0)
  {
    if value.Some? {
      StripEmptyIffBlank(value.value);
    }
  }

  /** Surrounding whitespace does not change the result. */
  lemma StripInvariant(t: string)
    ensures ParseOvers(Some(t)) == ParseOvers(Some(Strip(t)))
  {
    StripIdempotent(t);
  }

  /** A digit string denoting n is n whole overs: `(6n, n)`. */
  lemma WholeOvers(ds: string)
    requires |ds| > 0 && AllDigits(ds)
    ensures ParseOvers(Some(ds)).balls == 6 * DecValue(ds)
    ensures ParseOvers(Some(ds)).oversForRate == DecValue(ds) as real
  {
    DigitsTrimmed(ds);
    DigitsHaveNoPoint(ds);
    ParseIntOfDigits(ds);
    PrimaryWhole(ds, DecValue(ds));
    ParseTrimmed(ds);
  }

  /** A minus sign is accepted and gives a negative ball count, e.g. "-3" is -18 balls. */
  lemma NegatedWholeOvers(s: string, ds: string)
    requires |ds| > 0 && AllDigits(ds) && s == "-" + ds
    ensures ParseOvers(Some(s)).balls == -6 * DecValue(ds)
    ensures ParseOvers(Some(s)).oversForRate == 0.0
  {
    NegatedText(s, ds);
    ParseIntOfNegatedDigits(ds);
    PrimaryWhole(s, -(DecValue(ds) as int));
    ParseTrimmed(s);
  }

  /** "-" followed by digits has no point and no surrounding whitespace. */
  lemma NegatedText(s: string, ds: string)
    requires |ds| > 0 && AllDigits(ds) && s == "-" + ds
    ensures s != [] && '.' !in s && Trimmed(s)
  {
    DigitIsPlain(s[|s| - 1]);
    DigitsHaveNoPoint(ds);
    assert forall c :: c in s ==> c == '-' || c in ds;
  }

  /** Text without a point that `int` reads as n is n whole overs in the `try` block. */
  lemma PrimaryWhole(s: string, n: int)
    requires '.' !in s && ParseInt(s).Some? && ParseInt(s).value == n
    ensures StrippedBalls(s) == 6 * n
  {
  }

  /** Splitting `ns + "." + bs` at its one point gives back `ns` and `bs`. */
  lemma SplitDigitsAtPoint(s: string, ns: string, bs: string)
    requires AllDigits(ns) && AllDigits(bs) && s == ns + "." + bs
    ensures '.' in s
    ensures SplitAtPoint(s).Some? && SplitAtPoint(s).value.0 == ns && SplitAtPoint(s).value.1 == bs
  {
    DigitsHaveNoPoint(ns);
    DigitsHaveNoPoint(bs);
    SplitOnePoint(s, ns, bs);
  }

  /** Text with exactly one point splits into the text before it and the text after it. */
  lemma SplitOnePoint(s: string, left: string, right: string)
    requires '.' !in left && '.' !in right && s == left + "." + right
    ensures '.' in s
    ensures SplitAtPoint(s).Some? && SplitAtPoint(s).value.0 == left && SplitAtPoint(s).value.1 == right
  {
    assert s[|left|] == '.';
    IndexOfAfter(left, '.', right);
    assert s[..|left|] == left && s[|left| + 1..] == right;
  }

  /** The text "n.b", with a digit on at least one side of the point, has no surrounding whitespace. */
  lemma OversTextTrimmed(s: string, ns: string, bs: string)
    requires AllDigits(ns) && AllDigits(bs) && (|ns| > 0 || |bs| > 0) && s == ns + "." + bs
    ensures s != [] && Trimmed(s)
  {
    if |ns| > 0 { DigitIsPlain(ns[0]); assert s[0] == ns[0]; } else { assert s[0] == '.'; }
    if |bs| > 0 { DigitIsPlain(bs[|bs| - 1]); assert s[|s| - 1] == bs[|bs| - 1]; } else { assert s[|s| - 1] == '.'; }
  }

  /** The `try` block on "n.b": its value is that of PointBalls on the two sides. */
  lemma PrimaryAtPoint(s: string, ns: string, bs: string)
    requires AllDigits(ns) && AllDigits(bs) && s == ns + "." + bs
    ensures PrimaryBalls(s) == PointBalls(ns, bs)
  {
    SplitDigitsAtPoint(s, ns, bs);
  }

  /** "n.b" with b reading as 0 to 5 (leading zeros allowed) is n overs and b balls. */
  lemma LiteralBalls(s: string, ns: string, bs: string)
    requires |ns| > 0 && AllDigits(ns) && |bs| > 0 && AllDigits(bs) && s == ns + "." + bs
    requires DecValue(bs) <= 5
    ensures ParseOvers(Some(s)).balls == 6 * DecValue(ns) + DecValue(bs)
  {
    ParseIntOfDigits(ns);
    ParseIntOfDigits(bs);
    assert PointBalls(ns, bs).Some? && PointBalls(ns, bs).value == DecValue(ns) * 6 + DecValue(bs);
    PrimaryAtPoint(s, ns, bs);
    assert StrippedBalls(s) == DecValue(ns) * 6 + DecValue(bs);
    OversTextTrimmed(s, ns, bs);
    ParseTrimmed(s);
  }

  /** The digits r read as the fraction 0.r of an over. */
  lemma FractionBallsOf(overPart: int, t: string, bs: string)
    requires |bs| > 0 && AllDigits(bs) && t == "0." + bs
    ensures FractionBalls(overPart, t).Some?
    ensures FractionBalls(overPart, t).value == overPart * 6 + RoundHalfEven(Fraction(bs) * 6.0)
  {
    ParseFloatOfFraction(bs);
    assert ParseFloat(t).Some? && ParseFloat(t).value == Fraction(bs);
  }

  /** The `try` block once the two sides are known: the fraction case. */
  lemma PointBallsFraction(ns: string, bs: string)
    requires |ns| > 0 && AllDigits(ns) && |bs| > 0 && AllDigits(bs)
    requires DecValue(bs) > 5
    ensures PointBalls(ns, bs).Some?
    ensures PointBalls(ns, bs).value == DecValue(ns) * 6 + RoundHalfEven(Fraction(bs) * 6.0)
  {
    ParseIntOfDigits(ns);
    ParseIntOfDigits(bs);
    assert PointBalls(ns, bs) == FractionBalls(DecValue(ns), "0." + bs);
    FractionBallsOf(DecValue(ns), "0." + bs, bs);
  }

  /**
   * "n.r" with r reading above 5 is n overs plus the fraction 0.r of an
   * over, rounded to a whole ball (ties to even), which stays within the over.
   */
  lemma FractionalBalls(s: string, ns: string, bs: string)
    requires |ns| > 0 && AllDigits(ns) && |bs| > 0 && AllDigits(bs) && s == ns + "." + bs
    requires DecValue(bs) > 5
    ensures ParseOvers(Some(s)).balls == 6 * DecValue(ns) + RoundHalfEven(Fraction(bs) * 6.0)
    ensures 6 * DecValue(ns) <= ParseOvers(Some(s)).balls <= 6 * DecValue(ns) + 6
  {
    PointBallsFraction(ns, bs);
    PrimaryAtPoint(s, ns, bs);
    assert StrippedBalls(s) == DecValue(ns) * 6 + RoundHalfEven(Fraction(bs) * 6.0);
    OversTextTrimmed(s, ns, bs);
    ParseTrimmed(s);
    RoundSixthsOfFraction(Fraction(bs));
  }

  /** Six times a fraction of an over rounds to between 0 and 6 balls. */
  lemma RoundSixthsOfFraction(f: real)
    requires 0.0 <= f < 1.0
    ensures 0 <= RoundHalfEven(f * 6.0) <= 6
  {
  }

  /** The fallback on a float that is a whole number n of overs. */
  lemma FallbackOfWhole(s: string, n: nat)
    requires PrimaryBalls(s).None?
    requires ParseFloat(s).Some? && ParseFloat(s).value == n as real
    ensures StrippedBalls(s) == 6 * n
  {
    assert 6.0 * n as real == (6 * n) as real;
    RoundHalfEvenOfInt(6 * n);
  }

  /** An empty side of the point makes `int` raise, so the `try` block raises. */
  lemma EmptySideRaises(s: string, ns: string, bs: string)
    requires AllDigits(ns) && AllDigits(bs) && (ns == [] || bs == []) && s == ns + "." + bs
    ensures PrimaryBalls(s).None?
  {
    assert ParseInt("").None?;
    PrimaryAtPoint(s, ns, bs);
  }

  /** "n." fails `int` on the empty right side and falls back to `float`: n whole overs. */
  lemma TrailingPoint(s: string, ns: string)
    requires |ns| > 0 && AllDigits(ns) && s == ns + "."
    ensures ParseOvers(Some(s)).balls == 6 * DecValue(ns)
  {
    assert s == ns + "." + "";
    EmptySideRaises(s, ns, "");
    ParseFloatOfTrailingPoint(ns);
    FallbackOfWhole(s, DecValue(ns));
    OversTextTrimmed(s, ns, "");
    ParseTrimmed(s);
  }

  /** ".r" fails `int` on the empty left side and falls back to `float`: the fraction 0.r of an over. */
  lemma LeadingPoint(s: string, bs: string)
    requires |bs| > 0 && AllDigits(bs) && s == "." + bs
    ensures ParseOvers(Some(s)).balls == RoundHalfEven(Fraction(bs) * 6.0)
  {
    LeadingPointFallback(s, bs);
    assert 6.0 * Fraction(bs) == Fraction(bs) * 6.0;
    OversTextTrimmed(s, "", bs);
    ParseTrimmed(s);
  }

  /** The fallback half of LeadingPoint: `float(".r")` is 0.r, and the `except` block rounds its sixfold. */
  lemma LeadingPointFallback(s: string, bs: string)
    requires |bs| > 0 && AllDigits(bs) && s == "." + bs
    ensures StrippedBalls(s) == RoundHalfEven(6.0 * Fraction(bs))
  {
    LeadingEmptyRaises(s, bs);
    ParseFloatOfLeadingPoint(bs);
  }

  /** ".r" has an empty left side, so `int` raises in the `try` block. */
  lemma LeadingEmptyRaises(s: string, bs: string)
    requires |bs| > 0 && AllDigits(bs) && s == "." + bs
    ensures PrimaryBalls(s).None?
  {
    assert s == "" + "." + bs;
    EmptySideRaises(s, "", bs);
  }

  /** Text with no ASCII digit, such as "abc", gives `(0, 0.0)`. */
  lemma NoDigitsGivesZero(t: string)
    requires forall c :: c in t ==> !IsDigit(c)
    ensures ParseOvers(Some(t)) == Parsed(0, 0.0)
  {
    var s := Strip(t);
    if s != [] {
      NoDigitsRejected(s);
      if '.' in s {
        match SplitAtPoint(s)
        case None =>
        case Some((left, right)) =>
          assert forall c :: c in left ==> c in s;
          NoDigitsRejected(left);
      }
    }
  }

  /** Text with two points after stripping, such as "1.2.3", gives `(0, 0.0)`. */
  lemma TwoPointsGiveZero(t: string, i: nat, j: nat)
    requires i < j < |Strip(t)| && Strip(t)[i] == '.' && Strip(t)[j] == '.'
    ensures ParseOvers(Some(t)) == Parsed(0, 0.0)
  {
    var s := Strip(t);
    assert s[i] in s;
    NumStripTrimmed(s);
    TwoPointsRejected(s, i, j);
    StripIdempotent(t);
  }

  /** Without a minus sign the ball count is never negative. */
  lemma UnsignedNonNegative(t: string)
    ensures '-' !in t ==> ParseOvers(Some(t)).balls >= 0
  {
    var s := Strip(t);
    if '-' !in t && s != [] {
      assert '-' !in s;
      match PrimaryBalls(s)
      case Some(b) =>
        if '.' in s {
          var left := SplitAtPoint(s).value.0;
          assert '-' !in left by {
            assert forall c :: c in left ==> c in s;
          }
          ParseIntUnsigned(left);
        } else {
          ParseIntUnsigned(s);
        }
      case None =>
        if ParseFloat(s).Some? {
          ParseFloatUnsigned(s);
          RoundHalfEvenOfInt(0);
          RoundHalfEvenMonotone(0.0, 6.0 * ParseFloat(s).value);
        }
    }
  }

  // Worked cases: the docstring's three notations and the fallbacks.

  /** Reading "10" and "40" (the digit strings the cases below use). */
  lemma TenAndForty()
    ensures DecValue("10") == 10 && DecValue("40") == 40
  {
    assert "10"[..1] == "1" && "40"[..1] == "4";
    assert "1"[..0] == "" && "4"[..0] == "";
  }

  /** "10" is ten whole overs: 60 balls and 10.0 overs for the run rate. */
  lemma CaseWholeOvers()
    ensures ParseOvers(Some("10")).balls == 60 && ParseOvers(Some("10")).oversForRate == 10.0
  {
    TenAndForty();
    WholeOvers("10");
  }

  /** "10.4" is 10 overs and 4 balls: 64 balls. */
  lemma CaseOversAndBalls()
    ensures ParseOvers(Some("10.4")).balls == 64
  {
    TenAndForty();
    assert DecValue("4") == 4 by { assert "4"[..0] == ""; }
    LiteralBalls("10.4", "10", "4");
  }

  /**
   * `int` skips whitespace on either side of the point: "10 .4" and "10. 4"
   * both split into sides that read as 10 and 4, giving 64 balls.
   */
  lemma CaseSpaceAtPoint()
    ensures ParseOvers(Some("10 .4")).balls == 64
    ensures ParseOvers(Some("10. 4")).balls == 64
  {
    CaseSpaceBeforePoint();
    CaseSpaceAfterPoint();
  }

  lemma CaseSpaceBeforePoint()
    ensures ParseOvers(Some("10 .4")).balls == 64
  {
    TenAndForty();
    assert DecValue("4") == 4 by { assert "4"[..0] == ""; }
    PaddedLiteralBalls("10 .4", "10 ", "4", "", "10", " ", "", "4", "");
  }

  lemma CaseSpaceAfterPoint()
    ensures ParseOvers(Some("10. 4")).balls == 64
  {
    TenAndForty();
    assert DecValue("4") == 4 by { assert "4"[..0] == ""; }
    PaddedLiteralBalls("10. 4", "10", " 4", "", "10", "", " ", "4", "");
  }

  /**
   * "n.b" with whitespace `int` skips around either side, b reading as 0
   * to 5, and no whitespace at the ends of the whole text: n overs and b balls.
   */
  lemma PaddedLiteralBalls(s: string, left: string, right: string,
                           lp: string, ns: string, lq: string, rp: string, bs: string, rq: string)
    requires AllIn(lp, IsNumSpace) && AllIn(lq, IsNumSpace) && AllIn(rp, IsNumSpace) && AllIn(rq, IsNumSpace)
    requires |ns| > 0 && AllDigits(ns) && |bs| > 0 && AllDigits(bs) && DecValue(bs) <= 5
    requires left == lp + ns + lq && right == rp + bs + rq && s == left + "." + right
    requires s != [] && Trimmed(s)
    ensures ParseOvers(Some(s)).balls == 6 * DecValue(ns) + DecValue(bs)
  {
    PaddedHasNoPoint(lp, ns, lq);
    PaddedHasNoPoint(rp, bs, rq);
    ParseIntOfPaddedDigits(lp, ns, lq);
    ParseIntOfPaddedDigits(rp, bs, rq);
    LiteralSidesBalls(s, left, right, DecValue(ns), DecValue(bs));
    ParseTrimmed(s);
  }

  /** Digits padded with whitespace hold no point. */
  lemma PaddedHasNoPoint(pre: string, ds: string, post: string)
    requires AllIn(pre, IsNumSpace) && AllIn(post, IsNumSpace) && AllDigits(ds)
    ensures '.' !in pre + ds + post
  {
    DigitsHaveNoPoint(ds);
    var t := pre + ds + post;
    forall k | 0 <= k < |t| ensures t[k] != '.' {
      if k < |pre| { assert IsNumSpace(pre[k]); }
      else if k < |pre| + |ds| { assert t[k] == ds[k - |pre|] && ds[k - |pre|] in ds; }
      else { assert IsNumSpace(post[k - |pre| - |ds|]); }
    }
  }

  /**
   * Text with one point whose sides `int` reads as n and as b in 0 to 5,
   * whatever else they hold: the `try` block gives n overs and b balls.
   */
  lemma LiteralSidesBalls(s: string, left: string, right: string, n: int, b: int)
    requires s == left + "." + right && '.' !in left && '.' !in right
    requires ParseInt(left) == Some(n) && ParseInt(right) == Some(b) && 0 <= b <= 5
    ensures StrippedBalls(s) == 6 * n + b
  {
    SplitOnePoint(s, left, right);
    assert PrimaryBalls(s) == PointBalls(left, right);
  }

  /** "10.05" still reads its right side as 5 balls: 65 balls. */
  lemma CaseLeadingZeroBalls()
    ensures ParseOvers(Some("10.05")).balls == 65
  {
    TenAndForty();
    assert DecValue("05") == 5 by { assert "05"[..1] == "0"; assert "0"[..0] == ""; }
    LiteralBalls("10.05", "10", "05");
  }

  /** 0.40 of an over is 2.4 balls, rounded to 2. */
  lemma FortyHundredths()
    ensures RoundHalfEven(Fraction("40") * 6.0) == 2
  {
    TenAndForty();
    assert Pow10(2) == 100;
    assert Fraction("40") == 0.4;
    RoundHalfEvenUnique(2.4, 2);
  }

  /** "10.40" is read as 10.40 overs, not 10 overs and 40 balls: 62 balls. */
  lemma CaseDecimalOvers()
    ensures ParseOvers(Some("10.40")).balls == 62
  {
    TenAndForty();
    FortyHundredths();
    FractionalBalls("10.40", "10", "40");
  }

  /** 0.75 of an over is 4.5 balls, a tie rounded to the even 4. */
  lemma ThreeQuarters()
    ensures RoundHalfEven(Fraction("75") * 6.0) == 4
  {
    assert DecValue("75") == 75 by { assert "75"[..1] == "7"; assert "7"[..0] == ""; }
    assert Pow10(2) == 100;
    assert Fraction("75") == 0.75;
    RoundHalfEvenUnique(4.5, 4);
  }

  /** "10.75" is 60 balls plus 4.5 rounded half to even: 64 balls. */
  lemma CaseTieToEven()
    ensures ParseOvers(Some("10.75")).balls == 64
  {
    TenAndForty();
    assert DecValue("75") == 75 by { assert "75"[..1] == "7"; assert "7"[..0] == ""; }
    ThreeQuarters();
    FractionalBalls("10.75", "10", "75");
  }

  /** "10." raises in `int("")` and falls back to `float`: 60 balls. */
  lemma CaseTrailingPoint()
    ensures ParseOvers(Some("10.")).balls == 60
  {
    TenAndForty();
    TrailingPoint("10.", "10");
  }

  /** ".5" raises in `int("")` and falls back to `float` 0.5: 3 balls. */
  lemma CaseLeadingPoint()
    ensures ParseOvers(Some(".5")).balls == 3
  {
    assert DecValue("5") == 5 by { assert "5"[..0] == ""; }
    assert Fraction("5") == 0.5;
    RoundHalfEvenOfInt(3);
    assert 0.5 * 6.0 == 3 as real;
    LeadingPoint(".5", "5");
  }

  /** "abc" has no digits: `(0, 0.0)`. */
  lemma CaseNoDigits()
    ensures ParseOvers(Some("abc")) == Parsed(0, 0.0)
  {
    NoDigitsGivesZero("abc");
  }

  /** "1.2.3" does not split in two and is no float: `(0, 0.0)`. */
  lemma CaseTwoPoints()
    ensures ParseOvers(Some("1.2.3")) == Parsed(0, 0.0)
  {
    var s := "1.2.3";
    DigitIsPlain('1');
    DigitIsPlain('3');
    StripTrimmed(s, IsSpace);
    TwoPointsGiveZero(s, 1, 3);
  }

  /** "-3" is accepted by `int` and gives -18 balls, with 0.0 overs for the run rate. */
  lemma CaseNegative()
    ensures ParseOvers(Some("-3")) == Parsed(-18, 0.0)
  {
    assert DecValue("3") == 3 by { assert "3"[..0] == ""; }
    NegatedWholeOvers("-3", "3");
  }

  /**
   * The separator U+001C that `str.strip()` treats as whitespace is not
   * skipped by `int` or `float`: "10\u001c.4" makes `int('10\u001c')` raise,
   * and `float` of the whole text raises too, so the result is `(0, 0.0)`.
   */
  lemma CaseSeparatorBeforePoint()
    ensures ParseOvers(Some("10\U{1C}.4")) == Parsed(0, 0.0)
  {
    var s := "10\U{1C}.4";
    var left := "10\U{1C}";
    assert s == left + "." + "4";
    DigitIsPlain('1');
    DigitIsPlain('4');
    StripTrimmed(s, IsSpace);
    StripTrimmed(s, IsNumSpace);
    StripTrimmed(left, IsNumSpace);
    assert !IsDigitPart(left) by {
      assert left[1..] == "0\U{1C}";
      assert "0\U{1C}"[1..] == "\U{1C}";
    }
    IndexOfAfter(left, '.', "4");
    assert s[..3] == left;
    assert SplitAtPoint(s).Some? && SplitAtPoint(s).value.0 == left;
    assert ParseInt(left).None?;
    assert ParseFloat(s).None?;
  }
}
