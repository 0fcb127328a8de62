/**
 * The Python `str` built-ins that `parse_overs` relies on: `str.strip()`,
 * `int(s)` and `float(s)` on text, and the `'.' in s` / `s.split('.')` pair.
 *
 * `int` and `float` follow Python's decimal grammar restricted to ASCII
 * digits: surrounding whitespace (a smaller set than `str.strip()` removes),
 * an optional sign, digit groups separated by single underscores and (for
 * `float`) one decimal point. Exponents, `inf`, `nan` and non-ASCII digits
 * are not accepted here.
 */
module PyText {
  import opened Wrappers

  /** Python's `str.isspace()`: the characters `str.strip()` removes. */
  predicate IsSpace(c: char)
  {
    var n := c as int;
    (9 <= n <= 13) || (28 <= n <= 32) || n == 0x85 || n == 0xA0 || n == 0x1680
    || (0x2000 <= n <= 0x200A) || n == 0x2028 || n == 0x2029 || n == 0x202F
    || n == 0x205F || n == 0x3000
  }

  /**
   * The whitespace `int()` and `float()` skip around a number. Characters
   * below U+007F count only when they are ASCII whitespace (tab to carriage
   * return, and space). Every other `isspace` character counts, because it
   * is first read as a space. So the separators U+001C to U+001F, which
   * `str.strip()` removes, stay part of the text.
   */
  predicate IsNumSpace(c: char)
  {
    IsSpace(c) && !(28 <= c as int <= 31)
  }

  /** Every character of `s` is one of `ws`. */
  predicate AllIn(s: string, ws: char -> bool)
  {
    forall i :: 0 <= i < |s| ==> ws(s[i])
  }

  predicate AllSpace(s: string)
  {
    AllIn(s, IsSpace)
  }

  /** The text has none of `ws` at either end. */
  predicate TrimmedBy(s: string, ws: char -> bool)
  {
    s == [] || (!ws(s[0]) && !ws(s[|s| - 1]))
  }

  /** The text has no whitespace at either end. */
  predicate Trimmed(s: string)
  {
    TrimmedBy(s, IsSpace)
  }

  function StripLeft(s: string, ws: char -> bool): (r: string)
    ensures |r| <= |s|
    ensures r == [] || !ws(r[0])
  {
    if s != [] && ws(s[0]) then StripLeft(s[1..], ws) else s
  }

  /** Stripping on the left drops a prefix made of `ws`. */
  lemma {:induction false} StripLeftSuffix(s: string, ws: char -> bool)
    ensures StripLeft(s, ws) == s[|s| - |StripLeft(s, ws)|..]
    ensures AllIn(s[..|s| - |StripLeft(s, ws)|], ws)
  {
    if s != [] && ws(s[0]) {
      StripLeftSuffix(s[1..], ws);
    }
  }

  function StripRight(s: string, ws: char -> bool): (r: string)
    ensures |r| <= |s|
    ensures r == [] || !ws(r[|r| - 1])
  {
    if s != [] && ws(s[|s| - 1]) then StripRight(s[..|s| - 1], ws) else s
  }

  /** Stripping on the right drops a suffix made of `ws`. */
  lemma {:induction false} StripRightPrefix(s: string, ws: char -> bool)
    ensures StripRight(s, ws) == s[..|StripRight(s, ws)|]
    ensures AllIn(s[|StripRight(s, ws)|..], ws)
  {
    if s != [] && ws(s[|s| - 1]) {
      StripRightPrefix(s[..|s| - 1], ws);
    }
  }

  /**
   * `s` with every character of `ws` removed from both ends: what is left
   * is the slice of `s` from position `a` on, where the prefix before `a`
   * and the suffix after the slice are made of `ws`, and that slice has
   * none of `ws` at its ends.
   */
  function StripBy(s: string, ws: char -> bool): (r: string)
    ensures TrimmedBy(r, ws)
    ensures var a := |s| - |StripLeft(s, ws)|;
      a + |r| <= |s| && r == s[a..a + |r|] && AllIn(s[..a], ws) && AllIn(s[a + |r|..], ws)
    ensures forall c :: c in r ==> c in s
  {
    var l := StripLeft(s, ws);
    var r := StripRight(l, ws);
    StripLeftSuffix(s, ws);
    StripRightPrefix(l, ws);
    var a := |s| - |l|;
    assert l == s[a..] && r == l[..|r|];
    forall k | 0 <= k < |r| ensures r[k] == s[a..a + |r|][k] {
      assert r[k] == l[k] == s[a + k];
    }
    assert r == s[a..a + |r|];
    assert s[a + |r|..] == l[|r|..];
    SliceChars(s, a, a + |r|);
    r
  }

  /** A slice holds only characters of the whole. */
  lemma SliceChars(s: string, a: int, b: int)
    requires 0 <= a <= b <= |s|
    ensures forall c :: c in s[a..b] ==> c in s
  {
    forall c | c in s[a..b] ensures c in s {
      var i :| 0 <= i < b - a && s[a..b][i] == c;
      assert s[a + i] == c;
    }
  }

  /** Python's `s.strip()`. */
  function Strip(s: string): string
  {
    StripBy(s, IsSpace)
  }

  /** The text `int()` and `float()` read once the whitespace around it is skipped. */
  function NumStrip(s: string): string
  {
    StripBy(s, IsNumSpace)
  }

  /** `s.strip() == ''` exactly when `s` is all whitespace. */
  lemma StripEmptyIffBlank(s: string)
    ensures Strip(s) == [] <==> AllSpace(s)
  {
    var l := StripLeft(s, IsSpace);
    StripLeftSuffix(s, IsSpace);
    StripRightPrefix(l, IsSpace);
    if Strip(s) == [] {
      assert l[0..] == l;
      assert s[..|s|] == s;
    }
  }

  /** Text with none of `ws` at its ends is left unchanged by stripping. */
  lemma StripTrimmed(s: string, ws: char -> bool)
    requires TrimmedBy(s, ws)
    ensures StripBy(s, ws) == s
  {
  }

  /** `strip()` is idempotent. */
  lemma StripIdempotent(s: string)
    ensures Strip(Strip(s)) == Strip(s)
  {
    StripTrimmed(Strip(s), IsSpace);
  }

  /** Text `str.strip()` leaves alone is left alone by `int()` and `float()` too. */
  lemma NumStripTrimmed(s: string)
    requires Trimmed(s)
    ensures NumStrip(s) == s
  {
    StripTrimmed(s, IsNumSpace);
  }

  predicate IsDigit(c: char)
  {
    '0' <= c <= '9'
  }

  predicate AllDigits(s: string)
  {
    forall i :: 0 <= i < |s| ==> IsDigit(s[i])
  }

  function DigitValue(c: char): (d: nat)
    requires IsDigit(c)
    ensures d <= 9
  {
    (c as int) - ('0' as int)
  }

  function Pow10(k: nat): (p: nat)
    ensures p >= 1
  {
    if k == 0 then 1 else 10 * Pow10(k - 1)
  }

  /** The number an ASCII digit string denotes in base 10 (leading zeros allowed). */
  function DecValue(ds: string): (n: nat)
    requires AllDigits(ds)
    ensures n < Pow10(|ds|)
  {
    if ds == [] then 0 else DecValue(ds[..|ds| - 1]) * 10 + DigitValue(ds[|ds| - 1])
  }

  /** The digits after a decimal point, as a fraction: `0.ds`. */
  function Fraction(ds: string): (f: real)
    requires AllDigits(ds)
    ensures 0.0 <= f < 1.0
  {
    var n, p := DecValue(ds) as real, Pow10(|ds|) as real;
    QuotientBelowOne(n, p);
    n / p
  }

  lemma QuotientBelowOne(n: real, p: real)
    requires 0.0 <= n < p
    ensures 0.0 <= n / p < 1.0
  {
  }

  /** A digit group as Python's numeric grammar has it: digit (['_'] digit)*. */
  predicate IsDigitPart(s: string)
    decreases |s|
  {
    |s| > 0 && IsDigit(s[0]) &&
    (|s| == 1 || IsDigitPart(s[1..]) || (s[1] == '_' && IsDigitPart(s[2..])))
  }

  /** The digits of a digit group, underscores dropped. */
  function Digits(s: string): (ds: string)
    ensures AllDigits(ds)
  {
    if s == [] then []
    else (if IsDigit(s[0]) then [s[0]] else []) + Digits(s[1..])
  }

  /** A digit group holds only digits and underscores. */
  lemma {:induction false} DigitPartChars(s: string)
    requires IsDigitPart(s)
    ensures forall c :: c in s ==> IsDigit(c) || c == '_'
  {
    if |s| > 1 {
      if IsDigitPart(s[1..]) {
        DigitPartChars(s[1..]);
        assert s == [s[0]] + s[1..];
      } else {
        DigitPartChars(s[2..]);
        assert s == [s[0], s[1]] + s[2..];
      }
    }
  }

  /** A non-empty ASCII digit string is a digit group and is its own digits. */
  lemma {:induction false} DigitStringIsDigitPart(ds: string)
    requires |ds| > 0 && AllDigits(ds)
    ensures IsDigitPart(ds) && Digits(ds) == ds
  {
    if |ds| > 1 {
      DigitStringIsDigitPart(ds[1..]);
    }
  }

  lemma DigitsHaveNoPoint(ds: string)
    requires AllDigits(ds)
    ensures '.' !in ds
  {
  }

  /**
   * Python's `int(t)` for a string. What it accepts is not empty once the
   * whitespace is skipped, and it is negative only when written with a
   * minus sign.
   */
  function ParseInt(t: string): (r: Option<int>)
    ensures r.Some? ==> NumStrip(t) != []
    ensures r.Some? && r.value < 0 ==> NumStrip(t)[0] == '-'
  {
    var u := NumStrip(t);
    if |u| > 0 && (u[0] == '+' || u[0] == '-') then
      if IsDigitPart(u[1..]) then
        var n: int := DecValue(Digits(u[1..]));
        Some(if u[0] == '-' then -n else n)
      else None
    else if IsDigitPart(u) then Some(DecValue(Digits(u)))
    else None
  }

  /** An unsigned decimal: digits, with at most one point and digits on at least one side of it. */
  function ParseUnsignedDecimal(b: string): (r: Option<real>)
    ensures r.Some? ==> r.value >= 0.0
  {
    if '.' in b then
      var i := IndexOf(b, '.');
      var ip, fp := b[..i], b[i + 1..];
      if (ip != [] || fp != []) && (ip == [] || IsDigitPart(ip)) && (fp == [] || IsDigitPart(fp)) then
        Some(DecValue(Digits(ip)) as real + Fraction(Digits(fp)))
      else None
    else if IsDigitPart(b) then Some(DecValue(Digits(b)) as real)
    else None
  }

  /**
   * Python's `float(t)` for a string, without exponents, `inf` or `nan`.
   * What it accepts is not empty once the whitespace is skipped, and it is
   * negative only when written with a minus sign.
   */
  function ParseFloat(t: string): (r: Option<real>)
    ensures r.Some? ==> NumStrip(t) != []
    ensures r.Some? && r.value < 0.0 ==> NumStrip(t)[0] == '-'
  {
    var u := NumStrip(t);
    if |u| > 0 && (u[0] == '+' || u[0] == '-') then
      match ParseUnsignedDecimal(u[1..])
      case None => None
      case Some(x) => Some(if u[0] == '-' then -x else x)
    else ParseUnsignedDecimal(u)
  }

  /** The first position of `c` in `s`. */
  function IndexOf(s: string, c: char): (i: nat)
    requires c in s
    ensures i < |s| && s[i] == c && c !in s[..i]
  {
    if s[0] == c then 0
    else
      var j := IndexOf(s[1..], c);
      assert s[..j + 1] == [s[0]] + s[1..][..j];
      j + 1
  }

  /**
   * `left, right = s.split('.')`: succeeds exactly when `s` holds one point,
   * and then gives the text on each side of it.
   */
  function SplitAtPoint(s: string): (r: Option<(string, string)>)
    ensures r.Some? ==> s == r.value.0 + "." + r.value.1 && '.' !in r.value.0 && '.' !in r.value.1
    ensures r.None? ==> '.' !in s || exists i, j :: 0 <= i < j < |s| && s[i] == '.' && s[j] == '.'
  {
    if '.' !in s then None
    else
      var i := IndexOf(s, '.');
      var right := s[i + 1..];
      if '.' in right then
        var j := IndexOf(right, '.');
        assert s[i + 1 + j] == '.';
        None
      else
        assert s == s[..i] + "." + right;
        Some((s[..i], right))
  }

  /** `int(ds)` of an ASCII digit string is its decimal value. */
  lemma ParseIntOfDigits(ds: string)
    requires |ds| > 0 && AllDigits(ds)
    ensures ParseInt(ds).Some? && ParseInt(ds).value == DecValue(ds)
  {
    DigitsTrimmed(ds);
    DigitStringIsDigitPart(ds);
  }

  lemma DigitsTrimmed(ds: string)
    requires |ds| > 0 && AllDigits(ds)
    ensures Trimmed(ds) && NumStrip(ds) == ds && ds[0] != '+' && ds[0] != '-'
  {
    DigitIsPlain(ds[0]);
    DigitIsPlain(ds[|ds| - 1]);
    NumStripTrimmed(ds);
  }

  /** An ASCII digit is neither whitespace nor a sign, point or underscore. */
  lemma DigitIsPlain(c: char)
    requires IsDigit(c)
    ensures !IsSpace(c) && c != '+' && c != '-' && c != '.' && c != '_'
  {
  }

  /** `int('-' + ds)` is the negated decimal value. */
  lemma ParseIntOfNegatedDigits(ds: string)
    requires |ds| > 0 && AllDigits(ds)
    ensures ParseInt("-" + ds).Some? && ParseInt("-" + ds).value == -(DecValue(ds) as int)
  {
    DigitIsPlain(ds[|ds| - 1]);
    StripTrimmed("-" + ds, IsNumSpace);
    DigitStringIsDigitPart(ds);
    assert ("-" + ds)[1..] == ds;
  }

  /** Without a minus sign, `int` never yields a negative number. */
  lemma ParseIntUnsigned(t: string)
    requires '-' !in t && ParseInt(t).Some?
    ensures ParseInt(t).value >= 0
  {
    var u := NumStrip(t);
    if |u| > 0 {
      assert u[0] in u;
    }
  }

  /** Stripping on the left drops a leading run of `ws` up to text that starts with none of `ws`. */
  lemma {:induction false} StripLeftPadded(pre: string, x: string, ws: char -> bool)
    requires AllIn(pre, ws) && (x == [] || !ws(x[0]))
    ensures StripLeft(pre + x, ws) == x
  {
    if pre != [] {
      assert (pre + x)[1..] == pre[1..] + x;
      StripLeftPadded(pre[1..], x, ws);
    }
  }

  /** Stripping on the right drops a trailing run of `ws` back to text that ends with none of `ws`. */
  lemma {:induction false} StripRightPadded(x: string, post: string, ws: char -> bool)
    requires AllIn(post, ws) && (x == [] || !ws(x[|x| - 1]))
    ensures StripRight(x + post, ws) == x
  {
    if post != [] {
      assert (x + post)[..|x + post| - 1] == x + post[..|post| - 1];
      StripRightPadded(x, post[..|post| - 1], ws);
    }
  }

  /** Text with none of `ws` at its ends comes back whole from any padding of `ws` around it. */
  lemma StripPadded(pre: string, x: string, post: string, ws: char -> bool)
    requires AllIn(pre, ws) && AllIn(post, ws) && x != [] && TrimmedBy(x, ws)
    ensures StripBy(pre + x + post, ws) == x
  {
    assert pre + x + post == pre + (x + post);
    StripLeftPadded(pre, x + post, ws);
    StripRightPadded(x, post, ws);
  }

  /** `int()` skips the whitespace around the number: it reads only what `NumStrip` leaves. */
  lemma ParseIntSkipsSpace(t: string)
    ensures ParseInt(t) == ParseInt(NumStrip(t))
  {
    StripTrimmed(NumStrip(t), IsNumSpace);
  }

  /** `float()` skips the whitespace around the number: it reads only what `NumStrip` leaves. */
  lemma ParseFloatSkipsSpace(t: string)
    ensures ParseFloat(t) == ParseFloat(NumStrip(t))
  {
    StripTrimmed(NumStrip(t), IsNumSpace);
  }

  /** `int()` of digits with whitespace around them is the digits' value. */
  lemma ParseIntOfPaddedDigits(pre: string, ds: string, post: string)
    requires AllIn(pre, IsNumSpace) && AllIn(post, IsNumSpace)
    requires |ds| > 0 && AllDigits(ds)
    ensures ParseInt(pre + ds + post) == Some(DecValue(ds))
  {
    DigitIsPlain(ds[0]);
    DigitIsPlain(ds[|ds| - 1]);
    StripPadded(pre, ds, post, IsNumSpace);
    ParseIntSkipsSpace(pre + ds + post);
    ParseIntOfDigits(ds);
  }

  /** `int('+' + ds)` is the decimal value: a plus sign changes nothing. */
  lemma ParseIntOfPlusDigits(ds: string)
    requires |ds| > 0 && AllDigits(ds)
    ensures ParseInt("+" + ds) == Some(DecValue(ds))
  {
    DigitIsPlain(ds[|ds| - 1]);
    StripTrimmed("+" + ds, IsNumSpace);
    DigitStringIsDigitPart(ds);
    assert ("+" + ds)[1..] == ds;
  }

  /** `int()` of digit groups joined by single underscores, such as "1_000", is the value of their digits. */
  lemma ParseIntOfDigitGroups(t: string)
    requires IsDigitPart(t)
    ensures ParseInt(t) == Some(DecValue(Digits(t)))
  {
    DigitPartChars(t);
    assert t[0] in t && t[|t| - 1] in t;
    StripTrimmed(t, IsNumSpace);
  }

  /** `float('+' + b)` reads `b` as an unsigned decimal. */
  lemma ParseFloatOfPlus(b: string)
    requires b != [] && !IsNumSpace(b[|b| - 1])
    ensures ParseFloat("+" + b) == ParseUnsignedDecimal(b)
  {
    var t := "+" + b;
    assert t[0] == '+' && t[|t| - 1] == b[|b| - 1];
    StripTrimmed(t, IsNumSpace);
    assert t[1..] == b;
  }

  /** `float('-' + b)` reads `b` as an unsigned decimal and negates it. */
  lemma ParseFloatOfMinus(b: string)
    requires b != [] && !IsNumSpace(b[|b| - 1])
    ensures ParseUnsignedDecimal(b).Some? ==> ParseFloat("-" + b) == Some(-ParseUnsignedDecimal(b).value)
    ensures ParseUnsignedDecimal(b).None? ==> ParseFloat("-" + b).None?
  {
    var t := "-" + b;
    assert t[0] == '-' && t[|t| - 1] == b[|b| - 1];
    StripTrimmed(t, IsNumSpace);
    assert t[1..] == b;
  }

  /** Without a minus sign, `float` never yields a negative number. */
  lemma ParseFloatUnsigned(t: string)
    requires '-' !in t && ParseFloat(t).Some?
    ensures ParseFloat(t).value >= 0.0
  {
    var u := NumStrip(t);
    if |u| > 0 {
      assert u[0] in u;
    }
  }

  /** Digits on either side of one point, at least one side non-empty: whole part plus fraction. */
  lemma UnsignedDecimalAt(ip: string, fp: string)
    requires AllDigits(ip) && AllDigits(fp) && (ip != [] || fp != [])
    ensures ParseUnsignedDecimal(ip + "." + fp).Some?
    ensures ParseUnsignedDecimal(ip + "." + fp).value == DecValue(ip) as real + Fraction(fp)
  {
    var b := ip + "." + fp;
    DigitsHaveNoPoint(ip);
    IndexOfAfter(ip, '.', fp);
    assert '.' in b by { assert b[|ip|] == '.'; }
    var i := IndexOf(b, '.');
    assert i == |ip|;
    assert b[..i] == ip;
    assert b[i + 1..] == fp;
    assert ip == [] || IsDigitPart(ip) by {
      if ip != [] { DigitStringIsDigitPart(ip); }
    }
    assert fp == [] || IsDigitPart(fp) by {
      if fp != [] { DigitStringIsDigitPart(fp); }
    }
    assert Digits(ip) == ip && Digits(fp) == fp by {
      if ip != [] { DigitStringIsDigitPart(ip); }
      if fp != [] { DigitStringIsDigitPart(fp); }
    }
  }

  /** On stripped text that starts with no sign, `float` is the unsigned decimal grammar. */
  lemma ParseFloatPlain(t: string)
    requires t != [] && Trimmed(t) && t[0] != '+' && t[0] != '-'
    ensures ParseFloat(t) == ParseUnsignedDecimal(t)
  {
    NumStripTrimmed(t);
  }

  /** `float('0.' + ds)` is the fraction the digits denote. */
  lemma ParseFloatOfFraction(ds: string)
    requires |ds| > 0 && AllDigits(ds)
    ensures ParseFloat("0." + ds).Some? && ParseFloat("0." + ds).value == Fraction(ds)
  {
    var t := "0." + ds;
    assert t == "0" + "." + ds;
    UnsignedDecimalAt("0", ds);
    DigitIsPlain(t[|t| - 1]);
    ParseFloatPlain(t);
    assert DecValue("0") == 0 by { assert "0"[..0] == ""; }
  }

  /** `float(ds + '.')` is the whole number the digits denote. */
  lemma ParseFloatOfTrailingPoint(ds: string)
    requires |ds| > 0 && AllDigits(ds)
    ensures ParseFloat(ds + ".").Some? && ParseFloat(ds + ".").value == DecValue(ds) as real
  {
    var t := ds + ".";
    assert t == ds + "." + "";
    UnsignedDecimalAt(ds, "");
    DigitIsPlain(t[0]);
    ParseFloatPlain(t);
    FractionOfNoDigits();
  }

  /** No digits after the point is the fraction 0. */
  lemma FractionOfNoDigits()
    ensures Fraction("") == 0.0
  {
    assert DecValue("") == 0 && Pow10(0) == 1;
  }

  /**
   * Whatever follows "0.", `float` of the text, when it succeeds, is a
   * fraction of one: the whole part is the 0 before the point.
   */
  lemma PointFractionBelowOne(t: string)
    requires |t| >= 2 && t[0] == '0' && t[1] == '.' && ParseFloat(t).Some?
    ensures 0.0 <= ParseFloat(t).value < 1.0
  {
    LeadingZeroPointKept(t);
    ZeroPointDecimal(NumStrip(t));
  }

  /** Skipping whitespace keeps a leading "0.". */
  lemma LeadingZeroPointKept(t: string)
    requires |t| >= 2 && t[0] == '0' && t[1] == '.'
    ensures |NumStrip(t)| >= 2 && NumStrip(t)[0] == '0' && NumStrip(t)[1] == '.'
  {
    var u := NumStrip(t);
    var a := |t| - |StripLeft(t, IsNumSpace)|;
    var b := a + |u|;
    assert forall i :: b <= i < |t| ==> IsNumSpace(t[i]) by {
      forall i | b <= i < |t| ensures IsNumSpace(t[i]) { assert t[b..][i - b] == t[i]; }
    }
    assert !IsNumSpace(t[0]) && !IsNumSpace(t[1]);
  }

  /** An unsigned decimal starting "0." is below one. */
  lemma ZeroPointDecimal(u: string)
    requires |u| >= 2 && u[0] == '0' && u[1] == '.'
    ensures ParseUnsignedDecimal(u).Some? ==> 0.0 <= ParseUnsignedDecimal(u).value < 1.0
  {
    IndexOfIs(u, '.', 1);
    assert u[..1] == "0";
    assert Digits("0") == "0";
    assert DecValue("0") == 0 by { assert "0"[..0] == ""; }
  }

  /** `float('.' + ds)` is the fraction the digits denote. */
  lemma ParseFloatOfLeadingPoint(ds: string)
    requires |ds| > 0 && AllDigits(ds)
    ensures ParseFloat("." + ds).Some? && ParseFloat("." + ds).value == Fraction(ds)
  {
    var t := "." + ds;
    assert t == "" + "." + ds;
    UnsignedDecimalAt("", ds);
    DigitIsPlain(t[|t| - 1]);
    ParseFloatPlain(t);
  }

  /** A position holding `c` with no `c` before it is the first position of `c`. */
  lemma {:induction false} IndexOfIs(s: string, c: char, k: nat)
    requires k < |s| && s[k] == c && c !in s[..k]
    ensures IndexOf(s, c) == k
  {
    if k > 0 {
      assert s[0] == s[..k][0];
      assert s[1..][..k - 1] == s[..k][1..];
      IndexOfIs(s[1..], c, k - 1);
    }
  }

  /** The first `c` of `a + [c] + b` is right after `a` when `a` has none. */
  lemma IndexOfAfter(a: string, c: char, b: string)
    requires c !in a
    ensures IndexOf(a + [c] + b, c) == |a|
  {
    var s := a + [c] + b;
    assert s[..|a|] == a;
    IndexOfIs(s, c, |a|);
  }

  /** Text in which no ASCII digit occurs is rejected by both `int` and `float`. */
  lemma NoDigitsRejected(t: string)
    requires forall c :: c in t ==> !IsDigit(c)
    ensures ParseInt(t).None? && ParseFloat(t).None?
  {
    var u := NumStrip(t);
    assert forall c :: c in u ==> !IsDigit(c);
    NoDigitsNoNumber(u);
    if |u| > 0 {
      assert forall c :: c in u[1..] ==> c in u;
      NoDigitsNoNumber(u[1..]);
    }
  }

  /** Text with no ASCII digit is neither a digit group nor an unsigned decimal. */
  lemma NoDigitsNoNumber(x: string)
    requires forall c :: c in x ==> !IsDigit(c)
    ensures !IsDigitPart(x) && ParseUnsignedDecimal(x).None?
  {
    if |x| > 0 {
      assert x[0] in x;
    }
    if '.' in x {
      var i := IndexOf(x, '.');
      var ip, fp := x[..i], x[i + 1..];
      if ip != [] { assert ip[0] in x; }
      if fp != [] { assert fp[0] == x[i + 1]; assert fp[0] in x; }
    }
  }

  /** Text holding two points is no unsigned decimal. */
  lemma TwoPointsNotDecimal(x: string, a: int, b: int)
    requires 0 <= a < b < |x| && x[a] == '.' && x[b] == '.'
    ensures ParseUnsignedDecimal(x).None?
  {
    assert x[a] in x;
    var k := IndexOf(x, '.');
    assert k <= a;
    var fp := x[k + 1..];
    assert fp[b - k - 1] == '.';
    assert '.' in fp;
    if IsDigitPart(fp) {
      DigitPartChars(fp);
    }
  }

  /** Text holding two points once the whitespace is skipped is rejected by `float`. */
  lemma TwoPointsRejected(t: string, i: int, j: int)
    requires 0 <= i < j < |NumStrip(t)| && NumStrip(t)[i] == '.' && NumStrip(t)[j] == '.'
    ensures ParseFloat(t).None?
  {
    var u := NumStrip(t);
    if |u| > 0 && (u[0] == '+' || u[0] == '-') {
      assert u[1..][i - 1] == '.' && u[1..][j - 1] == '.';
      TwoPointsNotDecimal(u[1..], i - 1, j - 1);
    } else {
      TwoPointsNotDecimal(u, i, j);
    }
  }
}
