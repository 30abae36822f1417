/**
 * The engine's amounts: java.math.BigDecimal restricted to what the engine does with it
 * (add, compareTo, equals, setScale(2, HALF_UP) and the String constructor), and the
 * engine's lenient cell parser `toDecimal`.
 */
module Decimals {
  import opened Wrappers
  import opened Numerals
  import opened Text

  /** The number `unscaled / 10^scale`; `equals` compares both fields, as BigDecimal's does. */
  datatype Decimal = Decimal(unscaled: int, scale: nat)

  /** `BigDecimal.ZERO`: zero at scale 0, which is not `equals` to 0.00. */
  const Zero := Decimal(0, 0)

  function Abs(x: int): nat {
    if x < 0 then -x else x
  }

  function Max(a: nat, b: nat): nat {
    if a < b then b else a
  }

  /** The unscaled value of `d` written at the finer scale `s`. */
  function Aligned(d: Decimal, s: nat): int
    requires d.scale <= s
  {
    d.unscaled * Pow10(s - d.scale)
  }

  /** `a.add(b)`: exact, at the larger of the two scales. */
  function Add(a: Decimal, b: Decimal): (r: Decimal)
    ensures r.scale == Max(a.scale, b.scale)
  {
    var s := Max(a.scale, b.scale);
    Decimal(Aligned(a, s) + Aligned(b, s), s)
  }

  /** `a.compareTo(b) == 0`: equal as numbers, whatever the scales. */
  predicate SameValue(a: Decimal, b: Decimal) {
    var s := Max(a.scale, b.scale);
    Aligned(a, s) == Aligned(b, s)
  }

  /** `d.compareTo(BigDecimal.ZERO) != 0`. */
  predicate NonZero(d: Decimal) {
    d.unscaled != 0
  }

  function Negate(d: Decimal): Decimal {
    Decimal(-d.unscaled, d.scale)
  }

  /** Writing at scale `m` and then widening to `s` is writing at `s` directly. */
  lemma AlignedTwice(d: Decimal, m: nat, s: nat)
    requires d.scale <= m <= s
    ensures Aligned(d, m) * Pow10(s - m) == Aligned(d, s)
  {
    Pow10Add(m - d.scale, s - m);
    MulAssoc(d.unscaled, Pow10(m - d.scale), Pow10(s - m));
    assert (m - d.scale) + (s - m) == s - d.scale;
  }

  lemma MulAssoc(a: int, b: int, c: int)
    ensures (a * b) * c == a * (b * c)
  {
  }

  lemma MulDistrib(a: int, b: int, c: int)
    ensures (a + b) * c == a * c + b * c
  {
  }

  /** A sum, written at a scale at least its own, is the sum of its parts written there. */
  lemma AlignedAdd(a: Decimal, b: Decimal, s: nat)
    requires Max(a.scale, b.scale) <= s
    ensures Aligned(Add(a, b), s) == Aligned(a, s) + Aligned(b, s)
  {
    var m := Max(a.scale, b.scale);
    MulDistrib(Aligned(a, m), Aligned(b, m), Pow10(s - m));
    AlignedTwice(a, m, s);
    AlignedTwice(b, m, s);
  }

  /** `add` is associative, exactly: value and scale. */
  lemma AddAssociative(a: Decimal, b: Decimal, c: Decimal)
    ensures Add(Add(a, b), c) == Add(a, Add(b, c))
  {
    var s := Max(Max(a.scale, b.scale), c.scale);
    assert s == Max(a.scale, Max(b.scale, c.scale));
    AlignedAdd(a, b, s);
    AlignedAdd(b, c, s);
  }

  lemma AddCommutative(a: Decimal, b: Decimal)
    ensures Add(a, b) == Add(b, a)
  {
  }

  /** `BigDecimal.ZERO` is a two-sided identity of `add`, scale included. */
  lemma AddZero(a: Decimal)
    ensures Add(Zero, a) == a && Add(a, Zero) == a
  {
    assert Pow10(0) == 1;
  }

  /** `compareTo` may compare at any common scale at least as fine as both operands'. */
  lemma SameValueAt(a: Decimal, b: Decimal, s: nat)
    requires Max(a.scale, b.scale) <= s
    ensures SameValue(a, b) <==> Aligned(a, s) == Aligned(b, s)
  {
    var m := Max(a.scale, b.scale);
    AlignedTwice(a, m, s);
    AlignedTwice(b, m, s);
    if Aligned(a, s) == Aligned(b, s) {
      MulCancel(Aligned(a, m), Aligned(b, m), Pow10(s - m));
    }
  }

  lemma MulCancel(x: int, y: int, p: int)
    requires p > 0 && x * p == y * p
    ensures x == y
  {
    MulDistrib(x, -y, p);
  }

  lemma SameValueTransitive(a: Decimal, b: Decimal, c: Decimal)
    requires SameValue(a, b) && SameValue(b, c)
    ensures SameValue(a, c)
  {
    var s := Max(Max(a.scale, b.scale), c.scale);
    SameValueAt(a, b, s);
    SameValueAt(b, c, s);
    SameValueAt(a, c, s);
  }

  lemma SameValueSymmetric(a: Decimal, b: Decimal)
    requires SameValue(a, b)
    ensures SameValue(b, a)
  {
  }

  /** Numerically equal operands give numerically equal sums, whatever their scales. */
  lemma AddRespectsValue(a: Decimal, a': Decimal, b: Decimal, b': Decimal)
    requires SameValue(a, a') && SameValue(b, b')
    ensures SameValue(Add(a, b), Add(a', b'))
  {
    var s := Max(Max(a.scale, a'.scale), Max(b.scale, b'.scale));
    SameValueAt(a, a', s);
    SameValueAt(b, b', s);
    AlignedAdd(a, b, s);
    AlignedAdd(a', b', s);
    SameValueAt(Add(a, b), Add(a', b'), s);
  }

  /** Adding any zero, 0.00 included, changes the number but not the value. */
  lemma AddZeroValue(a: Decimal, z: Decimal)
    requires !NonZero(z)
    ensures SameValue(Add(a, z), a)
  {
    var s := Max(a.scale, z.scale);
    AlignedAdd(a, z, s);
    SameValueAt(Add(a, z), a, s);
  }

  /** `setScale(2, RoundingMode.HALF_UP)`. */
  function Round2(d: Decimal): (r: Decimal)
    ensures r.scale == 2
  {
    if d.scale <= 2 then Decimal(d.unscaled * Pow10(2 - d.scale), 2)
    else
      var q := Pow10(d.scale - 2);
      var m := Abs(d.unscaled);
      var k := HalfUpQuotient(m, q);
      Decimal(if d.unscaled < 0 then -(k as int) else k, 2)
  }

  /** Rounding a value that already has at most two decimals does not change the number. */
  lemma Round2Exact(d: Decimal)
    requires d.scale <= 2
    ensures SameValue(Round2(d), d)
  {
    assert Pow10(0) == 1;
  }

  lemma Round2Idempotent(d: Decimal)
    ensures Round2(Round2(d)) == Round2(d)
  {
    assert Pow10(0) == 1;
  }

  /** The magnitude `setScale` keeps when it drops `scale - 2` decimals from `m`, rounding half up. */
  function HalfUpQuotient(m: nat, q: nat): nat
    requires q > 0
  {
    m / q + (if 2 * (m % q) >= q then 1 else 0)
  }

  lemma HalfUpQuotientNearest(m: nat, q: nat)
    requires q > 0
    ensures var k := HalfUpQuotient(m, q);
      && 2 * Abs(k * q - m) <= q
      && (2 * Abs(k * q - m) == q ==> k * q > m)
  {
    var k := HalfUpQuotient(m, q);
    var a, b := m / q, m % q;
    assert m == a * q + b && 0 <= b < q;
    if 2 * b >= q {
      assert k * q == a * q + q;
      assert k * q - m == q - b;
    } else {
      assert k * q == a * q;
      assert m - k * q == b;
    }
  }

  lemma DivModBounds(m: nat, q: nat)
    requires q > 0
    ensures m / q >= 0 && 0 <= m % q < q && m == (m / q) * q + m % q
  {
  }

  lemma HalfUpQuotientOfZero(q: nat)
    requires q > 0
    ensures HalfUpQuotient(0, q) == 0
  {
  }

  lemma AbsTimes(k: int, q: nat)
    ensures Abs(k * q) == Abs(k) * q
  {
    if k < 0 {
      assert k * q == -(Abs(k) * q);
    }
  }

  /**
   * HALF_UP: the result is within half a cent of the input, a tie goes away from zero,
   * and the sign is kept.
   */
  lemma Round2HalfUp(d: Decimal)
    requires d.scale > 2
    ensures var q, r := Pow10(d.scale - 2), Round2(d).unscaled;
      && 2 * Abs(r * q - d.unscaled) <= q
      && (2 * Abs(r * q - d.unscaled) == q ==> Abs(r * q) > Abs(d.unscaled))
      && (d.unscaled >= 0 ==> r >= 0) && (d.unscaled <= 0 ==> r <= 0)
  {
    var q := Pow10(d.scale - 2);
    var m := Abs(d.unscaled);
    var k := HalfUpQuotient(m, q);
    var r := Round2(d).unscaled;
    assert r == (if d.unscaled < 0 then -k else k);
    HalfUpQuotientNearest(m, q);
    if d.unscaled < 0 {
      assert r * q == -(k * q);
      assert r * q - d.unscaled == -(k * q - m);
    } else {
      assert r * q - d.unscaled == k * q - m;
    }
    AbsTimes(r, q);
  }

  /** HALF_UP is symmetric: rounding the negation is the negation of rounding. */
  lemma Round2Negate(d: Decimal)
    ensures Round2(Negate(d)) == Negate(Round2(d))
  {
    if d.scale > 2 {
      var q := Pow10(d.scale - 2);
      assert Abs(Negate(d).unscaled) == Abs(d.unscaled);
      if d.unscaled == 0 {
        HalfUpQuotientOfZero(q);
      }
    } else {
      assert -d.unscaled * Pow10(2 - d.scale) == -(d.unscaled * Pow10(2 - d.scale));
    }
  }

  /** Index of the first character of `s` that is one of `cs`, or |s|. */
  function IndexOfAny(s: string, cs: string): (i: nat)
    ensures i <= |s|
    ensures i < |s| ==> s[i] in cs
    ensures forall j :: 0 <= j < i ==> s[j] !in cs
  {
    if s == [] then 0 else if s[0] in cs then 0 else 1 + IndexOfAny(s[1..], cs)
  }

  /** The exponent after `e`/`E`: an optional sign and at least one digit. */
  function ParseExponent(t: string): (r: Option<int>)
  {
    var negative := |t| > 0 && t[0] == '-';
    var digits := if |t| > 0 && (t[0] == '-' || t[0] == '+') then t[1..] else t;
    if digits == [] || !AllDigits(digits) then None
    else Some(if negative then 0 - DigitsValue(digits) else DigitsValue(digits))
  }

  /**
   * `new BigDecimal(t)`: an optional sign, then digits with at most one `.` (at least one digit)
   * and an optional exponent.
   */
  function ParseBigDecimal(t: string): (r: Option<Decimal>)
  {
    if |t| > 0 && (t[0] == '-' || t[0] == '+') then
      match ParseUnsigned(t[1..])
      case Some(d) => Some(if t[0] == '-' then Negate(d) else d)
      case None => None
    else ParseUnsigned(t)
  }

  /**
   * The unsigned part of `new BigDecimal(t)`. A value whose BigDecimal scale would be negative
   * (`1.5e2`) is kept at scale 0 with the same number.
   */
  function ParseUnsigned(body: string): (r: Option<Decimal>)
  {
    var e := IndexOfAny(body, "eE");
    var mantissa := body[..e];
    var dot := IndexOfAny(mantissa, ".");
    var whole := mantissa[..dot];
    var fraction := if dot < |mantissa| then mantissa[dot + 1..] else "";
    var exponent := if e < |body| then ParseExponent(body[e + 1..]) else Some(0);
    if !AllDigits(whole) || !AllDigits(fraction) || |whole| + |fraction| == 0 || exponent.None? then None
    else
      DigitsValueAppend(whole, fraction);
      var magnitude := DigitsValue(whole + fraction);
      var scale := |fraction| - exponent.value;
      if scale >= 0 then Some(Decimal(magnitude, scale))
      else Some(Decimal(magnitude * Pow10(-scale), 0))
  }

  /**
   * The engine's `toDecimal`: trim, delete every comma, read "" and "nan" (any case) as zero,
   * otherwise parse; text that does not parse is zero.
   */
  function ToDecimal(s: string): Decimal {
    var t := Replace(Trim(s), ",", "");
    if t == "" || EqualsIgnoreCase(t, "nan") then Zero
    else match ParseBigDecimal(t)
      case Some(d) => d
      case None => Zero
  }

  /** `toPlainString` for a scale of zero or more: sign, whole digits, `.` and exactly `scale` decimals. */
  function PlainText(d: Decimal): string {
    (if d.unscaled < 0 then "-" else "") + PlainDigits(d)
  }

  /** The unsigned part of `PlainText`. */
  function PlainDigits(d: Decimal): string {
    var m, p := Abs(d.unscaled), Pow10(d.scale);
    DivModBounds(m, p);
    NatToString(m / p) + (if d.scale > 0 then "." + PadLeft(m % p, d.scale) else "")
  }

  lemma {:induction false} IndexOfAnyAbsent(s: string, cs: string)
    requires forall j :: 0 <= j < |s| ==> s[j] !in cs
    ensures IndexOfAny(s, cs) == |s|
  {
  }

  lemma IndexOfAnyAt(a: string, c: char, b: string, cs: string)
    requires forall j :: 0 <= j < |a| ==> a[j] !in cs
    requires c in cs
    ensures IndexOfAny(a + [c] + b, cs) == |a|
  {
    var s := a + [c] + b;
    var i := IndexOfAny(s, cs);
    assert s[|a|] == c;
    assert forall j :: 0 <= j < |a| ==> s[j] == a[j];
  }

  lemma DigitsHaveNoMarks(s: string)
    requires AllDigits(s)
    ensures forall j :: 0 <= j < |s| ==> s[j] !in "eE" && s[j] !in "." && s[j] != ','
  {
  }

  /** Digits with a fraction part parse to the digits' number, at the fraction's length as scale. */
  lemma ParsesWithFraction(w: string, f: string)
    requires AllDigits(w) && AllDigits(f) && |w| > 0 && |f| > 0
    ensures AllDigits(w + f)
    ensures ParseUnsigned(w + "." + f) == Some(Decimal(DigitsValue(w + f), |f|))
  {
    DigitsValueAppend(w, f);
    var body := w + "." + f;
    DigitsHaveNoMarks(w);
    DigitsHaveNoMarks(f);
    assert forall j :: 0 <= j < |body| ==> body[j] !in "eE";
    IndexOfAnyAbsent(body, "eE");
    assert body[..|body|] == body;
    IndexOfAnyAt(w, '.', f, ".");
    assert body[..|w|] == w;
    assert body[|w| + 1..] == f;
  }

  /** Digits alone parse to their number at scale 0. */
  lemma ParsesWhole(w: string)
    requires AllDigits(w) && |w| > 0
    ensures ParseUnsigned(w) == Some(Decimal(DigitsValue(w), 0))
  {
    DigitsHaveNoMarks(w);
    IndexOfAnyAbsent(w, "eE");
    IndexOfAnyAbsent(w, ".");
    assert w[..|w|] == w;
    assert w + "" == w;
  }

  /** A leading minus sign negates what the rest parses to. */
  lemma ParsesNegated(body: string)
    requires body != [] && IsDigit(body[0])
    ensures ParseBigDecimal("-" + body) == match ParseUnsigned(body) case Some(d) => Some(Negate(d)) case None => None
    ensures ParseBigDecimal(body) == ParseUnsigned(body)
  {
    assert ("-" + body)[1..] == body;
  }

  /** Text that is already trimmed, has no comma and is not "nan" goes straight to the parser. */
  lemma ToDecimalOfCleanText(t: string)
    requires t != [] && !IsTrimmable(t[0]) && !IsTrimmable(t[|t| - 1])
    requires ',' !in t && LowerChar(t[0]) != 'n'
    ensures ToDecimal(t) == ParseBigDecimal(t).GetOr(Zero)
  {
    TrimOfTrimmed(t);
    ReplaceAbsentChar(t, ',', "");
    assert ToLower(t)[0] != ToLower("nan")[0];
  }

  lemma Recombine(n: int, m: nat, p: nat, a: int, b: int)
    requires p > 0 && a == m / p && b == m % p && n == a * p + b
    ensures n == m
  {
  }

  /** The unsigned part of the plain text parses to the magnitude, and looks like a number. */
  lemma PlainDigitsParse(d: Decimal)
    ensures var body := PlainDigits(d);
      && ParseUnsigned(body) == Some(Decimal(Abs(d.unscaled), d.scale))
      && body != [] && IsDigit(body[0]) && IsDigit(body[|body| - 1])
      && forall j :: 0 <= j < |body| ==> IsDigit(body[j]) || body[j] == '.'
  {
    var m, p := Abs(d.unscaled), Pow10(d.scale);
    DivModBounds(m, p);
    var w := NatToString(m / p);
    NatToStringValue(m / p);
    if d.scale > 0 {
      var f := PadLeft(m % p, d.scale);
      PadLeftValue(m % p, d.scale);
      assert PlainDigits(d) == w + "." + f;
      DottedShape(w, f);
      ParsesWithFraction(w, f);
      DigitsValueAppend(w, f);
      Recombine(DigitsValue(w + f), m, p, DigitsValue(w), DigitsValue(f));
    } else {
      assert p == 1;
      assert PlainDigits(d) == w + "";
      assert w + "" == w;
      ParsesWhole(w);
    }
  }

  /** Plain decimal text reads back exactly: `toDecimal` inverts `toPlainString`, scale included. */
  lemma ToDecimalReadsPlainText(d: Decimal)
    ensures ToDecimal(PlainText(d)) == d
  {
    PlainTextParses(d);
    PlainTextIsClean(d);
  }

  lemma PlainTextParses(d: Decimal)
    ensures ParseBigDecimal(PlainText(d)) == Some(d)
  {
    var body := PlainDigits(d);
    PlainDigitsParse(d);
    ParsesNegated(body);
    if d.unscaled < 0 {
      assert Negate(Decimal(Abs(d.unscaled), d.scale)) == d;
    } else {
      assert PlainText(d) == body;
    }
  }

  lemma PlainTextIsClean(d: Decimal)
    ensures ToDecimal(PlainText(d)) == ParseBigDecimal(PlainText(d)).GetOr(Zero)
  {
    PlainDigitsParse(d);
    SignedNumberIsClean(if d.unscaled < 0 then "-" else "", PlainDigits(d));
    ToDecimalOfCleanText(PlainText(d));
  }

  lemma DottedShape(w: string, f: string)
    requires AllDigits(w) && AllDigits(f) && |w| > 0 && |f| > 0
    ensures var body := w + "." + f;
      && IsDigit(body[0]) && IsDigit(body[|body| - 1])
      && forall j :: 0 <= j < |body| ==> IsDigit(body[j]) || body[j] == '.'
  {
    var body := w + "." + f;
    forall j | 0 <= j < |body| ensures IsDigit(body[j]) || body[j] == '.' {
      if j < |w| {
        assert body[j] == w[j];
      } else if j > |w| {
        assert body[j] == f[j - |w| - 1];
      }
    }
  }

  lemma SignedNumberIsClean(sign: string, body: string)
    requires sign == "" || sign == "-"
    requires body != [] && IsDigit(body[0]) && IsDigit(body[|body| - 1])
    requires forall j :: 0 <= j < |body| ==> IsDigit(body[j]) || body[j] == '.'
    ensures var t := sign + body;
      t != [] && !IsTrimmable(t[0]) && !IsTrimmable(t[|t| - 1]) && ',' !in t && LowerChar(t[0]) != 'n'
  {
    var t := sign + body;
    assert forall j :: 0 <= j < |t| ==> t[j] != ',' by {
      forall j | 0 <= j < |t| ensures t[j] != ',' {
        if j >= |sign| {
          assert t[j] == body[j - |sign|];
        }
      }
    }
  }

  // ---------------- lenient reading ----------------

  /** A blank cell reads as `BigDecimal.ZERO`. */
  lemma ToDecimalOfBlank(s: string)
    requires forall i :: 0 <= i < |s| ==> IsTrimmable(s[i])
    ensures ToDecimal(s) == Zero
  {
    TrimEmptyIffAllTrimmable(s);
    assert Replace(Trim(s), ",", "") == "";
  }

  /** Text that starts with a letter once trimmed ("nan", "N/A", "total") reads as `BigDecimal.ZERO`. */
  lemma ToDecimalOfWord(s: string)
    requires Trim(s) != "" && 'a' <= LowerChar(Trim(s)[0]) <= 'z'
    ensures ToDecimal(s) == Zero
  {
    var u := Trim(s);
    var t := Replace(u, ",", "");
    assert u[..1] != ",";
    assert t == [u[0]] + Replace(u[1..], ",", "");
    assert t[0] == u[0] && t != [];
    if !EqualsIgnoreCase(t, "nan") {
      assert t[0] != '-' && t[0] != '+';
      UnsignedNeedsDigit(t);
    }
  }

  /** The parser rejects text whose first character is a letter. */
  lemma UnsignedNeedsDigit(t: string)
    requires t != [] && 'a' <= LowerChar(t[0]) <= 'z'
    ensures ParseUnsigned(t) == None
  {
    var e := IndexOfAny(t, "eE");
    if e > 0 {
      var mantissa := t[..e];
      assert mantissa[0] == t[0] && mantissa[0] != '.';
      var dot := IndexOfAny(mantissa, ".");
      assert dot > 0;
      assert !IsDigit(mantissa[..dot][0]);
    }
  }
}
