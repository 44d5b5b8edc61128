/**
 * Money as decimal strings, converted to whole minor units (cents, paise) and back through IEEE doubles.
 * A double operation is a real operation followed by a rounding `fl`, of which only the standard's error bound is used.
 */
module Money {
  import opened Schema

  // ---------------------------------------------------------------- doubles

  type Rounding = real -> real

  function Abs(x: real): real { if x < 0.0 then -x else x }

  /** Relative error at most 2^-53. */
  predicate Near(y: real, x: real) {
    Abs(y - x) * 9007199254740992.0 <= Abs(x)
  }

  /** Far from underflow and overflow: zero, or between 10^-28 and 10^30 in size. */
  predicate Normal(x: real) {
    x == 0.0 || 0.0000000000000000000000000001 <= Abs(x) <= 1000000000000000000000000000000.0
  }

  /**
   * Section 4.3.1 of IEEE 754-2019, round to nearest: a small relative error for numbers far from underflow and
   * overflow, and whole numbers up to 2^53 are exact. Nothing is said of other numbers.
   */
  ghost predicate Rounds(fl: Rounding) {
    && (forall x: real :: Normal(x) ==> Near(fl(x), x))
    && (forall n: int :: -9007199254740992 <= n <= 9007199254740992 ==> Exact(fl, n))
  }

  predicate Exact(fl: Rounding, n: int) {
    fl(n as real) == n as real
  }

  /** `Math.round`: the nearest whole number, halves upwards. */
  function Round(x: real): (n: int)
    ensures x >= 0.0 ==> n >= 0
  {
    (x + 0.5).Floor
  }

  /** Powers of ten up to this one are doubles. */
  const MAX_DIGITS: nat := 22

  /** 2^50. */
  const BOUND: int := 1125899906842624

  function Pow10(d: nat): (p: int)
    ensures p >= 1
  {
    if d == 0 then 1 else 10 * Pow10(d - 1)
  }

  /** From minor units to the main unit, and back, over the reals. */
  function Unscaled(m: real, d: nat): real { m / Pow10(d) as real }

  function Scaled(x: real, d: nat): (y: real)
    ensures x >= 0.0 ==> y >= 0.0
  {
    Times(x, Pow10(d) as real)
  }

  function Times(x: real, p: real): (y: real)
    ensures x >= 0.0 && p >= 0.0 ==> y >= 0.0
  {
    x * p
  }

  // ---------------------------------------------------------------- decimal numerals

  function DigitChar(k: nat): char
    requires k < 10
  {
    ('0' as int + k) as char
  }

  predicate IsDigit(c: char) { '0' <= c <= '9' }

  function DigitValue(c: char): nat
    requires IsDigit(c)
  {
    c as int - '0' as int
  }

  predicate AllDigits(s: string) { forall i :: 0 <= i < |s| ==> IsDigit(s[i]) }

  /** A natural number in decimal. */
  function Numeral(n: nat): (s: string)
    ensures |s| >= 1 && AllDigits(s)
  {
    if n < 10 then [DigitChar(n)] else Numeral(n / 10) + [DigitChar(n % 10)]
  }

  function NumeralValue(s: string): nat
    requires AllDigits(s)
  {
    if s == [] then 0 else 10 * NumeralValue(s[..|s| - 1]) + DigitValue(s[|s| - 1])
  }

  lemma {:induction false} NumeralReads(n: nat)
    ensures NumeralValue(Numeral(n)) == n
  {
    if n >= 10 {
      NumeralReads(n / 10);
      assert Numeral(n)[..|Numeral(n)| - 1] == Numeral(n / 10);
    }
  }

  function Zeros(k: nat): (s: string)
    ensures |s| == k && forall i :: 0 <= i < k ==> s[i] == '0'
  {
    if k == 0 then [] else Zeros(k - 1) + ['0']
  }

  /** Zeros in front up to the given length. */
  function Padded(s: string, length: nat): string {
    if |s| >= length then s else Zeros(length - |s|) + s
  }

  lemma {:induction false} ZerosAreWorthless(k: nat, s: string)
    requires AllDigits(s)
    ensures AllDigits(Zeros(k) + s) && NumeralValue(Zeros(k) + s) == NumeralValue(s)
    decreases k, |s|
  {
    if s != [] {
      ZerosAreWorthless(k, s[..|s| - 1]);
      assert (Zeros(k) + s)[..|Zeros(k) + s| - 1] == Zeros(k) + s[..|s| - 1];
    } else if k > 0 {
      ZerosAreWorthless(k - 1, []);
      assert Zeros(k) + [] == Zeros(k) && Zeros(k - 1) + [] == Zeros(k - 1);
      assert Zeros(k)[..k - 1] == Zeros(k - 1);
    }
  }

  /** Writing the value of some digits to their own length gives them back. */
  lemma {:induction false} PaddingGivesBack(c: string)
    requires c != [] && AllDigits(c)
    ensures Padded(Numeral(NumeralValue(c)), |c|) == c
    ensures |Numeral(NumeralValue(c))| <= |c|
    ensures c[0] != '0' ==> NumeralValue(c) > 0 && |Numeral(NumeralValue(c))| == |c|
  {
    var rest, last := c[..|c| - 1], c[|c| - 1];
    assert c == rest + [last];
    if rest == [] {
      assert NumeralValue(rest) == 0;
    } else {
      PaddingGivesBack(rest);
      var n := NumeralValue(rest);
      assert NumeralValue(c) == 10 * n + DigitValue(last);
      assert NumeralValue(c) / 10 == n && NumeralValue(c) % 10 == DigitValue(last);
      if n == 0 {
        assert Numeral(0) == ['0'];
        assert Zeros(|rest| - 1) + ['0'] == Zeros(|rest|);
        if |rest| == 1 { assert Zeros(1) == ['0']; }
        assert rest == Zeros(|rest|);
      }
    }
  }

  // ---------------------------------------------------------------- amounts

  function PointAt(s: string): (k: nat)
    ensures k <= |s| && (k < |s| ==> s[k] == '.') && '.' !in s[..k]
  {
    if s == [] || s[0] == '.' then 0
    else
      var k := PointAt(s[1..]);
      assert s[..k + 1] == [s[0]] + s[1..][..k];
      k + 1
  }

  /** A decimal numeral without its sign: digits, of which some may follow a point. */
  predicate Plain(s: string) {
    var k := PointAt(s);
    && AllDigits(s[..k]) && (k < |s| ==> AllDigits(s[k + 1..]))
    && (s[..k] != [] || (k < |s| && s[k + 1..] != []))
  }

  function Decimals(s: string): string {
    var k := PointAt(s);
    if k < |s| then s[k + 1..] else []
  }

  function PlainValue(s: string): real
    requires Plain(s)
  {
    Unscaled(NumeralValue(s[..PointAt(s)] + Decimals(s)) as real, |Decimals(s)|)
  }

  /**
   * The number a string denotes exactly; other spellings than an
   * optional sign and a plain numeral are not modelled.
   */
  function Value(s: string): Option<real> {
    if Plain(s) then Some(PlainValue(s))
    else if s != [] && s[0] == '-' && Plain(s[1..]) then Some(-PlainValue(s[1..]))
    else None
  }

  /** `n` hundredths, thousandths, ... written with `d` digits after the point, as `toFixed` assembles them. */
  function Fixed(n: nat, d: nat): string {
    if d == 0 then Numeral(n)
    else
      var m := Padded(Numeral(n), d + 1);
      m[..|m| - d] + "." + m[|m| - d..]
  }

  /** Section 21.1.3.3 of ECMA-262, for numbers below 10^21. */
  function ToFixed(x: real, d: nat): string {
    if x < 0.0 then "-" + Fixed(Round(Scaled(-x, d)), d) else Fixed(Round(Scaled(x, d)), d)
  }

  function MinorUnits(fl: Rounding, x: real, d: nat): int {
    Round(fl(Scaled(fl(x), d)))
  }

  /** Nothing for what does not read as a number, where the original computes with NaN. */
  function ToMinor(fl: Rounding, amount: string, d: nat): Option<int> {
    match Value(amount)
    case None => None
    case Some(x) => Some(MinorUnits(fl, x, d))
  }

  function FromMinor(fl: Rounding, minor: real, d: nat): string {
    ToFixed(fl(Unscaled(minor, d)), d)
  }

  /** What does not read as a number is passed through. */
  function NormalizeAmount(fl: Rounding, amount: string, d: nat): string {
    var v := Value(amount);
    if v.None? then amount else ToFixed(fl(v.value), d)
  }

  // ---------------------------------------------------------------- what reads as a number

  /** Digits, or digits around a point, with at least one digit in all. */
  ghost predicate Spelled(s: string) {
    exists a, b :: AllDigits(a) && AllDigits(b) && a + b != "" && (s == a + "." + b || (s == a && b == ""))
  }

  lemma PlainIff(s: string)
    ensures Plain(s) <==> Spelled(s)
  {
    if Plain(s) {
      var k := PointAt(s);
      if k < |s| {
        var a, b := s[..k], s[k + 1..];
        assert s == a + "." + b && a + b != "";
      } else {
        assert s == s[..k] && s + "" == s;
        assert AllDigits(s) && AllDigits("");
      }
    }
    if a, b :| AllDigits(a) && AllDigits(b) && a + b != "" && (s == a + "." + b || (s == a && b == "")) {
      PointFound(a, b);
      if s == a + "." + b {
        assert s[..|a|] == a && s[|a| + 1..] == b;
      } else {
        assert s[..|a|] == a && a + b == a;
      }
    }
  }

  /** A string reads as a number if and only if it is spelled as one, possibly behind a minus sign. */
  lemma NumberIff(s: string)
    ensures Value(s).Some? <==> Spelled(s) || (s != "" && s[0] == '-' && Spelled(s[1..]))
  {
    PlainIff(s);
    if s != "" { PlainIff(s[1..]); }
  }

  // ---------------------------------------------------------------- the canonical form

  /** Exactly `d` digits after the point and no needless zero in front. */
  predicate Canonical(s: string, d: nat) {
    var k := PointAt(s);
    && AllDigits(s[..k]) && k >= 1 && (k > 1 ==> s[0] != '0')
    && (if d == 0 then k == |s| else k < |s| && AllDigits(s[k + 1..]) && |s[k + 1..]| == d)
  }

  lemma {:induction false} PointFound(a: string, b: string)
    requires AllDigits(a)
    ensures PointAt(a) == |a| && PointAt(a + "." + b) == |a|
  {
    if a != [] {
      PointFound(a[1..], b);
      assert (a + "." + b)[1..] == a[1..] + "." + b;
      assert IsDigit(a[0]);
    }
  }

  /** The string is the canonical form of `n` minor units. */
  predicate Denotes(s: string, n: nat, d: nat) {
    Canonical(s, d) && Plain(s) && PlainValue(s) == Unscaled(n as real, d)
  }

  lemma AssembledDenotes(a: string, b: string)
    requires AllDigits(a) && AllDigits(b) && a != [] && b != [] && (|a| > 1 ==> a[0] != '0')
    ensures AllDigits(a + b) && Denotes(a + "." + b, NumeralValue(a + b), |b|)
  {
    PointFound(a, b);
    var s := a + "." + b;
    assert s[..|a|] == a && s[|a| + 1..] == b;
  }

  lemma WholeDenotes(a: string)
    requires AllDigits(a) && a != [] && (|a| > 1 ==> a[0] != '0')
    ensures Denotes(a, NumeralValue(a), 0)
  {
    PointFound(a, "");
    assert a[..|a|] == a && a + [] == a;
  }

  /** The digits `toFixed` splits at the point. */
  lemma PaddedParts(n: nat, d: nat)
    ensures var m := Padded(Numeral(n), d + 1);
      && |m| >= d + 1 && AllDigits(m) && NumeralValue(m) == n && (|m| > d + 1 ==> m[0] != '0')
  {
    NumeralReads(n);
    NoLeadingZero(n);
    if |Numeral(n)| < d + 1 { ZerosAreWorthless(d + 1 - |Numeral(n)|, Numeral(n)); }
  }

  lemma FixedIsSplit(n: nat, d: nat) returns (a: string, b: string)
    requires d > 0
    ensures Fixed(n, d) == a + "." + b && |b| == d && a != [] && (|a| > 1 ==> a[0] != '0')
    ensures AllDigits(a) && AllDigits(b) && AllDigits(a + b) && NumeralValue(a + b) == n
  {
    PaddedParts(n, d);
    var m := Padded(Numeral(n), d + 1);
    a, b := m[..|m| - d], m[|m| - d..];
    assert a + b == m;
  }

  /** The printed form is canonical and denotes its minor units exactly. */
  lemma FixedDenotes(n: nat, d: nat)
    ensures Denotes(Fixed(n, d), n, d)
  {
    if d == 0 {
      NumeralReads(n);
      NoLeadingZero(n);
      WholeDenotes(Numeral(n));
    } else {
      var a, b := FixedIsSplit(n, d);
      AssembledDenotes(a, b);
    }
  }

  lemma {:induction false} NoLeadingZero(n: nat)
    ensures |Numeral(n)| > 1 ==> Numeral(n)[0] != '0'
    ensures n > 0 ==> Numeral(n)[0] != '0'
  {
    if n >= 10 { NoLeadingZero(n / 10); }
  }

  /** A canonical form is the printed form of its value, hence the only one. */
  lemma CanonicalIsFixed(s: string, d: nat)
    requires Canonical(s, d)
    ensures Plain(s) && s == Fixed(NumeralValue(s[..PointAt(s)] + Decimals(s)), d)
  {
    var k := PointAt(s);
    var a, b := s[..k], Decimals(s);
    PaddingGivesBack(a + b);
    if d == 0 { assert a + b == s; }
    else {
      assert s == a + "." + b;
      if k == 1 && a[0] == '0' {
        assert |a + b| == d + 1;
      }
      assert Padded(Numeral(NumeralValue(a + b)), d + 1) == a + b;
    }
  }

  lemma CanonicalIsUnique(s: string, t: string, d: nat)
    requires Canonical(s, d) && Canonical(t, d) && Value(s) == Value(t)
    ensures s == t
  {
    CanonicalIsFixed(s, d);
    CanonicalIsFixed(t, d);
    SameUnscaled(NumeralValue(s[..PointAt(s)] + Decimals(s)), NumeralValue(t[..PointAt(t)] + Decimals(t)), d);
  }

  lemma SameUnscaled(a: nat, b: nat, d: nat)
    ensures Unscaled(a as real, d) == Unscaled(b as real, d) ==> a == b
  {
    Rescaled(a as real, d);
    Rescaled(b as real, d);
  }

  // ---------------------------------------------------------------- the round trips

  lemma RoundsTo(x: real, n: int)
    requires Abs(x - n as real) < 0.5
    ensures Round(x) == n
  {}

  lemma SignOfProduct(a: real, b: real)
    requires a >= 0.0 && b >= 0.0
    ensures a * b >= 0.0
  {}

  /** Scaling a number and its neighbour scales their distance. */
  lemma ErrorScales(q: real, x: real, p: real)
    requires Near(q, x) && x >= 0.0 && p >= 0.0
    ensures Abs(Times(q, p) - Times(x, p)) * 9007199254740992.0 <= Times(x, p)
  {
    if q >= x {
      SignOfProduct(q - x, p);
      SignOfProduct(x - (q - x) * 9007199254740992.0, p);
      assert (q - x) * p == q * p - x * p;
      assert (x - (q - x) * 9007199254740992.0) * p == x * p - (q * p - x * p) * 9007199254740992.0;
    } else {
      SignOfProduct(x - q, p);
      SignOfProduct(x - (x - q) * 9007199254740992.0, p);
      assert (x - q) * p == x * p - q * p;
      assert (x - (x - q) * 9007199254740992.0) * p == x * p - (x * p - q * p) * 9007199254740992.0;
    }
  }

  lemma ScaledError(q: real, x: real, d: nat)
    requires Near(q, x) && x >= 0.0
    ensures Abs(Scaled(q, d) - Scaled(x, d)) * 9007199254740992.0 <= Scaled(x, d)
    ensures q >= 0.0
  {
    ErrorScales(q, x, Pow10(d) as real);
  }

  lemma {:induction false} PowersWithin(d: nat)
    requires d <= MAX_DIGITS
    ensures Pow10(d) <= Pow10(MAX_DIGITS)
    decreases MAX_DIGITS - d
  {
    if d < MAX_DIGITS { PowersWithin(d + 1); }
  }

  lemma LargestPower()
    ensures Pow10(22) == 10000000000000000000000
  {
    assert Pow10(5) == 100000;
    assert Pow10(10) == 10000000000;
    assert Pow10(15) == 1000000000000000;
    assert Pow10(20) == 100000000000000000000;
  }

  lemma Divided(m: real, p: real)
    requires 1.0 <= m <= 1125899906842624.0 && 1.0 <= p <= 10000000000000000000000.0
    ensures 0.0000000000000000000000000001 <= m / p <= 1125899906842624.0
  {
    var q := m / p;
    assert q * p == m;
    ProductGrows(q, p);
    SmallProduct(q, p);
  }

  lemma ProductGrows(q: real, p: real)
    requires p >= 1.0 && q * p > 0.0
    ensures 0.0 < q <= q * p
  {}

  lemma SmallProduct(q: real, p: real)
    requires q >= 0.0 && 1.0 <= p <= 10000000000000000000000.0
    ensures q * p <= q * 10000000000000000000000.0
  {}

  /** Amounts stay in the normal range. */
  lemma QuotientIsNormal(m: int, d: nat)
    requires 0 <= m <= BOUND && d <= MAX_DIGITS
    ensures Normal(Unscaled(m as real, d))
  {
    PowersWithin(d);
    LargestPower();
    if m > 0 { Divided(m as real, Pow10(d) as real); }
  }

  lemma Rescaled(m: real, d: nat)
    requires m >= 0.0
    ensures Unscaled(m, d) >= 0.0 && Scaled(Unscaled(m, d), d) == m
  {
    assert Unscaled(m, d) * Pow10(d) as real == m;
  }

  /** Dividing minor units by the unit and rounding stays within an eighth of a minor unit. */
  lemma QuotientIsClose(fl: Rounding, m: int, d: nat)
    requires Rounds(fl) && 0 <= m <= BOUND && d <= MAX_DIGITS
    ensures var q := fl(Unscaled(m as real, d));
      q >= 0.0 && Abs(Scaled(q, d) - m as real) * 8.0 <= 1.0 && (m == 0 ==> Scaled(q, d) == 0.0)
  {
    var x := Unscaled(m as real, d);
    Rescaled(m as real, d);
    QuotientIsNormal(m, d);
    assert Near(fl(x), x);
    ScaledError(fl(x), x, d);
  }

  lemma ProductIsClose(fl: Rounding, y: real, m: int)
    requires Rounds(fl) && 0 <= m <= BOUND && Abs(y - m as real) * 8.0 <= 1.0 && (m == 0 ==> y == 0.0)
    ensures Abs(fl(y) - m as real) < 0.5
  {
    assert Normal(y) && Near(fl(y), y);
  }

  /** The whole trip of a value that is a whole number of minor units. */
  lemma MinorOfExact(fl: Rounding, s: string, m: int, d: nat)
    requires Rounds(fl) && 0 <= m <= BOUND && d <= MAX_DIGITS && Value(s) == Some(Unscaled(m as real, d))
    ensures ToMinor(fl, s, d) == Some(m)
  {
    MinorOf(fl, m, d);
  }

  lemma MinorOf(fl: Rounding, m: int, d: nat)
    requires Rounds(fl) && 0 <= m <= BOUND && d <= MAX_DIGITS
    ensures MinorUnits(fl, Unscaled(m as real, d), d) == m
  {
    QuotientIsClose(fl, m, d);
    var y := Scaled(fl(Unscaled(m as real, d)), d);
    ProductIsClose(fl, y, m);
    RoundsTo(fl(y), m);
  }

  lemma PrintsFixed(fl: Rounding, m: int, d: nat)
    requires Rounds(fl) && 0 <= m <= BOUND && d <= MAX_DIGITS
    ensures FromMinor(fl, m as real, d) == Fixed(m, d)
  {
    QuotientIsClose(fl, m, d);
    RoundsTo(Scaled(fl(Unscaled(m as real, d)), d), m);
  }

  /** A rounding seen from the other side of zero is a rounding. */
  function Mirrored(fl: Rounding): Rounding {
    x => -fl(-x)
  }

  lemma MirrorRounds(fl: Rounding)
    requires Rounds(fl)
    ensures Rounds(Mirrored(fl))
  {
    forall x: real | Normal(x) ensures Near(Mirrored(fl)(x), x) { assert Near(fl(-x), -x); }
    forall n: int | -9007199254740992 <= n <= 9007199254740992 ensures Exact(Mirrored(fl), n) { assert Exact(fl, -n); }
  }

  lemma NegativeScales(x: real, d: nat)
    ensures Scaled(-x, d) == -Scaled(x, d) && Scaled(0.0, d) == 0.0
  {}

  lemma NegativeUnscaled(m: int, d: nat)
    ensures Unscaled((-m) as real, d) == -Unscaled(m as real, d)
  {
    NegativeQuotient(m as real, Pow10(d) as real);
  }

  lemma NegativeQuotient(m: real, p: real)
    requires p >= 1.0
    ensures (-m) / p == -(m / p)
  {}

  /** What a negative amount rounds to, without its sign. */
  lemma MirrorIsClose(fl: Rounding, m: int, d: nat)
    requires Rounds(fl) && 0 <= m <= BOUND && d <= MAX_DIGITS
    ensures var q := -fl(-Unscaled(m as real, d));
      q >= 0.0 && Abs(Scaled(q, d) - m as real) * 8.0 <= 1.0 && (m == 0 ==> Scaled(q, d) == 0.0)
  {
    MirrorRounds(fl);
    QuotientIsClose(Mirrored(fl), m, d);
  }

  lemma FixedNegative(q: real, m: nat, d: nat)
    requires q >= 0.0 && m > 0 && Abs(Scaled(q, d) - m as real) * 8.0 <= 1.0
    ensures ToFixed(-q, d) == "-" + Fixed(m, d)
  {
    NegativeScales(q, d);
    RoundsTo(Scaled(q, d), m);
  }

  lemma PrintsNegative(fl: Rounding, m: int, d: nat)
    requires Rounds(fl) && 0 < m <= BOUND && d <= MAX_DIGITS
    ensures ToFixed(fl(-Unscaled(m as real, d)), d) == "-" + Fixed(m, d)
    ensures FromMinor(fl, (-m) as real, d) == "-" + Fixed(m, d)
  {
    MirrorIsClose(fl, m, d);
    FixedNegative(-fl(-Unscaled(m as real, d)), m, d);
    NegativeUnscaled(m, d);
  }

  lemma MinorOfClose(fl: Rounding, x: real, m: int, d: nat)
    requires Rounds(fl) && 0 <= m <= BOUND && Abs(Scaled(x, d) - m as real) * 8.0 <= 1.0
    requires m == 0 ==> Scaled(x, d) == 0.0
    ensures Round(fl(Scaled(-x, d))) == -m
  {
    MirrorRounds(fl);
    var y := Scaled(x, d);
    ProductIsClose(Mirrored(fl), y, m);
    NegativeScales(x, d);
    RoundsTo(fl(-y), -m);
  }

  lemma MinorOfNegative(fl: Rounding, m: int, d: nat)
    requires Rounds(fl) && 0 <= m <= BOUND && d <= MAX_DIGITS
    ensures MinorUnits(fl, -Unscaled(m as real, d), d) == -m
  {
    MirrorIsClose(fl, m, d);
    MinorOfClose(fl, -fl(-Unscaled(m as real, d)), m, d);
  }

  /** The trip of a negative number that is a whole number of minor units. */
  lemma MinorOfMinus(fl: Rounding, s: string, m: int, d: nat)
    requires Rounds(fl) && 0 <= m <= BOUND && d <= MAX_DIGITS && Value(s) == Some(-Unscaled(m as real, d))
    ensures ToMinor(fl, s, d) == Some(-m)
  {
    MinorOfNegative(fl, m, d);
  }

  lemma MinusReads(s: string, v: real)
    requires Plain(s) && PlainValue(s) == v
    ensures Value("-" + s) == Some(-v)
  {
    assert !Plain("-" + s) by {
      var k := PointAt("-" + s);
      assert k > 0 && ("-" + s)[..k][0] == '-';
    }
    assert ("-" + s)[1..] == s;
  }

  /** From minor units to a string and back, nothing is lost. */
  lemma MinorRoundTrip(fl: Rounding, m: int, d: nat)
    requires Rounds(fl) && 0 <= m <= BOUND && d <= MAX_DIGITS
    ensures ToMinor(fl, FromMinor(fl, m as real, d), d) == Some(m)
  {
    PrintsFixed(fl, m, d);
    FixedDenotes(m, d);
    MinorOfExact(fl, Fixed(m, d), m, d);
  }

  /** Nor for negative ones. */
  lemma MinusRoundTrip(fl: Rounding, n: int, d: nat)
    requires Rounds(fl) && 0 < n <= BOUND && d <= MAX_DIGITS
    ensures ToMinor(fl, FromMinor(fl, (-n) as real, d), d) == Some(-n)
  {
    PrintsNegative(fl, n, d);
    MinusDenotes(n, d);
    MinorOfMinus(fl, "-" + Fixed(n, d), n, d);
  }

  lemma MinusDenotes(n: nat, d: nat)
    ensures Value("-" + Fixed(n, d)) == Some(-Unscaled(n as real, d))
  {
    FixedDenotes(n, d);
    MinusReads(Fixed(n, d), Unscaled(n as real, d));
  }

  /** A negative amount is the positive one with a sign, both ways. */
  lemma NegativeRoundTrip(fl: Rounding, s: string, m: int, d: nat)
    requires Rounds(fl) && 0 < m <= BOUND && d <= MAX_DIGITS && Plain(s) && PlainValue(s) == Unscaled(m as real, d)
    ensures ToMinor(fl, "-" + s, d) == Some(-m)
    ensures FromMinor(fl, (-m) as real, d) == "-" + FromMinor(fl, m as real, d)
    ensures NormalizeAmount(fl, "-" + s, d) == "-" + NormalizeAmount(fl, s, d)
  {
    MinusReads(s, Unscaled(m as real, d));
    MinorOfMinus(fl, "-" + s, m, d);
    PrintsNegative(fl, m, d);
    PrintsFixed(fl, m, d);
  }

  /**
   * From a string to minor units and back comes its canonical form,
   * whatever zeros it was written with; so does normalizing it.
   */
  lemma StringRoundTrip(fl: Rounding, s: string, m: int, d: nat)
    requires Rounds(fl) && 0 <= m <= BOUND && d <= MAX_DIGITS && Value(s) == Some(Unscaled(m as real, d))
    ensures ToMinor(fl, s, d).Some?
    ensures var t := FromMinor(fl, ToMinor(fl, s, d).value as real, d);
      && Canonical(t, d) && Value(t) == Value(s)
      && (forall other :: Canonical(other, d) && Value(other) == Value(s) ==> other == t)
      && NormalizeAmount(fl, s, d) == t
  {
    MinorOfExact(fl, s, m, d);
    PrintsFixed(fl, m, d);
    FixedDenotes(m, d);
    forall other | Canonical(other, d) && Value(other) == Value(s)
      ensures other == Fixed(m, d)
    {
      CanonicalIsUnique(other, Fixed(m, d), d);
    }
  }

  // ---------------------------------------------------------------- how many digits a currency has

  /** `fractionDigits`: what the runtime knows of a currency, 2 for one it does not know, remembered once asked. */
  class FractionDigits {
    const known: string -> Option<nat>
    var cache: map<string, nat>

    function Digits(currency: string): nat {
      match known(currency) case Some(d) => d case None => 2
    }

    ghost predicate Valid()
      reads this
    {
      forall c :: c in cache ==> cache[c] == Digits(c)
    }

    constructor (known: string -> Option<nat>)
      ensures Valid() && this.known == known && cache == map[]
    {
      this.known, cache := known, map[];
    }

    /** The cache is invisible: every call answers as the first one would. */
    method Get(currency: string) returns (digits: nat)
      requires Valid()
      modifies this
      ensures Valid() && digits == Digits(currency)
      ensures known(currency) == Some(digits) || (known(currency).None? && digits == 2)
      ensures cache == old(cache)[currency := digits]
    {
      if currency in cache { return cache[currency]; }
      digits := 2;
      if known(currency).Some? { digits := known(currency).value; }
      cache := cache[currency := digits];
    }
  }
}
