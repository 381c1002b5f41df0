/** The integer logarithm of transmit power control (lin2dBd of chips/mt7601.c): 32 steps per decibel. */
module Lin2dB {
  import opened Octets

  const DEFAULT_BO: nat := 4
  const LIN2DB_ERROR_CODE: int := -10000
  const KNEE: nat := 47104

  // ---- The value ------------------------------------------------------------------------------------

  /** How often x must be doubled to reach 2^15. */
  function Shift(x: nat): (k: nat)
    requires 0 < x < 0x10000
    decreases 0x10000 - x
  {
    if x >= 0x8000 then 0 else 1 + Shift(2 * x)
  }

  function Mantissa(x: nat): (m: nat)
    requires 0 < x < 0x10000
    ensures 0x8000 <= m < 0x10000
    decreases 0x10000 - x
  {
    if x >= 0x8000 then x else Mantissa(2 * x)
  }

  /** The two straight lines that stand for the logarithm of the mantissa. */
  function App(m: nat): int {
    if m <= KNEE then m + m / 8 + m / 16 - 38400 else m - m / 8 - m / 64 - 23040
  }

  /** The logarithm to base 2 in units of 2^-15. */
  function Log2(x: nat): int
    requires 0 < x < 0x10000
  {
    (15 - Shift(x)) * 0x8000 + App(Mantissa(x))
  }

  function Scale(d: int): int {
    (4 * d + 2 * d + d / 64 + d / 128) / 1024
  }

  function Lin2dBd(x: nat): int
    requires x < 0x10000
  {
    if x == 0 then LIN2DB_ERROR_CODE else Scale(Log2(x))
  }

  // ---- The loops ----------------------------------------------------------------------------------------

  lemma {:induction false} Pow2Positive(k: nat)
    ensures Pow2(k) >= 1
  {
    if k > 0 {
      Pow2Positive(k - 1);
    }
  }

  lemma Pow2Fifteen()
    ensures Pow2(15) == 0x8000 && Pow2(4) == 16
  {
    assert Pow2(4) == 16;
    assert Pow2(8) == 256;
    assert Pow2(12) == 4096;
  }

  lemma Double(x: nat, k: nat)
    ensures x * Pow2(k + 1) == 2 * (x * Pow2(k)) == (2 * x) * Pow2(k)
  {
  }

  lemma Multiplied(x: nat, p: nat)
    requires p >= 1
    ensures x * p >= x && (x >= 1 ==> x * p >= p)
  {
  }

  /** The normal form of x is the one power-of-two multiple of it in [2^15, 2^16): nothing is lost. */
  lemma {:induction false} Normalised(x: nat, k: nat)
    requires 0 < x < 0x10000 && 0x8000 <= x * Pow2(k) < 0x10000
    ensures Shift(x) == k && Mantissa(x) == x * Pow2(k)
    decreases k
  {
    if k > 0 {
      Double(x, k - 1);
      Pow2Positive(k - 1);
      Multiplied(x, Pow2(k - 1));
      Normalised(2 * x, k - 1);
    }
  }

  lemma {:induction false} ShiftBound(x: nat, n: nat)
    requires 0 < x < 0x10000 && x * Pow2(n) >= 0x8000
    ensures Shift(x) <= n
    decreases n
  {
    if x < 0x8000 {
      assert Pow2(0) == 1;
      Double(x, n - 1);
      ShiftBound(2 * x, n - 1);
    }
  }

  lemma ShiftSmall(x: nat)
    requires 0 < x < 0x10000
    ensures Shift(x) <= 15
  {
    Pow2Fifteen();
    Multiplied(x, Pow2(15));
    ShiftBound(x, 15);
  }

  /** The leading-bit search upwards: `exp` counts down as the mantissa doubles. */
  method SearchUp(x: nat) returns (mantissa: nat, exp: int, ok: bool)
    requires x * 16 < 0x8000
    ensures ok <==> x > 0
    ensures ok ==> exp <= 0 && 0x8000 <= mantissa < 0x10000 && mantissa == x * Pow2(-exp)
  {
    mantissa, exp := x * 16, -(DEFAULT_BO as int);
    Pow2Fifteen();
    while mantissa < 0x8000
      invariant -20 <= exp <= -4 && mantissa == x * Pow2(-exp)
      invariant mantissa < 0x10000 && (x > 0 ==> exp >= -15)
      decreases exp + 21
    {
      Double(x, -exp);
      Multiplied(x, Pow2(15));
      mantissa := mantissa * 2;
      exp := exp - 1;
      if exp < -20 {
        return mantissa, exp, false;
      }
    }
    ok := true;
  }

  /** The leading-bit search downwards: halving loses nothing, for the value began as a multiple of 16. */
  method SearchDown(x: nat) returns (mantissa: nat, exp: int)
    requires x < 0x10000 && 0x8000 <= x * 16
    ensures -4 <= exp <= 0 && 0x8000 <= mantissa < 0x10000 && mantissa == x * Pow2(-exp)
  {
    mantissa, exp := x * 16, -(DEFAULT_BO as int);
    Pow2Fifteen();
    while mantissa > 0xFFFF
      invariant -4 <= exp <= 0 && mantissa == x * Pow2(-exp) && mantissa >= 0x8000
      decreases -exp
    {
      assert Pow2(0) == 1;
      Double(x, -exp - 1);
      mantissa := mantissa / 2;
      exp := exp + 1;
    }
  }

  /** lin2dBd. */
  method Lin2dBdOf(linearValue: nat) returns (r: int)
    requires linearValue < 0x10000
    ensures r == Lin2dBd(linearValue)
  {
    var mantissa, exp, ok;
    if linearValue * 16 < 0x8000 {
      mantissa, exp, ok := SearchUp(linearValue);
      if !ok {
        return LIN2DB_ERROR_CODE;
      }
    } else {
      mantissa, exp := SearchDown(linearValue);
    }
    Normalised(linearValue, -exp);
    var app: int;
    if mantissa <= KNEE {
      app := mantissa + mantissa / 8 + mantissa / 16 - 38400;
    } else {
      app := mantissa - mantissa / 8 - mantissa / 64 - 23040;
    }
    if app < 0 {
      app := 0;
    }
    AppRange(mantissa);
    var dBd := (15 + exp) * 0x8000 + app;
    r := Scale(dBd);
  }

  // ---- What the value is worth ---------------------------------------------------------------------------

  lemma AppRange(m: nat)
    requires 0x8000 <= m < 0x10000
    ensures 512 <= App(m) <= 33281
  {
  }

  /** The two lines fall back by at most 96 units: 95 at the knee and one at multiples of 64. */
  lemma AppNearlyMonotone(m: nat, n: nat)
    requires 0x8000 <= m <= n < 0x10000
    ensures App(m) <= App(n) + 96
  {
    UpperNearlyMonotone(m, n);
    UpperNearlyMonotone(KNEE + 1, if n > KNEE then n else KNEE + 1);
  }

  /** The upper line falls back by at most one unit. */
  lemma UpperNearlyMonotone(m: nat, n: nat)
    requires m <= n
    ensures m - m / 8 - m / 64 <= n - n / 8 - n / 64 + 1
  {
    var a, r := m / 64, m % 64;
    var b, s := n / 64, n % 64;
    assert m / 8 == 8 * a + r / 8 && n / 8 == 8 * b + s / 8;
  }

  /** A drop of up to 96 units costs at most one step of the result. */
  lemma ScaleNearlyMonotone(d: int, e: int)
    requires d <= e + 96
    ensures Scale(d) <= Scale(e) + 1
  {
    assert d / 64 <= e / 64 + 2 && d / 128 <= e / 128 + 1;
  }

  /** A larger input is shifted less, or as much with a larger mantissa. */
  lemma {:induction false} ShiftOrder(x: nat, y: nat)
    requires 0 < x <= y < 0x10000
    ensures Shift(y) < Shift(x) || (Shift(y) == Shift(x) && Mantissa(x) <= Mantissa(y))
    decreases 0x10000 - x
  {
    if y < 0x8000 {
      ShiftOrder(2 * x, 2 * y);
    }
  }

  /** The result may step back where the lines do, but by at most one step. */
  lemma NearlyMonotone(x: nat, y: nat)
    requires 0 < x <= y < 0x10000
    ensures Lin2dBd(x) <= Lin2dBd(y) + 1
  {
    ShiftOrder(x, y);
    AppRange(Mantissa(x));
    AppRange(Mantissa(y));
    if Shift(y) == Shift(x) {
      AppNearlyMonotone(Mantissa(x), Mantissa(y));
    }
    ScaleNearlyMonotone(Log2(x), Log2(y));
  }

  // ---- Where it steps back ---------------------------------------------------------------------------------

  lemma {:induction false} MantissaIs(x: nat)
    requires 0 < x < 0x10000
    ensures Mantissa(x) == x * Pow2(Shift(x))
    decreases 0x10000 - x
  {
    assert Pow2(0) == 1;
    if x < 0x8000 {
      MantissaIs(2 * x);
      Double(x, Shift(2 * x));
    }
  }

  lemma ScaleMonotone(d: int, e: int)
    requires d <= e
    ensures Scale(d) <= Scale(e)
  {
    assert d / 64 <= e / 64 && d / 128 <= e / 128;
  }

  /** On multiples of two neither line falls back. */
  lemma LinesRise(m: nat, n: nat)
    requires 0x8000 <= m < n < 0x10000 && (n <= KNEE || (m > KNEE && n >= m + 2))
    ensures App(m) <= App(n)
  {
    if n <= KNEE {
      assert m / 8 <= n / 8 && m / 16 <= n / 16;
    } else {
      var a, r := m / 64, m % 64;
      var b, t := n / 64, n % 64;
      assert m / 8 == 8 * a + r / 8 && n / 8 == 8 * b + t / 8;
    }
  }

  /** A unit step on the upper line falls back by one unit just before a multiple of 64. */
  lemma UpperUnit(m: nat)
    requires KNEE < m < 0xFFFF
    ensures if (m + 1) % 64 == 0 then App(m) == App(m + 1) + 1 else App(m) <= App(m + 1)
  {
    var a, r := m / 64, m % 64;
    assert m / 8 == 8 * a + r / 8;
    if r == 63 {
      assert m + 1 == 64 * (a + 1);
    } else {
      assert (m + 1) / 64 == a && (m + 1) / 8 == 8 * a + (r + 1) / 8;
    }
  }

  /** The result times 2^17 is 771 times the logarithm, less at most 253: that far inside a step, one unit more
      stays inside it. */
  lemma InsideStep(d: nat, step: nat)
    requires 131072 * step + 253 <= 771 * d < 131072 * (step + 1) - 771
    ensures Scale(d) == Scale(d + 1) == step
  {
    ScaleWithin(d, step);
    ScaleWithin(d + 1, step);
  }

  lemma ScaleWithin(d: nat, step: nat)
    requires 131072 * step + 253 <= 771 * d < 131072 * (step + 1)
    ensures Scale(d) == step
  {
    var sum := 4 * d + 2 * d + d / 64 + d / 128;
    assert d - 63 <= 64 * (d / 64) <= d && d - 127 <= 128 * (d / 128) <= d;
    assert 771 * d - 253 <= 128 * sum <= 771 * d;
    assert 1024 * step <= sum < 1024 * (step + 1);
  }

  /** The unit lost at a multiple 64 * j never reaches the result. Three multiples on, the logarithm is 3857 short
      of a step of 131072: with j = 737 + 3 * i + c, every 34 such triples fall back by one. */
  lemma UnitVanishes(j: nat, i: nat, c: nat, k: nat)
    requires 737 <= j < 1024 && j == 737 + 3 * i + c && c < 3 && k < 4
    requires 651 + 34 * c + 102 * k <= j < 753 + 34 * c + 102 * k
    ensures Scale(468480 + 55 * j) == Scale(468481 + 55 * j)
  {
    InsideStep(468480 + 55 * j, 2994 + i - k);
  }

  const STEPS_BACK: set<nat> := {2944, 5888, 47104}

  /** p is the k-th power of two. */
  predicate Power(k: nat, p: nat) {
    (k == 0 && p == 1) || (k == 1 && p == 2) || (k == 2 && p == 4) || (k == 3 && p == 8)
    || (k == 4 && p == 16) || (k == 5 && p == 32) || (k == 6 && p == 64) || (k == 7 && p == 128)
    || (k == 8 && p == 256) || (k == 9 && p == 512) || (k == 10 && p == 1024) || (k == 11 && p == 2048)
    || (k == 12 && p == 4096) || (k == 13 && p == 8192) || (k == 14 && p == 16384) || (k == 15 && p == 32768)
  }

  lemma {:induction false} PowerIs(k: nat)
    requires k <= 15
    ensures Power(k, Pow2(k))
  {
    if k > 0 {
      PowerIs(k - 1);
    }
  }

  lemma NormalForm(x: nat, k: nat, m: nat)
    requires 0 < x < 0x10000 && m == x * Pow2(k) && 0x8000 <= m < 0x10000
    ensures Log2(x) == (15 - k) * 0x8000 + App(m)
  {
    Normalised(x, k);
  }

  lemma Successor(x: nat, p: nat)
    ensures (x + 1) * p == x * p + p
  {
  }

  lemma NextOctave(x: nat, k: nat, p: nat)
    requires Power(k, p) && x < 0xFFFF && 0x10000 - p <= x * p < 0x10000
    ensures k > 0 && (x + 1) * p == 0x10000
  {
  }

  lemma NextNormalForm(x: nat, k: nat)
    requires 0 < x < 0xFFFF && 0 < k <= 15 && (x + 1) * Pow2(k) == 0x10000
    ensures Log2(x + 1) == (16 - k) * 0x8000 + 512
  {
    Double(x + 1, k - 1);
    NormalForm(x + 1, k - 1, 0x8000);
  }

  /** The normal form of a number, and of its successor in the same octave or the next. */
  lemma Octave(x: nat, k: nat, p: nat, m: nat)
    requires 0 < x < 0xFFFF && k == Shift(x) && p == Pow2(k) && m == x * p
    ensures Power(k, p) && 0x8000 <= m < 0x10000 && Log2(x) == (15 - k) * 0x8000 + App(m)
    ensures m + p < 0x10000 ==> Log2(x + 1) == (15 - k) * 0x8000 + App(m + p)
    ensures m + p >= 0x10000 ==> k > 0 && m + p == 0x10000 && Log2(x + 1) == (16 - k) * 0x8000 + 512
  {
    ShiftSmall(x);
    PowerIs(k);
    MantissaIs(x);
    Successor(x, p);
    if m + p < 0x10000 {
      NormalForm(x + 1, k, m + p);
    } else {
      NextOctave(x, k, p);
      NextNormalForm(x, k);
    }
  }

  lemma KneeHit(x: nat, k: nat, p: nat, m: nat)
    requires Power(k, p) && k <= 11 && m == x * p <= KNEE < m + p
    ensures m == KNEE && (x in STEPS_BACK <==> k in {0, 3, 4})
  {
  }

  /** The result at 128 * c + s, from quotient and remainder of its scaled value. */
  lemma ScaleOf(d: nat, c: nat, s: nat, h: nat, w: nat)
    requires d == 128 * c + s && s < 128 && w < 1024
    requires 771 * c + 6 * s + (if s >= 64 then 1 else 0) == 1024 * h + w
    ensures Scale(d) == h
  {
    assert d / 128 == c && d / 64 == 2 * c + if s >= 64 then 1 else 0;
  }

  /** Near the knee the logarithm falls by 128 - s units, and the scaled value to remainder w. */
  lemma KneeNear(k: nat, p: nat, s: nat, h: nat, w: nat)
    requires Power(k, p) && k <= 6 && s == [33, 34, 36, 39, 46, 60, 87][k]
    requires w == [411, 667, 923, 155][k % 4] && 197376 * (15 - k) + 105627 == 1024 * h + w
    ensures Scale((15 - k) * 0x8000 + App(KNEE)) > Scale((15 - k) * 0x8000 + App(KNEE + p)) <==> k in {0, 3, 4}
  {
    var c := 256 * (15 - k) + 136;
    assert App(KNEE) == 128 * 137 && App(KNEE + p) == 128 * 136 + s;
    ScaleOf((15 - k) * 0x8000 + App(KNEE), c + 1, 0, h, w);
    var less := 771 - 6 * s - if s >= 64 then 1 else 0;
    ScaleOf((15 - k) * 0x8000 + App(KNEE + p), c, s, if w < less then h - 1 else h, if w < less then w - less + 1024 else w - less);
  }

  lemma KneeValue(k: nat, p: nat)
    requires Power(k, p) && k <= 11
    ensures Scale((15 - k) * 0x8000 + App(KNEE)) > Scale((15 - k) * 0x8000 + App(KNEE + p)) <==> k in {0, 3, 4}
  {
    if k <= 6 {
      var g := 197376 * (15 - k) + 105627;
      KneeNear(k, p, [33, 34, 36, 39, 46, 60, 87][k], g / 1024, [411, 667, 923, 155][k % 4]);
    } else {
      assert App(KNEE) <= App(KNEE + p);
      ScaleMonotone((15 - k) * 0x8000 + App(KNEE), (15 - k) * 0x8000 + App(KNEE + p));
    }
  }

  lemma KneeFar(x: nat, k: nat, p: nat, m: nat)
    requires Power(k, p) && k >= 12 && m == x * p && 0x8000 <= m <= KNEE < m + p < 0x10000
    ensures App(m) <= App(m + p) && x !in STEPS_BACK
  {
  }

  /** Across the knee the lines fall back only where a power-of-two multiple of x is the knee itself, and the
      result only for three of those. */
  lemma AcrossKnee(x: nat, k: nat, p: nat, m: nat)
    requires Power(k, p) && m == x * p && 0x8000 <= m <= KNEE < m + p < 0x10000
    ensures Scale((15 - k) * 0x8000 + App(m)) > Scale((15 - k) * 0x8000 + App(m + p)) <==> x in STEPS_BACK
  {
    if k <= 11 {
      KneeHit(x, k, p, m);
      KneeValue(k, p);
    } else {
      KneeFar(x, k, p, m);
      ScaleMonotone((15 - k) * 0x8000 + App(m), (15 - k) * 0x8000 + App(m + p));
    }
  }

  /** On the upper line of the top octave one unit more never steps back. */
  lemma TopOctaveRises(m: nat)
    requires KNEE < m < 0xFFFF
    ensures Scale(15 * 0x8000 + App(m)) <= Scale(15 * 0x8000 + App(m + 1))
  {
    UpperUnit(m);
    if (m + 1) % 64 == 0 {
      var j := (m + 1) / 64;
      var i, c := (j - 737) / 3, (j - 737) % 3;
      assert App(m + 1) == 55 * j - 23040;
      UnitVanishes(j, i, c, (j - 651 - 34 * c) / 102);
    } else {
      ScaleMonotone(15 * 0x8000 + App(m), 15 * 0x8000 + App(m + 1));
    }
  }

  lemma ElsewhereRises(k: nat, p: nat, m: nat)
    requires Power(k, p) && 0x8000 <= m && m + p < 0x10000 && (m > KNEE || m + p <= KNEE)
    ensures Scale((15 - k) * 0x8000 + App(m)) <= Scale((15 - k) * 0x8000 + App(m + p))
  {
    if m > KNEE && p == 1 {
      TopOctaveRises(m);
    } else {
      LinesRise(m, m + p);
      ScaleMonotone((15 - k) * 0x8000 + App(m), (15 - k) * 0x8000 + App(m + p));
    }
  }

  /** Between neighbours the result steps back at three places and nowhere else. */
  lemma StepsBackExactly(x: nat)
    requires 0 < x < 0xFFFF
    ensures Lin2dBd(x) > Lin2dBd(x + 1) <==> x in STEPS_BACK
  {
    var k, p := Shift(x), Pow2(Shift(x));
    var m := x * p;
    Octave(x, k, p, m);
    if m + p < 0x10000 && m <= KNEE < m + p {
      AcrossKnee(x, k, p, m);
    } else {
      ElsewhereNot(x, k, p, m);
      if m + p >= 0x10000 {
        TopRises(m, p);
        ScaleMonotone(Log2(x), Log2(x + 1));
      } else {
        ElsewhereRises(k, p, m);
      }
    }
  }

  lemma ElsewhereNot(x: nat, k: nat, p: nat, m: nat)
    requires Power(k, p) && m == x * p && 0x8000 <= m < 0x10000 && (m + p >= 0x10000 || m > KNEE || m + p <= KNEE)
    ensures x !in STEPS_BACK
  {
  }

  lemma TopRises(m: nat, p: nat)
    requires m + p == 0x10000 && 2 <= p <= 0x8000
    ensures App(m) <= 33280
  {
  }

  /** Doubling the input adds 192 or 193 steps, 192.75 on average for 6.02 dB. */
  lemma DoublingAdds(x: nat)
    requires 0 < x < 0x8000
    ensures Lin2dBd(2 * x) == Lin2dBd(x) + 192 || Lin2dBd(2 * x) == Lin2dBd(x) + 193
  {
    var d := Log2(x);
    assert Log2(2 * x) == d + 0x8000;
    assert (d + 0x8000) / 64 == d / 64 + 512 && (d + 0x8000) / 128 == d / 128 + 256;
  }

  /** The error code is returned for zero and nothing else, and every other result fits 16 bits. */
  lemma ErrorExactlyAtZero(x: nat)
    requires x < 0x10000
    ensures Lin2dBd(x) == LIN2DB_ERROR_CODE <==> x == 0
    ensures x > 0 ==> 3 <= Lin2dBd(x) <= 3087
  {
    if x > 0 {
      ShiftSmall(x);
      AppRange(Mantissa(x));
      var d := Log2(x);
      assert 512 <= d <= 15 * 0x8000 + 33281;
    }
  }
}
