/**
 Relative luminance and contrast ratio, as build.py, the showcase page and the Playwright
 appearance test compute them, in exact real arithmetic.

 `x ** 2.4` is a function parameter `pow`: any function whose value `y` on a non-negative `x`
 is non-negative and satisfies `y^5 == x^12`.  Everything below holds of every such function.
 */
module Srgb {

  type Byte = n: int | 0 <= n < 256

  datatype Rgb = Rgb(r: Byte, g: Byte, b: Byte)

  const BLACK := Rgb(0, 0, 0)
  const WHITE := Rgb(255, 255, 255)

  // ----- powers -----

  function Power(x: real, n: nat): real {
    if n == 0 then 1.0 else x * Power(x, n - 1)
  }

  ghost predicate IsPow2_4(pow: real -> real) {
    forall x: real :: x >= 0.0 ==> pow(x) >= 0.0 && Power(pow(x), 5) == Power(x, 12)
  }

  lemma {:induction false} PowerIsPositive(x: real, n: nat)
    requires x > 0.0
    ensures Power(x, n) > 0.0
  {
    if n > 0 {
      PowerIsPositive(x, n - 1);
    }
  }

  lemma {:induction false} PowerIsMonotone(x: real, y: real, n: nat)
    requires 0.0 <= x < y
    ensures 0.0 <= Power(x, n) <= Power(y, n)
    ensures n > 0 ==> Power(x, n) < Power(y, n)
  {
    if n > 0 {
      PowerIsMonotone(x, y, n - 1);
      PowerIsPositive(y, n - 1);
      ProductIsMonotone(x, y, Power(x, n - 1), Power(y, n - 1));
    }
  }

  lemma ProductIsMonotone(x: real, y: real, p: real, q: real)
    requires 0.0 <= x < y && 0.0 <= p <= q && 0.0 < q
    ensures 0.0 <= x * p < y * q
  {
    assert x * p <= x * q;
    assert x * q < y * q;
  }

  /** `x ** 2.4` is strictly increasing: a consequence of its defining equation, not an assumption. */
  lemma Pow2_4IsStrictlyIncreasing(pow: real -> real, x: real, y: real)
    requires IsPow2_4(pow)
    requires 0.0 <= x < y
    ensures 0.0 <= pow(x) < pow(y)
  {
    PowerIsMonotone(x, y, 12);
    if pow(y) < pow(x) {
      PowerIsMonotone(pow(y), pow(x), 5);
    }
  }

  // ----- the transfer curve -----

  /** The curve on a normalised channel, with the threshold below which it is linear. */
  function Curve(pow: real -> real, threshold: real, s: real): real {
    if s <= threshold then s / 12.92 else pow((s + 0.055) / 1.055)
  }

  const BUILD_THRESHOLD := 0.03928
  const PLAYWRIGHT_THRESHOLD := 0.04045

  /** `_srgb_to_lin` of build.py, and `lin` of the showcase page. */
  function Lin(pow: real -> real, c: Byte): real {
    Curve(pow, BUILD_THRESHOLD, c as real / 255.0)
  }

  /** The last linear byte is 10 under either threshold: 10/255 < 0.03928 < 0.04045 < 11/255. */
  lemma LinearBytes(c: Byte)
    ensures c as real / 255.0 <= BUILD_THRESHOLD <==> c <= 10
    ensures c as real / 255.0 <= PLAYWRIGHT_THRESHOLD <==> c <= 10
  {
  }

  /** Across the threshold the curve still climbs from byte 10 to byte 11. */
  lemma CurveClimbsAcrossThreshold(pow: real -> real)
    requires IsPow2_4(pow)
    ensures Lin(pow, 10) < Lin(pow, 11)
  {
    LinearBytes(10);
    LinearBytes(11);
    var x := (11.0 / 255.0 + 0.055) / 1.055;
    var y := Lin(pow, 11);
    assert y == pow(x);
    if y <= 0.00304 {
      PowersAt0093();
      PowerIsMonotone(0.093, x, 12);
      if y < 0.00304 {
        PowerIsMonotone(y, 0.00304, 5);
      }
    }
  }

  lemma PowersAt0093()
    ensures Power(0.00304, 5) < Power(0.093, 12)
  {
    PowerSplits(0.093, 4, 8);
    PowerSplits(0.093, 4, 4);
    assert Power(0.093, 4) == 0.093 * 0.093 * 0.093 * 0.093;
    assert Power(0.00304, 5) == 0.00304 * 0.00304 * 0.00304 * 0.00304 * 0.00304;
  }

  lemma {:induction false} PowerSplits(x: real, m: nat, n: nat)
    ensures Power(x, m + n) == Power(x, m) * Power(x, n)
  {
    if m > 0 {
      PowerSplits(x, m - 1, n);
    }
  }

  /** On 8-bit channels the curve is strictly increasing, from 0 at 0 to 1 at 255. */
  lemma CurveIsStrictlyIncreasing(pow: real -> real, a: Byte, b: Byte)
    requires IsPow2_4(pow)
    ensures a < b ==> Lin(pow, a) < Lin(pow, b)
  {
    LinearBytes(a);
    LinearBytes(b);
    if 10 < a < b {
      PowPartIsIncreasing(pow, a, b);
    } else if a <= 10 < b {
      LinearBytes(10);
      LinearBytes(11);
      CurveClimbsAcrossThreshold(pow);
      if 11 < b {
        PowPartIsIncreasing(pow, 11, b);
      }
    }
  }

  lemma PowPartIsIncreasing(pow: real -> real, a: Byte, b: Byte)
    requires IsPow2_4(pow)
    requires 10 < a < b
    ensures Lin(pow, a) < Lin(pow, b)
  {
    LinearBytes(a);
    LinearBytes(b);
    var x, y := (a as real / 255.0 + 0.055) / 1.055, (b as real / 255.0 + 0.055) / 1.055;
    Pow2_4IsStrictlyIncreasing(pow, x, y);
  }

  lemma CurveEndpoints(pow: real -> real)
    requires IsPow2_4(pow)
    ensures Lin(pow, 0) == 0.0
    ensures Lin(pow, 255) == 1.0
  {
    LinearBytes(255);
    var y := pow(1.0);
    assert Lin(pow, 255) == y;
    OneToAnyPower(5);
    OneToAnyPower(12);
    if y < 1.0 {
      PowerIsMonotone(y, 1.0, 5);
    } else if y > 1.0 {
      PowerIsMonotone(1.0, y, 5);
    }
  }

  lemma {:induction false} OneToAnyPower(n: nat)
    ensures Power(1.0, n) == 1.0
  {
    if n > 0 {
      OneToAnyPower(n - 1);
    }
  }

  lemma CurveRange(pow: real -> real, c: Byte)
    requires IsPow2_4(pow)
    ensures 0.0 <= Lin(pow, c) <= 1.0
  {
    CurveEndpoints(pow);
    CurveIsStrictlyIncreasing(pow, 0, c);
    CurveIsStrictlyIncreasing(pow, c, 255);
  }

  /**
   Monotonicity is a property of the 8-bit values only: over all reals the curve with the
   build script's threshold dips there, as these two inputs show.
   */
  lemma CurveDipsBetweenBytes(pow: real -> real)
    requires IsPow2_4(pow)
    ensures Curve(pow, BUILD_THRESHOLD, 0.039281) < Curve(pow, BUILD_THRESHOLD, 0.03928)
  {
    var x, y := (0.039281 + 0.055) / 1.055, pow((0.039281 + 0.055) / 1.055);
    if y >= 0.00304 {
      PowersAt00894();
      PowerIsMonotone(x, 0.08937, 12);
      if y > 0.00304 {
        PowerIsMonotone(0.00304, y, 5);
      }
    }
  }

  lemma PowersAt00894()
    ensures Power(0.08937, 12) < Power(0.00304, 5)
  {
    PowerSplits(0.08937, 4, 8);
    PowerSplits(0.08937, 4, 4);
    assert Power(0.08937, 4) == 0.08937 * 0.08937 * 0.08937 * 0.08937;
    assert Power(0.00304, 5) == 0.00304 * 0.00304 * 0.00304 * 0.00304 * 0.00304;
  }

  /**
   The curve on bytes without its constants: up to byte 10 a straight line of slope 1/3294.6, above it the 2.4th
   power of (c + 14.025) / 269.025, as the equation it solves.
   */
  lemma CurveOnBytes(pow: real -> real, c: Byte)
    requires IsPow2_4(pow)
    ensures c <= 10 ==> 3294.6 * Lin(pow, c) == c as real
    ensures c > 10 ==> Power(Lin(pow, c), 5) == Power((c as real + 14.025) / 269.025, 12)
  {
    LinearBytes(c);
    if c > 10 {
      assert (c as real / 255.0 + 0.055) / 1.055 == (c as real + 14.025) / 269.025;
    }
  }

  // ----- luminance -----

  function Weighted(r: real, g: real, b: real): real {
    0.2126 * r + 0.7152 * g + 0.0722 * b
  }

  function Luminance(pow: real -> real, c: Rgb): real {
    Weighted(Lin(pow, c.r), Lin(pow, c.g), Lin(pow, c.b))
  }

  /** Full red, green and blue weigh 0.2126, 0.7152 and 0.0722, and any colour's luminance is the sum over its channels. */
  lemma LuminanceByChannel(pow: real -> real, c: Rgb)
    requires IsPow2_4(pow)
    ensures Luminance(pow, Rgb(255, 0, 0)) == 0.2126
    ensures Luminance(pow, Rgb(0, 255, 0)) == 0.7152
    ensures Luminance(pow, Rgb(0, 0, 255)) == 0.0722
    ensures Luminance(pow, c) == Luminance(pow, Rgb(c.r, 0, 0)) + Luminance(pow, Rgb(0, c.g, 0)) + Luminance(pow, Rgb(0, 0, c.b))
    ensures Luminance(pow, Rgb(c.r, 0, 0)) == 0.2126 * Lin(pow, c.r)
    ensures Luminance(pow, Rgb(0, c.g, 0)) == 0.7152 * Lin(pow, c.g)
    ensures Luminance(pow, Rgb(0, 0, c.b)) == 0.0722 * Lin(pow, c.b)
  {
    CurveEndpoints(pow);
    hide Lin;
  }

  predicate ChannelwiseAtMost(c: Rgb, d: Rgb) {
    c.r <= d.r && c.g <= d.g && c.b <= d.b
  }

  lemma LuminanceRange(pow: real -> real, c: Rgb)
    requires IsPow2_4(pow)
    ensures 0.0 <= Luminance(pow, c) <= 1.0
  {
    CurveRange(pow, c.r);
    CurveRange(pow, c.g);
    CurveRange(pow, c.b);
  }

  /** Raising channels raises luminance, strictly as soon as one channel moves. */
  lemma LuminanceIsChannelwiseMonotone(pow: real -> real, c: Rgb, d: Rgb)
    requires IsPow2_4(pow)
    requires ChannelwiseAtMost(c, d)
    ensures Luminance(pow, c) <= Luminance(pow, d)
    ensures c != d ==> Luminance(pow, c) < Luminance(pow, d)
  {
    CurveIsStrictlyIncreasing(pow, c.r, d.r);
    CurveIsStrictlyIncreasing(pow, c.g, d.g);
    CurveIsStrictlyIncreasing(pow, c.b, d.b);
  }

  // ----- contrast -----

  function Max(a: real, b: real): real { if a >= b then a else b }

  function Min(a: real, b: real): real { if a <= b then a else b }

  /** The contrast ratio of two luminances. */
  function Ratio(l1: real, l2: real): real
    requires l1 >= 0.0 && l2 >= 0.0
  {
    (Max(l1, l2) + 0.05) / (Min(l1, l2) + 0.05)
  }

  /** Comparing quotients without dividing. */
  lemma CompareQuotients(p: real, q: real, r: real, s: real)
    requires q > 0.0 && s > 0.0
    ensures p / q >= r / s <==> p * s >= r * q
  {
    var u, v := p / q, r / s;
    assert u * q == p && v * s == r;
    var w := q * s;
    assert w > 0.0;
    assert p * s == u * w && r * q == v * w;
    if u >= v {
      assert u * w >= v * w;
    } else {
      assert u * w < v * w;
    }
  }

  /** Contrast is symmetric, lies in [1, 21], is 1 only on equal and 21 only on extreme luminances. */
  lemma RatioBounds(l1: real, l2: real)
    requires 0.0 <= l1 <= 1.0 && 0.0 <= l2 <= 1.0
    ensures Ratio(l1, l2) == Ratio(l2, l1)
    ensures 1.0 <= Ratio(l1, l2) <= 21.0
    ensures Ratio(l1, l2) == 1.0 <==> l1 == l2
    ensures Ratio(l1, l2) == 21.0 <==> (l1 == 0.0 && l2 == 1.0) || (l1 == 1.0 && l2 == 0.0)
  {
    var hi, lo := Max(l1, l2), Min(l1, l2);
    QuotientBounds(hi + 0.05, lo + 0.05);
  }

  lemma QuotientBounds(hi: real, lo: real)
    requires 0.05 <= lo <= hi <= 1.05
    ensures 1.0 <= hi / lo <= 21.0
    ensures hi / lo == 1.0 <==> hi == lo
    ensures hi / lo == 21.0 <==> hi == 1.05 && lo == 0.05
  {
    CompareQuotients(hi, lo, 1.0, 1.0);
    CompareQuotients(1.0, 1.0, hi, lo);
    CompareQuotients(hi, lo, 21.0, 1.0);
    CompareQuotients(21.0, 1.0, hi, lo);
  }

  function Quotient(p: real, q: real): real
    requires p > 0.0 && q > 0.0
  {
    Max(p, q) / Min(p, q)
  }

  /** A luminance with the 0.05 flare the ratio adds to it. */
  function Flare(l: real): real { l + 0.05 }

  lemma RatioIsQuotient(l1: real, l2: real)
    requires l1 >= 0.0 && l2 >= 0.0
    ensures Ratio(l1, l2) == Quotient(Flare(l1), Flare(l2))
  {
  }

  /**
   A background that darkens from `b` to `h` keeps its contrast with `f` exactly when it did not
   move or `f` is at or above the geometric mean of the two (flares included).
   */
  lemma DarkerBackgroundKeepsContrastIff(f: real, b: real, h: real)
    requires f >= 0.0 && 0.0 <= h <= b
    ensures Ratio(f, h) >= Ratio(f, b) <==> h == b || Flare(f) * Flare(f) >= Flare(b) * Flare(h)
  {
    RatioIsQuotient(f, h);
    RatioIsQuotient(f, b);
    DarkerQuotient(Flare(f), Flare(b), Flare(h));
  }

  /** The mirror image, for a background that lightens. */
  lemma LighterBackgroundKeepsContrastIff(f: real, b: real, h: real)
    requires f >= 0.0 && 0.0 <= b <= h
    ensures Ratio(f, h) >= Ratio(f, b) <==> h == b || Flare(f) * Flare(f) <= Flare(b) * Flare(h)
  {
    RatioIsQuotient(f, h);
    RatioIsQuotient(f, b);
    LighterQuotient(Flare(f), Flare(b), Flare(h));
  }

  lemma DarkerQuotient(f: real, b: real, h: real)
    requires 0.0 < f && 0.0 < h <= b
    ensures Quotient(f, h) >= Quotient(f, b) <==> h == b || f * f >= b * h
  {
    if b <= f {
      CompareQuotients(f, h, f, b);
      ProductOrder(f, h, b);
    } else if h <= f {
      CompareQuotients(f, h, b, f);
      ProductOrder(f, b, h);
    } else {
      CompareQuotients(h, f, b, f);
      ProductOrder(f, h, b);
      Mul(b, f, h);
      Mul(f, f, b);
    }
  }

  lemma LighterQuotient(f: real, b: real, h: real)
    requires 0.0 < f && 0.0 < b <= h
    ensures Quotient(f, h) >= Quotient(f, b) <==> h == b || f * f <= b * h
  {
    if h <= f {
      CompareQuotients(f, h, f, b);
      ProductOrder(f, h, b);
      Mul(f, b, h);
      Mul(b, h, f);
      Mul(f, b, f);
    } else if b <= f {
      CompareQuotients(h, f, f, b);
    } else {
      CompareQuotients(h, f, b, f);
      ProductOrder(f, b, h);
    }
  }

  /** How the square of `x` compares with a product of two numbers on one side of it. */
  lemma ProductOrder(x: real, y: real, z: real)
    requires x > 0.0 && y > 0.0 && z > 0.0
    ensures y <= z <==> x * y <= x * z
    ensures y == z <==> x * y == x * z
    ensures x <= y ==> x * x <= x * y <= y * y
    ensures x <= y && x <= z ==> x * x <= y * z
    ensures x >= y && x >= z ==> x * x >= y * z
  {
    Mul(x, y, z);
    Mul(x, z, y);
    Mul(x, x, y);
    Mul(x, y, x);
    Mul(y, x, y);
    Mul(y, x, z);
    Mul(y, z, x);
  }

  lemma Mul(k: real, p: real, q: real)
    requires k > 0.0
    ensures p < q ==> k * p < k * q
  {
  }

  // ----- the three implementations -----

  /** `contrast` of build.py and of the showcase page, on parsed colours. */
  function Contrast(pow: real -> real, c: Rgb, d: Rgb): real
    requires IsPow2_4(pow)
  {
    LuminanceRange(pow, c);
    LuminanceRange(pow, d);
    Ratio(Luminance(pow, c), Luminance(pow, d))
  }

  function PlaywrightLuminance(pow: real -> real, c: Rgb): real {
    Weighted(Curve(pow, PLAYWRIGHT_THRESHOLD, c.r as real / 255.0),
             Curve(pow, PLAYWRIGHT_THRESHOLD, c.g as real / 255.0),
             Curve(pow, PLAYWRIGHT_THRESHOLD, c.b as real / 255.0))
  }

  /** `ratio` of the appearance test: sort the two luminances in descending order, then divide. */
  function PlaywrightRatio(pow: real -> real, c: Rgb, d: Rgb): real
    requires PlaywrightLuminance(pow, c) >= 0.0 && PlaywrightLuminance(pow, d) >= 0.0
  {
    var x, y := PlaywrightLuminance(pow, c), PlaywrightLuminance(pow, d);
    var ordered := if y - x > 0.0 then [y, x] else [x, y];
    (ordered[0] + 0.05) / (ordered[1] + 0.05)
  }

  /** The same of the Playwright implementation, on its own. */
  lemma PlaywrightLuminanceByChannel(pow: real -> real, c: Rgb)
    requires IsPow2_4(pow)
    ensures PlaywrightLuminance(pow, Rgb(255, 0, 0)) == 0.2126
    ensures PlaywrightLuminance(pow, Rgb(0, 255, 0)) == 0.7152
    ensures PlaywrightLuminance(pow, Rgb(0, 0, 255)) == 0.0722
    ensures PlaywrightLuminance(pow, c) == PlaywrightLuminance(pow, Rgb(c.r, 0, 0))
              + PlaywrightLuminance(pow, Rgb(0, c.g, 0)) + PlaywrightLuminance(pow, Rgb(0, 0, c.b))
  {
    CurveEndpoints(pow);
    LinearBytes(255);
    assert Curve(pow, PLAYWRIGHT_THRESHOLD, 0.0) == 0.0 && Curve(pow, PLAYWRIGHT_THRESHOLD, 1.0) == 1.0;
    hide Curve;
  }

  lemma CurvesAgree(pow: real -> real, c: Rgb)
    requires IsPow2_4(pow)
    ensures PlaywrightLuminance(pow, c) == Luminance(pow, c) >= 0.0
  {
    LinearBytes(c.r);
    LinearBytes(c.g);
    LinearBytes(c.b);
    LuminanceRange(pow, c);
  }

  /** The two thresholds, 0.03928 and 0.04045, give the same ratio on every pair of 8-bit colours. */
  lemma ImplementationsAgree(pow: real -> real, c: Rgb, d: Rgb)
    requires IsPow2_4(pow)
    ensures PlaywrightLuminance(pow, c) == Luminance(pow, c) >= 0.0
    ensures PlaywrightLuminance(pow, d) == Luminance(pow, d) >= 0.0
    ensures PlaywrightRatio(pow, c, d) == Contrast(pow, c, d)
  {
    CurvesAgree(pow, c);
    CurvesAgree(pow, d);
    hide Luminance, PlaywrightLuminance;
  }

  /** Luminance is 0 on black alone and 1 on white alone. */
  lemma ExtremeLuminances(pow: real -> real, c: Rgb)
    requires IsPow2_4(pow)
    ensures 0.0 <= Luminance(pow, c) <= 1.0
    ensures Luminance(pow, c) == 0.0 <==> c == BLACK
    ensures Luminance(pow, c) == 1.0 <==> c == WHITE
  {
    CurveEndpoints(pow);
    assert Luminance(pow, BLACK) == 0.0 && Luminance(pow, WHITE) == 1.0;
    LuminanceIsChannelwiseMonotone(pow, BLACK, c);
    LuminanceIsChannelwiseMonotone(pow, c, WHITE);
  }

  /** Contrast of two colours: symmetric, within [1, 21], 1 exactly on equal luminances, 21 exactly on black against white. */
  lemma ContrastBounds(pow: real -> real, c: Rgb, d: Rgb)
    requires IsPow2_4(pow)
    ensures Contrast(pow, c, d) == Contrast(pow, d, c)
    ensures 1.0 <= Contrast(pow, c, d) <= 21.0
    ensures Contrast(pow, c, d) == 1.0 <==> Luminance(pow, c) == Luminance(pow, d)
    ensures Contrast(pow, c, d) == 21.0 <==> (c == BLACK && d == WHITE) || (c == WHITE && d == BLACK)
  {
    hide Luminance, Ratio;
    ExtremeLuminances(pow, c);
    ExtremeLuminances(pow, d);
    RatioBounds(Luminance(pow, c), Luminance(pow, d));
  }
}
