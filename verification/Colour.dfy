/**
 Hex colours and the derivation of hover and active states in build.py.  A colour is the string
 the script holds; a string `int(..., 16)` would refuse is `None`.
 */
module Colour {
  import opened Wrappers
  import opened Srgb

  // ----- parsing and printing -----

  function HexDigit(c: char): Option<nat> {
    if '0' <= c <= '9' then Some((c - '0') as nat)
    else if 'a' <= c <= 'f' then Some((c - 'a') as nat + 10)
    else if 'A' <= c <= 'F' then Some((c - 'A') as nat + 10)
    else None
  }

  function HexChar(d: nat): char
    requires d < 16
  {
    "0123456789abcdef"[d]
  }

  /** `int(s, 16)` on a slice of at most two characters. */
  function ParseByte(s: string): Option<Byte> {
    if |s| == 1 && HexDigit(s[0]).Some? then
      Some(HexDigit(s[0]).value)
    else if |s| == 2 && HexDigit(s[0]).Some? && HexDigit(s[1]).Some? then
      Some(16 * HexDigit(s[0]).value + HexDigit(s[1]).value)
    else
      None
  }

  function StripHashes(h: string): string {
    if h != [] && h[0] == '#' then StripHashes(h[1..]) else h
  }

  /** Python's `s[i:j]`, which clamps its bounds to the string. */
  function Slice(s: string, i: nat, j: nat): string
    requires i <= j
  {
    var hi := if j <= |s| then j else |s|;
    if i <= hi then s[i..hi] else []
  }

  function Expand(h: string): string {
    if |h| == 3 then [h[0], h[0], h[1], h[1], h[2], h[2]] else h
  }

  function HexToRgb(h: string): Option<Rgb> {
    var digits := Expand(StripHashes(h));
    var r, g, b := ParseByte(Slice(digits, 0, 2)), ParseByte(Slice(digits, 2, 4)), ParseByte(Slice(digits, 4, 6));
    if r.Some? && g.Some? && b.Some? then Some(Rgb(r.value, g.value, b.value)) else None
  }

  function Hex2(b: Byte): string {
    [HexChar(b / 16), HexChar(b % 16)]
  }

  function RgbToHex(c: Rgb): string {
    "#" + Hex2(c.r) + Hex2(c.g) + Hex2(c.b)
  }

  lemma HexCharIsRead(d: nat)
    requires d < 16
    ensures HexDigit(HexChar(d)) == Some(d)
    ensures HexChar(d) != '#'
  {
  }

  lemma ByteRoundTrip(b: Byte)
    ensures ParseByte(Hex2(b)) == Some(b)
  {
    HexCharIsRead(b / 16);
    HexCharIsRead(b % 16);
  }

  /** What the script prints as a colour, it reads back as the same colour. */
  lemma HexRoundTrip(c: Rgb)
    ensures HexToRgb(RgbToHex(c)) == Some(c)
  {
    var h := RgbToHex(c);
    var digits := Hex2(c.r) + Hex2(c.g) + Hex2(c.b);
    HexCharIsRead(c.r / 16);
    assert h[1..] == digits;
    assert StripHashes(h) == StripHashes(h[1..]) == digits;
    assert Slice(digits, 0, 2) == Hex2(c.r);
    assert Slice(digits, 2, 4) == Hex2(c.g);
    assert Slice(digits, 4, 6) == Hex2(c.b);
    ByteRoundTrip(c.r);
    ByteRoundTrip(c.g);
    ByteRoundTrip(c.b);
  }

  /** Upper and lower case read alike, and a digit reads as its value. */
  lemma HexDigitsByValue(d: nat)
    requires d < 16
    ensures HexDigit("0123456789abcdef"[d]) == Some(d) == HexDigit("0123456789ABCDEF"[d])
  {
  }

  /** The short form doubles each digit, with or without its hash. */
  lemma ShortFormDoubles(x: char, y: char, z: char)
    requires HexDigit(x).Some? && HexDigit(y).Some? && HexDigit(z).Some?
    ensures HexToRgb([x, y, z]) == HexToRgb(['#', x, y, z])
         == Some(Rgb(17 * HexDigit(x).value, 17 * HexDigit(y).value, 17 * HexDigit(z).value))
  {
    var digits := [x, x, y, y, z, z];
    assert ['#', x, y, z][1..] == [x, y, z];
    assert Expand(StripHashes([x, y, z])) == digits && Expand(StripHashes(['#', x, y, z])) == digits;
    assert Slice(digits, 0, 2) == [x, x] && Slice(digits, 2, 4) == [y, y] && Slice(digits, 4, 6) == [z, z];
  }

  /** Six digits are read in pairs, whatever hashes precede them and whatever follows. */
  lemma PairsAreRead(a: string, rest: string)
    requires |a| == 6 && forall i | 0 <= i < 6 :: HexDigit(a[i]).Some?
    ensures HexToRgb(a + rest) == HexToRgb("#" + a + rest)
         == Some(Rgb(16 * HexDigit(a[0]).value + HexDigit(a[1]).value,
                     16 * HexDigit(a[2]).value + HexDigit(a[3]).value,
                     16 * HexDigit(a[4]).value + HexDigit(a[5]).value))
  {
    var digits := a + rest;
    assert ("#" + digits)[1..] == digits && "#" + a + rest == "#" + digits;
    assert StripHashes("#" + digits) == StripHashes(digits) == digits;
    assert Slice(digits, 0, 2) == [a[0], a[1]] && Slice(digits, 2, 4) == [a[2], a[3]] && Slice(digits, 4, 6) == [a[4], a[5]];
    hide StripHashes, Slice, HexDigit;
  }

  // ----- mixing -----

  /** Python's `round`: to the nearest integer, ties to the even one. */
  function RoundHalfEven(x: real): int {
    var low := x.Floor;
    var part := x - low as real;
    if part < 0.5 then low
    else if part > 0.5 then low + 1
    else if low % 2 == 0 then low
    else low + 1
  }

  lemma RoundIsMonotone(x: real, y: real)
    requires x <= y
    ensures RoundHalfEven(x) <= RoundHalfEven(y)
  {
    assert x.Floor <= y.Floor;
  }

  lemma RoundOfInteger(n: int)
    ensures RoundHalfEven(n as real) == n
  {
  }

  /** It is nearest, and even where two integers are. */
  lemma RoundIsNearest(x: real)
    ensures var r := RoundHalfEven(x); x - 0.5 <= r as real <= x + 0.5
    ensures var r := RoundHalfEven(x); r as real == x - 0.5 || r as real == x + 0.5 ==> r % 2 == 0
  {
  }

  function Clamp(x: real): Byte {
    var n := RoundHalfEven(x);
    if n < 0 then 0 else if n > 255 then 255 else n
  }

  /** The point at `t` on the way from `a` to `b`. */
  function Toward(a: Byte, b: Byte, t: real): real {
    a as real + (b - a) as real * t
  }

  function MixChannel(a: Byte, b: Byte, t: real): Byte {
    Clamp(Toward(a, b, t))
  }

  function Mix(a: string, b: string, t: real): Option<string> {
    var c, d := HexToRgb(a), HexToRgb(b);
    if c.Some? && d.Some? then Some(RgbToHex(MixRgb(c.value, d.value, t))) else None
  }

  function MixRgb(c: Rgb, d: Rgb, t: real): Rgb {
    Rgb(MixChannel(c.r, d.r, t), MixChannel(c.g, d.g, t), MixChannel(c.b, d.b, t))
  }

  /** A mixed channel is the byte nearest to the point at `t`. */
  lemma MixIsNearest(a: Byte, b: Byte, t: real)
    requires 0.0 <= t <= 1.0
    ensures var m := MixChannel(a, b, t) as real; Toward(a, b, t) - 0.5 <= m <= Toward(a, b, t) + 0.5
  {
    TowardStaysBetween(a, b, t);
    RoundIsNearest(Toward(a, b, t));
    RoundOfInteger(0);
    RoundOfInteger(255);
    RoundIsMonotone(0.0, Toward(a, b, t));
    RoundIsMonotone(Toward(a, b, t), 255.0);
    hide Toward, RoundHalfEven;
  }

  function PartOf(d: real, t: real): real { d * t }

  lemma PartIsAtMostAll(d: real, t: real)
    requires 0.0 <= d && 0.0 <= t <= 1.0
    ensures 0.0 <= PartOf(d, t) <= d
  {
  }

  /** `Toward` by the distance and the direction of its step. */
  lemma TowardSteps(a: Byte, b: Byte, t: real)
    ensures a <= b ==> Toward(a, b, t) == a as real + PartOf((b - a) as real, t)
    ensures b <= a ==> Toward(a, b, t) == a as real - PartOf((a - b) as real, t)
  {
    Negate((a - b) as real, t);
    assert (b - a) as real == -((a - b) as real);
  }

  lemma TowardStaysBetween(a: Byte, b: Byte, t: real)
    requires 0.0 <= t <= 1.0
    ensures 0.0 <= Toward(a, b, t) <= 255.0
  {
    hide Toward, PartOf;
    TowardSteps(a, b, t);
    if a <= b {
      PartIsAtMostAll((b - a) as real, t);
    } else {
      PartIsAtMostAll((a - b) as real, t);
    }
  }

  function Darken(h: string, t: real): Option<string> { Mix(h, "#000000", t) }

  function Lighten(h: string, t: real): Option<string> { Mix(h, "#ffffff", t) }

  lemma ExtremesAreRead()
    ensures HexToRgb("#000000") == Some(BLACK)
    ensures HexToRgb("#ffffff") == Some(WHITE)
  {
    assert RgbToHex(BLACK) == "#000000";
    assert RgbToHex(WHITE) == "#ffffff";
    HexRoundTrip(BLACK);
    HexRoundTrip(WHITE);
  }

  /** Mixing further toward black never raises a channel, toward white never lowers one. */
  lemma ChannelMovesWithAmount(a: Byte, t: real, u: real)
    requires 0.0 <= t <= u <= 1.0
    ensures MixChannel(a, 0, u) <= MixChannel(a, 0, t) <= a
    ensures a <= MixChannel(a, 255, t) <= MixChannel(a, 255, u)
  {
    RoundOfInteger(a);
    TowardMoves(a, t, u);
    RoundIsMonotone(Toward(a, 0, u), Toward(a, 0, t));
    RoundIsMonotone(Toward(a, 0, t), a as real);
    RoundIsMonotone(a as real, Toward(a, 255, t));
    RoundIsMonotone(Toward(a, 255, t), Toward(a, 255, u));
  }

  lemma TowardMoves(a: Byte, t: real, u: real)
    requires 0.0 <= t <= u
    ensures Toward(a, 0, u) <= Toward(a, 0, t) <= a as real
    ensures a as real <= Toward(a, 255, t) <= Toward(a, 255, u)
  {
    Scale(a as real, t, u);
    Scale((255 - a) as real, t, u);
    Negate(a as real, t);
    Negate(a as real, u);
    assert (0 - a) as real == -(a as real);
  }

  lemma Negate(x: real, t: real)
    ensures (-x) * t == -(x * t)
  {
  }

  lemma Scale(d: real, t: real, u: real)
    requires 0.0 <= d && 0.0 <= t <= u
    ensures 0.0 <= d * t <= d * u
  {
  }

  // ----- derived states -----

  const LIGHT_HOVER := 0.10
  const LIGHT_ACTIVE := 0.20
  const DARK_HOVER := 0.12
  const DARK_ACTIVE := 0.22

  /** A derived state: a dark palette lightens, any other darkens. */
  function Derive(h: string, dark: bool, amount: real): Option<string> {
    if dark then Lighten(h, amount) else Darken(h, amount)
  }

  function Hover(h: string, dark: bool): Option<string> {
    Derive(h, dark, if dark then DARK_HOVER else LIGHT_HOVER)
  }

  function Active(h: string, dark: bool): Option<string> {
    Derive(h, dark, if dark then DARK_ACTIVE else LIGHT_ACTIVE)
  }

  lemma PrintedGrey(b: Byte, digits: string)
    requires Hex2(b) == digits
    ensures RgbToHex(Rgb(b, b, b)) == "#" + digits + digits + digits
  {
  }

  /** The four amounts, seen at the extremes: white darkens by a tenth and a fifth, black lightens by 12 and 22 hundredths. */
  lemma {:induction false} DerivedAtTheExtremes()
    ensures Hover("#ffffff", false) == Some("#e6e6e6")
    ensures Active("#ffffff", false) == Some("#cccccc")
    ensures Hover("#000000", true) == Some("#1f1f1f")
    ensures Active("#000000", true) == Some("#383838")
  {
    ExtremesAreRead();
    hide HexToRgb;
    assert Hex2(230) == "e6" && Hex2(204) == "cc" && Hex2(31) == "1f" && Hex2(56) == "38";
    PrintedGrey(230, "e6");
    PrintedGrey(204, "cc");
    PrintedGrey(31, "1f");
    PrintedGrey(56, "38");
    assert MixRgb(WHITE, BLACK, 0.10) == Rgb(230, 230, 230) && MixRgb(WHITE, BLACK, 0.20) == Rgb(204, 204, 204);
    assert MixRgb(BLACK, WHITE, 0.12) == Rgb(31, 31, 31) && MixRgb(BLACK, WHITE, 0.22) == Rgb(56, 56, 56);
    hide RgbToHex, MixRgb, Hex2;
    assert "#" + "e6" + "e6" + "e6" == "#e6e6e6" && "#" + "cc" + "cc" + "cc" == "#cccccc";
    assert "#" + "1f" + "1f" + "1f" == "#1f1f1f" && "#" + "38" + "38" + "38" == "#383838";
  }

  function ExtremeFor(dark: bool): Rgb { if dark then WHITE else BLACK }

  /** Reading back a derived state gives the mixed colour itself. */
  lemma DerivedIsRead(h: string, dark: bool, amount: real)
    requires HexToRgb(h).Some?
    ensures Derive(h, dark, amount).Some?
    ensures HexToRgb(Derive(h, dark, amount).value) == Some(MixRgb(HexToRgb(h).value, ExtremeFor(dark), amount))
  {
    ExtremesAreRead();
    HexRoundTrip(MixRgb(HexToRgb(h).value, ExtremeFor(dark), amount));
  }

  /** The ratio of two colours as strings; `None` where the script would raise. */
  function HexContrast(pow: real -> real, fg: string, bg: string): Option<real>
    requires IsPow2_4(pow)
  {
    var c, d := HexToRgb(fg), HexToRgb(bg);
    if c.Some? && d.Some? then Some(Contrast(pow, c.value, d.value)) else None
  }

  /** Base, then a lesser, then a greater amount: luminance moves one way only. */
  lemma LuminanceMovesWithAmount(pow: real -> real, c: Rgb, t: real, u: real)
    requires IsPow2_4(pow)
    requires 0.0 <= t <= u <= 1.0
    ensures Luminance(pow, MixRgb(c, BLACK, u)) <= Luminance(pow, MixRgb(c, BLACK, t)) <= Luminance(pow, c)
    ensures Luminance(pow, c) <= Luminance(pow, MixRgb(c, WHITE, t)) <= Luminance(pow, MixRgb(c, WHITE, u))
    ensures Luminance(pow, MixRgb(c, BLACK, t)) == Luminance(pow, c) ==> MixRgb(c, BLACK, t) == c
    ensures Luminance(pow, MixRgb(c, WHITE, t)) == Luminance(pow, c) ==> MixRgb(c, WHITE, t) == c
  {
    ChannelMovesWithAmount(c.r, t, u);
    ChannelMovesWithAmount(c.g, t, u);
    ChannelMovesWithAmount(c.b, t, u);
    LuminanceIsChannelwiseMonotone(pow, MixRgb(c, BLACK, u), MixRgb(c, BLACK, t));
    LuminanceIsChannelwiseMonotone(pow, MixRgb(c, BLACK, t), c);
    LuminanceIsChannelwiseMonotone(pow, c, MixRgb(c, WHITE, t));
    LuminanceIsChannelwiseMonotone(pow, MixRgb(c, WHITE, t), MixRgb(c, WHITE, u));
  }

  /** `f` lies beyond the geometric mean of `b` and `s`, flares included, on the side `s` moves away from. */
  predicate BeyondMean(f: real, b: real, s: real, dark: bool) {
    if dark then Flare(f) * Flare(f) <= Flare(b) * Flare(s) else Flare(f) * Flare(f) >= Flare(b) * Flare(s)
  }

  /**
   A derived state keeps the contrast of its foreground exactly when it reads as the base colour
   itself, or the foreground is beyond the geometric mean of base and state.
   */
  lemma DerivedStateKeepsContrastIff(pow: real -> real, fg: string, base: string,
    dark: bool, amount: real)
    requires IsPow2_4(pow)
    requires HexToRgb(fg).Some? && HexToRgb(base).Some?
    requires 0.0 <= amount <= 1.0
    ensures Derive(base, dark, amount).Some?
    ensures var state := Derive(base, dark, amount).value;
            HexToRgb(state).Some? &&
            (HexContrast(pow, fg, state).value >= HexContrast(pow, fg, base).value <==>
             HexToRgb(state) == HexToRgb(base) ||
             BeyondMean(Luminance(pow, HexToRgb(fg).value), Luminance(pow, HexToRgb(base).value),
                        Luminance(pow, HexToRgb(state).value), dark))
  {
    DerivedIsRead(base, dark, amount);
    var c := HexToRgb(base).value;
    var state := MixRgb(c, ExtremeFor(dark), amount);
    LuminanceMovesWithAmount(pow, c, amount, amount);
    LuminanceRange(pow, HexToRgb(fg).value);
    LuminanceRange(pow, c);
    LuminanceRange(pow, state);
    MovedBackground(Luminance(pow, HexToRgb(fg).value), Luminance(pow, c), Luminance(pow, state), dark);
  }

  lemma MovedBackground(f: real, b: real, s: real, dark: bool)
    requires f >= 0.0 && b >= 0.0 && s >= 0.0
    requires if dark then b <= s else s <= b
    ensures Ratio(f, s) >= Ratio(f, b) <==> s == b || BeyondMean(f, b, s, dark)
  {
    if dark {
      LighterBackgroundKeepsContrastIff(f, b, s);
    } else {
      DarkerBackgroundKeepsContrastIff(f, b, s);
    }
  }

  /** `fg` is on the side of `base` the derived states move away from. */
  ghost predicate OnFarSide(pow: real -> real, fg: string, base: string, dark: bool)
    requires HexToRgb(fg).Some? && HexToRgb(base).Some?
  {
    var f, b := Luminance(pow, HexToRgb(fg).value), Luminance(pow, HexToRgb(base).value);
    if dark then f <= b else f >= b
  }

  /** Hovering, then pressing, never loses contrast when the foreground is on the far side. */
  lemma DerivedStatesNeverLoseContrast(pow: real -> real, fg: string, base: string, dark: bool)
    requires IsPow2_4(pow)
    requires HexToRgb(fg).Some? && HexToRgb(base).Some?
    requires OnFarSide(pow, fg, base, dark)
    ensures Hover(base, dark).Some? && Active(base, dark).Some?
    ensures HexContrast(pow, fg, base).Some?
    ensures HexContrast(pow, fg, Hover(base, dark).value).Some?
    ensures HexContrast(pow, fg, Active(base, dark).value).Some?
    ensures HexContrast(pow, fg, Active(base, dark).value).value
         >= HexContrast(pow, fg, Hover(base, dark).value).value
         >= HexContrast(pow, fg, base).value
  {
    var t, u := if dark then DARK_HOVER else LIGHT_HOVER, if dark then DARK_ACTIVE else LIGHT_ACTIVE;
    DerivedIsRead(base, dark, t);
    DerivedIsRead(base, dark, u);
    var c, f := HexToRgb(base).value, Luminance(pow, HexToRgb(fg).value);
    var hover, active := MixRgb(c, ExtremeFor(dark), t), MixRgb(c, ExtremeFor(dark), u);
    LuminanceMovesWithAmount(pow, c, t, u);
    LuminanceRange(pow, HexToRgb(fg).value);
    LuminanceRange(pow, c);
    LuminanceRange(pow, hover);
    LuminanceRange(pow, active);
    RatioGrowsAway(f, Luminance(pow, c), Luminance(pow, hover));
    RatioGrowsAway(f, Luminance(pow, hover), Luminance(pow, active));
  }

  lemma RatioGrowsAway(f: real, b: real, s: real)
    requires f >= 0.0 && b >= 0.0 && s >= 0.0
    requires s <= b <= f || f <= b <= s
    ensures Ratio(f, s) >= Ratio(f, b)
  {
    hide Ratio;
    ProductOrder(Flare(f), Flare(b), Flare(s));
    if s <= b <= f {
      DarkerBackgroundKeepsContrastIff(f, b, s);
    } else {
      LighterBackgroundKeepsContrastIff(f, b, s);
    }
  }

  /** Without that side condition contrast is lost: black on a white button, hovered. */
  lemma HoverCanLoseContrast(pow: real -> real)
    requires IsPow2_4(pow)
    ensures HexContrast(pow, "#000000", "#ffffff") == Some(21.0)
    ensures Hover("#ffffff", false).Some?
    ensures HexContrast(pow, "#000000", Hover("#ffffff", false).value).Some?
    ensures HexContrast(pow, "#000000", Hover("#ffffff", false).value).value < 21.0
  {
    ExtremesAreRead();
    DerivedIsRead("#ffffff", false, LIGHT_HOVER);
    var hover := MixRgb(WHITE, BLACK, LIGHT_HOVER);
    assert hover.r == Clamp(229.5) <= 230;
    hide Contrast, Hover;
    ContrastBounds(pow, BLACK, WHITE);
    ContrastBounds(pow, BLACK, hover);
  }
}
