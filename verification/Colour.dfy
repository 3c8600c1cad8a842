/** Hue and saturation to RGB (zigbee_integration.rs) and back (http.rs), over the reals. */
module Colour {
  import opened Text

  datatype Rgb = Rgb(r: real, g: real, b: real)

  datatype Hs = Hs(hue: real, saturation: real)

  /** A float cast to an unsigned integer saturates at zero. */
  function ToUnsigned(x: int): nat {
    if x < 0 then 0 else x
  }

  /** hs_to_rgb before rounding: channels between 0 and 1, the largest of them 1. */
  function HsToRgb(c: Hs): Rgb {
    var s := c.saturation / 100.0;
    var h := c.hue / 60.0;
    var i := ToUnsigned(h.Floor);
    var f := h - i as real;
    var p := 1.0 - s;
    var q := 1.0 - s * f;
    var t := 1.0 - s * (1.0 - f);
    match i % 6
    case 0 => Rgb(1.0, t, p)
    case 1 => Rgb(q, 1.0, p)
    case 2 => Rgb(p, 1.0, t)
    case 3 => Rgb(p, q, 1.0)
    case 4 => Rgb(t, p, 1.0)
    case _ => Rgb(1.0, p, q)
  }

  /** `%` on floats keeps the sign of the dividend. */
  function Remainder(x: real, y: real): real
    requires y > 0.0
  {
    if x >= 0.0 then x - y * (x / y).Floor as real else x + y * (-x / y).Floor as real
  }

  /** rgb_to_hs on channels already divided by 255. */
  function RgbToHs(c: Rgb): Hs {
    var max := Max(Max(c.r, c.g), c.b);
    var min := Min(Min(c.r, c.g), c.b);
    var delta := max - min;
    var s := if max == 0.0 then 0.0 else delta / max;
    var h := if delta == 0.0 then 0.0
             else if max == c.r then 60.0 * Remainder((c.g - c.b) / delta, 6.0)
             else if max == c.g then 60.0 * ((c.b - c.r) / delta + 2.0)
             else 60.0 * ((c.r - c.g) / delta + 4.0);
    Hs(if h < 0.0 then h + 360.0 else h, s * 100.0)
  }

  // ---------------------------------------------------------------------------
  // The reader, by which channel is largest. The hue is given by a fraction y of delta.
  // ---------------------------------------------------------------------------

  lemma RealQuotient(a: real, y: real, d: real)
    requires d != 0.0 && a == y * d
    ensures a / d == y
  {
  }

  lemma SmallRemainder(x: real)
    requires -6.0 < x < 6.0
    ensures Remainder(x, 6.0) == x
  {
    assert x >= 0.0 ==> (x / 6.0).Floor == 0;
    assert x < 0.0 ==> (-x / 6.0).Floor == 0;
  }

  lemma HueFromRed(c: Rgb, delta: real, y: real)
    requires c.r >= c.g && c.r >= c.b && c.r == 1.0 && delta == 1.0 - Min(c.g, c.b) > 0.0
    requires c.g - c.b == y * delta && -1.0 <= y <= 1.0
    ensures RgbToHs(c) == Hs(if y < 0.0 then 60.0 * y + 360.0 else 60.0 * y, delta * 100.0)
  {
    RealQuotient(c.g - c.b, y, delta);
    SmallRemainder(y);
  }

  lemma HueFromGreen(c: Rgb, delta: real, y: real)
    requires c.r < c.g && c.b <= c.g && c.g == 1.0 && delta == 1.0 - Min(c.r, c.b)
    requires c.b - c.r == y * delta && -1.0 <= y
    ensures RgbToHs(c) == Hs(60.0 * (y + 2.0), delta * 100.0)
  {
    RealQuotient(c.b - c.r, y, delta);
  }

  lemma HueFromBlue(c: Rgb, delta: real, y: real)
    requires c.r < c.b && c.g < c.b && c.b == 1.0 && delta == 1.0 - Min(c.r, c.g)
    requires c.r - c.g == y * delta && -1.0 <= y
    ensures RgbToHs(c) == Hs(60.0 * (y + 4.0), delta * 100.0)
  {
    RealQuotient(c.r - c.g, y, delta);
  }

  // ---------------------------------------------------------------------------
  // From hue and saturation and back
  // ---------------------------------------------------------------------------

  /** The channels of sector i for saturation s, where `rise` has been covered of the s to cover. */
  function Sector(s: real, rise: real, i: nat): Rgb {
    var p, q, t := 1.0 - s, 1.0 - rise, 1.0 - s + rise;
    match i
    case 0 => Rgb(1.0, t, p)
    case 1 => Rgb(q, 1.0, p)
    case 2 => Rgb(p, 1.0, t)
    case 3 => Rgb(p, q, 1.0)
    case 4 => Rgb(t, p, 1.0)
    case _ => Rgb(1.0, p, q)
  }

  lemma SectorIsRecovered(s: real, f: real, rise: real, i: nat)
    requires 0.0 < s <= 1.0 && 0.0 <= f < 1.0 && i < 6
    requires rise == f * s && 0.0 <= rise < s && (rise == 0.0 <==> f == 0.0)
    ensures RgbToHs(Sector(s, rise, i)) == Hs(60.0 * (i as real + f), s * 100.0)
  {
    var c := Sector(s, rise, i);
    assert rise - s == (f - 1.0) * s;
    match i
    case 0 => HueFromRed(c, s, f);
    case 1 => if f == 0.0 { HueFromRed(c, s, 1.0); } else { HueFromGreen(c, s, f - 1.0); }
    case 2 => HueFromGreen(c, s, f);
    case 3 => if f == 0.0 { HueFromGreen(c, s, 1.0); } else { HueFromBlue(c, s, f - 1.0); }
    case 4 => HueFromBlue(c, s, f);
    case _ => HueFromRed(c, s, f - 1.0);
  }

  lemma Positive(x: real, y: real)
    requires 0.0 < x && 0.0 < y
    ensures 0.0 < x * y
  {
  }

  lemma BelowWhole(s: real, f: real, rise: real)
    requires 0.0 < s && f < 1.0 && rise == f * s
    ensures rise < s
  {
    Positive(1.0 - f, s);
    var rest := (1.0 - f) * s;
    assert rest == s - f * s;
  }

  lemma AboveNothing(s: real, f: real, rise: real)
    requires 0.0 < s && 0.0 <= f && rise == f * s
    ensures 0.0 <= rise && (rise == 0.0 <==> f == 0.0)
  {
    if f > 0.0 {
      Positive(f, s);
    }
  }

  /** A position f between 0 and 1 has covered part of s, and nothing only at 0. */
  lemma Rise(s: real, f: real) returns (rise: real)
    requires 0.0 < s && 0.0 <= f < 1.0
    ensures rise == f * s && 0.0 <= rise < s && (rise == 0.0 <==> f == 0.0)
  {
    rise := f * s;
    BelowWhole(s, f, rise);
    AboveNothing(s, f, rise);
  }

  /** HsToRgb picks the sector and the position by dividing the hue by 60. */
  lemma HsToRgbBySector(c: Hs, s: real, f: real, rise: real, i: nat)
    requires i < 6 && 0.0 <= f < 1.0 && c == Hs(60.0 * (i as real + f), s * 100.0) && rise == f * s
    ensures HsToRgb(c) == Sector(s, rise, i)
  {
    assert c.hue / 60.0 == i as real + f;
    assert (c.hue / 60.0).Floor == i && i % 6 == i;
    assert c.saturation / 100.0 == s;
    assert s * f == rise && s * (1.0 - f) == s - rise;
  }

  lemma SplitHue(hue: real) returns (i: nat, f: real)
    requires 0.0 <= hue < 360.0
    ensures i < 6 && 0.0 <= f < 1.0 && hue == 60.0 * (i as real + f)
  {
    i := (hue / 60.0).Floor;
    f := hue / 60.0 - i as real;
  }

  /** From sector i back to the same hue and saturation. */
  lemma SectorRoundTrip(c: Hs, s: real, f: real, rise: real, i: nat)
    requires 0.0 < s <= 1.0 && 0.0 <= f < 1.0 && i < 6 && c == Hs(60.0 * (i as real + f), s * 100.0)
    requires rise == f * s && 0.0 <= rise < s && (rise == 0.0 <==> f == 0.0)
    ensures RgbToHs(HsToRgb(c)) == c
  {
    HsToRgbBySector(c, s, f, rise, i);
    SectorIsRecovered(s, f, rise, i);
  }

  lemma SplitSaturation(saturation: real) returns (s: real)
    requires 0.0 < saturation <= 100.0
    ensures 0.0 < s <= 1.0 && saturation == s * 100.0
  {
    s := saturation / 100.0;
  }

  lemma ColouredRoundTrip(c: Hs)
    requires 0.0 <= c.hue < 360.0 && 0.0 < c.saturation <= 100.0
    ensures RgbToHs(HsToRgb(c)) == c
  {
    var i, f := SplitHue(c.hue);
    var s := SplitSaturation(c.saturation);
    var rise := Rise(s, f);
    SectorRoundTrip(c, s, f, rise, i);
  }

  lemma GreyLosesHue(hue: real)
    requires 0.0 <= hue < 360.0
    ensures RgbToHs(HsToRgb(Hs(hue, 0.0))) == Hs(0.0, 0.0)
  {
    var i, f := SplitHue(hue);
    HsToRgbBySector(Hs(hue, 0.0), 0.0, f, 0.0, i);
    assert Sector(0.0, 0.0, i) == Rgb(1.0, 1.0, 1.0);
  }

  /** The round trip is exact for every hue and every saturation but 0, where the hue is lost. */
  lemma HsRoundTrip(c: Hs)
    requires 0.0 <= c.hue < 360.0 && 0.0 <= c.saturation <= 100.0
    ensures RgbToHs(HsToRgb(c)) == c <==> c.saturation > 0.0 || c.hue == 0.0
  {
    if c.saturation > 0.0 {
      ColouredRoundTrip(c);
    } else {
      assert c == Hs(c.hue, 0.0);
      GreyLosesHue(c.hue);
    }
  }

  // ---------------------------------------------------------------------------
  // What a hue and a saturation look like
  // ---------------------------------------------------------------------------

  /** x on a circle of six steps. */
  function OnCircle(x: real): real {
    x - 6.0 * (x / 6.0).Floor as real
  }

  /** What a channel gives up of the saturation, by where the hue is: it rises for a step from 0, stays, and falls for
      a step to 4. */
  function GivenUp(k: real): real {
    Max(0.0, Min(Min(k, 4.0 - k), 1.0))
  }

  function Remaining(s: real, givenUp: real): real {
    1.0 - s * givenUp
  }

  /** The textbook conversion at full value: each channel follows the same curve, shifted by n steps. */
  function Channel(s: real, h: real, n: real): real {
    Remaining(s, GivenUp(OnCircle(n + h)))
  }

  function InSector(k: nat, f: real): real {
    match k case 0 => f case 1 => 1.0 case 2 => 1.0 case 3 => 1.0 - f case _ => 0.0
  }

  lemma Turns(x: real, turns: int, k: real)
    requires x == 6.0 * turns as real + k && 0.0 <= k < 6.0
    ensures OnCircle(x) == k
  {
    assert (x / 6.0).Floor == turns;
  }

  /** The curve in sector k of the circle, at position f. */
  lemma CurveInSector(h: real, n: nat, turns: int, i: nat, f: real)
    requires n < 6 && i < 6 && 0.0 <= f < 1.0 && h == 6.0 * turns as real + i as real + f
    ensures GivenUp(OnCircle(n as real + h)) == InSector((n + i) % 6, f)
  {
    if n + i < 6 {
      Turns(n as real + h, turns, (n + i) as real + f);
    } else {
      Turns(n as real + h, turns + 1, (n + i - 6) as real + f);
    }
  }

  lemma SixthsOf(i: nat) returns (turns: nat, j: nat)
    ensures i == 6 * turns + j && j < 6 && j == i % 6
  {
    turns, j := i / 6, i % 6;
  }

  /** The sectors of hs_to_rgb are the textbook conversion, for every hue and saturation. */
  lemma HsToRgbIsTextbook(h: real, s: real)
    requires h >= 0.0
    ensures HsToRgb(Hs(60.0 * h, 100.0 * s)) == Rgb(Channel(s, h, 5.0), Channel(s, h, 3.0), Channel(s, h, 1.0))
  {
    var r, g, b := GivenUp(OnCircle(5.0 + h)), GivenUp(OnCircle(3.0 + h)), GivenUp(OnCircle(1.0 + h));
    ChannelsOf(Hs(60.0 * h, 100.0 * s), s, h, r, g, b);
  }

  lemma Curves(h: real, f: real, r: real, g: real, b: real) returns (i: nat)
    requires h >= 0.0 && f == h - h.Floor as real
    requires r == GivenUp(OnCircle(5.0 + h)) && g == GivenUp(OnCircle(3.0 + h)) && b == GivenUp(OnCircle(1.0 + h))
    ensures i == h.Floor % 6
    ensures r == InSector((5 + i) % 6, f) && g == InSector((3 + i) % 6, f) && b == InSector((1 + i) % 6, f)
  {
    var turns;
    turns, i := SixthsOf(h.Floor);
    CurveInSector(h, 5, turns, i, f);
    CurveInSector(h, 3, turns, i, f);
    CurveInSector(h, 1, turns, i, f);
  }

  lemma ChannelsOf(c: Hs, s: real, h: real, r: real, g: real, b: real)
    requires c == Hs(60.0 * h, 100.0 * s) && h >= 0.0
    requires r == GivenUp(OnCircle(5.0 + h)) && g == GivenUp(OnCircle(3.0 + h)) && b == GivenUp(OnCircle(1.0 + h))
    ensures HsToRgb(c) == Rgb(Remaining(s, r), Remaining(s, g), Remaining(s, b))
  {
    var f := h - h.Floor as real;
    var i := Curves(h, f, r, g, b);
    assert c.saturation / 100.0 == s && c.hue / 60.0 == h;
    BySector(c, s, h, f, i, r, g, b);
  }

  lemma BySector(c: Hs, s: real, h: real, f: real, i: nat, r: real, g: real, b: real)
    requires s == c.saturation / 100.0 && h == c.hue / 60.0 >= 0.0 && i == h.Floor % 6 && f == h - h.Floor as real
    requires r == InSector((5 + i) % 6, f) && g == InSector((3 + i) % 6, f) && b == InSector((1 + i) % 6, f)
    ensures HsToRgb(c) == Rgb(Remaining(s, r), Remaining(s, g), Remaining(s, b))
  {
  }

  // ---------------------------------------------------------------------------
  // From RGB and back
  // ---------------------------------------------------------------------------

  function Largest(c: Rgb): real {
    Max(Max(c.r, c.g), c.b)
  }

  /** Every channel in proportion, the largest at full brightness. */
  function Scaled(c: Rgb): Rgb
    requires Largest(c) > 0.0
  {
    Rgb(c.r / Largest(c), c.g / Largest(c), c.b / Largest(c))
  }

  predicate FullBrightness(c: Rgb) {
    c.r >= 0.0 && c.g >= 0.0 && c.b >= 0.0 && Largest(c) == 1.0
  }

  /** Every colour at full brightness, except white, lies in some sector. */
  lemma SectorOf(c: Rgb) returns (s: real, rise: real, i: nat)
    requires FullBrightness(c) && c != Rgb(1.0, 1.0, 1.0)
    ensures 0.0 < s <= 1.0 && 0.0 <= rise < s && i < 6 && c == Sector(s, rise, i)
  {
    s := 1.0 - Smallest(c);
    if c.r == 1.0 && c.g < 1.0 {
      if c.b <= c.g { i, rise := 0, c.g - c.b; } else { i, rise := 5, 1.0 - c.b; }
    } else if c.g == 1.0 && c.b < 1.0 {
      if c.b < c.r { i, rise := 1, 1.0 - c.r; } else { i, rise := 2, c.b - c.r; }
    } else {
      if c.r < c.g { i, rise := 3, 1.0 - c.g; } else { i, rise := 4, c.r - c.g; }
    }
  }

  lemma Position(s: real, rise: real) returns (f: real)
    requires 0.0 < s && 0.0 <= rise < s
    ensures rise == f * s && 0.0 <= f < 1.0 && (rise == 0.0 <==> f == 0.0)
  {
    f := rise / s;
    assert f * s == rise;
    PositionBound(s, rise, f);
  }

  lemma PositionBound(s: real, rise: real, f: real)
    requires 0.0 < s && rise == f * s && 0.0 <= rise < s
    ensures 0.0 <= f < 1.0 && (rise == 0.0 <==> f == 0.0)
  {
  }

  lemma FullBrightnessRoundTrip(c: Rgb)
    requires FullBrightness(c)
    ensures HsToRgb(RgbToHs(c)) == c
  {
    if c == Rgb(1.0, 1.0, 1.0) {
      assert RgbToHs(c) == Hs(60.0 * (0 as real + 0.0), 0.0 * 100.0);
      HsToRgbBySector(RgbToHs(c), 0.0, 0.0, 0.0, 0);
    } else {
      var s, rise, i := SectorOf(c);
      var f := Position(s, rise);
      SectorIsRecovered(s, f, rise, i);
      HsToRgbBySector(RgbToHs(c), s, f, rise, i);
    }
  }

  lemma Divided(a: real, b: real, m: real)
    requires m > 0.0
    ensures a < b <==> a / m < b / m
    ensures a == b <==> a / m == b / m
    ensures a / m - b / m == (a - b) / m
  {
  }

  lemma DividedBoth(a: real, d: real, m: real)
    requires m > 0.0 && d != 0.0
    ensures d / m != 0.0 && a / m / (d / m) == a / d
  {
    assert a / m == a / d * (d / m);
    RealQuotient(a / m, a / d, d / m);
  }

  function Smallest(c: Rgb): real {
    Min(Min(c.r, c.g), c.b)
  }

  lemma SameHs(c: Rgb, d: Rgb, max: real, min: real, max': real, min': real)
    requires max == Largest(c) > 0.0 && min == Smallest(c) && max' == Largest(d) > 0.0 && min' == Smallest(d)
    requires (max == c.r <==> max' == d.r) && (max == c.g <==> max' == d.g) && (max == min <==> max' == min')
    requires (max - min) / max == (max' - min') / max'
    requires max != min ==>
      && (c.g - c.b) / (max - min) == (d.g - d.b) / (max' - min')
      && (c.b - c.r) / (max - min) == (d.b - d.r) / (max' - min')
      && (c.r - c.g) / (max - min) == (d.r - d.g) / (max' - min')
    ensures RgbToHs(c) == RgbToHs(d)
  {
  }

  lemma SameRatio(x: real, y: real, delta: real, m: real)
    requires m > 0.0 && delta != 0.0
    ensures (x / m - y / m) / (delta / m) == (x - y) / delta
  {
    Divided(x, y, m);
    DividedBoth(x - y, delta, m);
  }

  /** Hue and saturation do not see brightness. */
  lemma BrightnessIsIgnored(c: Rgb)
    requires c.r >= 0.0 && c.g >= 0.0 && c.b >= 0.0 && Largest(c) > 0.0
    ensures RgbToHs(Scaled(c)) == RgbToHs(c) && FullBrightness(Scaled(c))
  {
    var m, min := Largest(c), Smallest(c);
    var d := Scaled(c);
    ScaledExtremes(c, m);
    RealQuotient(m, 1.0, m);
    Divided(m, min, m);
    Divided(m, c.r, m);
    Divided(m, c.g, m);
    if m != min {
      SameRatio(c.g, c.b, m - min, m);
      SameRatio(c.b, c.r, m - min, m);
      SameRatio(c.r, c.g, m - min, m);
    }
    assert 1.0 - min / m == (m - min) / m;
    SameHs(c, d, m, min, 1.0, min / m);
  }

  lemma ScaledExtremes(c: Rgb, m: real)
    requires m == Largest(c) > 0.0
    ensures Largest(Scaled(c)) == m / m
    ensures Smallest(Scaled(c)) == Smallest(c) / m
    ensures var d := Scaled(c); c.r >= 0.0 && c.g >= 0.0 && c.b >= 0.0 ==> d.r >= 0.0 && d.g >= 0.0 && d.b >= 0.0
  {
    Divided(c.r, c.g, m);
    Divided(c.g, c.b, m);
    Divided(c.b, c.r, m);
    Divided(c.g, c.r, m);
    Divided(c.b, c.g, m);
    Divided(c.r, c.b, m);
  }

  /** The way back keeps the proportions of the channels and raises the largest to full brightness. */
  lemma RgbRoundTrip(c: Rgb)
    requires c.r >= 0.0 && c.g >= 0.0 && c.b >= 0.0 && Largest(c) > 0.0
    ensures HsToRgb(RgbToHs(c)) == Scaled(c)
  {
    BrightnessIsIgnored(c);
    FullBrightnessRoundTrip(Scaled(c));
  }

  // ---------------------------------------------------------------------------
  // With the rounding to bytes
  // ---------------------------------------------------------------------------

  /** `(x * 255.0).round() as u8` for a channel between 0 and 1. */
  function ToByte(x: real): int {
    (x * 255.0 + 0.5).Floor
  }

  function HsToBytes(c: Hs): (int, int, int) {
    var x := HsToRgb(c);
    (ToByte(x.r), ToByte(x.g), ToByte(x.b))
  }

  function BytesToHs(r: Byte, g: Byte, b: Byte): Hs {
    RgbToHs(Rgb(r as real / 255.0, g as real / 255.0, b as real / 255.0))
  }

  function MaxByte(r: Byte, g: Byte, b: Byte): Byte {
    if r >= g && r >= b then r else if g >= b then g else b
  }

  /** x scaled by 255 / max and rounded. */
  function Brightened(x: Byte, max: Byte): int
    requires max > 0
  {
    (x as real * 255.0 / max as real + 0.5).Floor
  }

  lemma ScaledByte(x: Byte, max: Byte)
    requires 0 < max
    ensures x as real / 255.0 / (max as real / 255.0) == x as real / max as real
    ensures x as real / max as real * 255.0 == x as real * 255.0 / max as real
  {
    DividedBoth(x as real, max as real, 255.0);
    RealQuotient(x as real * 255.0, x as real / max as real * 255.0, max as real);
  }

  lemma LargestByte(r: Byte, g: Byte, b: Byte)
    ensures Largest(Rgb(r as real / 255.0, g as real / 255.0, b as real / 255.0)) == MaxByte(r, g, b) as real / 255.0
  {
  }

  /** Each channel comes back scaled by 255 / max and rounded. */
  lemma BytesRoundTrip(r: Byte, g: Byte, b: Byte)
    requires MaxByte(r, g, b) > 0
    ensures var max := MaxByte(r, g, b);
      HsToBytes(BytesToHs(r, g, b)) == (Brightened(r, max), Brightened(g, max), Brightened(b, max))
  {
    var c := Rgb(r as real / 255.0, g as real / 255.0, b as real / 255.0);
    var max := MaxByte(r, g, b);
    LargestByte(r, g, b);
    RgbRoundTrip(c);
    ScaledByte(r, max);
    ScaledByte(g, max);
    ScaledByte(b, max);
    assert Scaled(c) == Rgb(r as real / max as real, g as real / max as real, b as real / max as real);
  }

  /** A colour survives the way to hue and saturation and back exactly if it is at full brightness. Black, the
      one colour without a largest channel, comes back white. */
  lemma BytesSurvive(r: Byte, g: Byte, b: Byte)
    ensures HsToBytes(BytesToHs(r, g, b)) == (r as int, g as int, b as int) <==> MaxByte(r, g, b) == 255
    ensures HsToBytes(BytesToHs(0, 0, 0)) == (255, 255, 255)
  {
    BlackTurnsWhite();
    var max := MaxByte(r, g, b);
    if max == 0 {
      assert r == 0 && g == 0 && b == 0;
    } else {
      BytesRoundTrip(r, g, b);
      FullByte(max);
      var back := HsToBytes(BytesToHs(r, g, b));
      assert back.0 == 255 || back.1 == 255 || back.2 == 255;
      if max == 255 {
        UnscaledByte(r);
        UnscaledByte(g);
        UnscaledByte(b);
      }
    }
  }

  lemma BlackTurnsWhite()
    ensures HsToBytes(BytesToHs(0, 0, 0)) == (255, 255, 255)
  {
    HsToRgbBySector(Hs(0.0, 0.0), 0.0, 0.0, 0.0, 0);
    assert BytesToHs(0, 0, 0) == Hs(0.0, 0.0);
  }

  lemma FullByte(max: Byte)
    requires max > 0
    ensures Brightened(max, max) == 255
  {
    RealQuotient(max as real * 255.0, 255.0, max as real);
  }

  lemma UnscaledByte(x: Byte)
    ensures Brightened(x, 255) == x
  {
  }
}
