/** The Hue-Saturation-Intensity conversions of hsi.c. Images are three planes of n
    values each, stored one after the other: red, green, blue (or hue, saturation,
    intensity). */
module Hsi {
  import opened CMath
  import opened Planes

  /** The colour that rgb2hsi records as the maximum of a pixel. */
  datatype Channel = Red | Green | Blue

  /** getRGBMin: the smallest of the three values. */
  function GetRGBMin(red: real, green: real, blue: real): (m: real)
    ensures m <= red && m <= green && m <= blue
    ensures m == red || m == green || m == blue
  {
    MinOf(MinOf(red, green), blue)
  }

  /** getRGBMax: the largest of the three values. */
  function GetRGBMax(red: real, green: real, blue: real): (m: real)
    ensures m >= red && m >= green && m >= blue
    ensures m == red || m == green || m == blue
  {
    MaxOf(MaxOf(red, green), blue)
  }

  /** getRGBAverage: the mean of the three values, which lies between their minimum and
      their maximum. */
  function GetRGBAverage(red: real, green: real, blue: real): (avg: real)
    ensures GetRGBMin(red, green, blue) <= avg <= GetRGBMax(red, green, blue)
    ensures 3.0 * avg == red + green + blue
  {
    (red + green + blue) / 3.0
  }

  /** The channel rgb2hsi takes as the maximum. Red wins only when strictly above green;
      blue only when strictly above both; every other case is green. */
  function MaxChannel(red: real, green: real, blue: real): (c: Channel)
    ensures c == Red <==> red > green && red >= blue
    ensures c == Green <==> green >= red && green >= blue
    ensures c == Blue <==> blue > red && blue > green
  {
    var first := if red > green then Red else Green;
    var firstValue := if red > green then red else green;
    if firstValue < blue then Blue else first
  }

  function ChannelOf(c: Channel, red: real, green: real, blue: real): real
  {
    match c
    case Red => red
    case Green => green
    case Blue => blue
  }

  /** The channel chosen as the maximum does hold the largest value. */
  lemma MaxChannelHoldsMax(red: real, green: real, blue: real)
    ensures ChannelOf(MaxChannel(red, green, blue), red, green, blue) == GetRGBMax(red, green, blue)
  {
  }

  /** The hue quotient of a green-maximum pixel. For a grey pixel (all channels equal) the
      C code divides 0 by 0; the model takes the quotient to be 0 there. */
  function GreenQuotient(x: real, delta: real): real
  {
    if delta == 0.0 then 0.0 else x / delta
  }

  /** The green quotient of a spread no wider than delta lies in [-1, 1]. */
  lemma GreenQuotientBounds(x: real, delta: real)
    requires delta >= 0.0 && -delta <= x <= delta
    ensures -1.0 <= GreenQuotient(x, delta) <= 1.0
  {
    if delta != 0.0 {
      QuotientBounds(x, delta);
    }
  }

  /** The hue rgb2hsi stores for a pixel, by the channel that holds its maximum. The red
      case truncates the quotient to an int and takes C's `%` by 6, so a red maximum
      yields only 0 or -60 (the quotient lies in [-1, 1)); green gives [60, 180] and blue
      (180, 300). */
  function Hue(red: real, green: real, blue: real): (h: real)
    ensures MaxChannel(red, green, blue) == Red ==> h == 0.0 || h == -60.0
    ensures MaxChannel(red, green, blue) == Green ==> 60.0 <= h <= 180.0
    ensures MaxChannel(red, green, blue) == Blue ==> 180.0 < h < 300.0
  {
    var delta := GetRGBMax(red, green, blue) - GetRGBMin(red, green, blue);
    match MaxChannel(red, green, blue)
    case Red =>
      QuotientBounds(green - blue, delta);
      60.0 * (CMod(Trunc((green - blue) / delta), 6) as real)
    case Green =>
      GreenQuotientBounds(blue - red, delta);
      60.0 * (GreenQuotient(blue - red, delta) + 2.0)
    case Blue =>
      QuotientBounds(red - green, delta);
      QuotientBoundsStrict(red - green, delta);
      60.0 * ((red - green) / delta + 4.0)
  }

  /** The saturation rgb2hsi stores: the spread of the channels over the maximum, 0 for a
      black pixel. For non-negative channels it lies in [0, 1], and it is 0 exactly for
      grey pixels. */
  function Saturation(red: real, green: real, blue: real): (sat: real)
    ensures red >= 0.0 && green >= 0.0 && blue >= 0.0 ==> 0.0 <= sat <= 1.0
    ensures red >= 0.0 && green >= 0.0 && blue >= 0.0 ==> (sat == 0.0 <==> red == green == blue)
  {
    var max, min := GetRGBMax(red, green, blue), GetRGBMin(red, green, blue);
    if max == 0.0 then 0.0
    else
      SpreadRatio(max, min);
      (max - min) / max
  }

  /** The spread over a positive maximum lies in [0, 1] and vanishes only when the
      minimum equals the maximum. */
  lemma SpreadRatio(max: real, min: real)
    requires max != 0.0
    ensures 0.0 <= min <= max ==> 0.0 <= (max - min) / max <= 1.0
    ensures 0.0 <= min <= max ==> ((max - min) / max == 0.0 <==> min == max)
  {
    if 0.0 <= min <= max {
      QuotientBounds(max - min, max);
      var s := (max - min) / max;
      assert s * max == max - min;
      if s == 0.0 {
        assert max - min == 0.0 * max;
      }
    }
  }

  lemma QuotientBounds(x: real, d: real)
    requires d > 0.0 && -d <= x <= d
    ensures -1.0 <= x / d <= 1.0
    ensures x < d ==> x / d < 1.0
  {
    assert x / d * d == x;
  }

  lemma QuotientBoundsStrict(x: real, d: real)
    requires d > 0.0 && -d < x
    ensures -1.0 < x / d
  {
    assert x / d * d == x;
  }

  /** A grey pixel gets hue 120 (the model's value for the C code's 0/0), saturation 0 and
      its grey level as intensity. */
  lemma GreyPixelHsi(v: real)
    ensures Hue(v, v, v) == 120.0 && Saturation(v, v, v) == 0.0 && GetRGBMax(v, v, v) == v
  {
  }

  /** What rgb2hsi stores for one pixel: its hue, its saturation and, as intensity, the
      largest of its three channels. The hue lies in [-60, 300), and for non-negative
      channels the saturation lies in [0, 1]. */
  function ToHsi(c: Pixel): (hsi: Pixel)
    ensures -60.0 <= hsi.c0 < 300.0
    ensures c.c0 >= 0.0 && c.c1 >= 0.0 && c.c2 >= 0.0 ==> 0.0 <= hsi.c1 <= 1.0
    ensures hsi.c2 >= c.c0 && hsi.c2 >= c.c1 && hsi.c2 >= c.c2
    ensures hsi.c2 == c.c0 || hsi.c2 == c.c1 || hsi.c2 == c.c2
  {
    Pixel(Hue(c.c0, c.c1, c.c2), Saturation(c.c0, c.c1, c.c2), GetRGBMax(c.c0, c.c1, c.c2))
  }

  /** The body of rgb2hsi's loop: the maximum found by the if-chain is the largest
      channel, and the values stored are those of ToHsi. */
  method PixelToHsi(red: real, green: real, blue: real) returns (hue: real, sat: real, intensity: real)
    ensures Pixel(hue, sat, intensity) == ToHsi(Pixel(red, green, blue))
    ensures intensity >= red && intensity >= green && intensity >= blue
  {
    var minRgb := GetRGBMin(red, green, blue);
    var maxRgb, maxColor;
    if red > green {
      maxRgb, maxColor := red, Red;
    } else {
      maxRgb, maxColor := green, Green;
    }
    if maxRgb < blue {
      maxRgb, maxColor := blue, Blue;
    }
    assert maxColor == MaxChannel(red, green, blue);
    assert maxRgb == GetRGBMax(red, green, blue);
    var delta := maxRgb - minRgb;
    match maxColor {
      case Red =>
        hue := 60.0 * (CMod(Trunc((green - blue) / delta), 6) as real);
      case Green =>
        hue := 60.0 * (GreenQuotient(blue - red, delta) + 2.0);
      case Blue =>
        hue := 60.0 * ((red - green) / delta + 4.0);
    }
    sat := if maxRgb == 0.0 then 0.0 else delta / maxRgb;
    intensity := maxRgb;
  }

  /** rgb2hsi: a fresh image holding every pixel converted by ToHsi. */
  method Rgb2Hsi(rgb: array<real>, n: nat) returns (hsi: array<real>)
    requires 3 * n <= rgb.Length
    ensures fresh(hsi) && hsi[..] == MapPixels(rgb[..], n, ToHsi)
  {
    hsi := new real[3 * n];
    var i := 0;
    while i < n
      invariant 0 <= i <= n
      invariant forall x :: 0 <= x < i ==> PixelAt(hsi[..], n, x) == ToHsi(PixelAt(rgb[..], n, x))
    {
      ghost var before := hsi[..];
      var hue, sat, intensity := PixelToHsi(rgb[i], rgb[n + i], rgb[2 * n + i]);
      hsi[i] := hue;
      hsi[i + n] := sat;
      hsi[i + 2 * n] := intensity;
      forall x | 0 <= x < i
        ensures PixelAt(hsi[..], n, x) == PixelAt(before, n, x)
      {
      }
      assert PixelAt(hsi[..], n, i) == Pixel(hue, sat, intensity);
      assert PixelAt(rgb[..], n, i) == Pixel(rgb[i], rgb[n + i], rgb[2 * n + i]);
      i := i + 1;
    }
    PixelsDetermineImage(hsi[..], MapPixels(rgb[..], n, ToHsi), n);
  }

  /** The sixty-degree sector hsi2rgb dispatches on: 0 to 4 for hues in [0, 300), and 5
      for everything else, negative hues included. */
  function Sector(hue: real): (k: nat)
    ensures k <= 5
    ensures k == 5 <==> hue < 0.0 || hue >= 300.0
    ensures k < 5 ==> 60.0 * (k as real) <= hue < 60.0 * (k as real) + 60.0
  {
    if 0.0 <= hue < 60.0 then 0
    else if 60.0 <= hue < 120.0 then 1
    else if 120.0 <= hue < 180.0 then 2
    else if 180.0 <= hue < 240.0 then 3
    else if 240.0 <= hue < 300.0 then 4
    else 5
  }

  /** hsi2rgb's three channel values placed by sector: the dominant channel gets
      primary + tertiary, one neighbour secondary + tertiary, the last tertiary. The
      secondary is the primary scaled by `factor`. Whatever the factor, the three
      channels of a sector are distinct; the dominant one gets the intensity back, the
      tertiary one I (1 - S), and the secondary one I (1 - S) + factor I S, so that a
      pixel with saturation 0 comes out grey at its intensity, whatever its hue. */
  function Place(hue: real, sat: real, intensity: real, factor: int): (c: Pixel)
    ensures var k := Sector(hue);
      Dominant(k) != Tertiary(k) && Dominant(k) != Secondary(k) && Secondary(k) != Tertiary(k) &&
      ChannelOf(Dominant(k), c.c0, c.c1, c.c2) == intensity &&
      ChannelOf(Tertiary(k), c.c0, c.c1, c.c2) == intensity - intensity * sat &&
      ChannelOf(Secondary(k), c.c0, c.c1, c.c2) == intensity - intensity * sat + intensity * sat * (factor as real)
    ensures sat == 0.0 ==> c == Pixel(intensity, intensity, intensity)
  {
    var primary := intensity * sat;
    var secondary := primary * (factor as real);
    var tertiary := intensity - primary;
    match Sector(hue)
    case 0 => Pixel(primary + tertiary, secondary + tertiary, tertiary)
    case 1 => Pixel(secondary + tertiary, primary + tertiary, tertiary)
    case 2 => Pixel(tertiary, primary + tertiary, secondary + tertiary)
    case 3 => Pixel(tertiary, secondary + tertiary, primary + tertiary)
    case 4 => Pixel(secondary + tertiary, tertiary, primary + tertiary)
    case _ => Pixel(primary + tertiary, tertiary, secondary + tertiary)
  }

  /** The dominant channel of each sector. */
  function Dominant(k: nat): Channel
  {
    if k == 0 || k == 5 then Red else if k == 1 || k == 2 then Green else Blue
  }

  /** The tertiary channel of each sector. */
  function Tertiary(k: nat): Channel
  {
    if k == 0 || k == 1 then Blue else if k == 2 || k == 3 then Red else Green
  }

  /** The channel that receives the secondary value in each sector. */
  function Secondary(k: nat): Channel
  {
    if k == 1 || k == 4 then Red else if k == 0 || k == 3 then Green else Blue
  }

  /** The factor hsi2rgb line 99 computes, with the unparenthesised ABS macro expanded as
      the preprocessor does: the ternary's condition becomes `1 - (x < 0)`. The result is
      -1 in even sectors and -2 in odd ones, where `1 - |x % 2 - 1|` would give 0 and 1. */
  function SecondaryFactorAsWritten(hue: real): (f: int)
    ensures f == -1 || f == -2
    ensures f == -1 <==> CMod(Trunc(hue / 60.0), 2) == 0
  {
    var x := Trunc(hue / 60.0);
    var below: int := if CMod(x, 2) - 1 < 0 then 1 else 0;
    if 1 - below != 0 then CMod(-x, 2) - 1 else CMod(x, 2) - 1
  }

  /** The factor `1 - |x % 2 - 1|` with the absolute value taken of the whole operand:
      0 in even sectors and 1 in odd ones, for every non-negative hue. */
  function SecondaryFactor(hue: real): (f: int)
    ensures hue >= 0.0 ==> (f == 0 || f == 1)
    ensures hue >= 0.0 ==> (f == 1 <==> CMod(Trunc(hue / 60.0), 2) == 1)
  {
    1 - AbsInt(CMod(Trunc(hue / 60.0), 2) - 1)
  }

  /** hsi2rgb on one pixel as written: the dominant channel gets the intensity and the
      tertiary one I (1 - S), but the secondary one loses I S once or twice more where it
      should gain it or stay at I (1 - S). */
  function HsiToRgbAsWritten(hue: real, sat: real, intensity: real): (c: Pixel)
    ensures var k := Sector(hue);
      var p := intensity * sat;
      ChannelOf(Dominant(k), c.c0, c.c1, c.c2) == intensity &&
      ChannelOf(Tertiary(k), c.c0, c.c1, c.c2) == intensity - p &&
      (ChannelOf(Secondary(k), c.c0, c.c1, c.c2) == intensity - p - p ||
       ChannelOf(Secondary(k), c.c0, c.c1, c.c2) == intensity - p - 2.0 * p)
  {
    Place(hue, sat, intensity, SecondaryFactorAsWritten(hue))
  }

  /** hsi2rgb on one pixel with the ABS operand parenthesised: for a non-negative hue
      the secondary channel is I (1 - S) in even sectors and I in odd ones. */
  function HsiToRgb(hue: real, sat: real, intensity: real): (c: Pixel)
    ensures hue >= 0.0 ==> var k := Sector(hue);
      var p := intensity * sat;
      ChannelOf(Dominant(k), c.c0, c.c1, c.c2) == intensity &&
      ChannelOf(Tertiary(k), c.c0, c.c1, c.c2) == intensity - p &&
      ChannelOf(Secondary(k), c.c0, c.c1, c.c2) == (if CMod(Trunc(hue / 60.0), 2) == 1 then intensity else intensity - p)
  {
    Place(hue, sat, intensity, SecondaryFactor(hue))
  }

  /** As written, a pure red pixel does not survive rgb2hsi followed by hsi2rgb: green
      comes back as -1. */
  lemma PureRedAsWritten()
    ensures Hue(1.0, 0.0, 0.0) == 0.0 && Saturation(1.0, 0.0, 0.0) == 1.0
    ensures HsiToRgbAsWritten(0.0, 1.0, 1.0) == Pixel(1.0, -1.0, 0.0)
  {
    assert Trunc(0.0 / 60.0) == 0;
  }

  /** As written, whenever I S > 0 the secondary channel falls below the tertiary one,
      that is below I (1 - S): no saturated pixel keeps its channels in [I (1 - S), I]. */
  lemma SecondaryBelowTertiaryAsWritten(hue: real, sat: real, intensity: real)
    requires intensity * sat > 0.0
    ensures var c := HsiToRgbAsWritten(hue, sat, intensity);
      ChannelOf(Secondary(Sector(hue)), c.c0, c.c1, c.c2) < intensity - intensity * sat
  {
  }

  /** With the ABS operand parenthesised, each output channel of a pixel with a
      non-negative hue, saturation in [0, 1] and non-negative intensity lies in
      [I (1 - S), I], so in [0, I]. */
  lemma HsiToRgbInRange(hue: real, sat: real, intensity: real)
    requires hue >= 0.0 && 0.0 <= sat <= 1.0 && intensity >= 0.0
    ensures var c := HsiToRgb(hue, sat, intensity);
      var low := intensity - intensity * sat;
      low >= 0.0 &&
      low <= c.c0 <= intensity && low <= c.c1 <= intensity && low <= c.c2 <= intensity
  {
    var p := intensity * sat;
    assert 0.0 <= p <= intensity by {
      assert intensity * sat <= intensity * 1.0;
      assert intensity * sat >= intensity * 0.0;
    }
    var f := SecondaryFactor(hue);
    assert p * (f as real) == 0.0 || p * (f as real) == p;
  }

  /** With the ABS operand parenthesised, pure red, green and blue pixels of any positive
      level survive rgb2hsi followed by hsi2rgb. */
  lemma PureRedRoundTrip(v: real)
    requires v > 0.0
    ensures HsiToRgb(Hue(v, 0.0, 0.0), Saturation(v, 0.0, 0.0), GetRGBMax(v, 0.0, 0.0)) == Pixel(v, 0.0, 0.0)
  {
    assert Saturation(v, 0.0, 0.0) == 1.0 by { DivSelf(v); }
    assert Hue(v, 0.0, 0.0) == 0.0 by { assert (0.0 - 0.0) / v == 0.0; assert Trunc(0.0) == 0; }
    assert Trunc(0.0 / 60.0) == 0;
  }

  /** Even with the ABS operand parenthesised, rgb2hsi followed by hsi2rgb is not the
      identity: the red case truncates (g - b) / delta to an int, so orange (1, 1/2, 0)
      gets hue 0 and comes back as pure red. */
  lemma OrangeLosesHue()
    ensures ToHsi(Pixel(1.0, 0.5, 0.0)) == Pixel(0.0, 1.0, 1.0)
    ensures HsiToRgb(0.0, 1.0, 1.0) == Pixel(1.0, 0.0, 0.0)
  {
    assert GetRGBMax(1.0, 0.5, 0.0) == 1.0 && GetRGBMin(1.0, 0.5, 0.0) == 0.0;
    assert Hue(1.0, 0.5, 0.0) == 0.0 by {
      assert MaxChannel(1.0, 0.5, 0.0) == Red;
      assert Trunc((0.5 - 0.0) / 1.0) == 0;
    }
    assert Saturation(1.0, 0.5, 0.0) == 1.0;
    assert SecondaryFactor(0.0) == 0 by { assert Trunc(0.0 / 60.0) == 0; }
    assert Sector(0.0) == 0;
  }

  lemma DivSelf(v: real)
    requires v != 0.0
    ensures (v - 0.0) / v == 1.0
  {
    assert (v - 0.0) / v * v == v;
  }

  lemma PureGreenRoundTrip(v: real)
    requires v > 0.0
    ensures HsiToRgb(Hue(0.0, v, 0.0), Saturation(0.0, v, 0.0), GetRGBMax(0.0, v, 0.0)) == Pixel(0.0, v, 0.0)
  {
    assert Saturation(0.0, v, 0.0) == 1.0 by { DivSelf(v); }
    assert Hue(0.0, v, 0.0) == 120.0 by { assert (0.0 - 0.0) / v == 0.0; }
    assert Trunc(120.0 / 60.0) == 2;
  }

  lemma PureBlueRoundTrip(v: real)
    requires v > 0.0
    ensures HsiToRgb(Hue(0.0, 0.0, v), Saturation(0.0, 0.0, v), GetRGBMax(0.0, 0.0, v)) == Pixel(0.0, 0.0, v)
  {
    assert Saturation(0.0, 0.0, v) == 1.0 by { DivSelf(v); }
    assert Hue(0.0, 0.0, v) == 240.0 by { assert (0.0 - 0.0) / v == 0.0; }
    assert Trunc(240.0 / 60.0) == 4;
  }

  /** The body of hsi2rgb's loop: the six-way dispatch on the hue, with the secondary
      factor of line 99 as the preprocessor expands it. */
  method PixelToRgb(hue: real, sat: real, intensity: real) returns (red: real, green: real, blue: real)
    ensures Pixel(red, green, blue) == HsiToRgbAsWritten(hue, sat, intensity)
  {
    var primary := intensity * sat;
    var secondary := primary * (SecondaryFactorAsWritten(hue) as real);
    var tertiary := intensity - primary;
    if 0.0 <= hue && hue < 60.0 {
      red, green, blue := primary + tertiary, secondary + tertiary, tertiary;
      assert Pixel(red, green, blue) == Place(hue, sat, intensity, SecondaryFactorAsWritten(hue));
    } else if 60.0 <= hue && hue < 120.0 {
      green, red, blue := primary + tertiary, secondary + tertiary, tertiary;
      assert Pixel(red, green, blue) == Place(hue, sat, intensity, SecondaryFactorAsWritten(hue));
    } else if 120.0 <= hue && hue < 180.0 {
      green, blue, red := primary + tertiary, secondary + tertiary, tertiary;
      assert Pixel(red, green, blue) == Place(hue, sat, intensity, SecondaryFactorAsWritten(hue));
    } else if 180.0 <= hue && hue < 240.0 {
      blue, green, red := primary + tertiary, secondary + tertiary, tertiary;
      assert Pixel(red, green, blue) == Place(hue, sat, intensity, SecondaryFactorAsWritten(hue));
    } else if 240.0 <= hue && hue < 300.0 {
      blue, red, green := primary + tertiary, secondary + tertiary, tertiary;
      assert Pixel(red, green, blue) == Place(hue, sat, intensity, SecondaryFactorAsWritten(hue));
    } else {
      red, blue, green := primary + tertiary, secondary + tertiary, tertiary;
      assert Pixel(red, green, blue) == Place(hue, sat, intensity, SecondaryFactorAsWritten(hue));
    }
  }

  /** hsi2rgb as written on one pixel given as (hue, saturation, intensity); an
      unsaturated pixel comes out grey at its intensity. */
  function ToRgb(c: Pixel): (rgb: Pixel)
    ensures c.c1 == 0.0 ==> rgb == Pixel(c.c2, c.c2, c.c2)
  {
    HsiToRgbAsWritten(c.c0, c.c1, c.c2)
  }

  /** hsi2rgb: a fresh RGB image holding every pixel converted back by ToRgb. */
  method Hsi2Rgb(hsi: array<real>, n: nat) returns (rgb: array<real>)
    requires 3 * n <= hsi.Length
    ensures fresh(rgb) && rgb[..] == MapPixels(hsi[..], n, ToRgb)
  {
    rgb := new real[3 * n];
    var i := 0;
    while i < n
      invariant 0 <= i <= n
      invariant forall x :: 0 <= x < i ==> PixelAt(rgb[..], n, x) == ToRgb(PixelAt(hsi[..], n, x))
    {
      ghost var before := rgb[..];
      var red, green, blue := PixelToRgb(hsi[i], hsi[n + i], hsi[2 * n + i]);
      rgb[i] := red;
      rgb[i + n] := green;
      rgb[i + 2 * n] := blue;
      forall x | 0 <= x < i
        ensures PixelAt(rgb[..], n, x) == PixelAt(before, n, x)
      {
      }
      assert PixelAt(rgb[..], n, i) == Pixel(red, green, blue);
      assert PixelAt(hsi[..], n, i) == Pixel(hsi[i], hsi[n + i], hsi[2 * n + i]);
      i := i + 1;
    }
    PixelsDetermineImage(rgb[..], MapPixels(hsi[..], n, ToRgb), n);
  }
}
