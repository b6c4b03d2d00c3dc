/** Colour packing (main.cpp `from_rgb`, `scale_color`, and the byte
    extraction of `from_func`). The doubles of the source are reals here. */
module ColorOps {
  import opened CArith

  /** A packed colour as the source stores it: a `uint32_t`, red in the low
      byte, green in the middle byte, blue in the third byte. */
  type Color = c: int | 0 <= c < 0x1_0000_0000

  /** One more than the largest colour whose only bits are the three channels. */
  const RgbLimit: int := 0x100_0000

  /** `c & 0xff` */
  function Red(c: Color): int { c % 0x100 }

  /** `(c >> 8) & 0xff` */
  function Green(c: Color): int { (c / 0x100) % 0x100 }

  /** `(c >> 16) & 0xff` */
  function Blue(c: Color): int { (c / 0x1_0000) % 0x100 }

  /** One channel of `from_rgb`: `x * 255` clamped into [0, 255] and
      truncated to an integer. The clamped value is never negative, so the
      truncation of the cast is the floor. */
  function Channel(x: real): (v: int)
    ensures 0 <= v <= 255
  {
    ClampReal(x * 255.0, 0.0, 255.0).Floor
  }

  /** `Channel` saturates below 0 and above 1, and in between it is the
      largest byte not above `x * 255`. */
  lemma ChannelMeaning(x: real)
    ensures x * 255.0 <= 0.0 ==> Channel(x) == 0
    ensures x * 255.0 >= 255.0 ==> Channel(x) == 255
    ensures 0.0 <= x * 255.0 <= 255.0 ==>
      Channel(x) as real <= x * 255.0 < Channel(x) as real + 1.0
  {
  }

  /** Three bytes packed into one word, red lowest. */
  function Pack(r: int, g: int, b: int): Color
    requires 0 <= r < 0x100 && 0 <= g < 0x100 && 0 <= b < 0x100
  {
    r + g * 0x100 + b * 0x1_0000
  }

  /** Unpacking a word made of three bytes and any higher part `h` gives
      back the three bytes. */
  lemma {:induction false} UnpackBytes(z: Color, r: int, g: int, b: int, h: nat)
    requires 0 <= r < 0x100 && 0 <= g < 0x100 && 0 <= b < 0x100
    requires z == r + g * 0x100 + b * 0x1_0000 + h * RgbLimit
    ensures Red(z) == r && Green(z) == g && Blue(z) == b
  {
    assert z == r + (g + (b + h * 0x100) * 0x100) * 0x100;
    assert z / 0x100 == g + (b + h * 0x100) * 0x100;
    assert z / 0x1_0000 == b + h * 0x100;
  }

  /** Unpacking a packed triple gives back its bytes, and nothing lies above
      the blue byte. */
  lemma {:induction false} UnpackPack(r: int, g: int, b: int)
    requires 0 <= r < 0x100 && 0 <= g < 0x100 && 0 <= b < 0x100
    ensures Pack(r, g, b) < RgbLimit
    ensures Red(Pack(r, g, b)) == r && Green(Pack(r, g, b)) == g && Blue(Pack(r, g, b)) == b
  {
    UnpackBytes(Pack(r, g, b), r, g, b, 0);
  }

  /** Every colour below `RgbLimit` is the packing of its own three bytes. */
  lemma {:induction false} PackUnpack(c: Color)
    requires c < RgbLimit
    ensures Pack(Red(c), Green(c), Blue(c)) == c
  {
    var hi := c / 0x100;
    assert c == Red(c) + hi * 0x100;
    assert hi == Green(c) + (hi / 0x100) * 0x100;
    assert hi / 0x100 == c / 0x1_0000;
    assert c / 0x1_0000 < 0x100;
  }

  /** `from_rgb`: each real channel in nominal [0, 1] becomes one byte. */
  function FromRgb(r: real, g: real, b: real): (z: Color)
    ensures z < RgbLimit
    ensures Red(z) == Channel(r) && Green(z) == Channel(g) && Blue(z) == Channel(b)
  {
    UnpackPack(Channel(r), Channel(g), Channel(b));
    Pack(Channel(r), Channel(g), Channel(b))
  }

  /** `from_rgb(2.0, -1.0, 0.5)`: red saturates, green clamps to zero,
      blue truncates 127.5 down. */
  lemma FromRgbExample()
    ensures Red(FromRgb(2.0, -1.0, 0.5)) == 255
    ensures Green(FromRgb(2.0, -1.0, 0.5)) == 0
    ensures Blue(FromRgb(2.0, -1.0, 0.5)) == 127
  {
    assert Channel(0.5) == 127 by {
      assert ClampReal(0.5 * 255.0, 0.0, 255.0) == 127.5;
    }
    assert Channel(2.0) == 255;
    assert Channel(-1.0) == 0;
    var z := FromRgb(2.0, -1.0, 0.5);
    assert Red(z) == Channel(2.0);
  }

  /** Dividing by 255 before `Channel` undoes its multiplication by 255. */
  lemma ChannelScaled(x: real)
    ensures Channel(x / 255.0) == ClampReal(x, 0.0, 255.0).Floor
  {
    assert x / 255.0 * 255.0 == x;
  }

  /** `from_rgb` of three values each divided by 255 packs those values
      clamped and truncated. */
  lemma FromRgbScaled(x: real, y: real, z: real)
    ensures Red(FromRgb(x / 255.0, y / 255.0, z / 255.0)) == ClampReal(x, 0.0, 255.0).Floor
    ensures Green(FromRgb(x / 255.0, y / 255.0, z / 255.0)) == ClampReal(y, 0.0, 255.0).Floor
    ensures Blue(FromRgb(x / 255.0, y / 255.0, z / 255.0)) == ClampReal(z, 0.0, 255.0).Floor
  {
    ChannelScaled(x);
    ChannelScaled(y);
    ChannelScaled(z);
  }

  /** The byte a channel value `v` (0..255) becomes after being multiplied by
      `factor` and packed again. */
  function ScaledByte(v: int, factor: real): (s: int)
    ensures 0 <= s <= 255
  {
    ClampReal(v as real * factor, 0.0, 255.0).Floor
  }

  /** `scale_color`: every byte of `base` multiplied by `factor`, then
      brought back to [0, 1] and packed with `from_rgb`; the result never has
      a top byte. What it does to each channel is `ScaleColorChannels`. */
  function ScaleColor(base: Color, factor: real): (c: Color)
    ensures c < RgbLimit
  {
    FromRgb(Red(base) as real * factor / 255.0,
            Green(base) as real * factor / 255.0,
            Blue(base) as real * factor / 255.0)
  }

  /** Each channel of `scale_color` is the base channel times `factor`,
      clamped into [0, 255] and truncated. */
  lemma ScaleColorChannels(base: Color, factor: real)
    ensures var c := ScaleColor(base, factor);
      Red(c) == ScaledByte(Red(base), factor) &&
      Green(c) == ScaledByte(Green(base), factor) &&
      Blue(c) == ScaledByte(Blue(base), factor)
  {
    var r := Red(base) as real * factor;
    var g := Green(base) as real * factor;
    var b := Blue(base) as real * factor;
    FromRgbScaled(r, g, b);
    ScaledByteIs(Red(base), factor);
    ScaledByteIs(Green(base), factor);
    ScaledByteIs(Blue(base), factor);
  }

  /** A factor in [0, 1] never brightens a channel. */
  lemma ScaledByteDims(v: int, factor: real)
    requires 0 <= v <= 255 && 0.0 <= factor <= 1.0
    ensures ScaledByte(v, factor) <= v
  {
    var x := v as real;
    var y := x * factor;
    MulAtMostOne(x, factor);
    assert y <= v as real;
    ClampFloorAtMost(y, v, 255);
    ScaledByteIs(v, factor);
  }

  /** A factor in [0, 1] dims each channel of a colour, or keeps it. */
  lemma ScaleColorDims(base: Color, factor: real)
    requires 0.0 <= factor <= 1.0
    ensures var c := ScaleColor(base, factor);
      Red(c) <= Red(base) && Green(c) <= Green(base) && Blue(c) <= Blue(base)
  {
    ScaleColorChannels(base, factor);
    ScaledByteDims(Red(base), factor);
    ScaledByteDims(Green(base), factor);
    ScaledByteDims(Blue(base), factor);
  }

  lemma ScaledByteIs(v: int, f: real)
    ensures ScaledByte(v, f) == ClampReal(v as real * f, 0.0, 255.0).Floor
  {
  }

  /** Two colours without a top byte are equal when their channels are. */
  lemma SameChannels(c: Color, d: Color)
    requires c < RgbLimit && d < RgbLimit
    requires Red(c) == Red(d) && Green(c) == Green(d) && Blue(c) == Blue(d)
    ensures c == d
  {
    PackUnpack(c);
    PackUnpack(d);
  }

  /** `ScaleColor` is determined by its three scaled bytes. */
  lemma SameScaledChannels(base: Color, factor: real, d: Color)
    requires d < RgbLimit
    requires Red(d) == ScaledByte(Red(base), factor)
    requires Green(d) == ScaledByte(Green(base), factor)
    requires Blue(d) == ScaledByte(Blue(base), factor)
    ensures ScaleColor(base, factor) == d
  {
    ScaleColorChannels(base, factor);
    SameChannels(ScaleColor(base, factor), d);
  }

  lemma ScaledByteUnit(v: int)
    requires 0 <= v <= 255
    ensures ScaledByte(v, 1.0) == v
  {
    ScaledByteIs(v, 1.0);
    assert v as real * 1.0 == v as real;
  }

  /** Scaling by 1 keeps the three channels and drops the unused top byte. */
  lemma {:induction false} ScaleColorUnit(base: Color)
    ensures ScaleColor(base, 1.0) == base % RgbLimit
  {
    var low: Color := base % RgbLimit;
    var h := base / RgbLimit;
    assert base == Red(low) + Green(low) * 0x100 + Blue(low) * 0x1_0000 + h * RgbLimit by {
      PackUnpack(low);
    }
    UnpackBytes(base, Red(low), Green(low), Blue(low), h);
    var c := ScaleColor(base, 1.0);
    ScaleColorChannels(base, 1.0);
    assert Red(c) == Red(low) by {
      ScaledByteUnit(Red(base));
    }
    assert Green(c) == Green(low) by {
      ScaledByteUnit(Green(base));
    }
    assert Blue(c) == Blue(low) by {
      ScaledByteUnit(Blue(base));
    }
    SameChannels(c, low);
  }

  /** Scaling by 0 (or any non-positive factor) turns every colour off. */
  lemma {:induction false} ScaleColorOff(base: Color, factor: real)
    requires factor <= 0.0
    ensures ScaleColor(base, factor) == 0
  {
    ScaledByteOff(Red(base), factor);
    ScaledByteOff(Green(base), factor);
    ScaledByteOff(Blue(base), factor);
    SameScaledChannels(base, factor, 0);
  }

  lemma ScaledByteOff(v: int, f: real)
    requires 0 <= v && f <= 0.0
    ensures ScaledByte(v, f) == 0
  {
    var x := v as real;
    var y := x * f;
    MulNonPositive(x, f);
    assert y <= 0.0;
    ScaledByteIs(v, f);
    assert ClampReal(y, 0.0, 255.0) == 0.0;
  }

}
