/**
 * Pixel colours and the two ways the overlay compares them
 * (Cooldowns.Domain/Screen/Color.cs).
 */
module ScreenColor {

  /** One 8-bit colour channel. */
  type byte = x: int | 0 <= x < 256

  /** A signed 32-bit integer, the type `Color.ToArgb` returns. */
  type int32 = x: int | -0x8000_0000 <= x < 0x8000_0000

  /** A System.Drawing colour: alpha and the three colour channels. */
  datatype Argb = Argb(a: byte, r: byte, g: byte, b: byte)

  /** `Color.FromArgb(r, g, b)`: an opaque colour. */
  function FromRgb(r: byte, g: byte, b: byte): Argb
  {
    Argb(255, r, g, b)
  }

  /** A screen coordinate. */
  datatype Point = Point(x: int, y: int)

  /** `IScreen.GetPixelColor`: the colour currently shown at a point. */
  type Screen = Point -> Argb

  /** The per-channel tolerance of `IsMatch` (`colorTolerance`). */
  const ColorTolerance: int := 5

  /**
   * `Color.IsMatch`: every colour channel of the pixel lies strictly inside
   * the open band (target - 5, target + 5); alpha is not looked at.
   * The channels are promoted to int before the subtraction, so nothing wraps.
   */
  predicate IsMatch(pixel: Argb, target: Argb)
  {
    pixel.r > target.r - ColorTolerance && pixel.r < target.r + ColorTolerance &&
    pixel.g > target.g - ColorTolerance && pixel.g < target.g + ColorTolerance &&
    pixel.b > target.b - ColorTolerance && pixel.b < target.b + ColorTolerance
  }

  /** The unsigned value of the 32-bit word 0xAARRGGBB. */
  function PackedArgb(c: Argb): (u: int)
    ensures 0 <= u < 0x1_0000_0000
  {
    ((c.a * 0x100 + c.r) * 0x100 + c.g) * 0x100 + c.b
  }

  /** `Color.ToArgb`: the word 0xAARRGGBB read as a signed 32-bit integer. */
  function ToArgb(c: Argb): (v: int32)
    ensures (v + 0x1_0000_0000) % 0x1_0000_0000 == PackedArgb(c)
    ensures v < 0 <==> c.a >= 128
  {
    var u := PackedArgb(c);
    if u < 0x8000_0000 then u else u - 0x1_0000_0000
  }

  /** `Color.IsExactMatch`: the two packed ARGB values are equal. */
  predicate IsExactMatch(pixel: Argb, target: Argb)
  {
    ToArgb(pixel) == ToArgb(target)
  }

  function Abs(x: int): nat
  {
    if x < 0 then -x else x
  }

  /** `IsMatch` holds exactly when every colour channel differs by at most 4. */
  lemma IsMatchIff(pixel: Argb, target: Argb)
    ensures IsMatch(pixel, target) <==>
      Abs(pixel.r - target.r) <= 4 && Abs(pixel.g - target.g) <= 4 && Abs(pixel.b - target.b) <= 4
  {
  }

  /** A difference of exactly the tolerance on any one channel is already a mismatch. */
  lemma DifferenceOfFiveFails(pixel: Argb, target: Argb)
    requires Abs(pixel.r - target.r) == ColorTolerance
          || Abs(pixel.g - target.g) == ColorTolerance
          || Abs(pixel.b - target.b) == ColorTolerance
    ensures !IsMatch(pixel, target)
  {
  }

  /** `IsMatch` is reflexive and symmetric. */
  lemma IsMatchReflexiveSymmetric(p: Argb, q: Argb)
    ensures IsMatch(p, p)
    ensures IsMatch(p, q) <==> IsMatch(q, p)
  {
  }

  /** `IsMatch` ignores alpha; `IsExactMatch` does not. */
  lemma AlphaOnlyMattersToExactMatch(p: Argb, t: Argb, alpha: byte)
    ensures IsMatch(p.(a := alpha), t) <==> IsMatch(p, t)
    ensures p.a != alpha ==> !IsExactMatch(p.(a := alpha), p)
  {
    ExactMatchIff(p.(a := alpha), p);
  }

  /** Two base-256 numbers with the same value have the same digits. */
  lemma DigitsUnique(hi1: int, lo1: byte, hi2: int, lo2: byte)
    requires hi1 * 0x100 + lo1 == hi2 * 0x100 + lo2
    ensures hi1 == hi2 && lo1 == lo2
  {
  }

  /** The ARGB packing is injective. */
  lemma PackedArgbInjective(p: Argb, q: Argb)
    requires PackedArgb(p) == PackedArgb(q)
    ensures p == q
  {
    DigitsUnique((p.a * 0x100 + p.r) * 0x100 + p.g, p.b, (q.a * 0x100 + q.r) * 0x100 + q.g, q.b);
    DigitsUnique(p.a * 0x100 + p.r, p.g, q.a * 0x100 + q.r, q.g);
    DigitsUnique(p.a, p.r, q.a, q.r);
  }

  /** `IsExactMatch` holds exactly when alpha, red, green and blue are all equal. */
  lemma ExactMatchIff(p: Argb, q: Argb)
    ensures IsExactMatch(p, q) <==> p.a == q.a && p.r == q.r && p.g == q.g && p.b == q.b
  {
    if IsExactMatch(p, q) {
      PackedArgbInjective(p, q);
    }
  }

  /** `IsExactMatch` is an equivalence relation. */
  lemma ExactMatchEquivalence(p: Argb, q: Argb, s: Argb)
    ensures IsExactMatch(p, p)
    ensures IsExactMatch(p, q) ==> IsExactMatch(q, p)
    ensures IsExactMatch(p, q) && IsExactMatch(q, s) ==> IsExactMatch(p, s)
  {
  }

  /** An exact match is also a tolerant match. */
  lemma ExactMatchImpliesMatch(p: Argb, q: Argb)
    requires IsExactMatch(p, q)
    ensures IsMatch(p, q)
  {
    ExactMatchIff(p, q);
  }
}
