/**
 * The hue arithmetic of image-manipulation/hue-shift.py: `shift_hue` turns a shift factor into
 * a whole number of hue steps and rotates every byte of the hue channel by it modulo 256,
 * leaving saturation and value alone; `even_hue_shift` makes one image per evenly spaced
 * factor `i / n`; `main` saves them as `si1.jpg`, `si2.jpg`, ... The RGB and HSV conversions
 * are PIL's and are not part of this model: images here are already split into channels.
 */
module HueShift {
  import opened Numeric
  import opened Strings

  newtype byte = b: int | 0 <= b < 256

  /** An image as its three HSV channels, one byte per pixel each. */
  datatype HsvImage = HsvImage(h: seq<byte>, s: seq<byte>, v: seq<byte>)

  /** `int(255 * shift_factor)`. */
  function ShiftValue(factor: real): int
  {
    Trunc(255.0 * factor)
  }

  /** `(i + shift_value) % 256`: the byte congruent to `i + shift` modulo 256. */
  function RotateHue(i: byte, shift: int): (r: byte)
    ensures (r as int - i as int - shift) % 256 == 0
  {
    ((i as int + shift) % 256) as byte
  }

  /** `shift_hue` on the channels: every hue rotated by the same amount, S and V untouched. */
  function ShiftHue(img: HsvImage, factor: real): (r: HsvImage)
    ensures r.s == img.s && r.v == img.v
    ensures |r.h| == |img.h|
    ensures forall k :: 0 <= k < |img.h| ==> r.h[k] == RotateHue(img.h[k], ShiftValue(factor))
  {
    var shift := ShiftValue(factor);
    HsvImage(seq(|img.h|, k requires 0 <= k < |img.h| => RotateHue(img.h[k], shift)), img.s, img.v)
  }

  /** A rotation is determined by its shift modulo 256. */
  lemma RotateHueMod(i: byte, a: int)
    ensures RotateHue(i, a) == RotateHue(i, a % 256)
  {
    var q := a / 256;
    assert a == q * 256 + a % 256;
    assert i as int + a == (i as int + a % 256) + q * 256;
  }

  /** Two rotations make one, by the sum of the shifts. */
  lemma RotateHueCompose(i: byte, a: int, b: int)
    ensures RotateHue(RotateHue(i, a), b) == RotateHue(i, a + b)
  {
    var x := i as int + a;
    var r := RotateHue(i, a);
    assert r as int == x % 256;
    assert x == (x / 256) * 256 + x % 256;
    assert i as int + a + b == (r as int + b) + (x / 256) * 256;
  }

  /** Rotating by zero changes nothing. */
  lemma RotateHueZero(i: byte)
    ensures RotateHue(i, 0) == i
  {
  }

  /** Rotating back by the same amount restores every hue. */
  lemma RotateHueInverse(i: byte, a: int)
    ensures RotateHue(RotateHue(i, a), -a) == i
  {
    RotateHueCompose(i, a, -a);
  }

  /** A rotation never maps two hues to one, so no hue information is lost. */
  lemma RotateHueInjective(i: byte, j: byte, a: int)
    requires RotateHue(i, a) == RotateHue(j, a)
    ensures i == j
  {
    RotateHueInverse(i, a);
    RotateHueInverse(j, a);
  }

  /** Shifting by `shift` steps and then by `-shift` steps gives back the image. */
  lemma ShiftHueUndone(img: HsvImage, f: real, g: real)
    requires ShiftValue(g) == -ShiftValue(f)
    ensures ShiftHue(ShiftHue(img, f), g) == img
  {
    var r := ShiftHue(ShiftHue(img, f), g);
    forall k | 0 <= k < |img.h|
      ensures r.h[k] == img.h[k]
    {
      RotateHueInverse(img.h[k], ShiftValue(f));
    }
  }

  /** The factor of variation `i` out of `n`. */
  function EvenFactor(i: nat, n: nat): real
    requires n > 0
  {
    i as real / n as real
  }

  /** `even_hue_shift`: one image per variation, variation `i` shifted by the factor `i / n`. */
  method EvenHueShift(img: HsvImage, numVariations: nat) returns (results: seq<HsvImage>)
    ensures |results| == numVariations
    ensures forall i :: 0 <= i < numVariations ==> results[i] == ShiftHue(img, EvenFactor(i, numVariations))
  {
    results := [];
    var i := 0;
    while i < numVariations
      invariant i <= numVariations
      invariant |results| == i
      invariant forall k :: 0 <= k < i ==> results[k] == ShiftHue(img, EvenFactor(k, numVariations))
    {
      var hueShiftFactor := i as real / numVariations as real;
      var shiftedImage := ShiftHue(img, hueShiftFactor);
      results := results + [shiftedImage];
      i := i + 1;
    }
  }

  /** The shift of variation `i` is `255 i / n` rounded down, so it lies in `0 .. 254`. */
  lemma EvenShiftClosedForm(i: nat, n: nat)
    requires i < n
    ensures ShiftValue(EvenFactor(i, n)) == (255 * i) / n
    ensures 0 <= ShiftValue(EvenFactor(i, n)) < 255
  {
    var q := (255 * i) / n;
    var rem := (255 * i) % n;
    ScaledFactor(i, n);
    QuotientSplit(255 * i, n);
    TruncOfSplit(q, rem as real / n as real);
    QuotientBelow(i, n);
  }

  /** `255 * (i / n)` is `(255 i) / n` in exact arithmetic. */
  lemma ScaledFactor(i: nat, n: nat)
    requires n > 0
    ensures 255.0 * EvenFactor(i, n) == (255 * i) as real / n as real
  {
  }

  /** `x / n` is its integer quotient plus the fraction `(x % n) / n`, which lies in `[0, 1)`. */
  lemma QuotientSplit(x: nat, n: nat)
    requires n > 0
    ensures x as real / n as real == (x / n) as real + (x % n) as real / n as real
    ensures 0.0 <= (x % n) as real / n as real < 1.0
  {
    var q, r := x / n, x % n;
    assert x == q * n + r;
    assert x as real == q as real * n as real + r as real;
  }

  /** Truncating a whole number plus a fraction in `[0, 1)` leaves the whole number. */
  lemma TruncOfSplit(q: nat, f: real)
    requires 0.0 <= f < 1.0
    ensures Trunc(q as real + f) == q
  {
  }

  /** `(255 i) / n < 255` when `i < n`. */
  lemma QuotientBelow(i: nat, n: nat)
    requires i < n
    ensures (255 * i) / n < 255
  {
    var q := (255 * i) / n;
    assert q * n <= 255 * i < 255 * n;
  }

  /** Variation 0 is the unshifted image. */
  lemma EvenShiftFirst(img: HsvImage, n: nat)
    requires n > 0
    ensures ShiftValue(EvenFactor(0, n)) == 0
    ensures ShiftHue(img, EvenFactor(0, n)) == img
  {
    var r := ShiftHue(img, EvenFactor(0, n));
    forall k | 0 <= k < |img.h|
      ensures r.h[k] == img.h[k]
    {
      RotateHueZero(img.h[k]);
    }
  }

  /** Later variations are shifted at least as far as earlier ones. */
  lemma EvenShiftMonotone(i: nat, j: nat, n: nat)
    requires i <= j < n
    ensures ShiftValue(EvenFactor(i, n)) <= ShiftValue(EvenFactor(j, n))
  {
    assert i as real / n as real <= j as real / n as real;
    TruncMonotone(255.0 * EvenFactor(i, n), 255.0 * EvenFactor(j, n));
  }

  /** The name result `i` is saved under, counting from 1. */
  function SavedName(i: nat): (r: string)
    ensures StartsWith(r, "si") && EndsWith(r, ".jpg")
  {
    EndsWithAppended("si" + NatToString(i + 1), ".jpg");
    "si" + NatToString(i + 1) + ".jpg"
  }

  /** No two results are saved under the same name. */
  lemma SavedNamesDistinct(i: nat, j: nat)
    requires SavedName(i) == SavedName(j)
    ensures i == j
  {
    NumberedNamesDistinct("si", i + 1, ".jpg", j + 1, ".jpg");
  }
}
