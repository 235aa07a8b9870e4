/** `convertToGreyscaleByLuminance`: one pass over the pixels of an RGBA
    buffer replacing R, G and B by their luminance. */
module Greyscale {
  import opened TypedArray

  /** The weighted sum 0.21 R + 0.71 G + 0.07 B, with the weights taken as
      exact decimals, rounded half up (JavaScript's rounding is
      `floor(x + 1/2)`). */
  function Luminance(r: byte, g: byte, b: byte): (y: byte)
    ensures 100 * y - 50 <= 21 * r + 71 * g + 7 * b < 100 * y + 50
    ensures y <= 252
  {
    (21 * r + 71 * g + 7 * b + 50) / 100
  }

  /** Luminance of the pixel whose red sample is at `base`, reading a
      channel past the end of the buffer as 0. */
  function PixelLuminance(s: seq<byte>, base: int): (y: byte)
    ensures 100 * y - 50 <= 21 * Load(s, base) + 71 * Load(s, base + 1) + 7 * Load(s, base + 2) < 100 * y + 50
    ensures y <= 252
  {
    Luminance(Load(s, base), Load(s, base + 1), Load(s, base + 2))
  }

  /** One iteration of the loop: the pixel's luminance is computed from its
      three colour samples first, then stored into the blue, green and red
      samples, in that order. */
  function GreyStep(s: seq<byte>, i: int): (r: seq<byte>)
    requires 0 <= i
    ensures |r| == |s|
    ensures forall k :: 0 <= k < |s| && !(i <= k < i + 3) ==> r[k] == s[k]
    ensures forall k :: 0 <= k < |s| && i <= k < i + 3 ==> r[k] == PixelLuminance(s, i)
  {
    var y := PixelLuminance(s, i);
    Store(Store(Store(s, i + 2, y), i + 1, y), i, y)
  }

  /** The extra iteration at `i == data.length` that the `<=` bound allows
      reads three zeros and stores nothing. */
  lemma GreyStepPastEnd(s: seq<byte>, i: int)
    requires |s| <= i
    ensures GreyStep(s, i) == s
  {
  }

  /** Every sample other than alpha ends as the luminance of the original
      R, G, B of its pixel (channels past the end read as 0, and are never
      written); alpha samples are never changed. */
  method ConvertToGreyscaleByLuminance(data: seq<byte>) returns (out: seq<byte>)
    ensures |out| == |data|
    ensures forall k :: 0 <= k < |out| && k % 4 == 3 ==> out[k] == data[k]
    ensures forall k :: 0 <= k < |out| && k % 4 != 3 ==> out[k] == PixelLuminance(data, k - k % 4)
    ensures forall k :: 0 <= k < |out| && k % 4 != 3 ==> out[k] <= 252
  {
    out := data;
    var i := 0;
    while i <= |data|
      invariant 0 <= i <= |data| + 4 && i % 4 == 0
      invariant |out| == |data|
      invariant forall k :: 0 <= k < |out| && i <= k ==> out[k] == data[k]
      invariant forall k :: 0 <= k < |out| && k % 4 == 3 ==> out[k] == data[k]
      invariant forall k :: 0 <= k < i && k < |out| && k % 4 != 3 ==> out[k] == PixelLuminance(data, k - k % 4)
    {
      assert PixelLuminance(out, i) == PixelLuminance(data, i);
      out := GreyStep(out, i);
      i := i + 4;
    }
  }

  /** A grey pixel keeps its value under a second pass only when it is at
      most 50: the weights add up to 0.99, so the pass is not idempotent. */
  lemma GreyFixedPoints(g: byte)
    ensures Luminance(g, g, g) == g <==> g <= 50
    ensures 50 < g ==> Luminance(g, g, g) < g
  {
    var y := Luminance(g, g, g);
    assert 100 * y - 50 <= 99 * g < 100 * y + 50;
  }

}
