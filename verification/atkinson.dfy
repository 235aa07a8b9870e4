/** `ditherWithAtkinson`: Atkinson error diffusion over an RGBA buffer,
    in greyscale mode (one step per pixel, R copied into G and B) or colour
    mode (one step per sample). */
module Atkinson {
  import opened TypedArray

  predicate IsBinary(v: int) {
    v == 0 || v == 255
  }

  /** The visited sample's new value: black up to 128, white above. */
  function Threshold(v: byte): (out: byte)
    ensures IsBinary(out)
    ensures out == 0 <==> v <= 128
  {
    if v <= 128 then 0 else 255
  }

  /** The quantisation error: the difference between the visited value and
      its threshold, divided by 8 and rounded half up (JavaScript's rounding
      is `floor(x + 1/2)`). */
  function QuantisationError(v: byte): (err: int)
    ensures 8 * err - 4 <= v - Threshold(v) < 8 * err + 4
    ensures -16 <= err <= 16
  {
    (v - Threshold(v) + 4) / 8
  }

  /** Samples per step: 1 when drawing in colour, 4 (one pixel) otherwise.
      The source's reassignment of a false flag to false changes nothing for
      a boolean, so the flag is used as given. */
  function StepSize(drawColour: bool): (n: nat)
    ensures n == 1 <==> drawColour
    ensures n == 4 <==> !drawColour
  {
    if drawColour then 1 else 4
  }

  /** Sample offsets of the six neighbours that receive the error: one and
      two pixels right, the next row one pixel left, below, one pixel right,
      and two rows below. There is no column check, so the down-left
      neighbour of column 0 is the last pixel of the current row. */
  function Offsets(width: int): (offs: seq<int>)
    ensures |offs| == 6
    ensures 2 <= width ==> 4 <= offs[2]
    ensures width < 2 ==> offs[2] <= 0
  {
    [4, 8, 4 * width - 4, 4 * width, 4 * width + 4, 8 * width]
  }

  /** How many of the offsets `offs` from `cur` land on sample `t`. */
  function Hits(cur: int, offs: seq<int>, t: int): (n: nat)
    ensures n <= |offs|
    ensures 0 < n <==> t - cur in offs
  {
    if offs == [] then 0
    else (if cur + offs[0] == t then 1 else 0) + Hits(cur, offs[1..], t)
  }

  /** For each offset in turn, read the target sample (0 when it lies outside
      the buffer), add the error and store the sum with a clamped store. */
  function Diffuse(s: seq<byte>, cur: int, offs: seq<int>, err: int): (r: seq<byte>)
    ensures |r| == |s|
    decreases |offs|
  {
    if offs == [] then s
    else
      var t := cur + offs[0];
      Diffuse(Store(s, t, Load(s, t) + err), cur, offs[1..], err)
  }

  /** After diffusion each sample holds its old value plus the error once
      per offset that hit it, saturated once at 0 or 255. */
  lemma {:induction false} DiffuseEffect(s: seq<byte>, cur: int, offs: seq<int>, err: int, t: int)
    requires 0 <= t < |s|
    ensures Diffuse(s, cur, offs, err)[t] == Clamp(s[t] + Hits(cur, offs, t) * err)
    decreases |offs|
  {
    if offs == [] {
    } else {
      var o := cur + offs[0];
      var s1 := Store(s, o, Load(s, o) + err);
      var rest := Hits(cur, offs[1..], t);
      assert Diffuse(s, cur, offs, err) == Diffuse(s1, cur, offs[1..], err);
      DiffuseEffect(s1, cur, offs[1..], err, t);
      assert Diffuse(s, cur, offs, err)[t] == Clamp(s1[t] + rest * err);
      MulSign(rest, err);
      if o == t {
        assert Hits(cur, offs, t) == 1 + rest;
        Distribute(rest, err);
        assert s1[t] == Clamp(s[t] + err);
        ClampCompose(s[t], err, rest * err);
      } else {
        assert s1[t] == s[t];
        assert Hits(cur, offs, t) == rest;
      }
    }
  }

  lemma Distribute(n: int, e: int)
    ensures (1 + n) * e == e + n * e
  {
  }

  lemma MulSign(n: nat, e: int)
    ensures 0 <= e ==> 0 <= n * e
    ensures e <= 0 ==> n * e <= 0
    ensures n == 0 ==> n * e == 0
  {
  }

  /** One iteration of the loop at sample `cur`: threshold the visited
      sample, diffuse its error to the six targets, and in greyscale mode copy
      the visited sample's final value into the next two samples. */
  function DitherStep(s: seq<byte>, cur: int, width: int, drawColour: bool): (r: seq<byte>)
    ensures |r| == |s|
  {
    var v := Load(s, cur);
    var out := Threshold(v);
    var err := QuantisationError(v);
    var s1 := Store(s, cur, out);
    var s2 := Diffuse(s1, cur, Offsets(width), err);
    if drawColour then s2
    else
      var c := Load(s2, cur);
      Store(Store(s2, cur + 2, c), cur + 1, c)
  }

  /** What one step at an in-range sample does, for any width: the visited
      sample becomes its threshold plus whatever diffusion lands back on
      it; each other sample gains the error once per offset that hits it,
      saturated; and in greyscale mode the two following samples copy the
      visited one. Nothing else changes. */
  lemma DitherStepEffect(s: seq<byte>, cur: int, width: int, drawColour: bool, k: int)
    requires 0 <= cur < |s| && 0 <= k < |s|
    ensures |DitherStep(s, cur, width, drawColour)| == |s|
    ensures DitherStep(s, cur, width, drawColour)[k] ==
      var err := QuantisationError(s[cur]);
      if k == cur || (!drawColour && cur < k <= cur + 2) then
        Clamp(Threshold(s[cur]) + Hits(cur, Offsets(width), cur) * err)
      else
        Clamp(s[k] + Hits(cur, Offsets(width), k) * err)
  {
    var v := s[cur];
    var out := Threshold(v);
    var err := QuantisationError(v);
    var s1 := Store(s, cur, out);
    var offs := Offsets(width);
    var s2 := Diffuse(s1, cur, offs, err);
    DiffuseEffect(s1, cur, offs, err, k);
    DiffuseEffect(s1, cur, offs, err, cur);
    assert s1[cur] == out;
    if drawColour {
      assert DitherStep(s, cur, width, drawColour) == s2;
    } else {
      var c := Load(s2, cur);
      assert DitherStep(s, cur, width, drawColour) == Store(Store(s2, cur + 2, c), cur + 1, c);
    }
  }

  /** The extra iteration at `cur == data.length` (and any later index)
      quantises a 0, so its error is 0, and it stores nothing. */
  lemma DitherStepPastEnd(s: seq<byte>, cur: int, width: int, drawColour: bool)
    requires |s| <= cur
    ensures DitherStep(s, cur, width, drawColour) == s
  {
    var s2 := Diffuse(s, cur, Offsets(width), 0);
    forall k | 0 <= k < |s|
      ensures s2[k] == s[k]
    {
      DiffuseEffect(s, cur, Offsets(width), 0, k);
    }
  }

  /** With a width of at least two pixels every neighbour lies strictly
      after the visited sample, and every offset is a whole number of pixels. */
  lemma OffsetsForward(cur: int, width: int, k: int)
    ensures (k - cur) % 4 != 0 ==> k - cur !in Offsets(width)
    ensures 2 <= width && k <= cur ==> k - cur !in Offsets(width)
  {
    var o := Offsets(width);
    assert o[2] == 4 * (width - 1) && o[3] == 4 * width && o[4] == 4 * (width + 1) && o[5] == 4 * (2 * width);
    forall x | x in o
      ensures x % 4 == 0
    {
    }
  }

  /** A sample that is not the visited one, not one of its copies, and not
      a diffusion target is left alone by a step. */
  lemma StepKeeps(s: seq<byte>, cur: int, width: int, drawColour: bool, k: int)
    requires 0 <= cur < |s| && 0 <= k < |s|
    requires k != cur && (drawColour || !(cur < k <= cur + 2))
    requires k - cur !in Offsets(width)
    ensures DitherStep(s, cur, width, drawColour)[k] == s[k]
  {
    DitherStepEffect(s, cur, width, drawColour, k);
    MulSign(Hits(cur, Offsets(width), k), QuantisationError(s[cur]));
  }

  /** The two ways the dithering loop knows a sample is not a target: it is
      off the visited sample's pixel grid, or it lies before the visited
      sample and the width is at least two pixels. */
  lemma StepKeepsOffGrid(s: seq<byte>, cur: int, width: int, drawColour: bool, k: int)
    requires 0 <= cur < |s| && 0 <= k < |s|
    requires k != cur && (drawColour || !(cur < k <= cur + 2))
    requires (k - cur) % 4 != 0 || (2 <= width && k < cur)
    ensures DitherStep(s, cur, width, drawColour)[k] == s[k]
  {
    OffsetsForward(cur, width, k);
    StepKeeps(s, cur, width, drawColour, k);
  }

  /** With a width of at least two pixels, the visited sample (and in
      greyscale mode its two copies) ends as the plain threshold. */
  lemma StepQuantises(s: seq<byte>, cur: int, width: int, drawColour: bool, k: int)
    requires 0 <= cur < |s| && 0 <= k < |s| && 2 <= width
    requires k == cur || (!drawColour && cur < k <= cur + 2)
    ensures DitherStep(s, cur, width, drawColour)[k] == Threshold(s[cur])
  {
    DitherStepEffect(s, cur, width, drawColour, k);
    OffsetsForward(cur, width, cur);
    MulSign(Hits(cur, Offsets(width), cur), QuantisationError(s[cur]));
  }

  /** In greyscale mode the two samples after the visited one both receive
      its final value, for any width. */
  lemma StepCopies(s: seq<byte>, cur: int, width: int, k: int)
    requires 0 <= cur < |s| && 0 <= k < |s| && cur < k <= cur + 2
    ensures DitherStep(s, cur, width, false)[k] == DitherStep(s, cur, width, false)[cur]
  {
    DitherStepEffect(s, cur, width, false, k);
    DitherStepEffect(s, cur, width, false, cur);
  }

  /** The loop invariant of greyscale mode: alpha untouched, and every
      visited pixel with G equal to B (and, for width >= 2, R = G = B
      black or white). */
  ghost predicate GreyscaleProgress(s: seq<byte>, data: seq<byte>, cur: int, width: int) {
    && |s| == |data|
    && (forall k :: 0 <= k < |s| && k % 4 == 3 ==> s[k] == data[k])
    && (forall k :: 0 <= k < |s| && k < cur && k % 4 == 2 ==> s[k] == s[k - 1])
    && (2 <= width ==>
          forall k :: 0 <= k < |s| && k < cur && k % 4 != 3 ==> IsBinary(s[k]) && s[k] == s[k - k % 4])
  }

  /** The loop invariant of colour mode with width >= 2: every visited
      sample is black or white. */
  ghost predicate ColourProgress(s: seq<byte>, cur: int) {
    forall k :: 0 <= k < |s| && k < cur ==> IsBinary(s[k])
  }

  lemma GreyscaleStepProgress(s: seq<byte>, data: seq<byte>, cur: int, width: int)
    requires 0 <= cur && cur % 4 == 0
    requires GreyscaleProgress(s, data, cur, width)
    ensures GreyscaleProgress(DitherStep(s, cur, width, false), data, cur + 4, width)
  {
    var r := DitherStep(s, cur, width, false);
    if cur < |s| {
      forall k | 0 <= k < |s| && k % 4 == 3
        ensures r[k] == data[k]
      {
        StepKeepsOffGrid(s, cur, width, false, k);
      }
      forall k | 0 <= k < |s| && k < cur + 4 && k % 4 == 2
        ensures r[k] == r[k - 1]
      {
        if k < cur {
          StepKeepsOffGrid(s, cur, width, false, k);
          StepKeepsOffGrid(s, cur, width, false, k - 1);
        } else {
          StepCopies(s, cur, width, k);
          StepCopies(s, cur, width, k - 1);
        }
      }
      if 2 <= width {
        forall k | 0 <= k < |s| && k < cur + 4 && k % 4 != 3
          ensures IsBinary(r[k]) && r[k] == r[k - k % 4]
        {
          if k < cur {
            StepKeepsOffGrid(s, cur, width, false, k);
            StepKeepsOffGrid(s, cur, width, false, k - k % 4);
          } else {
            StepQuantises(s, cur, width, false, k);
            StepQuantises(s, cur, width, false, cur);
          }
        }
      }
    } else {
      DitherStepPastEnd(s, cur, width, false);
    }
  }

  lemma ColourStepProgress(s: seq<byte>, cur: int, width: int)
    requires 0 <= cur && 2 <= width
    requires ColourProgress(s, cur)
    ensures ColourProgress(DitherStep(s, cur, width, true), cur + 1)
  {
    var r := DitherStep(s, cur, width, true);
    if cur < |s| {
      forall k | 0 <= k < |s| && k < cur + 1
        ensures IsBinary(r[k])
      {
        if k < cur {
          StepKeepsOffGrid(s, cur, width, true, k);
        } else {
          StepQuantises(s, cur, width, true, k);
        }
      }
    } else {
      DitherStepPastEnd(s, cur, width, true);
    }
  }

  /** The loop of `ditherWithAtkinson` from sample `cur` on: one step at
      `cur`, then the rest from `cur + StepSize(drawColour)`, until the index
      passes the length (so an index equal to the length is still visited). */
  function DitherFrom(s: seq<byte>, cur: int, width: int, drawColour: bool): (r: seq<byte>)
    ensures |r| == |s|
    decreases |s| + 1 - cur
  {
    if |s| < cur then s
    else DitherFrom(DitherStep(s, cur, width, drawColour), cur + StepSize(drawColour), width, drawColour)
  }

  method DitherWithAtkinson(data: seq<byte>, imageWidth: int, drawColour: bool) returns (out: seq<byte>)
    ensures out == DitherFrom(data, 0, imageWidth, drawColour)
    ensures |out| == |data|
    // Greyscale mode, any width: alpha is never touched and G always equals B.
    ensures !drawColour ==> forall k :: 0 <= k < |out| && k % 4 == 3 ==> out[k] == data[k]
    ensures !drawColour ==> forall k :: 0 <= k < |out| && k % 4 == 2 ==> out[k] == out[k - 1]
    // Greyscale mode, width >= 2: R, G and B are equal and black or white.
    ensures !drawColour && 2 <= imageWidth ==>
      forall k :: 0 <= k < |out| && k % 4 != 3 ==> IsBinary(out[k]) && out[k] == out[k - k % 4]
    // Colour mode, width >= 2: every sample, alpha included, is black or white.
    ensures drawColour && 2 <= imageWidth ==> forall k :: 0 <= k < |out| ==> IsBinary(out[k])
  {
    var skip := StepSize(drawColour);
    out := data;
    var cur := 0;
    while cur <= |data|
      invariant 0 <= cur <= |data| + skip
      invariant |out| == |data|
      invariant DitherFrom(out, cur, imageWidth, drawColour) == DitherFrom(data, 0, imageWidth, drawColour)
      invariant !drawColour ==> cur % 4 == 0 && GreyscaleProgress(out, data, cur, imageWidth)
      invariant drawColour && 2 <= imageWidth ==> ColourProgress(out, cur)
    {
      if drawColour {
        if 2 <= imageWidth {
          ColourStepProgress(out, cur, imageWidth);
        }
      } else {
        GreyscaleStepProgress(out, data, cur, imageWidth);
      }
      assert DitherFrom(out, cur, imageWidth, drawColour)
          == DitherFrom(DitherStep(out, cur, imageWidth, drawColour), cur + skip, imageWidth, drawColour);
      out := DitherStep(out, cur, imageWidth, drawColour);
      cur := cur + skip;
    }
  }

}
