/** Byte-valued typed arrays (`Uint8Array`, `Uint8ClampedArray`) as sequences.

    The source reads elements with a fallback to 0: an index outside
    `[0, length)` yields `undefined`, which the fallback turns into 0.
    A store into a `Uint8ClampedArray` clamps the value to 0..255, and a
    store outside `[0, length)` is silently dropped. All stored values in
    the source are integers, so the clamp never has to round. */
module TypedArray {

  type byte = x: int | 0 <= x < 256

  /** The value a clamped store keeps of an integer `x`. */
  function Clamp(x: int): (r: byte)
    ensures 0 <= x < 256 ==> r == x
    ensures x < 0 ==> r == 0
    ensures 255 < x ==> r == 255
  {
    if x < 0 then 0 else if 255 < x then 255 else x
  }

  /** A read that falls back to 0 when the index is outside the array. */
  function Load(s: seq<byte>, i: int): (r: byte)
    ensures 0 <= i < |s| ==> r == s[i]
    ensures !(0 <= i < |s|) ==> r == 0
  {
    if 0 <= i < |s| then s[i] else 0
  }

  /** A store into a `Uint8ClampedArray`: clamped, and dropped when the
      index is outside the array. */
  function Store(s: seq<byte>, i: int, v: int): (r: seq<byte>)
    ensures |r| == |s|
    ensures forall k :: 0 <= k < |s| && k != i ==> r[k] == s[k]
    ensures 0 <= i < |s| ==> r[i] == Clamp(v)
  {
    if 0 <= i < |s| then s[i := Clamp(v)] else s
  }

  /** Adding twice with the same sign saturates like adding once: the first
      clamp can only cut off what the second would cut off anyway. */
  lemma ClampCompose(x: byte, u: int, w: int)
    requires (0 <= u && 0 <= w) || (u <= 0 && w <= 0)
    ensures Clamp(Clamp(x + u) + w) == Clamp(x + u + w)
  {
  }

}
