/** Threshold quantization, the quantization error, and the diffusion
    write that adds a weighted share of the error to a neighbour. */
module Quantization {
  import opened Grids

  /** The fixed threshold: samples strictly above it become white. */
  const Threshold: Byte := 128

  /** The output level for a sample. */
  function Quantize(v: Byte): (q: Byte)
    ensures IsLevel(q)
    ensures q == 255 <==> v > Threshold
  {
    if v > Threshold then 255 else 0
  }

  /** The error left behind when `v` is replaced by its output level:
      `v` is recovered as level plus error, the error never pushes a
      white pixel up nor a black pixel down, and it stays in [-126, 128]. */
  function QuantError(v: Byte): (e: int)
    ensures v == Quantize(v) + e
    ensures Quantize(v) == 255 ==> -126 <= e <= 0
    ensures Quantize(v) == 0 ==> 0 <= e <= 128
  {
    v - Quantize(v)
  }

  /** Quantize picks the nearer level for every sample except 128, which
      sits one step nearer to white but still goes to black. */
  lemma QuantizeNearest(v: Byte)
    ensures v != 128 ==> Dist(v, Quantize(v)) <= Dist(v, 255 - Quantize(v))
    ensures v == 128 ==> Quantize(v) == 0 && Dist(v, 255) < Dist(v, 0)
  {
  }

  function Dist(a: int, b: int): nat {
    if a < b then b - a else a - b
  }

  /** Saturation into the 8-bit range. */
  function Clamp(x: int): (b: Byte)
    ensures 0 <= x < 256 ==> b == x
    ensures x < 0 ==> b == 0
    ensures x >= 256 ==> b == 255
  {
    if x < 0 then 0 else if x > 255 then 255 else x
  }

  /** Conversion of a real to an integer by dropping the fraction, as a
      floating-point to integer conversion does. */
  function Truncate(x: real): int {
    if x >= 0.0 then x.Floor else -((-x).Floor)
  }

  /** The diffusion write: sample `v` plus its share `err * w / d` of the
      error, rounded down and brought back to an 8-bit sample. A
      non-negative error never lowers the sample, a non-positive one never
      raises it, and a zero share leaves it alone. */
  function Accumulate(v: Byte, err: int, w: nat, d: nat): (r: Byte)
    requires d > 0
    ensures err >= 0 ==> v <= r
    ensures err <= 0 ==> r <= v
    ensures err == 0 || w == 0 ==> r == v
  {
    ShareSign(err, w, d);
    Clamp(v + Share(err, w, d))
  }

  /** The error times `w / d`, rounded down. */
  function Share(err: int, w: nat, d: nat): int
    requires d > 0
  {
    (err * w) / d
  }

  lemma ShareSign(err: int, w: nat, d: nat)
    requires d > 0
    ensures err >= 0 ==> Share(err, w, d) >= 0
    ensures err <= 0 ==> Share(err, w, d) <= 0
    ensures err == 0 || w == 0 ==> Share(err, w, d) == 0
  {
    var x := err * w;
    if err >= 0 {
      assert x >= 0;
    }
    if err <= 0 {
      assert x <= 0;
    }
    if err == 0 || w == 0 {
      assert x == 0;
    }
  }

  /** The integer write agrees with the real-valued one the program
      performs: add the real share to the sample, drop the fraction,
      saturate. */
  lemma AccumulateIsRealSum(v: Byte, err: int, w: nat, d: nat)
    requires d > 0
    ensures Accumulate(v, err, w, d) == Clamp(Truncate(v as real + (err * w) as real / d as real))
  {
    var x := err * w;
    var share := x as real / d as real;
    FloorOfQuotient(x, d);
    var s := v as real + share;
    assert (v + x / d) as real <= s < (v + x / d + 1) as real;
    assert s.Floor == v + x / d;
  }

  /** Rounding a quotient of integers down is integer division. */
  lemma FloorOfQuotient(n: int, d: nat)
    requires d > 0
    ensures (n / d) as real <= n as real / d as real < (n / d + 1) as real
  {
    var q := n / d;
    var m := n % d;
    assert n == q * d + m && 0 <= m < d;
    assert n as real == q as real * d as real + m as real;
    assert n as real / d as real == q as real + m as real / d as real;
    assert 0.0 <= m as real / d as real < 1.0;
  }
}
