/** The 16-lane vector operations the kernels use, as operations on
    16-element slices of reals: loads and stores (plain and masked),
    lane-wise add, multiply-add, maximum and masked move, and the horizontal
    sum.  A mask register is modelled by its 16 lane flags; the partial-tile
    mask is computed as the 16-bit word the source computes and then read
    lane by lane. */
module Lanes {

  /** The number of lanes of a vector register. */
  const Width: nat := 16

  /** Bit `l` of a 16-bit mask word is set. */
  predicate Bit(mask: bv16, l: nat)
    requires l < Width
  {
    (mask >> l) & 1 == 1
  }

  /** The lane flags of a mask word. */
  function MaskFlags(mask: bv16): (f: seq<bool>)
    ensures |f| == Width && forall l :: 0 <= l < Width ==> (f[l] <==> Bit(mask, l))
  {
    seq(Width, l requires 0 <= l < Width => Bit(mask, l))
  }

  /** The partial-tile mask `0xFFFF >> (16 - m)`. */
  function Mask(m: nat): bv16
    requires 1 <= m <= Width
  {
    0xFFFF >> (Width - m)
  }

  /** The partial-tile mask enables exactly the low `m` lanes. */
  lemma MaskLowBits(m: nat)
    requires 1 <= m <= Width
    ensures forall l :: 0 <= l < Width ==> (MaskFlags(Mask(m))[l] <==> l < m)
  {
    forall l | 0 <= l < Width
      ensures Bit(Mask(m), l) <==> l < m
    {
      MaskBit(m, l);
    }
  }

  lemma MaskBit(m: nat, l: nat)
    requires 1 <= m <= Width && l < Width
    ensures Bit(Mask(m), l) <==> l < m
  {
  }

  /** Vector `v` of the first `n / 16` whole vectors of `n` elements ends
      within them. */
  lemma VectorFits(v: nat, vecs: nat, n: nat)
    requires vecs == n / Width && v < vecs
    ensures Width * v + Width <= Width * vecs <= n
  {
  }

  /** A full load of 16 consecutive elements. */
  function Load(s: seq<real>, off: nat): (v: seq<real>)
    requires off + Width <= |s|
    ensures |v| == Width && forall l :: 0 <= l < Width ==> v[l] == s[off + l]
  {
    s[off..off + Width]
  }

  /** A masked load: disabled lanes read as zero and touch no memory. */
  function MaskLoad(s: seq<real>, off: nat, mask: seq<bool>): (v: seq<real>)
    requires |mask| == Width
    requires forall l :: 0 <= l < Width && mask[l] ==> off + l < |s|
    ensures |v| == Width
    ensures forall l :: 0 <= l < Width ==> v[l] == if mask[l] then s[off + l] else 0.0
  {
    seq(Width, l requires 0 <= l < Width => if mask[l] then s[off + l] else 0.0)
  }

  /** A vector with all lanes zero. */
  function Zero(): (v: seq<real>)
    ensures |v| == Width && forall l :: 0 <= l < Width ==> v[l] == 0.0
  {
    seq(Width, _ => 0.0)
  }

  /** A vector with every lane equal to `x`. */
  function Splat(x: real): (v: seq<real>)
    ensures |v| == Width && forall l :: 0 <= l < Width ==> v[l] == x
  {
    seq(Width, _ => x)
  }

  function Add(x: seq<real>, y: seq<real>): (v: seq<real>)
    requires |x| == Width && |y| == Width
    ensures |v| == Width && forall l :: 0 <= l < Width ==> v[l] == x[l] + y[l]
  {
    seq(Width, l requires 0 <= l < Width => x[l] + y[l])
  }

  /** Fused multiply-add `x * y + acc`, lane by lane. */
  function Fma(x: seq<real>, y: seq<real>, acc: seq<real>): (v: seq<real>)
    requires |x| == Width && |y| == Width && |acc| == Width
    ensures |v| == Width && forall l :: 0 <= l < Width ==> v[l] == x[l] * y[l] + acc[l]
  {
    seq(Width, l requires 0 <= l < Width => x[l] * y[l] + acc[l])
  }

  function RealMax(x: real, y: real): real
  {
    if x >= y then x else y
  }

  /** Lane-wise maximum. */
  function MaxLanes(x: seq<real>, y: seq<real>): (v: seq<real>)
    requires |x| == Width && |y| == Width
    ensures |v| == Width && forall l :: 0 <= l < Width ==> v[l] == RealMax(x[l], y[l])
  {
    seq(Width, l requires 0 <= l < Width => RealMax(x[l], y[l]))
  }

  /** The mask of lanes where `x` is greater than `y`. */
  function GreaterMask(x: seq<real>, y: seq<real>): (mask: seq<bool>)
    requires |x| == Width && |y| == Width
    ensures |mask| == Width && forall l :: 0 <= l < Width ==> (mask[l] <==> x[l] > y[l])
  {
    seq(Width, l requires 0 <= l < Width => x[l] > y[l])
  }

  /** Masked move: disabled lanes become zero. */
  function MaskMove(mask: seq<bool>, x: seq<real>): (v: seq<real>)
    requires |mask| == Width && |x| == Width
    ensures |v| == Width && forall l :: 0 <= l < Width ==> v[l] == if mask[l] then x[l] else 0.0
  {
    seq(Width, l requires 0 <= l < Width => if mask[l] then x[l] else 0.0)
  }

  /** The sum of the lanes with index below `n`. */
  function SumLanes(v: seq<real>, n: nat): real
    requires n <= |v|
  {
    if n == 0 then 0.0 else SumLanes(v, n - 1) + v[n - 1]
  }

  /** The horizontal sum of all lanes.  The hardware adds in a tree order;
      over the reals every order gives this value. */
  function ReduceAdd(v: seq<real>): real
    requires |v| == Width
  {
    SumLanes(v, Width)
  }

  /** Summing a lane-wise sum is summing each vector. */
  lemma {:induction false} SumLanesAdd(x: seq<real>, y: seq<real>, n: nat)
    requires |x| == Width && |y| == Width && n <= Width
    ensures SumLanes(Add(x, y), n) == SumLanes(x, n) + SumLanes(y, n)
  {
    if n > 0 {
      SumLanesAdd(x, y, n - 1);
    }
  }
}
