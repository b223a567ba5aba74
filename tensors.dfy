/** The tensor record of tensor.c: a shape/stride descriptor and an element
    buffer, built by tensor_create and filled by tensor_set. */
module Tensors {
  import opened Common
  import opened Shapes

  /** A tensor.  The descriptor is written once by tensor_create and never
      changed afterwards; only the contents of `data` change. */
  class Tensor {
    const shape: seq<nat>
    const stride: seq<nat>
    const dataLen: nat
    const data: array<real>

    /** The descriptor is a well-formed four-slot layout and the buffer holds
        exactly one element per index tuple. */
    ghost predicate Valid()
    {
      |shape| == Rank && stride == StridesOf(shape)
      && dataLen == Prod(shape) && data.Length == dataLen
    }

    constructor (shape: seq<nat>, stride: seq<nat>, dataLen: nat)
      ensures this.shape == shape && this.stride == stride && this.dataLen == dataLen
      ensures fresh(data) && data.Length == dataLen
    {
      this.shape := shape;
      this.stride := stride;
      this.dataLen := dataLen;
      data := new real[dataLen];
    }
  }

  /** The suffix of the aligned shape after slot `k` is the suffix of the
      given extents after the corresponding position. */
  lemma AlignedSuffix(dims: seq<nat>, k: nat)
    requires |dims| <= Rank && Rank - |dims| <= k < Rank
    ensures AlignShape(dims)[k + 1..] == dims[k + 1 - (Rank - |dims|)..]
  {
  }

  /** Slots `from` to 3 hold the given extents, right-aligned, and the
      stride of each: 0 for an extent of 1, otherwise the product of the
      extents after it. */
  ghost predicate Written(dims: seq<nat>, sh: seq<nat>, st: seq<nat>, from: nat)
    requires |dims| <= Rank && |sh| == Rank && |st| == Rank
  {
    forall k :: from <= k < Rank && Rank - |dims| <= k ==>
      sh[k] == dims[|dims| - Rank + k]
      && st[k] == (if dims[|dims| - Rank + k] == 1 then 0 else Prod(dims[|dims| - Rank + k + 1..]))
  }

  /** Slots `from` up to `to` are padding: extent 1, stride 0. */
  ghost predicate Padded(sh: seq<nat>, st: seq<nat>, from: nat, to: nat)
    requires |sh| == Rank && |st| == Rank
  {
    forall k :: from <= k < to && k < Rank ==> sh[k] == 1 && st[k] == 0
  }

  /** One step of tensor_create's first loop: writing the next extent from
      the right, and the running product as its stride, extends the written
      slots by one. */
  lemma WriteSlot(dims: seq<nat>, sh: seq<nat>, st: seq<nat>, i: nat, currStride: nat)
    requires i < |dims| <= Rank && |sh| == Rank && |st| == Rank
    requires Written(dims, sh, st, Rank - i) && currStride == Prod(dims[|dims| - i..])
    ensures var dim := dims[|dims| - i - 1];
      Written(dims, sh[3 - i := dim], st[3 - i := if dim == 1 then 0 else currStride], Rank - (i + 1))
  {
    var n, dim := |dims|, dims[|dims| - i - 1];
    var sh', st' := sh[3 - i := dim], st[3 - i := if dim == 1 then 0 else currStride];
    forall k | Rank - (i + 1) <= k < Rank && Rank - n <= k
      ensures sh'[k] == dims[n - Rank + k]
      ensures st'[k] == (if dims[n - Rank + k] == 1 then 0 else Prod(dims[n - Rank + k + 1..]))
    {
      if k == 3 - i {
        assert n - Rank + k + 1 == n - i;
      }
    }
  }

  /** The product from position `j` on is the extent at `j` times the
      product after it. */
  lemma SuffixProd(dims: seq<nat>, j: nat)
    requires j < |dims|
    ensures Prod(dims[j..]) == dims[j] * Prod(dims[j + 1..])
  {
    assert dims[j..][1..] == dims[j + 1..];
  }

  /** One step of the second loop: one more padding slot. */
  lemma PadSlot(dims: seq<nat>, sh: seq<nat>, st: seq<nat>, i: nat)
    requires |dims| <= i < Rank && |sh| == Rank && |st| == Rank
    requires Written(dims, sh, st, Rank - |dims|) && Padded(sh, st, Rank - i, Rank - |dims|)
    ensures Written(dims, sh[3 - i := 1], st[3 - i := 0], Rank - |dims|)
    ensures Padded(sh[3 - i := 1], st[3 - i := 0], Rank - (i + 1), Rank - |dims|)
  {
  }

  /** What tensor_create's two loops leave in the shape and stride slots is
      the right-aligned layout and its strides. */
  lemma LayoutIsAligned(dims: seq<nat>, sh: seq<nat>, st: seq<nat>)
    requires |dims| <= Rank && |sh| == Rank && |st| == Rank
    requires Written(dims, sh, st, Rank - |dims|) && Padded(sh, st, 0, Rank - |dims|)
    ensures sh == AlignShape(dims) && st == StridesOf(sh)
  {
    var shape := AlignShape(dims);
    AlignShapeFacts(dims);
    forall k | 0 <= k < Rank
      ensures sh[k] == shape[k] && st[k] == StrideAt(shape, k)
    {
      if k >= Rank - |dims| {
        AlignedSuffix(dims, k);
      }
    }
    assert sh == shape;
  }

  /** tensor_create: `null` when more than four extents are given, otherwise
      a fresh tensor whose descriptor is the right-aligned layout of `dims`
      with the strides of that layout and room for all its elements. */
  method TensorCreate(dims: seq<nat>) returns (t: Tensor?)
    ensures t == null <==> |dims| > Rank
    ensures t != null ==> fresh(t) && fresh(t.data) && t.Valid()
    ensures t != null ==> t.shape == AlignShape(dims) && t.dataLen == Prod(dims)
  {
    if |dims| > Rank {
      return null;
    }
    var n := |dims|;
    var sh: seq<nat> := [0, 0, 0, 0];
    var st: seq<nat> := [0, 0, 0, 0];
    var currStride := 1;
    var i: nat := 0;
    while i < n
      invariant i <= n && |sh| == Rank && |st| == Rank
      invariant currStride == Prod(dims[n - i..]) && Written(dims, sh, st, Rank - i)
    {
      var dim := dims[n - i - 1];
      WriteSlot(dims, sh, st, i, currStride);
      SuffixProd(dims, n - i - 1);
      sh := sh[3 - i := dim];
      st := st[3 - i := if dim == 1 then 0 else currStride];
      currStride := currStride * dim;
      i := i + 1;
    }
    while i < Rank
      invariant n <= i <= Rank && |sh| == Rank && |st| == Rank
      invariant Written(dims, sh, st, Rank - n) && Padded(sh, st, Rank - i, Rank - n)
    {
      PadSlot(dims, sh, st, i);
      sh := sh[3 - i := 1];
      st := st[3 - i := 0];
      i := i + 1;
    }
    LayoutIsAligned(dims, sh, st);
    AlignShapeFacts(dims);
    assert dims[n - n..] == dims;
    t := new Tensor(sh, st, currStride);
  }

  /** tensor_set: every element becomes `v`. */
  method TensorSet(t: Tensor, v: real)
    requires t.Valid()
    modifies t.data
    ensures forall i :: 0 <= i < t.data.Length ==> t.data[i] == v
  {
    var i := 0;
    while i < t.dataLen
      invariant 0 <= i <= t.dataLen
      invariant forall j :: 0 <= j < i ==> t.data[j] == v
    {
      t.data[i] := v;
      i := i + 1;
    }
  }
}
