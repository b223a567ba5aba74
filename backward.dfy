/** The gradient kernels of cpu_kernels.c: the broadcast add's backward
    pass, which brings the incoming gradient back to each operand's shape by
    summing over the axes that operand was broadcast along and then copies
    it over the operand's gradient. */
module Backward {
  import opened Common
  import opened Shapes
  import opened Tensors
  import opened Kernels
  import opened TensorOps
  import opened Matmul
  import opened Product
  import opened AtStore

  /** The axes on which one operand is narrower than the other: the axes
      _tensor_kernel_add_bwd reduces for it. */
  function Narrower(mine: seq<nat>, other: seq<nat>): (axes: seq<bool>)
    requires |mine| == Rank && |other| == Rank
    ensures |axes| == Rank
  {
    seq(Rank, i requires 0 <= i < Rank => mine[i] < other[i])
  }

  /** The shape after collapsing the flagged axes among the first `i`. */
  function ReducedShape(s: seq<nat>, axes: seq<bool>, i: nat): (r: seq<nat>)
    requires |s| == Rank && |axes| == Rank && i <= Rank
    ensures |r| == Rank
  {
    if i == 0 then s
    else if axes[i - 1] then ReducedShape(s, axes, i - 1)[i - 1 := 1]
    else ReducedShape(s, axes, i - 1)
  }

  /** Each extent of the collapsed shape: 1 on the flagged axes among the
      first `i`, the extent of `s` elsewhere. */
  lemma {:induction false} ReducedShapeAt(s: seq<nat>, axes: seq<bool>, i: nat, j: nat)
    requires |s| == Rank && |axes| == Rank && i <= Rank && j < Rank
    ensures ReducedShape(s, axes, i)[j] == if j < i && axes[j] then 1 else s[j]
  {
    if i > 0 {
      ReducedShapeAt(s, axes, i - 1, j);
    }
  }

  /** The buffer after reducing, in axis order, along the flagged axes among
      the first `i`. */
  ghost function ReduceAxes(src: seq<real>, s: seq<nat>, axes: seq<bool>, i: nat): (r: seq<real>)
    requires |s| == Rank && |axes| == Rank && i <= Rank
    ensures |src| == Prod(s) ==> |r| == Prod(ReducedShape(s, axes, i))
  {
    if i == 0 then src
    else if axes[i - 1] then ReduceSeq(ReduceAxes(src, s, axes, i - 1), ReducedShape(s, axes, i - 1), i - 1)
    else ReduceAxes(src, s, axes, i - 1)
  }

  /** With no axis flagged, nothing is reduced: the gradient of an add of two
      operands of the same shape is the incoming gradient itself. */
  lemma {:induction false} ReduceNoAxes(src: seq<real>, s: seq<nat>, axes: seq<bool>, i: nat)
    requires |s| == Rank && |axes| == Rank && i <= Rank
    requires forall j :: 0 <= j < Rank ==> !axes[j]
    ensures ReducedShape(s, axes, i) == s && ReduceAxes(src, s, axes, i) == src
  {
    if i > 0 {
      ReduceNoAxes(src, s, axes, i - 1);
    }
  }

  /** For operands with no empty axis, reducing the broadcast shape along
      the axes where an operand is narrower gives back exactly that operand's
      shape, so each copy at the end fills the operand's gradient from a
      buffer of the same size. */
  lemma AddBwdShapes(a: seq<nat>, b: seq<nat>, r: seq<nat>)
    requires |a| == Rank && |b| == Rank && AddShape(a, b) == Ok(r)
    requires forall i :: 0 <= i < Rank ==> a[i] > 0 && b[i] > 0
    ensures ReducedShape(r, Narrower(a, b), Rank) == a
    ensures ReducedShape(r, Narrower(b, a), Rank) == b
  {
    AddShapeSpec(a, b);
    CollapsedTo(r, a, b, Rank);
    CollapsedTo(r, b, a, Rank);
  }

  /** After `i` axes, the collapsed shape agrees with the narrower operand
      on those axes and with `r` on the rest. */
  lemma {:induction false} CollapsedTo(r: seq<nat>, mine: seq<nat>, other: seq<nat>, i: nat)
    requires |r| == Rank && |mine| == Rank && |other| == Rank && i <= Rank
    requires forall j :: 0 <= j < Rank ==> mine[j] > 0 && other[j] > 0
    requires forall j :: 0 <= j < Rank ==>
      (mine[j] == other[j] || mine[j] == 1 || other[j] == 1) && r[j] == if mine[j] == 1 then other[j] else mine[j]
    ensures forall j :: 0 <= j < Rank ==> ReducedShape(r, Narrower(mine, other), i)[j] == if j < i then mine[j] else r[j]
  {
    if i > 0 {
      CollapsedTo(r, mine, other, i - 1);
    }
  }

  /** memcpy of `n` elements between two distinct buffers. */
  method Copy(dst: array<real>, src: array<real>, n: nat)
    requires n <= dst.Length && n <= src.Length && dst != src
    modifies dst
    ensures dst[..n] == src[..n] && dst[n..] == old(dst[n..])
  {
    var i := 0;
    while i < n
      invariant 0 <= i <= n
      invariant dst[..i] == src[..i] && dst[n..] == old(dst[n..])
    {
      dst[i] := src[i];
      i := i + 1;
    }
  }

  /** The axis loop of _tensor_kernel_add_bwd: each operand's copy of the
      incoming gradient is reduced along the axes where that operand is
      narrower than the other. */
  method ReduceForOperands(aShape: seq<nat>, bShape: seq<nat>, inGrad: Tensor)
    returns (aRed: Tensor, bRed: Tensor)
    requires |aShape| == Rank && |bShape| == Rank && inGrad.Valid()
    ensures aRed.Valid() && (aRed.data == inGrad.data || fresh(aRed.data))
    ensures bRed.Valid() && (bRed.data == inGrad.data || fresh(bRed.data))
    ensures aRed.shape == ReducedShape(inGrad.shape, Narrower(aShape, bShape), Rank)
    ensures bRed.shape == ReducedShape(inGrad.shape, Narrower(bShape, aShape), Rank)
    ensures aRed.data[..] == ReduceAxes(inGrad.data[..], inGrad.shape, Narrower(aShape, bShape), Rank)
    ensures bRed.data[..] == ReduceAxes(inGrad.data[..], inGrad.shape, Narrower(bShape, aShape), Rank)
  {
    ghost var aAxes, bAxes := Narrower(aShape, bShape), Narrower(bShape, aShape);
    aRed, bRed := inGrad, inGrad;
    var i := 0;
    while i < Rank
      invariant 0 <= i <= Rank
      invariant aRed.Valid() && (aRed.data == inGrad.data || fresh(aRed.data))
      invariant bRed.Valid() && (bRed.data == inGrad.data || fresh(bRed.data))
      invariant aRed.shape == ReducedShape(inGrad.shape, aAxes, i)
      invariant bRed.shape == ReducedShape(inGrad.shape, bAxes, i)
      invariant aRed.data[..] == ReduceAxes(inGrad.data[..], inGrad.shape, aAxes, i)
      invariant bRed.data[..] == ReduceAxes(inGrad.data[..], inGrad.shape, bAxes, i)
    {
      if aShape[i] < bShape[i] {
        var reduced := TensorReduceAdd(aRed, i);
        aRed := reduced.value;
      } else if bShape[i] < aShape[i] {
        var reduced := TensorReduceAdd(bRed, i);
        bRed := reduced.value;
      }
      i := i + 1;
    }
  }

  /** The gradient _tensor_kernel_add_bwd gives an operand of shape `mine`
      added to one of shape `other`: the incoming gradient summed over the
      axes where `mine` is narrower, cut to `n` elements. */
  ghost function AddGrad(inGrad: seq<real>, inShape: seq<nat>, mine: seq<nat>, other: seq<nat>, n: nat): seq<real>
    requires |inShape| == Rank && |mine| == Rank && |other| == Rank
    requires |inGrad| == Prod(inShape) && n <= Prod(ReducedShape(inShape, Narrower(mine, other), Rank))
  {
    ReduceAxes(inGrad, inShape, Narrower(mine, other), Rank)[..n]
  }

  /** _tensor_kernel_add_bwd: each operand's gradient is overwritten (not
      accumulated) with the incoming gradient reduced to its shape.  When
      both operands share one gradient buffer (an add of a node to itself),
      the second copy wins, so that buffer holds the reduced gradient once,
      not twice. */
  method KernelAddBwd(aGrad: Tensor, bGrad: Tensor, inGrad: Tensor)
    requires aGrad.Valid() && bGrad.Valid() && inGrad.Valid()
    requires inGrad.data != aGrad.data && inGrad.data != bGrad.data
    requires aGrad.dataLen <= Prod(ReducedShape(inGrad.shape, Narrower(aGrad.shape, bGrad.shape), Rank))
    requires bGrad.dataLen <= Prod(ReducedShape(inGrad.shape, Narrower(bGrad.shape, aGrad.shape), Rank))
    modifies aGrad.data, bGrad.data
    ensures bGrad.data[..] == AddGrad(inGrad.data[..], inGrad.shape, bGrad.shape, aGrad.shape, bGrad.dataLen)
    ensures aGrad.data != bGrad.data ==>
      aGrad.data[..] == AddGrad(inGrad.data[..], inGrad.shape, aGrad.shape, bGrad.shape, aGrad.dataLen)
  {
    var aRed, bRed := ReduceForOperands(aGrad.shape, bGrad.shape, inGrad);
    Copy(aGrad.data, aRed.data, aGrad.dataLen);
    Copy(bGrad.data, bRed.data, bGrad.dataLen);
  }

  // ---------------------------------------------------------------------------
  // The product's backward pass

  /** The batch axes on which the result gradient is wider than an operand:
      the axes _tensor_kernel_mul_bwd reduces for that operand. */
  function BatchAxes(r: seq<nat>, mine: seq<nat>): (axes: seq<bool>)
    requires |r| == Rank && |mine| == Rank
    ensures |axes| == Rank
  {
    [r[0] != mine[0], r[1] != mine[1], false, false]
  }

  /** All elements of op(A) * op(B), laid out in the result shape `r`. */
  ghost function ProductSeq(A: seq<real>, sa: seq<nat>, B: seq<real>, sb: seq<nat>, r: seq<nat>,
                            at: bool, bt: bool): (v: seq<real>)
    requires |sa| == Rank && |sb| == Rank && |r| == Rank
    ensures |v| == Prod(r)
  {
    seq(Prod(r), p requires 0 <= p < Prod(r) => ProductAt(A, sa, B, sb, Unravel(p, r), at, bt))
  }

  /** The gradient of an operand of shape `mine`: the product op(A) * op(B)
      summed over the batch axes where the result gradient's shape `out` is
      wider than `mine`. */
  ghost function MulGrad(A: seq<real>, sa: seq<nat>, B: seq<real>, sb: seq<nat>, at: bool, bt: bool,
                         out: seq<nat>, mine: seq<nat>): seq<real>
    requires |sa| == Rank && |sb| == Rank && |out| == Rank && |mine| == Rank
    requires MulTrShape(sa, sb, at, bt).Ok? && |MulTrShape(sa, sb, at, bt).value| == Rank
  {
    var s := MulTrShape(sa, sb, at, bt).value;
    ReduceAxes(ProductSeq(A, sa, B, sb, s, at, bt), s, BatchAxes(out, mine), Rank)
  }

  /** The tensors of a product's backward pass: the operands, their
      gradients in their shapes, and the result gradient in the result
      shape, the gradients in buffers of their own. */
  ghost predicate MulBwdOperands(a: Tensor, aGrad: Tensor, b: Tensor, bGrad: Tensor, resultGrad: Tensor)
  {
    a.Valid() && aGrad.Valid() && b.Valid() && bGrad.Valid() && resultGrad.Valid()
    && aGrad.shape == a.shape && bGrad.shape == b.shape && MulShape(a.shape, b.shape) == Ok(resultGrad.shape)
    && aGrad.data != bGrad.data
    && aGrad.data != a.data && aGrad.data != b.data && aGrad.data != resultGrad.data
    && bGrad.data != a.data && bGrad.data != b.data && bGrad.data != resultGrad.data
  }

  /** The shapes of the backward pass of `a * b = r`: the product for each
      gradient is defined, and reducing it along the batch axes where `r`
      is wider gives back exactly the operand's shape; a batch axis where
      `r` is wider than an operand is an axis of extent 1 of that operand. */
  lemma MulBwdShapes(sa: seq<nat>, sb: seq<nat>, r: seq<nat>)
    requires |sa| == Rank && |sb| == Rank && MulShape(sa, sb) == Ok(r)
    ensures |r| == Rank
    ensures MulTrShape(r, sb, false, true).Ok? && |MulTrShape(r, sb, false, true).value| == Rank
    ensures MulTrShape(sa, r, true, false).Ok? && |MulTrShape(sa, r, true, false).value| == Rank
    ensures ReducedShape(MulTrShape(r, sb, false, true).value, BatchAxes(r, sa), Rank) == sa
    ensures ReducedShape(MulTrShape(sa, r, true, false).value, BatchAxes(r, sb), Rank) == sb
    ensures forall i :: 0 <= i < 2 && r[i] != sa[i] ==> sa[i] == 1
    ensures forall i :: 0 <= i < 2 && r[i] != sb[i] ==> sb[i] == 1
  {
    MulShapeIsPlainMulTr(sa, sb);
    MulTrShapeSpec(sa, sb, false, false);
    MulTrShapeSpec(r, sb, false, true);
    MulTrShapeSpec(sa, r, true, false);
    forall i | 0 <= i < 2
      ensures r[i] != sa[i] ==> sa[i] == 1
      ensures r[i] != sb[i] ==> sb[i] == 1
    {
    }
    var sl := MulTrShape(r, sb, false, true).value;
    var sr := MulTrShape(sa, r, true, false).value;
    forall j | 0 <= j < Rank
      ensures ReducedShape(sl, BatchAxes(r, sa), Rank)[j] == sa[j]
      ensures ReducedShape(sr, BatchAxes(r, sb), Rank)[j] == sb[j]
    {
      ReducedShapeAt(sl, BatchAxes(r, sa), Rank, j);
      ReducedShapeAt(sr, BatchAxes(r, sb), Rank, j);
    }
  }

  /** The last two axes are never reduced. */
  lemma BatchOnly(src: seq<real>, s: seq<nat>, r: seq<nat>, mine: seq<nat>)
    requires |s| == Rank && |r| == Rank && |mine| == Rank
    ensures ReducedShape(s, BatchAxes(r, mine), Rank) == ReducedShape(s, BatchAxes(r, mine), 2)
    ensures ReduceAxes(src, s, BatchAxes(r, mine), Rank) == ReduceAxes(src, s, BatchAxes(r, mine), 2)
  {
    var axes := BatchAxes(r, mine);
    assert ReduceAxes(src, s, axes, 3) == ReduceAxes(src, s, axes, 2);
    assert ReducedShape(s, axes, 3) == ReducedShape(s, axes, 2);
  }

  /** A tensor holding every element of a product holds its ProductSeq. */
  lemma HoldsProduct(t: Tensor, A: seq<real>, sa: seq<nat>, B: seq<real>, sb: seq<nat>, at: bool, bt: bool)
    requires t.Valid() && |sa| == Rank && |sb| == Rank
    requires forall p :: 0 <= p < t.data.Length ==> t.data[p] == ProductAt(A, sa, B, sb, Unravel(p, t.shape), at, bt)
    ensures t.data[..] == ProductSeq(A, sa, B, sb, t.shape, at, bt)
  {
  }

  /** The reduction loop of one operand's gradient when the batch axes
      differ: the product is computed in a fresh tensor, then reduced along
      each batch axis where the result gradient is wider.  The right-hand
      product `op(x) = transpose(x)` is taken with the masked
      transposed-left kernel, as the corrected right gradient needs; the
      other is tensor_mul_tr's. */
  method BroadGrad(x: Tensor, y: Tensor, at: bool, bt: bool, out: seq<nat>, mine: seq<nat>)
    returns (red: Tensor)
    requires x.Valid() && y.Valid() && |out| == Rank && |mine| == Rank && !(at && bt)
    requires MulTrShape(x.shape, y.shape, at, bt).Ok?
    ensures red.Valid() && fresh(red.data)
    ensures red.shape == ReducedShape(MulTrShape(x.shape, y.shape, at, bt).value, BatchAxes(out, mine), Rank)
    ensures red.data[..] == ReduceAxes(ProductSeq(x.data[..], x.shape, y.data[..], y.shape,
                                                  MulTrShape(x.shape, y.shape, at, bt).value, at, bt),
                                       MulTrShape(x.shape, y.shape, at, bt).value, BatchAxes(out, mine), Rank)
  {
    MulTrShapeSpec(x.shape, y.shape, at, bt);
    if at {
      red := CreateShaped(MulTrShape(x.shape, y.shape, at, bt).value);
      KernelMulAtFixed(x, y, red);
    } else {
      var broad := TensorMulTr(x, y, at, bt);
      red := broad.value;
    }
    ghost var s := red.shape;
    ghost var src := ProductSeq(x.data[..], x.shape, y.data[..], y.shape, s, at, bt);
    ghost var axes := BatchAxes(out, mine);
    HoldsProduct(red, x.data[..], x.shape, y.data[..], y.shape, at, bt);
    var i := 0;
    while i < 2
      invariant 0 <= i <= 2
      invariant red.Valid() && fresh(red.data)
      invariant red.shape == ReducedShape(s, axes, i)
      invariant red.data[..] == ReduceAxes(src, s, axes, i)
    {
      if out[i] != mine[i] {
        var reduced := TensorReduceAdd(red, i);
        red := reduced.value;
      }
      i := i + 1;
    }
    BatchOnly(src, s, out, mine);
  }

  /** The gradient of the left operand: `resultGrad * transpose(b)`, summed
      over the batch axes `a` was broadcast along. */
  method MulBwdLeft(a: Tensor, aGrad: Tensor, b: Tensor, bGrad: Tensor, resultGrad: Tensor)
    requires MulBwdOperands(a, aGrad, b, bGrad, resultGrad)
    modifies aGrad.data
    ensures MulTrShape(resultGrad.shape, b.shape, false, true).Ok?
    ensures aGrad.data[..] == MulGrad(resultGrad.data[..], resultGrad.shape, b.data[..], b.shape, false, true,
                                      resultGrad.shape, aGrad.shape)
  {
    MulBwdShapes(a.shape, b.shape, resultGrad.shape);
    ghost var s := MulTrShape(resultGrad.shape, b.shape, false, true).value;
    ghost var axes := BatchAxes(resultGrad.shape, aGrad.shape);
    if resultGrad.shape[0] == aGrad.shape[0] && resultGrad.shape[1] == aGrad.shape[1] {
      assert s == aGrad.shape;
      KernelMulBt(resultGrad, b, aGrad);
      HoldsProduct(aGrad, resultGrad.data[..], resultGrad.shape, b.data[..], b.shape, false, true);
      ReduceNoAxes(ProductSeq(resultGrad.data[..], resultGrad.shape, b.data[..], b.shape, s, false, true), s, axes, Rank);
    } else {
      var red := BroadGrad(resultGrad, b, false, true, resultGrad.shape, aGrad.shape);
      Copy(aGrad.data, red.data, aGrad.dataLen);
    }
  }

  /** The gradient of the right operand: `transpose(a) * resultGrad`, summed
      over the batch axes `b` was broadcast along. */
  method MulBwdRight(a: Tensor, aGrad: Tensor, b: Tensor, bGrad: Tensor, resultGrad: Tensor)
    requires MulBwdOperands(a, aGrad, b, bGrad, resultGrad)
    modifies bGrad.data
    ensures MulTrShape(a.shape, resultGrad.shape, true, false).Ok?
    ensures bGrad.data[..] == MulGrad(a.data[..], a.shape, resultGrad.data[..], resultGrad.shape, true, false,
                                      resultGrad.shape, bGrad.shape)
  {
    MulBwdShapes(a.shape, b.shape, resultGrad.shape);
    ghost var s := MulTrShape(a.shape, resultGrad.shape, true, false).value;
    ghost var axes := BatchAxes(resultGrad.shape, bGrad.shape);
    if resultGrad.shape[0] == bGrad.shape[0] && resultGrad.shape[1] == bGrad.shape[1] {
      assert s == bGrad.shape;
      KernelMulAtFixed(a, resultGrad, bGrad);
      HoldsProduct(bGrad, a.data[..], a.shape, resultGrad.data[..], resultGrad.shape, true, false);
      ReduceNoAxes(ProductSeq(a.data[..], a.shape, resultGrad.data[..], resultGrad.shape, s, true, false), s, axes, Rank);
    } else {
      var red := BroadGrad(a, resultGrad, true, false, resultGrad.shape, bGrad.shape);
      Copy(bGrad.data, red.data, bGrad.dataLen);
    }
  }

  /** The right operand's gradient as written: with equal batch axes the
      transposed-left kernel as written computes it (clobbered cells
      included); otherwise the reduction loop reduces `b_grad` itself
      instead of the product, along axes where `b_grad` has extent 1, which
      gives `b_grad` back, and the copy leaves the gradient as it was. */
  method MulBwdRightAsWritten(a: Tensor, aGrad: Tensor, b: Tensor, bGrad: Tensor, resultGrad: Tensor)
    requires MulBwdOperands(a, aGrad, b, bGrad, resultGrad)
    modifies bGrad.data
    ensures resultGrad.shape[0] == bGrad.shape[0] && resultGrad.shape[1] == bGrad.shape[1] ==>
      forall p :: 0 <= p < bGrad.data.Length ==>
        bGrad.data[p] == AtWritten(a.data[..], a.shape, resultGrad.data[..], resultGrad.shape, Unravel(p, bGrad.shape))
    ensures !(resultGrad.shape[0] == bGrad.shape[0] && resultGrad.shape[1] == bGrad.shape[1]) ==>
      bGrad.data[..] == old(bGrad.data[..])
  {
    MulBwdShapes(a.shape, b.shape, resultGrad.shape);
    if resultGrad.shape[0] == bGrad.shape[0] && resultGrad.shape[1] == bGrad.shape[1] {
      assert MulTrShape(a.shape, resultGrad.shape, true, false).value == bGrad.shape;
      KernelMulAt(a, resultGrad, bGrad);
    } else {
      var broad := TensorMulTr(a, resultGrad, true, false);
      var red := broad.value;
      ghost var reducedOnce := false;
      var i := 0;
      while i < 2
        invariant 0 <= i <= 2
        invariant red.Valid() && red.data != bGrad.data
        invariant bGrad.data[..] == old(bGrad.data[..])
        invariant reducedOnce <==> exists j :: 0 <= j < i && resultGrad.shape[j] != bGrad.shape[j]
        invariant reducedOnce ==> red.shape == bGrad.shape && red.data[..] == bGrad.data[..]
      {
        if resultGrad.shape[i] != bGrad.shape[i] {
          var reduced := TensorReduceAdd(bGrad, i);
          red := reduced.value;
          ReduceUnitAxis(bGrad.data[..], bGrad.shape, i);
          assert bGrad.shape[i := 1] == bGrad.shape;
          reducedOnce := true;
        }
        i := i + 1;
      }
      if resultGrad.shape[0] != bGrad.shape[0] {
        assert reducedOnce;
      } else {
        assert resultGrad.shape[1] != bGrad.shape[1];
      }
      Copy(bGrad.data, red.data, bGrad.dataLen);
    }
  }

  /** _tensor_kernel_mul_bwd as written: the left gradient is right, the
      right gradient is as MulBwdRightAsWritten leaves it. */
  method KernelMulBwd(a: Tensor, aGrad: Tensor, b: Tensor, bGrad: Tensor, resultGrad: Tensor)
    requires MulBwdOperands(a, aGrad, b, bGrad, resultGrad)
    modifies aGrad.data, bGrad.data
    ensures MulTrShape(resultGrad.shape, b.shape, false, true).Ok?
    ensures aGrad.data[..] == MulGrad(resultGrad.data[..], resultGrad.shape, b.data[..], b.shape, false, true,
                                      resultGrad.shape, aGrad.shape)
    ensures resultGrad.shape[0] == bGrad.shape[0] && resultGrad.shape[1] == bGrad.shape[1] ==>
      forall p :: 0 <= p < bGrad.data.Length ==>
        bGrad.data[p] == AtWritten(a.data[..], a.shape, resultGrad.data[..], resultGrad.shape, Unravel(p, bGrad.shape))
    ensures !(resultGrad.shape[0] == bGrad.shape[0] && resultGrad.shape[1] == bGrad.shape[1]) ==>
      bGrad.data[..] == old(bGrad.data[..])
  {
    MulBwdLeft(a, aGrad, b, bGrad, resultGrad);
    MulBwdRightAsWritten(a, aGrad, b, bGrad, resultGrad);
  }

  /** _tensor_kernel_mul_bwd with the reduction taken of the product, as
      on the left side, and the masked transposed-left kernel: both
      gradients are the products summed over their broadcast batch axes. */
  method KernelMulBwdFixed(a: Tensor, aGrad: Tensor, b: Tensor, bGrad: Tensor, resultGrad: Tensor)
    requires MulBwdOperands(a, aGrad, b, bGrad, resultGrad)
    modifies aGrad.data, bGrad.data
    ensures MulTrShape(resultGrad.shape, b.shape, false, true).Ok?
    ensures MulTrShape(a.shape, resultGrad.shape, true, false).Ok?
    ensures aGrad.data[..] == MulGrad(resultGrad.data[..], resultGrad.shape, b.data[..], b.shape, false, true,
                                      resultGrad.shape, aGrad.shape)
    ensures bGrad.data[..] == MulGrad(a.data[..], a.shape, resultGrad.data[..], resultGrad.shape, true, false,
                                      resultGrad.shape, bGrad.shape)
  {
    MulBwdLeft(a, aGrad, b, bGrad, resultGrad);
    MulBwdRight(a, aGrad, b, bGrad, resultGrad);
  }

  /** Each batch product of the counterexample below is 1. */
  lemma OnesBatchProduct(p: nat)
    requires p < 2
    ensures ProductAt(OneBuffer(2), [2, 1, 1, 1], OneBuffer(2), [2, 1, 1, 1], [p, 0, 0, 0], true, false) == 1.0
  {
    var sa, A, idx := [2, 1, 1, 1], OneBuffer(2), [p, 0, 0, 0];
    assert AIdx(idx, 0, true) == idx;
    assert BIdx(idx, 0, false) == idx;
    assert BroadcastIndex(idx, sa) == idx;
    assert Linear([0], [1]) == 0;
    assert Linear([0, 0], [1, 1]) == 0;
    assert Linear([0, 0, 0], [1, 1, 1]) == 0;
    assert idx[1..] == [0, 0, 0] && sa[1..] == [1, 1, 1];
    assert Linear(idx, sa) == p;
    assert Broadcast(A, sa, idx) == 1.0;
    assert MulSum(A, sa, A, sa, idx, true, false, 1) == 1.0;
  }

  /** Summing two ones along axis 0 of a [2, 1, 1, 1] buffer. */
  lemma PairReduce(src: seq<real>)
    requires |src| == 2 && src[0] == 1.0 && src[1] == 1.0
    ensures ReduceSeq(src, [2, 1, 1, 1], 0) == [2.0]
  {
    var r := [2, 1, 1, 1];
    assert r[0 := 1] == [1, 1, 1, 1];
    assert Unravel(0, [1, 1, 1, 1]) == [0, 0, 0, 0];
    assert Linear([0, 0, 0], [1, 1, 1]) == 0;
    assert Linear([0, 0, 0, 0], r) == 0;
    assert Linear([1, 0, 0, 0], r) == 1;
    assert [0, 0, 0, 0][0 := 0] == [0, 0, 0, 0] && [0, 0, 0, 0][0 := 1] == [1, 0, 0, 0];
    assert ReduceSum(src, r, [0, 0, 0, 0], 0, 1) == 1.0;
    assert ReduceSum(src, r, [0, 0, 0, 0], 0, 2) == 2.0;
  }

  /** `a` of shape [2, 1, 1, 1] times `b` of shape [1, 1, 1, 1], all ones,
      with a result gradient of ones: `b` was broadcast along axis 0, so its
      gradient is the sum of the two batch products, 2, where
      KernelMulBwd leaves the gradient as it was. */
  lemma MulBwdCounterexample()
    ensures MulShape([2, 1, 1, 1], [1, 1, 1, 1]) == Ok([2, 1, 1, 1])
    ensures MulTrShape([2, 1, 1, 1], [2, 1, 1, 1], true, false).Ok?
    ensures MulGrad(OneBuffer(2), [2, 1, 1, 1], OneBuffer(2), [2, 1, 1, 1], true, false,
                    [2, 1, 1, 1], [1, 1, 1, 1]) == [2.0]
  {
    var sa, sb, r := [2, 1, 1, 1], [1, 1, 1, 1], [2, 1, 1, 1];
    var A := OneBuffer(2);
    assert BatchShape(sa, sb) == Some([2, 1]);
    assert [2, 1] + [sa[2], sb[3]] == r;
    assert BatchShape(sa, r) == Some([2, 1]);
    assert [2, 1] + [sa[3], r[3]] == r;
    var axes := BatchAxes(r, sb);
    assert axes == [true, false, false, false];
    var src := ProductSeq(A, sa, A, r, r, true, false);
    assert Unravel(0, r) == [0, 0, 0, 0];
    assert Unravel(1, r) == [1, 0, 0, 0];
    OnesBatchProduct(0);
    OnesBatchProduct(1);
    PairReduce(src);
    assert ReduceAxes(src, r, axes, 3) == ReduceAxes(src, r, axes, 2) == ReduceAxes(src, r, axes, 1);
  }
}
