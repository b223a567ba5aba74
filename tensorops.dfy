/** The tensor-level operations of tensor.c: each validates its operands'
    shapes, creates the result tensor with tensor_create and runs the
    kernel on it.  A shape the operation refuses gives an error where the
    source returns NULL. */
module TensorOps {
  import opened Common
  import opened Shapes
  import opened Tensors
  import opened Lanes
  import opened Kernels
  import opened Matmul
  import opened Product
  import opened AtStore

  /** A four-slot shape is its own right-aligned layout. */
  lemma AlignFull(s: seq<nat>)
    requires |s| == Rank
    ensures AlignShape(s) == s
  {
    assert Ones(0) == [];
  }

  /** tensor_create on a shape of four extents, which always succeeds. */
  method CreateShaped(s: seq<nat>) returns (t: Tensor)
    requires |s| == Rank
    ensures fresh(t) && fresh(t.data) && t.Valid() && t.shape == s
  {
    var created := TensorCreate(s);
    AlignFull(s);
    t := created;
  }

  /** tensor_add: `ShapeMismatch` unless every axis broadcasts; otherwise a
      fresh tensor of the broadcast shape, written by the add kernel as it
      stands: every position whose column is at or below the kernel's cut
      holds the broadcast sum, and that is every position unless the
      vector path runs with at least two tail columns. */
  method TensorAdd(a: Tensor, b: Tensor) returns (r: Result<Tensor>)
    requires a.Valid() && b.Valid()
    ensures r.Ok? <==> AddShape(a.shape, b.shape).Ok?
    ensures r.Err? ==> r.error == ShapeMismatch
    ensures r.Ok? ==> fresh(r.value) && fresh(r.value.data) && r.value.Valid()
    ensures r.Ok? ==> r.value.shape == AddShape(a.shape, b.shape).value
    ensures r.Ok? ==> forall p ::
        (0 <= p < r.value.data.Length && Unravel(p, r.value.shape)[3] <= AddCut(a.shape, b.shape, r.value.shape)) ==>
        r.value.data[p] == SumAt(a.data[..], a.shape, b.data[..], b.shape, Unravel(p, r.value.shape))
    ensures r.Ok? && !(a.shape[3] == b.shape[3] && a.shape[3] >= Width && r.value.shape[3] % Width >= 2) ==>
      forall p :: 0 <= p < r.value.data.Length ==>
        r.value.data[p] == SumAt(a.data[..], a.shape, b.data[..], b.shape, Unravel(p, r.value.shape))
  {
    var shape := AddShape(a.shape, b.shape);
    AddShapeSpec(a.shape, b.shape);
    if shape.Err? {
      return Err(ShapeMismatch);
    }
    var t := CreateShaped(shape.value);
    KernelAdd(a, b, t);
    if !(a.shape[3] == b.shape[3] && a.shape[3] >= Width && t.shape[3] % Width >= 2) {
      forall p | 0 <= p < t.data.Length
        ensures t.data[p] == SumAt(a.data[..], a.shape, b.data[..], b.shape, Unravel(p, t.shape))
      {
        AddCovered(a.shape, b.shape, t.shape, p);
      }
    }
    r := Ok(t);
  }

  /** tensor_mul: `ShapeMismatch` unless the batch axes broadcast and
      `a[3] == b[2]`; otherwise a fresh tensor holding the batched
      product. */
  method TensorMul(a: Tensor, b: Tensor) returns (r: Result<Tensor>)
    requires a.Valid() && b.Valid()
    ensures r.Ok? <==> MulShape(a.shape, b.shape).Ok?
    ensures r.Err? ==> r.error == ShapeMismatch
    ensures r.Ok? ==> fresh(r.value) && fresh(r.value.data) && r.value.Valid()
    ensures r.Ok? ==> r.value.shape == MulShape(a.shape, b.shape).value
    ensures r.Ok? ==> forall p :: 0 <= p < r.value.data.Length ==>
        r.value.data[p] == ProductAt(a.data[..], a.shape, b.data[..], b.shape, Unravel(p, r.value.shape), false, false)
  {
    var shape := MulShape(a.shape, b.shape);
    MulShapeIsPlainMulTr(a.shape, b.shape);
    if shape.Err? {
      return Err(ShapeMismatch);
    }
    MulTrShapeSpec(a.shape, b.shape, false, false);
    var t := CreateShaped(shape.value);
    KernelMul(a, b, t);
    r := Ok(t);
  }

  /** What tensor_mul_tr leaves at result index `idx`: the element of
      op(a) * op(b), except on the cells the transposed-left kernel's
      unmasked store overwrites with zero. */
  function MulTrAt(A: seq<real>, sa: seq<nat>, B: seq<real>, sb: seq<nat>, idx: seq<nat>, at: bool, bt: bool): real
    requires |sa| == Rank && |sb| == Rank && |idx| == Rank
  {
    if at && !bt then AtWritten(A, sa, B, sb, idx) else ProductAt(A, sa, B, sb, idx, at, bt)
  }

  /** tensor_mul_tr: `ShapeMismatch` unless the batch axes broadcast and the
      inner extents of op(a) and op(b) agree; `Unimplemented` for the doubly
      transposed product, whose kernel aborts; otherwise a fresh tensor
      holding what the kernels leave, which is op(a) * op(b) everywhere
      unless the transposed-left product has more than one row and a
      column count above 16 that is not a multiple of 16. */
  method TensorMulTr(a: Tensor, b: Tensor, at: bool, bt: bool) returns (r: Result<Tensor>)
    requires a.Valid() && b.Valid()
    ensures r.Ok? <==> MulTrShape(a.shape, b.shape, at, bt).Ok? && !(at && bt)
    ensures r.Err? ==> r.error == if MulTrShape(a.shape, b.shape, at, bt).Err? then ShapeMismatch else Unimplemented
    ensures r.Ok? ==> fresh(r.value) && fresh(r.value.data) && r.value.Valid()
    ensures r.Ok? ==> r.value.shape == MulTrShape(a.shape, b.shape, at, bt).value
    ensures r.Ok? ==> forall p :: 0 <= p < r.value.data.Length ==>
        r.value.data[p] == MulTrAt(a.data[..], a.shape, b.data[..], b.shape, Unravel(p, r.value.shape), at, bt)
    ensures r.Ok? && !(at && !bt && b.shape[3] > Width && b.shape[3] % Width != 0 && r.value.shape[2] > 1) ==>
      forall p :: 0 <= p < r.value.data.Length ==>
        r.value.data[p] == ProductAt(a.data[..], a.shape, b.data[..], b.shape, Unravel(p, r.value.shape), at, bt)
  {
    var shape := MulTrShape(a.shape, b.shape, at, bt);
    if shape.Err? {
      return Err(ShapeMismatch);
    }
    MulTrShapeSpec(a.shape, b.shape, at, bt);
    var t := CreateShaped(shape.value);
    if at && !bt {
      KernelMulAt(a, b, t);
      forall p | 0 <= p < t.data.Length
        ensures t.data[p] == MulTrAt(a.data[..], a.shape, b.data[..], b.shape, Unravel(p, t.shape), at, bt)
      {
      }
      if !(b.shape[3] > Width && b.shape[3] % Width != 0 && t.shape[2] > 1) {
        forall p | 0 <= p < t.data.Length
          ensures t.data[p] == ProductAt(a.data[..], a.shape, b.data[..], b.shape, Unravel(p, t.shape), at, bt)
        {
          UnclobberedCell(t.shape, b.shape[3], p);
        }
      }
    } else if !at && bt {
      KernelMulBt(a, b, t);
    } else if at && bt {
      var outcome := KernelMulAtBt(a, b, t);
      return Err(outcome.error);
    } else {
      KernelMul(a, b, t);
    }
    r := Ok(t);
  }

  /** Where no cell is clobbered, the cell at position `p` is not. */
  lemma UnclobberedCell(r: seq<nat>, N: nat, p: nat)
    requires |r| == Rank && r[3] == N && p < Prod(r)
    requires !(N > Width && N % Width != 0 && r[2] > 1)
    ensures !Clobbered(Unravel(p, r)[2], Unravel(p, r)[3], N)
  {
    LinearUnravel(p, r);
    ClobberedCells(r[2], N);
    var row, col := Unravel(p, r)[2], Unravel(p, r)[3];
    assert row < r[2] && col < N;
  }

  /** What the reduction along axis `dim` produces from a buffer of shape
      `s`: the sums along that axis, laid out in the collapsed shape. */
  ghost function ReduceSeq(src: seq<real>, s: seq<nat>, dim: nat): (r: seq<real>)
    requires |s| == Rank && dim < Rank
    ensures |r| == Prod(s[dim := 1])
  {
    seq(Prod(s[dim := 1]), p requires 0 <= p < Prod(s[dim := 1]) =>
      ReduceSum(src, s, Unravel(p, s[dim := 1]), dim, s[dim]))
  }

  /** Reducing along an axis of extent 1 gives back the buffer itself. */
  lemma ReduceUnitAxis(src: seq<real>, s: seq<nat>, dim: nat)
    requires |s| == Rank && dim < Rank && s[dim] == 1 && |src| == Prod(s)
    ensures ReduceSeq(src, s, dim) == src
  {
    assert s[dim := 1] == s;
    forall p | 0 <= p < |src|
      ensures ReduceSeq(src, s, dim)[p] == src[p]
    {
      LinearUnravel(p, s);
      ReduceSumOfUnitAxis(src, s, Unravel(p, s), dim);
    }
  }

  /** tensor_reduce_add: `BadAxis` for an axis past 3; otherwise a fresh
      tensor of the source shape with axis `dim` collapsed to 1, holding the
      sums along that axis. */
  method TensorReduceAdd(src: Tensor, dim: nat) returns (r: Result<Tensor>)
    requires src.Valid()
    ensures r.Ok? <==> ReduceShape(src.shape, dim).Ok?
    ensures r.Err? ==> r.error == BadAxis
    ensures r.Ok? ==> fresh(r.value) && fresh(r.value.data) && r.value.Valid()
    ensures r.Ok? ==> r.value.shape == ReduceShape(src.shape, dim).value
    ensures r.Ok? ==> r.value.data[..] == ReduceSeq(src.data[..], src.shape, dim)
  {
    if dim > 3 {
      return Err(BadAxis);
    }
    var t := CreateShaped(src.shape[dim := 1]);
    KernelReduceAdd(src, t, dim);
    assert t.data[..] == ReduceSeq(src.data[..], src.shape, dim);
    r := Ok(t);
  }
}
