/** The batched matrix products of cpu_kernels.c: _tensor_kernel_mul,
    _tensor_kernel_mul_bt and the doubly-transposed entry point.  Each walks
    the matrices of the result with a two-axis index odometer, offsets every
    operand by its own batch strides (stride 0 broadcasts an extent-1 axis)
    and computes one matrix product per result matrix. */
module Product {
  import opened Common
  import opened Shapes
  import opened Tensors
  import opened Lanes
  import opened Kernels
  import opened Matmul

  /** The operands and result of a product, as the kernels expect them:
      well-formed, the result shaped as the (possibly transposed) product of
      the operands, and its buffer distinct from both operand buffers. */
  ghost predicate MulOperands(a: Tensor, b: Tensor, result: Tensor, at: bool, bt: bool)
    reads a, b, result
  {
    a.Valid() && b.Valid() && result.Valid()
    && MulTrShape(a.shape, b.shape, at, bt) == Ok(result.shape)
    && result.data != a.data && result.data != b.data
  }

  /** The elements below position `done` (the first result matrices) hold
      their product elements and the rest of the buffer is unchanged. */
  ghost predicate BatchDone(res: seq<real>, init: seq<real>, A: seq<real>, sa: seq<nat>, B: seq<real>,
                            sb: seq<nat>, r: seq<nat>, at: bool, bt: bool, done: nat)
    requires |sa| == Rank && |sb| == Rank && |r| == Rank
  {
    |res| == |init| == Prod(r)
    && forall p :: 0 <= p < |res| ==>
      res[p] == if p < done then ProductAt(A, sa, B, sb, Unravel(p, r), at, bt) else init[p]
  }

  /** The number of elements of one matrix of a shape. */
  function MatSize(s: seq<nat>): nat
  {
    if |s| == Rank then s[2] * s[3] else 0
  }

  /** The batch offset of a matrix index, axis by axis. */
  lemma BatchOffsetIs(idx2: seq<nat>, s: seq<nat>)
    requires |idx2| == 2 && |s| == Rank
    ensures BatchOffset(idx2, s) == idx2[0] * StrideAt(s, 0) + idx2[1] * StrideAt(s, 1)
  {
    var st := StridesOf(s)[..2];
    assert st[0] == StrideAt(s, 0) && st[1] == StrideAt(s, 1);
    assert idx2[1..][1..] == [] && st[1..][1..] == [];
    assert Offset(idx2[1..], st[1..]) == idx2[1] * st[1] + Offset(idx2[1..][1..], st[1..][1..]);
  }

  /** The stride-weighted batch entries of an in-range index, with the
      entries of extent-1 axes replaced by 0. */
  lemma BatchTerms(idx2: seq<nat>, s: seq<nat>, r: seq<nat>)
    requires |idx2| == 2 && |s| == Rank && |r| == Rank && idx2[0] < r[0] && idx2[1] < r[1]
    requires (s[0] == r[0] || s[0] == 1) && (s[1] == r[1] || s[1] == 1)
    ensures idx2[0] * StrideAt(s, 0) == (if s[0] == 1 then 0 else idx2[0]) * (s[1] * (s[2] * s[3]))
    ensures idx2[1] * StrideAt(s, 1) == (if s[1] == 1 then 0 else idx2[1]) * (s[2] * s[3])
  {
    Prod4(s);
  }

  lemma FitsArith(b0: nat, b1: nat, s0: nat, s1: nat, q: nat)
    requires b0 < s0 && b1 < s1
    ensures b0 * (s1 * q) + b1 * q + q <= s0 * (s1 * q)
  {
    MulLeMono(b1 + 1, s1, q);
    MulLeMono(b0 + 1, s0, s1 * q);
  }

  /** The matrix an in-range batch index selects lies inside the operand:
      its offset plus the matrix size is within the element count. */
  lemma BatchFits(idx2: seq<nat>, s: seq<nat>, r: seq<nat>)
    requires |idx2| == 2 && |s| == Rank && |r| == Rank && idx2[0] < r[0] && idx2[1] < r[1]
    requires (s[0] == r[0] || s[0] == 1) && (s[1] == r[1] || s[1] == 1)
    ensures BatchOffset(idx2, s) + MatSize(s) <= Prod(s)
  {
    BatchOffsetIs(idx2, s);
    BatchTerms(idx2, s, r);
    Prod4(s);
    FitsArith(if s[0] == 1 then 0 else idx2[0], if s[1] == 1 then 0 else idx2[1], s[0], s[1], s[2] * s[3]);
  }

  lemma BaseArith(i0: int, i1: int, r1: int, q: int)
    ensures (i0 * r1 + i1) * q == i0 * (r1 * q) + i1 * q
  {
  }

  /** The linear number of a batch index. */
  lemma LinearPair(idx2: seq<nat>, r: seq<nat>)
    requires |r| == Rank && |idx2| == 2
    ensures Linear(idx2, r[..2]) == idx2[0] * r[1] + idx2[1]
  {
    var r2 := r[..2];
    assert r2[1..][1..] == [] && idx2[1..][1..] == [];
    assert Linear(idx2[1..], r2[1..]) == idx2[1] * Prod(r2[1..][1..]) + Linear(idx2[1..][1..], r2[1..][1..]);
    assert Prod(r2[1..]) == r[1] * Prod(r2[1..][1..]);
  }

  /** The result matrix of batch index `idx2` starts at its linear number
      times the matrix size. */
  lemma BatchBase(idx2: seq<nat>, r: seq<nat>)
    requires |r| == Rank && |idx2| == 2 && idx2[0] < r[0] && idx2[1] < r[1]
    ensures BatchOffset(idx2, r) == Linear(idx2, r[..2]) * MatSize(r)
  {
    BatchOffsetIs(idx2, r);
    BatchTerms(idx2, r, r);
    LinearPair(idx2, r);
    BaseArith(idx2[0], idx2[1], r[1], MatSize(r));
  }

  /** Cell `(i, j)` of matrix `idx2` is the result element at the index
      made of both. */
  lemma UnravelCell(idx2: seq<nat>, r: seq<nat>, i: nat, j: nat, p: nat)
    requires |r| == Rank && InBounds(idx2, r[..2]) && i < r[2] && j < r[3]
    requires p == Linear(idx2, r[..2]) * MatSize(r) + i * r[3] + j
    ensures p < Prod(r) && Unravel(p, r) == idx2 + [i, j]
  {
    var idx3 := idx2 + [i];
    PrefixSnoc(r, 2);
    LastSplit(r);
    AppendPair(idx2, i, j);
    LinearSnoc(idx2, r[..2], i, r[2]);
    LinearSnoc(idx3, r[..3], j, r[3]);
    RowDistrib(Linear(idx2, r[..2]), r[2], i, r[3]);
    assert InBounds(idx2 + [i, j], r);
    UnravelLinear(idx2 + [i, j], r);
  }

  /** Where a position of the current result matrix lies. */
  lemma BatchPosition(p: nat, idx2: seq<nat>, r: seq<nat>, rBase: nat)
    requires |r| == Rank && InBounds(idx2, r[..2]) && r[3] > 0
    requires rBase == Linear(idx2, r[..2]) * MatSize(r)
    requires rBase <= p < rBase + MatSize(r)
    ensures InTile(p, rBase, r[3], r[3], r[2])
    ensures p < Prod(r) && Unravel(p, r) == idx2 + [RowOf(p, rBase, r[3]), ColOf(p, rBase, r[3])]
  {
    var N := r[3];
    var i, j := RowOf(p, rBase, N), ColOf(p, rBase, N);
    assert p - rBase == N * i + j;
    QuotientBelow(p - rBase, N, r[2]);
    UnravelCell(idx2, r, i, j, p);
  }

  /** Storing the product of matrix `idx2`, which starts at `rBase`, extends
      the done elements by one matrix. */
  lemma BatchStep(res2: seq<real>, res: seq<real>, init: seq<real>, A: seq<real>, sa: seq<nat>,
                  B: seq<real>, sb: seq<nat>, r: seq<nat>, at: bool, bt: bool, idx2: seq<nat>, rBase: nat)
    requires |sa| == Rank && |sb| == Rank && |A| == Prod(sa) && |B| == Prod(sb)
    requires MulTrShape(sa, sb, at, bt) == Ok(r)
    requires InBounds(idx2, r[..2]) && rBase == Linear(idx2, r[..2]) * MatSize(r)
    requires BatchDone(res, init, A, sa, B, sb, r, at, bt, rBase)
    requires MatStored(res2, res, ProductMat(A, BatchOffset(idx2, sa), B, BatchOffset(idx2, sb),
                                             r[2], ColsAs(sa, at), r[3], at, bt), rBase)
    ensures BatchDone(res2, init, A, sa, B, sb, r, at, bt, rBase + MatSize(r))
  {
    ProductShapes(sa, sb, r, at, bt);
    var MN := MatSize(r);
    var g := ProductMat(A, BatchOffset(idx2, sa), B, BatchOffset(idx2, sb), r[2], ColsAs(sa, at), r[3], at, bt);
    forall p | 0 <= p < |res2|
      ensures res2[p] == if p < rBase + MN then ProductAt(A, sa, B, sb, Unravel(p, r), at, bt) else init[p]
    {
      BatchStepCell(res2[p], res[p], init[p], A, sa, B, sb, r, at, bt, idx2, rBase, p);
    }
  }

  /** One position of BatchStep. */
  lemma BatchStepCell(v2: real, v: real, initp: real, A: seq<real>, sa: seq<nat>, B: seq<real>, sb: seq<nat>,
                      r: seq<nat>, at: bool, bt: bool, idx2: seq<nat>, rBase: nat, p: nat)
    requires |sa| == Rank && |sb| == Rank && |A| == Prod(sa) && |B| == Prod(sb)
    requires MulTrShape(sa, sb, at, bt) == Ok(r) && |r| == Rank && p < Prod(r)
    requires InBounds(idx2, r[..2]) && rBase == Linear(idx2, r[..2]) * MatSize(r)
    requires v == if p < rBase then ProductAt(A, sa, B, sb, Unravel(p, r), at, bt) else initp
    requires v2 == if InTile(p, rBase, r[3], r[3], r[2])
                   then Cell(ProductMat(A, BatchOffset(idx2, sa), B, BatchOffset(idx2, sb),
                                        r[2], ColsAs(sa, at), r[3], at, bt),
                             RowOf(p, rBase, r[3]), ColOf(p, rBase, r[3]))
                   else v
    ensures v2 == if p < rBase + MatSize(r) then ProductAt(A, sa, B, sb, Unravel(p, r), at, bt) else initp
  {
    if rBase <= p < rBase + MatSize(r) {
      BatchPosition(p, idx2, r, rBase);
      BatchCell(A, sa, B, sb, r, at, bt, idx2, p, rBase);
    } else {
      OutsideMatrix(p, rBase, r[3], r[2]);
    }
  }

  /** The cell of the current matrix at position `p` is the product element
      at the index of `p`. */
  lemma BatchCell(A: seq<real>, sa: seq<nat>, B: seq<real>, sb: seq<nat>, r: seq<nat>, at: bool, bt: bool,
                  idx2: seq<nat>, p: nat, rBase: nat)
    requires |sa| == Rank && |sb| == Rank && |A| == Prod(sa) && |B| == Prod(sb)
    requires MulTrShape(sa, sb, at, bt) == Ok(r) && r[3] > 0 && |idx2| == 2 && rBase <= p
    requires p < Prod(r) && Unravel(p, r) == idx2 + [RowOf(p, rBase, r[3]), ColOf(p, rBase, r[3])]
    ensures Cell(ProductMat(A, BatchOffset(idx2, sa), B, BatchOffset(idx2, sb), r[2], ColsAs(sa, at), r[3], at, bt),
                 RowOf(p, rBase, r[3]), ColOf(p, rBase, r[3]))
         == ProductAt(A, sa, B, sb, Unravel(p, r), at, bt)
  {
    var u := Unravel(p, r);
    LinearUnravel(p, r);
    ConcatParts(idx2, [RowOf(p, rBase, r[3]), ColOf(p, rBase, r[3])]);
    CellIsProduct(A, sa, B, sb, r, u, at, bt);
  }

  /** A position outside `[rBase, rBase + rows * N)` is in no row of the
      matrix there. */
  lemma OutsideMatrix(p: nat, rBase: nat, N: nat, rows: nat)
    requires !(rBase <= p < rBase + rows * N)
    ensures !InTile(p, rBase, N, N, rows)
  {
    if InTile(p, rBase, N, N, rows) {
      var q := p - rBase;
      assert q == N * (q / N) + q % N;
      MulLeMono(q / N + 1, rows, N);
    }
  }

  /** The number of result matrices is the product of the batch extents. */
  lemma MatCount(r: seq<nat>)
    requires |r| == Rank
    ensures MatCountOf(r)
  {
    var r2 := r[..2];
    assert r2[1..][1..] == [];
    Prod4(r);
  }

  /** The per-matrix kernel the entry points call for one result matrix:
      matmul_tile6x16 for the plain product, matmul_bt for a transposed
      right operand and, with the masked tile store, the transposed-left
      walk of matmul_at.  The extents are taken from the operand shapes as
      the entry points take them. */
  method MatrixProduct(a: Tensor, b: Tensor, result: Tensor, at: bool, bt: bool,
                       aOff: nat, bOff: nat, rOff: nat)
    requires MulOperands(a, b, result, at, bt) && !(at && bt)
    requires aOff + MatSize(a.shape) <= a.data.Length
    requires bOff + MatSize(b.shape) <= b.data.Length
    requires rOff + MatSize(result.shape) <= result.data.Length
    modifies result.data
    ensures MatStored(result.data[..], old(result.data[..]),
                      ProductMat(a.data[..], aOff, b.data[..], bOff, result.shape[2], ColsAs(a.shape, at),
                                 result.shape[3], at, bt), rOff)
  {
    ProductShapes(a.shape, b.shape, result.shape, at, bt);
    var A, B := a.data[..], b.data[..];
    if bt {
      var M, K, N := a.shape[2], a.shape[3], b.shape[2];
      MulCommutes(N, K);
      MatmulBt(A, aOff, B, bOff, result.data, rOff, M, K, N);
    } else if at {
      var M, K, N := a.shape[3], a.shape[2], b.shape[3];
      if K > 0 && M > 0 {
        LastElement(aOff, K, M, |A|);
      }
      MatmulTile6x16(A, aOff, 1, M, B, bOff, result.data, rOff, M, K, N);
    } else {
      var M, K, N := a.shape[2], a.shape[3], b.shape[3];
      if K > 0 && M > 0 {
        LastElement(aOff, M, K, |A|);
        MulCommutes(M, K);
      }
      MatmulTile6x16(A, aOff, K, 1, B, bOff, result.data, rOff, M, K, N);
    }
  }

  lemma MulCommutes(x: nat, y: nat)
    ensures x * y == y * x
  {
  }

  /** The last element of an `x` by `y` block at `base` is inside a buffer
      that holds the block. */
  lemma LastElement(base: nat, x: nat, y: nat, len: nat)
    requires x > 0 && y > 0 && base + x * y <= len
    ensures base + (x - 1) * y + (y - 1) < len
    ensures base + (y - 1) + (x - 1) * y < len
  {
  }

  /** One pass of the batch loop: the offsets of matrix `matIdx` in the
      three buffers, its product, and the odometer step to the next matrix. */
  method BatchMatrix(a: Tensor, b: Tensor, result: Tensor, at: bool, bt: bool, index: seq<nat>,
                     matIdx: nat, ghost init: seq<real>)
    returns (next: seq<nat>)
    requires MulOperands(a, b, result, at, bt) && !(at && bt)
    requires |index| == Rank && matIdx < result.shape[0] * result.shape[1]
    requires MatCountOf(result.shape) && index[..2] == Unravel(matIdx, result.shape[..2])
    requires BatchDone(result.data[..], init, a.data[..], a.shape, b.data[..], b.shape, result.shape, at, bt,
                       matIdx * MatSize(result.shape))
    modifies result.data
    ensures |next| == Rank
    ensures matIdx + 1 < result.shape[0] * result.shape[1] ==> next[..2] == Unravel(matIdx + 1, result.shape[..2])
    ensures BatchDone(result.data[..], init, a.data[..], a.shape, b.data[..], b.shape, result.shape, at, bt,
                      (matIdx + 1) * MatSize(result.shape))
  {
    ghost var r := result.shape;
    ghost var A, B := a.data[..], b.data[..];
    ProductShapes(a.shape, b.shape, r, at, bt);
    LinearUnravel(matIdx, r[..2]);
    ghost var idx2 := index[..2];
    var aOff, bOff, rOff := MatrixOffsets(a, b, result, at, bt, index, matIdx);
    ghost var before := result.data[..];
    MatrixProduct(a, b, result, at, bt, aOff, bOff, rOff);
    BatchStep(result.data[..], before, init, A, a.shape, B, b.shape, r, at, bt, idx2, rOff);
    next := Advance(index, result.shape, 2);
    if matIdx + 1 < result.shape[0] * result.shape[1] {
      CarryStep(idx2, r[..2]);
      UnravelLinear(Carry(idx2, r[..2]), r[..2]);
      assert next[..2] == Carry(idx2, r[..2]);
    }
  }

  /** Where matrix `idx2` of a product lies in the three buffers: each
      operand's matrix inside the operand, and the result matrix at its
      number `matIdx` times the matrix size. */
  lemma Placement(idx2: seq<nat>, sa: seq<nat>, sb: seq<nat>, r: seq<nat>)
    requires |sa| == Rank && |sb| == Rank && |r| == Rank
    requires (sa[0] == r[0] || sa[0] == 1) && (sa[1] == r[1] || sa[1] == 1)
    requires (sb[0] == r[0] || sb[0] == 1) && (sb[1] == r[1] || sb[1] == 1)
    requires InBounds(idx2, r[..2])
    ensures BatchOffset(idx2, sa) + MatSize(sa) <= Prod(sa)
    ensures BatchOffset(idx2, sb) + MatSize(sb) <= Prod(sb)
  {
    BatchFits(idx2, sa, r);
    BatchFits(idx2, sb, r);
  }

  lemma ResultPlacement(idx2: seq<nat>, r: seq<nat>, matIdx: nat)
    requires |r| == Rank && InBounds(idx2, r[..2]) && matIdx == Linear(idx2, r[..2])
    ensures BatchOffset(idx2, r) + MatSize(r) <= Prod(r)
    ensures BatchOffset(idx2, r) == matIdx * MatSize(r)
    ensures BatchOffset(idx2, r) + MatSize(r) == (matIdx + 1) * MatSize(r)
  {
    BatchFits(idx2, r, r);
    BatchBase(idx2, r);
    SuccMul(matIdx, MatSize(r));
  }

  lemma SuccMul(x: int, q: int)
    ensures (x + 1) * q == x * q + q
  {
  }

  /** The offsets of matrix `matIdx` in the three buffers, accumulated over
      the two batch axes: each operand's matrix lies inside the operand and
      the result matrix starts at its number times the matrix size. */
  method MatrixOffsets(a: Tensor, b: Tensor, result: Tensor, at: bool, bt: bool, index: seq<nat>,
                       ghost matIdx: nat)
    returns (aOff: nat, bOff: nat, rOff: nat)
    requires MulOperands(a, b, result, at, bt) && |index| == Rank
    requires InBounds(index[..2], result.shape[..2]) && matIdx == Linear(index[..2], result.shape[..2])
    ensures aOff == BatchOffset(index[..2], a.shape) && aOff + MatSize(a.shape) <= a.data.Length
    ensures bOff == BatchOffset(index[..2], b.shape) && bOff + MatSize(b.shape) <= b.data.Length
    ensures rOff + MatSize(result.shape) <= result.data.Length
    ensures rOff == matIdx * MatSize(result.shape)
    ensures rOff + MatSize(result.shape) == (matIdx + 1) * MatSize(result.shape)
  {
    ProductBatch(a.shape, b.shape, result.shape, at, bt);
    aOff, bOff, rOff := Offsets(index, a.stride, b.stride, result.stride, 2);
    assert a.stride[..2] == StridesOf(a.shape)[..2] && b.stride[..2] == StridesOf(b.shape)[..2];
    assert result.stride[..2] == StridesOf(result.shape)[..2];
    Placement(index[..2], a.shape, b.shape, result.shape);
    ResultPlacement(index[..2], result.shape, matIdx);
  }

  /** The batch extents of a product's operands broadcast to the result's. */
  lemma ProductBatch(sa: seq<nat>, sb: seq<nat>, r: seq<nat>, at: bool, bt: bool)
    requires |sa| == Rank && |sb| == Rank && MulTrShape(sa, sb, at, bt) == Ok(r)
    ensures |r| == Rank
    ensures (sa[0] == r[0] || sa[0] == 1) && (sa[1] == r[1] || sa[1] == 1)
    ensures (sb[0] == r[0] || sb[0] == 1) && (sb[1] == r[1] || sb[1] == 1)
  {
    ProductShapes(sa, sb, r, at, bt);
  }

  /** The number of result matrices is the product of the batch extents. */
  ghost predicate MatCountOf(r: seq<nat>)
  {
    |r| == Rank && Prod(r[..2]) == r[0] * r[1] && Prod(r) == (r[0] * r[1]) * (r[2] * r[3])
  }

  /** _tensor_kernel_mul, _tensor_kernel_mul_bt and, with the masked tile
      store, _tensor_kernel_mul_at: every element of the result is the
      element of op(a) * op(b) at its index, the batch axes broadcasting. */
  method MulBatch(a: Tensor, b: Tensor, result: Tensor, at: bool, bt: bool)
    requires MulOperands(a, b, result, at, bt) && !(at && bt)
    modifies result.data
    ensures forall p :: 0 <= p < result.data.Length ==>
      result.data[p] == ProductAt(a.data[..], a.shape, b.data[..], b.shape, Unravel(p, result.shape), at, bt)
  {
    ghost var r := result.shape;
    ghost var init := result.data[..];
    var index := [0, 0, 0, 0];
    var matIdx := 0;
    var totalMats := result.shape[0] * result.shape[1];
    MatCount(r);
    if 0 < totalMats {
      UnravelZero(r[..2]);
    }
    while matIdx < totalMats
      invariant 0 <= matIdx <= totalMats && |index| == Rank
      invariant matIdx < totalMats ==> index[..2] == Unravel(matIdx, r[..2])
      invariant BatchDone(result.data[..], init, a.data[..], a.shape, b.data[..], b.shape, r, at, bt,
                          matIdx * MatSize(r))
    {
      index := BatchMatrix(a, b, result, at, bt, index, matIdx, init);
      matIdx := matIdx + 1;
    }
  }

  /** _tensor_kernel_mul: the plain batched product. */
  method KernelMul(a: Tensor, b: Tensor, result: Tensor)
    requires MulOperands(a, b, result, false, false)
    modifies result.data
    ensures forall p :: 0 <= p < result.data.Length ==>
      result.data[p] == ProductAt(a.data[..], a.shape, b.data[..], b.shape, Unravel(p, result.shape), false, false)
  {
    MulBatch(a, b, result, false, false);
  }

  /** _tensor_kernel_mul_bt: the product with the right operand transposed. */
  method KernelMulBt(a: Tensor, b: Tensor, result: Tensor)
    requires MulOperands(a, b, result, false, true)
    modifies result.data
    ensures forall p :: 0 <= p < result.data.Length ==>
      result.data[p] == ProductAt(a.data[..], a.shape, b.data[..], b.shape, Unravel(p, result.shape), false, true)
  {
    MulBatch(a, b, result, false, true);
  }

  /** _tensor_kernel_mul_at with the tile store masked as in mmul_6x16: the
      product with the left operand transposed. */
  method KernelMulAtFixed(a: Tensor, b: Tensor, result: Tensor)
    requires MulOperands(a, b, result, true, false)
    modifies result.data
    ensures forall p :: 0 <= p < result.data.Length ==>
      result.data[p] == ProductAt(a.data[..], a.shape, b.data[..], b.shape, Unravel(p, result.shape), true, false)
  {
    MulBatch(a, b, result, true, false);
  }

  /** _tensor_kernel_mul_atbt: there is no kernel; the call stops with the
      "unimplemented" error and the result is left as it is. */
  method KernelMulAtBt(a: Tensor, b: Tensor, result: Tensor) returns (outcome: Result<()>)
    ensures outcome == Err(Unimplemented)
  {
    outcome := Err(Unimplemented);
  }
}
