/** The shape/stride descriptor of a tensor and the index arithmetic every
    kernel relies on: a tensor has four extents, stored right-aligned; an
    axis of extent 1 has stride 0 (so that it broadcasts), any other axis has
    the product of the extents to its right as stride.  Also the shape rules
    that tensor_add, tensor_mul, tensor_mul_tr, tensor_reduce_add,
    tensor_cross_entropy and tensor_sub_scaled check before computing. */
module Shapes {
  import opened Common

  /** Every tensor descriptor has this many slots. */
  const Rank: nat := 4

  /** The product of a run of extents. */
  function Prod(s: seq<nat>): nat
  {
    if s == [] then 1 else s[0] * Prod(s[1..])
  }

  lemma {:induction false} ProdConcat(a: seq<nat>, b: seq<nat>)
    ensures Prod(a + b) == Prod(a) * Prod(b)
  {
    if a != [] {
      ConcatTail(a, b);
      ProdConcat(a[1..], b);
      calc {
        Prod(a + b);
        a[0] * Prod(a[1..] + b);
        a[0] * (Prod(a[1..]) * Prod(b));
        (a[0] * Prod(a[1..])) * Prod(b);
      }
    } else {
      assert a + b == b;
    }
  }

  function Ones(n: nat): (r: seq<nat>)
    ensures |r| == n && forall i :: 0 <= i < n ==> r[i] == 1
  {
    seq(n, _ => 1)
  }

  lemma {:induction false} ProdOnes(n: nat)
    ensures Prod(Ones(n)) == 1
  {
    if n > 0 {
      assert Ones(n)[1..] == Ones(n - 1);
      ProdOnes(n - 1);
    }
  }

  /** tensor_create's placement of up to four given extents into the four
      slots: right-aligned, with the leading slots set to 1. */
  function AlignShape(dims: seq<nat>): seq<nat>
    requires |dims| <= Rank
  {
    Ones(Rank - |dims|) + dims
  }

  /** The given extents land right-aligned, the leading slots are 1, and the
      number of elements is the product of the given extents. */
  lemma AlignShapeFacts(dims: seq<nat>)
    requires |dims| <= Rank
    ensures |AlignShape(dims)| == Rank
    ensures forall i :: 0 <= i < |dims| ==> AlignShape(dims)[Rank - |dims| + i] == dims[i]
    ensures forall i :: 0 <= i < Rank - |dims| ==> AlignShape(dims)[i] == 1
    ensures Prod(AlignShape(dims)) == Prod(dims)
  {
    ProdConcat(Ones(Rank - |dims|), dims);
    ProdOnes(Rank - |dims|);
  }

  /** The stride of axis `j`: 0 for an axis of extent 1, otherwise the
      product of the extents to its right. */
  function StrideAt(s: seq<nat>, j: nat): nat
    requires j < |s|
  {
    if s[j] == 1 then 0 else Prod(s[j + 1..])
  }

  function StridesOf(s: seq<nat>): (r: seq<nat>)
    ensures |r| == |s| && forall j :: 0 <= j < |s| ==> r[j] == StrideAt(s, j)
  {
    seq(|s|, j requires 0 <= j < |s| => StrideAt(s, j))
  }

  lemma StridesOfTail(s: seq<nat>)
    requires s != []
    ensures StridesOf(s)[1..] == StridesOf(s[1..])
  {
    forall j | 0 <= j < |s| - 1
      ensures StridesOf(s)[1..][j] == StridesOf(s[1..])[j]
    {
      assert s[j + 1 + 1..] == s[1..][j + 1..];
    }
  }

  // ---------------------------------------------------------------------------
  // Index tuples

  ghost predicate InBounds(idx: seq<nat>, s: seq<nat>)
  {
    |idx| == |s| && forall i :: 0 <= i < |s| ==> idx[i] < s[i]
  }

  /** The row-major position of an index tuple. */
  function Linear(idx: seq<nat>, s: seq<nat>): nat
    requires |idx| == |s|
  {
    if idx == [] then 0 else idx[0] * Prod(s[1..]) + Linear(idx[1..], s[1..])
  }

  /** The stride-weighted offset the kernels compute from an index tuple. */
  function Offset(idx: seq<nat>, stride: seq<nat>): nat
    requires |idx| == |stride|
  {
    if idx == [] then 0 else idx[0] * stride[0] + Offset(idx[1..], stride[1..])
  }

  /** The index tuple at a row-major position. */
  function Unravel(p: nat, s: seq<nat>): (r: seq<nat>)
    requires p < Prod(s)
    ensures |r| == |s|
  {
    if s == [] then []
    else
      var q := Prod(s[1..]);
      assert q > 0;
      [p / q] + Unravel(p % q, s[1..])
  }

  /** An in-range index tuple has a position inside the buffer. */
  lemma {:induction false} LinearBound(idx: seq<nat>, s: seq<nat>)
    requires InBounds(idx, s)
    ensures Linear(idx, s) < Prod(s)
  {
    if idx != [] {
      LinearBound(idx[1..], s[1..]);
      RowBound(idx[0], s[0], Prod(s[1..]), Linear(idx[1..], s[1..]));
    }
  }

  /** With a tensor's own strides, the kernels' offset is the row-major
      position (an axis of extent 1 only ever has index 0). */
  lemma {:induction false} OffsetIsLinear(idx: seq<nat>, s: seq<nat>)
    requires InBounds(idx, s)
    ensures Offset(idx, StridesOf(s)) == Linear(idx, s)
  {
    if idx != [] {
      StridesOfTail(s);
      OffsetIsLinear(idx[1..], s[1..]);
    }
  }

  lemma {:induction false} UnravelLinear(idx: seq<nat>, s: seq<nat>)
    requires InBounds(idx, s)
    ensures Linear(idx, s) < Prod(s)
    ensures Unravel(Linear(idx, s), s) == idx
  {
    LinearBound(idx, s);
    if idx != [] {
      var q := Prod(s[1..]);
      LinearBound(idx[1..], s[1..]);
      ModUnique(Linear(idx, s), q, idx[0], Linear(idx[1..], s[1..]));
      UnravelLinear(idx[1..], s[1..]);
      assert Unravel(Linear(idx, s), s) == [idx[0]] + idx[1..];
      HeadSplit(idx);
    }
  }

  lemma {:induction false} LinearUnravel(p: nat, s: seq<nat>)
    requires p < Prod(s)
    ensures InBounds(Unravel(p, s), s)
    ensures Linear(Unravel(p, s), s) == p
  {
    if s != [] {
      var q := Prod(s[1..]);
      LinearUnravel(p % q, s[1..]);
      QuotientBelow(p, q, s[0]);
      var t := Unravel(p % q, s[1..]);
      assert Unravel(p, s) == [p / q] + t;
      ConsLinear(p / q, t, s);
      DivMod(p, q);
    }
  }

  /** Prepending an in-range leading index to a tuple of the trailing shape. */
  lemma ConsLinear(h: nat, t: seq<nat>, s: seq<nat>)
    requires s != [] && h < s[0] && InBounds(t, s[1..])
    ensures InBounds([h] + t, s)
    ensures Linear([h] + t, s) == h * Prod(s[1..]) + Linear(t, s[1..])
  {
    ConsParts(h, t);
  }

  lemma DivMod(p: nat, q: nat)
    requires q > 0
    ensures (p / q) * q + p % q == p
  {
  }

  lemma QuotientBelow(p: nat, q: nat, n: nat)
    requires p < n * q
    ensures q > 0 && p / q < n
  {
    if p / q >= n {
      MulLeMono(n, p / q, q);
    }
  }

  /** Position 0 is the all-zero tuple. */
  lemma {:induction false} UnravelZero(s: seq<nat>)
    requires 0 < Prod(s)
    ensures forall i :: 0 <= i < |s| ==> Unravel(0, s)[i] == 0
  {
    if s != [] {
      var q := Prod(s[1..]);
      assert Prod(s) == s[0] * q;
      UnravelZero(s[1..]);
      assert Unravel(0, s) == [0] + Unravel(0, s[1..]);
    }
  }

  /** Row-major positions and in-range index tuples correspond one to one:
      distinct tuples have distinct positions. */
  lemma LinearInjective(idx: seq<nat>, jdx: seq<nat>, s: seq<nat>)
    requires InBounds(idx, s) && InBounds(jdx, s)
    requires Linear(idx, s) == Linear(jdx, s)
    ensures idx == jdx
  {
    UnravelLinear(idx, s);
    UnravelLinear(jdx, s);
  }

  lemma {:induction false} LinearSnoc(idx: seq<nat>, s: seq<nat>, x: nat, y: nat)
    requires |idx| == |s|
    ensures Linear(idx + [x], s + [y]) == Linear(idx, s) * y + x
  {
    if idx == [] {
      assert Prod([y][1..]) == 1;
    } else {
      ConcatTail(idx, [x]);
      ConcatTail(s, [y]);
      LinearSnoc(idx[1..], s[1..], x, y);
      ProdSnoc(s[1..], y);
      RowDistrib(idx[0], Prod(s[1..]), Linear(idx[1..], s[1..]), y);
    }
  }

  lemma Prod4(s: seq<nat>)
    requires |s| == Rank
    ensures Prod(s) == s[0] * (s[1] * (s[2] * s[3]))
    ensures Prod(s[1..]) == s[1] * (s[2] * s[3])
    ensures Prod(s[2..]) == s[2] * s[3]
    ensures Prod(s[3..]) == s[3]
  {
    assert s[3..][1..] == [];
    assert s[2..][1..] == s[3..];
    assert s[1..][1..] == s[2..];
    assert Prod(s[2..]) == s[2] * Prod(s[3..]);
    assert Prod(s[1..]) == s[1] * Prod(s[2..]);
    assert Prod(s) == s[0] * Prod(s[1..]);
  }

  lemma ProdSnoc(s: seq<nat>, x: nat)
    ensures Prod(s + [x]) == Prod(s) * x
  {
    ProdConcat(s, [x]);
    assert Prod([x]) == x * Prod([]);
  }

  lemma {:induction false} OffsetSnoc(idx: seq<nat>, st: seq<nat>, x: nat, y: nat)
    requires |idx| == |st|
    ensures Offset(idx + [x], st + [y]) == Offset(idx, st) + x * y
  {
    if idx != [] {
      ConcatTail(idx, [x]);
      ConcatTail(st, [y]);
      OffsetSnoc(idx[1..], st[1..], x, y);
    }
  }

  lemma Offset4(idx: seq<nat>, st: seq<nat>)
    requires |idx| == Rank && |st| == Rank
    ensures Offset(idx, st) == idx[0] * st[0] + idx[1] * st[1] + idx[2] * st[2] + idx[3] * st[3]
  {
    assert idx[1..][1..] == idx[2..] && st[1..][1..] == st[2..];
    assert idx[2..][1..] == idx[3..] && st[2..][1..] == st[3..];
    assert idx[3..][1..] == [] && st[3..][1..] == [];
    assert Offset(idx[3..], st[3..]) == idx[3] * st[3];
    assert Offset(idx[2..], st[2..]) == idx[2] * st[2] + Offset(idx[3..], st[3..]);
    assert Offset(idx[1..], st[1..]) == idx[1] * st[1] + Offset(idx[2..], st[2..]);
  }

  // ---------------------------------------------------------------------------
  // The odometer

  /** One step of the kernels' index odometer: bump the last index, and
      whenever an index reaches its extent reset it to 0 and carry into the
      index before it.  Carrying out of the first index leaves all zeros. */
  function Carry(idx: seq<nat>, s: seq<nat>): (r: seq<nat>)
    requires |idx| == |s|
    ensures |r| == |idx|
  {
    if idx == [] then []
    else
      var n := |idx| - 1;
      if idx[n] + 1 < s[n] then idx[..n] + [idx[n] + 1]
      else Carry(idx[..n], s[..n]) + [0]
  }

  /** Stepping the odometer moves to the next row-major position, so `k`
      steps from all zeros reach the tuple at position `k`, and a run of
      Prod(s) steps visits every in-range tuple exactly once. */
  lemma {:induction false} CarryStep(idx: seq<nat>, s: seq<nat>)
    requires InBounds(idx, s) && Linear(idx, s) + 1 < Prod(s)
    ensures InBounds(Carry(idx, s), s)
    ensures Linear(Carry(idx, s), s) == Linear(idx, s) + 1
  {
    var n := |idx| - 1;
    if idx[n] + 1 < s[n] {
      CarryInRow(idx, s);
    } else {
      CarryOutOfRow(idx, s);
      CarryStep(idx[..n], s[..n]);
      CarryIntoRow(idx, s);
    }
  }

  /** The last index and extent split off, with the position they give. */
  lemma SplitLast(idx: seq<nat>, s: seq<nat>)
    requires |idx| == |s| && idx != []
    ensures var n := |idx| - 1;
      idx == idx[..n] + [idx[n]] && s == s[..n] + [s[n]]
      && Linear(idx, s) == Linear(idx[..n], s[..n]) * s[n] + idx[n]
      && Prod(s) == Prod(s[..n]) * s[n]
  {
    var n := |idx| - 1;
    LastSplit(idx);
    LastSplit(s);
    LinearSnoc(idx[..n], s[..n], idx[n], s[n]);
    ProdSnoc(s[..n], s[n]);
  }

  /** Without a carry the odometer moves one column right. */
  lemma CarryInRow(idx: seq<nat>, s: seq<nat>)
    requires InBounds(idx, s) && idx != [] && idx[|idx| - 1] + 1 < s[|idx| - 1]
    ensures InBounds(Carry(idx, s), s)
    ensures Linear(Carry(idx, s), s) == Linear(idx, s) + 1
  {
    var n := |idx| - 1;
    SplitLast(idx, s);
    LinearSnoc(idx[..n], s[..n], idx[n] + 1, s[n]);
    assert Carry(idx, s) == idx[..n] + [idx[n] + 1];
  }

  /** When the last index is at its end and the position is not the last
      one, the prefix is not at its last position either. */
  lemma CarryOutOfRow(idx: seq<nat>, s: seq<nat>)
    requires InBounds(idx, s) && Linear(idx, s) + 1 < Prod(s)
    requires idx != [] && idx[|idx| - 1] + 1 >= s[|idx| - 1]
    ensures var n := |idx| - 1;
      InBounds(idx[..n], s[..n]) && Linear(idx[..n], s[..n]) + 1 < Prod(s[..n])
  {
    var n := |idx| - 1;
    SplitLast(idx, s);
    var l := Linear(idx[..n], s[..n]);
    MulSucc(l, s[n]);
    NextRowStillInside(l, s[n], Prod(s[..n]));
  }

  /** With the prefix carried one position on, resetting the last index
      moves to the next position. */
  lemma CarryIntoRow(idx: seq<nat>, s: seq<nat>)
    requires InBounds(idx, s) && idx != [] && idx[|idx| - 1] + 1 >= s[|idx| - 1]
    requires var n := |idx| - 1;
      InBounds(Carry(idx[..n], s[..n]), s[..n])
      && Linear(Carry(idx[..n], s[..n]), s[..n]) == Linear(idx[..n], s[..n]) + 1
    ensures InBounds(Carry(idx, s), s)
    ensures Linear(Carry(idx, s), s) == Linear(idx, s) + 1
  {
    var n := |idx| - 1;
    SplitLast(idx, s);
    var c := Carry(idx[..n], s[..n]);
    assert Carry(idx, s) == c + [0];
    LinearSnoc(c, s[..n], 0, s[n]);
    MulSucc(Linear(idx[..n], s[..n]), s[n]);
  }

  lemma NextRowStillInside(l: nat, x: nat, p: nat)
    requires (l + 1) * x < p * x
    ensures l + 1 < p
  {
    if l + 1 >= p {
      MulLeMono(p, l + 1, x);
    }
  }

  // ---------------------------------------------------------------------------
  // Broadcasting

  /** An operand of shape `sa` can be read at every index of shape `r`: each
      of its extents either matches or is 1. */
  ghost predicate Fits(sa: seq<nat>, r: seq<nat>)
  {
    |sa| == |r| && forall i :: 0 <= i < |r| ==> sa[i] == r[i] || sa[i] == 1
  }

  /** The operand's own index for a result index: 0 on its size-1 axes. */
  function BroadcastIndex(idx: seq<nat>, sa: seq<nat>): (r: seq<nat>)
    requires |idx| == |sa|
    ensures |r| == |idx|
  {
    seq(|idx|, i requires 0 <= i < |idx| => if sa[i] == 1 then 0 else idx[i])
  }

  lemma {:induction false} OffsetPointwise(idx: seq<nat>, jdx: seq<nat>, st: seq<nat>)
    requires |idx| == |jdx| == |st|
    requires forall i :: 0 <= i < |st| ==> idx[i] * st[i] == jdx[i] * st[i]
    ensures Offset(idx, st) == Offset(jdx, st)
  {
    if idx != [] {
      OffsetPointwise(idx[1..], jdx[1..], st[1..]);
    }
  }

  /** Reading an operand with its own strides at a result index reads the
      operand's element at the broadcast index, which lies inside its buffer:
      stride 0 on a size-1 axis is what makes broadcasting work. */
  lemma BroadcastOffset(idx: seq<nat>, sa: seq<nat>, r: seq<nat>)
    requires InBounds(idx, r) && Fits(sa, r)
    ensures InBounds(BroadcastIndex(idx, sa), sa)
    ensures Offset(idx, StridesOf(sa)) == Linear(BroadcastIndex(idx, sa), sa)
    ensures Offset(idx, StridesOf(sa)) < Prod(sa)
  {
    var b := BroadcastIndex(idx, sa);
    OffsetPointwise(idx, b, StridesOf(sa));
    OffsetIsLinear(b, sa);
    LinearBound(b, sa);
  }

  // ---------------------------------------------------------------------------
  // Shape inference

  /** The per-axis broadcast rule: equal extents, or one of them is 1 and the
      other is taken. */
  function BroadcastDim(x: nat, y: nat): Option<nat>
  {
    if x == y then Some(x)
    else if x == 1 then Some(y)
    else if y == 1 then Some(x)
    else None
  }

  /** The result shape of tensor_add. */
  function AddShape(a: seq<nat>, b: seq<nat>): Result<seq<nat>>
    requires |a| == Rank && |b| == Rank
  {
    if forall i :: 0 <= i < Rank ==> BroadcastDim(a[i], b[i]).Some? then
      Ok(seq(Rank, i requires 0 <= i < Rank => BroadcastDim(a[i], b[i]).value))
    else Err(ShapeMismatch)
  }

  /** tensor_add accepts exactly the shapes whose extents agree or are 1 on
      every axis; the result takes the extent that is not 1, and both
      operands then fit it. */
  lemma AddShapeSpec(a: seq<nat>, b: seq<nat>)
    requires |a| == Rank && |b| == Rank
    ensures AddShape(a, b).Ok? <==> forall i :: 0 <= i < Rank ==> a[i] == b[i] || a[i] == 1 || b[i] == 1
    ensures AddShape(a, b).Err? ==> AddShape(a, b).error == ShapeMismatch
    ensures AddShape(a, b).Ok? ==>
      var r := AddShape(a, b).value;
      |r| == Rank
      && (forall i :: 0 <= i < Rank ==> r[i] == if a[i] == 1 then b[i] else a[i])
      && Fits(a, r) && Fits(b, r)
  {
  }

  /** The broadcast rule does not depend on operand order. */
  lemma AddShapeCommutes(a: seq<nat>, b: seq<nat>)
    requires |a| == Rank && |b| == Rank
    ensures AddShape(a, b) == AddShape(b, a)
  {
    if AddShape(a, b).Ok? {
      assert AddShape(b, a).Ok?;
      assert AddShape(a, b).value == AddShape(b, a).value;
    }
  }

  /** The batch extents (axes 0 and 1) of a product, or `None` when they do
      not broadcast. */
  function BatchShape(a: seq<nat>, b: seq<nat>): Option<seq<nat>>
    requires |a| == Rank && |b| == Rank
  {
    var d0, d1 := BroadcastDim(a[0], b[0]), BroadcastDim(a[1], b[1]);
    if d0.Some? && d1.Some? then Some([d0.value, d1.value]) else None
  }

  /** The result shape of tensor_mul. */
  function MulShape(a: seq<nat>, b: seq<nat>): Result<seq<nat>>
    requires |a| == Rank && |b| == Rank
  {
    var batch := BatchShape(a, b);
    if batch.None? then Err(ShapeMismatch)
    else if a[3] != b[2] then Err(ShapeMismatch)
    else Ok(batch.value + [a[2], b[3]])
  }

  /** The result shape of tensor_mul_tr for each transpose combination. */
  function MulTrShape(a: seq<nat>, b: seq<nat>, at: bool, bt: bool): Result<seq<nat>>
    requires |a| == Rank && |b| == Rank
  {
    var batch := BatchShape(a, b);
    if batch.None? then Err(ShapeMismatch)
    else if at && !bt then
      if a[2] != b[2] then Err(ShapeMismatch) else Ok(batch.value + [a[3], b[3]])
    else if !at && bt then
      if a[3] != b[3] then Err(ShapeMismatch) else Ok(batch.value + [a[2], b[2]])
    else if at && bt then
      if a[2] != b[3] then Err(ShapeMismatch) else Ok(batch.value + [a[3], b[2]])
    else
      if a[3] != b[2] then Err(ShapeMismatch) else Ok(batch.value + [a[2], b[3]])
  }

  /** The rows and columns of a matrix operand as the product sees it: swapped
      when the operand is transposed. */
  function RowsAs(a: seq<nat>, t: bool): nat
    requires |a| == Rank
  {
    if t then a[3] else a[2]
  }

  function ColsAs(a: seq<nat>, t: bool): nat
    requires |a| == Rank
  {
    if t then a[2] else a[3]
  }

  /** Every transpose variant is the ordinary product rule applied to the
      transposed operands: the batch axes broadcast, the inner extents of
      op(a) and op(b) agree, and the result is rows(op a) x cols(op b). */
  lemma MulTrShapeSpec(a: seq<nat>, b: seq<nat>, at: bool, bt: bool)
    requires |a| == Rank && |b| == Rank
    ensures MulTrShape(a, b, at, bt).Ok? <==>
      (forall i :: 0 <= i < 2 ==> a[i] == b[i] || a[i] == 1 || b[i] == 1)
      && ColsAs(a, at) == RowsAs(b, bt)
    ensures MulTrShape(a, b, at, bt).Ok? ==>
      var r := MulTrShape(a, b, at, bt).value;
      |r| == Rank
      && (forall i :: 0 <= i < 2 ==> r[i] == if a[i] == 1 then b[i] else a[i])
      && r[2] == RowsAs(a, at) && r[3] == ColsAs(b, bt)
  {
  }

  /** tensor_mul is the no-transpose case of tensor_mul_tr. */
  lemma MulShapeIsPlainMulTr(a: seq<nat>, b: seq<nat>)
    requires |a| == Rank && |b| == Rank
    ensures MulShape(a, b) == MulTrShape(a, b, false, false)
  {
  }

  /** The result shape of tensor_reduce_add. */
  function ReduceShape(s: seq<nat>, dim: nat): Result<seq<nat>>
    requires |s| == Rank
  {
    if dim > 3 then Err(BadAxis) else Ok(s[dim := 1])
  }

  /** Reducing keeps every other axis, collapses the reduced one to 1, and
      divides the element count by the reduced extent. */
  lemma ReduceShapeSpec(s: seq<nat>, dim: nat)
    requires |s| == Rank
    ensures ReduceShape(s, dim).Ok? <==> dim < Rank
    ensures ReduceShape(s, dim).Ok? ==>
      var r := ReduceShape(s, dim).value;
      |r| == Rank && r[dim] == 1
      && (forall i :: 0 <= i < Rank && i != dim ==> r[i] == s[i])
      && Prod(r) * s[dim] == Prod(s)
  {
    if dim < Rank {
      ProdCollapse(s, dim);
    }
  }

  lemma {:induction false} ProdCollapse(s: seq<nat>, dim: nat)
    requires dim < |s|
    ensures Prod(s[dim := 1]) * s[dim] == Prod(s)
  {
    var r := s[dim := 1];
    UpdateTail(s, dim, 1);
    assert Prod(r) == r[0] * Prod(r[1..]);
    assert Prod(s) == s[0] * Prod(s[1..]);
    if dim > 0 {
      ProdCollapse(s[1..], dim - 1);
      MulAssoc(s[0], Prod(r[1..]), s[dim]);
    }
  }

  /** The shape tensor_cross_entropy produces: a single element. */
  function CrossEntropyShape(src: seq<nat>, truth: seq<nat>): Result<seq<nat>>
    requires |src| == Rank && |truth| == Rank
  {
    if src[3] != truth[3] then Err(ShapeMismatch)
    else if truth[0] != 1 || truth[1] != 1 then Err(ShapeMismatch)
    else if src[0] != 1 || src[1] != 1 then Err(ShapeMismatch)
    else Ok([1, 1, 1, 1])
  }

  lemma CrossEntropyShapeSpec(src: seq<nat>, truth: seq<nat>)
    requires |src| == Rank && |truth| == Rank
    ensures CrossEntropyShape(src, truth).Ok? <==>
      src[3] == truth[3] && src[0] == 1 && src[1] == 1 && truth[0] == 1 && truth[1] == 1
    ensures CrossEntropyShape(src, truth).Ok? ==> Prod(CrossEntropyShape(src, truth).value) == 1
  {
    if CrossEntropyShape(src, truth).Ok? {
      Prod4([1, 1, 1, 1]);
    }
  }

  /** The shape tensor_sub_scaled produces: its operands' common shape. */
  function SubScaledShape(a: seq<nat>, b: seq<nat>): Result<seq<nat>>
    requires |a| == Rank && |b| == Rank
  {
    if exists i :: 0 <= i < Rank && a[i] != b[i] then Err(ShapeMismatch) else Ok(a)
  }

  lemma SubScaledShapeSpec(a: seq<nat>, b: seq<nat>)
    requires |a| == Rank && |b| == Rank
    ensures SubScaledShape(a, b).Ok? <==> a == b
    ensures SubScaledShape(a, b).Ok? ==> SubScaledShape(a, b).value == b
  {
    if SubScaledShape(a, b).Ok? {
      assert forall i :: 0 <= i < Rank ==> a[i] == b[i];
    }
  }
}
