/** The element-wise and reduction kernels of cpu_kernels.c: the
    broadcasting add, relu forward and backward, and the sum along one axis.
    Each kernel writes the element buffer of its result tensor in place; the
    descriptors are fixed.  Output buffers are distinct from input buffers. */
module Kernels {
  import opened Common
  import opened Shapes
  import opened Tensors
  import opened Lanes

  // ---------------------------------------------------------------------------
  // What the kernels compute

  /** The element of an operand of shape `s` that broadcasting pairs with the
      result index `idx`: its row-major element at the broadcast index.
      (Total for convenience; the kernels only use it where it is in range.) */
  function Broadcast(data: seq<real>, s: seq<nat>, idx: seq<nat>): real
    requires |idx| == |s|
  {
    var p := Linear(BroadcastIndex(idx, s), s);
    if p < |data| then data[p] else 0.0
  }

  /** The broadcast sum of two operands at a result index. */
  function SumAt(a: seq<real>, sa: seq<nat>, b: seq<real>, sb: seq<nat>, idx: seq<nat>): real
    requires |idx| == |sa| && |idx| == |sb|
  {
    Broadcast(a, sa, idx) + Broadcast(b, sb, idx)
  }

  function Relu(x: real): real
  {
    if x > 0.0 then x else 0.0
  }

  /** The gradient relu passes back: the incoming gradient where the input
      was positive, zero elsewhere. */
  function ReluGrad(x: real, g: real): real
  {
    if x > 0.0 then g else 0.0
  }

  /** The vector maximum against zero is relu, lane by lane. */
  lemma MaxZeroIsRelu(x: real)
    ensures RealMax(x, 0.0) == Relu(x)
  {
  }

  // ---------------------------------------------------------------------------
  // Index bookkeeping shared by the kernels

  /** The three stride-weighted offsets of an index over its first `n` axes,
      accumulated axis by axis. */
  method Offsets(index: seq<nat>, sa: seq<nat>, sb: seq<nat>, sr: seq<nat>, n: nat)
    returns (aOff: nat, bOff: nat, rOff: nat)
    requires |index| == |sa| == |sb| == |sr| && n <= |index|
    ensures aOff == Offset(index[..n], sa[..n])
    ensures bOff == Offset(index[..n], sb[..n])
    ensures rOff == Offset(index[..n], sr[..n])
  {
    aOff, bOff, rOff := 0, 0, 0;
    var i: nat := 0;
    while i < n
      invariant i <= n
      invariant aOff == Offset(index[..i], sa[..i])
      invariant bOff == Offset(index[..i], sb[..i])
      invariant rOff == Offset(index[..i], sr[..i])
    {
      OffsetPrefixStep(index, sa, i);
      OffsetPrefixStep(index, sb, i);
      OffsetPrefixStep(index, sr, i);
      aOff := aOff + index[i] * sa[i];
      bOff := bOff + index[i] * sb[i];
      rOff := rOff + index[i] * sr[i];
      i := i + 1;
    }
  }

  /** One more axis of the stride-weighted offset. */
  lemma OffsetPrefixStep(idx: seq<nat>, st: seq<nat>, i: nat)
    requires |idx| == |st| && i < |idx|
    ensures Offset(idx[..i + 1], st[..i + 1]) == Offset(idx[..i], st[..i]) + idx[i] * st[i]
  {
    PrefixSnoc(idx, i);
    PrefixSnoc(st, i);
    OffsetSnoc(idx[..i], st[..i], idx[i], st[i]);
  }

  /** A step of the odometer over the first `n` axes moves their row-major
      position by one and leaves the other axes alone. */
  lemma OdometerStep(idx: seq<nat>, s: seq<nat>, n: nat, p: nat, next: seq<nat>)
    requires |idx| == |s| && n <= |s| && p < Prod(s[..n]) && idx[..n] == Unravel(p, s[..n])
    requires next == Carry(idx[..n], s[..n]) + idx[n..]
    ensures |next| == |idx| && next[n..] == idx[n..]
    ensures forall k :: n <= k < |idx| ==> next[k] == idx[k]
    ensures p + 1 < Prod(s[..n]) ==> next[..n] == Unravel(p + 1, s[..n])
  {
    var c := Carry(idx[..n], s[..n]);
    ConcatParts(c, idx[n..]);
    if p + 1 < Prod(s[..n]) {
      LinearUnravel(p, s[..n]);
      CarryStep(idx[..n], s[..n]);
      UnravelLinear(c, s[..n]);
    }
  }

  /** One step of the index odometer over the first `n` axes: bump index
      `n - 1`; an index that reaches its extent is reset and carries into
      the one before it. */
  method Advance(index: seq<nat>, s: seq<nat>, n: nat) returns (next: seq<nat>)
    requires |index| == |s| && n <= |s|
    ensures next == Carry(index[..n], s[..n]) + index[n..]
  {
    next := index;
    var i := n;
    var done := false;
    while i > 0 && !done
      invariant 0 <= i <= n && |next| == |index|
      invariant next[n..] == index[n..]
      invariant done ==> next == Carry(index[..n], s[..n]) + index[n..]
      invariant !done ==>
        Carry(index[..n], s[..n]) + index[n..] == Carry(next[..i], s[..i]) + next[i..]
    {
      i := i - 1;
      ghost var before := next;
      assert before[..i + 1] == before[..i] + [before[i]];
      assert s[..i + 1][..i] == s[..i];
      assert before[..i + 1][..i] == before[..i];
      next := next[i := next[i] + 1];
      if next[i] < s[i] {
        assert next == before[..i] + [before[i] + 1] + before[i + 1..];
        done := true;
      } else {
        next := next[i := 0];
        assert next[..i] == before[..i];
        assert before[i..] == [before[i]] + before[i + 1..];
        assert next[i..] == [0] + before[i + 1..];
      }
    }
    if !done {
      assert next[..0] == [] && s[..0] == [];
      assert next[0..] == next;
    }
  }

  // ---------------------------------------------------------------------------
  // relu

  lemma SameShapeSameLength(t: Tensor, u: Tensor)
    requires t.Valid() && u.Valid() && t.shape == u.shape
    ensures t.dataLen == u.dataLen && t.data.Length == u.data.Length
  {
  }

  /** _tensor_kernel_relu: when the shapes agree, every element of `dst`
      becomes the relu of the matching element of `src`, written 16 at a time
      and then one at a time for the tail; when they differ nothing is
      written. */
  method KernelRelu(src: Tensor, dst: Tensor)
    requires src.Valid() && dst.Valid() && src.data != dst.data
    modifies dst.data
    ensures src.shape != dst.shape ==> dst.data[..] == old(dst.data[..])
    ensures src.shape == dst.shape ==>
      forall i :: 0 <= i < dst.data.Length ==> dst.data[i] == Relu(src.data[i])
  {
    var d := 0;
    while d < Rank
      invariant 0 <= d <= Rank
      invariant forall j :: 0 <= j < d ==> src.shape[j] == dst.shape[j]
    {
      if src.shape[d] != dst.shape[d] {
        return;
      }
      d := d + 1;
    }
    assert src.shape == dst.shape;
    SameShapeSameLength(src, dst);
    var vecs := src.dataLen / Width;
    var i: nat := 0;
    var zero := Zero();
    var iv: nat := 0;
    while iv < vecs
      invariant iv <= vecs && i == Width * iv
      invariant forall j :: 0 <= j < i ==> dst.data[j] == Relu(src.data[j])
    {
      var v := Load(src.data[..], i);
      v := MaxLanes(v, zero);
      ghost var before := dst.data[..];
      StoreVector(dst.data, i, v);
      ReluBlock(before, dst.data[..], src.data[..], i, v);
      i := i + Width;
      iv := iv + 1;
    }
    while i < src.dataLen
      invariant Width * vecs <= i <= src.dataLen
      invariant forall j :: 0 <= j < i ==> dst.data[j] == Relu(src.data[j])
    {
      dst.data[i] := if src.data[i] > 0.0 then src.data[i] else 0.0;
      i := i + 1;
    }
  }

  /** A store of sixteen relus after a prefix of relus extends the prefix. */
  lemma ReluBlock(before: seq<real>, after: seq<real>, s: seq<real>, i: nat, v: seq<real>)
    requires |v| == Width && i + Width <= |before| && i + Width <= |s|
    requires after == before[..i] + v + before[i + Width..]
    requires forall j :: 0 <= j < i ==> before[j] == Relu(s[j])
    requires forall l :: 0 <= l < Width ==> v[l] == RealMax(s[i + l], 0.0)
    ensures forall j :: 0 <= j < i + Width ==> after[j] == Relu(s[j])
  {
    forall j | 0 <= j < i + Width
      ensures after[j] == Relu(s[j])
    {
      if j >= i {
        MaxZeroIsRelu(s[j]);
      }
    }
  }

  /** A store of sixteen relu gradients after a prefix of them extends the
      prefix. */
  lemma ReluGradBlock(before: seq<real>, after: seq<real>, s: seq<real>, g: seq<real>, i: nat, v: seq<real>)
    requires |v| == Width && i + Width <= |before| && i + Width <= |s| && i + Width <= |g|
    requires after == before[..i] + v + before[i + Width..]
    requires forall j :: 0 <= j < i ==> before[j] == ReluGrad(s[j], g[j])
    requires forall l :: 0 <= l < Width ==> v[l] == if s[i + l] > 0.0 then g[i + l] else 0.0
    ensures forall j :: 0 <= j < i + Width ==> after[j] == ReluGrad(s[j], g[j])
  {
    forall j | 0 <= j < i + Width
      ensures after[j] == ReluGrad(s[j], g[j])
    {
      if j >= i {
        assert v[j - i] == after[j];
      }
    }
  }

  /** _tensor_kernel_relu_bwd: when all three shapes agree, every element of
      `srcGrad` becomes the incoming gradient where the input is positive and
      zero elsewhere; otherwise nothing is written. */
  method KernelReluBwd(src: Tensor, srcGrad: Tensor, inGrad: Tensor)
    requires src.Valid() && srcGrad.Valid() && inGrad.Valid()
    requires srcGrad.data != src.data && srcGrad.data != inGrad.data
    modifies srcGrad.data
    ensures !(src.shape == srcGrad.shape == inGrad.shape) ==> srcGrad.data[..] == old(srcGrad.data[..])
    ensures src.shape == srcGrad.shape == inGrad.shape ==>
      forall i :: 0 <= i < srcGrad.data.Length ==>
        srcGrad.data[i] == ReluGrad(src.data[i], inGrad.data[i])
  {
    var d := 0;
    while d < Rank
      invariant 0 <= d <= Rank
      invariant forall j :: 0 <= j < d ==> src.shape[j] == srcGrad.shape[j] == inGrad.shape[j]
    {
      if src.shape[d] != srcGrad.shape[d] || srcGrad.shape[d] != inGrad.shape[d]
         || src.shape[d] != inGrad.shape[d] {
        return;
      }
      d := d + 1;
    }
    assert src.shape == srcGrad.shape == inGrad.shape;
    SameShapeSameLength(src, srcGrad);
    SameShapeSameLength(src, inGrad);
    var vecs := src.dataLen / Width;
    var i: nat := 0;
    var zero := Zero();
    var iv: nat := 0;
    while iv < vecs
      invariant iv <= vecs && i == Width * iv
      invariant forall j :: 0 <= j < i ==> srcGrad.data[j] == ReluGrad(src.data[j], inGrad.data[j])
    {
      var sv := Load(src.data[..], i);
      var gv := Load(inGrad.data[..], i);
      var mask := GreaterMask(sv, zero);
      gv := MaskMove(mask, gv);
      ghost var before := srcGrad.data[..];
      StoreVector(srcGrad.data, i, gv);
      ReluGradBlock(before, srcGrad.data[..], src.data[..], inGrad.data[..], i, gv);
      i := i + Width;
      iv := iv + 1;
    }
    while i < src.dataLen
      invariant Width * vecs <= i <= src.dataLen
      invariant forall j :: 0 <= j < i ==> srcGrad.data[j] == ReluGrad(src.data[j], inGrad.data[j])
    {
      srcGrad.data[i] := if src.data[i] > 0.0 then inGrad.data[i] else 0.0;
      i := i + 1;
    }
  }

  // ---------------------------------------------------------------------------
  // The broadcasting add

  /** The last column the add kernel writes in each row.  The vector path
      (equal innermost extents of at least 16 on both operands) handles
      `16 * (r[3] / 16)` columns sixteen at a time, and its tail loop re-reads
      the index it stopped at instead of its own counter, so of the columns
      after those only the first is written.  The scalar path writes every
      column. */
  function AddCut(sa: seq<nat>, sb: seq<nat>, r: seq<nat>): nat
    requires |sa| == Rank && |sb| == Rank && |r| == Rank
  {
    if sa[3] == sb[3] && sa[3] >= Width then Width * (r[3] / Width) else r[3]
  }

  /** The state of the result buffer during the add kernel: every position
      before `upto` whose column is at most `cut` holds the broadcast sum of
      its index, and every other position holds its value on entry. */
  ghost predicate AddDone(res: seq<real>, init: seq<real>, a: seq<real>, sa: seq<nat>,
                          b: seq<real>, sb: seq<nat>, r: seq<nat>, upto: nat, cut: nat)
    requires |r| == Rank && |sa| == Rank && |sb| == Rank && |res| == Prod(r)
  {
    |init| == |res|
    && forall p :: 0 <= p < |res| ==>
      res[p] == (if p < upto && Unravel(p, r)[3] <= cut
                 then SumAt(a, sa, b, sb, Unravel(p, r)) else init[p])
  }

  lemma RowCount(r: seq<nat>)
    requires |r| == Rank
    ensures r[0] * r[1] * r[2] == Prod(r[..3])
    ensures Prod(r[..3]) * r[3] == Prod(r)
  {
    var q := r[..3];
    assert q[1..][1..][1..] == [];
    assert Prod(q[1..][1..]) == r[2];
    assert Prod(q[1..]) == r[1] * r[2];
    assert Prod(q) == r[0] * (r[1] * r[2]);
    assert r == q + [r[3]];
    ProdSnoc(q, r[3]);
  }

  /** The first index of row `row` is in range and sits at `row * r[3]`. */
  lemma RowStart(idx: seq<nat>, r: seq<nat>, row: nat)
    requires |idx| == Rank && |r| == Rank && r[3] > 0
    requires row < Prod(r[..3]) && idx[..3] == Unravel(row, r[..3]) && idx[3] == 0
    ensures InBounds(idx, r) && Linear(idx, r) == row * r[3]
  {
    LinearUnravel(row, r[..3]);
    LastSplit(idx);
    LastSplit(r);
    LinearSnoc(idx[..3], r[..3], 0, r[3]);
  }

  /** Moving `l` columns right inside a row moves `l` positions forward. */
  lemma ColumnStep(idx: seq<nat>, r: seq<nat>, l: nat)
    requires |r| == Rank && InBounds(idx, r) && idx[3] + l < r[3]
    ensures InBounds(idx[3 := idx[3] + l], r)
    ensures Linear(idx[3 := idx[3] + l], r) == Linear(idx, r) + l
  {
    var jdx := idx[3 := idx[3] + l];
    LastSplit(idx);
    UpdateLast(idx, idx[3] + l);
    LastSplit(r);
    LinearSnoc(idx[..3], r[..3], idx[3], r[3]);
    LinearSnoc(idx[..3], r[..3], idx[3] + l, r[3]);
  }

  /** An operand read through its own strides at a result index, `l` lanes
      to the right: within its buffer, and the broadcast element of the index
      `l` columns further on (the innermost stride is 1 once the innermost
      extent matches the result's and exceeds 1). */
  lemma StridedLane(data: seq<real>, s: seq<nat>, r: seq<nat>, idx: seq<nat>, l: nat)
    requires |r| == Rank && InBounds(idx, r) && Fits(s, r) && |data| == Prod(s)
    requires idx[3] + l < r[3] && (l == 0 || s[3] == r[3])
    ensures Offset(idx, StridesOf(s)) + l < |data|
    ensures data[Offset(idx, StridesOf(s)) + l] == Broadcast(data, s, idx[3 := idx[3] + l])
  {
    var jdx := idx[3 := idx[3] + l];
    assert InBounds(jdx, r);
    if l > 0 {
      assert s[4..] == [];
      assert StridesOf(s)[3] == 1;
      Offset4(idx, StridesOf(s));
      Offset4(jdx, StridesOf(s));
    } else {
      assert jdx == idx;
    }
    BroadcastOffset(jdx, s, r);
  }

  /** `m` columns from a result index, within its row, lie inside the
      result. */
  lemma RowSpan(idx: seq<nat>, r: seq<nat>, m: nat)
    requires |r| == Rank && InBounds(idx, r) && idx[3] + m <= r[3]
    ensures Linear(idx, r) + m <= Prod(r)
  {
    if m > 0 {
      ColumnStep(idx, r, m - 1);
      LinearBound(idx[3 := idx[3] + (m - 1)], r);
    } else {
      LinearBound(idx, r);
    }
  }

  /** Storing the sums of consecutive columns of one row, all at most the
      cut, at the position the kernel has reached extends the done prefix by
      their number. */
  lemma BlockStored(res: seq<real>, vals: seq<real>, init: seq<real>, a: seq<real>, sa: seq<nat>,
                    b: seq<real>, sb: seq<nat>, r: seq<nat>, idx: seq<nat>, cut: nat)
    requires |r| == Rank && |sa| == Rank && |sb| == Rank && |res| == Prod(r)
    requires InBounds(idx, r) && idx[3] + |vals| <= r[3] && (|vals| > 0 ==> idx[3] + |vals| - 1 <= cut)
    requires AddDone(res, init, a, sa, b, sb, r, Linear(idx, r), cut)
    requires forall l :: 0 <= l < |vals| ==> vals[l] == SumAt(a, sa, b, sb, idx[3 := idx[3] + l])
    ensures Linear(idx, r) + |vals| <= |res|
    ensures AddDone(res[..Linear(idx, r)] + vals + res[Linear(idx, r) + |vals|..], init,
                    a, sa, b, sb, r, Linear(idx, r) + |vals|, cut)
  {
    var base, m := Linear(idx, r), |vals|;
    RowSpan(idx, r, m);
    var res2 := res[..base] + vals + res[base + m..];
    assert |res2| == |res|;
    forall p | 0 <= p < |res2|
      ensures res2[p] == (if p < base + m && Unravel(p, r)[3] <= cut
                          then SumAt(a, sa, b, sb, Unravel(p, r)) else init[p])
    {
      SplicedCell(res, vals, init, a, sa, b, sb, r, idx, cut, p);
    }
  }

  /** One position of the spliced buffer of BlockStored. */
  lemma SplicedCell(res: seq<real>, vals: seq<real>, init: seq<real>, a: seq<real>, sa: seq<nat>,
                    b: seq<real>, sb: seq<nat>, r: seq<nat>, idx: seq<nat>, cut: nat, p: nat)
    requires |r| == Rank && |sa| == Rank && |sb| == Rank && |res| == Prod(r) && p < |res|
    requires InBounds(idx, r) && idx[3] + |vals| <= r[3] && (|vals| > 0 ==> idx[3] + |vals| - 1 <= cut)
    requires Linear(idx, r) + |vals| <= |res|
    requires AddDone(res, init, a, sa, b, sb, r, Linear(idx, r), cut)
    requires forall l :: 0 <= l < |vals| ==> vals[l] == SumAt(a, sa, b, sb, idx[3 := idx[3] + l])
    ensures var base, m := Linear(idx, r), |vals|;
      (res[..base] + vals + res[base + m..])[p]
      == (if p < base + m && Unravel(p, r)[3] <= cut then SumAt(a, sa, b, sb, Unravel(p, r)) else init[p])
  {
    var base, m := Linear(idx, r), |vals|;
    SpliceAt(res, vals, base, p);
    if base <= p < base + m {
      var l := p - base;
      var jdx := idx[3 := idx[3] + l];
      ColumnStep(idx, r, l);
      UnravelLinear(jdx, r);
      assert Unravel(p, r) == jdx && jdx[3] <= cut;
      assert vals[l] == SumAt(a, sa, b, sb, jdx);
    } else {
      assert res[p] == (if p < base && Unravel(p, r)[3] <= cut then SumAt(a, sa, b, sb, Unravel(p, r)) else init[p]);
    }
  }

  lemma SpliceAt<T>(s: seq<T>, vals: seq<T>, base: nat, p: nat)
    requires base + |vals| <= |s| && p < |s|
    ensures |s[..base] + vals + s[base + |vals|..]| == |s|
    ensures (s[..base] + vals + s[base + |vals|..])[p] ==
      if base <= p < base + |vals| then vals[p - base] else s[p]
  {
  }

  /** The one-element case of BlockStored. */
  lemma CellStored(res: seq<real>, v: real, init: seq<real>, a: seq<real>, sa: seq<nat>,
                   b: seq<real>, sb: seq<nat>, r: seq<nat>, idx: seq<nat>, cut: nat)
    requires |r| == Rank && |sa| == Rank && |sb| == Rank && |res| == Prod(r)
    requires InBounds(idx, r) && idx[3] <= cut
    requires AddDone(res, init, a, sa, b, sb, r, Linear(idx, r), cut)
    requires v == SumAt(a, sa, b, sb, idx)
    ensures Linear(idx, r) < |res|
    ensures AddDone(res[Linear(idx, r) := v], init, a, sa, b, sb, r, Linear(idx, r) + 1, cut)
  {
    UpdateSame(idx, 3);
    BlockStored(res, [v], init, a, sa, b, sb, r, idx, cut);
    UpdateSplit(res, Linear(idx, r), v);
  }

  /** Writing a cell that already holds its sum changes nothing. */
  lemma CellRewritten(res: seq<real>, v: real, init: seq<real>, a: seq<real>, sa: seq<nat>,
                      b: seq<real>, sb: seq<nat>, r: seq<nat>, idx: seq<nat>, upto: nat, cut: nat)
    requires |r| == Rank && |sa| == Rank && |sb| == Rank && |res| == Prod(r)
    requires InBounds(idx, r) && idx[3] <= cut && Linear(idx, r) < upto
    requires AddDone(res, init, a, sa, b, sb, r, upto, cut)
    requires v == SumAt(a, sa, b, sb, idx)
    ensures Linear(idx, r) < |res| && res[Linear(idx, r) := v] == res
  {
    UnravelLinear(idx, r);
  }

  /** A store of the tail loop of AddRow: its first store extends the done
      prefix by the cell at `L`, every later one writes that same cell
      again with the same value. */
  lemma TailCell(res: seq<real>, v: real, init: seq<real>, a: seq<real>, sa: seq<nat>,
                 b: seq<real>, sb: seq<nat>, r: seq<nat>, idx: seq<nat>, L: nat, cut: nat, first: bool)
    requires |r| == Rank && |sa| == Rank && |sb| == Rank && |res| == Prod(r)
    requires InBounds(idx, r) && idx[3] <= cut && Linear(idx, r) == L
    requires AddDone(res, init, a, sa, b, sb, r, L + (if first then 0 else 1), cut)
    requires v == SumAt(a, sa, b, sb, idx)
    ensures L < |res| && AddDone(res[L := v], init, a, sa, b, sb, r, L + 1, cut)
  {
    if first {
      CellStored(res, v, init, a, sa, b, sb, r, idx, cut);
    } else {
      CellRewritten(res, v, init, a, sa, b, sb, r, idx, L + 1, cut);
    }
  }

  /** The columns of a row past the ones written keep their values, so the
      done prefix can skip to the end of the row. */
  lemma RowTail(res: seq<real>, init: seq<real>, a: seq<real>, sa: seq<nat>,
                b: seq<real>, sb: seq<nat>, r: seq<nat>, row: nat, from: nat, cut: nat)
    requires |r| == Rank && |sa| == Rank && |sb| == Rank && |res| == Prod(r)
    requires row < Prod(r[..3]) && from <= r[3] && (from == r[3] || cut < from)
    requires AddDone(res, init, a, sa, b, sb, r, row * r[3] + from, cut)
    ensures AddDone(res, init, a, sa, b, sb, r, (row + 1) * r[3], cut)
  {
    var base := row * r[3];
    MulSucc(row, r[3]);
    forall p | 0 <= p < |res|
      ensures res[p] == (if p < base + r[3] && Unravel(p, r)[3] <= cut
                         then SumAt(a, sa, b, sb, Unravel(p, r)) else init[p])
    {
      if base + from <= p < base + r[3] {
        TailColumn(r, row, p - base, p);
      }
    }
  }

  /** Position `base + c` of row `row` is column `c` of that row. */
  lemma TailColumn(r: seq<nat>, row: nat, c: nat, p: nat)
    requires |r| == Rank && row < Prod(r[..3]) && c < r[3] && p == row * r[3] + c
    ensures p < Prod(r) && Unravel(p, r)[3] == c
  {
    var idx := Unravel(row, r[..3]) + [c];
    LinearUnravel(row, r[..3]);
    LastSplit(r);
    LinearSnoc(Unravel(row, r[..3]), r[..3], c, r[3]);
    assert InBounds(idx, r);
    UnravelLinear(idx, r);
  }

  /** Sixteen lanes loaded from both operands at the offsets of a result
      index and added are the broadcast sums of the sixteen columns from
      there on. */
  lemma VectorSums(a: seq<real>, sa: seq<nat>, b: seq<real>, sb: seq<nat>, r: seq<nat>,
                   idx: seq<nat>, aOff: nat, bOff: nat)
    requires |r| == Rank && InBounds(idx, r) && Fits(sa, r) && Fits(sb, r)
    requires |a| == Prod(sa) && |b| == Prod(sb) && sa[3] == r[3] && sb[3] == r[3]
    requires idx[3] + Width <= r[3]
    requires aOff == Offset(idx, StridesOf(sa)) && bOff == Offset(idx, StridesOf(sb))
    ensures aOff + Width <= |a| && bOff + Width <= |b|
    ensures forall l :: 0 <= l < Width ==>
      Add(Load(a, aOff), Load(b, bOff))[l] == SumAt(a, sa, b, sb, idx[3 := idx[3] + l])
  {
    StridedLane(a, sa, r, idx, Width - 1);
    StridedLane(b, sb, r, idx, Width - 1);
    forall l | 0 <= l < Width
      ensures Add(Load(a, aOff), Load(b, bOff))[l] == SumAt(a, sa, b, sb, idx[3 := idx[3] + l])
    {
      StridedLane(a, sa, r, idx, l);
      StridedLane(b, sb, r, idx, l);
    }
  }

  /** The scalar read of both operands at the offsets of a result index is
      the broadcast sum there. */
  lemma ScalarSum(a: seq<real>, sa: seq<nat>, b: seq<real>, sb: seq<nat>, r: seq<nat>,
                  idx: seq<nat>, aOff: nat, bOff: nat)
    requires |r| == Rank && InBounds(idx, r) && Fits(sa, r) && Fits(sb, r)
    requires |a| == Prod(sa) && |b| == Prod(sb)
    requires aOff == Offset(idx, StridesOf(sa)) && bOff == Offset(idx, StridesOf(sb))
    ensures aOff < |a| && bOff < |b| && a[aOff] + b[bOff] == SumAt(a, sa, b, sb, idx)
  {
    StridedLane(a, sa, r, idx, 0);
    StridedLane(b, sb, r, idx, 0);
    UpdateSame(idx, 3);
  }

  /** The offsets of all four axes are the sums over the whole index. */
  method FullOffsets(index: seq<nat>, a: Tensor, b: Tensor, result: Tensor)
    returns (aOff: nat, bOff: nat, rOff: nat)
    requires a.Valid() && b.Valid() && result.Valid() && |index| == Rank
    ensures aOff == Offset(index, StridesOf(a.shape))
    ensures bOff == Offset(index, StridesOf(b.shape))
    ensures rOff == Offset(index, StridesOf(result.shape))
  {
    WholeSlice(index);
    WholeSlice(a.stride);
    WholeSlice(b.stride);
    WholeSlice(result.stride);
    aOff, bOff, rOff := Offsets(index, a.stride, b.stride, result.stride, 4);
  }

  /** A scalar store. */
  method StoreElement(dst: array<real>, off: nat, v: real)
    requires off < dst.Length
    modifies dst
    ensures dst[..] == old(dst[..])[off := v]
  {
    dst[off] := v;
  }

  /** A 16-lane unaligned store. */
  method StoreVector(dst: array<real>, off: nat, v: seq<real>)
    requires |v| == Width && off + Width <= dst.Length
    modifies dst
    ensures dst[..] == old(dst[..])[..off] + v + old(dst[..])[off + Width..]
  {
    forall l | 0 <= l < Width {
      dst[off + l] := v[l];
    }
  }

  /** The operands and the result of an add, as the kernel expects them:
      well-formed, each operand broadcastable to the result, and the result
      buffer distinct from both operand buffers. */
  ghost predicate AddOperands(a: Tensor, b: Tensor, result: Tensor)
    reads a, b, result
  {
    a.Valid() && b.Valid() && result.Valid()
    && Fits(a.shape, result.shape) && Fits(b.shape, result.shape)
    && result.data != a.data && result.data != b.data
  }

  /** The vector loop of one row of the add: starting at column 0 of an
      in-range row, the first `vecs` groups of sixteen columns receive their
      sums. */
  method AddVectors(a: Tensor, b: Tensor, result: Tensor, index: seq<nat>, vecs: nat,
                    ghost init: seq<real>, ghost cut: nat)
    returns (next: seq<nat>)
    requires AddOperands(a, b, result)
    requires a.shape[3] == b.shape[3] && a.shape[3] >= Width
    requires InBounds(index, result.shape) && index[3] == 0
    requires Width * vecs <= result.shape[3] && Width * vecs <= cut
    requires AddDone(result.data[..], init, a.data[..], a.shape, b.data[..], b.shape,
                     result.shape, Linear(index, result.shape), cut)
    modifies result.data
    ensures next == index[3 := Width * vecs]
    ensures AddDone(result.data[..], init, a.data[..], a.shape, b.data[..], b.shape,
                    result.shape, Linear(index, result.shape) + Width * vecs, cut)
  {
    ghost var r := result.shape;
    ghost var A, B := a.data[..], b.data[..];
    ghost var base := Linear(index, r);
    next := index;
    var k: nat := 0;
    while k < vecs
      invariant k <= vecs && next == index[3 := Width * k]
      invariant a.data[..] == A && b.data[..] == B
      invariant AddDone(result.data[..], init, A, a.shape, B, b.shape, r, base + Width * k, cut)
    {
      ColumnStep(index, r, Width * k);
      var aOff, bOff, rOff := FullOffsets(next, a, b, result);
      OffsetIsLinear(next, r);
      VectorSums(A, a.shape, B, b.shape, r, next, aOff, bOff);
      var av := Load(a.data[..], aOff);
      var bv := Load(b.data[..], bOff);
      var sum := Add(av, bv);
      BlockStored(result.data[..], sum, init, A, a.shape, B, b.shape, r, next, cut);
      StoreVector(result.data, rOff, sum);
      UpdateTwice(index, 3, Width * k, Width * k + Width);
      next := next[3 := next[3] + Width];
      k := k + 1;
    }
  }

  /** One row of the vector path: the vector loop, then the tail loop.  The
      tail loop's counter runs over the remaining columns, but the offsets
      are taken from `index`, whose column stays where the vector loop
      stopped, so only that one column of the tail is written. */
  method AddRow(a: Tensor, b: Tensor, result: Tensor, index: seq<nat>,
                ghost init: seq<real>, ghost rowIdx: nat)
    returns (next: seq<nat>)
    requires AddOperands(a, b, result)
    requires a.shape[3] == b.shape[3] && a.shape[3] >= Width
    requires |index| == Rank && rowIdx < Prod(result.shape[..3])
    requires index[..3] == Unravel(rowIdx, result.shape[..3]) && index[3] == 0
    requires AddDone(result.data[..], init, a.data[..], a.shape, b.data[..], b.shape,
                     result.shape, rowIdx * result.shape[3], AddCut(a.shape, b.shape, result.shape))
    modifies result.data
    ensures next == index[3 := AddCut(a.shape, b.shape, result.shape)]
    ensures AddDone(result.data[..], init, a.data[..], a.shape, b.data[..], b.shape,
                    result.shape, (rowIdx + 1) * result.shape[3], AddCut(a.shape, b.shape, result.shape))
  {
    ghost var r := result.shape;
    ghost var A, B := a.data[..], b.data[..];
    var cols := result.shape[3];
    var vecs := cols / Width;
    ghost var cut := Width * vecs;
    RowStart(index, r, rowIdx);
    next := AddVectors(a, b, result, index, vecs, init, cut);
    ghost var L := rowIdx * cols + cut;
    if cut < cols {
      ColumnStep(index, r, cut);
      OffsetIsLinear(next, r);
      ScalarSum(A, a.shape, B, b.shape, r, next,
                Offset(next, StridesOf(a.shape)), Offset(next, StridesOf(b.shape)));
      assert Linear(next, r) == L;
    }
    var k := next[3];
    while k < cols
      invariant cut <= k <= cols && next == index[3 := cut]
      invariant a.data[..] == A && b.data[..] == B
      invariant AddDone(result.data[..], init, A, a.shape, B, b.shape, r, L + (if k > cut then 1 else 0), cut)
    {
      var aOff, bOff, rOff := FullOffsets(next, a, b, result);
      var v := a.data[aOff] + b.data[bOff];
      assert rOff == L && v == A[aOff] + B[bOff];
      TailCell(result.data[..], v, init, A, a.shape, B, b.shape, r, next, L, cut, k == cut);
      StoreElement(result.data, rOff, v);
      k := k + 1;
    }
    RowTail(result.data[..], init, A, a.shape, B, b.shape, r, rowIdx,
            if cut < cols then cut + 1 else cut, cut);
  }

  /** The vector path of the add, row by row: the rows are counted over the
      three outer axes and stepped with the odometer over those axes. */
  method AddVectorPath(a: Tensor, b: Tensor, result: Tensor)
    requires AddOperands(a, b, result)
    requires a.shape[3] == b.shape[3] && a.shape[3] >= Width
    modifies result.data
    ensures AddDone(result.data[..], old(result.data[..]), a.data[..], a.shape, b.data[..], b.shape,
                    result.shape, Prod(result.shape), AddCut(a.shape, b.shape, result.shape))
  {
    ghost var r := result.shape;
    ghost var A, B, init := a.data[..], b.data[..], result.data[..];
    ghost var cut := AddCut(a.shape, b.shape, r);
    var index := [0, 0, 0, 0];
    var totalRows := result.shape[0] * result.shape[1] * result.shape[2];
    RowCount(r);
    if 0 < totalRows {
      UnravelZero(r[..3]);
    }
    var rowIdx: nat := 0;
    while rowIdx < totalRows
      invariant 0 <= rowIdx <= totalRows && |index| == Rank
      invariant rowIdx < totalRows ==> index[..3] == Unravel(rowIdx, r[..3]) && index[3] == 0
      invariant AddDone(result.data[..], init, A, a.shape, B, b.shape, r, rowIdx * r[3], cut)
    {
      ghost var cur := index;
      index := AddRow(a, b, result, index, init, rowIdx);
      UpdatePastPrefix(cur, 3, cut, 3);
      UpdatePastPrefix(index, 3, 0, 3);
      index := index[3 := 0];
      ghost var reset := index;
      index := Advance(index, result.shape, 3);
      OdometerStep(reset, r, 3, rowIdx, index);
      rowIdx := rowIdx + 1;
    }
  }

  /** One row of the vector path with the tail loop as evidently intended:
      the tail column follows the loop counter, so every column of the row
      receives its sum. */
  method AddRowFixed(a: Tensor, b: Tensor, result: Tensor, index: seq<nat>,
                     ghost init: seq<real>, ghost rowIdx: nat)
    returns (next: seq<nat>)
    requires AddOperands(a, b, result)
    requires a.shape[3] == b.shape[3] && a.shape[3] >= Width
    requires |index| == Rank && rowIdx < Prod(result.shape[..3])
    requires index[..3] == Unravel(rowIdx, result.shape[..3]) && index[3] == 0
    requires AddDone(result.data[..], init, a.data[..], a.shape, b.data[..], b.shape,
                     result.shape, rowIdx * result.shape[3], result.shape[3])
    modifies result.data
    ensures |next| == Rank && next[..3] == index[..3]
    ensures AddDone(result.data[..], init, a.data[..], a.shape, b.data[..], b.shape,
                    result.shape, (rowIdx + 1) * result.shape[3], result.shape[3])
  {
    ghost var r := result.shape;
    ghost var A, B := a.data[..], b.data[..];
    var cols := result.shape[3];
    var vecs := cols / Width;
    RowStart(index, r, rowIdx);
    next := AddVectors(a, b, result, index, vecs, init, cols);
    var k := next[3];
    while k < cols
      invariant Width * vecs <= k <= cols && |next| == Rank && next[..3] == index[..3]
      invariant AddDone(result.data[..], init, A, a.shape, B, b.shape, r, rowIdx * cols + k, cols)
    {
      next := next[3 := k];
      assert next == index[3 := index[3] + k];
      ColumnStep(index, r, k);
      var aOff, bOff, rOff := FullOffsets(next, a, b, result);
      OffsetIsLinear(next, r);
      ScalarSum(A, a.shape, B, b.shape, r, next, aOff, bOff);
      CellStored(result.data[..], A[aOff] + B[bOff], init, A, a.shape, B, b.shape, r, next, cols);
      StoreElement(result.data, rOff, a.data[aOff] + b.data[bOff]);
      k := k + 1;
    }
  }

  /** The vector path with the intended tail loop. */
  method AddVectorPathFixed(a: Tensor, b: Tensor, result: Tensor)
    requires AddOperands(a, b, result)
    requires a.shape[3] == b.shape[3] && a.shape[3] >= Width
    modifies result.data
    ensures AddDone(result.data[..], old(result.data[..]), a.data[..], a.shape, b.data[..], b.shape,
                    result.shape, Prod(result.shape), result.shape[3])
  {
    ghost var r := result.shape;
    ghost var A, B, init := a.data[..], b.data[..], result.data[..];
    var index := [0, 0, 0, 0];
    var totalRows := result.shape[0] * result.shape[1] * result.shape[2];
    RowCount(r);
    if 0 < totalRows {
      UnravelZero(r[..3]);
    }
    var rowIdx: nat := 0;
    while rowIdx < totalRows
      invariant 0 <= rowIdx <= totalRows && |index| == Rank
      invariant rowIdx < totalRows ==> index[..3] == Unravel(rowIdx, r[..3]) && index[3] == 0
      invariant AddDone(result.data[..], init, A, a.shape, B, b.shape, r, rowIdx * r[3], r[3])
    {
      index := AddRowFixed(a, b, result, index, init, rowIdx);
      UpdatePastPrefix(index, 3, 0, 3);
      index := index[3 := 0];
      ghost var reset := index;
      index := Advance(index, result.shape, 3);
      OdometerStep(reset, r, 3, rowIdx, index);
      rowIdx := rowIdx + 1;
    }
  }

  /** The scalar path of the add: one element per step of the odometer over
      all four axes, `data_len` steps in all. */
  method AddScalarPath(a: Tensor, b: Tensor, result: Tensor)
    requires AddOperands(a, b, result)
    modifies result.data
    ensures AddDone(result.data[..], old(result.data[..]), a.data[..], a.shape, b.data[..], b.shape,
                    result.shape, Prod(result.shape), result.shape[3])
  {
    ghost var r := result.shape;
    ghost var A, B, init := a.data[..], b.data[..], result.data[..];
    var index := [0, 0, 0, 0];
    var totalElems := result.dataLen;
    if 0 < totalElems {
      UnravelZero(r);
    }
    var elIdx: nat := 0;
    while elIdx < totalElems
      invariant 0 <= elIdx <= totalElems && |index| == Rank
      invariant elIdx < totalElems ==> index == Unravel(elIdx, r)
      invariant AddDone(result.data[..], init, A, a.shape, B, b.shape, r, elIdx, r[3])
    {
      LinearUnravel(elIdx, r);
      var aOff, bOff, rOff := FullOffsets(index, a, b, result);
      OffsetIsLinear(index, r);
      ScalarSum(A, a.shape, B, b.shape, r, index, aOff, bOff);
      CellStored(result.data[..], A[aOff] + B[bOff], init, A, a.shape, B, b.shape, r, index, r[3]);
      StoreElement(result.data, rOff, a.data[aOff] + b.data[bOff]);
      ghost var here := index;
      index := Advance(index, result.shape, 4);
      WholeSlice(here);
      WholeSlice(r);
      OdometerStep(here, r, 4, elIdx, index);
      WholeSlice(index);
      elIdx := elIdx + 1;
    }
  }

  /** _tensor_kernel_add: at every position of the result whose column is at
      most AddCut, the result element becomes the sum of the two operands'
      broadcast elements at that position's index; every other element keeps
      its value.  On the scalar path AddCut is past the last column, so every
      element is written. */
  method KernelAdd(a: Tensor, b: Tensor, result: Tensor)
    requires AddOperands(a, b, result)
    modifies result.data
    ensures forall p :: 0 <= p < result.data.Length ==>
      result.data[p] ==
        if Unravel(p, result.shape)[3] <= AddCut(a.shape, b.shape, result.shape)
        then SumAt(a.data[..], a.shape, b.data[..], b.shape, Unravel(p, result.shape))
        else old(result.data[p])
  {
    if a.shape[3] == b.shape[3] && a.shape[3] >= Width {
      AddVectorPath(a, b, result);
    } else {
      AddScalarPath(a, b, result);
    }
  }

  /** The add with the tail loop corrected: every element of the result
      becomes the sum of the two operands' broadcast elements at its index,
      on both paths. */
  method KernelAddFixed(a: Tensor, b: Tensor, result: Tensor)
    requires AddOperands(a, b, result)
    modifies result.data
    ensures forall p :: 0 <= p < result.data.Length ==>
      result.data[p] == SumAt(a.data[..], a.shape, b.data[..], b.shape, Unravel(p, result.shape))
  {
    if a.shape[3] == b.shape[3] && a.shape[3] >= Width {
      AddVectorPathFixed(a, b, result);
    } else {
      AddScalarPath(a, b, result);
    }
    forall p | 0 <= p < result.data.Length
      ensures result.data[p] == SumAt(a.data[..], a.shape, b.data[..], b.shape, Unravel(p, result.shape))
    {
      LinearUnravel(p, result.shape);
    }
  }

  /** Which columns the add kernel as written reaches: on a result with no
      empty axis, it writes every element exactly when it takes the scalar
      path or the innermost extent leaves a remainder of 0 or 1 modulo 16. */
  lemma AddCoverage(sa: seq<nat>, sb: seq<nat>, r: seq<nat>)
    requires |sa| == Rank && |sb| == Rank && |r| == Rank
    requires forall i :: 0 <= i < Rank ==> r[i] > 0
    ensures (forall p :: 0 <= p < Prod(r) ==> Unravel(p, r)[3] <= AddCut(sa, sb, r)) <==>
      !(sa[3] == sb[3] && sa[3] >= Width && r[3] % Width >= 2)
  {
    if sa[3] == sb[3] && sa[3] >= Width && r[3] % Width >= 2 {
      var idx := [0, 0, 0, r[3] - 1];
      assert InBounds(idx, r);
      UnravelLinear(idx, r);
      assert Unravel(Linear(idx, r), r)[3] > AddCut(sa, sb, r);
    } else {
      forall p | 0 <= p < Prod(r)
        ensures Unravel(p, r)[3] <= AddCut(sa, sb, r)
      {
        LinearUnravel(p, r);
      }
    }
  }

  /** Outside the case AddCoverage excludes, every column of the result is
      at or below the cut, so the kernel writes every position. */
  lemma AddCovered(sa: seq<nat>, sb: seq<nat>, r: seq<nat>, p: nat)
    requires |sa| == Rank && |sb| == Rank && |r| == Rank && p < Prod(r)
    requires !(sa[3] == sb[3] && sa[3] >= Width && r[3] % Width >= 2)
    ensures Unravel(p, r)[3] <= AddCut(sa, sb, r)
  {
    LinearUnravel(p, r);
  }

  /** For instance, adding two 1x1x1x18 tensors leaves the last element of
      the result unwritten. */
  lemma AddTailGap()
    ensures Unravel(17, [1, 1, 1, 18])[3] > AddCut([1, 1, 1, 18], [1, 1, 1, 18], [1, 1, 1, 18])
  {
    var r := [1, 1, 1, 18];
    UnravelLinear([0, 0, 0, 17], r);
    assert Linear([0, 0, 0, 17], r) == 17 by {
      Prod4(r);
      LinearSnoc([0, 0, 0], r[..3], 17, 18);
      assert [0, 0, 0] + [17] == [0, 0, 0, 17] && r[..3] + [18] == r;
    }
  }

  // ---------------------------------------------------------------------------
  // Sum along one axis

  /** The axes other than `dim`, in order: the kernel's `dims_map`. */
  function Others(dim: nat): (m: seq<nat>)
    requires dim < Rank
    ensures |m| == 3 && forall q :: 0 <= q < 3 ==> m[q] < Rank && m[q] != dim
    ensures forall q, q' :: 0 <= q < q' < 3 ==> m[q] < m[q']
  {
    if dim == 0 then [1, 2, 3] else if dim == 1 then [0, 2, 3] else if dim == 2 then [0, 1, 3] else [0, 1, 2]
  }

  /** The index tuple with 0 on axis `dim` and `i`, `j`, `k` on the other
      axes in order. */
  function Place(dim: nat, i: nat, j: nat, k: nat): (idx: seq<nat>)
    requires dim < Rank
    ensures |idx| == Rank && idx[dim] == 0
    ensures idx[Others(dim)[0]] == i && idx[Others(dim)[1]] == j && idx[Others(dim)[2]] == k
  {
    if dim == 0 then [0, i, j, k] else if dim == 1 then [i, 0, j, k]
    else if dim == 2 then [i, j, 0, k] else [i, j, k, 0]
  }

  /** The sum of the first `n` elements of `src` along axis `dim`, through
      the index `idx` (whose own entry on that axis is ignored). */
  function ReduceSum(src: seq<real>, s: seq<nat>, idx: seq<nat>, dim: nat, n: nat): real
    requires |s| == Rank && |idx| == Rank && dim < Rank
  {
    if n == 0 then 0.0
    else
      var p := Linear(idx[dim := n - 1], s);
      ReduceSum(src, s, idx, dim, n - 1) + (if p < |src| then src[p] else 0.0)
  }

  /** Over an axis of extent 1 the sum is the single element. */
  lemma ReduceSumOfUnitAxis(src: seq<real>, s: seq<nat>, idx: seq<nat>, dim: nat)
    requires |s| == Rank && InBounds(idx, s) && dim < Rank && s[dim] == 1 && |src| == Prod(s)
    ensures Linear(idx, s) < |src| && ReduceSum(src, s, idx, dim, s[dim]) == src[Linear(idx, s)]
  {
    assert idx[dim := 0] == idx;
    LinearBound(idx, s);
  }

  /** The sum only reads the index off the reduced axis. */
  lemma {:induction false} ReduceSumIgnoresAxis(src: seq<real>, s: seq<nat>, idx: seq<nat>, dim: nat,
                                                x: nat, n: nat)
    requires |s| == Rank && |idx| == Rank && dim < Rank
    ensures ReduceSum(src, s, idx[dim := x], dim, n) == ReduceSum(src, s, idx, dim, n)
  {
    if n > 0 {
      assert idx[dim := x][dim := n - 1] == idx[dim := n - 1];
      ReduceSumIgnoresAxis(src, s, idx, dim, x, n - 1);
    }
  }

  /** Inserting an axis of extent 1 (with index 0) does not move a
      position. */
  lemma {:induction false} LinearInsertUnit(x: seq<nat>, y: seq<nat>, s1: seq<nat>, s2: seq<nat>)
    requires |x| == |s1| && |y| == |s2|
    ensures Linear(x + [0] + y, s1 + [1] + s2) == Linear(x + y, s1 + s2)
    ensures Prod(s1 + [1] + s2) == Prod(s1 + s2)
  {
    ProdConcat(s1 + [1], s2);
    ProdConcat(s1, [1]);
    ProdConcat(s1, s2);
    assert Prod([1]) == 1;
    assert s1 + [1] == s1 + [1];
    if x == [] {
      assert x + [0] + y == [0] + y && s1 + [1] + s2 == [1] + s2;
      assert x + y == y && s1 + s2 == s2;
    } else {
      ConcatTail(x + [0], y);
      ConcatTail(x, [0]);
      ConcatTail(s1 + [1], s2);
      ConcatTail(s1, [1]);
      ConcatTail(x, y);
      ConcatTail(s1, s2);
      LinearInsertUnit(x[1..], y, s1[1..], s2);
    }
  }

  /** The extents of the axes other than `dim`: the kernel's
      `dims_common`. */
  function Kept(s: seq<nat>, dim: nat): (d: seq<nat>)
    requires |s| == Rank && dim < Rank
    ensures |d| == 3 && forall q :: 0 <= q < 3 ==> d[q] == s[Others(dim)[q]]
  {
    [s[Others(dim)[0]], s[Others(dim)[1]], s[Others(dim)[2]]]
  }

  /** The result of a reduction is indexed like the kept axes: the cell
      `(i, j, k)` of the kept extents sits at its row-major position among
      them, and the result has as many cells as the kept extents. */
  lemma PlaceLinear(s: seq<nat>, dim: nat, i: nat, j: nat, k: nat)
    requires |s| == Rank && dim < Rank
    ensures Linear(Place(dim, i, j, k), s[dim := 1]) == Linear([i, j, k], Kept(s, dim))
    ensures Prod(s[dim := 1]) == Prod(Kept(s, dim))
    ensures InBounds([i, j, k], Kept(s, dim)) ==> InBounds(Place(dim, i, j, k), s[dim := 1])
  {
    PlaceInBounds(s, dim, i, j, k);
    var t := [i, j, k];
    PlaceSplit(dim, i, j, k);
    KeptSplit(s, dim);
    UpdateSplit(s, dim, 1);
    PrefixSuffix(t, dim);
    LinearInsertUnit(t[..dim], t[dim..], s[..dim], s[dim + 1..]);
  }

  /** A placed index is in bounds of the collapsed extents when its
      counters are in bounds of the kept extents. */
  lemma PlaceInBounds(s: seq<nat>, dim: nat, i: nat, j: nat, k: nat)
    requires |s| == Rank && dim < Rank
    ensures InBounds([i, j, k], Kept(s, dim)) ==> InBounds(Place(dim, i, j, k), s[dim := 1])
  {
    if InBounds([i, j, k], Kept(s, dim)) {
      var t := [i, j, k];
      assert t[0] < Kept(s, dim)[0] && t[1] < Kept(s, dim)[1] && t[2] < Kept(s, dim)[2];
      if dim == 0 {
        assert Place(dim, i, j, k) == [0, i, j, k];
      } else if dim == 1 {
        assert Place(dim, i, j, k) == [i, 0, j, k];
      } else if dim == 2 {
        assert Place(dim, i, j, k) == [i, j, 0, k];
      } else {
        assert Place(dim, i, j, k) == [i, j, k, 0];
      }
    }
  }

  /** The placed index is the kept counters with a 0 inserted at `dim`. */
  lemma PlaceSplit(dim: nat, i: nat, j: nat, k: nat)
    requires dim < Rank
    ensures Place(dim, i, j, k) == [i, j, k][..dim] + [0] + [i, j, k][dim..]
  {
  }

  /** The kept extents are the extents with the one at `dim` removed. */
  lemma KeptSplit(s: seq<nat>, dim: nat)
    requires |s| == Rank && dim < Rank
    ensures Kept(s, dim) == s[..dim] + s[dim + 1..]
  {
  }

  /** The row-major position among three extents. */
  lemma Linear3(t: seq<nat>, d: seq<nat>)
    requires |t| == 3 && |d| == 3
    ensures Linear(t, d) == t[0] * (d[1] * d[2]) + t[1] * d[2] + t[2]
    ensures Prod(d) == d[0] * (d[1] * d[2])
  {
    assert t[1..][1..][1..] == [] && d[1..][1..][1..] == [];
    assert Linear(t[1..][1..], d[1..][1..]) == t[2];
    assert Prod(d[1..][1..]) == d[2];
    assert Linear(t[1..], d[1..]) == t[1] * d[2] + t[2];
    assert Prod(d[1..]) == d[1] * d[2];
  }

  /** The offsets the kernel accumulates from the kept-axis counters and the
      reduced-axis counter are the stride-weighted offsets of the placed
      index. */
  lemma PlaceOffset(st: seq<nat>, dim: nat, i: nat, j: nat, k: nat, r: nat)
    requires |st| == Rank && dim < Rank
    ensures Offset(Place(dim, i, j, k)[dim := r], st) ==
      i * st[Others(dim)[0]] + j * st[Others(dim)[1]] + k * st[Others(dim)[2]] + r * st[dim]
  {
    Offset4(Place(dim, i, j, k)[dim := r], st);
  }

  /** The result buffer during the reduction: every position before `upto`
      holds the sum along the reduced axis at its index. */
  ghost predicate Reduced(res: seq<real>, src: seq<real>, s: seq<nat>, dim: nat, upto: nat)
    requires |s| == Rank && dim < Rank && |res| == Prod(s[dim := 1])
  {
    forall p :: 0 <= p < |res| && p < upto ==>
      res[p] == ReduceSum(src, s, Unravel(p, s[dim := 1]), dim, s[dim])
  }

  /** The operands of a reduction, as the kernel expects them: well-formed,
      the result shaped like the source with the reduced axis set to 1, and
      distinct buffers. */
  ghost predicate ReduceOperands(src: Tensor, result: Tensor, dim: nat)
    reads src, result
  {
    src.Valid() && result.Valid() && dim < Rank
    && result.shape == src.shape[dim := 1] && result.data != src.data
  }

  /** One step along the reduced axis: the source element read is the next
      term of the sum, and the next offset is one stride further. */
  lemma ReduceStep(src: seq<real>, s: seq<nat>, idx: seq<nat>, dim: nat, r: nat)
    requires |s| == Rank && |idx| == Rank && dim < Rank && |src| == Prod(s)
    requires InBounds(idx[dim := r], s)
    ensures Offset(idx[dim := r], StridesOf(s)) < |src|
    ensures ReduceSum(src, s, idx, dim, r + 1) ==
      ReduceSum(src, s, idx, dim, r) + src[Offset(idx[dim := r], StridesOf(s))]
    ensures Offset(idx[dim := r + 1], StridesOf(s)) ==
      Offset(idx[dim := r], StridesOf(s)) + StridesOf(s)[dim]
  {
    OffsetIsLinear(idx[dim := r], s);
    LinearBound(idx[dim := r], s);
    Offset4(idx[dim := r], StridesOf(s));
    Offset4(idx[dim := r + 1], StridesOf(s));
    assert (r + 1) * StridesOf(s)[dim] == r * StridesOf(s)[dim] + StridesOf(s)[dim];
  }

  /** Where one cell of the reduction starts: the kept-axis counters
      weighted by the source strides are the source offset of the placed
      index, and weighted by the result strides they are the cell's
      position in the result. */
  lemma CellOffsets(s: seq<nat>, dim: nat, i: nat, j: nat, k: nat, pos: nat)
    requires |s| == Rank && dim < Rank && InBounds([i, j, k], Kept(s, dim))
    requires pos == Linear([i, j, k], Kept(s, dim))
    ensures var st, rt, m := StridesOf(s), StridesOf(s[dim := 1]), Others(dim);
      i * st[m[0]] + j * st[m[1]] + k * st[m[2]] == Offset(Place(dim, i, j, k)[dim := 0], st)
      && i * rt[m[0]] + j * rt[m[1]] + k * rt[m[2]] == pos
      && pos < Prod(s[dim := 1])
  {
    var idx := Place(dim, i, j, k);
    PlaceLinear(s, dim, i, j, k);
    LinearBound(idx, s[dim := 1]);
    PlaceOffset(StridesOf(s), dim, i, j, k, 0);
    PlaceOffset(StridesOf(s[dim := 1]), dim, i, j, k, 0);
    assert idx[dim := 0] == idx;
    OffsetIsLinear(idx, s[dim := 1]);
  }

  /** The placed index with an in-range entry on the reduced axis is in
      range for the source. */
  lemma PlacedInBounds(s: seq<nat>, dim: nat, i: nat, j: nat, k: nat, r: nat)
    requires |s| == Rank && dim < Rank && InBounds([i, j, k], Kept(s, dim)) && r < s[dim]
    ensures InBounds(Place(dim, i, j, k)[dim := r], s)
  {
  }

  /** One cell of the reduction: zero the result element at the placed
      index, then add the source elements along the reduced axis, stepping
      the source offset by that axis's stride. */
  method ReduceCell(src: Tensor, result: Tensor, dim: nat, dimsMap: seq<nat>,
                    i: nat, j: nat, k: nat, ghost pos: nat)
    requires ReduceOperands(src, result, dim) && dimsMap == Others(dim)
    requires InBounds([i, j, k], Kept(src.shape, dim))
    requires pos == Linear([i, j, k], Kept(src.shape, dim))
    modifies result.data
    ensures pos < result.data.Length
    ensures result.data[..] == old(result.data[..])[pos :=
      ReduceSum(src.data[..], src.shape, Place(dim, i, j, k), dim, src.shape[dim])]
  {
    ghost var s, S := src.shape, src.data[..];
    ghost var idx := Place(dim, i, j, k);
    ghost var init := result.data[..];
    CellOffsets(s, dim, i, j, k, pos);
    var srcOffset := i * src.stride[dimsMap[0]] + j * src.stride[dimsMap[1]] + k * src.stride[dimsMap[2]];
    var resOffset := i * result.stride[dimsMap[0]] + j * result.stride[dimsMap[1]]
                     + k * result.stride[dimsMap[2]];
    assert resOffset == pos;
    result.data[resOffset] := 0.0;
    var r: nat := 0;
    while r < src.shape[dim]
      invariant r <= s[dim] && src.data[..] == S
      invariant srcOffset == Offset(idx[dim := r], src.stride)
      invariant result.data[pos] == ReduceSum(S, s, idx, dim, r)
      invariant forall p :: 0 <= p < result.data.Length && p != pos ==> result.data[p] == init[p]
    {
      PlacedInBounds(s, dim, i, j, k, r);
      ReduceStep(S, s, idx, dim, r);
      result.data[resOffset] := result.data[resOffset] + src.data[srcOffset];
      srcOffset := srcOffset + src.stride[dim];
      r := r + 1;
    }
    assert result.data[..] == init[pos := ReduceSum(S, s, idx, dim, r)];
  }

  /** The first loop of the reduction: the extents and the numbers of the
      axes other than `dim`, in order. */
  method KeptAxes(s: seq<nat>, dim: nat) returns (dimsCommon: seq<nat>, dimsMap: seq<nat>)
    requires |s| == Rank && dim < Rank
    ensures dimsCommon == Kept(s, dim) && dimsMap == Others(dim)
  {
    dimsCommon := [0, 0, 0];
    dimsMap := [0, 0, 0];
    var dimsIdx := 0;
    for a := 0 to Rank
      invariant dimsIdx == (if a > dim then a - 1 else a) && |dimsCommon| == 3 && |dimsMap| == 3
      invariant forall q :: 0 <= q < dimsIdx ==> dimsMap[q] == Others(dim)[q] && dimsCommon[q] == s[dimsMap[q]]
    {
      if a != dim {
        dimsCommon := dimsCommon[dimsIdx := s[a]];
        dimsMap := dimsMap[dimsIdx := a];
        dimsIdx := dimsIdx + 1;
      }
    }
  }

  /** _tensor_kernel_reduce_add: every element of the result becomes the sum
      of the source elements along axis `dim` at its index. */
  method KernelReduceAdd(src: Tensor, result: Tensor, dim: nat)
    requires ReduceOperands(src, result, dim)
    modifies result.data
    ensures forall p :: 0 <= p < result.data.Length ==>
      result.data[p] == ReduceSum(src.data[..], src.shape, Unravel(p, result.shape), dim, src.shape[dim])
  {
    ghost var s := src.shape;
    var dimsCommon, dimsMap := KeptAxes(src.shape, dim);
    ghost var d := dimsCommon;
    ghost var plane: nat := d[1] * d[2];
    PlaceLinear(s, dim, 0, 0, 0);
    Linear3([0, 0, 0], d);
    ghost var pos: nat := 0;
    var i: nat := 0;
    while i < dimsCommon[0]
      invariant 0 <= i <= d[0] && pos == i * plane
      invariant Reduced(result.data[..], src.data[..], s, dim, pos)
    {
      var j: nat := 0;
      while j < dimsCommon[1]
        invariant 0 <= j <= d[1] && pos == i * plane + j * d[2]
        invariant Reduced(result.data[..], src.data[..], s, dim, pos)
      {
        var k: nat := 0;
        while k < dimsCommon[2]
          invariant 0 <= k <= d[2] && pos == i * plane + j * d[2] + k
          invariant Reduced(result.data[..], src.data[..], s, dim, pos)
        {
          Linear3([i, j, k], d);
          CellReduced(result.data[..], ReduceSum(src.data[..], s, Place(dim, i, j, k), dim, s[dim]),
                      src.data[..], s, dim, i, j, k, pos);
          ReduceCell(src, result, dim, dimsMap, i, j, k, pos);
          pos := pos + 1;
          k := k + 1;
        }
        MulSucc(j, d[2]);
        j := j + 1;
      }
      MulSucc(i, plane);
      i := i + 1;
    }
  }

  /** Writing a cell's sum at its position extends the reduced prefix. */
  lemma CellReduced(res: seq<real>, v: real, src: seq<real>, s: seq<nat>, dim: nat,
                    i: nat, j: nat, k: nat, pos: nat)
    requires |s| == Rank && dim < Rank && |res| == Prod(s[dim := 1])
    requires InBounds([i, j, k], Kept(s, dim)) && pos == Linear([i, j, k], Kept(s, dim))
    requires Reduced(res, src, s, dim, pos)
    requires v == ReduceSum(src, s, Place(dim, i, j, k), dim, s[dim])
    ensures pos < |res| && Reduced(res[pos := v], src, s, dim, pos + 1)
  {
    PlaceLinear(s, dim, i, j, k);
    UnravelLinear(Place(dim, i, j, k), s[dim := 1]);
  }
}
