/** The matrix-multiply kernels of cpu_kernels.c: the 6x16 register-tiled
    product (plain and with the left operand transposed), the product with
    the right operand transposed, and the batch loop over axes 0 and 1 that
    applies them once per matrix.  A matrix is a region of a tensor's buffer
    given by a base offset; the source's pointer arithmetic becomes
    arithmetic on those offsets. */
module Matmul {
  import opened Common
  import opened Shapes
  import opened Tensors
  import opened Lanes
  import opened Kernels

  // ---------------------------------------------------------------------------
  // What a product cell is

  /** The element at `p`, or 0 past the end (the kernels only read inside). */
  function At(s: seq<real>, p: nat): real
  {
    if p < |s| then s[p] else 0.0
  }

  /** The strided dot product `a[ai + k*as] * b[bi + k*bs]` summed over
      `k < n`, in increasing `k`. */
  function Dot(a: seq<real>, ai: nat, aStep: nat, b: seq<real>, bi: nat, bStep: nat, n: nat): real
  {
    if n == 0 then 0.0
    else Dot(a, ai, aStep, b, bi, bStep, n - 1) + At(a, ai + (n - 1) * aStep) * At(b, bi + (n - 1) * bStep)
  }

  /** One matrix product as a kernel sees it: the left operand's row `i`
      starts at `aBase + i * aRow` and steps by `aStep` along the shared
      axis; the right operand's column `j` starts at `bBase + j * bCol` and
      steps by `bStep`; the result is `rows` by `cols` and the shared axis
      has `depth` entries. */
  datatype Mat = Mat(a: seq<real>, aBase: nat, aRow: nat, aStep: nat,
                     b: seq<real>, bBase: nat, bCol: nat, bStep: nat,
                     rows: nat, depth: nat, cols: nat)

  /** The result cell at row `i`, column `j`. */
  function Cell(g: Mat, i: nat, j: nat): real
  {
    Dot(g.a, g.aBase + i * g.aRow, g.aStep, g.b, g.bBase + j * g.bCol, g.bStep, g.depth)
  }

  // ---------------------------------------------------------------------------
  // Small arithmetic facts about matrix layouts

  /** An entry of an `r`-row, `c`-column row-major region lies inside it. */
  lemma RowMajorInside(i: nat, j: nat, r: nat, c: nat)
    requires i < r && j < c
    ensures i * c + j < r * c
  {
    MulLeMono(i + 1, r, c);
  }

  /** A strided read stays below its last element. */
  lemma StridedBelow(base: nat, i: nat, n: nat, x: nat, k: nat, K: nat, y: nat)
    requires i < n && k < K
    ensures base + i * x + k * y <= base + (n - 1) * x + (K - 1) * y
  {
    MulLeMono(i, n - 1, x);
    MulLeMono(k, K - 1, y);
  }

  // ---------------------------------------------------------------------------
  // The 6x16 tile

  /** The accumulator lane `(i, l)` of a tile after `k` steps of the shared
      axis: the partial dot product of row `i` and column `l`, or 0 on the
      lanes the mask disables. */
  function TileLane(a: seq<real>, aP: nat, aRow: nat, aStep: nat, b: seq<real>, bP: nat, bStep: nat,
                    k: nat, m: nat, i: nat, l: nat): real
  {
    if l < m then Dot(a, aP + i * aRow, aStep, b, bP + l, bStep, k) else 0.0
  }

  /** One row of the right operand: a full load when the tile is sixteen
      wide, otherwise a load under the partial-tile mask. */
  method LoadB(b: seq<real>, off: nat, m: nat) returns (v: seq<real>)
    requires 1 <= m <= Width && off + m <= |b|
    ensures |v| == Width && forall l :: 0 <= l < Width ==> v[l] == if l < m then b[off + l] else 0.0
  {
    if m == Width {
      v := Load(b, off);
    } else {
      var mask: bv16 := 0xFFFF >> (Width - m);
      assert mask == Mask(m);
      MaskLowBits(m);
      v := MaskLoad(b, off, MaskFlags(mask));
    }
  }

  /** The accumulation loop of mmul_6x16 and mmul_6x16_at: for each step `k`
      of the shared axis, load row `k` of the right operand's strip and
      multiply-add the broadcast left element of each tile row into it. */
  method TileAccumulate(a: seq<real>, aP: nat, aRow: nat, aStep: nat, b: seq<real>, bP: nat, bStep: nat,
                        K: nat, n: nat, m: nat)
    returns (tile: seq<seq<real>>)
    requires 1 <= n <= 6 && 1 <= m <= Width
    requires K > 0 ==> aP + (n - 1) * aRow + (K - 1) * aStep < |a|
    requires K > 0 ==> bP + (K - 1) * bStep + m <= |b|
    ensures |tile| == 6 && forall i :: 0 <= i < 6 ==> |tile[i]| == Width
    ensures forall i, l :: 0 <= i < n && 0 <= l < Width ==>
      tile[i][l] == TileLane(a, aP, aRow, aStep, b, bP, bStep, K, m, i, l)
  {
    tile := [Zero(), Zero(), Zero(), Zero(), Zero(), Zero()];
    var k := 0;
    while k < K
      invariant 0 <= k <= K
      invariant |tile| == 6 && forall i :: 0 <= i < 6 ==> |tile[i]| == Width
      invariant forall i, l :: 0 <= i < n && 0 <= l < Width ==>
        tile[i][l] == TileLane(a, aP, aRow, aStep, b, bP, bStep, k, m, i, l)
    {
      StridedBelow(bP, 0, 1, 0, k, K, bStep);
      var bv := LoadB(b, bP + k * bStep, m);
      var i := 0;
      while i < n
        invariant 0 <= i <= n
        invariant |tile| == 6 && forall i' :: 0 <= i' < 6 ==> |tile[i']| == Width
        invariant forall i', l :: 0 <= i' < n && 0 <= l < Width ==>
          tile[i'][l] == TileLane(a, aP, aRow, aStep, b, bP, bStep, if i' < i then k + 1 else k, m, i', l)
      {
        StridedBelow(aP, i, n, aRow, k, K, aStep);
        var x := a[aP + i * aRow + k * aStep];
        assert aP + i * aRow + k * aStep == (aP + i * aRow) + k * aStep;
        tile := tile[i := Fma(Splat(x), bv, tile[i])];
        i := i + 1;
      }
      k := k + 1;
    }
  }

  /** The store of one tile row in mmul_6x16: a full store when the tile is
      sixteen wide, otherwise a store under the partial-tile mask; either way
      exactly the first `m` lanes are written. */
  method StoreRow(res: array<real>, off: nat, v: seq<real>, m: nat)
    requires |v| == Width && 1 <= m <= Width && off + m <= res.Length
    modifies res
    ensures res[..] == old(res[..])[..off] + v[..m] + old(res[..])[off + m..]
  {
    if m == Width {
      StoreVector(res, off, v);
      assert v[..m] == v;
    } else {
      var mask: bv16 := 0xFFFF >> (Width - m);
      assert mask == Mask(m);
      MaskLowBits(m);
      var flags := MaskFlags(mask);
      forall l | 0 <= l < Width && flags[l] {
        res[off + l] := v[l];
      }
    }
  }

  /** The store of one tile row in mmul_6x16_at: all sixteen lanes, whatever
      the tile width.  A lane that falls past the end of the buffer is not
      modelled as a write. */
  method StoreRowUnmasked(res: array<real>, off: nat, v: seq<real>)
    requires |v| == Width
    modifies res
    ensures forall p :: 0 <= p < res.Length ==>
      res[p] == if off <= p < off + Width then v[p - off] else old(res[p])
  {
    forall l | 0 <= l < Width && off + l < res.Length {
      res[off + l] := v[l];
    }
  }

  /** mmul_6x16: the `n` by `m` tile of a product whose left rows start at
      `aP` (`aRow` apart, stepping by `aStep` along the shared axis) and
      whose right strip starts at `bP` (rows `N` apart); row `i` of the
      result tile is stored at `rP + i * N` and receives exactly its `m` dot
      products.  mmul_6x16 itself reads a row-major left operand
      (`aRow = K`, `aStep = 1`); with `aRow = 1`, `aStep = M` this is the
      left-transposed tile stored under the mask. */
  method Mmul6x16(a: seq<real>, aP: nat, aRow: nat, aStep: nat, b: seq<real>, bP: nat,
                  res: array<real>, rP: nat, K: nat, N: nat, n: nat, m: nat)
    requires 1 <= n <= 6 && 1 <= m <= Width && m <= N
    requires K > 0 ==> aP + (n - 1) * aRow + (K - 1) * aStep < |a|
    requires K > 0 ==> bP + (K - 1) * N + m <= |b|
    requires rP + (n - 1) * N + m <= res.Length
    modifies res
    ensures TileStored(res[..], old(res[..]), a, aP, aRow, aStep, b, bP, rP, K, N, n, m, n)
  {
    var tile := TileAccumulate(a, aP, aRow, aStep, b, bP, N, K, n, m);
    var i := 0;
    while i < n
      invariant 0 <= i <= n
      invariant TileStored(res[..], old(res[..]), a, aP, aRow, aStep, b, bP, rP, K, N, n, m, i)
    {
      MulLeMono(i, n - 1, N);
      ghost var before := res[..];
      StoreRow(res, rP + i * N, tile[i], m);
      TileRowStored(before, res[..], old(res[..]), a, aP, aRow, aStep, b, bP, rP, K, N, n, m, i, tile[i]);
      i := i + 1;
    }
  }

  /** After `i` rows of a tile are stored: in each of them the `m` cells of
      the tile hold their dot products, and nothing else has changed. */
  ghost predicate TileStored(res: seq<real>, init: seq<real>, a: seq<real>, aP: nat, aRow: nat, aStep: nat,
                             b: seq<real>, bP: nat, rP: nat, K: nat, N: nat, n: nat, m: nat, i: nat)
  {
    |res| == |init|
    && forall p :: 0 <= p < |res| ==>
      res[p] == if InTile(p, rP, N, m, i)
                then Dot(a, aP + RowOf(p, rP, N) * aRow, aStep, b, bP + ColOf(p, rP, N), N, K)
                else init[p]
  }

  /** Position `p` lies in one of the first `i` rows of a tile `m` wide
      whose rows start at `rP + t * N`. */
  predicate InTile(p: nat, rP: nat, N: nat, m: nat, i: nat)
  {
    N > 0 && rP <= p && (p - rP) / N < i && (p - rP) % N < m
  }

  function RowOf(p: nat, rP: nat, N: nat): nat
    requires N > 0 && rP <= p
  {
    (p - rP) / N
  }

  function ColOf(p: nat, rP: nat, N: nat): nat
    requires N > 0 && rP <= p
  {
    (p - rP) % N
  }

  /** Storing row `i` of a tile adds that row to the stored ones. */
  lemma TileRowStored(res: seq<real>, res2: seq<real>, init: seq<real>, a: seq<real>, aP: nat, aRow: nat,
                      aStep: nat, b: seq<real>, bP: nat, rP: nat, K: nat, N: nat, n: nat, m: nat, i: nat,
                      v: seq<real>)
    requires 1 <= m <= Width && m <= N && i < n && |v| == Width
    requires rP + i * N + m <= |res|
    requires TileStored(res, init, a, aP, aRow, aStep, b, bP, rP, K, N, n, m, i)
    requires forall l :: 0 <= l < Width ==> v[l] == TileLane(a, aP, aRow, aStep, b, bP, N, K, m, i, l)
    requires res2 == res[..rP + i * N] + v[..m] + res[rP + i * N + m..]
    ensures TileStored(res2, init, a, aP, aRow, aStep, b, bP, rP, K, N, n, m, i + 1)
  {
    var off := rP + i * N;
    forall p | 0 <= p < |res2|
      ensures res2[p] == if InTile(p, rP, N, m, i + 1)
                         then Dot(a, aP + RowOf(p, rP, N) * aRow, aStep, b, bP + ColOf(p, rP, N), N, K)
                         else init[p]
    {
      if off <= p < off + m {
        assert res2[p] == v[p - off];
        TileRowPosition(p, rP, N, m, i, p - off);
      } else {
        assert res2[p] == res[p];
        TileOtherPosition(p, rP, N, m, i);
      }
    }
  }

  /** A position written by the store of row `i` is cell `(i, l)` of the tile. */
  lemma TileRowPosition(p: nat, rP: nat, N: nat, m: nat, i: nat, l: nat)
    requires 1 <= m <= N && l < m && p == rP + i * N + l
    ensures InTile(p, rP, N, m, i + 1) && !InTile(p, rP, N, m, i)
    ensures RowOf(p, rP, N) == i && ColOf(p, rP, N) == l
  {
    ModUnique(p - rP, N, i, l);
  }

  /** A position the store of row `i` does not write is in the first `i + 1`
      rows exactly when it is in the first `i`. */
  lemma TileOtherPosition(p: nat, rP: nat, N: nat, m: nat, i: nat)
    requires 1 <= m <= N && !(rP + i * N <= p < rP + i * N + m)
    ensures InTile(p, rP, N, m, i + 1) <==> InTile(p, rP, N, m, i)
  {
    if rP <= p {
      var q := p - rP;
      assert q == N * (q / N) + q % N;
    }
  }

  // ---------------------------------------------------------------------------
  // A whole matrix, tile by tile

  /** The product with right operand rows `N` apart starting at `bBase`, as
      the tiled kernels see it. */
  function TiledMat(a: seq<real>, aBase: nat, aRow: nat, aStep: nat, b: seq<real>, bBase: nat,
                    M: nat, K: nat, N: nat): Mat
  {
    Mat(a, aBase, aRow, aStep, b, bBase, 1, N, M, K, N)
  }

  /** Cell `(row, col)` is done once its band is below `ti`, or it lies in the
      band `[ti, ti + n)` left of column `tj`. */
  predicate Before(row: nat, col: nat, ti: nat, n: nat, tj: nat)
  {
    row < ti || (row < ti + n && col < tj)
  }

  /** The matrix at `rBase` holds the product cells of the done region and
      nothing else has changed. */
  ghost predicate MatDone(res: seq<real>, init: seq<real>, g: Mat, rBase: nat, ti: nat, n: nat, tj: nat)
  {
    |res| == |init|
    && forall p :: 0 <= p < |res| ==>
      res[p] == if InTile(p, rBase, g.cols, g.cols, g.rows)
                   && Before(RowOf(p, rBase, g.cols), ColOf(p, rBase, g.cols), ti, n, tj)
                then Cell(g, RowOf(p, rBase, g.cols), ColOf(p, rBase, g.cols))
                else init[p]
  }

  /** The whole matrix at `rBase` holds the product and nothing else has
      changed. */
  ghost predicate MatStored(res: seq<real>, init: seq<real>, g: Mat, rBase: nat)
  {
    |res| == |init|
    && forall p :: 0 <= p < |res| ==>
      res[p] == if InTile(p, rBase, g.cols, g.cols, g.rows)
                then Cell(g, RowOf(p, rBase, g.cols), ColOf(p, rBase, g.cols))
                else init[p]
  }

  /** Where a position lies relative to a tile whose top-left cell is
      `(ti, tj)`: inside exactly when its row and column are in the tile's
      ranges, and then at the offset of both. */
  lemma TileCoords(p: nat, rBase: nat, N: nat, ti: nat, tj: nat, n: nat, m: nat)
    requires 1 <= m && tj + m <= N && rBase <= p
    ensures InTile(p, rBase + ti * N + tj, N, m, n) <==>
      ti <= RowOf(p, rBase, N) < ti + n && tj <= ColOf(p, rBase, N) < tj + m
    ensures InTile(p, rBase + ti * N + tj, N, m, n) ==>
      RowOf(p, rBase + ti * N + tj, N) == RowOf(p, rBase, N) - ti
      && ColOf(p, rBase + ti * N + tj, N) == ColOf(p, rBase, N) - tj
  {
    var rP := rBase + ti * N + tj;
    var row, col := RowOf(p, rBase, N), ColOf(p, rBase, N);
    assert p - rBase == N * row + col;
    if ti <= row && tj <= col {
      assert p - rP == N * (row - ti) + (col - tj);
      ModUnique(p - rP, N, row - ti, col - tj);
    }
    if InTile(p, rBase + ti * N + tj, N, m, n) {
      var r', c' := RowOf(p, rP, N), ColOf(p, rP, N);
      assert p - rP == N * r' + c';
      assert p - rBase == N * (ti + r') + (tj + c');
      ModUnique(p - rBase, N, ti + r', tj + c');
    }
  }

  /** Storing tile `(ti, tj)` on a matrix done up to it extends the done
      region of its band by one tile. */
  lemma TileIntoMatrix(res: seq<real>, res2: seq<real>, init: seq<real>, g: Mat, rBase: nat,
                       ti: nat, n: nat, tj: nat, m: nat)
    requires g.cols > 0 && g.bCol == 1 && g.bStep == g.cols
    requires ti < g.rows && n == Min(6, g.rows - ti) && tj < g.cols && m == Min(Width, g.cols - tj)
    requires MatDone(res, init, g, rBase, ti, n, tj)
    requires TileStored(res2, res, g.a, g.aBase + ti * g.aRow, g.aRow, g.aStep, g.b, g.bBase + tj,
                        rBase + ti * g.cols + tj, g.depth, g.cols, n, m, n)
    ensures MatDone(res2, init, g, rBase, ti, n, tj + Width)
  {
    var N := g.cols;
    forall p | 0 <= p < |res2|
      ensures res2[p] == if InTile(p, rBase, N, N, g.rows)
                            && Before(RowOf(p, rBase, N), ColOf(p, rBase, N), ti, n, tj + Width)
                         then Cell(g, RowOf(p, rBase, N), ColOf(p, rBase, N))
                         else init[p]
    {
      TileCell(res, res2, init, g, rBase, ti, n, tj, m, p);
    }
  }

  /** One position of TileIntoMatrix. */
  lemma TileCell(res: seq<real>, res2: seq<real>, init: seq<real>, g: Mat, rBase: nat,
                 ti: nat, n: nat, tj: nat, m: nat, p: nat)
    requires g.cols > 0 && g.bCol == 1 && g.bStep == g.cols
    requires ti < g.rows && n == Min(6, g.rows - ti) && tj < g.cols && m == Min(Width, g.cols - tj)
    requires p < |res2| == |res| == |init|
    requires res[p] == if InTile(p, rBase, g.cols, g.cols, g.rows)
                          && Before(RowOf(p, rBase, g.cols), ColOf(p, rBase, g.cols), ti, n, tj)
                       then Cell(g, RowOf(p, rBase, g.cols), ColOf(p, rBase, g.cols))
                       else init[p]
    requires res2[p] == if InTile(p, rBase + ti * g.cols + tj, g.cols, m, n)
                        then Dot(g.a, g.aBase + ti * g.aRow + RowOf(p, rBase + ti * g.cols + tj, g.cols) * g.aRow,
                                 g.aStep, g.b, g.bBase + tj + ColOf(p, rBase + ti * g.cols + tj, g.cols),
                                 g.cols, g.depth)
                        else res[p]
    ensures res2[p] == if InTile(p, rBase, g.cols, g.cols, g.rows)
                          && Before(RowOf(p, rBase, g.cols), ColOf(p, rBase, g.cols), ti, n, tj + Width)
                       then Cell(g, RowOf(p, rBase, g.cols), ColOf(p, rBase, g.cols))
                       else init[p]
  {
    var rP := rBase + ti * g.cols + tj;
    if rBase <= p {
      TileCoords(p, rBase, g.cols, ti, tj, n, m);
      if InTile(p, rP, g.cols, m, n) {
        TileCellInside(res2, res, g, rBase, ti, n, tj, m, p);
      } else {
        assert res2[p] == res[p];
      }
    } else {
      assert !InTile(p, rP, g.cols, m, n);
    }
  }

  /** A position inside the tile holds its product cell. */
  lemma TileCellInside(res2: seq<real>, res: seq<real>, g: Mat, rBase: nat,
                       ti: nat, n: nat, tj: nat, m: nat, p: nat)
    requires g.cols > 0 && g.bCol == 1 && g.bStep == g.cols && 1 <= m && tj + m <= g.cols
    requires p < |res2| && rBase <= p && InTile(p, rBase + ti * g.cols + tj, g.cols, m, n)
    requires res2[p] == Dot(g.a, g.aBase + ti * g.aRow + RowOf(p, rBase + ti * g.cols + tj, g.cols) * g.aRow,
                            g.aStep, g.b, g.bBase + tj + ColOf(p, rBase + ti * g.cols + tj, g.cols),
                            g.cols, g.depth)
    requires RowOf(p, rBase + ti * g.cols + tj, g.cols) == RowOf(p, rBase, g.cols) - ti
    requires ColOf(p, rBase + ti * g.cols + tj, g.cols) == ColOf(p, rBase, g.cols) - tj
    requires ti <= RowOf(p, rBase, g.cols) && tj <= ColOf(p, rBase, g.cols)
    ensures res2[p] == Cell(g, RowOf(p, rBase, g.cols), ColOf(p, rBase, g.cols))
  {
    var row := RowOf(p, rBase, g.cols);
    MulSplit(ti, row - ti, g.aRow);
  }

  /** The bounds a tile call needs, from the bounds of the whole matrix. */
  lemma TileBounds(aBase: nat, aRow: nat, aStep: nat, aLen: nat, bBase: nat, bLen: nat,
                   rBase: nat, rLen: nat, M: nat, K: nat, N: nat, ti: nat, n: nat, tj: nat, m: nat)
    requires ti < M && n == Min(6, M - ti) && tj < N && m == Min(Width, N - tj)
    requires K > 0 ==> aBase + (M - 1) * aRow + (K - 1) * aStep < aLen
    requires bBase + K * N <= bLen
    requires rBase + M * N <= rLen
    ensures K > 0 ==> aBase + ti * aRow + (n - 1) * aRow + (K - 1) * aStep < aLen
    ensures K > 0 ==> bBase + tj + (K - 1) * N + m <= bLen
    ensures rBase + ti * N + tj + (n - 1) * N + m <= rLen
  {
    assert ti * aRow + (n - 1) * aRow == (ti + n - 1) * aRow;
    MulLeMono(ti + n - 1, M - 1, aRow);
    assert ti * N + (n - 1) * N == (ti + n - 1) * N;
    MulLeMono(ti + n, M, N);
    assert (ti + n - 1) * N + N == (ti + n) * N;
    if K > 0 {
      assert (K - 1) * N + N == K * N;
    }
  }

  /** matmul_tile6x16: the `M` by `N` product of the left matrix at `aBase`
      (rows `aRow` apart, stepping by `aStep`) and the row-major `K` by `N`
      matrix at `bBase`, stored row-major at `rBase`, computed one tile at a
      time with `n = min(6, M - i)` rows and `m = min(16, N - j)` columns;
      every cell is written by exactly one tile and nothing outside the
      matrix is written.  matmul_tile6x16 reads a row-major left operand
      (`aRow = K`, `aStep = 1`); matmul_at walks the same tiles over a
      transposed one (`aRow = 1`, `aStep = M`). */
  method MatmulTile6x16(a: seq<real>, aBase: nat, aRow: nat, aStep: nat, b: seq<real>, bBase: nat,
                        res: array<real>, rBase: nat, M: nat, K: nat, N: nat)
    requires K > 0 && M > 0 ==> aBase + (M - 1) * aRow + (K - 1) * aStep < |a|
    requires bBase + K * N <= |b|
    requires rBase + M * N <= res.Length
    modifies res
    ensures MatStored(res[..], old(res[..]), TiledMat(a, aBase, aRow, aStep, b, bBase, M, K, N), rBase)
  {
    ghost var g := TiledMat(a, aBase, aRow, aStep, b, bBase, M, K, N);
    var i := 0;
    while i < M
      invariant MatDone(res[..], old(res[..]), g, rBase, i, 0, 0)
      decreases M - i
    {
      var n := if M - i >= 6 then 6 else M - i;
      MatRestart(res[..], old(res[..]), g, rBase, i, n);
      var j := 0;
      while j < N
        invariant MatDone(res[..], old(res[..]), g, rBase, i, n, j)
        decreases N - j
      {
        var m := if N - j >= Width then Width else N - j;
        TileBounds(aBase, aRow, aStep, |a|, bBase, |b|, rBase, res.Length, M, K, N, i, n, j, m);
        ghost var before := res[..];
        Mmul6x16(a, aBase + i * aRow, aRow, aStep, b, bBase + j, res, rBase + i * N + j, K, N, n, m);
        TileIntoMatrix(before, res[..], old(res[..]), g, rBase, i, n, j, m);
        j := j + Width;
      }
      BandDone(res[..], old(res[..]), g, rBase, i, n, j);
      i := i + 6;
    }
    MatFinished(res[..], old(res[..]), g, rBase, i);
  }

  /** A band starts with none of its cells done. */
  lemma MatRestart(res: seq<real>, init: seq<real>, g: Mat, rBase: nat, ti: nat, n: nat)
    requires MatDone(res, init, g, rBase, ti, 0, 0)
    ensures MatDone(res, init, g, rBase, ti, n, 0)
  {
  }

  /** A band whose tiles reach past the last column is done in full. */
  lemma BandDone(res: seq<real>, init: seq<real>, g: Mat, rBase: nat, ti: nat, n: nat, tj: nat)
    requires n == Min(6, g.rows - ti) && tj >= g.cols
    requires MatDone(res, init, g, rBase, ti, n, tj)
    ensures MatDone(res, init, g, rBase, ti + 6, 0, 0)
  {
    forall p | 0 <= p < |res| && InTile(p, rBase, g.cols, g.cols, g.rows)
      ensures Before(RowOf(p, rBase, g.cols), ColOf(p, rBase, g.cols), ti, n, tj)
          <==> Before(RowOf(p, rBase, g.cols), ColOf(p, rBase, g.cols), ti + 6, 0, 0)
    {
    }
  }

  /** Once the bands reach past the last row the whole matrix is done. */
  lemma MatFinished(res: seq<real>, init: seq<real>, g: Mat, rBase: nat, ti: nat)
    requires ti >= g.rows
    requires MatDone(res, init, g, rBase, ti, 0, 0)
    ensures MatStored(res, init, g, rBase)
  {
  }

  // ---------------------------------------------------------------------------
  // The product with the right operand transposed

  /** Row `i` of a row-major `M` by `K` matrix at `base` lies inside a
      sequence that holds the whole matrix. */
  lemma RowInside(base: nat, i: nat, M: nat, K: nat, len: nat)
    requires i < M && base + M * K <= len
    ensures base + i * K + K <= len
  {
    MulLeMono(i + 1, M, K);
    MulSucc(i, K);
  }

  /** Step `n1 + n2 - 1` from `base` is step `n2 - 1` from step `n1`. */
  lemma ShiftedStep(base: nat, n1: nat, n2: nat, step: nat)
    requires n2 > 0
    ensures base + (n1 + n2 - 1) * step == (base + n1 * step) + (n2 - 1) * step
  {
    MulSplit(n1, n2 - 1, step);
  }

  /** Splitting the shared axis splits the dot product. */
  lemma {:induction false} DotSplit(a: seq<real>, ai: nat, aStep: nat, b: seq<real>, bi: nat, bStep: nat,
                                    n1: nat, n2: nat)
    ensures Dot(a, ai, aStep, b, bi, bStep, n1 + n2)
         == Dot(a, ai, aStep, b, bi, bStep, n1) + Dot(a, ai + n1 * aStep, aStep, b, bi + n1 * bStep, bStep, n2)
  {
    if n2 > 0 {
      DotSplit(a, ai, aStep, b, bi, bStep, n1, n2 - 1);
      ShiftedStep(ai, n1, n2, aStep);
      ShiftedStep(bi, n1, n2, bStep);
    }
  }

  /** The lanes of a vector of pairwise products sum to the dot product of
      the two runs they were loaded from. */
  lemma {:induction false} SumLanesIsDot(v: seq<real>, a: seq<real>, ai: nat, b: seq<real>, bi: nat, n: nat)
    requires |v| == Width && n <= Width
    requires forall l :: 0 <= l < Width ==> v[l] == At(a, ai + l) * At(b, bi + l)
    ensures SumLanes(v, n) == Dot(a, ai, 1, b, bi, 1, n)
  {
    if n > 0 {
      SumLanesIsDot(v, a, ai, b, bi, n - 1);
    }
  }

  /** The dot product of matmul_bt: sixteen-lane multiply-adds over the
      whole vectors of the shared axis, a horizontal sum, then the remaining
      elements one at a time; over the reals this is the dot product of the
      two rows. */
  method DotRows(a: seq<real>, ai: nat, b: seq<real>, bi: nat, K: nat) returns (el: real)
    requires ai + K <= |a| && bi + K <= |b|
    ensures el == Dot(a, ai, 1, b, bi, 1, K)
  {
    var acc, k := DotVectors(a, ai, b, bi, K);
    el := ReduceAdd(acc);
    while k < K
      invariant k <= K
      invariant el == Dot(a, ai, 1, b, bi, 1, k)
    {
      UnitDotStep(a, ai, b, bi, k);
      el := el + a[ai + k] * b[bi + k];
      k := k + 1;
    }
  }

  /** The vector loop of DotRows: the accumulator after the `K / 16` whole
      vectors of the shared axis, whose lanes sum to the dot product of
      those first `k` elements. */
  method DotVectors(a: seq<real>, ai: nat, b: seq<real>, bi: nat, K: nat) returns (acc: seq<real>, k: nat)
    requires ai + K <= |a| && bi + K <= |b|
    ensures k == Width * (K / Width) && k <= K && |acc| == Width
    ensures SumLanes(acc, Width) == Dot(a, ai, 1, b, bi, 1, k)
  {
    var vecs := K / Width;
    k := 0;
    acc := Zero();
    ZeroLanes(acc, Width);
    var kv: nat := 0;
    while kv < vecs
      invariant kv <= vecs && k == Width * kv && |acc| == Width
      invariant SumLanes(acc, Width) == Dot(a, ai, 1, b, bi, 1, k)
    {
      VectorFits(kv, vecs, K);
      var av := Load(a, ai + k);
      var bv := Load(b, bi + k);
      FmaStep(a, ai, b, bi, k, av, bv, acc);
      acc := Fma(av, bv, acc);
      k := k + Width;
      kv := kv + 1;
    }
  }

  /** One more step of a dot product of two contiguous runs. */
  lemma UnitDotStep(a: seq<real>, ai: nat, b: seq<real>, bi: nat, k: nat)
    requires ai + k < |a| && bi + k < |b|
    ensures Dot(a, ai, 1, b, bi, 1, k + 1) == Dot(a, ai, 1, b, bi, 1, k) + a[ai + k] * b[bi + k]
  {
    assert ai + k * 1 == ai + k && bi + k * 1 == bi + k;
  }

  /** One multiply-add of sixteen pairs extends the dot product the lanes of
      the accumulator sum to by sixteen steps. */
  lemma FmaStep(a: seq<real>, ai: nat, b: seq<real>, bi: nat, k: nat, av: seq<real>, bv: seq<real>,
                acc: seq<real>)
    requires ai + k + Width <= |a| && bi + k + Width <= |b| && |acc| == Width
    requires av == Load(a, ai + k) && bv == Load(b, bi + k)
    requires SumLanes(acc, Width) == Dot(a, ai, 1, b, bi, 1, k)
    ensures SumLanes(Fma(av, bv, acc), Width) == Dot(a, ai, 1, b, bi, 1, k + Width)
  {
    var prod := seq(Width, l requires 0 <= l < Width => av[l] * bv[l]);
    assert Fma(av, bv, acc) == Add(prod, acc);
    SumLanesAdd(prod, acc, Width);
    SumLanesIsDot(prod, a, ai + k, b, bi + k, Width);
    DotSplit(a, ai, 1, b, bi, 1, k, Width);
  }

  /** The lanes of the zero vector sum to zero. */
  lemma {:induction false} ZeroLanes(v: seq<real>, n: nat)
    requires |v| == Width && n <= Width && forall l :: 0 <= l < Width ==> v[l] == 0.0
    ensures SumLanes(v, n) == 0.0
  {
    if n > 0 {
      ZeroLanes(v, n - 1);
    }
  }

  /** The product of the row-major `M` by `K` matrix at `aBase` with the
      transpose of the row-major `N` by `K` matrix at `bBase`. */
  function BtMat(a: seq<real>, aBase: nat, b: seq<real>, bBase: nat, M: nat, K: nat, N: nat): Mat
  {
    Mat(a, aBase, K, 1, b, bBase, K, 1, M, K, N)
  }

  /** Writing cell `(i, j)` of a matrix done up to it extends the done
      region by that cell. */
  lemma CellIntoMatrix(res: seq<real>, init: seq<real>, g: Mat, rBase: nat, i: nat, j: nat)
    requires g.cols > 0 && i < g.rows && j < g.cols && rBase + g.rows * g.cols <= |res|
    requires MatDone(res, init, g, rBase, i, 1, j)
    ensures rBase + i * g.cols + j < |res|
    ensures MatDone(res[rBase + i * g.cols + j := Cell(g, i, j)], init, g, rBase, i, 1, j + 1)
  {
    var N := g.cols;
    var q := rBase + i * N + j;
    RowMajorInside(i, j, g.rows, N);
    var res2 := res[q := Cell(g, i, j)];
    forall p | 0 <= p < |res2|
      ensures res2[p] == if InTile(p, rBase, N, N, g.rows)
                            && Before(RowOf(p, rBase, N), ColOf(p, rBase, N), i, 1, j + 1)
                         then Cell(g, RowOf(p, rBase, N), ColOf(p, rBase, N))
                         else init[p]
    {
      CellPosition(p, rBase, N, i, j);
    }
  }

  /** Only position `rBase + i * N + j` has row `i` and column `j`. */
  lemma CellPosition(p: nat, rBase: nat, N: nat, i: nat, j: nat)
    requires N > 0 && j < N
    ensures (rBase <= p && RowOf(p, rBase, N) == i && ColOf(p, rBase, N) == j) <==> p == rBase + i * N + j
  {
    if p == rBase + i * N + j {
      ModUnique(p - rBase, N, i, j);
    } else if rBase <= p {
      assert p - rBase == N * RowOf(p, rBase, N) + ColOf(p, rBase, N);
    }
  }

  /** A row whose every column is written is done. */
  lemma RowDone(res: seq<real>, init: seq<real>, g: Mat, rBase: nat, i: nat, j: nat)
    requires j >= g.cols
    requires MatDone(res, init, g, rBase, i, 1, j)
    ensures MatDone(res, init, g, rBase, i + 1, 0, 0)
  {
    forall p | 0 <= p < |res| && InTile(p, rBase, g.cols, g.cols, g.rows)
      ensures Before(RowOf(p, rBase, g.cols), ColOf(p, rBase, g.cols), i, 1, j)
          <==> Before(RowOf(p, rBase, g.cols), ColOf(p, rBase, g.cols), i + 1, 0, 0)
    {
    }
  }

  /** matmul_bt: the `M` by `N` product of the row-major `M` by `K` matrix at
      `aBase` with the transpose of the row-major `N` by `K` matrix at
      `bBase`, one cell at a time in row-major order, stored row-major at
      `rBase`; nothing outside the matrix is written. */
  method MatmulBt(a: seq<real>, aBase: nat, b: seq<real>, bBase: nat, res: array<real>, rBase: nat,
                  M: nat, K: nat, N: nat)
    requires aBase + M * K <= |a| && bBase + N * K <= |b|
    requires rBase + M * N <= res.Length
    modifies res
    ensures MatStored(res[..], old(res[..]), BtMat(a, aBase, b, bBase, M, K, N), rBase)
  {
    ghost var g := BtMat(a, aBase, b, bBase, M, K, N);
    var i: nat := 0;
    while i < M
      invariant i <= M
      invariant MatDone(res[..], old(res[..]), g, rBase, i, 0, 0)
    {
      var j: nat := 0;
      while j < N
        invariant j <= N
        invariant MatDone(res[..], old(res[..]), g, rBase, i, 1, j)
      {
        RowInside(aBase, i, M, K, |a|);
        RowInside(bBase, j, N, K, |b|);
        var el := DotRows(a, aBase + i * K, b, bBase + j * K, K);
        CellIntoMatrix(res[..], old(res[..]), g, rBase, i, j);
        StoreElement(res, rBase + i * N + j, el);
        j := j + 1;
      }
      RowDone(res[..], old(res[..]), g, rBase, i, j);
      i := i + 1;
    }
    MatFinished(res[..], old(res[..]), g, rBase, i);
  }

  // ---------------------------------------------------------------------------
  // What a tensor product computes

  /** The left operand's index for result index `idx` and shared-axis step
      `k`: `(row, k)` of its matrix, or `(k, row)` when it is transposed. */
  function AIdx(idx: seq<nat>, k: nat, at: bool): seq<nat>
    requires |idx| == Rank
  {
    if at then [idx[0], idx[1], k, idx[2]] else [idx[0], idx[1], idx[2], k]
  }

  /** The right operand's index: `(k, col)`, or `(col, k)` when transposed. */
  function BIdx(idx: seq<nat>, k: nat, bt: bool): seq<nat>
    requires |idx| == Rank
  {
    if bt then [idx[0], idx[1], idx[3], k] else [idx[0], idx[1], k, idx[3]]
  }

  /** The first `n` terms of the product cell at `idx`: broadcast elements of
      op(a) and op(b) along the shared axis, multiplied and summed. */
  function MulSum(A: seq<real>, sa: seq<nat>, B: seq<real>, sb: seq<nat>, idx: seq<nat>,
                  at: bool, bt: bool, n: nat): real
    requires |sa| == Rank && |sb| == Rank && |idx| == Rank
  {
    if n == 0 then 0.0
    else MulSum(A, sa, B, sb, idx, at, bt, n - 1)
         + Broadcast(A, sa, AIdx(idx, n - 1, at)) * Broadcast(B, sb, BIdx(idx, n - 1, bt))
  }

  /** The element of op(a) * op(b) at result index `idx`, the batch axes
      broadcasting as in the add. */
  function ProductAt(A: seq<real>, sa: seq<nat>, B: seq<real>, sb: seq<nat>, idx: seq<nat>,
                     at: bool, bt: bool): real
    requires |sa| == Rank && |sb| == Rank && |idx| == Rank
  {
    MulSum(A, sa, B, sb, idx, at, bt, ColsAs(sa, at))
  }

  /** One `M` by `N` product over a `K`-long shared axis with the operands
      at `aBase` and `bBase`, each row-major or transposed.  With both bases
      0 these are exactly the reads of the reference product in
      src/test.c: `a[l*m + i]` or `a[i*k + l]`, `b[j*k + l]` or `b[l*n + j]`. */
  function ProductMat(a: seq<real>, aBase: nat, b: seq<real>, bBase: nat, M: nat, K: nat, N: nat,
                      at: bool, bt: bool): Mat
  {
    Mat(a, aBase, if at then 1 else K, if at then M else 1,
        b, bBase, if bt then K else 1, if bt then 1 else N, M, K, N)
  }

  /** The offset of matrix `idx2` (its indices on axes 0 and 1) in an
      operand of shape `s`. */
  function BatchOffset(idx2: seq<nat>, s: seq<nat>): nat
    requires |idx2| == 2 && |s| == Rank
  {
    Offset(idx2, StridesOf(s)[..2])
  }

  lemma Strides4(s: seq<nat>)
    requires |s| == Rank
    ensures StridesOf(s)[2] == (if s[2] == 1 then 0 else s[3])
    ensures StridesOf(s)[3] == (if s[3] == 1 then 0 else 1)
  {
    Prod4(s);
    assert s[4..] == [];
  }

  lemma Offset2(idx: seq<nat>, st: seq<nat>)
    requires |idx| == Rank && |st| == Rank
    ensures Offset(idx[..2], st[..2]) == idx[0] * st[0] + idx[1] * st[1]
  {
    var i2, s2 := idx[..2], st[..2];
    assert i2[1..][1..] == [] && s2[1..][1..] == [];
    assert Offset(i2[1..], s2[1..]) == i2[1] * s2[1] + Offset(i2[1..][1..], s2[1..][1..]);
  }

  /** The row and step strides of the left operand's matrix, and the column
      and step strides of the right operand's, in terms of their shapes. */
  function ARow(sa: seq<nat>, at: bool): nat requires |sa| == Rank { if at then 1 else sa[3] }
  function AStep(sa: seq<nat>, at: bool): nat requires |sa| == Rank { if at then sa[3] else 1 }
  function BCol(sb: seq<nat>, bt: bool): nat requires |sb| == Rank { if bt then sb[3] else 1 }
  function BStep(sb: seq<nat>, bt: bool): nat requires |sb| == Rank { if bt then 1 else sb[3] }

  /** Where the kernels read element `(row, k)` of op(a) and `(k, col)` of
      op(b) for result index `idx`. */
  function AOff(idx: seq<nat>, sa: seq<nat>, at: bool, k: nat): nat
    requires |idx| == Rank && |sa| == Rank
  {
    BatchOffset(idx[..2], sa) + idx[2] * ARow(sa, at) + k * AStep(sa, at)
  }

  function BOff(idx: seq<nat>, sb: seq<nat>, bt: bool, k: nat): nat
    requires |idx| == Rank && |sb| == Rank
  {
    BatchOffset(idx[..2], sb) + idx[3] * BCol(sb, bt) + k * BStep(sb, bt)
  }

  /** The strided offset of an operand index whose last two entries are in
      range: the matrix offset plus each entry times its stride, where an
      extent-1 axis (stride 0) only has index 0. */
  lemma MatrixOffset(jdx: seq<nat>, s: seq<nat>, x: nat, y: nat)
    requires |jdx| == Rank && |s| == Rank && jdx[2] < s[2] && jdx[3] < s[3]
    requires x == jdx[2] && y == jdx[3]
    ensures Offset(jdx, StridesOf(s)) == BatchOffset(jdx[..2], s) + x * s[3] + y
  {
    var st := StridesOf(s);
    Offset4(jdx, st);
    Offset2(jdx, st);
    Strides4(s);
    AxisTerm(jdx[2], s[2], st[2], s[3]);
    AxisTerm(jdx[3], s[3], st[3], 1);
  }

  /** An in-range index times its axis stride, where an extent-1 axis has
      stride 0 and otherwise stride `w`, is the index times `w`. */
  lemma AxisTerm(j: nat, e: nat, st: nat, w: nat)
    requires j < e && st == (if e == 1 then 0 else w)
    ensures j * st == j * w
  {
  }

  /** Reading an operand through its own strides at an index whose batch
      entries are in range for the result and whose matrix entries are in
      range for the operand reads its broadcast element. */
  lemma BroadcastRead(A: seq<real>, s: seq<nat>, r: seq<nat>, jdx: seq<nat>)
    requires |s| == Rank && |r| == Rank && |jdx| == Rank
    requires (s[0] == r[0] || s[0] == 1) && (s[1] == r[1] || s[1] == 1)
    requires jdx[0] < r[0] && jdx[1] < r[1] && jdx[2] < s[2] && jdx[3] < s[3]
    ensures At(A, Offset(jdx, StridesOf(s))) == Broadcast(A, s, jdx)
  {
    var rr := [r[0], r[1], s[2], s[3]];
    assert InBounds(jdx, rr) && Fits(s, rr);
    BroadcastOffset(jdx, s, rr);
  }

  /** Element `(row, k)` of op(a) for the matrix of result index `idx`:
      the left operand read at the matrix's offset plus the row and step
      strides of its layout is the broadcast element. */
  lemma ATerm(A: seq<real>, sa: seq<nat>, r: seq<nat>, idx: seq<nat>, at: bool, k: nat)
    requires |sa| == Rank && |r| == Rank && InBounds(idx, r)
    requires (sa[0] == r[0] || sa[0] == 1) && (sa[1] == r[1] || sa[1] == 1)
    requires r[2] == RowsAs(sa, at) && k < ColsAs(sa, at)
    ensures At(A, AOff(idx, sa, at, k)) == Broadcast(A, sa, AIdx(idx, k, at))
  {
    BroadcastRead(A, sa, r, AIdx(idx, k, at));
    AOffIsOffset(idx, sa, at, k);
  }

  lemma AOffIsOffset(idx: seq<nat>, sa: seq<nat>, at: bool, k: nat)
    requires |sa| == Rank && |idx| == Rank && idx[2] < RowsAs(sa, at) && k < ColsAs(sa, at)
    ensures Offset(AIdx(idx, k, at), StridesOf(sa)) == AOff(idx, sa, at, k)
  {
    var jdx := AIdx(idx, k, at);
    assert jdx[..2] == idx[..2];
    if at {
      MatrixOffset(jdx, sa, k, idx[2]);
      assert AOff(idx, sa, at, k) == BatchOffset(idx[..2], sa) + idx[2] + k * sa[3];
    } else {
      MatrixOffset(jdx, sa, idx[2], k);
      assert AOff(idx, sa, at, k) == BatchOffset(idx[..2], sa) + idx[2] * sa[3] + k;
    }
  }

  /** Element `(k, col)` of op(b), likewise. */
  lemma BTerm(B: seq<real>, sb: seq<nat>, r: seq<nat>, idx: seq<nat>, bt: bool, k: nat)
    requires |sb| == Rank && |r| == Rank && InBounds(idx, r)
    requires (sb[0] == r[0] || sb[0] == 1) && (sb[1] == r[1] || sb[1] == 1)
    requires r[3] == ColsAs(sb, bt) && k < RowsAs(sb, bt)
    ensures At(B, BOff(idx, sb, bt, k)) == Broadcast(B, sb, BIdx(idx, k, bt))
  {
    BroadcastRead(B, sb, r, BIdx(idx, k, bt));
    BOffIsOffset(idx, sb, bt, k);
  }

  lemma BOffIsOffset(idx: seq<nat>, sb: seq<nat>, bt: bool, k: nat)
    requires |sb| == Rank && |idx| == Rank && idx[3] < ColsAs(sb, bt) && k < RowsAs(sb, bt)
    ensures Offset(BIdx(idx, k, bt), StridesOf(sb)) == BOff(idx, sb, bt, k)
  {
    var jdx := BIdx(idx, k, bt);
    assert jdx[..2] == idx[..2];
    if bt {
      MatrixOffset(jdx, sb, idx[3], k);
      assert BOff(idx, sb, bt, k) == BatchOffset(idx[..2], sb) + idx[3] * sb[3] + k;
    } else {
      MatrixOffset(jdx, sb, k, idx[3]);
      assert BOff(idx, sb, bt, k) == BatchOffset(idx[..2], sb) + idx[3] + k * sb[3];
    }
  }

  /** The shapes a product accepts, unfolded. */
  lemma ProductShapes(sa: seq<nat>, sb: seq<nat>, r: seq<nat>, at: bool, bt: bool)
    requires |sa| == Rank && |sb| == Rank && MulTrShape(sa, sb, at, bt) == Ok(r)
    ensures |r| == Rank
    ensures (sa[0] == r[0] || sa[0] == 1) && (sa[1] == r[1] || sa[1] == 1)
    ensures (sb[0] == r[0] || sb[0] == 1) && (sb[1] == r[1] || sb[1] == 1)
    ensures r[2] == RowsAs(sa, at) && r[3] == ColsAs(sb, bt) && ColsAs(sa, at) == RowsAs(sb, bt)
  {
    MulTrShapeSpec(sa, sb, at, bt);
  }

  /** The kernels' dot product for the matrix of `idx`, from the offsets
      and strides of its operands' layouts, is the product cell, term by
      term. */
  lemma {:induction false} DotIsMulSum(A: seq<real>, sa: seq<nat>, B: seq<real>, sb: seq<nat>, r: seq<nat>,
                                       idx: seq<nat>, at: bool, bt: bool, n: nat,
                                       ai: nat, aS: nat, bi: nat, bS: nat)
    requires |sa| == Rank && |sb| == Rank && |r| == Rank
    requires (sa[0] == r[0] || sa[0] == 1) && (sa[1] == r[1] || sa[1] == 1)
    requires (sb[0] == r[0] || sb[0] == 1) && (sb[1] == r[1] || sb[1] == 1)
    requires r[2] == RowsAs(sa, at) && r[3] == ColsAs(sb, bt) && ColsAs(sa, at) == RowsAs(sb, bt)
    requires InBounds(idx, r) && n <= ColsAs(sa, at)
    requires ai == BatchOffset(idx[..2], sa) + idx[2] * ARow(sa, at) && aS == AStep(sa, at)
    requires bi == BatchOffset(idx[..2], sb) + idx[3] * BCol(sb, bt) && bS == BStep(sb, bt)
    ensures Dot(A, ai, aS, B, bi, bS, n) == MulSum(A, sa, B, sb, idx, at, bt, n)
  {
    if n > 0 {
      DotIsMulSum(A, sa, B, sb, r, idx, at, bt, n - 1, ai, aS, bi, bS);
      var t := Broadcast(A, sa, AIdx(idx, n - 1, at)) * Broadcast(B, sb, BIdx(idx, n - 1, bt));
      LastTermsAgree(A, sa, B, sb, r, idx, at, bt, n, ai, aS, bi, bS);
      MulSumStep(A, sa, B, sb, idx, at, bt, n, t);
    }
  }

  /** The last term of the kernels' dot product is the last term of the
      product cell. */
  lemma LastTermsAgree(A: seq<real>, sa: seq<nat>, B: seq<real>, sb: seq<nat>, r: seq<nat>,
                       idx: seq<nat>, at: bool, bt: bool, n: nat,
                       ai: nat, aS: nat, bi: nat, bS: nat)
    requires |sa| == Rank && |sb| == Rank && |r| == Rank
    requires (sa[0] == r[0] || sa[0] == 1) && (sa[1] == r[1] || sa[1] == 1)
    requires (sb[0] == r[0] || sb[0] == 1) && (sb[1] == r[1] || sb[1] == 1)
    requires r[2] == RowsAs(sa, at) && r[3] == ColsAs(sb, bt) && ColsAs(sa, at) == RowsAs(sb, bt)
    requires InBounds(idx, r) && 0 < n <= ColsAs(sa, at)
    requires ai == BatchOffset(idx[..2], sa) + idx[2] * ARow(sa, at) && aS == AStep(sa, at)
    requires bi == BatchOffset(idx[..2], sb) + idx[3] * BCol(sb, bt) && bS == BStep(sb, bt)
    ensures Dot(A, ai, aS, B, bi, bS, n) == Dot(A, ai, aS, B, bi, bS, n - 1)
              + Broadcast(A, sa, AIdx(idx, n - 1, at)) * Broadcast(B, sb, BIdx(idx, n - 1, bt))
  {
    ProductTerm(A, sa, B, sb, r, idx, at, bt, n - 1);
    var pa, pb := AOff(idx, sa, at, n - 1), BOff(idx, sb, bt, n - 1);
    assert pa == ai + (n - 1) * aS;
    assert pb == bi + (n - 1) * bS;
    var t := Broadcast(A, sa, AIdx(idx, n - 1, at)) * Broadcast(B, sb, BIdx(idx, n - 1, bt));
    SameProduct(At(A, pa), Broadcast(A, sa, AIdx(idx, n - 1, at)),
                At(B, pb), Broadcast(B, sb, BIdx(idx, n - 1, bt)));
    DotStep(A, ai, aS, B, bi, bS, n, pa, pb, t);
  }

  /** The last term of a dot product, named. */
  lemma DotStep(a: seq<real>, ai: nat, aStep: nat, b: seq<real>, bi: nat, bStep: nat, n: nat,
                pa: nat, pb: nat, t: real)
    requires n > 0 && pa == ai + (n - 1) * aStep && pb == bi + (n - 1) * bStep && t == At(a, pa) * At(b, pb)
    ensures Dot(a, ai, aStep, b, bi, bStep, n) == Dot(a, ai, aStep, b, bi, bStep, n - 1) + t
  {
  }

  /** The last term of a product cell, named. */
  lemma MulSumStep(A: seq<real>, sa: seq<nat>, B: seq<real>, sb: seq<nat>, idx: seq<nat>,
                   at: bool, bt: bool, n: nat, t: real)
    requires |sa| == Rank && |sb| == Rank && |idx| == Rank && n > 0
    requires t == Broadcast(A, sa, AIdx(idx, n - 1, at)) * Broadcast(B, sb, BIdx(idx, n - 1, bt))
    ensures MulSum(A, sa, B, sb, idx, at, bt, n) == MulSum(A, sa, B, sb, idx, at, bt, n - 1) + t
  {
  }

  lemma SameProduct(x: real, x': real, y: real, y': real)
    requires x == x' && y == y'
    ensures x * y == x' * y'
  {
  }

  /** Term `k` of the kernels' dot product reads the two factors of term
      `k` of the product cell. */
  lemma ProductTerm(A: seq<real>, sa: seq<nat>, B: seq<real>, sb: seq<nat>, r: seq<nat>,
                    idx: seq<nat>, at: bool, bt: bool, k: nat)
    requires |sa| == Rank && |sb| == Rank && |r| == Rank
    requires (sa[0] == r[0] || sa[0] == 1) && (sa[1] == r[1] || sa[1] == 1)
    requires (sb[0] == r[0] || sb[0] == 1) && (sb[1] == r[1] || sb[1] == 1)
    requires r[2] == RowsAs(sa, at) && r[3] == ColsAs(sb, bt) && ColsAs(sa, at) == RowsAs(sb, bt)
    requires InBounds(idx, r) && k < ColsAs(sa, at)
    ensures At(A, AOff(idx, sa, at, k)) == Broadcast(A, sa, AIdx(idx, k, at))
    ensures At(B, BOff(idx, sb, bt, k)) == Broadcast(B, sb, BIdx(idx, k, bt))
  {
    ATerm(A, sa, r, idx, at, k);
    BTerm(B, sb, r, idx, bt, k);
  }

  /** Cell `(row, col)` of the matrix the kernels compute for the batch of
      `idx` is the product element at `idx`. */
  lemma CellIsProduct(A: seq<real>, sa: seq<nat>, B: seq<real>, sb: seq<nat>, r: seq<nat>,
                      idx: seq<nat>, at: bool, bt: bool)
    requires |sa| == Rank && |sb| == Rank
    requires MulTrShape(sa, sb, at, bt) == Ok(r) && InBounds(idx, r)
    ensures Cell(ProductMat(A, BatchOffset(idx[..2], sa), B, BatchOffset(idx[..2], sb),
                            r[2], ColsAs(sa, at), r[3], at, bt), idx[2], idx[3])
         == ProductAt(A, sa, B, sb, idx, at, bt)
  {
    ProductShapes(sa, sb, r, at, bt);
    var g := ProductMat(A, BatchOffset(idx[..2], sa), B, BatchOffset(idx[..2], sb),
                        r[2], ColsAs(sa, at), r[3], at, bt);
    var ai := BatchOffset(idx[..2], sa) + idx[2] * ARow(sa, at);
    var bi := BatchOffset(idx[..2], sb) + idx[3] * BCol(sb, bt);
    ProductMatStrides(A, sa, B, sb, BatchOffset(idx[..2], sa), BatchOffset(idx[..2], sb), r[2], r[3], at, bt);
    CellAt(g, idx[2], idx[3], ai, AStep(sa, at), bi, BStep(sb, bt), ARow(sa, at), BCol(sb, bt));
    DotIsMulSum(A, sa, B, sb, r, idx, at, bt, ColsAs(sa, at), ai, AStep(sa, at), bi, BStep(sb, bt));
  }

  /** The strides of a product matrix are those of the operands' layouts. */
  lemma ProductMatStrides(A: seq<real>, sa: seq<nat>, B: seq<real>, sb: seq<nat>, aBase: nat, bBase: nat,
                          M: nat, N: nat, at: bool, bt: bool)
    requires |sa| == Rank && |sb| == Rank
    requires M == RowsAs(sa, at) && N == ColsAs(sb, bt) && ColsAs(sa, at) == RowsAs(sb, bt)
    ensures var g := ProductMat(A, aBase, B, bBase, M, ColsAs(sa, at), N, at, bt);
      g.aBase == aBase && g.bBase == bBase && g.a == A && g.b == B && g.depth == ColsAs(sa, at)
      && g.aRow == ARow(sa, at) && g.aStep == AStep(sa, at) && g.bCol == BCol(sb, bt) && g.bStep == BStep(sb, bt)
  {
  }

  /** A cell of `g` as a dot product from its starting offsets. */
  lemma CellAt(g: Mat, i: nat, j: nat, ai: nat, aStep: nat, bi: nat, bStep: nat, aRow: nat, bCol: nat)
    requires g.aRow == aRow && g.aStep == aStep && g.bCol == bCol && g.bStep == bStep
    requires ai == g.aBase + i * aRow && bi == g.bBase + j * bCol
    ensures Cell(g, i, j) == Dot(g.a, ai, aStep, g.b, bi, bStep, g.depth)
  {
  }

  /** For single matrices (batch extents 1) the product element is the
      reference product of src/test.c on the two buffers. */
  lemma ProductIsReference(A: seq<real>, sa: seq<nat>, B: seq<real>, sb: seq<nat>, r: seq<nat>,
                           at: bool, bt: bool, i: nat, j: nat)
    requires |sa| == Rank && |sb| == Rank
    requires sa[0] == 1 && sa[1] == 1 && sb[0] == 1 && sb[1] == 1
    requires MulTrShape(sa, sb, at, bt) == Ok(r) && i < r[2] && j < r[3]
    ensures ProductAt(A, sa, B, sb, [0, 0, i, j], at, bt)
         == Cell(ProductMat(A, 0, B, 0, r[2], ColsAs(sa, at), r[3], at, bt), i, j)
  {
    ProductShapes(sa, sb, r, at, bt);
    var idx := [0, 0, i, j];
    Offset2(idx, StridesOf(sa));
    Offset2(idx, StridesOf(sb));
    CellIsProduct(A, sa, B, sb, r, idx, at, bt);
  }
}
