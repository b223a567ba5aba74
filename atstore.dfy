/** The left-transposed product of cpu_kernels.c as it is written:
    mmul_6x16_at stores all sixteen lanes of every tile row, also when the
    tile is narrower than sixteen columns.  The lanes past the tile hold
    zero, so each row store of the last, partial tile of a band writes zeros
    over the first columns of the next row, which the first tile of the band
    has already filled.  This module proves exactly which cells end up zero
    (rows that are not the first of their six-row band, columns below
    `16 - N % 16`, when `N > 16` is not a multiple of 16) and that every
    other cell holds its product element. */
module AtStore {
  import opened Common
  import opened Shapes
  import opened Tensors
  import opened Lanes
  import opened Kernels
  import opened Matmul
  import opened Product

  // ---------------------------------------------------------------------------
  // One tile with the unmasked store

  /** Of the first `i` row stores of a tile at `rP` (rows `N` apart), the
      last one that can reach position `p`: the store of the row `p` lies
      in, or of the tile's last row. */
  function Writer(p: nat, rP: nat, N: nat, i: nat): (w: nat)
    requires N > 0 && rP <= p && i > 0
    ensures w < i && w * N <= p - rP
  {
    var d := (p - rP) / N;
    var w := if d < i - 1 then d else i - 1;
    MulLeMono(w, d, N);
    w
  }

  /** The lane of that store that falls on `p`. */
  function Lane(p: nat, rP: nat, N: nat, i: nat): nat
    requires N > 0 && rP <= p && i > 0
  {
    p - rP - Writer(p, rP, N, i) * N
  }

  /** Position `p` is written by one of the first `i` row stores. */
  predicate AtCovered(p: nat, rP: nat, N: nat, i: nat)
  {
    N > 0 && i > 0 && rP <= p && Lane(p, rP, N, i) < Width
  }

  /** After the first `i` row stores of a left-transposed tile: every
      position some store reached holds the lane of the last store that
      reached it (a dot product on the tile's `m` lanes, zero past them),
      and nothing else has changed. */
  ghost predicate AtTileStored(res: seq<real>, init: seq<real>, a: seq<real>, aP: nat, aStep: nat,
                               b: seq<real>, bP: nat, rP: nat, K: nat, N: nat, m: nat, i: nat)
  {
    |res| == |init|
    && forall p :: 0 <= p < |res| ==>
      res[p] == if AtCovered(p, rP, N, i)
                then TileLane(a, aP, 1, aStep, b, bP, N, K, m, Writer(p, rP, N, i), Lane(p, rP, N, i))
                else init[p]
  }

  /** The store of row `i` writes `[rP + i * N, rP + i * N + 16)` and is the
      last writer there; elsewhere the last writer stays what it was. */
  lemma AtRowPosition(p: nat, rP: nat, N: nat, i: nat)
    requires N > 0
    ensures rP + i * N <= p < rP + i * N + Width ==>
      AtCovered(p, rP, N, i + 1) && Writer(p, rP, N, i + 1) == i && Lane(p, rP, N, i + 1) == p - (rP + i * N)
    ensures !(rP + i * N <= p < rP + i * N + Width) ==>
      (AtCovered(p, rP, N, i + 1) <==> AtCovered(p, rP, N, i))
      && (AtCovered(p, rP, N, i) ==> Writer(p, rP, N, i + 1) == Writer(p, rP, N, i))
  {
    if rP <= p {
      var q := p - rP;
      var d := q / N;
      assert q == N * d + q % N;
      if rP + i * N <= p {
        if d < i {
          MulLeMono(d + 1, i, N);
        }
        assert d >= i;
        if p >= rP + i * N + Width && i > 0 {
          assert (i - 1) * N == i * N - N;
        }
      } else {
        if d >= i {
          MulLeMono(i, d, N);
        }
        assert d < i;
      }
    }
  }

  /** Storing all sixteen lanes of row `i` adds that store to the stored
      ones. */
  lemma AtRowStored(res: seq<real>, res2: seq<real>, init: seq<real>, a: seq<real>, aP: nat, aStep: nat,
                    b: seq<real>, bP: nat, rP: nat, K: nat, N: nat, m: nat, i: nat, v: seq<real>)
    requires N > 0 && |v| == Width
    requires forall l :: 0 <= l < Width ==> v[l] == TileLane(a, aP, 1, aStep, b, bP, N, K, m, i, l)
    requires AtTileStored(res, init, a, aP, aStep, b, bP, rP, K, N, m, i)
    requires |res2| == |res|
    requires forall p :: 0 <= p < |res2| ==>
      res2[p] == if rP + i * N <= p < rP + i * N + Width then v[p - (rP + i * N)] else res[p]
    ensures AtTileStored(res2, init, a, aP, aStep, b, bP, rP, K, N, m, i + 1)
  {
    forall p | 0 <= p < |res2|
      ensures res2[p] == if AtCovered(p, rP, N, i + 1)
                         then TileLane(a, aP, 1, aStep, b, bP, N, K, m, Writer(p, rP, N, i + 1), Lane(p, rP, N, i + 1))
                         else init[p]
    {
      AtRowPosition(p, rP, N, i);
    }
  }

  /** mmul_6x16_at: the `n` by `m` tile of the product of a transposed left
      operand (row `i` of the tile reads column `i` of the stored matrix,
      `aStep` apart along the shared axis) with the right strip at `bP`
      (rows `N` apart).  Each tile row is stored with all sixteen lanes,
      whatever `m` is; a lane past the end of the buffer is not modelled as
      a write. */
  method Mmul6x16At(a: seq<real>, aP: nat, aStep: nat, b: seq<real>, bP: nat, res: array<real>, rP: nat,
                    K: nat, N: nat, n: nat, m: nat)
    requires 1 <= n <= 6 && 1 <= m <= Width && m <= N
    requires K > 0 ==> aP + (n - 1) + (K - 1) * aStep < |a|
    requires K > 0 ==> bP + (K - 1) * N + m <= |b|
    modifies res
    ensures AtTileStored(res[..], old(res[..]), a, aP, aStep, b, bP, rP, K, N, m, n)
  {
    var tile := TileAccumulate(a, aP, 1, aStep, b, bP, N, K, n, m);
    var i := 0;
    while i < n
      invariant 0 <= i <= n
      invariant AtTileStored(res[..], old(res[..]), a, aP, aStep, b, bP, rP, K, N, m, i)
    {
      ghost var before := res[..];
      StoreRowUnmasked(res, rP + i * N, tile[i]);
      AtRowStored(before, res[..], old(res[..]), a, aP, aStep, b, bP, rP, K, N, m, i, tile[i]);
      i := i + 1;
    }
  }

  // ---------------------------------------------------------------------------
  // A whole matrix

  /** How many zero lanes the last tile of a row stores past the row. */
  function Spill(N: nat): nat
  {
    if N % Width == 0 then 0 else Width - N % Width
  }

  /** Cell `(row, col)` of an `N`-column product is overwritten with zero by
      the spill of the row above it: the row is not the first of its band
      and the column is among the first `16 - N % 16`, with a first tile of
      sixteen columns ahead of the partial one. */
  predicate Clobbered(row: nat, col: nat, N: nat)
  {
    N > Width && N % Width != 0 && row % 6 != 0 && col < Width - N % Width
  }

  /** What matmul_at leaves in cell `(row, col)`. */
  function AtFinal(g: Mat, row: nat, col: nat): real
  {
    if Clobbered(row, col, g.cols) then 0.0 else Cell(g, row, col)
  }

  /** The value at position `p` once the bands above row `ti` are done and
      the band `[ti, ti + n)` is done left of column `tj`: the final cells
      above, the product cells in the band, the spill of the last finished
      band just below it, and `prior` everywhere else. */
  function AtExpect(g: Mat, rBase: nat, ti: nat, n: nat, tj: nat, p: nat, prior: real): real
  {
    var N := g.cols;
    if N == 0 || p < rBase then prior
    else if RowOf(p, rBase, N) < ti then AtFinal(g, RowOf(p, rBase, N), ColOf(p, rBase, N))
    else if RowOf(p, rBase, N) < ti + n && ColOf(p, rBase, N) < tj then Cell(g, RowOf(p, rBase, N), ColOf(p, rBase, N))
    else if ti > 0 && p < rBase + ti * N + Spill(N) then 0.0
    else prior
  }

  ghost predicate AtDone(res: seq<real>, init: seq<real>, g: Mat, rBase: nat, ti: nat, n: nat, tj: nat)
  {
    |res| == |init| && forall p :: 0 <= p < |res| ==> res[p] == AtExpect(g, rBase, ti, n, tj, p, init[p])
  }

  /** The row and column of a position at or after row `ti`, counted from
      row `ti`. */
  lemma BandCoords(p: nat, rBase: nat, N: nat, ti: nat)
    requires N > 0 && rBase + ti * N <= p
    ensures RowOf(p, rBase, N) == ti + RowOf(p, rBase + ti * N, N)
    ensures ColOf(p, rBase, N) == ColOf(p, rBase + ti * N, N)
  {
    var q := p - (rBase + ti * N);
    assert q == N * (q / N) + q % N;
    assert p - rBase == N * (ti + q / N) + q % N;
    ModUnique(p - rBase, N, ti + q / N, q % N);
  }

  /** A position before row `ti` is in a row above it. */
  lemma AboveBand(p: nat, rBase: nat, N: nat, ti: nat)
    requires N > 0 && rBase <= p < rBase + ti * N
    ensures RowOf(p, rBase, N) < ti
  {
    var q := p - rBase;
    assert q == N * (q / N) + q % N;
    if q / N >= ti {
      MulLeMono(ti, q / N, N);
    }
  }

  /** Counting from column `tj` instead of column 0. */
  lemma DivShift(q: nat, N: nat, tj: nat)
    requires N > 0 && tj <= q && tj < N
    ensures q % N >= tj ==> (q - tj) / N == q / N
    ensures q % N < tj ==> q / N > 0 && (q - tj) / N == q / N - 1
  {
    assert q == N * (q / N) + q % N;
    if q % N >= tj {
      ModUnique(q - tj, N, q / N, q % N - tj);
    } else {
      assert q / N > 0;
      assert q - tj == N * (q / N - 1) + (N + q % N - tj);
      ModUnique(q - tj, N, q / N - 1, N + q % N - tj);
    }
  }

  /** Which row store of the tile at column `tj` of the band at `E` is last
      to reach a position at or after the tile, and with which lane: a band
      cell right of `tj` is reached by its own row's store at lane
      `col - tj`; a band cell left of `tj` only by the previous row's store,
      at lane `N - tj + col`; a position below the band only by the last
      row's store, at lane `N - tj` plus its distance from the band's end. */
  lemma TileGeometry(p: nat, E: nat, N: nat, tj: nat, n: nat)
    requires N > 0 && tj < N && E + tj <= p && n >= 1
    ensures RowOf(p, E, N) < n && ColOf(p, E, N) >= tj ==>
      Writer(p, E + tj, N, n) == RowOf(p, E, N) && Lane(p, E + tj, N, n) == ColOf(p, E, N) - tj
    ensures RowOf(p, E, N) < n && ColOf(p, E, N) < tj ==>
      RowOf(p, E, N) > 0 && Writer(p, E + tj, N, n) == RowOf(p, E, N) - 1
      && Lane(p, E + tj, N, n) == N - tj + ColOf(p, E, N)
    ensures RowOf(p, E, N) >= n ==>
      E + n * N <= p && Writer(p, E + tj, N, n) == n - 1
      && Lane(p, E + tj, N, n) == (p - (E + n * N)) + N - tj
  {
    if RowOf(p, E, N) < n {
      if ColOf(p, E, N) >= tj {
        GeometryOwnRow(p, E, N, tj, n);
      } else {
        GeometryRowAbove(p, E, N, tj, n);
      }
    } else {
      GeometryBelow(p, E, N, tj, n);
    }
  }

  /** TileGeometry for a band cell right of `tj`. */
  lemma GeometryOwnRow(p: nat, E: nat, N: nat, tj: nat, n: nat)
    requires N > 0 && tj < N && E + tj <= p && n >= 1
    requires RowOf(p, E, N) < n && ColOf(p, E, N) >= tj
    ensures Writer(p, E + tj, N, n) == RowOf(p, E, N) && Lane(p, E + tj, N, n) == ColOf(p, E, N) - tj
  {
    var q := p - E;
    DivShift(q, N, tj);
    assert q == N * (q / N) + q % N;
  }

  /** TileGeometry for a band cell left of `tj`. */
  lemma GeometryRowAbove(p: nat, E: nat, N: nat, tj: nat, n: nat)
    requires N > 0 && tj < N && E + tj <= p && n >= 1
    requires RowOf(p, E, N) < n && ColOf(p, E, N) < tj
    ensures RowOf(p, E, N) > 0 && Writer(p, E + tj, N, n) == RowOf(p, E, N) - 1
    ensures Lane(p, E + tj, N, n) == N - tj + ColOf(p, E, N)
  {
    var q := p - E;
    DivShift(q, N, tj);
    assert q == N * (q / N) + q % N;
    MulSucc(q / N - 1, N);
  }

  /** TileGeometry for a position below the band. */
  lemma GeometryBelow(p: nat, E: nat, N: nat, tj: nat, n: nat)
    requires N > 0 && tj < N && E + tj <= p && n >= 1
    requires RowOf(p, E, N) >= n
    ensures E + n * N <= p && Writer(p, E + tj, N, n) == n - 1
    ensures Lane(p, E + tj, N, n) == (p - (E + n * N)) + N - tj
  {
    var q := p - E;
    DivShift(q, N, tj);
    assert q == N * (q / N) + q % N;
    MulLeMono(n, q / N, N);
    if q % N >= tj {
      assert (q - tj) / N >= n - 1;
    }
    MulSucc(n - 1, N);
  }

  /** `row % 6` for a row inside a band that starts at a multiple of 6. */
  lemma BandRowMod(ti: nat, br: nat)
    requires ti % 6 == 0 && br < 6
    ensures (ti + br) % 6 == br
  {
    ModUnique(ti + br, 6, ti / 6, br);
  }

  /** The spill of a row whose last tile starts at the multiple of 16 `tj`
      is the part of that tile's sixteen lanes past the row. */
  lemma SpillOfLast(N: nat, tj: nat)
    requires tj % Width == 0 && tj < N && N - tj <= Width
    ensures Spill(N) == Width - (N - tj)
    ensures N - tj < Width ==> N % Width == N - tj
  {
    var m := N - tj;
    assert tj == Width * (tj / Width);
    if m < Width {
      ModUnique(N, Width, tj / Width, m);
    } else {
      ModUnique(N, Width, tj / Width + 1, 0);
    }
  }

  /** A band tile of sixteen columns that is not the last of its band fills
      its cells with their products and reaches nothing else. */
  lemma FullTilePosition(g: Mat, rBase: nat, ti: nat, n: nat, tj: nat, p: nat, initp: real,
                         before: real, after: real)
    requires g.cols > 0 && n >= 1 && tj + Width < g.cols
    requires g.aRow == 1 && g.bCol == 1 && g.bStep == g.cols
    requires before == AtExpect(g, rBase, ti, n, tj, p, initp)
    requires after == if AtCovered(p, rBase + ti * g.cols + tj, g.cols, n)
                      then TileLane(g.a, g.aBase + ti, 1, g.aStep, g.b, g.bBase + tj, g.cols, g.depth, Width,
                                    Writer(p, rBase + ti * g.cols + tj, g.cols, n),
                                    Lane(p, rBase + ti * g.cols + tj, g.cols, n))
                      else before
    ensures after == AtExpect(g, rBase, ti, n, tj + Width, p, initp)
  {
    var N := g.cols;
    var E := rBase + ti * N;
    if p < E + tj {
      if E <= p {
        BandCoords(p, rBase, N, ti);
        assert RowOf(p, E, N) == 0 by {
          ModUnique(p - E, N, 0, p - E);
        }
      } else if rBase <= p {
        AboveBand(p, rBase, N, ti);
      }
    } else {
      BandCoords(p, rBase, N, ti);
      TileGeometry(p, E, N, tj, n);
    }
  }

  /** The last tile of a band (it ends at column `N`) fills its cells,
      overwrites with zero the first `16 - m` columns of every band row
      after the first, and spills `16 - m` zeros past the band. */
  lemma LastTilePosition(g: Mat, rBase: nat, ti: nat, n: nat, tj: nat, p: nat, initp: real,
                         before: real, after: real)
    requires g.cols > 0 && 1 <= n <= 6 && ti % 6 == 0
    requires tj % Width == 0 && tj < g.cols && g.cols - tj <= Width
    requires g.aRow == 1 && g.bCol == 1 && g.bStep == g.cols
    requires before == AtExpect(g, rBase, ti, n, tj, p, initp)
    requires after == if AtCovered(p, rBase + ti * g.cols + tj, g.cols, n)
                      then TileLane(g.a, g.aBase + ti, 1, g.aStep, g.b, g.bBase + tj, g.cols, g.depth, g.cols - tj,
                                    Writer(p, rBase + ti * g.cols + tj, g.cols, n),
                                    Lane(p, rBase + ti * g.cols + tj, g.cols, n))
                      else before
    ensures after == AtExpect(g, rBase, ti + n, 0, 0, p, initp)
  {
    var N := g.cols;
    var E := rBase + ti * N;
    SpillOfLast(N, tj);
    if p < E + tj {
      LastTileLeft(g, rBase, ti, n, tj, p, initp, before, after);
    } else {
      BandCoords(p, rBase, N, ti);
      TileGeometry(p, E, N, tj, n);
      if RowOf(p, E, N) < n {
        LastTileBand(g, rBase, ti, n, tj, p, initp, before, after);
      } else {
        LastTileBelow(g, rBase, ti, n, tj, p, initp, before, after);
      }
    }
  }

  /** The last tile of a band, on a position before its first lane: above
      the band, or left of the tile in the band's first row.  Nothing
      changes there. */
  lemma LastTileLeft(g: Mat, rBase: nat, ti: nat, n: nat, tj: nat, p: nat, initp: real,
                     before: real, after: real)
    requires g.cols > 0 && 1 <= n <= 6 && ti % 6 == 0 && tj < g.cols
    requires before == AtExpect(g, rBase, ti, n, tj, p, initp)
    requires after == if AtCovered(p, rBase + ti * g.cols + tj, g.cols, n)
                      then TileLane(g.a, g.aBase + ti, 1, g.aStep, g.b, g.bBase + tj, g.cols, g.depth, g.cols - tj,
                                    Writer(p, rBase + ti * g.cols + tj, g.cols, n),
                                    Lane(p, rBase + ti * g.cols + tj, g.cols, n))
                      else before
    requires p < rBase + ti * g.cols + tj
    ensures after == AtExpect(g, rBase, ti + n, 0, 0, p, initp)
  {
    var N := g.cols;
    var E := rBase + ti * N;
    assert after == before;
    if E <= p {
      BandCoords(p, rBase, N, ti);
      FirstBandRow(p, E, N);
    } else if rBase <= p {
      AboveBand(p, rBase, N, ti);
    }
  }

  /** A position within the first `N` after `E` is in row 0 counted from `E`. */
  lemma FirstBandRow(p: nat, E: nat, N: nat)
    requires N > 0 && E <= p < E + N
    ensures RowOf(p, E, N) == 0 && ColOf(p, E, N) == p - E
  {
    ModUnique(p - E, N, 0, p - E);
  }

  /** The last tile of a band, on a cell of the band at or after its own
      first column. */
  lemma LastTileBand(g: Mat, rBase: nat, ti: nat, n: nat, tj: nat, p: nat, initp: real,
                     before: real, after: real)
    requires g.cols > 0 && 1 <= n <= 6 && ti % 6 == 0
    requires tj % Width == 0 && tj < g.cols && g.cols - tj <= Width
    requires g.aRow == 1 && g.bCol == 1 && g.bStep == g.cols
    requires rBase + ti * g.cols + tj <= p && RowOf(p, rBase + ti * g.cols, g.cols) < n
    requires RowOf(p, rBase, g.cols) == ti + RowOf(p, rBase + ti * g.cols, g.cols)
    requires ColOf(p, rBase, g.cols) == ColOf(p, rBase + ti * g.cols, g.cols)
    requires Spill(g.cols) == Width - (g.cols - tj)
    requires g.cols - tj < Width ==> g.cols % Width == g.cols - tj
    requires before == AtExpect(g, rBase, ti, n, tj, p, initp)
    requires after == if AtCovered(p, rBase + ti * g.cols + tj, g.cols, n)
                      then TileLane(g.a, g.aBase + ti, 1, g.aStep, g.b, g.bBase + tj, g.cols, g.depth, g.cols - tj,
                                    Writer(p, rBase + ti * g.cols + tj, g.cols, n),
                                    Lane(p, rBase + ti * g.cols + tj, g.cols, n))
                      else before
    ensures after == AtExpect(g, rBase, ti + n, 0, 0, p, initp)
  {
    var N := g.cols;
    var E := rBase + ti * N;
    TileGeometry(p, E, N, tj, n);
    var br, col := RowOf(p, E, N), ColOf(p, E, N);
    BandRowMod(ti, br);
    if col < tj {
      BandSpillCell(g, rBase, ti, n, tj, p, initp, before, after, br, col);
    } else {
      BandOwnCell(g, rBase, ti, n, tj, p, initp, before, after, br, col);
    }
  }

  /** The last tile of a band, on a cell of its own columns: the cell's
      product. */
  lemma BandOwnCell(g: Mat, rBase: nat, ti: nat, n: nat, tj: nat, p: nat, initp: real,
                    before: real, after: real, br: nat, col: nat)
    requires g.cols > 0 && tj % Width == 0 && tj <= col < g.cols && g.cols - tj <= Width
    requires g.aRow == 1 && g.bCol == 1 && g.bStep == g.cols
    requires rBase + ti * g.cols + tj <= p && br < n
    requires RowOf(p, rBase, g.cols) == ti + br && ColOf(p, rBase, g.cols) == col
    requires g.cols - tj < Width ==> g.cols % Width == g.cols - tj
    requires Writer(p, rBase + ti * g.cols + tj, g.cols, n) == br
    requires Lane(p, rBase + ti * g.cols + tj, g.cols, n) == col - tj
    requires after == if AtCovered(p, rBase + ti * g.cols + tj, g.cols, n)
                      then TileLane(g.a, g.aBase + ti, 1, g.aStep, g.b, g.bBase + tj, g.cols, g.depth, g.cols - tj,
                                    Writer(p, rBase + ti * g.cols + tj, g.cols, n),
                                    Lane(p, rBase + ti * g.cols + tj, g.cols, n))
                      else before
    ensures after == AtExpect(g, rBase, ti + n, 0, 0, p, initp)
  {
    assert after == Cell(g, ti + br, col);
    assert !Clobbered(ti + br, col, g.cols);
  }

  /** The last tile of a band, on a cell left of its columns in a band row
      after the first: the spill of the row above zeroes it when it is
      among the first `16 - m` columns, and it keeps its product otherwise. */
  lemma BandSpillCell(g: Mat, rBase: nat, ti: nat, n: nat, tj: nat, p: nat, initp: real,
                      before: real, after: real, br: nat, col: nat)
    requires g.cols > 0 && 1 <= n <= 6 && col < tj < g.cols && g.cols - tj <= Width && tj % Width == 0
    requires rBase + ti * g.cols + tj <= p && 0 < br < n && (ti + br) % 6 == br
    requires RowOf(p, rBase, g.cols) == ti + br && ColOf(p, rBase, g.cols) == col
    requires Spill(g.cols) == Width - (g.cols - tj)
    requires g.cols - tj < Width ==> g.cols % Width == g.cols - tj
    requires Writer(p, rBase + ti * g.cols + tj, g.cols, n) == br - 1
    requires Lane(p, rBase + ti * g.cols + tj, g.cols, n) == g.cols - tj + col
    requires before == AtExpect(g, rBase, ti, n, tj, p, initp)
    requires after == if AtCovered(p, rBase + ti * g.cols + tj, g.cols, n)
                      then TileLane(g.a, g.aBase + ti, 1, g.aStep, g.b, g.bBase + tj, g.cols, g.depth, g.cols - tj,
                                    Writer(p, rBase + ti * g.cols + tj, g.cols, n),
                                    Lane(p, rBase + ti * g.cols + tj, g.cols, n))
                      else before
    ensures after == AtExpect(g, rBase, ti + n, 0, 0, p, initp)
  {
    assert before == Cell(g, ti + br, col);
    assert tj >= Width;
    assert Clobbered(ti + br, col, g.cols) <==> col < Spill(g.cols);
  }

  /** The last tile of a band, on a position below the band: only the
      spill of its last row reaches it. */
  lemma LastTileBelow(g: Mat, rBase: nat, ti: nat, n: nat, tj: nat, p: nat, initp: real,
                      before: real, after: real)
    requires g.cols > 0 && 1 <= n <= 6
    requires tj < g.cols && g.cols - tj <= Width
    requires g.aRow == 1 && g.bCol == 1 && g.bStep == g.cols
    requires rBase + ti * g.cols + tj <= p && RowOf(p, rBase + ti * g.cols, g.cols) >= n
    requires Spill(g.cols) == Width - (g.cols - tj)
    requires before == AtExpect(g, rBase, ti, n, tj, p, initp)
    requires after == if AtCovered(p, rBase + ti * g.cols + tj, g.cols, n)
                      then TileLane(g.a, g.aBase + ti, 1, g.aStep, g.b, g.bBase + tj, g.cols, g.depth, g.cols - tj,
                                    Writer(p, rBase + ti * g.cols + tj, g.cols, n),
                                    Lane(p, rBase + ti * g.cols + tj, g.cols, n))
                      else before
    ensures after == AtExpect(g, rBase, ti + n, 0, 0, p, initp)
  {
    var N := g.cols;
    var E := rBase + ti * N;
    var E2 := rBase + (ti + n) * N;
    BelowGeometry(p, rBase, ti, n, tj, N);
    BelowExpect(g, rBase, ti, n, tj, p, initp);
    BelowExpect(g, rBase, ti + n, 0, 0, p, initp);
    if AtCovered(p, E + tj, N, n) {
      assert after == 0.0;
    } else {
      assert after == initp;
    }
  }

  /** Where the last store of the last tile of a band falls on a position
      below the band. */
  lemma BelowGeometry(p: nat, rBase: nat, ti: nat, n: nat, tj: nat, N: nat)
    requires N > 0 && 1 <= n && tj < N
    requires rBase + ti * N + tj <= p && RowOf(p, rBase + ti * N, N) >= n
    ensures rBase + ti * N + n * N == rBase + (ti + n) * N <= p
    ensures Writer(p, rBase + ti * N + tj, N, n) == n - 1
    ensures Lane(p, rBase + ti * N + tj, N, n) == p - (rBase + (ti + n) * N) + (N - tj)
    ensures RowOf(p, rBase, N) >= ti + n
  {
    TileGeometry(p, rBase + ti * N, N, tj, n);
    NextBand(rBase, ti, n, N);
    BandCoords(p, rBase, N, ti);
  }

  /** What is expected below the band `[ti, ti + n)`: the spill of the band
      above, or the initial value. */
  lemma BelowExpect(g: Mat, rBase: nat, ti: nat, n: nat, tj: nat, p: nat, initp: real)
    requires g.cols > 0 && rBase <= p && RowOf(p, rBase, g.cols) >= ti + n
    ensures AtExpect(g, rBase, ti, n, tj, p, initp)
         == if ti > 0 && p < rBase + ti * g.cols + Spill(g.cols) then 0.0 else initp
  {
  }

  /** Where the band after `n` more rows starts. */
  lemma NextBand(rBase: int, ti: int, n: int, N: int)
    ensures rBase + ti * N + n * N == rBase + (ti + n) * N
  {
  }

  /** The zero-width start of a band changes nothing; with no columns at
      all nothing is ever written. */
  lemma AtRestart(res: seq<real>, init: seq<real>, g: Mat, rBase: nat, ti: nat, n: nat)
    requires AtDone(res, init, g, rBase, ti, 0, 0)
    ensures AtDone(res, init, g, rBase, ti, n, 0)
    ensures g.cols == 0 ==> AtDone(res, init, g, rBase, ti + n, 0, 0)
  {
  }

  /** A full tile of the band extends the done part of the band by sixteen
      columns. */
  lemma AtFullTile(res2: seq<real>, res: seq<real>, init: seq<real>, g: Mat, rBase: nat, ti: nat, n: nat, tj: nat)
    requires g.cols > 0 && n >= 1 && tj + Width < g.cols
    requires g.aRow == 1 && g.bCol == 1 && g.bStep == g.cols
    requires AtDone(res, init, g, rBase, ti, n, tj)
    requires AtTileStored(res2, res, g.a, g.aBase + ti, g.aStep, g.b, g.bBase + tj, rBase + ti * g.cols + tj,
                          g.depth, g.cols, Width, n)
    ensures AtDone(res2, init, g, rBase, ti, n, tj + Width)
  {
    forall p | 0 <= p < |res2|
      ensures res2[p] == AtExpect(g, rBase, ti, n, tj + Width, p, init[p])
    {
      FullTilePosition(g, rBase, ti, n, tj, p, init[p], res[p], res2[p]);
    }
  }

  /** The last tile of the band finishes the band, clobbered cells and
      spill included. */
  lemma AtLastTile(res2: seq<real>, res: seq<real>, init: seq<real>, g: Mat, rBase: nat, ti: nat, n: nat, tj: nat)
    requires g.cols > 0 && 1 <= n <= 6 && ti % 6 == 0
    requires tj % Width == 0 && tj < g.cols && g.cols - tj <= Width
    requires g.aRow == 1 && g.bCol == 1 && g.bStep == g.cols
    requires AtDone(res, init, g, rBase, ti, n, tj)
    requires AtTileStored(res2, res, g.a, g.aBase + ti, g.aStep, g.b, g.bBase + tj, rBase + ti * g.cols + tj,
                          g.depth, g.cols, g.cols - tj, n)
    ensures AtDone(res2, init, g, rBase, ti + n, 0, 0)
  {
    forall p | 0 <= p < |res2|
      ensures res2[p] == AtExpect(g, rBase, ti + n, 0, 0, p, init[p])
    {
      LastTilePosition(g, rBase, ti, n, tj, p, init[p], res[p], res2[p]);
    }
  }

  /** matmul_at as written: the `M` by `N` product of the transposed left
      matrix at `aBase` (stored `K` by `M`) with the row-major `K` by `N`
      right matrix at `bBase`, tile by tile.  Every cell holds its product
      except the clobbered ones, which hold zero, and `Spill(N)` zeros follow
      the matrix (as far as the buffer reaches); nothing else changes. */
  method MatmulAt(a: seq<real>, aBase: nat, b: seq<real>, bBase: nat, res: array<real>, rBase: nat,
                  M: nat, K: nat, N: nat)
    requires K > 0 && M > 0 ==> aBase + (M - 1) + (K - 1) * M < |a|
    requires bBase + K * N <= |b|
    requires rBase + M * N <= res.Length
    modifies res
    ensures AtDone(res[..], old(res[..]), TiledMat(a, aBase, 1, M, b, bBase, M, K, N), rBase, M, 0, 0)
  {
    ghost var g := TiledMat(a, aBase, 1, M, b, bBase, M, K, N);
    ghost var done := 0;
    var i := 0;
    while i < M
      invariant i % 6 == 0 && done == Min(i, M)
      invariant AtDone(res[..], old(res[..]), g, rBase, done, 0, 0)
      decreases M - i
    {
      var n := if M - i >= 6 then 6 else M - i;
      AtRestart(res[..], old(res[..]), g, rBase, i, n);
      var j := 0;
      while j < N
        invariant j % Width == 0
        invariant j < N ==> AtDone(res[..], old(res[..]), g, rBase, i, n, j)
        invariant j >= N ==> AtDone(res[..], old(res[..]), g, rBase, i + n, 0, 0)
        decreases N - j
      {
        AtTile(a, aBase, b, bBase, res, rBase, M, K, N, i, n, j, g, old(res[..]));
        j := j + Width;
      }
      done := i + n;
      i := i + 6;
    }
  }

  /** One tile of matmul_at: the tile at column `tj` of the band at row
      `ti` either extends the band by sixteen columns or, as its last tile,
      finishes it. */
  method AtTile(a: seq<real>, aBase: nat, b: seq<real>, bBase: nat, res: array<real>, rBase: nat,
                M: nat, K: nat, N: nat, ti: nat, n: nat, tj: nat, ghost g: Mat, ghost init: seq<real>)
    requires g == TiledMat(a, aBase, 1, M, b, bBase, M, K, N)
    requires K > 0 && M > 0 ==> aBase + (M - 1) + (K - 1) * M < |a|
    requires bBase + K * N <= |b|
    requires rBase + M * N <= res.Length
    requires ti < M && n == Min(6, M - ti) && ti % 6 == 0 && tj < N && tj % Width == 0
    requires AtDone(res[..], init, g, rBase, ti, n, tj)
    modifies res
    ensures tj + Width < N ==> AtDone(res[..], init, g, rBase, ti, n, tj + Width)
    ensures tj + Width >= N ==> AtDone(res[..], init, g, rBase, ti + n, 0, 0)
  {
    var m := if N - tj >= Width then Width else N - tj;
    TileBounds(aBase, 1, M, |a|, bBase, |b|, rBase, res.Length, M, K, N, ti, n, tj, m);
    ghost var before := res[..];
    Mmul6x16At(a, aBase + ti, M, b, bBase + tj, res, rBase + ti * N + tj, K, N, n, m);
    if tj + Width < N {
      AtFullTile(res[..], before, init, g, rBase, ti, n, tj);
    } else {
      AtLastTile(res[..], before, init, g, rBase, ti, n, tj);
    }
  }

  // ---------------------------------------------------------------------------
  // The batched entry point

  /** The element _tensor_kernel_mul_at leaves at index `idx` of the
      result: zero on a clobbered cell, the product element elsewhere. */
  function AtWritten(A: seq<real>, sa: seq<nat>, B: seq<real>, sb: seq<nat>, idx: seq<nat>): real
    requires |sa| == Rank && |sb| == Rank && |idx| == Rank
  {
    if Clobbered(idx[2], idx[3], sb[3]) then 0.0 else ProductAt(A, sa, B, sb, idx, true, false)
  }

  /** The first `done` elements are final, the spill of the last finished
      matrix follows them, and the rest is as it was. */
  ghost predicate BatchAtDone(res: seq<real>, init: seq<real>, A: seq<real>, sa: seq<nat>, B: seq<real>,
                              sb: seq<nat>, r: seq<nat>, done: nat)
    requires |sa| == Rank && |sb| == Rank && |r| == Rank
  {
    |res| == |init| == Prod(r)
    && forall p :: 0 <= p < |res| ==>
      res[p] == if p < done then AtWritten(A, sa, B, sb, Unravel(p, r))
                else if done > 0 && p < done + Spill(r[3]) then 0.0
                else init[p]
  }

  /** matmul_at on matrix `idx2`, which starts at `rBase`, extends the final
      elements by one matrix. */
  lemma BatchAtStep(res2: seq<real>, res: seq<real>, init: seq<real>, A: seq<real>, sa: seq<nat>,
                    B: seq<real>, sb: seq<nat>, r: seq<nat>, idx2: seq<nat>, rBase: nat)
    requires |sa| == Rank && |sb| == Rank && |A| == Prod(sa) && |B| == Prod(sb)
    requires MulTrShape(sa, sb, true, false) == Ok(r)
    requires InBounds(idx2, r[..2]) && rBase == Linear(idx2, r[..2]) * MatSize(r)
    requires BatchAtDone(res, init, A, sa, B, sb, r, rBase)
    requires AtDone(res2, res, ProductMat(A, BatchOffset(idx2, sa), B, BatchOffset(idx2, sb),
                                          r[2], sa[2], r[3], true, false), rBase, r[2], 0, 0)
    ensures BatchAtDone(res2, init, A, sa, B, sb, r, rBase + MatSize(r))
  {
    ProductShapes(sa, sb, r, true, false);
    forall p | 0 <= p < |res2|
      ensures res2[p] == if p < rBase + MatSize(r) then AtWritten(A, sa, B, sb, Unravel(p, r))
                         else if rBase + MatSize(r) > 0 && p < rBase + MatSize(r) + Spill(r[3]) then 0.0
                         else init[p]
    {
      AtBatchPosition(A, sa, B, sb, r, idx2, rBase, p, init[p], res[p], res2[p]);
    }
  }

  lemma AtBatchPosition(A: seq<real>, sa: seq<nat>, B: seq<real>, sb: seq<nat>, r: seq<nat>,
                        idx2: seq<nat>, rBase: nat, p: nat, initp: real, before: real, after: real)
    requires |sa| == Rank && |sb| == Rank && |A| == Prod(sa) && |B| == Prod(sb)
    requires MulTrShape(sa, sb, true, false) == Ok(r) && |r| == Rank && r[3] == sb[3]
    requires InBounds(idx2, r[..2]) && rBase == Linear(idx2, r[..2]) * MatSize(r)
    requires p < Prod(r)
    requires before == if p < rBase then AtWritten(A, sa, B, sb, Unravel(p, r))
                       else if rBase > 0 && p < rBase + Spill(r[3]) then 0.0
                       else initp
    requires after == AtExpect(ProductMat(A, BatchOffset(idx2, sa), B, BatchOffset(idx2, sb),
                                          r[2], sa[2], r[3], true, false), rBase, r[2], 0, 0, p, before)
    ensures after == if p < rBase + MatSize(r) then AtWritten(A, sa, B, sb, Unravel(p, r))
                     else if rBase + MatSize(r) > 0 && p < rBase + MatSize(r) + Spill(r[3]) then 0.0
                     else initp
  {
    if rBase <= p < rBase + MatSize(r) {
      AtBatchInside(A, sa, B, sb, r, idx2, rBase, p, before, after);
    } else if rBase + MatSize(r) <= p {
      AtBatchBelow(r, rBase, p, initp, before, after,
                   ProductMat(A, BatchOffset(idx2, sa), B, BatchOffset(idx2, sb), r[2], sa[2], r[3], true, false));
    }
  }

  /** AtBatchPosition inside the matrix just stored: its final cell. */
  lemma AtBatchInside(A: seq<real>, sa: seq<nat>, B: seq<real>, sb: seq<nat>, r: seq<nat>,
                      idx2: seq<nat>, rBase: nat, p: nat, before: real, after: real)
    requires |sa| == Rank && |sb| == Rank && |A| == Prod(sa) && |B| == Prod(sb)
    requires MulTrShape(sa, sb, true, false) == Ok(r) && |r| == Rank && r[3] == sb[3]
    requires InBounds(idx2, r[..2]) && rBase == Linear(idx2, r[..2]) * MatSize(r)
    requires rBase <= p < rBase + MatSize(r) && p < Prod(r)
    requires after == AtExpect(ProductMat(A, BatchOffset(idx2, sa), B, BatchOffset(idx2, sb),
                                          r[2], sa[2], r[3], true, false), rBase, r[2], 0, 0, p, before)
    ensures after == AtWritten(A, sa, B, sb, Unravel(p, r))
  {
    BatchPosition(p, idx2, r, rBase);
    BatchCell(A, sa, B, sb, r, true, false, idx2, p, rBase);
  }

  /** AtBatchPosition past the matrix just stored: its spill or the prior
      value. */
  lemma AtBatchBelow(r: seq<nat>, rBase: nat, p: nat, initp: real, before: real, after: real, g: Mat)
    requires |r| == Rank && g.rows == r[2] && g.cols == r[3]
    requires rBase + MatSize(r) <= p
    requires before == if rBase > 0 && p < rBase + Spill(r[3]) then 0.0 else initp
    requires after == AtExpect(g, rBase, r[2], 0, 0, p, before)
    ensures after == if rBase + MatSize(r) > 0 && p < rBase + MatSize(r) + Spill(r[3]) then 0.0 else initp
  {
    var N := r[3];
    if N > 0 {
      OutsideMatrix(p, rBase, N, r[2]);
      assert ColOf(p, rBase, N) < N;
    }
  }

  /** One product of matmul_at: the extents come from the operand shapes as
      _tensor_kernel_mul_at passes them (`a->shape[3]` rows, `a->shape[2]`
      shared, `b->shape[3]` columns). */
  method AtMatrix(a: Tensor, b: Tensor, result: Tensor, aOff: nat, bOff: nat, rOff: nat)
    requires MulOperands(a, b, result, true, false)
    requires aOff + MatSize(a.shape) <= a.data.Length
    requires bOff + MatSize(b.shape) <= b.data.Length
    requires rOff + MatSize(result.shape) <= result.data.Length
    modifies result.data
    ensures AtDone(result.data[..], old(result.data[..]),
                   ProductMat(a.data[..], aOff, b.data[..], bOff, result.shape[2], a.shape[2],
                              result.shape[3], true, false), rOff, result.shape[2], 0, 0)
  {
    ProductShapes(a.shape, b.shape, result.shape, true, false);
    var A, B := a.data[..], b.data[..];
    var M, K, N := a.shape[3], a.shape[2], b.shape[3];
    if K > 0 && M > 0 {
      LastElement(aOff, K, M, |A|);
    }
    MatmulAt(A, aOff, B, bOff, result.data, rOff, M, K, N);
  }

  /** One pass of the batch loop of _tensor_kernel_mul_at. */
  method BatchMatrixAt(a: Tensor, b: Tensor, result: Tensor, index: seq<nat>, matIdx: nat, ghost init: seq<real>)
    returns (next: seq<nat>)
    requires MulOperands(a, b, result, true, false)
    requires |index| == Rank && matIdx < result.shape[0] * result.shape[1]
    requires MatCountOf(result.shape) && index[..2] == Unravel(matIdx, result.shape[..2])
    requires BatchAtDone(result.data[..], init, a.data[..], a.shape, b.data[..], b.shape, result.shape,
                         matIdx * MatSize(result.shape))
    modifies result.data
    ensures |next| == Rank
    ensures matIdx + 1 < result.shape[0] * result.shape[1] ==> next[..2] == Unravel(matIdx + 1, result.shape[..2])
    ensures BatchAtDone(result.data[..], init, a.data[..], a.shape, b.data[..], b.shape, result.shape,
                        (matIdx + 1) * MatSize(result.shape))
  {
    ghost var r := result.shape;
    ghost var A, B := a.data[..], b.data[..];
    ProductShapes(a.shape, b.shape, r, true, false);
    LinearUnravel(matIdx, r[..2]);
    ghost var idx2 := index[..2];
    var aOff, bOff, rOff := MatrixOffsets(a, b, result, true, false, index, matIdx);
    ghost var before := result.data[..];
    AtMatrix(a, b, result, aOff, bOff, rOff);
    BatchAtStep(result.data[..], before, init, A, a.shape, B, b.shape, r, idx2, rOff);
    next := Advance(index, result.shape, 2);
    if matIdx + 1 < result.shape[0] * result.shape[1] {
      CarryStep(idx2, r[..2]);
      UnravelLinear(Carry(idx2, r[..2]), r[..2]);
      assert next[..2] == Carry(idx2, r[..2]);
    }
  }

  /** _tensor_kernel_mul_at as written: every element of the result is the
      element of transpose(a) * b at its index, except the clobbered cells,
      which are zero. */
  method KernelMulAt(a: Tensor, b: Tensor, result: Tensor)
    requires MulOperands(a, b, result, true, false)
    modifies result.data
    ensures forall p :: 0 <= p < result.data.Length ==>
      result.data[p] == AtWritten(a.data[..], a.shape, b.data[..], b.shape, Unravel(p, result.shape))
  {
    ghost var r := result.shape;
    ghost var init := result.data[..];
    var index := [0, 0, 0, 0];
    var matIdx := 0;
    var totalMats := result.shape[0] * result.shape[1];
    MatCount(r);
    if 0 < totalMats {
      UnravelZero(r[..2]);
    }
    while matIdx < totalMats
      invariant 0 <= matIdx <= totalMats && |index| == Rank
      invariant matIdx < totalMats ==> index[..2] == Unravel(matIdx, r[..2])
      invariant BatchAtDone(result.data[..], init, a.data[..], a.shape, b.data[..], b.shape, r,
                            matIdx * MatSize(r))
    {
      index := BatchMatrixAt(a, b, result, index, matIdx, init);
      matIdx := matIdx + 1;
    }
  }

  // ---------------------------------------------------------------------------
  // The discrepancy

  /** An `M` by `N` left-transposed product has a clobbered cell exactly
      when `N` is more than one tile wide but not a multiple of the tile
      width and the product has more than one row. */
  lemma ClobberedCells(M: nat, N: nat)
    ensures (exists row: nat, col: nat :: row < M && col < N && Clobbered(row, col, N))
        <==> (N > Width && N % Width != 0 && M > 1)
  {
    if N > Width && N % Width != 0 && M > 1 {
      assert Clobbered(1, 0, N);
    }
  }

  /** A buffer of `n` ones. */
  function OneBuffer(n: nat): (s: seq<real>)
    ensures |s| == n && forall i :: 0 <= i < n ==> s[i] == 1.0
  {
    seq(n, _ => 1.0)
  }

  /** transpose(a) * b for `a` of shape [1, 1, 1, 2] and `b` of shape
      [1, 1, 1, 17], all ones: every product element is 1, but the element
      at row 1, column 0 is clobbered, and the kernel leaves 0 there. */
  lemma AtStoreCounterexample()
    ensures MulTrShape([1, 1, 1, 2], [1, 1, 1, 17], true, false) == Ok([1, 1, 2, 17])
    ensures ProductAt(OneBuffer(2), [1, 1, 1, 2], OneBuffer(17), [1, 1, 1, 17], [0, 0, 1, 0], true, false) == 1.0
    ensures AtWritten(OneBuffer(2), [1, 1, 1, 2], OneBuffer(17), [1, 1, 1, 17], [0, 0, 1, 0]) == 0.0
  {
    var sa, sb := [1, 1, 1, 2], [1, 1, 1, 17];
    var A, B := OneBuffer(2), OneBuffer(17);
    var idx := [0, 0, 1, 0];
    assert Clobbered(1, 0, 17);
    assert AIdx(idx, 0, true) == [0, 0, 0, 1];
    assert BIdx(idx, 0, false) == [0, 0, 0, 0];
    assert BroadcastIndex([0, 0, 0, 1], sa) == [0, 0, 0, 1];
    assert Linear([0, 0, 0, 1], sa) == 1;
    assert BroadcastIndex([0, 0, 0, 0], sb) == [0, 0, 0, 0];
    assert Linear([0, 0, 0, 0], sb) == 0;
    assert Broadcast(A, sa, AIdx(idx, 0, true)) == 1.0;
    assert Broadcast(B, sb, BIdx(idx, 0, false)) == 1.0;
    assert ColsAs(sa, true) == 1;
    assert MulSum(A, sa, B, sb, idx, true, false, 1) == 1.0;
    assert ProductAt(A, sa, B, sb, idx, true, false) == 1.0;
    assert BatchShape(sa, sb) == Some([1, 1]);
    assert [1, 1] + [sa[3], sb[3]] == [1, 1, 2, 17];
  }
}
