/** Single-channel 8-bit raster grids, row-major, as the program's
    grayscale matrices are. */
module Grids {

  /** An 8-bit unsigned sample. */
  type Byte = x: int | 0 <= x < 256

  /** A `rows` by `cols` grid; `px[r][c]` is the sample in row `r`, column `c`. */
  datatype Grid = Grid(rows: nat, cols: nat, px: seq<seq<Byte>>) {

    /** Every row holds exactly `cols` samples. */
    ghost predicate Valid() {
      |px| == rows && forall r :: 0 <= r < rows ==> |px[r]| == cols
    }

    predicate InBounds(r: int, c: int) {
      0 <= r < rows && 0 <= c < cols
    }

    function At(r: int, c: int): Byte
      requires Valid() && InBounds(r, c)
    {
      px[r][c]
    }

    /** The grid with one sample replaced. */
    function Set(r: int, c: int, v: Byte): (g: Grid)
      requires Valid() && InBounds(r, c)
      ensures g.Valid() && g.rows == rows && g.cols == cols
      ensures g.At(r, c) == v
    {
      var row: seq<Byte> := px[r][c := v];
      Grid(rows, cols, px[r := row])
    }
  }

  /** Replacing one sample leaves every other sample as it was. */
  lemma SetCell(g: Grid, r: int, c: int, v: Byte, r': int, c': int)
    requires g.Valid() && g.InBounds(r, c) && g.InBounds(r', c')
    ensures g.Set(r, c, v).At(r', c') == if r' == r && c' == c then v else g.At(r', c')
  {
  }

  /** Cell (r, c) is visited before cell (i, j) by a row-major scan. */
  predicate RasterBefore(r: int, c: int, i: int, j: int) {
    r < i || (r == i && c < j)
  }

  /** One of the two output levels. */
  predicate IsLevel(v: Byte) {
    v == 0 || v == 255
  }

  /** Every cell visited before (i, j) holds an output level. */
  ghost predicate Settled(g: Grid, i: int, j: int)
    requires g.Valid()
  {
    forall r, c :: g.InBounds(r, c) && RasterBefore(r, c, i, j) ==> IsLevel(g.At(r, c))
  }

  /** Every cell of the grid holds an output level. */
  ghost predicate Binary(g: Grid)
    requires g.Valid()
  {
    forall r, c :: g.InBounds(r, c) ==> IsLevel(g.At(r, c))
  }

  /** Two valid grids with the same shape and the same samples are equal. */
  lemma Extensionality(g: Grid, h: Grid)
    requires g.Valid() && h.Valid() && g.rows == h.rows && g.cols == h.cols
    requires forall r, c :: g.InBounds(r, c) ==> g.At(r, c) == h.At(r, c)
    ensures g == h
  {
    forall r | 0 <= r < g.rows
      ensures g.px[r] == h.px[r]
    {
      forall c | 0 <= c < g.cols
        ensures g.px[r][c] == h.px[r][c]
      {
        assert g.InBounds(r, c) && g.At(r, c) == h.At(r, c);
      }
    }
  }
}
