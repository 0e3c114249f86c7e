/** The scan as the program writes it, without bounds checks, in a build
    where the matrix library's debug range assertions are compiled out (a
    release build; with them active the first out-of-range target stops
    the program instead). The working matrix is a clone, so its samples
    are stored contiguously in row-major order, and the element accessor
    of such a matrix reaches element `r * cols + c` of that storage for
    any (r, c). A kernel target at column -1 or column `cols` therefore
    lands on the neighbouring row, and on a single-column image the target
    one row down and one column left is the pixel that was just quantized.
    Accesses before the start or past the end of the storage are undefined
    behaviour in the program; this model drops them. */
module AsWritten {
  import opened Grids
  import opened Kernels
  import opened Quantization
  import opened Dithering
  import opened Scenarios

  /** Multiplying by a non-negative factor keeps order. */
  lemma MulMonotone(a: int, b: int, n: nat)
    requires a <= b
    ensures a * n <= b * n
  {
    var x := b - a;
    assert x * n >= 0;
    assert b * n == a * n + x * n;
  }

  /** Quotient and remainder are the only pair that rebuilds `o`. */
  lemma DivModUnique(o: int, n: nat, q: int, m: int)
    requires n > 0 && o == q * n + m && 0 <= m < n
    ensures o / n == q && o % n == m
  {
    var q' := o / n;
    if q' < q {
      MulMonotone(q' + 1, q, n);
      assert false;
    }
    if q < q' {
      MulMonotone(q + 1, q', n);
      assert false;
    }
  }

  /** Row-major storage is faithful on in-bounds cells: cell (r, c) is
      element `r * cols + c`, and that element names (r, c) back. */
  lemma RowMajor(g: Grid, r: int, c: int)
    requires g.InBounds(r, c)
    ensures 0 <= r * g.cols + c < g.rows * g.cols
    ensures (r * g.cols + c) / g.cols == r && (r * g.cols + c) % g.cols == c
  {
    MulMonotone(r + 1, g.rows, g.cols);
    MulMonotone(0, r, g.cols);
    DivModUnique(r * g.cols + c, g.cols, r, c);
  }

  /** Element `o` of the storage lies in row `o / cols`, column `o % cols`. */
  lemma ElementCell(g: Grid, o: int)
    requires 0 <= o < g.rows * g.cols
    ensures g.cols > 0 && g.InBounds(o / g.cols, o % g.cols)
    ensures (o / g.cols) * g.cols + o % g.cols == o
  {
    var q := o / g.cols;
    if g.rows <= q {
      MulMonotone(g.rows, q, g.cols);
      assert false;
    }
  }

  /** The cell the unchecked accessor reaches for (r, c): the cell of
      storage element `r * cols + c`, or None when that element is outside
      the storage. Every in-bounds cell reaches itself. */
  function Reach(g: Grid, r: int, c: int): (cell: Option<(int, int)>)
    requires g.Valid()
    ensures cell.Some? <==> 0 <= r * g.cols + c < g.rows * g.cols
    ensures cell.Some? ==> g.InBounds(cell.value.0, cell.value.1)
    ensures cell.Some? ==> cell.value.0 * g.cols + cell.value.1 == r * g.cols + c
    ensures g.InBounds(r, c) ==> cell == Some((r, c))
  {
    Addressing(g, r, c);
    var o := r * g.cols + c;
    if 0 <= o < g.rows * g.cols then Some((o / g.cols, o % g.cols)) else None
  }

  lemma Addressing(g: Grid, r: int, c: int)
    ensures 0 <= r * g.cols + c < g.rows * g.cols ==>
      var o := r * g.cols + c;
      g.cols > 0 && g.InBounds(o / g.cols, o % g.cols) && (o / g.cols) * g.cols + o % g.cols == o
    ensures g.InBounds(r, c) ==>
      0 <= r * g.cols + c < g.rows * g.cols && (r * g.cols + c) / g.cols == r && (r * g.cols + c) % g.cols == c
  {
    var o := r * g.cols + c;
    if 0 <= o < g.rows * g.cols {
      ElementCell(g, o);
    }
    if g.InBounds(r, c) {
      RowMajor(g, r, c);
    }
  }

  /** One kernel entry applied through the unchecked accessor. */
  function UncheckedAddTap(g: Grid, i: int, j: int, err: int, t: Tap, d: nat): (h: Grid)
    requires g.Valid() && d > 0
    ensures h.Valid() && h.rows == g.rows && h.cols == g.cols
  {
    match Reach(g, i + t.dr, j + t.dc)
    case None => g
    case Some(cell) => g.Set(cell.0, cell.1, Accumulate(g.At(cell.0, cell.1), err, t.weight, d))
  }

  /** Where the target is inside the grid, the unchecked write is the
      checked one. */
  lemma UncheckedAddTapInBounds(g: Grid, i: int, j: int, err: int, t: Tap, d: nat)
    requires g.Valid() && d > 0 && g.InBounds(i + t.dr, j + t.dc)
    ensures UncheckedAddTap(g, i, j, err, t, d) == AddTap(g, i, j, err, t, d)
  {
  }

  /** A whole table applied through the unchecked accessor, entry by entry. */
  function UncheckedDiffuse(g: Grid, i: int, j: int, err: int, ts: seq<Tap>, d: nat): (h: Grid)
    requires g.Valid() && d > 0
    ensures h.Valid() && h.rows == g.rows && h.cols == g.cols
    decreases |ts|
  {
    if |ts| == 0 then g
    else UncheckedAddTap(UncheckedDiffuse(g, i, j, err, ts[..|ts| - 1], d), i, j, err, ts[|ts| - 1], d)
  }

  /** Visiting pixel (i, j) as the program does. */
  function UncheckedStep(g: Grid, k: Kernel, i: int, j: int): (h: Grid)
    requires g.Valid() && g.InBounds(i, j)
    ensures h.Valid() && h.rows == g.rows && h.cols == g.cols
  {
    var v := g.At(i, j);
    UncheckedDiffuse(g.Set(i, j, Quantize(v)), i, j, QuantError(v), k.Taps(), k.Divisor())
  }

  function UncheckedScanRow(g: Grid, k: Kernel, i: nat, j: nat): (h: Grid)
    requires g.Valid() && i < g.rows && j <= g.cols
    ensures h.Valid() && h.rows == g.rows && h.cols == g.cols
    decreases j
  {
    if j == 0 then g else UncheckedStep(UncheckedScanRow(g, k, i, j - 1), k, i, j - 1)
  }

  function UncheckedScanRows(g: Grid, k: Kernel, i: nat): (h: Grid)
    requires g.Valid() && i <= g.rows
    ensures h.Valid() && h.rows == g.rows && h.cols == g.cols
    decreases i
  {
    if i == 0 then g else UncheckedScanRow(UncheckedScanRows(g, k, i - 1), k, i - 1, g.cols)
  }

  /** The program's output, as written. */
  function AsWrittenDithered(g: Grid, k: Kernel): (h: Grid)
    requires g.Valid()
    ensures h.Valid() && h.rows == g.rows && h.cols == g.cols
  {
    UncheckedScanRows(g, k, g.rows)
  }

  /** A table whose every target from (i, j) is inside the grid acts the
      same through the unchecked accessor as through the checked one. */
  lemma {:induction false} UncheckedDiffuseInBounds(g: Grid, i: int, j: int, err: int, ts: seq<Tap>, d: nat)
    requires g.Valid() && d > 0 && DistinctOffsets(ts)
    requires forall n :: 0 <= n < |ts| ==> g.InBounds(i + ts[n].dr, j + ts[n].dc)
    ensures UncheckedDiffuse(g, i, j, err, ts, d) == Diffuse(g, i, j, err, ts, d)
    decreases |ts|
  {
    if |ts| > 0 {
      var prefix := ts[..|ts| - 1];
      assert forall n :: 0 <= n < |prefix| ==> prefix[n] == ts[n];
      UncheckedDiffuseInBounds(g, i, j, err, prefix, d);
      UncheckedAddTapInBounds(Diffuse(g, i, j, err, prefix, d), i, j, err, ts[|ts| - 1], d);
    }
  }

  /** Away from the borders the program as written and the bounds-checked
      scan take the same step. */
  lemma InteriorStepAgrees(g: Grid, k: Kernel, i: int, j: int)
    requires g.Valid() && g.InBounds(i, j)
    requires forall n :: 0 <= n < |k.Taps()| ==> g.InBounds(i + k.Taps()[n].dr, j + k.Taps()[n].dc)
    ensures UncheckedStep(g, k, i, j) == Step(g, k, i, j)
  {
    TapsWellFormed(k);
    var v := g.At(i, j);
    UncheckedDiffuseInBounds(g.Set(i, j, Quantize(v)), i, j, QuantError(v), k.Taps(), k.Divisor());
  }

  /** From the first column, the target one row down and one column left
      is the last pixel of the current row, not a pixel outside the image. */
  lemma LeftOfRowStartWraps(g: Grid, i: int)
    requires g.Valid() && g.InBounds(i, 0)
    ensures Reach(g, i + 1, -1) == Some((i, g.cols - 1))
  {
    assert (i + 1) * g.cols - 1 == i * g.cols + (g.cols - 1);
    RowMajor(g, i, g.cols - 1);
  }

  /** What one unchecked entry does to a single cell: the cell it reaches
      receives the share, every other cell keeps its value. */
  lemma UncheckedAddTapCell(g: Grid, i: int, j: int, err: int, t: Tap, d: nat, r: int, c: int)
    requires g.Valid() && d > 0 && g.InBounds(r, c)
    ensures UncheckedAddTap(g, i, j, err, t, d).At(r, c) ==
      if Reach(g, i + t.dr, j + t.dc) == Some((r, c)) then Accumulate(g.At(r, c), err, t.weight, d) else g.At(r, c)
  {
    match Reach(g, i + t.dr, j + t.dc)
    case None =>
    case Some(cell) =>
      SetCell(g, cell.0, cell.1, Accumulate(g.At(cell.0, cell.1), err, t.weight, d), r, c);
  }

  /** On a single-column image, (a, b) is storage element `a + b`. */
  lemma SingleColumnReach(g: Grid, a: int, b: int)
    requires g.Valid() && g.cols == 1
    ensures Reach(g, a, b) == if 0 <= a + b < g.rows then Some((a + b, 0)) else None
  {
    assert a * g.cols + b == a + b;
  }

  /** The entry at which a single-column unchecked step writes back to
      the pixel it visits, or None. */
  function SelfTap(ts: seq<Tap>): Option<nat>
  {
    if |ts| == 0 then None
    else if ts[|ts| - 1].dr + ts[|ts| - 1].dc == 0 then Some(ts[|ts| - 1].weight)
    else SelfTap(ts[..|ts| - 1])
  }

  /** On a single-column image the unchecked table reaches the visited
      pixel (i, 0) exactly through entries with `dr + dc == 0`; with at most
      one such entry the pixel receives that entry's share and nothing
      else. */
  lemma {:induction false} SingleColumnDiffuseSelf(g: Grid, i: int, err: int, ts: seq<Tap>, d: nat)
    requires g.Valid() && g.cols == 1 && g.InBounds(i, 0) && d > 0
    requires forall a, b :: 0 <= a < b < |ts| ==> ts[a].dr + ts[a].dc != 0 || ts[b].dr + ts[b].dc != 0
    ensures UncheckedDiffuse(g, i, 0, err, ts, d).At(i, 0) ==
      match SelfTap(ts) case None => g.At(i, 0) case Some(w) => Accumulate(g.At(i, 0), err, w, d)
    decreases |ts|
  {
    if |ts| > 0 {
      var prefix := ts[..|ts| - 1];
      var last := ts[|ts| - 1];
      var h := UncheckedDiffuse(g, i, 0, err, prefix, d);
      SingleColumnDiffuseSelf(g, i, err, prefix, d);
      UncheckedAddTapCell(h, i, 0, err, last, d, i, 0);
      SingleColumnReach(h, i + last.dr, 0 + last.dc);
      if last.dr + last.dc == 0 {
        assert SelfTap(prefix) == None by {
          SelfTapNone(prefix);
          forall n | 0 <= n < |prefix|
            ensures prefix[n].dr + prefix[n].dc != 0
          {
            assert prefix[n] == ts[n];
          }
        }
      }
    }
  }

  lemma {:induction false} SelfTapNone(ts: seq<Tap>)
    requires forall n :: 0 <= n < |ts| ==> ts[n].dr + ts[n].dc != 0
    ensures SelfTap(ts) == None
    decreases |ts|
  {
    if |ts| > 0 {
      var prefix := ts[..|ts| - 1];
      assert forall n :: 0 <= n < |prefix| ==> prefix[n] == ts[n];
      SelfTapNone(prefix);
    }
  }

  /** The self-written value is off the levels whenever its share is
      non-zero: for three sixteenths from sample 6 on, for one eighth from
      sample 8 on, up to 254. */
  lemma SelfShareNotLevel(v: Byte, w: nat, d: nat)
    requires (w, d) == (3, 16) || (w, d) == (1, 8)
    requires v != 255 && w * v >= d
    ensures !IsLevel(Accumulate(Quantize(v), QuantError(v), w, d))
  {
    var err := QuantError(v);
    if (w, d) == (3, 16) {
      assert Share(err, w, d) == (err * 3) / 16;
    } else {
      assert Share(err, w, d) == err / 8;
    }
  }

  /** On a single-column image the Floyd–Steinberg write meant for the
      pixel below-left lands on the pixel just quantized, which keeps its
      level plus three sixteenths of its own error. For every sample
      strictly between 5 and 255 that leaves a value that is neither level. */
  lemma SingleColumnSelfWrite(g: Grid, i: int)
    requires g.Valid() && g.cols == 1 && g.InBounds(i, 0)
    ensures UncheckedStep(g, FloydSteinberg, i, 0).At(i, 0)
      == Accumulate(Quantize(g.At(i, 0)), QuantError(g.At(i, 0)), 3, 16)
    ensures 5 < g.At(i, 0) < 255 ==> !IsLevel(UncheckedStep(g, FloydSteinberg, i, 0).At(i, 0))
  {
    var v := g.At(i, 0);
    var ts := FloydSteinberg.Taps();
    assert SelfTap(ts) == Some(3) by {
      assert ts[..3][..2] == ts[..2] && ts[..3] == ts[..|ts| - 1];
    }
    SingleColumnDiffuseSelf(g.Set(i, 0, Quantize(v)), i, QuantError(v), ts, 16);
    if 5 < v < 255 {
      SelfShareNotLevel(v, 3, 16);
    }
  }

  /** The same self-write under Atkinson, with one eighth of the error:
      every sample from 8 up to 254 is left between the levels. */
  lemma SingleColumnSelfWriteAtkinson(g: Grid, i: int)
    requires g.Valid() && g.cols == 1 && g.InBounds(i, 0)
    ensures UncheckedStep(g, Atkinson, i, 0).At(i, 0)
      == Accumulate(Quantize(g.At(i, 0)), QuantError(g.At(i, 0)), 1, 8)
    ensures 8 <= g.At(i, 0) < 255 ==> !IsLevel(UncheckedStep(g, Atkinson, i, 0).At(i, 0))
  {
    var v := g.At(i, 0);
    var ts := Atkinson.Taps();
    assert SelfTap(ts) == Some(1) by {
      assert ts[..4][..3] == ts[..3] && ts[..5][..4] == ts[..4] && ts[..5] == ts[..|ts| - 1];
      assert SelfTap(ts[..3]) == Some(1);
      assert SelfTap(ts[..4]) == Some(1);
      assert SelfTap(ts[..5]) == Some(1);
    }
    SingleColumnDiffuseSelf(g.Set(i, 0, Quantize(v)), i, QuantError(v), ts, 8);
    if 8 <= v < 255 {
      SelfShareNotLevel(v, 1, 8);
    }
  }

  /** Every entry of both tables has `dr + dc >= 0`: on a single-column
      image no entry reaches a storage element before the visited one. */
  lemma TapsReachForward(k: Kernel)
    ensures forall n :: 0 <= n < |k.Taps()| ==> k.Taps()[n].dr + k.Taps()[n].dc >= 0
  {
    var ts := k.Taps();
    forall n | 0 <= n < |ts|
      ensures ts[n].dr + ts[n].dc >= 0
    {
      match k
      case FloydSteinberg =>
        assert n == 0 || n == 1 || n == 2 || n == 3;
      case Atkinson =>
        assert n == 0 || n == 1 || n == 2 || n == 3 || n == 4 || n == 5;
    }
  }

  /** On a single-column image an unchecked table whose entries all have
      `dr + dc >= 0` leaves every row above the visited one alone. */
  lemma {:induction false} SingleColumnDiffuseForward(g: Grid, i: int, err: int, ts: seq<Tap>, d: nat, r: int)
    requires g.Valid() && g.cols == 1 && d > 0 && g.InBounds(r, 0) && r < i
    requires forall n :: 0 <= n < |ts| ==> ts[n].dr + ts[n].dc >= 0
    ensures UncheckedDiffuse(g, i, 0, err, ts, d).At(r, 0) == g.At(r, 0)
    decreases |ts|
  {
    if |ts| > 0 {
      var prefix := ts[..|ts| - 1];
      var last := ts[|ts| - 1];
      assert forall n :: 0 <= n < |prefix| ==> prefix[n] == ts[n];
      var h := UncheckedDiffuse(g, i, 0, err, prefix, d);
      SingleColumnDiffuseForward(g, i, err, prefix, d, r);
      UncheckedAddTapCell(h, i, 0, err, last, d, r, 0);
      SingleColumnReach(h, i + last.dr, 0 + last.dc);
    }
  }

  /** On a single-column image an unchecked step at row `i` leaves every
      earlier row alone. */
  lemma SingleColumnStepKeepsEarlier(g: Grid, k: Kernel, i: int, r: int)
    requires g.Valid() && g.cols == 1 && g.InBounds(i, 0) && 0 <= r < i
    ensures UncheckedStep(g, k, i, 0).At(r, 0) == g.At(r, 0)
  {
    TapsReachForward(k);
    var v := g.At(i, 0);
    SingleColumnDiffuseForward(g.Set(i, 0, Quantize(v)), i, QuantError(v), k.Taps(), k.Divisor(), r);
  }

  /** On a single-column image the unchecked scan of row `i` is its one step. */
  lemma SingleColumnRow(g: Grid, k: Kernel, i: nat)
    requires g.Valid() && g.cols == 1 && i < g.rows
    ensures UncheckedScanRows(g, k, i + 1) == UncheckedStep(UncheckedScanRows(g, k, i), k, i, 0)
  {
    var prev := UncheckedScanRows(g, k, i);
    assert UncheckedScanRow(prev, k, i, 0) == prev;
    assert UncheckedScanRow(prev, k, i, 1) == UncheckedStep(prev, k, i, 0);
  }

  /** On a single-column image, scanning row `n` leaves every earlier row
      as it was. */
  lemma SingleColumnNextRowKeeps(g: Grid, k: Kernel, i: nat, n: nat)
    requires g.Valid() && g.cols == 1 && i < n < g.rows
    ensures UncheckedScanRows(g, k, n + 1).At(i, 0) == UncheckedScanRows(g, k, n).At(i, 0)
  {
    SingleColumnRow(g, k, n);
    SingleColumnStepKeepsEarlier(UncheckedScanRows(g, k, n), k, n, i);
  }

  /** On a single-column image, once row `i` is visited no later row of
      the unchecked scan writes it again. */
  lemma {:induction false} SingleColumnScanKeeps(g: Grid, k: Kernel, i: nat, n: nat)
    requires g.Valid() && g.cols == 1 && i < n <= g.rows
    ensures UncheckedScanRows(g, k, n).At(i, 0) == UncheckedScanRows(g, k, i + 1).At(i, 0)
    decreases n
  {
    if n > i + 1 {
      var m: nat := n - 1;
      SingleColumnScanKeeps(g, k, i, m);
      SingleColumnNextRowKeeps(g, k, i, m);
      assert m + 1 == n;
    }
  }

  /** On a single-column image the program's output at row `i` is the value
      the self-write leaves right after row `i`'s own step. */
  lemma SingleColumnOutput(g: Grid, k: Kernel, i: nat)
    requires g.Valid() && g.cols == 1 && i < g.rows
    ensures AsWrittenDithered(g, k).At(i, 0) == UncheckedStep(UncheckedScanRows(g, k, i), k, i, 0).At(i, 0)
  {
    SingleColumnScanKeeps(g, k, i, g.rows);
    SingleColumnRow(g, k, i);
  }

  /** Every single-column image whose first sample lies strictly between 5
      and 255 comes out of the Floyd–Steinberg scan as written with a first
      pixel that is neither level, namely the level plus three sixteenths
      of that sample's error. */
  lemma SingleColumnNotBinary(g: Grid)
    requires g.Valid() && g.cols == 1 && g.rows > 0
    ensures AsWrittenDithered(g, FloydSteinberg).At(0, 0)
      == Accumulate(Quantize(g.At(0, 0)), QuantError(g.At(0, 0)), 3, 16)
    ensures 5 < g.At(0, 0) < 255 ==> !Binary(AsWrittenDithered(g, FloydSteinberg))
    ensures Binary(Dithered(g, FloydSteinberg))
  {
    SingleColumnOutput(g, FloydSteinberg, 0);
    assert UncheckedScanRows(g, FloydSteinberg, 0) == g;
    SingleColumnSelfWrite(g, 0);
  }

  /** The same under Atkinson, for first samples from 8 up to 254, with one
      eighth of the error. */
  lemma SingleColumnNotBinaryAtkinson(g: Grid)
    requires g.Valid() && g.cols == 1 && g.rows > 0
    ensures AsWrittenDithered(g, Atkinson).At(0, 0)
      == Accumulate(Quantize(g.At(0, 0)), QuantError(g.At(0, 0)), 1, 8)
    ensures 8 <= g.At(0, 0) < 255 ==> !Binary(AsWrittenDithered(g, Atkinson))
    ensures Binary(Dithered(g, Atkinson))
  {
    SingleColumnOutput(g, Atkinson, 0);
    assert UncheckedScanRows(g, Atkinson, 0) == g;
    SingleColumnSelfWriteAtkinson(g, 0);
  }

  /** The 1x1 image holding 200: the program as written outputs 244 under
      Floyd–Steinberg and 248 under Atkinson, neither an output level,
      while the bounds-checked scan outputs 255 under both. */
  lemma AsWrittenSinglePixel(g: Grid)
    requires g == Grid(1, 1, [[200]])
    ensures AsWrittenDithered(g, FloydSteinberg) == Grid(1, 1, [[244]])
    ensures AsWrittenDithered(g, Atkinson) == Grid(1, 1, [[248]])
    ensures !Binary(AsWrittenDithered(g, FloydSteinberg)) && !Binary(AsWrittenDithered(g, Atkinson))
    ensures Dithered(g, FloydSteinberg) == Dithered(g, Atkinson) == Grid(1, 1, [[255]])
  {
    var h := UncheckedStep(g, FloydSteinberg, 0, 0);
    assert AsWrittenDithered(g, FloydSteinberg) == h;
    SingleColumnSelfWrite(g, 0);
    assert Share(-55, 3, 16) == -11;
    assert h.At(0, 0) == 244;
    Extensionality(h, Grid(1, 1, [[244]]));
    var a := UncheckedStep(g, Atkinson, 0, 0);
    assert AsWrittenDithered(g, Atkinson) == a;
    SingleColumnSelfWriteAtkinson(g, 0);
    assert Share(-55, 1, 8) == -7;
    assert a.At(0, 0) == 248;
    Extensionality(a, Grid(1, 1, [[248]]));
    SinglePixel(200, FloydSteinberg);
    SinglePixel(200, Atkinson);
  }
}
