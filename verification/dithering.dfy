/** The error-diffusion engine: one row-major pass that quantizes each
    pixel of a working copy and pushes the quantization error forward
    through the kernel's table. Targets outside the grid are dropped. */
module Dithering {
  import opened Grids
  import opened Kernels
  import opened Quantization

  /** What a sample becomes when it receives the share `w` of `err`, or
      nothing when the kernel does not aim at it. */
  function Spread(v: Byte, err: int, w: Option<nat>, d: nat): Byte
    requires d > 0
  {
    match w
    case None => v
    case Some(w) => Accumulate(v, err, w, d)
  }

  /** One kernel entry applied from (i, j): its target receives its share
      of the error when that target lies inside the grid. */
  function AddTap(g: Grid, i: int, j: int, err: int, t: Tap, d: nat): (h: Grid)
    requires g.Valid() && d > 0
    ensures h.Valid() && h.rows == g.rows && h.cols == g.cols
  {
    var r := i + t.dr;
    var c := j + t.dc;
    if g.InBounds(r, c) then g.Set(r, c, Accumulate(g.At(r, c), err, t.weight, d)) else g
  }

  /** What one kernel entry does to a single in-bounds cell. */
  lemma AddTapCell(g: Grid, i: int, j: int, err: int, t: Tap, d: nat, r: int, c: int)
    requires g.Valid() && d > 0 && g.InBounds(r, c)
    ensures AddTap(g, i, j, err, t, d).At(r, c) ==
      if r == i + t.dr && c == j + t.dc then Accumulate(g.At(r, c), err, t.weight, d) else g.At(r, c)
  {
    if g.InBounds(i + t.dr, j + t.dc) {
      SetCell(g, i + t.dr, j + t.dc, Accumulate(g.At(i + t.dr, j + t.dc), err, t.weight, d), r, c);
    }
  }

  /** A whole table applied from (i, j), entry by entry in table order. */
  function Diffuse(g: Grid, i: int, j: int, err: int, ts: seq<Tap>, d: nat): (h: Grid)
    requires g.Valid() && d > 0 && DistinctOffsets(ts)
    ensures h.Valid() && h.rows == g.rows && h.cols == g.cols
    decreases |ts|
  {
    if |ts| == 0 then g
    else AddTap(Diffuse(g, i, j, err, ts[..|ts| - 1], d), i, j, err, ts[|ts| - 1], d)
  }

  /** Applying a table entry by entry agrees, cell by cell, with looking
      the cell's own share up in the table: a cell the table does not aim
      at keeps its value, and one it aims at receives exactly one share. */
  lemma {:induction false} DiffuseCell(g: Grid, i: int, j: int, err: int, ts: seq<Tap>, d: nat, r: int, c: int)
    requires g.Valid() && d > 0 && DistinctOffsets(ts) && g.InBounds(r, c)
    ensures Diffuse(g, i, j, err, ts, d).At(r, c) == Spread(g.At(r, c), err, Lookup(ts, r - i, c - j), d)
    decreases |ts|
  {
    if |ts| > 0 {
      var prefix := ts[..|ts| - 1];
      var last := ts[|ts| - 1];
      assert Lookup(prefix, last.dr, last.dc) == None by {
        forall n | 0 <= n < |prefix|
          ensures prefix[n].dr != last.dr || prefix[n].dc != last.dc
        {
          assert prefix[n] == ts[n];
        }
      }
      DiffuseCell(g, i, j, err, prefix, d, r, c);
      AddTapCell(Diffuse(g, i, j, err, prefix, d), i, j, err, last, d, r, c);
    }
  }

  /** Visiting pixel (i, j): the pixel becomes its output level and every
      other pixel either keeps its value or, when it is an in-bounds kernel
      target, receives its share of the quantization error. */
  function Step(g: Grid, k: Kernel, i: int, j: int): (h: Grid)
    requires g.Valid() && g.InBounds(i, j)
    ensures h.Valid() && h.rows == g.rows && h.cols == g.cols
  {
    TapsWellFormed(k);
    var v := g.At(i, j);
    Diffuse(g.Set(i, j, Quantize(v)), i, j, QuantError(v), k.Taps(), k.Divisor())
  }

  /** What one step does to a single cell: the visited pixel becomes its
      output level; any other pixel receives its share of the error when
      it is an in-bounds kernel target and otherwise keeps its value. */
  lemma StepCell(g: Grid, k: Kernel, i: int, j: int, r: int, c: int)
    requires g.Valid() && g.InBounds(i, j) && g.InBounds(r, c)
    ensures r == i && c == j ==> Step(g, k, i, j).At(r, c) == Quantize(g.At(i, j))
    ensures r != i || c != j ==>
      Step(g, k, i, j).At(r, c) == Spread(g.At(r, c), QuantError(g.At(i, j)), Lookup(k.Taps(), r - i, c - j), k.Divisor())
  {
    NoBackwardTarget(k, 0, 0);
    TapsWellFormed(k);
    var v := g.At(i, j);
    SetCell(g, i, j, Quantize(v), r, c);
    DiffuseCell(g.Set(i, j, Quantize(v)), i, j, QuantError(v), k.Taps(), k.Divisor(), r, c);
  }

  /** A step changes nothing but the visited pixel and the in-bounds
      cells the kernel aims at from it. */
  lemma StepFrame(g: Grid, k: Kernel, i: int, j: int, r: int, c: int)
    requires g.Valid() && g.InBounds(i, j) && g.InBounds(r, c)
    requires r != i || c != j
    requires Weight(k, r - i, c - j) == None
    ensures Step(g, k, i, j).At(r, c) == g.At(r, c)
  {
    KernelTable(k, r - i, c - j);
    StepCell(g, k, i, j, r, c);
  }

  /** The working buffer after visiting the first `j` pixels of row `i`. */
  function ScanRow(g: Grid, k: Kernel, i: nat, j: nat): (h: Grid)
    requires g.Valid() && i < g.rows && j <= g.cols
    ensures h.Valid() && h.rows == g.rows && h.cols == g.cols
    decreases j
  {
    if j == 0 then g else Step(ScanRow(g, k, i, j - 1), k, i, j - 1)
  }

  /** The working buffer after visiting the first `i` rows. */
  function ScanRows(g: Grid, k: Kernel, i: nat): (h: Grid)
    requires g.Valid() && i <= g.rows
    ensures h.Valid() && h.rows == g.rows && h.cols == g.cols
    decreases i
  {
    if i == 0 then g else ScanRow(ScanRows(g, k, i - 1), k, i - 1, g.cols)
  }

  /** The working buffer just before pixel (r, c) is visited. */
  function BeforeVisit(g: Grid, k: Kernel, r: nat, c: nat): (h: Grid)
    requires g.Valid() && g.InBounds(r, c)
    ensures h.Valid() && h.rows == g.rows && h.cols == g.cols
  {
    ScanRow(ScanRows(g, k, r), k, r, c)
  }

  /** The dithered image: the working copy after the full scan. It has the
      input's shape and every sample is an output level. */
  function Dithered(g: Grid, k: Kernel): (h: Grid)
    requires g.Valid()
    ensures h.Valid() && h.rows == g.rows && h.cols == g.cols
    ensures Binary(h)
  {
    ScanRowsSettles(g, k, g.rows);
    ScanRows(g, k, g.rows)
  }

  /** Every kernel target lies after (i, j) in scan order, so one step
      leaves every pixel visited before (i, j) as it was. */
  lemma StepKeepsVisited(g: Grid, k: Kernel, i: int, j: int, r: int, c: int)
    requires g.Valid() && g.InBounds(i, j) && g.InBounds(r, c) && RasterBefore(r, c, i, j)
    ensures Step(g, k, i, j).At(r, c) == g.At(r, c)
  {
    NoBackwardTarget(k, r - i, c - j);
    StepCell(g, k, i, j, r, c);
  }

  /** A step extends the settled prefix by the pixel it visits. */
  lemma StepSettles(g: Grid, k: Kernel, i: int, j: int)
    requires g.Valid() && g.InBounds(i, j) && Settled(g, i, j)
    ensures Settled(Step(g, k, i, j), i, j + 1)
  {
    var h := Step(g, k, i, j);
    forall r, c | h.InBounds(r, c) && RasterBefore(r, c, i, j + 1)
      ensures IsLevel(h.At(r, c))
    {
      if r != i || c != j {
        StepKeepsVisited(g, k, i, j, r, c);
      } else {
        StepCell(g, k, i, j, r, c);
      }
    }
  }

  lemma {:induction false} ScanRowSettles(g: Grid, k: Kernel, i: nat, j: nat)
    requires g.Valid() && i < g.rows && j <= g.cols && Settled(g, i, 0)
    ensures Settled(ScanRow(g, k, i, j), i, j)
    decreases j
  {
    if j > 0 {
      ScanRowSettles(g, k, i, j - 1);
      StepSettles(ScanRow(g, k, i, j - 1), k, i, j - 1);
    }
  }

  /** After the first `i` rows are scanned, all of them hold output levels. */
  lemma {:induction false} ScanRowsSettles(g: Grid, k: Kernel, i: nat)
    requires g.Valid() && i <= g.rows
    ensures Settled(ScanRows(g, k, i), i, 0)
    decreases i
  {
    if i > 0 {
      var h := ScanRows(g, k, i - 1);
      ScanRowsSettles(g, k, i - 1);
      ScanRowSettles(h, k, i - 1, g.cols);
      var h' := ScanRow(h, k, i - 1, g.cols);
      assert Settled(h', i - 1, g.cols);
      forall r, c | h'.InBounds(r, c) && RasterBefore(r, c, i, 0)
        ensures IsLevel(h'.At(r, c))
      {
        assert RasterBefore(r, c, i - 1, g.cols);
      }
    }
  }

  /** Finishing a row from column `j` on leaves pixel (r, c), visited
      before (i, j), as it was. */
  lemma {:induction false} ScanRowKeepsVisited(g: Grid, k: Kernel, i: nat, j: nat, j': nat, r: int, c: int)
    requires g.Valid() && i < g.rows && j <= j' <= g.cols
    requires g.InBounds(r, c) && RasterBefore(r, c, i, j)
    ensures ScanRow(g, k, i, j').At(r, c) == ScanRow(g, k, i, j).At(r, c)
    decreases j'
  {
    if j' > j {
      var prev := ScanRow(g, k, i, j' - 1);
      assert ScanRow(g, k, i, j') == Step(prev, k, i, j' - 1);
      ScanRowKeepsVisited(g, k, i, j, j' - 1, r, c);
      StepKeepsVisited(prev, k, i, j' - 1, r, c);
    }
  }

  /** Scanning further rows leaves pixel (r, c) of an earlier row as it was. */
  lemma {:induction false} ScanRowsKeepVisited(g: Grid, k: Kernel, i: nat, i': nat, r: int, c: int)
    requires g.Valid() && i <= i' <= g.rows
    requires g.InBounds(r, c) && r < i
    ensures ScanRows(g, k, i').At(r, c) == ScanRows(g, k, i).At(r, c)
    decreases i'
  {
    if i' > i {
      var prev := ScanRows(g, k, i' - 1);
      assert ScanRows(g, k, i') == ScanRow(prev, k, i' - 1, g.cols);
      ScanRowsKeepVisited(g, k, i, i' - 1, r, c);
      ScanRowKeepsVisited(prev, k, i' - 1, 0, g.cols, r, c);
    }
  }

  /** Each output pixel is the quantization of the working value the pixel
      held when the scan reached it: once written, it is never written again. */
  lemma OutputIsQuantizedVisit(g: Grid, k: Kernel, r: nat, c: nat)
    requires g.Valid() && g.InBounds(r, c)
    ensures Dithered(g, k).At(r, c) == Quantize(BeforeVisit(g, k, r, c).At(r, c))
  {
    var rowStart := ScanRows(g, k, r);
    var before := ScanRow(rowStart, k, r, c);
    assert ScanRow(rowStart, k, r, c + 1) == Step(before, k, r, c);
    StepCell(before, k, r, c, r, c);
    ScanRowKeepsVisited(rowStart, k, r, c + 1, g.cols, r, c);
    assert ScanRows(g, k, r + 1) == ScanRow(rowStart, k, r, g.cols);
    ScanRowsKeepVisited(g, k, r + 1, g.rows, r, c);
  }

  /** The array buffer `buf` holds exactly the samples of `g`. */
  ghost predicate Holds(buf: array2<Byte>, g: Grid)
    reads buf
  {
    && g.Valid()
    && buf.Length0 == g.rows && buf.Length1 == g.cols
    && forall r, c :: 0 <= r < g.rows && 0 <= c < g.cols ==> buf[r, c] == g.px[r][c]
  }

  /** Visits pixel (i, j) of the buffer in place, with a bounds check
      before every diffusion write. */
  method StepInPlace(buf: array2<Byte>, ghost g: Grid, k: Kernel, i: nat, j: nat)
    requires Holds(buf, g) && g.InBounds(i, j)
    modifies buf
    ensures Holds(buf, Step(g, k, i, j))
  {
    var v := buf[i, j];
    var q := Quantize(v);
    buf[i, j] := q;
    var err := (v as int) - (q as int);
    ghost var g1 := g.Set(i, j, q);
    forall r, c | 0 <= r < g.rows && 0 <= c < g.cols
      ensures buf[r, c] == g1.px[r][c]
    {
      SetCell(g, i, j, q, r, c);
    }
    TapsWellFormed(k);
    var taps := k.Taps();
    var d := k.Divisor();
    var t := 0;
    assert taps[..0] == [];
    while t < |taps|
      invariant 0 <= t <= |taps|
      invariant DistinctOffsets(taps[..t])
      invariant Holds(buf, Diffuse(g1, i, j, err, taps[..t], d))
    {
      ghost var cur := Diffuse(g1, i, j, err, taps[..t], d);
      assert taps[..t + 1][..t] == taps[..t] && taps[..t + 1][t] == taps[t];
      ghost var next := AddTap(cur, i, j, err, taps[t], d);
      assert next == Diffuse(g1, i, j, err, taps[..t + 1], d);
      AddTapInPlace(buf, cur, i, j, err, taps[t], d);
      t := t + 1;
    }
    assert taps[..t] == taps;
  }

  /** Applies one kernel entry to the buffer, dropping it when its target
      falls outside the grid. */
  method AddTapInPlace(buf: array2<Byte>, ghost g: Grid, i: int, j: int, err: int, t: Tap, d: nat)
    requires Holds(buf, g) && d > 0
    modifies buf
    ensures Holds(buf, AddTap(g, i, j, err, t, d))
  {
    ghost var next := AddTap(g, i, j, err, t, d);
    var r := i + t.dr;
    var c := j + t.dc;
    if 0 <= r < buf.Length0 && 0 <= c < buf.Length1 {
      buf[r, c] := Accumulate(buf[r, c], err, t.weight, d);
    }
    forall r', c' | 0 <= r' < g.rows && 0 <= c' < g.cols
      ensures buf[r', c'] == next.px[r'][c']
    {
      AddTapCell(g, i, j, err, t, d, r', c');
    }
  }

  /** Dithers a copy of `src` with kernel `k`: clones it into a buffer,
      visits the pixels in row-major order, and returns the buffer. The
      result is the reference scan's, so it has the input's shape and
      holds only output levels. */
  method Dither(src: Grid, k: Kernel) returns (out: Grid)
    requires src.Valid()
    ensures out == Dithered(src, k)
    ensures out.Valid() && out.rows == src.rows && out.cols == src.cols
    ensures Binary(out)
  {
    var buf := Clone(src);
    var i := 0;
    while i < src.rows
      invariant 0 <= i <= src.rows
      invariant Holds(buf, ScanRows(src, k, i))
    {
      ScanRowInPlace(buf, ScanRows(src, k, i), k, i);
      i := i + 1;
    }
    out := Snapshot(buf, ScanRows(src, k, src.rows));
  }

  /** Visits row `i` of the buffer, left to right. */
  method ScanRowInPlace(buf: array2<Byte>, ghost g: Grid, k: Kernel, i: nat)
    requires Holds(buf, g) && i < g.rows
    modifies buf
    ensures Holds(buf, ScanRow(g, k, i, g.cols))
  {
    var j := 0;
    while j < buf.Length1
      invariant 0 <= j <= g.cols
      invariant Holds(buf, ScanRow(g, k, i, j))
    {
      ghost var cur := ScanRow(g, k, i, j);
      assert ScanRow(g, k, i, j + 1) == Step(cur, k, i, j);
      StepInPlace(buf, cur, k, i, j);
      j := j + 1;
    }
  }

  /** A fresh working buffer holding a copy of `src`. */
  method Clone(src: Grid) returns (buf: array2<Byte>)
    requires src.Valid()
    ensures fresh(buf) && Holds(buf, src)
  {
    buf := new Byte[src.rows, src.cols]((r: nat, c: nat) requires r < src.rows && c < src.cols => src.px[r][c]);
  }

  /** The grid the buffer currently holds. */
  method Snapshot(buf: array2<Byte>, ghost g: Grid) returns (out: Grid)
    requires Holds(buf, g)
    ensures out == g
  {
    out := Grid(buf.Length0, buf.Length1,
                seq(buf.Length0, r requires 0 <= r < buf.Length0 reads buf =>
                  seq(buf.Length1, c requires 0 <= c < buf.Length1 reads buf => buf[r, c])));
    Extensionality(out, g);
  }

  /** The Floyd–Steinberg scan: 7, 3, 5 and 1 sixteenths of the error. */
  method FloydSteinbergDither(src: Grid) returns (out: Grid)
    requires src.Valid()
    ensures out == Dithered(src, FloydSteinberg)
    ensures out.Valid() && out.rows == src.rows && out.cols == src.cols && Binary(out)
  {
    out := Dither(src, FloydSteinberg);
  }

  /** The Atkinson scan: one eighth of the error to each of six targets. */
  method AtkinsonDither(src: Grid) returns (out: Grid)
    requires src.Valid()
    ensures out == Dithered(src, Atkinson)
    ensures out.Valid() && out.rows == src.rows && out.cols == src.cols && Binary(out)
  {
    out := Dither(src, Atkinson);
  }
}
