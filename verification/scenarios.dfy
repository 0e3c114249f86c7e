/** Small worked inputs for the engine: a single pixel, and a 2x2
    mid-gray patch under Floyd–Steinberg traced step by step. */
module Scenarios {
  import opened Grids
  import opened Kernels
  import opened Quantization
  import opened Dithering

  /** On a single pixel every kernel target falls outside the grid: the
      output is the quantized input, whichever kernel is used. */
  lemma SinglePixel(v: Byte, k: Kernel)
    ensures Dithered(Grid(1, 1, [[v]]), k) == Grid(1, 1, [[Quantize(v)]])
  {
    var g := Grid(1, 1, [[v]]);
    var h := Step(g, k, 0, 0);
    assert ScanRows(g, k, 1) == h;
    StepCell(g, k, 0, 0, 0, 0);
    Extensionality(h, Grid(1, 1, [[Quantize(v)]]));
  }

  /** A 2x2 mid-gray patch (130 everywhere) under the bounds-checked
      Floyd–Steinberg scan becomes a checkerboard. Pixel (0,0) goes white
      and pushes its error of -125 to its three in-bounds targets, leaving
      75, 90 and 122; the next two pixels fall to black, and the last one
      collects enough to go white. (Without bounds checks the write meant
      for (1,-1) lands on (0,1) instead, so that trace differs.) */
  lemma MidGraySquare(g: Grid)
    requires g == MidGray(0)
    ensures Dithered(g, FloydSteinberg) == Grid(2, 2, [[255, 0], [0, 255]])
  {
    var s2 := MidGray(2);
    MidGrayTopRow(g, s2);
    MidGrayBottomRow(s2, MidGray(4));
  }

  lemma MidGrayTopRow(g: Grid, h: Grid)
    requires g == MidGray(0) && h == MidGray(2)
    ensures ScanRows(g, FloydSteinberg, 1) == h
  {
    var s1 := MidGray(1);
    MidGrayVisit00(g, s1);
    MidGrayVisit01(s1, h);
    assert ScanRow(g, FloydSteinberg, 0, 1) == s1;
  }

  lemma MidGrayBottomRow(g: Grid, h: Grid)
    requires g == MidGray(2) && h == MidGray(4)
    ensures ScanRow(g, FloydSteinberg, 1, 2) == h
  {
    var s3 := MidGray(3);
    MidGrayVisit10(g, s3);
    MidGrayVisit11(s3, h);
    assert ScanRow(g, FloydSteinberg, 1, 1) == s3;
  }

  /** The working grid of the mid-gray scan after its first `n` steps. */
  function MidGray(n: nat): Grid
    requires n <= 4
  {
    match n
    case 0 => Grid(2, 2, [[130, 130], [130, 130]])
    case 1 => Grid(2, 2, [[255, 75], [90, 122]])
    case 2 => Grid(2, 2, [[255, 0], [104, 145]])
    case 3 => Grid(2, 2, [[255, 0], [0, 190]])
    case 4 => Grid(2, 2, [[255, 0], [0, 255]])
  }

  /** (0,0): 130 goes white, error -125; 7, 5 and 1 sixteenths of it reach
      (0,1), (1,0) and (1,1); the (1,-1) share is dropped. */
  lemma MidGrayVisit00(g: Grid, h: Grid)
    requires g == Grid(2, 2, [[130, 130], [130, 130]]) && h == Grid(2, 2, [[255, 75], [90, 122]])
    ensures Step(g, FloydSteinberg, 0, 0) == h
  {
    MidGrayVisit00Cells(g);
    assert h.At(0, 0) == 255 && h.At(0, 1) == 75 && h.At(1, 0) == 90 && h.At(1, 1) == 122;
    SquareStep(g, 0, 0, h);
  }

  /** What the (0,0) step writes to each of the four cells. */
  lemma MidGrayVisit00Cells(g: Grid)
    requires g == Grid(2, 2, [[130, 130], [130, 130]])
    ensures SquareCell(g, 0, 0, 0, 0) == 255
    ensures SquareCell(g, 0, 0, 0, 1) == 75
    ensures SquareCell(g, 0, 0, 1, 0) == 90
    ensures SquareCell(g, 0, 0, 1, 1) == 122
  {
    assert QuantError(130) == -125;
    assert Share(-125, 7, 16) == -55 && Share(-125, 5, 16) == -40 && Share(-125, 1, 16) == -8;
  }

  /** (0,1): 75 goes black, error 75, shared with (1,0) and (1,1). */
  lemma MidGrayVisit01(g: Grid, h: Grid)
    requires g == Grid(2, 2, [[255, 75], [90, 122]]) && h == Grid(2, 2, [[255, 0], [104, 145]])
    ensures Step(g, FloydSteinberg, 0, 1) == h
  {
    MidGrayVisit01Cells(g);
    assert h.At(0, 0) == 255 && h.At(0, 1) == 0 && h.At(1, 0) == 104 && h.At(1, 1) == 145;
    SquareStep(g, 0, 1, h);
  }

  /** What the (0,1) step writes to each of the four cells. */
  lemma MidGrayVisit01Cells(g: Grid)
    requires g == Grid(2, 2, [[255, 75], [90, 122]])
    ensures SquareCell(g, 0, 1, 0, 0) == 255
    ensures SquareCell(g, 0, 1, 0, 1) == 0
    ensures SquareCell(g, 0, 1, 1, 0) == 104
    ensures SquareCell(g, 0, 1, 1, 1) == 145
  {
    assert QuantError(75) == 75;
    assert Share(75, 3, 16) == 14 && Share(75, 5, 16) == 23;
    assert Accumulate(90, 75, 3, 16) == 104 && Accumulate(122, 75, 5, 16) == 145;
    assert Spread(90, 75, Some(3), 16) == 104 && Spread(122, 75, Some(5), 16) == 145;
    assert Weight(FloydSteinberg, 1, -1) == Some(3) && Weight(FloydSteinberg, 1, 0) == Some(5);
  }

  /** (1,0): 104 goes black, error 104, 7/16 of it to (1,1). */
  lemma MidGrayVisit10(g: Grid, h: Grid)
    requires g == Grid(2, 2, [[255, 0], [104, 145]]) && h == Grid(2, 2, [[255, 0], [0, 190]])
    ensures Step(g, FloydSteinberg, 1, 0) == h
  {
    MidGrayVisit10Cells(g);
    assert h.At(0, 0) == 255 && h.At(0, 1) == 0 && h.At(1, 0) == 0 && h.At(1, 1) == 190;
    SquareStep(g, 1, 0, h);
  }

  /** What the (1,0) step writes to each of the four cells. */
  lemma MidGrayVisit10Cells(g: Grid)
    requires g == Grid(2, 2, [[255, 0], [104, 145]])
    ensures SquareCell(g, 1, 0, 0, 0) == 255
    ensures SquareCell(g, 1, 0, 0, 1) == 0
    ensures SquareCell(g, 1, 0, 1, 0) == 0
    ensures SquareCell(g, 1, 0, 1, 1) == 190
  {
    assert QuantError(104) == 104;
    assert Share(104, 7, 16) == 45;
    assert Accumulate(145, 104, 7, 16) == 190 && Spread(145, 104, Some(7), 16) == 190;
    assert Weight(FloydSteinberg, 0, 1) == Some(7);
    assert Weight(FloydSteinberg, -1, 0) == None && Weight(FloydSteinberg, -1, 1) == None;
  }

  /** (1,1): 190 goes white; every target is out of bounds. */
  lemma MidGrayVisit11(g: Grid, h: Grid)
    requires g == Grid(2, 2, [[255, 0], [0, 190]]) && h == Grid(2, 2, [[255, 0], [0, 255]])
    ensures Step(g, FloydSteinberg, 1, 1) == h
  {
    MidGrayVisit11Cells(g);
    assert h.At(0, 0) == 255 && h.At(0, 1) == 0 && h.At(1, 0) == 0 && h.At(1, 1) == 255;
    SquareStep(g, 1, 1, h);
  }

  /** What the (1,1) step writes to each of the four cells. */
  lemma MidGrayVisit11Cells(g: Grid)
    requires g == Grid(2, 2, [[255, 0], [0, 190]])
    ensures SquareCell(g, 1, 1, 0, 0) == 255
    ensures SquareCell(g, 1, 1, 0, 1) == 0
    ensures SquareCell(g, 1, 1, 1, 0) == 0
    ensures SquareCell(g, 1, 1, 1, 1) == 255
  {
  }

  /** A Floyd–Steinberg step on a 2x2 grid, checked against the grid `h`
      it is claimed to produce, cell by cell. */
  lemma SquareStep(g: Grid, i: int, j: int, h: Grid)
    requires g.Valid() && g.rows == 2 && g.cols == 2 && g.InBounds(i, j)
    requires h.Valid() && h.rows == 2 && h.cols == 2
    requires h.At(0, 0) == SquareCell(g, i, j, 0, 0) && h.At(0, 1) == SquareCell(g, i, j, 0, 1)
    requires h.At(1, 0) == SquareCell(g, i, j, 1, 0) && h.At(1, 1) == SquareCell(g, i, j, 1, 1)
    ensures Step(g, FloydSteinberg, i, j) == h
  {
    var s := Step(g, FloydSteinberg, i, j);
    forall r, c | g.InBounds(r, c)
      ensures s.At(r, c) == h.At(r, c)
    {
      StepCell(g, FloydSteinberg, i, j, r, c);
      KernelTable(FloydSteinberg, r - i, c - j);
      assert r == 0 || r == 1;
      assert c == 0 || c == 1;
    }
    Extensionality(s, h);
  }

  /** The value Floyd–Steinberg gives cell (r, c) when visiting (i, j). */
  function SquareCell(g: Grid, i: int, j: int, r: int, c: int): Byte
    requires g.Valid() && g.InBounds(i, j) && g.InBounds(r, c)
  {
    if r == i && c == j then Quantize(g.At(i, j))
    else Spread(g.At(r, c), QuantError(g.At(i, j)), Weight(FloydSteinberg, r - i, c - j), 16)
  }
}
