# Error-diffusion dithering, modelled in Dafny

This project models the error-diffusion engine of `test.cpp`. The engine
has two scans, `floyd_steinberg_dither` and `atkinson_dither`. Each one
clones an 8-bit grayscale matrix into a working buffer and visits the
pixels in row-major order. A visited pixel becomes 255 when its value is
above 128 and 0 otherwise. The difference between the old and new value
(the quantization error) is then added, in fixed fractions, to
neighbours that the scan has not reached yet.

The model has five modules:

- `Grids` (`grids.dfy`): the working grid, with 8-bit samples.
- `Kernels` (`kernels.dfy`): the two scans differ only in their
  offset/weight tables. These are one closed datatype,
  `Kernel = FloydSteinberg | Atkinson`, with a tap table `(dr, dc, weight)`
  and a divisor for each variant.
- `Quantization` (`quantization.dfy`): the threshold, the error, and the
  per-neighbour diffusion write.
- `Dithering` (`dithering.dfy`): the scan in two forms.
  - A pure reference, `Dithered`, built from `Step`, `ScanRow` and
    `ScanRows`.
  - An imperative `Dither` over a mutable `array2` buffer. It is proved
    equal to the reference.

  `Dither` checks bounds before every diffusion write and drops targets
  outside the grid. `FloydSteinbergDither` and `AtkinsonDither` are the two
  entry points of the program.
- `Scenarios` (`scenarios.dfy`): worked inputs. One is a single pixel; the
  other is the 2×2 mid-gray patch traced step by step.
- `AsWritten` (`as_written.dfy`): the scan as the program actually writes
  it, without bounds checks. Targets are addressed through the matrix's
  contiguous row-major storage. This assumes a release build of the matrix
  library, whose debug range assertions are then compiled out. This module
  supports the findings below.

Two things make the modelled arithmetic exact rather than approximate.

- The diffusion write adds the real number `err * w / d` to an 8-bit
  sample and converts back to an integer, dropping the fraction.
  `AccumulateIsRealSum` proves that the integer form used throughout
  (`Clamp(v + (err * w) / d)`, with floor division) equals that real
  computation, followed by saturation. Every divisor is a power of two,
  so the program's double arithmetic is exact here.
- Inputs are values (`Grid` is an immutable datatype), so the input of a
  scan is never modified. The working buffer is a fresh array.

## Model

| member | source | states |
|---|---|---|
| Kernels.FloydSteinbergTable | test.cpp:18-23 | Looking up an offset in the Floyd–Steinberg table gives 7, 3, 5 and 1 (over 16) for (0,+1), (+1,−1), (+1,0) and (+1,+1). Every other offset gets nothing. |
| Kernels.AtkinsonTable | test.cpp:41-50 | Looking up an offset in the Atkinson table gives 1 (over 8) for each of (0,+1), (0,+2), (+1,−1), (+1,0), (+1,+1) and (+2,0). Every other offset gets nothing. |
| Kernels.TapsWellFormed | test.cpp:18-23 | Gives `Kernel.Taps` its meaning; `Taps` itself carries no contract. Every entry of either table aims strictly forward in scan order with a positive weight, and no two entries aim at the same neighbour, so each target receives at most one share per step. |
| Kernels.Kernel.Divisor | test.cpp:16-23 | Its contract states only that the divisor is positive, which every diffusion write needs. Floyd–Steinberg divides by 16 (lines 18-23) and Atkinson by 8 (line 41); `KernelMass` and the two table lemmas say what the divisor means relative to the weights. |
| Kernels.KernelMass | test.cpp:16-23 | Floyd–Steinberg's weights sum to its divisor 16, so the whole error is passed on. Atkinson's six weights sum to 6 out of 8, so a quarter of the error is discarded. |
| Kernels.NoBackwardTarget | test.cpp:43-50 | No kernel aims at the current pixel, at an earlier row, or at an earlier column of the same row. All diffusion goes forward in raster order. |
| Quantization.Quantize | test.cpp:12 | The written value is one of the two levels. It is 255 exactly when the sample is strictly above 128. |
| Quantization.QuantizeNearest | test.cpp:37 | The chosen level is the nearer one for every sample except 128. Sample 128 is nearer to 255 but goes to 0. |
| Quantization.QuantError | test.cpp:16 | The old value is the new level plus the error. The error lies in [−126, 0] when the pixel goes white and in [0, 128] when it goes black. |
| Quantization.Accumulate | test.cpp:18 | A diffusion write with a non-negative error never lowers the target, and one with a non-positive error never raises it. A zero error or a zero weight leaves the target unchanged. |
| Quantization.AccumulateIsRealSum | test.cpp:43 | The integer diffusion write equals adding the real share `err * w / d` to the sample, dropping the fraction and saturating to [0, 255]. |
| Grids.SetCell | test.cpp:14 | Writing one cell of the grid changes that cell to the written value and leaves every other cell as it was. |
| Dithering.AddTap | test.cpp:18 | Its contract fixes only the shape: the grid stays valid with the same rows and columns. `Dithering.AddTapCell` states what it writes. |
| Dithering.AddTapCell | test.cpp:18 | One kernel entry adds its share of the error to its target, when the target is inside the grid. Every other cell keeps its value. |
| Dithering.Diffuse | test.cpp:18-23 | Its contract fixes only the shape. `Dithering.DiffuseCell` states what the table writes, cell by cell. |
| Dithering.DiffuseCell | test.cpp:18-23 | Applying the table entry by entry gives each in-bounds cell exactly the one share the table assigns to its offset. A cell the table does not aim at keeps its value. |
| Dithering.Step | test.cpp:11-23 | Its contract fixes only the shape. `Dithering.StepCell`, `Dithering.StepFrame` and `Dithering.StepKeepsVisited` state what one visit does. |
| Dithering.StepCell | test.cpp:11-23 | Visiting (i, j) sets that pixel to the quantization of its current value. Every other cell receives its kernel share of the error, or keeps its value if it is not a target. |
| Dithering.StepFrame | test.cpp:39-50 | A step changes nothing except the visited pixel and the in-bounds cells its kernel aims at. |
| Dithering.StepKeepsVisited | test.cpp:14-23 | A step leaves every pixel visited before (i, j) unchanged. |
| Dithering.StepSettles | test.cpp:36-39 | If every earlier pixel holds a level before the step, then every pixel up to and including (i, j) holds a level after it. |
| Dithering.ScanRow | test.cpp:10-24 | Its contract fixes only the shape. `Dithering.ScanRowSettles`, `Dithering.ScanRowKeepsVisited` and `Dithering.ScanRowInPlace` state what a row's scan does. |
| Dithering.ScanRows | test.cpp:9-25 | Its contract fixes only the shape. `Dithering.ScanRowsSettles` and `Dithering.ScanRowsKeepVisited` state what the scan of the first rows does. |
| Dithering.ScanRowSettles | test.cpp:10-24 | Scanning a row keeps every pixel visited so far at 0 or 255. |
| Dithering.ScanRowsSettles | test.cpp:9-25 | After the first i rows are scanned, every pixel in them is 0 or 255. |
| Dithering.ScanRowKeepsVisited | test.cpp:35-51 | The rest of a row's scan never writes a pixel that has already been visited. |
| Dithering.ScanRowsKeepVisited | test.cpp:34-52 | Later rows' scans never write a pixel of an earlier row. |
| Dithering.Dithered | test.cpp:7-27 | The scan's output has the input's rows and columns, and every sample is 0 or 255. |
| Dithering.OutputIsQuantizedVisit | test.cpp:9-14 | Each output pixel is the quantization of the working value the pixel held when the scan reached it. |
| Dithering.Clone | test.cpp:7 | The working buffer is a fresh array holding exactly the input's samples. The contract uses `fresh`; `Dithering.Dither` states the consequence that the input is left untouched. |
| Dithering.AddTapInPlace | test.cpp:21 | One bounds-checked diffusion write on the buffer agrees with the reference entry write. A target outside the grid is dropped. |
| Dithering.StepInPlace | test.cpp:36-50 | Visiting a pixel of the mutable buffer has the same effect as the reference step. |
| Dithering.ScanRowInPlace | test.cpp:35-51 | Scanning one row of the buffer has the same effect as the reference row scan. |
| Dithering.Dither | test.cpp:32-54 | The imperative scan over a cloned buffer returns exactly the reference output. That output has the input's shape and holds only 0 and 255. |
| Dithering.FloydSteinbergDither | test.cpp:5-28 | The Floyd–Steinberg scan returns the reference output for the Floyd–Steinberg table. It has the input's shape and is binary. |
| Dithering.AtkinsonDither | test.cpp:30-55 | The Atkinson scan returns the reference output for the Atkinson table. It has the input's shape and is binary. |
| Scenarios.SinglePixel | test.cpp:12-14 | With either kernel, a 1×1 grid becomes its own quantization (255 when above 128, else 0), because every kernel target is out of bounds. |
| Scenarios.MidGraySquare | test.cpp:9-23 | Under the bounds-checked Floyd–Steinberg scan, a 2×2 grid of 130s becomes the checkerboard [[255, 0], [0, 255]]. The intermediate working values of that scan are 75, 90, 122, then 104, 145, then 190. As written, the program's (+1, −1) write from (0, 0) wraps to (0, 1), so its trace differs. |
| AsWritten.Reach | test.cpp:19-20 | The unchecked accessor reaches storage element `r * cols + c`. An in-bounds cell reaches itself. Any (r, c) whose element lies in storage, in bounds or not, reaches the in-bounds cell stored at that element. Otherwise it reaches nothing. |
| AsWritten.UncheckedAddTap | test.cpp:18 | Its contract fixes only the shape. `AsWritten.UncheckedAddTapCell` and `AsWritten.UncheckedAddTapInBounds` state what it writes. |
| AsWritten.UncheckedAddTapCell | test.cpp:18-23 | One unchecked entry adds its share to the cell its storage element reaches, whether or not the target offset is in bounds. Every other cell keeps its value. |
| AsWritten.UncheckedAddTapInBounds | test.cpp:18 | For an in-bounds target, the unchecked write is the bounds-checked write. |
| AsWritten.UncheckedDiffuse | test.cpp:18-23 | Its contract fixes only the shape. `AsWritten.UncheckedDiffuseInBounds`, `AsWritten.SingleColumnDiffuseSelf` and `AsWritten.SingleColumnDiffuseForward` state what it writes. |
| AsWritten.UncheckedStep | test.cpp:11-23 | Its contract fixes only the shape. `AsWritten.InteriorStepAgrees`, `AsWritten.SingleColumnSelfWrite` and `AsWritten.SingleColumnStepKeepsEarlier` state what one visit does. |
| AsWritten.UncheckedScanRow | test.cpp:10-24 | Its contract fixes only the shape. `AsWritten.SingleColumnRow` states what it is on a single-column image. |
| AsWritten.UncheckedScanRows | test.cpp:9-25 | Its contract fixes only the shape. `AsWritten.SingleColumnScanKeeps` states what later rows do to an earlier one on a single-column image. |
| AsWritten.AsWrittenDithered | test.cpp:5-28 | Its contract fixes only the shape: unlike `Dithering.Dithered`, it does not promise a binary output. `AsWritten.SingleColumnNotBinary` and `AsWritten.AsWrittenSinglePixel` show that it is not binary in general. |
| AsWritten.UncheckedDiffuseInBounds | test.cpp:18-23 | When every target of a table is inside the grid, the unchecked writes act exactly like the bounds-checked ones. |
| AsWritten.InteriorStepAgrees | test.cpp:43-50 | Away from the borders, the program as written and the bounds-checked scan take the same step. |
| AsWritten.LeftOfRowStartWraps | test.cpp:46 | From column 0, the target one row down and one column left is the last pixel of the current row, not a pixel outside the image. |
| AsWritten.SingleColumnSelfWrite | test.cpp:14-20 | On a single-column image, Floyd–Steinberg's below-left write lands on the pixel just quantized. Right after its own step, that pixel holds its level plus 3/16 of its own error, which is neither level for samples 6 to 254. |
| AsWritten.SingleColumnDiffuseSelf | test.cpp:18-23 | On a single-column image, the unchecked table reaches the visited pixel exactly through entries with `dr + dc == 0`. With at most one such entry, the pixel receives that entry's share and nothing else. |
| AsWritten.SingleColumnSelfWriteAtkinson | test.cpp:39-46 | On a single-column image, Atkinson's below-left write lands on the pixel just quantized. Right after its own step, that pixel holds its level plus 1/8 of its own error, which is neither level for samples 8 to 254. |
| AsWritten.TapsReachForward | test.cpp:43-50 | Every entry of either table has `dr + dc >= 0`, so on a single-column image no entry reaches a storage element before the visited pixel. |
| AsWritten.SingleColumnDiffuseForward | test.cpp:18-23 | On a single-column image, an unchecked table whose entries all have `dr + dc >= 0` leaves every row above the visited one unchanged. |
| AsWritten.SingleColumnStepKeepsEarlier | test.cpp:11-23 | On a single-column image, an unchecked step at row i leaves every earlier row unchanged. |
| AsWritten.SingleColumnRow | test.cpp:10-24 | On a single-column image, the unchecked scan of one row is that row's single step. |
| AsWritten.SingleColumnNextRowKeeps | test.cpp:9-25 | On a single-column image, scanning a later row leaves an earlier row's pixel unchanged. |
| AsWritten.SingleColumnScanKeeps | test.cpp:9-25 | On a single-column image, once row i is visited, no later row of the unchecked scan writes it again. |
| AsWritten.SingleColumnOutput | test.cpp:5-28 | On a single-column image, the program's output at row i is the value that row's pixel holds right after its own step. |
| AsWritten.SingleColumnNotBinary | test.cpp:5-28 | On every single-column image, the program's first output pixel is its level plus 3/16 of its error under Floyd–Steinberg. When the first sample lies in 6..254, the output is not binary, while the bounds-checked scan's output is. |
| AsWritten.SingleColumnNotBinaryAtkinson | test.cpp:30-55 | On every single-column image, the program's first output pixel is its level plus 1/8 of its error under Atkinson. When the first sample lies in 8..254, the output is not binary, while the bounds-checked scan's output is. |
| AsWritten.AsWrittenSinglePixel | test.cpp:5-55 | As written, the 1×1 image [[200]] comes out as 244 under Floyd–Steinberg and 248 under Atkinson. Neither is binary. The bounds-checked scan gives 255 under both. |

## Left out

- `main` (test.cpp:57-88): argument checking, image reading and grayscale conversion, window display and file writing. All of it is I/O around the library.
- Dithering.Dither: drops every kernel target outside the grid. The program has no bounds check, so this differs from the program. Module `AsWritten` models the unchecked addressing, and the finding below records the consequence.
- AsWritten.Reach: assumes a release build of the matrix library, in which its debug range assertions are compiled out. With them active, the first out-of-range target stops the program instead. Reach also returns None for accesses before the start or past the end of the matrix storage. Those happen on the last one or two rows of every scan. In the program they are undefined behaviour, and the model drops them rather than guessing their effect.
- Quantization.Accumulate: saturates a result outside [0, 255] to the nearest end. Such a result does occur: a bright neighbour can receive a positive share, for example 250 plus 7/16 of an error of 100. The program's implicit conversion from double to an 8-bit sample is undefined for such a value, so the model picks saturation rather than claiming a particular outcome.
- Bit-exact floating point: the model computes in integers and reals. `AccumulateIsRealSum` shows that this equals the real-valued write with the fraction dropped. Every divisor is a power of two, so the doubles involved are exact.
- Non-continuous matrices (views into a larger image) and multi-channel images. The working buffer is always a fresh, continuous, single-channel clone.
- A third kernel (minimized average error) and a scan driver that takes the kernel as a parameter. Neither exists in `test.cpp`. The closed `Kernel` datatype plays the second role.
- Input validation (empty grids, samples out of range). The program does none. Samples are 8-bit by type, and an empty grid gives an empty output, so the model needs no error path.
- The statistical claim that the share of white output pixels tracks the mean input intensity. It is not a property of any single input. `KernelMass` states the per-step fact behind it.

## Findings

Both rows assume a release build of the matrix library, in which its debug range assertions are compiled out. In a debug build, the first out-of-range target stops the program instead.

| source | as written | input that shows it | evidently intended | confidence | as-written member | corrected member |
|---|---|---|---|---|---|---|
| test.cpp:18-23 | Diffusion targets go through the matrix's unchecked element accessor (release build). On the contiguous clone, a target at column −1 or column `cols` lands on the neighbouring row. On a single-column image, the (+1, −1) target is the pixel just quantized, and no later step writes that pixel again. So on every single-column image whose first sample lies in 6..254, the first pixel leaves the scan at a value that is not a level. | The 1×1 image [[200]] under Floyd–Steinberg gives 244 instead of 255. | Targets outside the grid are dropped, and the output is binary. | not executed | AsWritten.SingleColumnNotBinary | Dithering.Dithered |
| test.cpp:43-50 | The same unchecked addressing in the Atkinson scan (release build): its (+1, −1) target on a single-column image is the pixel just quantized. On every single-column image whose first sample lies in 8..254, the first output pixel is not a level. | The 1×1 image [[200]] under Atkinson gives 248 instead of 255. | Targets outside the grid are dropped, and the output is binary. | not executed | AsWritten.SingleColumnNotBinaryAtkinson | Dithering.Dither |
