# Underwater image restoration core, modelled in Dafny

This project models the sequential C restoration pipeline in `C_Implementation/`. The pipeline enhances an underwater photograph in five stages:

1. It white-balances the image. Red and blue are compensated against green. The image is linearised and converted to XYZ. A Bradford chromatic-adaptation transform is applied, and the image is converted back to RGB.
2. It builds a gamma-corrected branch and a sharpened branch. The sharpened branch is an unsharp mask whose detail intensity is histogram-equalised.
3. It computes per-pixel weight maps for each branch: Laplacian contrast, saliency and saturation, each normalised by its maximum and summed.
4. It regularises the two weight maps against each other.
5. It reconstructs the image as the white-balanced image times the per-pixel sum of the two weights.

Images are flat buffers of three planes, all red values first, then all green, then all blue. The model keeps that layout. A C `float*` into the middle of a buffer becomes an array with an offset. C `float` values are modelled as `real`.

Each C function that loops over a buffer is a method with loop invariants. Its postcondition ties the new buffer to a specification function. Every C loop that fills a fresh buffer becomes a method returning a fresh array. Every loop that overwrites in place becomes a method with a `modifies` clause that states the whole new state.

The C details that change results are modelled explicitly:

- `(int)` casts truncate toward zero (`CMath.Trunc`).
- `%` keeps the sign of its left operand (`CMath.CMod`).
- `round` rounds half away from zero (`CMath.CRound`).
- The `ABS`, `MAX` and `MIN` macros of `Inc/imfunc.h` are textual and unparenthesised. Every use whose operand is compound is expanded the way the preprocessor does.

Every member named after a C function models that function as written, including the defects listed under "## Findings". For each defect the corrected definition is kept under its own name, with the intended property proved about it: `Hsi.HsiToRgb`, `ImSharp.Equalized`, `ImFunc.BlurPlanes`, `Weights.XyzToLab`, `Illuminant.IlluminantOf` with `Illuminant.CalcIlluminantIntended` (whose window is the percentile range, `Illuminant.IntendedWindow`), and `ImSharp.ClampedGreyBin`. The as-written pipeline does not use them.

The modules are:

| module | source |
|---|---|
| `CMath` | C arithmetic, sums and means, and the library `sqrt` and `pow` |
| `Planes` | pixels of a three-plane buffer, and per-pixel maps |
| `Conv` | `conv.c`: zero padding and "same" correlation |
| `ImFunc` | `imfunc.c`: averages, gamma, the two 3x3 kernels, squared distance |
| `Hsi` | `hsi.c`: RGB to HSI and back, channel min, max and average |
| `Histogram` | integer histograms and running sums |
| `ImSharp` | `imsharp.c`: 256-level equalisation and the unsharp mask |
| `FlatMatrix` | `whitebalance.c`: flat matrix multiplication |
| `Bradford` | `whitebalance.c`: the Bradford transform and the per-pixel transform |
| `Illuminant` | `whitebalance.c`: the 1024-bin percentile illuminant estimate |
| `Weights` | `weights.c`: luminance, the three weight maps, and RGB/XYZ/LAB conversions |
| `WhiteBalance` | `whitebalance.c`: compensation, grey world, linearisation, full grey world |
| `Fusion` | `imfusion.c`: weight regularisation and reconstruction |

Some functions are uninterpreted. `sqrt` is `CMath.LibSqrt` and `pow` is `CMath.LibPow`; both are constants without a body. The wrappers `CMath.Sqrt` and `CMath.Pow` add only two facts: a square root is non-negative and is 0 at 0, and a power of a non-negative base is non-negative.

## Model

| member | source | states |
|---|---|---|
| CMath.Abs | C_Implementation/Inc/imfunc.h:8 | `ABS` of a plain operand is non-negative and is either the operand or its negation |
| CMath.Trunc | C_Implementation/Src/hsi.c:55 | the `(int)` cast truncates toward zero: it stays within 1 of x on the side of 0 |
| CMath.CMod | C_Implementation/Src/hsi.c:55 | C's `%` by a positive modulus lies in [0, b) for a non-negative operand and in (-b, 0] for a negative one, and it differs from the operand by a multiple of b |
| CMath.CRound | C_Implementation/Src/imsharp.c:75 | `round` lies within 1/2 of x with halves rounded away from zero: for x >= 0 it is non-negative and strictly above x - 1/2, for x < 0 strictly below x + 1/2 |
| CMath.CRoundMonotone | C_Implementation/Src/imsharp.c:75 | rounding preserves order |
| CMath.MaxOf | C_Implementation/Inc/imfunc.h:6 | `MAX` on plain operands is an upper bound of both and equals one of them |
| CMath.MinOf | C_Implementation/Inc/imfunc.h:7 | `MIN` on plain operands is a lower bound of both and equals one of them |
| CMath.Sqrt | C_Implementation/Src/weights.c:106 | the library square root of a non-negative value is non-negative and is 0 at 0 |
| CMath.Pow | C_Implementation/Src/imfunc.c:60 | the library power of a non-negative base is non-negative |
| CMath.MeanScale | C_Implementation/Src/imfunc.c:34-41 | the mean of a scaled sequence is the scaled mean |
| Conv.Padded | C_Implementation/Src/conv.c:17-38 | the padded matrix has (r+2p)(c+2p) cells, with p = (k-1)/2 |
| Conv.PaddedAt | C_Implementation/Src/conv.c:27-38 | cell (j, i) of the padded matrix is in bounds and holds the zero-or-input value of that cell |
| Conv.PaddedBorderIsZero | C_Implementation/Src/conv.c:32-33 | every cell with i < p, i >= c+p, j < p or j >= r+p is 0 |
| Conv.PaddedInteriorIsInput | C_Implementation/Src/conv.c:35-36 | interior cell (row+p, col+p) holds input[row*c+col] |
| Conv.PaddedWidthMatchesOnlyForOddK | C_Implementation/Src/conv.c:49-50 | convHelper's padded width c+k-1 equals padMatrix's width c+2((k-1)/2) exactly when k is odd |
| Conv.PadMatrix | C_Implementation/Src/conv.c:14-41 | padMatrix writes exactly the first (r+2p)(c+2p) cells of pad_mat with the padded input; the cells after them and the input are unchanged |
| Conv.TapsInBounds | C_Implementation/Src/conv.c:70-71 | for odd k, every one of the k*k taps of every output cell reads inside the padded matrix |
| Conv.Correlate | C_Implementation/Src/conv.c:61-75 | the "same" correlation has r*c cells, one per input cell |
| Conv.CorrelateAt | C_Implementation/Src/conv.c:70-73 | output[row*c+col] is the sum over i < k*k of pad[(row+i/k)(c+k-1)+col+i%k] * filter[i], with every read in bounds |
| Conv.CorrSum | C_Implementation/Src/conv.c:70-71 | the tap sum that the inner loop accumulates; its meaning is stated by Conv.CorrelateAt, Conv.TapSum and the CorrSumOf* lemmas (constant taps, single tap, one cell, no taps) and Conv.CorrSumAdditive/Homogeneous |
| Conv.CorrSumOfConstantTaps | C_Implementation/Src/conv.c:70-71 | when every tap reads v, the sum is the sum of the filter entries times v |
| Conv.CorrSumOfSingleTap | C_Implementation/Src/conv.c:70-71 | with one non-zero filter entry c, the sum is the tap c read times that entry |
| Conv.CorrSumOfOneCell | C_Implementation/Src/conv.c:70-71 | when every tap but tap c reads 0, the sum is tap c times filter entry c (0 when c is beyond the taps summed) |
| Conv.CorrSumOfNoTaps | C_Implementation/Src/conv.c:70-71 | an all-zero filter gives a zero sum |
| Conv.CorrelateIdentity | C_Implementation/Src/conv.c:70-73 | a filter with 1 at the centre and 0 elsewhere returns the input plane unchanged |
| Conv.IdentityCell | C_Implementation/Src/conv.c:70-73 | with the identity filter, each output cell equals its input cell |
| Conv.InteriorTap | C_Implementation/Src/conv.c:35-36 | for a cell p away from every edge, tap (a, b) reads input cell (row+a-p, col+b-p) |
| Conv.InteriorTapsReadConstant | C_Implementation/Src/conv.c:70-71 | on a constant plane, every tap of an interior cell reads the constant |
| Conv.ConstantInteriorTapSum | C_Implementation/Src/conv.c:70-71 | on a constant plane v, the sum at an interior cell is the sum of the filter scaled by v |
| Conv.CorrelateConstantInterior | C_Implementation/Src/conv.c:70-73 | on a constant plane v, every interior output cell is the filter sum times v |
| Conv.CorrelateCell | C_Implementation/Src/conv.c:73 | the value the loop stores at (row, col) is that cell of the correlation |
| Conv.TapSum | C_Implementation/Src/conv.c:67-71 | the innermost accumulation loop returns the tap sum of the cell |
| Conv.ConvRow | C_Implementation/Src/conv.c:65-74 | one pass of the column loop writes row `row` of the correlation and leaves every other output cell unchanged |
| Conv.ConvHelper | C_Implementation/Src/conv.c:46-79 | convHelper writes the correlation of the input into output[0..r*c) and nothing else |
| Conv.Conv2D | C_Implementation/Src/conv.c:84-90 | conv2D returns a fresh r*c buffer holding the correlation |
| Conv.PaddedAdditive | C_Implementation/Src/conv.c:32-36 | padding the sum of two planes gives the sum of the padded planes |
| Conv.PaddedHomogeneousAt | C_Implementation/Src/conv.c:32-36 | padding a scaled plane scales each padded cell |
| Conv.PaddedHomogeneous | C_Implementation/Src/conv.c:32-36 | padding a scaled plane gives the scaled padded plane |
| Conv.CorrSumAdditive | C_Implementation/Src/conv.c:71 | the tap sum over a sum of padded planes is the sum of the tap sums |
| Conv.CorrSumHomogeneous | C_Implementation/Src/conv.c:71 | the tap sum over a scaled padded plane is the scaled tap sum |
| Conv.CorrelateCells | C_Implementation/Src/conv.c:70-73 | three correlations with one filter agree cell by cell with their tap sums |
| Conv.CorrelateAdditive | C_Implementation/Src/conv.c:70-73 | the correlation of the sum of two planes is the sum of their correlations |
| ImFunc.CalcAverage | C_Implementation/Src/imfunc.c:34-41 | calcAverage returns the mean of the n values from the offset |
| ImFunc.Clamp01 | C_Implementation/Src/imfunc.c:63-64 | the two ternaries clamp into [0,1]: values inside are kept, values below become 0 and values above become 1 |
| ImFunc.CorrectGamma | C_Implementation/Src/imfunc.c:52-68 | correctGamma returns a fresh 3n buffer of clamped powers, each in [0,1]; the input is only read |
| ImFunc.GaussianFilterSum | C_Implementation/Src/imfunc.c:73 | the Gaussian kernel entries sum to 0.9997, not 1 |
| ImFunc.LaplacianFilterSum | C_Implementation/Src/imfunc.c:92 | the Laplacian kernel entries sum to 0 |
| ImFunc.GaussianBlur | C_Implementation/Src/imfunc.c:70-78 | the blur of a plane has r*c cells |
| ImFunc.Laplacian | C_Implementation/Src/imfunc.c:89-97 | the Laplacian of a plane has r*c cells |
| ImFunc.GaussianBlurConstantInterior | C_Implementation/Src/imfunc.c:73-75 | interior cells of a constant plane v blur to 0.9997 v |
| ImFunc.LaplacianConstantInterior | C_Implementation/Src/imfunc.c:92-94 | interior cells of a constant plane map to 0 under the Laplacian |
| ImFunc.ApplyGaussianBlur | C_Implementation/Src/imfunc.c:70-78 | applyGaussianBlur returns a fresh buffer holding the blur |
| ImFunc.ApplyGaussianBlurRef | C_Implementation/Src/imfunc.c:80-87 | applyGaussianBlurRef writes the same blur into output from the offset and changes nothing else |
| ImFunc.BlurPlanes | C_Implementation/Src/imsharp.c:25-26 | blurring each plane separately gives 3n values |
| ImFunc.BlurEachPlane | C_Implementation/Src/imsharp.c:25-26 | the three applyGaussianBlurRef calls put the blur of plane i into plane i of a fresh buffer |
| ImFunc.ApplyLaplacian | C_Implementation/Src/imfunc.c:89-97 | applyLaplacian returns a fresh buffer holding the Laplacian |
| ImFunc.CalcNormSquare | C_Implementation/Src/imfunc.c:103-106 | the squared distance is non-negative, and is 0 exactly when the two points coincide |
| ImFunc.CalcNormSquareSymmetric | C_Implementation/Src/imfunc.c:103-106 | swapping the two points leaves the squared distance unchanged |
| Planes.MapPixels | C_Implementation/Src/hsi.c:26-69 | a per-pixel conversion loop yields 3n values, and pixel x of the result is the conversion of pixel x |
| Planes.MapToPlane | C_Implementation/Src/weights.c:133-136 | a per-pixel loop into one plane yields n values, and value x depends only on pixel x |
| Planes.PixelsDetermineImage | C_Implementation/Src/hsi.c:26-69 | two 3n buffers with the same pixels are equal |
| Planes.MapPixelsCompose | C_Implementation/Src/weights.c:211-222 | converting twice per pixel is converting once with the composed map |
| Planes.MapImage | C_Implementation/Src/weights.c:292-297 | the per-pixel loop fills a fresh buffer with the converted pixels |
| Hsi.GetRGBMin | C_Implementation/Src/hsi.c:172-178 | getRGBMin is a lower bound of all three channels and equals one of them |
| Hsi.GetRGBMax | C_Implementation/Src/hsi.c:189-195 | getRGBMax is an upper bound of all three channels and equals one of them |
| Hsi.GetRGBAverage | C_Implementation/Src/hsi.c:158-161 | the average lies between the minimum and maximum channel, and three times it is the channel sum |
| Hsi.MaxChannel | C_Implementation/Src/hsi.c:32-48 | tie-breaking of the max scan: red only when strictly above green and not below blue, blue only when strictly above both, green otherwise |
| Hsi.MaxChannelHoldsMax | C_Implementation/Src/hsi.c:32-48 | the channel the scan selects holds the maximum |
| Hsi.Hue | C_Implementation/Src/hsi.c:52-65 | a red maximum gives hue 0 or -60 (truncation and C `%`), green gives [60,180], blue gives (180,300) |
| Hsi.Saturation | C_Implementation/Src/hsi.c:67 | for non-negative channels saturation lies in [0,1], and is 0 exactly for a grey pixel |
| Hsi.GreyPixelHsi | C_Implementation/Src/hsi.c:50-68 | a grey pixel v has saturation 0 and intensity v, and its hue is taken as 120 |
| Hsi.ToHsi | C_Implementation/Src/hsi.c:50-68 | the stored hue lies in [-60,300), the saturation of non-negative channels in [0,1], and the intensity is the largest channel |
| Hsi.PixelToHsi | C_Implementation/Src/hsi.c:29-68 | one iteration of rgb2hsi stores the HSI triple of the pixel, with intensity the maximum channel |
| Hsi.Rgb2Hsi | C_Implementation/Src/hsi.c:12-72 | rgb2hsi returns a fresh buffer in which every pixel is converted |
| Hsi.Sector | C_Implementation/Src/hsi.c:102-142 | exactly one of the six branches fires: sectors 0 to 4 are [60k, 60k+60), and the else branch catches negative hues and hues >= 300 |
| Hsi.Place | C_Implementation/Src/hsi.c:98-142 | in every sector the dominant channel gets I, the tertiary channel gets I - I*S, and the secondary channel gets the tertiary value plus I*S times the factor; the three channels are distinct; with saturation 0 every hue gives the grey pixel (I, I, I) |
| Hsi.SecondaryFactorAsWritten | C_Implementation/Src/hsi.c:99 | the factor with `ABS` expanded textually is -1 in even sectors and -2 in odd ones |
| Hsi.SecondaryFactor | C_Implementation/Src/hsi.c:99 | the factor 1 - abs(x % 2 - 1) is 1 in odd sectors and 0 in even ones, for hue >= 0 |
| Hsi.HsiToRgbAsWritten | C_Implementation/Src/hsi.c:98-142 | as written, the dominant channel gets I and the tertiary I - I*S, but the secondary gets I - 2 I*S or I - 3 I*S |
| Hsi.HsiToRgb | C_Implementation/Src/hsi.c:98-142 | with the factor corrected and hue >= 0, the secondary channel gets I in odd sectors and I - I*S in even ones |
| Hsi.ToRgb | C_Implementation/Src/hsi.c:98-142 | hsi2rgb on one pixel as written; an unsaturated pixel comes out grey at its intensity |
| Hsi.PureRedAsWritten | C_Implementation/Src/hsi.c:99 | as written, pure red goes to HSI (0, 1, 1) and comes back with green -1 |
| Hsi.SecondaryBelowTertiaryAsWritten | C_Implementation/Src/hsi.c:99-142 | as written, a saturated pixel's secondary channel always falls below its tertiary channel |
| Hsi.HsiToRgbInRange | C_Implementation/Src/hsi.c:98-142 | with the factor corrected, for S in [0,1], I >= 0 and hue >= 0, every channel lies in [I - I*S, I] |
| Hsi.PureRedRoundTrip | C_Implementation/Src/hsi.c:98-107 | with the factor corrected, pure red survives rgb2hsi followed by hsi2rgb |
| Hsi.PureGreenRoundTrip | C_Implementation/Src/hsi.c:116-121 | with the factor corrected, pure green survives the round trip |
| Hsi.PureBlueRoundTrip | C_Implementation/Src/hsi.c:130-135 | with the factor corrected, pure blue survives the round trip |
| Hsi.OrangeLosesHue | C_Implementation/Src/hsi.c:55 | even with the factor corrected, orange (1, 1/2, 0) gets hue 0 and comes back as pure red: the round trip holds only for whole-sector hues |
| Hsi.PixelToRgb | C_Implementation/Src/hsi.c:98-142 | one iteration of hsi2rgb stores, branch by branch, the as-written conversion of the pixel |
| Hsi.Hsi2Rgb | C_Implementation/Src/hsi.c:82-147 | hsi2rgb returns a fresh buffer in which every pixel is converted back as written |
| Histogram.CountBins | C_Implementation/Src/whitebalance.c:234-237 | the histogram of a run of bin indexes has one count per bin |
| Histogram.CountBinsTotal | C_Implementation/Src/whitebalance.c:234-237 | the bin counts add up to the number of samples |
| Histogram.CountBinsNonNegative | C_Implementation/Src/imsharp.c:67-68 | no bin count is negative |
| Histogram.CountBinsConstant | C_Implementation/Src/whitebalance.c:234-237 | when every sample falls in bin b, that bin counts all of them and every other bin is empty |
| Histogram.PrefixSumMonotone | C_Implementation/Src/imsharp.c:72-74 | running sums of non-negative counts never decrease |
| Histogram.SingleBinPrefix | C_Implementation/Src/whitebalance.c:258 | for a histogram empty outside bin b, a running sum from the bottom is 0 up to b and the count of b after it |
| Histogram.SingleBinSuffix | C_Implementation/Src/whitebalance.c:259 | for a histogram empty outside bin b, a running sum from the top is 0 above b and the count of b from b down |
| ImSharp.GreyBin | C_Implementation/Src/imsharp.c:68 | `(int)(v * 255) % 256` is below 256 (C's `%` leaves it negative for a negative intensity, hence the binnable precondition below) |
| ImSharp.ClampedGreyBin | C_Implementation/Src/imsharp.c:68 | with the intensity clamped to [0,1] first, the grey level always indexes the tables, and it agrees with the unclamped one on [0,1] |
| ImSharp.GreyBins | C_Implementation/Src/imsharp.c:67-68 | the grey levels of binnable intensities index the 256-entry tables |
| ImSharp.GreyBinMonotone | C_Implementation/Src/imsharp.c:68 | on [0,1] the grey level is in [0,255] and preserves order |
| ImSharp.RescaleMonotoneInRange | C_Implementation/Src/imsharp.c:75 | counts between 0 and n rescale in order into [0,255], and n rescales to 255 |
| ImSharp.Rescale | C_Implementation/Src/imsharp.c:75 | a count between 0 and n rescales into [0,255], and n itself to 255 |
| ImSharp.NewGrey | C_Implementation/Src/imsharp.c:72-76 | the new grey table has 256 entries |
| ImSharp.NewGreyMonotoneInRange | C_Implementation/Src/imsharp.c:72-76 | when the histogram counts at most n pixels, new_grey is non-decreasing and lies in [0,255] |
| ImSharp.EqualizedReachesTop | C_Implementation/Src/imsharp.c:72-76 | with every pixel counted, the top grey level maps to 255 |
| ImSharp.Remap | C_Implementation/Src/imsharp.c:79-80 | the remap yields one value per intensity |
| ImSharp.EqualizedWith | C_Implementation/Src/imsharp.c:59-85 | equalisation with the first m intensities counted yields one value per intensity |
| ImSharp.EqualizedAsWritten | C_Implementation/Src/imsharp.c:67-68 | equalisation as written, counting only 256 intensities, yields one value per intensity |
| ImSharp.Equalized | C_Implementation/Src/imsharp.c:59-85 | equalisation counting all n intensities yields one value per intensity |
| ImSharp.EqualizedOrderedInRange | C_Implementation/Src/imsharp.c:67-80 | whether the histogram counts the first m intensities (256 as written) or all of them, intensities in [0,1] stay in [0,1] and keep their order |
| ImSharp.CountGreyLevels | C_Implementation/Src/imsharp.c:62-68 | the histogram loop returns a fresh table holding the grey-level counts of the first m intensities |
| ImSharp.RunningGrey | C_Implementation/Src/imsharp.c:64-76 | the cumulative loop returns a fresh table holding new_grey |
| ImSharp.RemapInPlace | C_Implementation/Src/imsharp.c:79-80 | the remap loop overwrites the n intensities with their new grey value / 255 and nothing else |
| ImSharp.Equalize | C_Implementation/Src/imsharp.c:59-85 | counting m intensities, then remapping all n in place, gives the equalised intensities; values outside the n are unchanged |
| ImSharp.HistogramEqualizationAsWritten | C_Implementation/Src/imsharp.c:59-85 | as written (n >= 256), the intensities are replaced by the equalisation that counts only the first 256 |
| ImSharp.HistogramEqualization | C_Implementation/Src/imsharp.c:59-85 | with the histogram loop over all n pixels, the intensities are replaced by their equalisation |
| ImSharp.WhiteImageAsWritten | C_Implementation/Src/imsharp.c:67-68 | a white 512-pixel plane equalises to 128/255 as written and to 1 when all pixels are counted |
| ImSharp.Detail | C_Implementation/Src/imsharp.c:25-29 | each detail value is the image value minus its plane's blur |
| ImSharp.DetailHsi | C_Implementation/Src/imsharp.c:32 | the HSI detail has 3n values |
| ImSharp.DarkLeftBlur | C_Implementation/Src/imfunc.c:70-78 | the blur of the 1x2 plane [0, 1] is 0.0838 at the left cell |
| ImSharp.DarkLeftDetail | C_Implementation/Src/imsharp.c:25-29 | for the 1x2 image black on the left and white on the right in every plane, the left pixel's detail is -0.0838 in all three channels |
| ImSharp.DarkLeftEdgeNotSharpenable | C_Implementation/Src/imsharp.c:67-68 | for that image the left detail intensity is -0.0838, its grey level is -21, and the image is not sharpenable: the histogram would be indexed before its start |
| ImSharp.EqualizedDetailHsi | C_Implementation/Src/imsharp.c:32-36 | with the intensity plane equalised as written (256 counted), the HSI detail keeps 3n values and its hue and saturation planes |
| ImSharp.Average | C_Implementation/Src/imsharp.c:41-42 | each output value is the mean of the two inputs at that index |
| ImSharp.Sharpened | C_Implementation/Src/imsharp.c:15-47 | the sharpened image as written (256-count equalisation, hsi2rgb as written) has 3n values |
| ImSharp.BlurredDetail | C_Implementation/Src/imsharp.c:23-29 | the blur and subtract loops leave the detail image in a fresh buffer; the image is only read |
| ImSharp.EqualizeIntensityPlane | C_Implementation/Src/imsharp.c:36 | histogramEqualization as written on the third plane: hue and saturation are kept and the intensities become their 256-count equalisation |
| ImSharp.AverageInto | C_Implementation/Src/imsharp.c:41-42 | the final loop replaces sharp by its mean with the image |
| ImSharp.ApplyUnsharpMask | C_Implementation/Src/imsharp.c:15-47 | applyUnsharpMask as written returns a fresh buffer holding (image + hsi2rgb(HSI detail with 256-count equalisation)) / 2; the image is only read |
| FlatMatrix.Product | C_Implementation/Src/whitebalance.c:364-367 | the product of an lr x lc and an lc x rc matrix has lr*rc cells |
| FlatMatrix.DotOfZeroLine | C_Implementation/Src/whitebalance.c:364-367 | a zero row of the left matrix or a zero column of the right one gives a zero cell |
| FlatMatrix.ProductAt | C_Implementation/Src/whitebalance.c:364-367 | cell (i, k) of the product is the sum over the inner dimension |
| FlatMatrix.Dot | C_Implementation/Src/whitebalance.c:366-367 | the sum over j < m of left[i][j] * right[j][k] that the `+=` loop accumulates; its meaning is stated by FlatMatrix.ProductAt, FlatMatrix.DotOfZeroLine and FlatMatrix.AddRow |
| FlatMatrix.AddProduct | C_Implementation/Src/whitebalance.c:364-367 | every cell of the buffer gains the product cell at that index |
| FlatMatrix.AddProductToZeros | C_Implementation/Src/whitebalance.c:329-331 | adding the product into a zeroed buffer gives the product |
| FlatMatrix.AddTerm | C_Implementation/Src/whitebalance.c:366-367 | the innermost loop adds term j to every cell of row i and changes nothing outside row i |
| FlatMatrix.AddRow | C_Implementation/Src/whitebalance.c:365-367 | the two inner loops add row i of the product and change nothing outside row i |
| FlatMatrix.MultiplyFlatMatrixRef | C_Implementation/Src/whitebalance.c:354-370 | on mismatched inner dimensions it returns -1 and leaves the output untouched; otherwise it returns 0 and adds the product into the existing output |
| FlatMatrix.MultiplyFlatMatrix | C_Implementation/Src/whitebalance.c:326-338 | multiplyFlatMatrix returns null on mismatched dimensions, and otherwise a fresh buffer holding exactly the product |
| Bradford.MatVecEntry | C_Implementation/Src/whitebalance.c:364-367 | entry i of a 3x3 matrix times a 3-vector is the dot product of row i |
| Bradford.MatMatEntry | C_Implementation/Src/whitebalance.c:364-367 | entry (i, k) of a 3x3 product is row i dotted with column k |
| Bradford.ProductAssociates | C_Implementation/Src/whitebalance.c:176-178 | (A B) v equals A (B v) for 3x3 matrices |
| Bradford.ConeResponse | C_Implementation/Src/whitebalance.c:157-158 | the cone response of a 3-vector is a 3-vector |
| Bradford.ConeResponseRows | C_Implementation/Src/whitebalance.c:133-136 | the cone response is the Bradford matrix applied row by row |
| Bradford.FixedIlluminantCones | C_Implementation/Src/whitebalance.c:152-157 | the fixed illuminant's cone response, exactly, with no zero entry |
| Bradford.Diagonal | C_Implementation/Src/whitebalance.c:167-169 | diag is a 3x3 matrix |
| Bradford.DiagonalMapsSourceToTarget | C_Implementation/Src/whitebalance.c:167-169 | diag maps the source cone response onto the target cone response |
| Bradford.Transformation | C_Implementation/Src/whitebalance.c:176-178 | bradford_inv * diag * bradford is a 3x3 matrix |
| Bradford.TransformationAdaptsIlluminant | C_Implementation/Src/whitebalance.c:157-178 | the transform takes the illuminant to bradford_inv applied to the white's cone response |
| Bradford.WhiteCone | C_Implementation/Src/whitebalance.c:158 | the D65 white's cone response, exactly |
| Bradford.WhiteRecovered | C_Implementation/Src/whitebalance.c:133-141 | bradford_inv undoes bradford on the D65 white to within 1e-7 |
| Bradford.FixedIlluminantBecomesWhite | C_Implementation/Src/whitebalance.c:151-178 | the transform built from the fixed illuminant takes it to the D65 white to within 1e-7 |
| Bradford.BuildDiagonal | C_Implementation/Src/whitebalance.c:167-169 | the calloc and loop give target/source at indices 0, 4 and 8 and 0 elsewhere |
| Bradford.TransformAll | C_Implementation/Src/whitebalance.c:185-202 | transforming every pixel keeps 3n values |
| Bradford.TransformPixel | C_Implementation/Src/whitebalance.c:188-201 | one iteration replaces pixel i by the transform of its old value and changes no other pixel |
| Bradford.TransformPixels | C_Implementation/Src/whitebalance.c:185-202 | the loop replaces every pixel by its transform |
| Illuminant.Bin | C_Implementation/Src/whitebalance.c:236 | `(int)(v / step) % NUM_BINS` is below 1024 |
| Illuminant.BinOfUnitValue | C_Implementation/Src/whitebalance.c:236 | a value in [0,1) lands in the bin whose interval holds it |
| Illuminant.BinOfOne | C_Implementation/Src/whitebalance.c:236 | 1.0 lands in bin 0 |
| Illuminant.Bins | C_Implementation/Src/whitebalance.c:234-237 | binnable values have bin indices in [0,1024) |
| Illuminant.HistogramOf | C_Implementation/Src/whitebalance.c:225-237 | the histogram has 1024 bins |
| Illuminant.HistogramTotal | C_Implementation/Src/whitebalance.c:234-237 | the histogram counts are non-negative and add up to num_pixels |
| Illuminant.ForwardSums | C_Implementation/Src/whitebalance.c:244-258 | there are 1024 forward running counts |
| Illuminant.BackwardSums | C_Implementation/Src/whitebalance.c:245-259 | the corrected backward running counts (each bin once, from N-1 down): there are 1024 of them |
| Illuminant.RunningSumsStep | C_Implementation/Src/whitebalance.c:244-259 | the forward count adds bin i; the corrected backward count adds bin N-1-i once per step |
| Illuminant.FirstAbove | C_Implementation/Src/whitebalance.c:247-265 | the flag search returns -1 when no running count exceeds the threshold, and otherwise the first index that does |
| Illuminant.FirstAboveExtend | C_Implementation/Src/whitebalance.c:261-265 | one loop step keeps an index already found, and otherwise sets it when the new count exceeds the threshold |
| Illuminant.FirstAboveStep | C_Implementation/Src/whitebalance.c:261-265 | for running counts that jump from 0 to n at m, any threshold in [0, n) is first exceeded at m |
| Illuminant.IdxLow | C_Implementation/Src/whitebalance.c:244-262 | idx_low is -1 or the first bin whose forward running count exceeds the low threshold: the count there is above it and the count one bin lower is not |
| Illuminant.IdxHigh | C_Implementation/Src/whitebalance.c:245-265 | the corrected idx_high is -1 or the bin at which the running count from the top, each bin counted once, first exceeds the threshold: the count down to it is above the threshold and the count down to the bin above it is not |
| Illuminant.IdxHighAsWritten | C_Implementation/Src/whitebalance.c:245-265 | idx_high as written is 0 exactly when the top bin alone exceeds the threshold, and otherwise N - i for the first step i whose as-written backward count exceeds it |
| Illuminant.IdxLowFound | C_Implementation/Src/whitebalance.c:240-262 | with the low threshold below num_pixels, idx_low is a valid bin |
| Illuminant.IdxHighFound | C_Implementation/Src/whitebalance.c:245-265 | with the threshold below num_pixels, the corrected idx_high is a valid bin |
| Illuminant.ThresholdsInRange | C_Implementation/Src/whitebalance.c:240-241 | for n > 0 and a percentile in (0,100), both thresholds lie in [0, n) |
| Illuminant.SelectedCount | C_Implementation/Src/whitebalance.c:273-280 | the count of selected pixels is at most num_pixels |
| Illuminant.SelectedSum | C_Implementation/Src/whitebalance.c:277 | the sum of selected absolute values is non-negative |
| Illuminant.SelectedCountExtremes | C_Implementation/Src/whitebalance.c:273-280 | the count is num_pixels exactly when every pixel is in the window, and 0 exactly when none is |
| Illuminant.SelectedSumBounds | C_Implementation/Src/whitebalance.c:273-280 | the sum lies between count * a and count * b when the selected absolute values lie in [a, b] |
| Illuminant.WindowMean | C_Implementation/Src/whitebalance.c:286-290 | the result is non-negative, and is 0 when no pixel falls in the window |
| Illuminant.WindowMeanBetween | C_Implementation/Src/whitebalance.c:273-290 | with some pixel selected, the result lies between the smallest and largest selected absolute value |
| Illuminant.WindowMeanBound | C_Implementation/Src/whitebalance.c:273-290 | with indexes in [-1, N-1], the mean lies within width * 1023 + eps |
| Illuminant.PercentileWindow | C_Implementation/Src/whitebalance.c:213-218 | with 2t below the pixel count, both corrected indexes are found and in order; at most t pixels lie below idx_low, at most t above idx_high, and at least n - 2t between them |
| Illuminant.WindowTails | C_Implementation/Src/whitebalance.c:244-265 | with t below the pixel count both corrected indexes are found, with at most t pixels below idx_low and at most t above idx_high |
| Illuminant.WindowBetweenTails | C_Implementation/Src/whitebalance.c:213-218 | two bins with at most t pixels below the first and t above the second, out of more than 2t, are in order and hold the rest between them |
| Illuminant.TailsInOrder | C_Implementation/Src/whitebalance.c:213-218 | bins with at most t pixels below the first and at most t above the second, out of more than 2t, satisfy first <= second |
| Illuminant.IntendedWindow | C_Implementation/Src/whitebalance.c:213-218 | for a percentile below 50, idx_low <= idx_high, and at most percentile % of the pixels lie in the bins below the window and at most percentile % above it |
| Illuminant.BinInWindow | C_Implementation/Src/whitebalance.c:274-278 | a value in [0, 1) whose bin lies between the two indexes passes the one-width window test, so every pixel of the percentile range is averaged |
| Illuminant.IlluminantOf | C_Implementation/Src/whitebalance.c:213-291 | the corrected estimate: both counts compared with the low threshold, one bin width per index; it lies in [0, 1023/1024 + eps] |
| Illuminant.IlluminantAsWritten | C_Implementation/Src/whitebalance.c:222-291 | the as-written estimate (1.5 bin widths per index) lies in [0, 1.5 * 1023/1024 + eps] |
| Illuminant.BackwardAsWritten | C_Implementation/Src/whitebalance.c:245-259 | cum_sum_backward[i] as written is, from step 1 on, hist[N-1] plus the sum of bins N-i..N-1, so it counts the top bin twice |
| Illuminant.RunningSumsStepAsWritten | C_Implementation/Src/whitebalance.c:258-259 | each step as written adds bin i to the forward count and bin N-i to the backward count |
| Illuminant.BackwardNeverCountsBinZero | C_Implementation/Src/whitebalance.c:245-259 | the last backward count as written is the total with bin 0 left out and the top bin counted twice |
| Illuminant.Uniform | C_Implementation/Src/whitebalance.c:222 | a plane of n copies of v |
| Illuminant.UniformHistogram | C_Implementation/Src/whitebalance.c:234-237 | a uniform plane puts all n pixels in the bin of v |
| Illuminant.UniformIndexes | C_Implementation/Src/whitebalance.c:244-265 | for a uniform plane, the count from the bottom and the count from the top both stop at the bin of v, whatever thresholds in [0, n) they are compared with |
| Illuminant.UnitValueInOwnWindow | C_Implementation/Src/whitebalance.c:275 | with one bin width per index, a value in [0,1) lies in the window of its own bin |
| Illuminant.UniformIlluminant | C_Implementation/Src/whitebalance.c:222-291 | the corrected estimate of a uniform plane v in [0,1) is v |
| Illuminant.UniformHalfAsWritten | C_Implementation/Src/whitebalance.c:222-291 | as written, a uniform 0.5 plane with percentile 20 gives illuminant 0, where the corrected estimate gives 0.5 |
| Illuminant.UniformHalfIndexesAsWritten | C_Implementation/Src/whitebalance.c:244-265 | as written, a uniform 0.5 plane with percentile 20 gets idx_low = idx_high = 512, so the window is [0.749, 0.751] |
| Illuminant.TwoValuesHistogram | C_Implementation/Src/whitebalance.c:233-236 | the plane {0.25, 0.75} has one pixel in bin 256, one in bin 768 and none elsewhere |
| Illuminant.TwoValuesIndexes | C_Implementation/Src/whitebalance.c:240-265 | for {0.25, 0.75} at percentile 20, the low threshold gives bins 256 and 768, while the high threshold in the count from the top stops at bin 256, the 20th percentile |
| Illuminant.TwoValuesIlluminant | C_Implementation/Src/whitebalance.c:213-291 | the corrected estimate of {0.25, 0.75} at percentile 20 is 0.5, while with the high threshold in the count from the top the window holds only 0.25 |
| Illuminant.CountPlane | C_Implementation/Src/whitebalance.c:225-237 | the histogram loop returns a fresh 1024-bin table of the plane's counts |
| Illuminant.PercentileIndexes | C_Implementation/Src/whitebalance.c:244-266 | the running-count loop as written returns idx_low and the as-written idx_high |
| Illuminant.PercentileIndexesIntended | C_Implementation/Src/whitebalance.c:244-266 | the running-count loop with each bin counted once, the bin reached recorded, and both counts compared with the low threshold returns idx_low and the corrected idx_high |
| Illuminant.WindowSum | C_Implementation/Src/whitebalance.c:269-280 | the selection loop, for a given bin width, returns the sum of selected absolute values and their count |
| Illuminant.CalcIlluminant | C_Implementation/Src/whitebalance.c:222-291 | calcIlluminant as written (double-counted top bin, high threshold in the count from the top, idx_high as written, window of 1.5 bin widths) returns the as-written estimate of the plane |
| Illuminant.CalcIlluminantIntended | C_Implementation/Src/whitebalance.c:213-291 | calcIlluminant with the backward count, its threshold, idx_high and the window corrected returns the corrected estimate, the mean over the [percentile, 100 - percentile] range of the plane |
| Illuminant.PlaneOf | C_Implementation/Src/whitebalance.c:309 | plane c of a three-plane buffer has n values |
| Illuminant.NonNegativeBinnable | C_Implementation/Src/whitebalance.c:236 | non-negative values have non-negative bins |
| Illuminant.PlaneIlluminant | C_Implementation/Src/whitebalance.c:309 | one call returns the as-written estimate of plane c |
| Illuminant.PlaneIlluminants | C_Implementation/Src/whitebalance.c:308-309 | the three calls return the as-written estimates of the three planes |
| Illuminant.CalcIlluminantRgb | C_Implementation/Src/whitebalance.c:303-312 | the three-entry buffer receives the as-written estimates of red, green and blue, and the image is only read |
| Weights.Luminance | C_Implementation/Src/weights.c:158-176 | luminance of non-negative channels is non-negative, and the two linear options map grey (v, v, v) to v |
| Weights.LuminancePlane | C_Implementation/Src/weights.c:149-179 | value x of the luminance plane is the luminance of pixel x |
| Weights.CalcLuminance | C_Implementation/Src/weights.c:149-179 | calcLuminance returns a fresh plane holding it |
| Weights.AbsPlane | C_Implementation/Src/weights.c:64-65 | each entry becomes non-negative and equal to the entry or its negation |
| Weights.CalcLaplacianWeight | C_Implementation/Src/weights.c:56-68 | the Laplacian weight is the absolute Laplacian of the luminance, in a fresh buffer |
| Weights.SaturationWeight | C_Implementation/Src/weights.c:135 | the saturation weight is non-negative, and 0 when all three channels equal the luminance |
| Weights.SaturationPlane | C_Implementation/Src/weights.c:133-136 | value x is the saturation weight of pixel x against lum[x] |
| Weights.CalcSaturationWeight | C_Implementation/Src/weights.c:121-139 | calcSaturationWeight returns a fresh plane holding it |
| Weights.GreySaturationWeight | C_Implementation/Src/weights.c:135 | a grey pixel under a linear luminance option has saturation weight 0 |
| Weights.SeqMaxIsUpperBound | C_Implementation/Src/weights.c:192-194 | the scanned maximum bounds every entry |
| Weights.SeqMax | C_Implementation/Src/weights.c:192-194 | the scanned maximum is never below the first or the last entry |
| Weights.SeqMaxAttained | C_Implementation/Src/weights.c:192-194 | the scanned maximum is one of the entries |
| Weights.Normalized | C_Implementation/Src/weights.c:197-198 | normalisation keeps the length |
| Weights.NormalizedInUnit | C_Implementation/Src/weights.c:189-201 | for non-negative entries with a non-zero maximum, the normalised entries lie in [0,1] and one of them is 1 |
| Weights.NormalizeWeight | C_Implementation/Src/weights.c:189-201 | normalizeWeight divides the n entries in place by their maximum and changes nothing else |
| Weights.RgbToXyz | C_Implementation/Src/weights.c:294-296 | rgb2XYZ keeps non-negative colours non-negative, and grey v has Y = v |
| Weights.XyzToRgb | C_Implementation/Src/weights.c:330-336 | `ABS` makes every channel of xyz2rgb non-negative |
| Weights.RoundTripRed | C_Implementation/Src/weights.c:294-336 | for channels in [0,1], red comes back from XYZ within 1e-4 |
| Weights.RoundTripGreen | C_Implementation/Src/weights.c:294-336 | the same for green |
| Weights.RoundTripBlue | C_Implementation/Src/weights.c:294-336 | the same for blue |
| Weights.Rgb2Xyz | C_Implementation/Src/weights.c:278-300 | rgb2XYZ returns a fresh buffer with every pixel converted |
| Weights.Xyz2Rgb | C_Implementation/Src/weights.c:314-341 | xyz2rgb returns a fresh buffer with every pixel converted |
| Weights.LabFunction | C_Implementation/Src/weights.c:354-361 | labFunction is non-negative for a non-negative ratio and is 16/116 at 0 |
| Weights.Lightness | C_Implementation/Src/weights.c:253-257 | L is 0 at Y = 0 and stays within [0, 903.3 * 0.00856] on the linear piece |
| Weights.XyzToLabAsWritten | C_Implementation/Src/weights.c:253-260 | as written, L is the grouped lightness while a exceeds the grouped a by 499 f(y) and b exceeds the grouped b by 199 f(z) |
| Weights.XyzToLab | C_Implementation/Src/weights.c:253-260 | with the differences grouped, a is 0 exactly when f(x) = f(y), b exactly when f(y) = f(z), and Y = 0 gives L = 0 |
| Weights.BlackLabAsWritten | C_Implementation/Src/weights.c:259-260 | as written, black gets a = 499 * 16/116 and b = 199 * 16/116 |
| Weights.NeutralLab | C_Implementation/Src/weights.c:259-260 | with the differences grouped, a colour proportional to the reference white has a = b = 0 |
| Weights.BlackLab | C_Implementation/Src/weights.c:253-260 | with the differences grouped, black is (0, 0, 0) in LAB |
| Weights.Xyz2Lab | C_Implementation/Src/weights.c:232-264 | xyz2LAB returns a fresh buffer with every pixel converted as written |
| Weights.RgbToLab | C_Implementation/Src/weights.c:211-222 | rgb2LAB on one pixel as written: black gets L = 0, a = 499 * 16/116 and b = 199 * 16/116 |
| Weights.Rgb2Lab | C_Implementation/Src/weights.c:211-222 | rgb2LAB equals converting every pixel to XYZ and then to LAB as written |
| Weights.SaliencyBlurAsWritten | C_Implementation/Src/weights.c:86-87 | as written, the three blurred planes are all the blur of the red plane |
| Weights.BlurFirstPlaneThrice | C_Implementation/Src/weights.c:84-87 | the loop as written fills a fresh buffer with three blurs of the first plane |
| Weights.RedSquare | C_Implementation/Src/weights.c:86-87 | a 3x3 image, pure red, of 27 values |
| Weights.SaliencyBlurAsWrittenCounterexample | C_Implementation/Src/weights.c:86-87 | on a pure red 3x3 image, the green centre blurs to 0.9997 as written and to 0 plane by plane |
| Weights.CentreOfConstantBlur | C_Implementation/Src/imfunc.c:83-85 | the centre of a constant 3x3 plane v blurs to 0.9997 v |
| Weights.Saliency | C_Implementation/Src/weights.c:98-106 | the saliency of each pixel is non-negative, and 0 for a pixel equal to the mean LAB colour |
| Weights.SaliencyWeight | C_Implementation/Src/weights.c:79-110 | the saliency weight as written (red plane blurred thrice, LAB as written) has n values |
| Weights.DistanceFromMean | C_Implementation/Src/weights.c:97-106 | the averages and distance loop return a fresh plane holding the saliency |
| Weights.CalcSaliencyWeight | C_Implementation/Src/weights.c:79-110 | calcSaliencyWeight as written, with the red plane blurred into all three planes and LAB as written, returns the saliency weight |
| Weights.LaplacianWeight | C_Implementation/Src/weights.c:17-20 | the Laplacian weight of an image is non-negative |
| Weights.SaturationWeightOf | C_Implementation/Src/weights.c:17-24 | the saturation weight of an image is non-negative |
| Weights.TotalWeight | C_Implementation/Src/weights.c:13-45 | the combined weight, with the saliency map as written, has n values |
| Weights.SumOfMaps | C_Implementation/Src/weights.c:36-37 | entry x is the sum of the three maps at x |
| Weights.SumWeightMaps | C_Implementation/Src/weights.c:35-37 | the summing loop fills a fresh buffer with it |
| Weights.TotalWeightInRange | C_Implementation/Src/weights.c:36-37 | each combined weight lies in [0,3] |
| Weights.SumOfNormalizedInRange | C_Implementation/Src/weights.c:36-37 | three non-negative maps with non-zero maxima normalise and add up into [0,3] |
| Weights.NormalizedLaplacianWeight | C_Implementation/Src/weights.c:20-21 | the Laplacian weight of the luminance, normalised |
| Weights.NormalizedSaturationWeight | C_Implementation/Src/weights.c:24-25 | the saturation weight, normalised |
| Weights.NormalizedSaliencyWeight | C_Implementation/Src/weights.c:31-32 | the as-written saliency weight, normalised |
| Weights.NormalizeWhole | C_Implementation/Src/weights.c:189-201 | normalizeWeight over a whole buffer replaces it by its normalisation |
| Weights.GetWeights | C_Implementation/Src/weights.c:13-45 | getWeights returns a fresh buffer holding the sum of the three normalised maps, with the saliency map as written |
| WhiteBalance.CompensationFixes | C_Implementation/Src/whitebalance.c:29 | compensation leaves a value unchanged when alpha is 0, the channel average equals green's, the value is 1, or green is 0 |
| WhiteBalance.Compensated | C_Implementation/Src/whitebalance.c:29 | a compensated value equals the old one exactly when the gain alpha (avgG - avgC) g is 0 or the value is 1 |
| WhiteBalance.CompensationStaysInUnit | C_Implementation/Src/whitebalance.c:29 | with a gain term in [0,1], a value in [0,1] grows but stays at most 1 |
| WhiteBalance.CompensatePlane | C_Implementation/Src/whitebalance.c:27-30 | each new value depends only on the old value, green at that index and the averages |
| WhiteBalance.CompensateWith | C_Implementation/Src/whitebalance.c:25-37 | compensation keeps 3n values |
| WhiteBalance.Compensate | C_Implementation/Src/whitebalance.c:21-37 | compensation with the three averages of the input keeps 3n values |
| WhiteBalance.CompensateWithAt | C_Implementation/Src/whitebalance.c:27-37 | each pixel gets compensated red, the same green and compensated blue, from the averages taken before either loop |
| WhiteBalance.CompensateWithoutGain | C_Implementation/Src/whitebalance.c:27-37 | alpha = 0 leaves the image unchanged |
| WhiteBalance.CompensateBalanced | C_Implementation/Src/whitebalance.c:27-37 | an image whose three plane means are equal is left unchanged |
| WhiteBalance.CompensatePlaneInPlace | C_Implementation/Src/whitebalance.c:27-30 | one loop rewrites its plane from its old values and green's, and changes nothing else |
| WhiteBalance.CompensateRedBlue | C_Implementation/Src/whitebalance.c:25-37 | the two loops leave the compensated image |
| WhiteBalance.PlaneAverage | C_Implementation/Src/whitebalance.c:21-23 | calcAverage on plane c returns that plane's mean |
| WhiteBalance.CompensateChannels | C_Implementation/Src/whitebalance.c:15-37 | averages first, then both loops: the image becomes its compensation |
| WhiteBalance.ScaledToGrey | C_Implementation/Src/whitebalance.c:64 | scaling a plane by 127.5 / avg / 255 keeps its length |
| WhiteBalance.GreyWorld | C_Implementation/Src/whitebalance.c:59-65 | grey world keeps 3n values |
| WhiteBalance.GreyWorldFactor | C_Implementation/Src/whitebalance.c:64 | the factor times the channel average is 0.5, and the factor is positive for a positive average |
| WhiteBalance.ScaledToGreyMean | C_Implementation/Src/whitebalance.c:61-64 | a scaled plane has mean 0.5, each value being 0.5 times its ratio to the old mean |
| WhiteBalance.GreyWorldMeans | C_Implementation/Src/whitebalance.c:59-65 | after grey world all three plane means are 0.5 |
| WhiteBalance.GreyWorldAt | C_Implementation/Src/whitebalance.c:59-65 | each pixel's channels are scaled by their own plane's factor |
| WhiteBalance.ScalePlaneInPlace | C_Implementation/Src/whitebalance.c:63-64 | the inner loop multiplies its plane by the factor and changes nothing else |
| WhiteBalance.GreyWorldChannel | C_Implementation/Src/whitebalance.c:61-64 | one channel iteration scales plane c to mean 0.5 and changes nothing else |
| WhiteBalance.ApplyGreyWorld | C_Implementation/Src/whitebalance.c:55-68 | applyGreyWorld replaces the image by its grey world version |
| WhiteBalance.LinearizerHelper | C_Implementation/Src/whitebalance.c:99-116 | linearisation keeps the sign of its argument |
| WhiteBalance.LinearizerOdd | C_Implementation/Src/whitebalance.c:108-109 | linearizerHelper is odd: f(-u) = -f(u) |
| WhiteBalance.LinearizerLinearSegment | C_Implementation/Src/whitebalance.c:111-112 | on [0, 0.04045) it is u / 12.92 |
| WhiteBalance.Linearized | C_Implementation/Src/whitebalance.c:78-86 | linearisation keeps the length |
| WhiteBalance.LinearizedPixel | C_Implementation/Src/whitebalance.c:82-83 | each channel of a linearised pixel keeps the sign of the input channel |
| WhiteBalance.LinearizedNonNegative | C_Implementation/Src/whitebalance.c:78-86 | a non-negative image stays non-negative, so its planes can be binned |
| WhiteBalance.LinearizeRgb | C_Implementation/Src/whitebalance.c:78-86 | linearizeRGB linearises the 3n values in place and changes nothing after them |
| WhiteBalance.AdaptationMatrix | C_Implementation/Src/whitebalance.c:151-178 | the adaptation matrix is 3x3 |
| WhiteBalance.GreyWorldFull | C_Implementation/Src/whitebalance.c:127-210 | the full grey world output has 3n values |
| WhiteBalance.GreyWorldFullAt | C_Implementation/Src/whitebalance.c:144-206 | each output pixel is xyz2rgb of the adapted XYZ of the same linearised input pixel, and of no other pixel |
| WhiteBalance.AdaptationWhitens | C_Implementation/Src/whitebalance.c:151-178 | the adaptation takes the fixed illuminant to the D65 white within 1e-7 per coordinate |
| WhiteBalance.BuildTransformation | C_Implementation/Src/whitebalance.c:156-179 | the four multiplyFlatMatrix calls and the diagonal loop build bradford_inv * diag * bradford |
| WhiteBalance.AdaptationMatrixOf | C_Implementation/Src/whitebalance.c:151-154 | any buffer holding the fixed illuminant gives non-zero cones and the adaptation matrix |
| WhiteBalance.FixedIlluminants | C_Implementation/Src/whitebalance.c:151-154 | the computed illuminants are overwritten by the fixed constants |
| WhiteBalance.FixedTransformation | C_Implementation/Src/whitebalance.c:151-179 | the transformation applyGreyWorldFull builds is the adaptation matrix, whatever the image |
| WhiteBalance.ApplyGreyWorldFull | C_Implementation/Src/whitebalance.c:127-210 | the image is linearised in place, and a fresh buffer holds the adapted image |
| WhiteBalance.ApplyWhiteBalance | C_Implementation/Src/whitebalance.c:13-44 | the image is compensated and linearised in place, and the result is the full grey world of the compensated image |
| Fusion.NewWeightsInUnit | C_Implementation/Src/imfusion.c:49-50 | for non-negative weights both divisions are defined, and both new weights lie in (0,1) |
| Fusion.NewWeightsSumForZeros | C_Implementation/Src/imfusion.c:49-50 | two zero weights become 1/2 and 1/7, summing to 9/14, not 1 |
| Fusion.NewGamma | C_Implementation/Src/imfusion.c:49 | for non-negative weights the new gamma weight lies in (0,1) |
| Fusion.NewSharp | C_Implementation/Src/imfusion.c:50 | for non-negative weights the new sharp weight, divided by a sum holding the new gamma weight, lies in (0,1) |
| Fusion.NormalizeFusionWeights | C_Implementation/Src/imfusion.c:41-54 | gamma[i] is regularised first, and sharp[i] uses the new gamma[i]; iteration i touches only index i |
| Fusion.Fused | C_Implementation/Src/imfusion.c:25-26 | the fused image has 3n values |
| Fusion.FusedValue | C_Implementation/Src/imfusion.c:26 | a fused value is the image value when the pixel's two weights sum to 1, 0 when they sum to 0, and non-negative for non-negative inputs |
| Fusion.FusedChannelsShareWeight | C_Implementation/Src/imfusion.c:26 | values p, n+p and 2n+p are all weighted by g[p] + s[p] |
| Fusion.FusedBounds | C_Implementation/Src/imfusion.c:25-26 | with regularised weights and a white-balanced image in [0,1], every fused value lies in [0,2) |
| Fusion.Fuse | C_Implementation/Src/imfusion.c:22-26 | the reconstruction loop fills a fresh buffer with the fused image |
| Fusion.ApplyFusion | C_Implementation/Src/imfusion.c:13-29 | both weights are regularised in place; the white-balanced image is only read; a fresh buffer holds the fused image |

## Left out

- `readImage`, `writeImage` (`imfunc.c:108-181`) and `imageFusionSeqFull` (`imfusion.c:63-151`) are not part of this model: they do file I/O, `clock`/`printf` timing and orchestration. `readImage` allocates `num_col * num_col` floats per plane where `num_row * num_col` is evidently meant; this is not modelled.
- `main.c`, `imconv.py` and the USB host glue are not part of this model.
- `Q_rsqrt` (`imfunc.c:11-24`) is not part of this model: it is an IEEE bit-level trick that no modelled function calls.
- Floating point is not modelled: values are exact reals, with no rounding, overflow, NaN or infinity. The claims about the constants hold for exact reals. These are the 0.9997 kernel sum, the 1e-4 colour round trip and the 1e-7 Bradford adaptation.
- `sqrt` and `pow` are uninterpreted. Nothing beyond non-negativity and sqrt(0) = 0 is known about them.
- Integer overflow of `int` index arithmetic is not modelled: indices are unbounded naturals.
- Divisions the C code does not guard become preconditions:
  - a zero maximum in `normalizeWeight`;
  - a zero plane mean in `applyGreyWorld`;
  - zero cone responses in `applyGreyWorldFull`;
  - zero fusion denominators (`Fusion.Normalizable`).
- The one 0/0 division `rgb2hsi` can perform is for a grey pixel with green taken as the maximum. The model gives it hue 120. Saturation is 0 there, so `hsi2rgb` returns (I, I, I) for any hue (`Hsi.Place`, `Hsi.ToRgb`).
- Negative values are kept out of the two histograms by preconditions, because C would index before the start of the arrays:
  - `ImSharp.Binnable` and `Illuminant.Binnable` require that no value has a negative bin;
  - `WhiteBalance.ApplyWhiteBalance` requires this of the linearised compensated image.
- Conv.CorrelateAdditive: the correlation is proved additive over planes. Homogeneity (scaling) is proved only for the padded plane and for the tap sum (`Conv.PaddedHomogeneous`, `Conv.CorrSumHomogeneous`), not for the whole correlation.
- Weights.Luminance: option 2 (the square-root form) carries no grey-pixel claim, because `sqrt` is uninterpreted.
- The static three-entry buffer of `calcIlluminantRGB` is modelled as an array the caller passes in. The sharing of one buffer across calls is not modelled.
- The loop of `applyGreyWorld` over the three channels is unrolled into three calls of `GreyWorldChannel`.
- Distinctness preconditions on array arguments (`output != filter` and the like) state that buffers C allocates separately do not alias.
- The comment at `imfusion.c:46` writes each new weight as (old + regularization) / (sum of the weights + 2 * regularization). Taken over the old values, that makes each pixel's two new weights sum to 1. The code updates `gamma_weight[i]` first and uses the new value for `sharp_weight[i]`. The model follows the code (`Fusion.NewSharp`), and `Fusion.NewWeightsSumForZeros` shows the sum is not 1.
- `applyGreyWorldFull` computes the illuminants and then overwrites them with constants. The as-written estimate is modelled and proved (`Illuminant.CalcIlluminant`), and so is the corrected one (`Illuminant.CalcIlluminantIntended`). Neither has any effect on the result.
- ImSharp.ApplyUnsharpMask, ImSharp.Sharpened, ImSharp.EqualizedDetailHsi, ImSharp.EqualizeIntensityPlane: these require at least 256 pixels. The histogram loop at `imsharp.c:67-68` reads 256 intensities whatever the number of pixels, and with fewer pixels C reads past the plane. That out-of-bounds read is not modelled.
- ImSharp.SharpenableImage: as a precondition, it excludes every image with a pixel darker than its blurred neighbourhood in all three channels. C would index the histogram before its start for such images (see "## Findings"). The model says nothing about them.
- The round trip rgb2hsi then hsi2rgb is proved only for pure red, green and blue pixels and for grey pixels, even with the `hsi.c:99` factor corrected. The `(int)` cast at `hsi.c:55` and at `hsi.c:99` reduces the hue to whole sectors. So orange (1, 1/2, 0) comes back as (1, 0, 0) (`Hsi.OrangeLosesHue`).
- The `printf` on the dimension-mismatch path of `multiplyFlatMatrixRef` (`whitebalance.c:359`) is console output and is not modelled. The model keeps the -1 return and the untouched output.

## Findings

| source | as written | input that shows it | evidently intended | confidence | as-written member | corrected member |
|---|---|---|---|---|---|---|
| C_Implementation/Src/hsi.c:99 | `ABS` is textual, so `1 - ABS(x % 2 - 1)` expands to `(1 - (x % 2 - 1 < 0)) ? ... : ...` and the factor is -1 or -2 | pure red (1, 0, 0): HSI (0, 1, 1) comes back as (1, -1, 0) | factor 1 - abs(x % 2 - 1), i.e. 0 or 1, so that the secondary channel lies between the tertiary one and the intensity, and pure red, green and blue come back unchanged | high; not executed | Hsi.PureRedAsWritten, Hsi.SecondaryBelowTertiaryAsWritten, Hsi.SecondaryFactorAsWritten, Hsi.HsiToRgbAsWritten | Hsi.SecondaryFactor, Hsi.HsiToRgb, Hsi.HsiToRgbInRange, Hsi.PureRedRoundTrip |
| C_Implementation/Src/imsharp.c:67 | the histogram loop runs over 256 entries, not over num_pixels | a white plane of 512 pixels: 256 counted, so the top grey maps to round(256 * 255 / 512) / 255 = 128/255 | count every pixel, so the top grey level maps to 1 | high; not executed | ImSharp.WhiteImageAsWritten, ImSharp.HistogramEqualizationAsWritten | ImSharp.HistogramEqualization, ImSharp.EqualizedReachesTop |
| C_Implementation/Src/imsharp.c:67-68 | the grey level `(int)(intensity[i] * 255) % 256` indexes the histogram without a bound check, and the detail intensity it is applied to is negative wherever a pixel is darker than its blur in all three channels | the 1x2 image black on the left and white on the right in every plane: the left detail intensity is -0.0838, whose grey level is -21 | clamp the intensity to [0, 1] before binning, so every grey level indexes the 256-entry tables | medium; not executed | ImSharp.DarkLeftEdgeNotSharpenable | ImSharp.ClampedGreyBin |
| C_Implementation/Src/weights.c:87 | every call blurs `image`, the red plane, into all three planes | a pure red 3x3 image: the blurred green centre is 0.9997 instead of 0 | blur plane i into plane i (`&image[num_pixels*i]`) | high; not executed | Weights.SaliencyBlurAsWrittenCounterexample, Weights.BlurFirstPlaneThrice | ImFunc.BlurPlanes, ImFunc.BlurEachPlane |
| C_Implementation/Src/weights.c:259-260 | `a = 500*f(x) - f(y)` and `b = 200*f(y) - f(z)`, without parentheses | black (0, 0, 0): a = 499 * 16/116, b = 199 * 16/116 | a = 500 (f(x) - f(y)), b = 200 (f(y) - f(z)), so neutral colours have no chroma | high; not executed | Weights.BlackLabAsWritten, Weights.XyzToLabAsWritten, Weights.RgbToLab | Weights.XyzToLab, Weights.NeutralLab, Weights.BlackLab |
| C_Implementation/Src/whitebalance.c:241-275 | the backward count starts with the top bin and adds it again, so bin 0 is never counted; it is compared with the high threshold n (100 - p)/100, so counting from the top it stops at the p-th percentile, not the (100 - p)-th; a hit at step 0 sets idx_high to 0, the bottom bin, where the top bin was reached; the window scales both indexes by 1.5 bin widths | a plane of n pixels all 0.5, percentile 20: idx_low = idx_high = 512, so the window is [0.749, 0.751], no pixel is selected and the illuminant is 0; and even with the other defects corrected, {0.25, 0.75} gets idx_high = 256 = idx_low and the estimate 0.25 | count each bin once, compare the count from the top with the low threshold, record the bin reached, and scale by one bin width, so that the window is the [p, 100 - p] percentile range: {0.25, 0.75} gives 0.5 and a uniform plane v in [0, 1) gives v | medium; not executed | Illuminant.UniformHalfAsWritten, Illuminant.UniformHalfIndexesAsWritten, Illuminant.BackwardAsWritten, Illuminant.BackwardNeverCountsBinZero, Illuminant.TwoValuesIndexes, Illuminant.CalcIlluminant | Illuminant.IlluminantOf, Illuminant.PercentileWindow, Illuminant.IntendedWindow, Illuminant.TwoValuesIlluminant, Illuminant.UniformIlluminant, Illuminant.CalcIlluminantIntended |
