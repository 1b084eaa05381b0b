# MatrixDSP core, modelled in Dafny

MatrixDSP is a header-only C++ signal-processing library. This project models its core in Dafny and proves properties of the model:

- **KISS FFT engine** (`kissfft.h`):
  - The constructor builds the twiddle table and splits the length into stage radices: 4s first, then 2s, then 3, 5, 7, 9, ….
  - It sizes the shared scratch buffer for a last radix above 5.
  - A recursive decimation-in-time `transform` exists for complex and for real input.
  - Radix-2, 3, 4 and 5 butterflies and a generic butterfly recombine each stage.
- **FFT setup cache** (`FftSetupManager.h`): a map from a key (twice the length, plus one for an inverse transform) to FFT plans. It supports lookup-or-create, remove and clean-up.
- **Vector** (`Vector.h`): a sample buffer with a row/column flag and a shared scratch buffer. Modelled operations:
  - the elementwise `+=`, `-=` and `*=`;
  - rotate, reverse, fliplr, flipud, resize, pad;
  - upsample, downsample, cumsum, diff (with and without a carried previous value);
  - saturate, max, min, find and median.
- **Matrix2d iterator** (`Matrix2dIterator.h`): walks a row-major matrix either row by row or column by column. It keeps (row, col) and a buffer offset in step.
- **Row/column iterator** (`RowColIterator.h`): walks one row (stride 1) or one column (stride numCols) of a matrix.
- **Matrix2d** (`Matrix2d.h`):
  - the two constructors;
  - element access with and without `transpose`;
  - the scratch-buffer set-up.
- **Matrix–vector products** (`VectorMatrix.h`): real and complex vectors.

Stateful C++ objects are Dafny classes whose methods carry `modifies` clauses:

- `Vector`, `Scratch`, `KissFft`, `ScratchBuffer`, `FftSetupManager`, `Matrix2dIterator`, `RowColIterator`, `Matrix2d`.

Each method is proved against a specification function, and the properties of that function are lemmas:

- Rotation composes and inverts.
- Downsampling undoes upsampling; diff and cumsum undo each other.
- Median's sort is sorted and a permutation.
- The FFT plan multiplies back to nfft, in the promised radix order.
- The FFT output is the recursive stage definition.
- Iterator steps are moves to the neighbouring serial index.
- The products are the matrix–vector product over the rows read back through `operator()`.

The element type `T` is `real`, and complex samples are pairs of reals (`Complex.Cpx`). The FFT arithmetic is therefore exact. The twiddle factors `exp(i * phinc)` are a parameter (`expi`), since the model has no transcendental functions.

Files:

- `arith.dfy`: small integer lemmas.
- `option.dfy`, `complex.dfy`: an option type and complex numbers.
- `factorization.dfy`: the constructor's radix search.
- `columns.dfy`: the column view of a butterfly block.
- `fft.dfy`: the plan, transform and butterflies.
- `fftsetup.dfy`: the setup cache.
- `vector.dfy`: vectors.
- `iterators.dfy`: both iterators.
- `matrix.dfy`: the matrix and the products.

## Model

| member | source | states |
|---|---|---|
| Factorization.FindRadixDivides | src/kissfft.h:42-50 | the radix search ends on a divisor of n that is at least 2, or on n itself |
| Factorization.SearchRadix | src/kissfft.h:42-50 | the inner `while (n % p)` loop returns the radix of the recursive search specification |
| Factorization.Factorize | src/kissfft.h:38-55 | the do/while loop produces exactly the radices and remainders of the plan specification, and the last radix p |
| Factorization.NextStage | src/kissfft.h:42-54 | one pass of the do/while appends the next stage of the plan and shrinks n, or ends the plan when n <= 1 |
| Factorization.StagesUnfold | src/kissfft.h:41-55 | the stage list is the found radix with its remainder, followed by the stages of the remainder |
| Factorization.StagesChained | src/kissfft.h:51-53 | each stage's radix times its remainder is the previous remainder |
| Factorization.PlanFirst | src/kissfft.h:51-53 | the first stage's radix times remainder is nfft |
| Factorization.PlanChain | src/kissfft.h:51-53 | stage i+1's radix times remainder is stage i's remainder |
| Factorization.PlanRemainders | src/kissfft.h:51-53 | the product of the radices up to stage i, times stage i's remainder, is nfft |
| Factorization.StageSize | src/kissfft.h:51-53 | the product of the earlier radices times radix and remainder of stage s is nfft |
| Factorization.PlanProduct | src/kissfft.h:38-55 | the radices multiply to nfft |
| Factorization.PlanLast | src/kissfft.h:55 | every stage but the last leaves a remainder above 1, and the last leaves exactly 1 |
| Factorization.PlanOfOne | src/kissfft.h:41-55 | a 1-point plan is the single stage of radix 1 |
| Factorization.PlanShrinks | src/kissfft.h:41-55 | every radix is at least 2 and the remainders strictly decrease, so the loop terminates |
| Factorization.StagesLast | src/kissfft.h:55 | the recursive stages end exactly when the remainder reaches 1 |
| Factorization.StagesShrink | src/kissfft.h:41-55 | radices are at least 2 and remainders strictly decrease along the stages |
| Factorization.StagesOrder | src/kissfft.h:39-48 | every radix is a candidate (4, 2 or odd) no earlier than the start, the radices come in candidate order, and 2 is never followed by an even radix |
| Factorization.PlanOrder | src/kissfft.h:39-48 | 4s come first, 2 at most once, then odd radices in ascending order: the order the comment promises |
| Factorization.PlanScratchFits | src/kissfft.h:57-65 | every radix above 5 is at most the last radix, so the scratch buffer sized by the last radix fits every generic stage |
| Factorization.ReducedQuotient | src/kissfft.h:42-51 | dividing out the current radix keeps all smaller candidates non-divisors, and after a 2 the rest is odd |
| Factorization.ReducedStep | src/kissfft.h:42-48 | moving past a candidate that does not divide n keeps the invariant that no smaller candidate divides n |
| Factorization.CappedRadix | src/kissfft.h:47-48 | when p*p > n stops the search, the remaining n is itself a candidate ranked no earlier than p |
| Factorization.NextCandidateFacts | src/kissfft.h:43-47 | the switch moves 4 to 2, 2 to 3 and odd p to p + 2, always to a later candidate |
| Factorization.MeasureDrops | src/kissfft.h:42-48 | the radix search makes progress at each candidate step |
| Fft.ScratchBuffer.constructor | src/kissfft.h:59-60 | a fresh scratch buffer of p zeros |
| Fft.ScratchBuffer.Resize | src/kissfft.h:62-63 | `resize(p)`: the first entries are kept, and new ones are zero |
| Fft.KissFft.constructor | src/kissfft.h:27-66 | twiddle i is expi(i); the stage lists are the plan's; a last radix above 5 gets a fresh buffer of that length or resizes the given one, otherwise the given buffer is kept unchanged |
| Fft.KissFft.StageFacts | src/kissfft.h:95-104 | what `transform` relies on at stage s: radix >= 2, remainder 1 only at the last stage, chained sizes, stride times size is nfft, and generic radices fit the scratch buffer |
| Fft.KissFft.PlanChained | src/kissfft.h:95-104 | the plan's stage sizes chain from nfft down to 1 |
| Fft.KissFft.TwIndexIsProduct | src/kissfft.h:352-356 | the generic butterfly's running twiddle index is q * step reduced modulo nfft |
| Fft.KissFft.TwIndexStep | src/kissfft.h:354-355 | one conditional subtraction of nfft is the whole reduction when step < nfft |
| Fft.KissFft.GenSumPrefix | src/kissfft.h:350-358 | a generic output depends only on the p gathered scratch entries |
| Fft.KissFft.GenericRowsFromAt | src/kissfft.h:349-360 | output row q1 of column u sums with twiddle step fstride * (u + q1 * m) |
| Fft.KissFft.Bfly2 | src/kissfft.h:205-212 | called as `transform` calls it (fs*2*m == nfft, a full table), every one of the m columns is replaced by the radix-2 butterfly of that column, and each twiddle read lies inside the table |
| Fft.KissFft.Bfly2At | src/kissfft.h:207-211 | one pass of the radix-2 loop, whose twiddle index k*fs must be inside the table, rewrites column k and nothing else |
| Fft.KissFft.Bfly3 | src/kissfft.h:214-243 | called with fs*3*m == nfft, every column is replaced by the radix-3 butterfly with the table entries u*fs, 2*u*fs and epi3 = entry fs*m, all inside the table |
| Fft.KissFft.Bfly3At | src/kissfft.h:224-242 | one pass of the radix-3 loop, whose indices k*fs and 2*k*fs must be inside the table, rewrites column k and nothing else |
| Fft.KissFft.Bfly4 | src/kissfft.h:245-266 | called with fs*4*m == nfft, every column is replaced by the radix-4 butterfly with the table entries u*fs, 2*u*fs, 3*u*fs (inside the table) and the rotation sign taken from `_inverse` |
| Fft.KissFft.Bfly4At | src/kissfft.h:249-265 | one pass of the radix-4 loop, whose indices k*fs, 2*k*fs and 3*k*fs must be inside the table, rewrites column k and nothing else |
| Fft.KissFft.Bfly5 | src/kissfft.h:268-330 | called with fs*5*m == nfft, every column is replaced by the radix-5 butterfly with the table entries u*fs .. 4*u*fs and ya, yb = entries fs*m and 2*fs*m, all inside the table |
| Fft.KissFft.Bfly5At | src/kissfft.h:281-329 | one pass of the radix-5 loop, whose indices u*fs .. 4*u*fs must be inside the table, rewrites column u and nothing else |
| Fft.TwiddleIndex | src/kissfft.h:205-330 | with fstride*p*m == nfft, the twiddle indices u*fs*c (u < m, c < p) and fs*m*c that the butterflies read are below nfft |
| Fft.StageTwiddles | src/kissfft.h:205-330 | for radix 2 to 5, each index its butterfly reads for column u < m (u*fs .. (p-1)*u*fs, fs*m, 2*fs*m) is below nfft |
| Fft.KissFft.KernelReadsTable | src/kissfft.h:205-330 | on a stage `transform` sets up, the radix-2..5 kernel of column u reads table entries only: each index is inside the table and the kernel equals the butterfly applied to those entries |
| Fft.KissFft.KernelTableEntries | src/kissfft.h:205-330 | with the read indices inside the table, the kernel's twiddles are exactly those table entries |
| Fft.KissFft.BflyGeneric | src/kissfft.h:333-363 | every column is replaced by the generic DFT rows, and the scratch buffer keeps its length |
| Fft.KissFft.GenericAt | src/kissfft.h:344-361 | one column of the generic butterfly: gather, then p outputs written back at stride m |
| Fft.KissFft.GenericGather | src/kissfft.h:345-348 | the scratch buffer's first p entries are column u of the block |
| Fft.KissFft.GenericOutputs | src/kissfft.h:349-360 | the p outputs computed from the scratch buffer are the generic column specification |
| Fft.KissFft.GenericRow | src/kissfft.h:352-358 | the inner loop accumulates x[0] plus the sum of x[q] times twiddle (q * step mod nfft) |
| Fft.KissFft.Recombine | src/kissfft.h:112-118 | the switch applies the butterfly of radix p: the stage's Butterfly specification |
| Fft.KissFft.LeafCopy | src/kissfft.h:88-94 | the leaf copies p inputs at stride fstride into the p outputs and touches nothing else |
| Fft.KissFft.TransformBlocks | src/kissfft.h:95-104 | the p recursive calls lay their sub-transforms one after another in the output |
| Fft.KissFft.BlockStep | src/kissfft.h:96-103 | one pass of the recursion loop writes sub-transform j and advances input and output |
| Fft.KissFft.RunStage | src/kissfft.h:80-120 | stage s is the gathered data (leaf or sub-transforms) recombined by the stage butterfly |
| Fft.KissFft.TransformStage | src/kissfft.h:80-120 | `transform` at stage s writes exactly the stage's recursive definition into its p*m outputs and touches nothing else |
| Fft.KissFft.Transform | src/kissfft.h:80-120 | the complex transform writes the full recursive definition into out[0..nfft] and leaves the rest of out alone |
| Fft.KissFft.TransformReal | src/kissfft.h:122-164 | the real overload is the complex transform of the samples lifted with imaginary part 0 |
| Fft.KissFft.RunLength | src/kissfft.h:80-120 | stage s produces radix times remainder outputs |
| Fft.KissFft.RunReads | src/kissfft.h:88-104 | without butterflies, output i of stage s is the input at offset inBase + fs * Offset(s, i) |
| Fft.KissFft.LeafOrder | src/kissfft.h:80-120 | the data movement is a permutation of the nfft inputs: Offset and Slot invert each other, and output i reads input Offset(0, i) |
| Fft.KissFft.OffsetThenSlot | src/kissfft.h:95-104 | the mixed-radix digit reversal is undone by Slot |
| Fft.KissFft.SlotThenOffset | src/kissfft.h:95-104 | Slot is undone by the digit reversal, so every input reaches exactly one output |
| Fft.Lift | src/kissfft.h:130-138 | the real leaf stores each sample as the real part with imaginary part 0 |
| Fft.LeafLoopStops | src/kissfft.h:88-94 | for p >= 2 the leaf do/while stops after p - 1 passes |
| Fft.LeafLoopNeverStops | src/kissfft.h:88-94 | for p == 1 the leaf do/while never reaches its stop condition |
| FftSetups.GenKeyDecodes | src/FftSetupManager.h:19 | the key halves back to the length, and its parity is the inverse flag |
| FftSetups.GenKeyInjective | src/FftSetupManager.h:19 | two requests share a key exactly when length and direction agree |
| FftSetups.AsMapAt | src/FftSetupManager.h:17 | every stored entry is found under its key in the map the sorted entries represent |
| FftSetups.AsMapMissing | src/FftSetupManager.h:31-34 | a key that no entry carries is absent from the map |
| FftSetups.AsMapInsert | src/FftSetupManager.h:37 | inserting an entry at its sorted place is `fftSetups[key] = setup` on the map |
| FftSetups.AsMapRemove | src/FftSetupManager.h:47 | removing an entry is `erase` of its key on the map |
| FftSetups.EntriesOkInsert | src/FftSetupManager.h:36-37 | inserting a new setup at its sorted place keeps keys ascending, every key matching its setup, and every setup with a valid plan and the twiddle table of its length and direction |
| FftSetups.EntriesOkRemove | src/FftSetupManager.h:47 | removing an entry keeps the cache well formed: keys ascending, each matching its setup, each setup with its plan and twiddle table |
| FftSetups.FftSetupManager.constructor | src/FftSetupManager.h:22 | the cache starts empty, and the manager keeps the given twiddle values per length and direction |
| FftSetups.FftSetupManager.LowerBound | src/FftSetupManager.h:31 | the search returns the first position whose key is not below the requested key |
| FftSetups.FftSetupManager.GetFftSetup | src/FftSetupManager.h:28-39 | the result has the requested length and direction, is a valid setup, and holds the twiddle table of that length and direction, whether cached or new; a cached setup is returned and the cache is unchanged; otherwise a fresh setup is returned and added under the key |
| FftSetups.FftSetupManager.Cached | src/FftSetupManager.h:29-34 | the setup found at a position carries that entry's key, is valid, and holds the twiddle table of its length and direction |
| FftSetups.FftSetupManager.AddSetup | src/FftSetupManager.h:36-38 | a fresh valid setup with the twiddle table of the requested length and direction is inserted at the given sorted position, and the cache stays well formed |
| FftSetups.FftSetupManager.RemoveAt | src/FftSetupManager.h:47 | the entry at a position is removed, the others keep their order, and the cache stays well formed |
| FftSetups.FftSetupManager.GetTwice | src/FftSetupManager.h:28-39 | two requests for the same setup return the same object, which is valid and holds the twiddle table of its length and direction, and the cache gains at most that key |
| FftSetups.FftSetupManager.RemoveFftSetup | src/FftSetupManager.h:41-48 | the cache loses exactly the requested key, and a missing key changes nothing |
| FftSetups.FftSetupManager.CleanUp | src/FftSetupManager.h:50-56 | the cache is emptied (the destructor, lines 24-26, calls it) |
| Vectors.PlusMinus | src/Vector.h:172-212 | adding then subtracting the same vector (or the reverse) gives back the original |
| Vectors.Vector.constructor | src/Vector.h:62-66 | len zeros, the row flag as given, and the given scratch buffer or a fresh empty one |
| Vectors.Vector.FromData | src/Vector.h:81-85 | the samples are the given data, with the given row flag and scratch buffer |
| Vectors.Vector.InitializeScratchBuf | src/Vector.h:34-41 | the given scratch buffer is shared, or a fresh empty one is made; the samples stay |
| Vectors.Vector.CopyToScratchBuf | src/Vector.h:27-32 | the scratch buffer afterwards holds exactly the samples |
| Vectors.Vector.AddVector | src/Vector.h:172-179 | each sample gains the matching sample of rhs |
| Vectors.Vector.AddScalar | src/Vector.h:184-189 | each sample gains rhs |
| Vectors.Vector.SubVector | src/Vector.h:195-202 | each sample loses the matching sample of rhs |
| Vectors.Vector.SubScalar | src/Vector.h:207-212 | each sample loses rhs |
| Vectors.Vector.MulVector | src/Vector.h:218-225 | each sample is multiplied by the matching sample of rhs |
| Vectors.Vector.MulScalar | src/Vector.h:230-235 | each sample is multiplied by rhs |
| Vectors.Vector.Find | src/Vector.h:271-279 | the result lists, in increasing order, exactly the indices of the non-zero samples |
| Vectors.Vector.Max | src/Vector.h:362-378 | the value is a sample, no sample exceeds it, and its location is the first one holding it |
| Vectors.Vector.Min | src/Vector.h:388-404 | the value is a sample, no sample is below it, and its location is the first one holding it |
| Vectors.Vector.Median | src/Vector.h:338-352 | the scratch buffer holds the samples sorted, and the result is its middle element (the mean of the two middle ones for an even count) |
| Vectors.SortSeq | src/Vector.h:343 | the sort is a permutation of its input |
| Vectors.SortSeqSorted | src/Vector.h:343 | the sort's result is in ascending order |
| Vectors.Insert | src/Vector.h:343 | inserting one element adds it to the multiset of values |
| Vectors.InsertSorted | src/Vector.h:343 | inserting into a sorted sequence keeps it sorted |
| Vectors.InsertFrom | src/Vector.h:343 | every element after an insertion is the new one or an old one |
| Vectors.SortedEnds | src/Vector.h:338-352 | the sorted sequence starts at the minimum and ends at the maximum of the samples |
| Vectors.MedianBounds | src/Vector.h:338-352 | the median lies between the smallest and the largest sample |
| Vectors.Vector.Saturate | src/Vector.h:414-422 | each sample is clamped to [-val, val] |
| Vectors.SaturatedBounds | src/Vector.h:414-422 | after saturation every sample is in [-val, val], samples already inside are unchanged, larger ones become val and smaller ones -val, and saturating twice is saturating once |
| Vectors.Vector.VectorRotate | src/Vector.h:514-527 | the samples are rotated left by numToShift, reduced modulo the length, for any sign of the shift |
| Vectors.RotatedAt | src/Vector.h:514-527 | sample i after rotation is sample (i + shift) mod length |
| Vectors.RotateLeftAt | src/Vector.h:525 | `std::rotate` to position k puts sample (i + k) mod length at i |
| Vectors.RotateLeftInverse | src/Vector.h:525 | rotating by k and then by length - k restores the vector |
| Vectors.RotateLeftTwice | src/Vector.h:525 | two rotations compose into one by the sum of the shifts, reduced modulo the length |
| Vectors.RotatedCompose | src/Vector.h:514-527 | rotating by a then by b is rotating by a + b |
| Vectors.RotatedInverse | src/Vector.h:514-527 | rotating by -shift undoes rotating by shift |
| Vectors.RotateLeftIsRotated | src/Vector.h:517-525 | the two normalising loops and `std::rotate` agree with the modular rotation |
| Vectors.RotateShort | src/Vector.h:515-517 | a vector of at most one sample is left as it is |
| Vectors.Vector.Reverse | src/Vector.h:534-537 | the samples are in reverse order |
| Vectors.Reversed | src/Vector.h:534-537 | sample i of the reversal is sample length-1-i |
| Vectors.ReversedTwice | src/Vector.h:534-537 | reversing twice restores the vector |
| Vectors.Fliplr | src/Vector.h:976-981 | a row vector is reversed and a column vector is left alone |
| Vectors.Flipud | src/Vector.h:984-989 | a column vector is reversed and a row vector is left alone |
| Vectors.Vector.Resize | src/Vector.h:548 | the vector has length len, keeping the first samples and filling the rest with val |
| Vectors.Resized | src/Vector.h:548 | entry i is the old sample below the old length and val beyond it |
| Vectors.Vector.Pad | src/Vector.h:557 | len copies of val are appended |
| Vectors.PadThenTrim | src/Vector.h:548-557 | padding and then resizing back to the old length restores the vector |
| Vectors.Vector.Upsample | src/Vector.h:567-582 | the samples become the upsampled sequence: sample i at i*rate+phase and zeros elsewhere |
| Vectors.UpsampledAt | src/Vector.h:567-582 | sample i of the input lands at i*rate+phase of the output |
| Vectors.UpStep | src/Vector.h:577-580 | one pass of the backwards move loop keeps the loop invariant |
| Vectors.UpDone | src/Vector.h:577-582 | when the loop stops, the buffer is the upsampled sequence |
| Vectors.UpsampleByOne | src/Vector.h:571-572 | rate 1 leaves the vector unchanged, as the early return does |
| Vectors.Vector.Downsample | src/Vector.h:592-605 | the samples become every rate-th input from phase on, length / rate of them |
| Vectors.DownsampleIndex | src/Vector.h:600-602 | every read phase + i*rate of the downsampling loop is inside the vector |
| Vectors.DownStep | src/Vector.h:600-602 | one pass of the downsampling loop keeps the loop invariant |
| Vectors.DownsampleByOne | src/Vector.h:595-596 | rate 1 leaves the vector unchanged, as the early return does |
| Vectors.DownsampleUndoesUpsample | src/Vector.h:567-605 | downsampling by the rate and phase used to upsample recovers the original |
| Vectors.Vector.Cumsum | src/Vector.h:613-620 | sample i becomes the initial value plus the sum of samples 0..i |
| Vectors.CumSumLast | src/Vector.h:613-620 | the last running sum is the initial value plus the total |
| Vectors.Vector.Diff | src/Vector.h:630-648 | without a previous value, the length-1 first differences; with one, the differences from that value, and the old last sample is handed back as the next previous value |
| Vectors.DiffUndoesCumSum | src/Vector.h:613-648 | differencing a running sum from its initial value recovers the samples |
| Vectors.CumSumUndoesDiff | src/Vector.h:613-648 | a running sum from the previous value undoes the difference |
| Vectors.SumOfDiffs | src/Vector.h:638-644 | the first k differences telescope to sample k-1 minus the previous value |
| Vectors.DiffsIsDiffFrom | src/Vector.h:630-648 | the mode without a previous value is the other mode started at the first sample, with that first entry dropped |
| Iterators.Walk.PlaceAtTracks | src/Matrix2dIterator.h:29 | the place of serial index s has serial index s and a column in range |
| Iterators.Walk.TracksUnique | src/Matrix2dIterator.h:29 | a consistent iterator state is determined by its serial index |
| Iterators.Walk.NextTracks | src/Matrix2dIterator.h:99-111 | `++` moves a consistent state to the one with the next serial index |
| Iterators.Walk.PrevTracks | src/Matrix2dIterator.h:121-132 | `--` moves a consistent state to the one with the previous serial index |
| Iterators.Walk.NextIsPlaceAt | src/Matrix2dIterator.h:99-111 | `++` lands on the place of serial index + 1 |
| Iterators.Walk.PrevIsPlaceAt | src/Matrix2dIterator.h:121-132 | `--` lands on the place of serial index - 1 |
| Iterators.Walk.PrevNext | src/Matrix2dIterator.h:99-132 | `--` undoes `++`, and `++` undoes `--` |
| Iterators.Walk.AdvanceIsPlaceAt | src/Matrix2dIterator.h:151-153 | k increments land on serial index + k |
| Iterators.Walk.RetreatIsPlaceAt | src/Matrix2dIterator.h:166-168 | k decrements land on serial index - k |
| Iterators.Walk.RowJumpIsPlaceAt | src/Matrix2dIterator.h:146-150 | each whole-row jump moves the serial index by numCols |
| Iterators.Walk.AddIsRepeatedIncrement | src/Matrix2dIterator.h:142-155 | `+= n` (row jumps, then single steps) is the same as n increments: the place at serial index + n |
| Iterators.Walk.SubIsRepeatedDecrement | src/Matrix2dIterator.h:157-170 | `-= n` is the same as n decrements: the place at serial index - n |
| Iterators.Walk.WalkFromBegin | src/Matrix2dIterator.h:38-55 | from begin, k steps reach serial index k; row-first that is offset k, column-first it is offset (k mod rows)*cols + k div rows |
| Iterators.Walk.WalkReachesEnd | src/Matrix2dIterator.h:57-66 | rows*cols steps from begin reach (numRows, 0) with offset numRows * entireRowIncrement |
| Iterators.Walk.StepBackFromEnd | src/Matrix2dIterator.h:121-132 | from a consistent end state, `--` reaches the last element |
| Iterators.Matrix2dIterator.constructor | src/Matrix2dIterator.h:38-73 | the increments for either traversal order; begin is (0, 0) at offset 0, and end is (numRows, 0) at the buffer's end |
| Iterators.Matrix2dIterator.Corrected | src/Matrix2dIterator.h:38-73 | as the constructor, but the end offset is the one the walk reaches after rows*cols steps, so the state stays consistent |
| Iterators.Matrix2dIterator.Copy | src/Matrix2dIterator.h:75-89 | the copy has the same layout and position |
| Iterators.Matrix2dIterator.Increment | src/Matrix2dIterator.h:99-111 | `++`: the walk's next place |
| Iterators.Matrix2dIterator.PostIncrement | src/Matrix2dIterator.h:113-119 | returns a copy of the old position and moves to the next place |
| Iterators.Matrix2dIterator.Decrement | src/Matrix2dIterator.h:121-132 | `--`: the walk's previous place |
| Iterators.Matrix2dIterator.PostDecrement | src/Matrix2dIterator.h:134-140 | returns a copy of the old position and moves to the previous place |
| Iterators.RowJumpsStop | src/Matrix2dIterator.h:146-150 | on a walk with columns the whole-row loop stops after diff/numCols passes |
| Iterators.RowJumpsNeverStopWithoutColumns | src/Matrix2dIterator.h:146-150 | on a walk with no columns the whole-row loop stops within no number of passes |
| Iterators.Matrix2dIterator.AddAssign | src/Matrix2dIterator.h:142-155 | `+= rhs`: rhs/numCols row jumps, then rhs mod numCols increments (by AddIsRepeatedIncrement, rhs steps forward) |
| Iterators.Matrix2dIterator.SubAssign | src/Matrix2dIterator.h:157-170 | `-= rhs`: rhs/numCols row jumps back, then rhs mod numCols decrements |
| Iterators.Matrix2dIterator.Subscript | src/Matrix2dIterator.h:184-193 | `[index]` reads the element at serial index + index of the walk |
| Iterators.Matrix2dIterator.EqualIffSameIndex | src/Matrix2dIterator.h:172-182 | for iterators on one walk, `==` holds exactly when the serial indices agree, `!=` is its negation, and `==` agrees with a zero distance and with both `<=` and `>=` |
| Iterators.ColumnEndStepBackAsWritten | src/Matrix2dIterator.h:57-66 | column-first, `--` from the end iterator yields an offset of rows*cols - 1 + (rows-1)*cols, past the buffer |
| Iterators.ColumnEndStepBackCorrected | src/Matrix2dIterator.h:57-66 | with the corrected end offset, `--` from end yields rows*cols - 1, the last element |
| Iterators.TruncDivExact | src/RowColIterator.h:104-107 | C++ integer division of an exact multiple q*b by b is q |
| Iterators.LineStep | src/RowColIterator.h:33-50 | k strides from position start of a row or column is position start + k |
| Iterators.RowColIterator.FromIterator | src/RowColIterator.h:31 | the iterator is at the given position with the given increment |
| Iterators.RowColIterator.constructor | src/RowColIterator.h:33-50 | a row walks with increment 1 from rowColNum*numCols and a column with increment numCols from rowColNum; end is numElements strides further |
| Iterators.RowColIterator.Copy | src/RowColIterator.h:52-58 | same position and increment |
| Iterators.RowColIterator.Element | src/RowColIterator.h:116-117 | `[index]` reads the buffer at offset + index*increment |
| Matrices.LineIteratorReadsEntry | src/RowColIterator.h:116-117 | on a constructed row (column) iterator over a plain matrix's buffer, `[k]` is in range and reads entry (line, k) (entry (k, line)) |
| Iterators.RowColIterator.ElementOfLine | src/RowColIterator.h:116-117 | on a row or column iterator, `[k]` is element start + k of that line |
| Iterators.RowColIterator.Increment | src/RowColIterator.h:68-71 | moves one increment forward |
| Iterators.RowColIterator.Decrement | src/RowColIterator.h:81-84 | moves one increment back |
| Iterators.RowColIterator.AddAssign | src/RowColIterator.h:94-97 | `+= rhs` moves rhs strides, the offset `[rhs]` would read |
| Iterators.RowColIterator.SubAssign | src/RowColIterator.h:99-102 | `-= rhs` moves rhs strides back |
| Iterators.RowColIterator.PostIncrementAsWritten | src/RowColIterator.h:73-79 | returns the old position but moves increment*increment positions, because `+=` scales its argument again |
| Iterators.RowColIterator.PostDecrementAsWritten | src/RowColIterator.h:86-92 | returns the old position but moves back increment*increment positions |
| Iterators.RowColIterator.PostIncrement | src/RowColIterator.h:73-79 | returns the old position and moves one stride, like `++` |
| Iterators.RowColIterator.PostDecrement | src/RowColIterator.h:86-92 | returns the old position and moves one stride back, like `--` |
| Iterators.RowColIterator.Plus | src/RowColIterator.h:120-131 | `it + n` is n strides on, and its distance from `it` is n |
| Iterators.RowColIterator.MinusSteps | src/RowColIterator.h:133-137 | `it - n` is n strides back, and its distance from `it` is -n |
| Iterators.RowColIterator.PositionsMatchDistance | src/RowColIterator.h:104-114 | on one line, position equality and ordering agree with the distance `operator-` computes |
| Iterators.ColumnPostIncrementAsWritten | src/RowColIterator.h:73-79 | on column 0 of a 3x3 matrix, post-increment jumps to offset 9 rather than 3 |
| Iterators.ColumnPostIncrementCorrected | src/RowColIterator.h:73-79 | with the corrected post-increment, it lands on offset 3 |
| Iterators.RowValueCompareAsWritten | src/RowColIterator.h:109-114 | two iterators at different places over equal values compare equal, not unequal, neither `<` nor `>`, both `<=` and `>=`, while the positions differ and one is before the other |
| Matrices.OffsetIsRowMajor | src/Matrix2d.h:34-37 | `(row, col)` is buffer offset row*numCols + col, inside the buffer, with div/mod giving back row and col; it is where the row and the column iterators put that element |
| Matrices.TransposeSwaps | src/Matrix2d.h:38-40 | on a transposed matrix, `(row, col)` reads the untransposed `(col, row)` |
| Matrices.FlattenStep | src/Matrix2d.h:97-102 | the rows written so far, plus row i, are the elements written after row i |
| Matrices.FlattenUniform | src/Matrix2d.h:97-102 | with rows of equal length, element c of row r is written at r*numCols + c |
| Matrices.FlattenPrefix | src/Matrix2d.h:97-102 | the elements written by the first i rows never exceed all of them |
| Matrices.Matrix2d.Rows | src/Matrix2d.h:34-41 | the rows read back through `operator()` form a numRows x numCols matrix |
| Matrices.Matrix2d.PlainAddressable | src/Matrix2d.h:34-37 | an untransposed matrix can read every `(row, col)` exactly when the buffer holds rows*cols samples |
| Matrices.Matrix2d.constructor | src/Matrix2d.h:78-86 | rows*cols zeros, untransposed, and the given scratch buffer or a fresh one |
| Matrices.Matrix2d.FromRows | src/Matrix2d.h:88-105 | the buffer is the rows laid end to end, zero-padded to rows*cols, with the dimensions taken from the list and from its first row |
| Matrices.CopyRow | src/Matrix2d.h:99-101 | the inner loop writes one row's values at vecIndex, after the rows already copied, leaving zeros after them, and advances vecIndex by the row's length |
| Matrices.Matrix2d.FromRowsReadsBack | src/Matrix2d.h:88-105 | for rows of equal length, `operator()` reads back exactly the initializer list |
| Matrices.Matrix2d.InitializeScratchBuf | src/Matrix2d.h:67-76 | the given scratch buffer is shared, or a fresh empty one is made; the matrix stays |
| Matrices.Matrix2d.CopyToScratchBuf | src/Matrix2d.h:58-65 | the scratch buffer afterwards holds exactly the given samples |
| Matrices.DotPlus | src/VectorMatrix.h:35-39 | a row's product is linear in the vector |
| Matrices.MatVecPlus | src/VectorMatrix.h:29-41 | the matrix–vector product is linear in the vector |
| Matrices.CDotParts | src/VectorMatrix.h:49-53 | a real row times a complex vector is the real products of the real and imaginary parts, recombined |
| Matrices.RowTimes | src/VectorMatrix.h:36-38 | the inner loop accumulates the dot product of the matrix row with the vector |
| Matrices.Multiply | src/VectorMatrix.h:29-41 | the result is a fresh column vector whose entry i is row i of the matrix times the vector |
| Matrices.RowTimesComplex | src/VectorMatrix.h:50-52 | the inner loop accumulates the complex dot product of the real row with the complex vector |
| Matrices.MultiplyComplex | src/VectorMatrix.h:43-55 | the result is a column vector whose entry i is row i times the complex vector |
| Matrices.ProductExample | test/VectorMatrixTest.cpp:12-21 | [[1,2,3],[4,5,6]] times [1,2,3] is [14, 32] |
| Matrices.ComplexProductExample | test/VectorMatrixTest.cpp:23-34 | [[1,2,3],[4,5,6]] times [1, 2+i, 3] is [14+2i, 32+5i] |

## Left out

- Floating point: samples are `real` and complex samples pairs of reals, so rounding, NaN and overflow of `T` are not modelled.
- The twiddle values: `exp(i * phinc)` with `phinc = ±2π/nfft` is a parameter (`expi`) of `Fft.KissFft.constructor`. That the transform is a DFT therefore rests on that parameter and is not stated. The model proves that the recursion, data movement and butterflies compute the stage definition.
- Fft.KissFft.Transform: requires nfft >= 2. For nfft == 1 the leaf loop as written does not stop (see Findings). Even with the leaf corrected, the single radix p == 1 then goes to `kf_bfly_generic`, which writes `(*_scratchBuf)[0]`. The constructor allocates a scratch buffer only for a last radix above 5, so without a supplied buffer that write goes through a null `shared_ptr`.
- Fft.KissFft.Transform: for nfft == 0, construction succeeds. The twiddle loop runs no pass, and the plan is the single stage (4, 0), as Factorization.Plan(0) gives. `transform` then fails: stage 0 has m == 0, not 1, so it recurses into stage 1 and reads `_stageRadix[1]` past the one-stage plan.
- Fft.KissFft.Transform: the input is one contiguous sequence read at stride fstride (src/kissfft.h:88-94). The iterator types of the original are sequences and arrays.
- Shared ownership: `shared_ptr` scratch buffers are Dafny objects that several vectors, matrices or plans may alias. Allocation failure and destructors freeing memory are not modelled.
- FftSetups.FftSetupManager: the twiddle values of each length and direction are the manager's `expi`, fixed when the manager is constructed. Every setup it builds takes its table from `expi`.
- FftSetups.FftSetupManager.GetFftSetup: requires fftLen >= 0. A negative `int` converts to a huge `size_t` in the kissfft constructor, which the model does not follow.
- FftSetups.GenKey: `fftLen * 2 + inverse` is unbounded here. The 32-bit overflow for lengths from 2^30 on (2^31 exceeds the largest `int`) is not modelled.
- The `std::map` of the cache is a sequence of entries sorted by key, with `AsMap` giving the map it stands for. Ordering is by `<` on the key, as in the map.
- FftSetups.FftSetupManager.CleanUp: the destructor's `delete` of each setup is not modelled, only the emptying of the cache.
- Vectors.Vector.Median: `std::sort` is modelled by insertion sort on a sequence. The contract fixes the result (sorted and a permutation), not the algorithm.
- Vectors.Vector.VectorRotate and Vectors.Vector.Reverse: `std::rotate` and `std::reverse` are specified by their effect on the sequence, not by the swaps they perform.
- Fft.KissFft: `print` (src/kissfft.h:166-171) writes the samples to `std::cout` for debugging and is not modelled; the model has no output.
- Other Vector operations (`/=`, negation, sum, abs, exp, log, trigonometry, floor/ceil/round, mean, var, stdDev) are outside this model. So are the constructors from a raw array and from an initializer list; the two modelled constructors take a length or a sequence of samples.
- Vector widths: `unsigned`, `int` and `uint32_t` lengths and indices are unbounded integers.
- The `Matrix2d` members `rowBegin`, `rowEnd`, `colBegin` and `colEnd` pass an argument list that no `RowColIterator` constructor accepts, so they are not part of this model. The constructor they would call is modelled directly.
- VectorMatrix's `getRows`/`getCols` are not declared by `Matrix2d`. The products use `numRows`/`numCols`.
- `ComplexVector.h` is not part of this model. The complex product takes a sequence of complex numbers and a row flag.
- Iterators.RowColIterator.constructor: `rowColNum` is a natural number. The `int` parameter could be negative, but no caller shows that.
- Iterators.Matrix2dIterator.Subscript: requires index > 0. `operator[](0)` reaches `+=` with 0 and fails its `assert(rhs > 0)`.
- Iterators.Matrix2dIterator.AddAssign and Iterators.Matrix2dIterator.SubAssign: require rhs > 0, as the source's asserts do.
- Iterators.Matrix2dIterator.AddAssign, Iterators.Matrix2dIterator.SubAssign and Iterators.Matrix2dIterator.Subscript: also require numCols > 0 (as Iterators.Walk.Shape does). On a walk with no columns the source's `while (diff >= numCols)` loop never ends (Iterators.RowJumpsNeverStopWithoutColumns), so those calls do not return and are not modelled.
- The free `operator+`/`operator-` of Matrix2dIterator are a copy followed by `+=`/`-=`, that is Copy then AddAssign/SubAssign.
- The underlying `std::vector` iterator of both iterators is the integer offset. Dereferencing is a read of the buffer at that offset.
- Matrices.Matrix2d.FromRows: requires that the rows hold at most rows*cols values in total, where cols is the length of the first row. Only a larger total writes past the buffer (undefined behaviour), and that case is excluded. Rows of unequal length within that total are modelled: `{{1,2},{3},{4,5,6}}` writes its six values into the six entries.
- Timer.h and the test-only helpers are not part of this model.

## Findings

| source | as written | input that shows it | evidently intended | confidence | as-written member | corrected member |
|---|---|---|---|---|---|---|
| src/kissfft.h:88-94 | the leaf do/while tests `++fft_out != Fout_end - 1` after the first copy | nfft == 1: the single stage has p == 1, so the test never becomes false and the copy runs past the output | copy exactly p samples for every p >= 1 | not executed | Fft.LeafLoopNeverStops | Fft.KissFft.LeafCopy |
| src/Matrix2dIterator.h:57-66 | column-first, the end iterator points at `vec.end()` (offset rows*cols) while the walk's own end is offset cols | rows 2, cols 2, column-first: `--end` subtracts rowIncrement = 1 - (rows-1)*cols = -1 from offset 4 and reads offset 5 of a 4-element buffer | end offset consistent with the walk, so `--end` is the last element | not executed | Iterators.ColumnEndStepBackAsWritten | Iterators.ColumnEndStepBackCorrected |
| src/RowColIterator.h:73-92 | post-increment and post-decrement call `+= increment`, which multiplies by increment again | column 0 of a 3x3 matrix (increment 3): `it++` moves to offset 9, not 3 | move one stride, like `++` and `--` | not executed | Iterators.ColumnPostIncrementAsWritten | Iterators.ColumnPostIncrementCorrected |
| src/RowColIterator.h:109-114 | `==`, `!=`, `<`, … compare the referenced values, not the positions | buffer [1, 1, 2, 3], row 0 of a 2x2 matrix: begin and begin+1 compare equal | compare positions, consistent with the distance `operator-` | not executed | Iterators.RowValueCompareAsWritten | Iterators.RowColIterator.PositionsMatchDistance |
