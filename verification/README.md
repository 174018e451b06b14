# The back end of the JPEG compressor, modelled and proved in Dafny

The image generator under `client/tpcw/ImgGen/ImgFiles` carries the Independent JPEG Group's compressor,
release 6b. This project models the part of it that runs from quantised coefficient blocks to the bytes of a
JPEG file, as imperative Dafny where the C code works by updating its state, and proves that the part does what
ITU-T T.81 and the code's own comments promise: what is written can be read back, in every scan kind, for every
legal script, under every pattern of output suspension.

## What is proved

* **Round trips.** A decoder written from sections F.2 and G.2 of T.81 is the independent reference. It unstuffs
  the bytes, splits them at restart markers, decodes the canonical codes and undoes the block coding.
  `RestartCoding.ScanRoundTrip` covers one scan of any kind with any restart interval;
  `ProgressiveImage.ScriptReplays` covers all scans of any accepted progressive script;
  `ProgressiveFile.FileReplays` starts from an image with its sampling factors and ends at the decoder's blocks;
  `OptimizedFile.OptimizedFileReplays` shows that, with tables made from each scan's own statistics, every image
  of blocks in range comes through; such tables are found unless a code gets longer than 32 bits, which takes
  9227465 symbols (`TwoPass.SmallScanIsShallow`). `SequentialFile.OptimizedFileIsExact` is the same for sequential
  scripts. `EncodedFile.EncodedFileReplays` asks only that the passes got through, and reorders the controller's
  blocks as the encoders do. `WholeFile.ProgressiveFileIsRead` and `WholeFile.SequentialFileIsRead` are about one
  byte stream from SOI to EOI: the decoder has the frame, and reads tables, restart intervals, scan headers and
  scans on its own.
* **Refinement.** Each encoding routine (`HuffEncoder.Encoder`, `ProgressiveEncoder.Encoder` with
  `ProgressiveAc.AcCoder`, `HuffGather.Gatherer`) is proved to emit, or count, exactly the operations that a
  short recursive specification lists (`ScanCoding`, `BandCoding`, `EobRuns`). The round trips are then proved
  of that specification, and the equality of what the two passes see comes from both being tied to it.
* **Suspension.** An MCU is encoded wholly or not at all, and the exact condition for success is stated. The
  committed bytes are a function of the accepted MCUs; the accepted MCUs are a prefix of the scan's; the rows
  consumed equal `next_scanline`, plus one while a strip waits. `HuffmanPass.OutputPass` puts the real encoder
  behind the controller, with a destination that refuses again and again: the bytes are the scan's, and the pass
  gets through exactly when it is called often enough.
* **Huffman tables.** The merge loop yields lengths that are optimal among all assignments satisfying the Kraft
  inequality; length limiting terminates with legal lengths; the result is always accepted, prefix-free, and
  without an all-ones code. The code that is given up is the pseudo-symbol's own, which is never shorter than
  another (`ReservedSymbol.ReservedIsLongest`), so that the finished table has the optimal lengths whenever none
  needed limiting. A code of length D takes a total count of F(D + 2) or more.
* **Control.** Validation accepts exactly the scripts in which each coefficient's scans form a chain; the
  standard script is one of them and sends everything; every scan is output once, in order, after its statistics;
  the whole-image buffers are full whenever a pass reads them (`CompressionRun.RunPasses`); at every SOS a
  decoder's tables are the encoder's.
* **Compactness.** Blocks without new values are collected into one EOB run up to its limits
  (`FlatScans.FlatScanIsOneRun`), and dummy blocks repeat the DC value before them (`McuLayout.DummiesRepeat`).

The modules, from the bottom up:

| modules | source | subject |
|---|---|---|
| Bits, Arithmetic, Coefficients | jutils.c | bit strings, the zigzag order, point transforms, EXTEND |
| ByteStuffing, BitWriter, OpWriter | jchuff.c | the 24-bit window, stuffing, the destination, committing |
| CodeLengths, HuffmanForest, HuffmanMerge, ReservedSymbol, CodeDepth, LengthLimit, OptimalTable | jchuff.c | optimal code lengths, how long they get, limiting, the generated table |
| HuffmanTable | jchuff.c | derived tables and the canonical decoder |
| EntropyOps, BandCoding, EobRuns, ScanCoding, IntervalRoundTrip, RestartCoding, RestartRows, FlatScans | jchuff.c, jcphuff.c | what is emitted, the decoders, the round trips |
| SequentialEncoder, HuffEncoder, SymbolCounts, EncodingPass, HuffGather, TwoPass, RangeChecks | jchuff.c | the sequential encoder, its statistics twin, their agreement |
| ProgressiveOutput, ProgressiveBands, ProgressiveAc, ProgressiveEncoder | jcphuff.c | the progressive encoder |
| ScanScript, ScriptChains, SimpleProgression, ProgressionLegal | jcmaster.c, jcparam.c | scan scripts |
| PassControl, CompressionRun | jcmaster.c, jcapimin.c, jccoefct.c | the pass state machine, and its passes run on the coefficient controller |
| MarkerSyntax, MarkerWriter, ScanHeader | jcmarker.c | tables and restart intervals as a decoder sees them |
| Geometry, McuLayout, CoefController, HuffmanPass | jcmaster.c, jccoefct.c, jchuff.c | MCUs, dummy blocks, one-pass and buffered control, a pass of the real encoder |
| RowSpec, RowControl | jcmainct.c, jcprepct.c, jcapistd.c | rows and strips |
| ProgressiveImage, ScanVisits, ScanImage, ProgressiveFile, OptimizedFile, SequentialFile, EncodedFile, FileStream, WholeFile | all of the above | from an image to a decoder's blocks |

## How to read it

A method's `ensures` ties its result to a specification function; lemmas then say what that function means. Bits
are sequences of booleans, most significant first. `ERREXIT` is a result (`Fatal`, `Bad`, `Refused`, `Rejected`)
after which the model goes no further. `put_buffer` is an unbounded number of which only the value modulo 2^24
matters, so that stale high bits survive the shifts as in C. Byte counters wrap modulo 256. A destination either
always accepts (`empties`) or has a fixed room and refuses; in `emit_byte` the last free byte already calls for
emptying, so that "has room" means one byte to spare. Blocks are handed to the encoders in natural order and
specified in zigzag order; `NaturalOrder` and `Zigzag` translate. The count tables of a pass are one map from
table numbers, and the virtual arrays are sequences of rows. Methods keep ghost fields that say what the real
fields stand for (the MCUs seen, the state they lead to); `Valid()` ties the two.

## Where code and documentation differ

* `jchuff.h:13-17` calls -1024 a legal coefficient and concludes that magnitudes fit 10 bits. As an AC value of a
  scan with Al = 0 it needs 11 and is refused: `RangeChecks.LowestAcIsRefused`. `RangeChecks.SequentialAcRange`
  and `RangeChecks.DcRange` state exactly what is accepted. No image can bring this about: the AC coefficients of
  an 8x8 block of 8-bit samples stay within about 1020, and this tree has no transcoder to supply others. The
  encoders' own condition is as stated.
* `restart_interval` is an `unsigned int`, but DRI carries 16 bits. An interval given directly as 65536 or more
  reaches the decoder truncated: `MarkerWriter.LongIntervalIsLost`. The decoder is in step exactly when the
  interval was given in rows, which is limited to 65535, or fits: `MarkerWriter.RestartInSyncIff`.
* The return value of `jpeg_write_scanlines` is documented as the number of lines written, less than the number
  given only on suspension or at the bottom of the image (`jcapistd.c:64-67`). It is never less otherwise; but it
  is 1 for no lines exactly when a strip had been refused and is taken now, since the line held back for it is
  counted in this call: `RowControl.Compressor.WriteScanlines` has the condition, `RowControl.HeldBackLine` the
  input. A caller that passes at least one line, or has no strip waiting, never gets more than it passed.
* The comment in `jcphuff.c:325` puts the safety of EOBn down to the limited correction-bit buffer; it is the
  forced flush at a run of 0x7FFF that bounds it (`ProgressiveAc.AcCoder.RunBits`, `EobRuns.PendingKept`).

## Model

| member | source | states |
|---|---|---|
| `HuffmanForest.ForestJoined` | client/tpcw/ImgGen/ImgFiles/jchuff.c:750-775 | joining two trees keeps the `others[]` chains linked, disjoint, one per nonzero frequency and together covering the live symbols, and keeps each codesize equal to a leaf depth |
| `HuffmanForest.TreeIsFull` | client/tpcw/ImgGen/ImgFiles/jchuff.c:719-776 | each chain is a full binary tree: the sum of 2^-codesize over its members is exactly 1 |
| `CodeLengths.MergedCost` | client/tpcw/ImgGen/ImgFiles/jchuff.c:753-755 | merging two symbols costs their joint frequency: what a code for the merged alphabet costs less |
| `CodeLengths.LightestLongest` | client/tpcw/ImgGen/ImgFiles/jchuff.c:728-748 | any code satisfying the Kraft inequality can be rearranged, at no cost, so that the two least frequent symbols are longest and equal |
| `CodeLengths.ReducesFurther` | client/tpcw/ImgGen/ImgFiles/jchuff.c:728-776 | after each merge: any Kraft assignment for the original counts yields one for the merged counts that costs less by at least what has been spent |
| `HuffmanMerge.SelectTwo` | client/tpcw/ImgGen/ImgFiles/jchuff.c:728-748 | the two scans find the two smallest nonzero frequencies, or that only one is left |
| `HuffmanMerge.BumpChain` | client/tpcw/ImgGen/ImgFiles/jchuff.c:757-775 | walking a chain ends at its last member and raises the codesize of its members by one and of no other symbol |
| `HuffmanMerge.MergeEnds` | client/tpcw/ImgGen/ImgFiles/jchuff.c:719-776 | with one nonzero frequency left there is one full tree over the live symbols, and its sizes minimise sum(freq * codesize) over all assignments satisfying the Kraft inequality |
| `HuffmanMerge.MergeAll` | client/tpcw/ImgGen/ImgFiles/jchuff.c:705-776 | the merge loop terminates, one nonzero frequency fewer a round, and leaves an optimal set of code lengths, pseudo-symbol 256 included: those that its tie-breaking determines |
| `HuffmanMerge.SizesAreOptimal` | client/tpcw/ImgGen/ImgFiles/jchuff.c:719-776 | for any counts within the sentinel, the lengths that the loop's tie-breaking determines are optimal |
| `ReservedSymbol.ReservedIsLongest` | client/tpcw/ImgGen/ImgFiles/jchuff.c:722-726 | whatever the counts, no code is longer than that of the pseudo-symbol 256: the choice of the larger symbol among equal frequencies keeps it the deepest, so that the code given up at the end is its own |
| `CodeDepth.UpperNotLighter` | client/tpcw/ImgGen/ImgFiles/jchuff.c:728-776 | in an optimal code a subtree is not lighter than one a level further down |
| `CodeDepth.LongNeedsMany` | client/tpcw/ImgGen/ImgFiles/jchuff.c:778-789 | an optimal code with a code of length D is for counts that add up to the Fibonacci number F(D + 2) or more |
| `CodeDepth.ShortWhenFew` | client/tpcw/ImgGen/ImgFiles/jchuff.c:778-789 | counts that add up to less than F(35) = 9227465, pseudo-symbol included, have no code above 32 bits |
| `LengthLimit.CountLengths` | client/tpcw/ImgGen/ImgFiles/jchuff.c:778-789 | bits[k] is the number of symbols of size k; refused exactly when some size is above 32 |
| `LengthLimit.ShorterCodeExists` | client/tpcw/ImgGen/ImgFiles/jchuff.c:801-806 | whenever a code is longer than 16, a usable shorter length j <= i - 2 exists above index 0 |
| `LengthLimit.DeepestPaired` | client/tpcw/ImgGen/ImgFiles/jchuff.c:801-804 | the codes of the greatest length come in pairs, so taking two never wraps a counter |
| `LengthLimit.MoveKeeps` | client/tpcw/ImgGen/ImgFiles/jchuff.c:807-811 | one step of length limiting keeps the Kraft sum at exactly 1 and the number of symbols |
| `LengthLimit.LimitLengths` | client/tpcw/ImgGen/ImgFiles/jchuff.c:801-812 | length limiting terminates; no length exceeds 16, the Kraft sum is still 1, the number of symbols the same; each step splits the longest code of at most i - 2 bits |
| `LengthLimit.ShortStay` | client/tpcw/ImgGen/ImgFiles/jchuff.c:801-812 | lengths that are all at most 16 are left alone |
| `LengthLimit.RemovePseudoSymbol` | client/tpcw/ImgGen/ImgFiles/jchuff.c:814-817 | one code of the longest length in use is dropped, all other counts stay, and that leaves Kraft slack |
| `OptimalTable.ListSymbols` | client/tpcw/ImgGen/ImgFiles/jchuff.c:822-834 | huffval lists every coded real symbol once, by increasing code length |
| `OptimalTable.FinalOwnSizes` | client/tpcw/ImgGen/ImgFiles/jchuff.c:814-834 | when no length was limited, each symbol of the finished table has a code of exactly the length that was computed for it |
| `OptimalTable.SlackIsLegal` | client/tpcw/ImgGen/ImgFiles/jchuff.c:814-820 | counts with Kraft slack yield canonical codes that fit their lengths, none of them all ones |
| `OptimalTable.TableAccepted` | client/tpcw/ImgGen/ImgFiles/jchuff.c:778-838 | a generated table passes every check of `jpeg_make_c_derived_tbl` |
| `OptimalTable.GenOptimalTable` | client/tpcw/ImgGen/ImgFiles/jchuff.c:705-839 | the lengths before limiting are optimal; the call aborts exactly when one exceeds 32; otherwise exactly the counted symbols are listed, once each, by increasing length and then number, with legal counts: those computed, shortened step by step, less one of the longest; and when none exceeds 16, each symbol's code has just its computed length |
| `HuffmanTable.MakeDerivedTbl` | client/tpcw/ImgGen/ImgFiles/jchuff.c:179-263 | accepts exactly the tables that are present and legal, and then gives each listed symbol its canonical code and all others none |
| `HuffmanTable.FillCodes` | client/tpcw/ImgGen/ImgFiles/jchuff.c:218-240 | the canonical codes are assigned, and refused exactly when some length overflows its code space |
| `HuffmanTable.CodesGrow` | client/tpcw/ImgGen/ImgFiles/jchuff.c:223-240 | codes of different lengths occupy disjoint ranges |
| `HuffmanTable.PrefixFree` | client/tpcw/ImgGen/ImgFiles/jchuff.c:223-240 | no code of an accepted table is a prefix of another |
| `HuffmanTable.NotAllOnes` | client/tpcw/ImgGen/ImgFiles/jchuff.c:232-237 | no code consists of ones only |
| `HuffmanTable.SymbolRoundTrip` | client/tpcw/ImgGen/ImgFiles/jchuff.c:179-263 | the decoding procedure of section F.2.2.3 of T.81 reads back every symbol that has a code, whatever follows it |
| `Coefficients.OrdersInverse` | client/tpcw/ImgGen/ImgFiles/jutils.c:53-64 | `jpeg_natural_order` and the zigzag order are inverse permutations of 0..63 |
| `Coefficients.ZigzagWalk` | client/tpcw/ImgGen/ImgFiles/jutils.c:53-64 | `jpeg_natural_order` is the walk along the diagonals of the block, from the DC corner, turning at its edges |
| `Coefficients.ExtendInvertsAppended` | client/tpcw/ImgGen/ImgFiles/jchuff.c:366-397 | EXTEND of section F.2.2.1 of T.81 recovers a value from its category and appended bits |
| `Coefficients.AsrIsFloor` | client/tpcw/ImgGen/ImgFiles/jcphuff.c:405-411 | the DC point transform is division by 2^Al rounded towards minus infinity |
| `BitWriter.MergeBits` | client/tpcw/ImgGen/ImgFiles/jchuff.c:311-324 | masking, counting and shifting a code into the 24-bit window appends exactly its bits, modulo 2^24 and whatever stale bits stand above |
| `BitWriter.ShiftOutByte` | client/tpcw/ImgGen/ImgFiles/jchuff.c:326-334 | the top byte of the window is the next eight bits, and `<<= 8` removes just those |
| `BitWriter.Writer.EmitBits` | client/tpcw/ImgGen/ImgFiles/jchuff.c:302-336 | output bytes and window together gain exactly the code's bits; at most 7 stay in the window; size 0 is refused; it suspends only when a refusing destination is full |
| `BitWriter.Writer.FlushBits` | client/tpcw/ImgGen/ImgFiles/jchuff.c:340-346 | the waiting bits go out filled up with ones, and the window is empty |
| `BitWriter.Destination.EmptyOutputBuffer` | client/tpcw/ImgGen/ImgFiles/jchuff.c:278-295 | a destination either takes the buffer, or refuses and changes nothing |
| `ByteStuffing.PackedHasNoMarker` | client/tpcw/ImgGen/ImgFiles/jchuff.c:326-334 | in entropy-coded output every FF is followed by 00 |
| `ByteStuffing.ReadPacked` | client/tpcw/ImgGen/ImgFiles/jchuff.c:302-346 | removing the stuffing from output up to the next marker gives the bits back |
| `BandCoding.BandSymbolsDecode` | client/tpcw/ImgGen/ImgFiles/jcphuff.c:617-738 | run/size symbols, ZRLs, sign bits and correction bits of a band decode (sections F.2.2.2 and G.2 of T.81) to the band, in first scans and in refinements |
| `BandCoding.BandMeans` | client/tpcw/ImgGen/ImgFiles/jcphuff.c:497-545 | a band has run/size symbols exactly when it has a newly nonzero value, and an EOB exactly when its last value is none |
| `BandCoding.ZrlDecodes` | client/tpcw/ImgGen/ImgFiles/jcphuff.c:672-684 | every ZRL of a run carries the correction bits of the sixteen positions it passes |
| `EobRuns.SegmentFresh` | client/tpcw/ImgGen/ImgFiles/jcphuff.c:316-339 | any sequence of blocks with EOB runs and deferred correction bits decodes to the blocks |
| `EobRuns.SegmentPending` | client/tpcw/ImgGen/ImgFiles/jcphuff.c:714-722 | the same when blocks are still pending: their correction bits are found after the EOBn symbol that ends the run |
| `EobRuns.PendingKept` | client/tpcw/ImgGen/ImgFiles/jcphuff.c:714-722 | between blocks EOBRUN <= 0x7FFE, at most 937 correction bits wait, and bits wait only during a run |
| `EobRuns.DeferredIsOneRun` | client/tpcw/ImgGen/ImgFiles/jcphuff.c:714-722 | up to 0x7FFE blocks without new values, with at most 937 correction bits in all, are one EOBn with its run bits, then the correction bits in order |
| `EobRuns.RunsCounted` | client/tpcw/ImgGen/ImgFiles/jcphuff.c:541-545 | n such blocks without correction bits take one EOBn for each 0x7FFF of them and one for the rest, a run already pending included |
| `FlatScans.FlatScanIsOneRun` | client/tpcw/ImgGen/ImgFiles/jcphuff.c:316-738 | a whole AC scan in which no value becomes nonzero is one run, up to the same limits |
| `FlatScans.FlatFirstScan` | client/tpcw/ImgGen/ImgFiles/jcphuff.c:464-561 | a first AC scan of n all-zero bands takes n / 0x7FFF EOBn symbols, rounded up |
| `IntervalRoundTrip.SequentialDecodes` | client/tpcw/ImgGen/ImgFiles/jchuff.c:353-443 | one sequential block, DC difference included, decodes to the block |
| `IntervalRoundTrip.DcRefines` | client/tpcw/ImgGen/ImgFiles/jcphuff.c:591-601 | a DC refinement bit turns what is known at Al + 1 into what is known at Al |
| `IntervalRoundTrip.AcAgrees` | client/tpcw/ImgGen/ImgFiles/jcphuff.c:476-533 | what the band symbols say of a coefficient takes a decoder from Al + 1 to Al |
| `IntervalRoundTrip.IntervalDecodes` | client/tpcw/ImgGen/ImgFiles/jcphuff.c:376-738 | one restart interval of any of the five scan kinds decodes to what was encoded |
| `RestartCoding.ScanRoundTrip` | client/tpcw/ImgGen/ImgFiles/jchuff.c:302-525 | for any MCUs and any restart interval, the bytes of a scan, unstuffed and split at RST markers cycling 0..7, decode to exactly what the scan conveys, with predictions reset |
| `RestartCoding.BytesAppend` | client/tpcw/ImgGen/ImgFiles/jchuff.c:451-470 | a scan's bytes do not depend on what was written before it |
| `RestartRows.RestartWhere` | client/tpcw/ImgGen/ImgFiles/jchuff.c:476-525 | a restart comes before every MCU whose number is a positive multiple of the interval, and before no other |
| `RestartRows.MarkerWritten` | client/tpcw/ImgGen/ImgFiles/jchuff.c:451-470 | before MCU k * interval the interval is closed and FF, D0 + (k - 1) mod 8 follows |
| `RestartRows.RestartsEndRows` | client/tpcw/ImgGen/ImgFiles/jcmaster.c:383-387 | with an interval given in MCU rows, and not cut to 16 bits, restarts come before the first MCU of every so many rows and nowhere else |
| `SequentialEncoder.EncodeOneBlock` | client/tpcw/ImgGen/ImgFiles/jchuff.c:353-443 | the DC and AC loops emit exactly the block's operations; a failure means some symbol has no code, a value is out of range, or a refusing destination is full |
| `OpWriter.EmitSymbol` | client/tpcw/ImgGen/ImgFiles/jchuff.c:302-336 | emitting a symbol extends the output by its code; a missing code is fatal |
| `OpWriter.CountBits` | client/tpcw/ImgGen/ImgFiles/jchuff.c:371-376 | the shifting loop computes the bit length |
| `HuffEncoder.Encoder.StartOutputPass` | client/tpcw/ImgGen/ImgFiles/jchuff.c:106-170 | starts exactly when every table named is in range, present and legal; nothing has been encoded, predictions are zero, the restart interval is full |
| `HuffEncoder.Encoder.EncodeMcuHuff` | client/tpcw/ImgGen/ImgFiles/jchuff.c:476-525 | all or nothing: succeeds exactly when all symbols have codes and the destination has room; refused, it leaves the encoder, its counters and the destination as they were |
| `HuffEncoder.Encoder.EmitRestart` | client/tpcw/ImgGen/ImgFiles/jchuff.c:451-470 | pads, writes RSTn and zeroes the predictions, or refuses |
| `HuffEncoder.Encoder.CountDown` | client/tpcw/ImgGen/ImgFiles/jchuff.c:512-522 | the restart counter and the marker number step as in the specification |
| `HuffEncoder.Encoder.FinishPassHuff` | client/tpcw/ImgGen/ImgFiles/jchuff.c:533-553 | the committed stream is what was there plus the scan's bytes for the MCUs accepted, for which all codes existed; otherwise JERR_CANT_SUSPEND |
| `HuffEncoder.SuspensionsLeaveNoTrace` | client/tpcw/ImgGen/ImgFiles/jchuff.c:475-525 | two passes that accepted the same MCUs agree in bytes, waiting bits, predictions and counters, whatever was refused on the way |
| `EncodingPass.PassGrows` | client/tpcw/ImgGen/ImgFiles/jchuff.c:476-525 | after each accepted MCU the state is what encoding all MCUs so far leads to |
| `EncodingPass.PassEnds` | client/tpcw/ImgGen/ImgFiles/jchuff.c:533-553 | closing the pass gives the bytes of the whole scan, all of whose operations had codes |
| `HuffGather.Gatherer.HtestOneBlock` | client/tpcw/ImgGen/ImgFiles/jchuff.c:572-640 | counts exactly the symbols that encoding the block emits; refuses exactly when a value is out of range |
| `HuffGather.Gatherer.EncodeMcuGather` | client/tpcw/ImgGen/ImgFiles/jchuff.c:645-673 | counts exactly the symbols `encode_mcu_huff` would emit for the MCU, restarts included |
| `HuffGather.Gatherer.StartGatherPass` | client/tpcw/ImgGen/ImgFiles/jchuff.c:125-158 | starts exactly when the table numbers are in range, with all counts zero |
| `HuffGather.Gatherer.FinishPassGather` | client/tpcw/ImgGen/ImgFiles/jchuff.c:846-882 | each table number used gets one table made from its counts, once; the others stay; JERR_HUFF_CLEN_OVERFLOW exactly when some component's counts lead to a code above 32 bits |
| `HuffGather.FewAreShallow` | client/tpcw/ImgGen/ImgFiles/jchuff.c:778-789 | counts that add up to less than F(35) never do |
| `TwoPass.UsedTableSpeaks` | client/tpcw/ImgGen/ImgFiles/jchuff.c:571-673 | every table a scan uses codes at least one symbol, so that optimisation has something to count |
| `TwoPass.CountsCanOptimize` | client/tpcw/ImgGen/ImgFiles/jchuff.c:705-738 | the counts of a scan in range meet what `jpeg_gen_optimal_table` demands: one symbol or more, at most 254, total within the sentinel |
| `TwoPass.SmallScanIsShallow` | client/tpcw/ImgGen/ImgFiles/jchuff.c:778-789 | for a scan of fewer than F(35) - 1 operations table generation cannot fail either |
| `TwoPass.OptimalIsLegal` | client/tpcw/ImgGen/ImgFiles/jchuff.c:836-838 | a table made from a scan's counts is accepted for the class it is used in |
| `TwoPass.TwoPassAgreement` | client/tpcw/ImgGen/ImgFiles/jchuff.c:353-673 | with tables made from a scan's statistics, everything the output pass emits has a code: JERR_HUFF_MISSING_CODE cannot occur |
| `TwoPass.EveryStepEmittable` | client/tpcw/ImgGen/ImgFiles/jchuff.c:476-525 | hence no single MCU of the output pass can fail for want of a code |
| `TwoPass.GatheredAll` | client/tpcw/ImgGen/ImgFiles/jchuff.c:645-673 | after the statistics pass the counts are those of the whole scan |
| `RangeChecks.DcRange` | client/tpcw/ImgGen/ImgFiles/jchuff.c:380-384 | JERR_BAD_DCT_COEF for DC exactly when the difference is 2048 or more in magnitude |
| `RangeChecks.SequentialAcRange` | client/tpcw/ImgGen/ImgFiles/jchuff.c:415-421 | JERR_BAD_DCT_COEF for AC exactly when a magnitude is 1024 or more |
| `RangeChecks.LowestAcIsRefused` | client/tpcw/ImgGen/ImgFiles/jchuff.h:13-17 | -1024, documented as legal, is refused as an AC value |
| `RangeChecks.FittingScanInRange` | client/tpcw/ImgGen/ImgFiles/jchuff.c:371-421 | DC in -1024..1023 and AC magnitudes below 1024 can never be refused, in any scan kind |
| `ProgressiveOutput.Emitter.EmitBufferedBits` | client/tpcw/ImgGen/ImgFiles/jcphuff.c:297-309 | the buffered correction bits go out in order; nothing is written while gathering |
| `ProgressiveOutput.Emitter.EmitSymbol` | client/tpcw/ImgGen/ImgFiles/jcphuff.c:281-289 | counts the symbol or emits its code, as the pass demands |
| `ProgressiveAc.AcCoder.RunBits` | client/tpcw/ImgGen/ImgFiles/jcphuff.c:321-327 | the EOBn category of a run is below 15: the nbits > 14 check cannot fire |
| `ProgressiveAc.AcCoder.EmitEobrun` | client/tpcw/ImgGen/ImgFiles/jcphuff.c:316-339 | EOBn, its extra bits and all deferred correction bits, after which nothing is pending |
| `ProgressiveAc.AcCoder.PutBit` | client/tpcw/ImgGen/ImgFiles/jcphuff.c:690-694 | the correction bit goes behind the pending ones, always below index 1000 |
| `ProgressiveAc.AcCoder.EncodeAcFirst` | client/tpcw/ImgGen/ImgFiles/jcphuff.c:464-561 | emits exactly the operations of a first AC scan's block, and leaves exactly its pending run |
| `ProgressiveAc.AcCoder.PrePass` | client/tpcw/ImgGen/ImgFiles/jcphuff.c:642-658 | absolute values after the point transform, and the last newly nonzero position |
| `ProgressiveAc.AcCoder.EncodeAcRefine` | client/tpcw/ImgGen/ImgFiles/jcphuff.c:618-738 | emits exactly the operations of a refinement's block, ZRLs folded into the EOB where they may be; pending bits are never overwritten |
| `ProgressiveBands.ProgressZrl` | client/tpcw/ImgGen/ImgFiles/jcphuff.c:672-684 | after a ZRL is emitted, what was sent plus what is still to send is unchanged |
| `ProgressiveBands.ProgressNew` | client/tpcw/ImgGen/ImgFiles/jcphuff.c:696-711 | the same after a newly nonzero coefficient with its sign and correction bits |
| `ProgressiveEncoder.Encoder.EncodeDcFirst` | client/tpcw/ImgGen/ImgFiles/jcphuff.c:377-455 | emits exactly the differences of the point-transformed DC values |
| `ProgressiveEncoder.Encoder.EncodeDcRefine` | client/tpcw/ImgGen/ImgFiles/jcphuff.c:571-610 | emits bit Al of every DC value |
| `ProgressiveEncoder.Encoder.EmitRestart` | client/tpcw/ImgGen/ImgFiles/jcphuff.c:347-371 | pending EOB run first, then padding, RSTn and a fresh state |
| `ProgressiveEncoder.Encoder.EncodeMcu` | client/tpcw/ImgGen/ImgFiles/jcphuff.c:376-738 | succeeds exactly when the MCU is acceptable; the state is then what encoding all MCUs so far leads to, written or counted |
| `ProgressiveEncoder.Encoder.FinishPass` | client/tpcw/ImgGen/ImgFiles/jcphuff.c:746-760 | the committed stream is what was there plus the scan's bytes; fails only for a missing EOBn code or a refusing destination |
| `ProgressiveEncoder.Encoder.FinishPassGather` | client/tpcw/ImgGen/ImgFiles/jcphuff.c:767-806 | the pending run is counted too, and each table number used gets one table made from the counts of the whole scan; it fails exactly when one of them is too deep |
| `ProgressiveEncoder.StartPass` | client/tpcw/ImgGen/ImgFiles/jcphuff.c:106-193 | starts exactly when the tables needed are usable, or the numbers in range when gathering |
| `ProgressiveImage.BlockStep` | client/tpcw/ImgGen/ImgFiles/jcphuff.c:376-738 | one scan takes what a decoder knows of a block to what the script says next |
| `ProgressiveImage.StepReplays` | client/tpcw/ImgGen/ImgFiles/jcphuff.c:376-738 | one whole scan does so for every real block of the image |
| `ProgressiveImage.ScriptReplays` | client/tpcw/ImgGen/ImgFiles/jcphuff.c:376-738 | replaying all scans of any accepted script, a decoder ends with DC values shifted arithmetically by their final Al, AC values as sign and shifted magnitude, coefficients never sent zero |
| `ProgressiveImage.CompleteIsExact` | client/tpcw/ImgGen/ImgFiles/jcphuff.c:376-738 | when everything was sent to Al = 0 the decoder has the very blocks |
| `ScanVisits.VisitedRows` | client/tpcw/ImgGen/ImgFiles/jccoefct.c:165-215 | the places visited by a scan's rows of MCUs are exactly those inside its padded components |
| `ScanVisits.VisitRowsOnce` | client/tpcw/ImgGen/ImgFiles/jccoefct.c:165-215 | no place is visited twice in a scan |
| `ScanVisits.VisitedInOrder` | client/tpcw/ImgGen/ImgFiles/jccoefct.c:143-218 | the order of section A.2 of T.81: MCUs from left to right and top to bottom, and within an MCU component after component, each with its h by v blocks row by row |
| `ScanImage.PassVisitsAll` | client/tpcw/ImgGen/ImgFiles/jccoefct.c:143-218 | what a pass hands to the entropy coder is what lies at the scan's places, in visiting order |
| `ProgressiveFile.McuFitsMembers` | client/tpcw/ImgGen/ImgFiles/jcmaster.c:360-379 | the blocks of each MCU belong to the components that MCU_membership lists |
| `ProgressiveFile.FileReplays` | client/tpcw/ImgGen/ImgFiles/jcphuff.c:376-738 | for any image geometry and any progressive script that validation accepts, the scans made of the image give a decoder every block as far as the script sends it |
| `ProgressiveFile.CompleteFileIsExact` | client/tpcw/ImgGen/ImgFiles/jcphuff.c:376-738 | and the very blocks when the script sends everything |
| `OptimizedFile.OptimizedIsMade` | client/tpcw/ImgGen/ImgFiles/jcphuff.c:767-806 | with tables from its own statistics no scan of an image in range can fail for want of a code, dummy blocks included |
| `OptimizedFile.OptimizedFileReplays` | client/tpcw/ImgGen/ImgFiles/jcphuff.c:376-738 | the file theorem for every image of blocks in range, with optimised tables: with tables made from each scan's statistics |
| `OptimizedFile.RecommendedFileIsExact` | client/tpcw/ImgGen/ImgFiles/jcparam.c:537-608 | with the script of `jpeg_simple_progression` the decoder gets back the very image |
| `OptimizedFile.OptimizedScanRoundTrips` | client/tpcw/ImgGen/ImgFiles/jchuff.c:353-673 | an optimised sequential scan of blocks in range, with any restart interval, cannot fail for want of a code and decodes to its blocks |
| `SequentialFile.SequentialFileIsExact` | client/tpcw/ImgGen/ImgFiles/jchuff.c:302-525 | for any image geometry and any sequential script that validation accepts, replaying the scans gives a decoder every block of every component |
| `SequentialFile.OptimizedFileIsExact` | client/tpcw/ImgGen/ImgFiles/jchuff.c:302-673 | the same for every image of blocks in range, with tables made from each scan's statistics |
| `EncodedFile.HandedInZigzag` | client/tpcw/ImgGen/ImgFiles/jccoefct.c:143-218 | reordering each block after it was handed over gives the same MCUs as a layout of reordered blocks: dummy blocks survive the zigzag |
| `EncodedFile.FinishedIsMade` | client/tpcw/ImgGen/ImgFiles/jcphuff.c:746-760 | a pass that accepted the scan's MCUs and finished, sequential or progressive, has made the scan that the decoder is to read |
| `EncodedFile.EncodedFileReplays` | client/tpcw/ImgGen/ImgFiles/jcphuff.c:376-760 | whatever the image, the accepted progressive script and the tables: if every pass got through, a decoder has every block as far as the script sends it |
| `EncodedFile.CompleteEncodedFile` | client/tpcw/ImgGen/ImgFiles/jcphuff.c:376-760 | and, when the script sends everything, the controller's blocks after undoing the zigzag |
| `ScanHeader.AlikeScan` | client/tpcw/ImgGen/ImgFiles/jcmarker.c:308-345 | the table numbers that SOS leaves out do not matter for decoding the scan |
| `FileStream.HeaderMeans` | client/tpcw/ImgGen/ImgFiles/jcmarker.c:308-345 | from the frame and the scan header a decoder derives the scan's components, MCU structure, kind, tables and restart interval |
| `FileStream.StreamReplays` | client/tpcw/ImgGen/ImgFiles/jcmarker.c:551-594 | reading headers and scans in turn from one stream replays the scans |
| `WholeFile.ProgressiveFileIsRead` | client/tpcw/ImgGen/ImgFiles/jcmarker.c:469-594 | one byte stream from SOI to EOI: a decoder that has only the frame reads the tables, intervals and scans of a progressive file and gets every block as far as the script sends it |
| `WholeFile.SequentialFileIsRead` | client/tpcw/ImgGen/ImgFiles/jcmarker.c:469-594 | the same for sequential files: it gets back every block |
| `WholeFile.DefinedAreUsed` | client/tpcw/ImgGen/ImgFiles/jcmarker.c:564-579 | the header defines exactly the tables that the scan codes symbols with |
| `WholeFile.FileEnds` | client/tpcw/ImgGen/ImgFiles/jcmarker.c:469-606 | a file begins with FF D8 and ends with FF D9 |
| `ScanScript.ValidateScript` | client/tpcw/ImgGen/ImgFiles/jcmaster.c:130-261 | accepts exactly the legal scripts |
| `ScriptChains.AcceptedIffChained` | client/tpcw/ImgGen/ImgFiles/jcmaster.c:129-261 | progressive scripts are accepted exactly when every coefficient's scans start with Ah = 0 and go on with Ah = previous Al, Al = Ah - 1, AC follows DC, AC scans have one component, and every component gets DC |
| `ScriptChains.LaterIsLower` | client/tpcw/ImgGen/ImgFiles/jcmaster.c:200-219 | a later scan of a coefficient has a lower Al |
| `ScriptChains.PlaneSentOnce` | client/tpcw/ImgGen/ImgFiles/jcmaster.c:200-219 | no bit plane of a coefficient is sent twice |
| `ScriptChains.PlanesSent` | client/tpcw/ImgGen/ImgFiles/jcmaster.c:200-219 | every bit plane down to the final Al is sent |
| `ScriptChains.DispatchIsSound` | client/tpcw/ImgGen/ImgFiles/jcphuff.c:116-137 | `start_pass_phuff` picks a first routine exactly for coefficients not sent before, a refinement for the others |
| `SimpleProgression.SimpleProgression` | client/tpcw/ImgGen/ImgFiles/jcparam.c:537-608 | ten entries for YCbCr, 6n or 2 + 4n for n other components; exactly as many are filled as were computed, as the plans say |
| `SimpleProgression.FillScans` | client/tpcw/ImgGen/ImgFiles/jcparam.c:490-503 | one entry per component, in order |
| `SimpleProgression.FillDcScans` | client/tpcw/ImgGen/ImgFiles/jcparam.c:509-530 | one interleaved entry, or one per component if there are more than four |
| `ProgressionLegal.RecommendedIsComplete` | client/tpcw/ImgGen/ImgFiles/jcparam.c:537-608 | the script is accepted as progressive, and afterwards every coefficient of every component has final Al = 0 |
| `PassControl.Master.PrepareForPass` | client/tpcw/ImgGen/ImgFiles/jcmaster.c:401-475 | starts the pass in the right mode, for statistics or output, with the headers due then; keeps pass_number = 2 * scan_number, plus one before an output pass, under optimisation; skips statistics for DC refinements |
| `PassControl.Master.FinishPass` | client/tpcw/ImgGen/ImgFiles/jcmaster.c:503-535 | ends each pass with the counters of the next |
| `PassControl.Master.Compress` | client/tpcw/ImgGen/ImgFiles/jcapimin.c:147-181 | a whole compression runs through exactly the intended course of events and ends; total_passes - pass_number decreases; no pass works from buffers that no pass has filled |
| `PassControl.EachScanOnce` | client/tpcw/ImgGen/ImgFiles/jcmaster.c:401-535 | scans 0, 1, 2, ... are output once each, in order, with one frame header |
| `PassControl.GatheredFirst` | client/tpcw/ImgGen/ImgFiles/jcmaster.c:411-456 | an optimised scan other than a DC refinement has its statistics gathered right before it is output |
| `PassControl.FrameFirst` | client/tpcw/ImgGen/ImgFiles/jcmaster.c:447-453 | the frame header precedes the first scan header |
| `PassControl.BuffersAreFilled` | client/tpcw/ImgGen/ImgFiles/jcmaster.c:419-421 | every pass over the whole-image buffers comes after the one pass that fills them, which is the first pass of all; an image that is not buffered has one pass |
| `CompressionRun.RunPasses` | client/tpcw/ImgGen/ImgFiles/jcmaster.c:401-475 | all passes of a compression, run on the coefficient controller in the modes that the master chose: the buffers are full whenever a pass reads them, each pass hands over the MCUs of its scan, and all get through when no coder refuses more often than the calls allow for |
| `MarkerSyntax.CanonicalServes` | client/tpcw/ImgGen/ImgFiles/jcmarker.c:184-218 | a table as a decoder reads it from DHT gives the same codes |
| `MarkerSyntax.ReadDht` | client/tpcw/ImgGen/ImgFiles/jcmarker.c:184-218 | a decoder reading a DHT segment defines exactly that table |
| `MarkerSyntax.ReadSosSegment` | client/tpcw/ImgGen/ImgFiles/jcmarker.c:308-345 | and reading an SOS segment it finds the scan's selectors and parameters |
| `MarkerSyntax.DhtBytewise` | client/tpcw/ImgGen/ImgFiles/jcmarker.c:184-218 | the bytes of a DHT segment are those of section B.2.4.2 of T.81 |
| `MarkerSyntax.DriBytewise` | client/tpcw/ImgGen/ImgFiles/jcmarker.c:265-273 | the bytes of a DRI segment are those of section B.2.4.4 |
| `MarkerSyntax.SosBytewise` | client/tpcw/ImgGen/ImgFiles/jcmarker.c:308-345 | the bytes of an SOS segment are those of section B.2.3 |
| `MarkerWriter.Markers.EmitDht` | client/tpcw/ImgGen/ImgFiles/jcmarker.c:184-218 | a table goes out once until it is replaced; a missing one is an error |
| `MarkerWriter.Markers.EmitDriIfNew` | client/tpcw/ImgGen/ImgFiles/jcmarker.c:587-590 | DRI only when the interval differs from the last one written |
| `MarkerWriter.Markers.WriteFileHeader` | client/tpcw/ImgGen/ImgFiles/jcmarker.c:469-486 | SOI resets the restart interval on both sides |
| `MarkerWriter.Markers.WriteScanHeader` | client/tpcw/ImgGen/ImgFiles/jcmarker.c:551-594 | afterwards a decoder of everything so far stands at the scan with the current contents of all tables the scan uses, and the restart interval modulo 2^16 |
| `MarkerWriter.Markers.WriteMarker` | client/tpcw/ImgGen/ImgFiles/jcapimin.c:192-208 | the segment is written as it is given, whatever the marker; refused exactly above 65533 bytes; COM, APPn and others that a decoder passes over change nothing it remembers |
| `MarkerWriter.Markers.SuppressTables` | client/tpcw/ImgGen/ImgFiles/jcapimin.c:119-138 | after `jpeg_suppress_tables(FALSE)` the sent flags are right for any decoder |
| `MarkerWriter.Markers.ReplaceTable` | client/tpcw/ImgGen/ImgFiles/jchuff.c:836-837 | replacing a table clears its sent flag, which keeps sent tables equal to what the decoder has |
| `MarkerWriter.HeaderRead` | client/tpcw/ImgGen/ImgFiles/jcmarker.c:551-594 | at every SOS the decoder has the current contents of every table the scan uses, and sent flags stay truthful |
| `MarkerWriter.NeededMeans` | client/tpcw/ImgGen/ImgFiles/jcmarker.c:564-579 | the tables defined for a scan: DC tables when it begins DC coefficients, AC tables when it has any |
| `MarkerWriter.RestartInSyncIff` | client/tpcw/ImgGen/ImgFiles/jcmarker.c:265-273 | the decoder's restart interval is the encoder's exactly when it was given in rows or is below 65536 |
| `MarkerWriter.LongIntervalIsLost` | client/tpcw/ImgGen/ImgFiles/jcmarker.c:265-273 | an interval of 65536 MCUs is announced as none |
| `MarkerWriter.DecoderIsTied` | client/tpcw/ImgGen/ImgFiles/jcmarker.c:551-594 | codes derived from the encoder's tables are tied to the decoder's tables, as the round trips presuppose |
| `Geometry.NestedCeiling` | client/tpcw/ImgGen/ImgFiles/jcmaster.c:94-109 | rounding up to blocks and then to MCUs is rounding up to MCUs at once |
| `Geometry.McusHoldBlocks` | client/tpcw/ImgGen/ImgFiles/jcmaster.c:341-379 | MCUs_per_row * h and total_iMCU_rows * v exceed the size in blocks by exactly the dummies |
| `Geometry.InitialSetup` | client/tpcw/ImgGen/ImgFiles/jcmaster.c:46-123 | accepts exactly the images in bounds, of the precision compiled in; the largest factors, and each component's size in blocks |
| `Geometry.PerScanSetup` | client/tpcw/ImgGen/ImgFiles/jcmaster.c:308-391 | accepts exactly one to four components with at most ten blocks per MCU, lays out the MCU, and converts an interval given in rows |
| `McuLayout.RealRow` | client/tpcw/ImgGen/ImgFiles/jccoefct.c:175-177 | the test for a real row is right: bottom dummies only beyond the last row of blocks |
| `McuLayout.RealCols` | client/tpcw/ImgGen/ImgFiles/jccoefct.c:170-171 | the number of real columns of an MCU is right at the right edge |
| `McuLayout.DummiesRepeat` | client/tpcw/ImgGen/ImgFiles/jccoefct.c:158-200 | every block of an MCU that the image does not have has no AC values and the DC of the block before it in the MCU; scans of one component have none |
| `CoefController.Controller.BuildMcu` | client/tpcw/ImgGen/ImgFiles/jccoefct.c:160-200 | an MCU of `compress_data` is the padded image's MCU, dummies with their copied DC values included |
| `CoefController.Controller.CompressData` | client/tpcw/ImgGen/ImgFiles/jccoefct.c:143-218 | exactly the MCUs before the saved position have been accepted, in order; it gets through the iMCU row exactly when nothing is refused, and one refusal ends it |
| `CoefController.Controller.SaveStrip` | client/tpcw/ImgGen/ImgFiles/jccoefct.c:245-318 | an iMCU row of all components is saved with right and bottom dummies |
| `CoefController.Controller.CompressFirstPass` | client/tpcw/ImgGen/ImgFiles/jccoefct.c:245-326 | the rows are saved, again after a suspension, and the MCUs handed over up to a refusal |
| `CoefController.Controller.CompressOutput` | client/tpcw/ImgGen/ImgFiles/jccoefct.c:341-395 | the MCUs from the virtual arrays are those `compress_data` would build; it gets through the iMCU row exactly when nothing is refused |
| `CoefController.Controller.RunPass` | client/tpcw/ImgGen/ImgFiles/jccoefct.c:143-395 | single-pass, save-and-pass and output passes hand over the same MCU sequence, whatever the coder refuses, and get through exactly when the calls suffice for the iMCU rows and the refusals; only save-and-pass changes the buffers, and leaves them full |
| `HuffmanPass.OutputPass` | client/tpcw/ImgGen/ImgFiles/jchuff.c:475-553 | the sequential encoder behind the controller, with room made in the destination after each refusal: a pass that gets through appends exactly the scan's bytes, whatever was refused; it aborts only over a scan with a missing code |
| `RowControl.ExpandBottomEdge` | client/tpcw/ImgGen/ImgFiles/jcprepct.c:106-116 | the last row is repeated down to the required count |
| `RowControl.Prep.PreProcessData` | client/tpcw/ImgGen/ImgFiles/jcprepct.c:128-185 | groups of rows are delivered in order, padded at the bottom of the image only, and the last strip to its full height |
| `RowSpec.BottomRows` | client/tpcw/ImgGen/ImgFiles/jcprepct.c:106-182 | a strip has eight groups; below the last group of the image, every row of every component is that component's last row there |
| `RowControl.MainController.Offer` | client/tpcw/ImgGen/ImgFiles/jcmainct.c:132-156 | a refused strip holds back one line, once; when it is taken the line is counted |
| `RowControl.MainController.ProcessData` | client/tpcw/ImgGen/ImgFiles/jcmainct.c:113-158 | rows taken are those the application is told of, and one more while a strip waits; a call ends with all its lines taken or with one refusal; more lines than given are counted exactly when none were and a waiting strip is taken |
| `RowControl.Compressor.WriteScanlines` | client/tpcw/ImgGen/ImgFiles/jcapistd.c:64-112 | fewer lines are written only on suspension or at the bottom of the image; more than given exactly when none were and a waiting strip is taken now; next_scanline, the preprocessor and the compressor stay in step |
| `RowControl.HeldBackLine` | client/tpcw/ImgGen/ImgFiles/jcapistd.c:64-112 | an image of one line: the first call writes 0 of 1 line, the second 1 of none |
| `RowControl.Compressor.AllWritten` | client/tpcw/ImgGen/ImgFiles/jcapistd.c:77-112 | when next_scanline reaches the height every strip of the image has been taken |
| `RowControl.Compressor.WaitingMeansUnwritten` | client/tpcw/ImgGen/ImgFiles/jcmainct.c:135-146 | while a strip waits the application still has a scanline to present |

## Left out

- The constant for 12-bit samples: everything is modelled for `BITS_IN_JSAMPLE == 8`.
- DCT, quantisation, colour conversion and downsampling: blocks start out quantised, and the row controllers treat conversion and downsampling as uninterpreted functions of rows.
- Context rows and input smoothing (`pre_process_context`), `jpeg_write_raw_data`, the full main buffer, arithmetic coding and transcoding.
- DQT and the contents of SOF, APPn and COM segments: they are segments that a decoder's tables pass over. Quantisation tables are not tracked.
- Abbreviated streams: table synchrony is stated for tables that were not suppressed.
- Progress monitoring, tracing and warnings; allocation always succeeds; C's `long` and pointers have no bounds of their own.
- Optimality after length limiting: the source itself says that the adjustment is not optimal (`jchuff.c:692-701`).
- OptimalTable.GenOptimalTable: demands what the loops demand: at least one symbol, at most 254, and a total of at most 10^9 with the pseudo-symbol. `TwoPass.CountsCanOptimize` shows that every scan meets the first two, and the third unless it emits 10^9 operations.
- HuffGather.FewAreShallow: is one-sided; which counts lead to a longer code is stated by the lengths themselves (`HuffGather.TooDeep`), not in closed form.
- BitWriter.Destination.EmptyOutputBuffer: a destination dumps always or refuses always; one that does now this, now that is not modelled. Within one MCU the source does not support it: what was dumped before a refusal would be written again. Between calls the room may grow (`MakeRoom`).
- CoefController.McuSink.EncodeMcu: is the sequential encoder, or any other coder with arbitrary answers. The progressive coder cannot suspend and aborts instead.
- RowControl.StripSink.CompressData: the strips that the row controllers deliver and the blocks that the coefficient controller starts from are joined by the DCT, so that the two are not composed.
- CompressionRun.RunPasses: takes the course of events that the master is proved to run through (`PassControl.Master.Compress`), with a coder of arbitrary answers for each pass; tables and headers are left to the modules that have them.
- RowControl.Prep.PadStrip: fills row group by row group what the source fills with one `expand_bottom_edge` call for each component.
- CoefController.Controller.RunPass: ends after `patience` calls when the coder keeps refusing, because nothing in the source bounds the number of refusals.
- CoefController.Controller.SaveStrip: virtual arrays are sequences of rows, so that swapping to backing store is not modelled.
- HuffGather.Gatherer.EncodeMcuGather: count tables are a map of value sequences; their reuse between passes is the zeroing at the start of a pass.
- ProgressiveEncoder.Encoder.EncodeMcu: when gathering, the source also copies the destination's pointers in and out; since nothing is written the model leaves the destination alone.
- WholeFile.ProgressiveFileIsRead: the decoder is given what SOF says (sampling factors, size, component identifiers, process); other segments before the first scan are passed over.
- ScanScript.ValidateScript: the entries of a script are values; a missing `scan_info` pointer is an empty script.
