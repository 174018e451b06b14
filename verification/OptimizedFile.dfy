/** Progressive files as the compressor makes them: every scan with Huffman tables made from its own
    statistics. For an image in range nothing can go wrong in an output pass. */
module OptimizedFile {
  import opened Bits
  import opened Coefficients
  import opened Geometry
  import opened McuLayout
  import opened ScanVisits
  import opened ScanImage
  import opened ProgressiveFile
  import opened RangeChecks
  import ScanScript
  import SimpleProgression
  import ProgressionLegal
  import ScanCoding
  import EntropyOps
  import ByteStuffing
  import IntervalRoundTrip
  import RestartCoding
  import SymbolCounts
  import TwoPass
  import P = ProgressiveImage

  /** A block whose values every encoder accepts at any Al. */
  predicate InRangeBlock(z: Block) {
    DcFits(z[0]) && forall k :: 1 <= k < DCTSIZE2 ==> Abs(z[k]) < AC_LIMIT
  }

  ghost predicate PlaneInRange(p: Plane) {
    forall r, c :: 0 <= r < |p| && 0 <= c < |p[r]| ==> InRangeBlock(p[r][c])
  }

  lemma DummyInRange(z: Block)
    requires InRangeBlock(z)
    ensures InRangeBlock(Dummy(z[0]))
  {}

  lemma {:induction false} PaddedInRange(p: Plane, c: Component, row: nat, col: nat)
    requires PlaneOk(p, c) && PlaneInRange(p)
    ensures InRangeBlock(Padded(p, c, row, col))
    decreases row
  {
    hide InRangeBlock, Dummy;
    if row < c.heightInBlocks {
      DummyInRange(p[row][c.widthInBlocks - 1]);
    } else {
      var above := (col / c.h) * c.h + (c.h - 1);
      PaddedInRange(p, c, row - 1, above);
      DummyInRange(Padded(p, c, row - 1, above));
    }
  }

  lemma {:induction false} ShrSmaller(v: nat, k: nat)
    ensures Shr(v, k) <= v
  {
    if k > 0 {
      ShrSmaller(v / 2, k - 1);
    }
  }

  lemma FitsAnyScan(scan: ScanCoding.Scan, z: Block)
    requires scan.Wf() && InRangeBlock(z)
    ensures BlockFits(scan, z)
  {
    if scan.kind.AcFirst? {
      forall k | scan.ss <= k <= scan.se && k < DCTSIZE2
        ensures Shr(Abs(z[k]), scan.al) < AC_LIMIT
      {
        ShrSmaller(Abs(z[k]), scan.al);
      }
    }
  }

  lemma McusInRange(scan: ScanCoding.Scan, mcus: seq<ScanCoding.Mcu>)
    requires scan.Wf() && ScanCoding.McusFit(scan, mcus)
    requires forall i, j :: 0 <= i < |mcus| && 0 <= j < |mcus[i]| ==> InRangeBlock(mcus[i][j])
    ensures SymbolCounts.InRange(RestartCoding.ScanOps(scan, mcus))
  {
    hide InRangeBlock, BlockFits, SymbolCounts.InRange, RestartCoding.ScanOps;
    forall i, j | 0 <= i < |mcus| && 0 <= j < |mcus[i]|
      ensures BlockFits(scan, mcus[i][j])
    {
      FitsAnyScan(scan, mcus[i][j]);
    }
    FittingScanInRange(scan, mcus);
  }

  ghost predicate ImageInRange(planes: seq<Plane>) {
    forall ci :: 0 <= ci < |planes| ==> PlaneInRange(planes[ci])
  }

  /** All that the coefficient controller hands over is in range, dummy blocks included. */
  lemma HandedInRange(s: P.Step, im: Image, planes: seq<Plane>)
    requires PlanesOk(im, planes) && StepLaid(s, im, planes) && ImageInRange(planes)
    ensures SymbolCounts.InRange(RestartCoding.ScanOps(s.scan, HandedMcus(s, im, planes)))
  {
    hide InRangeBlock, BlockFits, Padded, LayoutVisits, CeilDiv, LastOf, SymbolCounts.InRange, RestartCoding.ScanOps, EntropyOps.Tied, TwoPass.BookCovers;
    LayoutIsOk(im, planes, s.info);
    var k := LayoutOf(im, planes, s.info);
    PassVisitsAll(k);
    var mcus := HandedMcus(s, im, planes);
    forall i, j | 0 <= i < |mcus| && 0 <= j < |mcus[i]|
      ensures InRangeBlock(mcus[i][j])
    {
      PlaceInRange(k, LayoutVisits(k)[i][j]);
    }
    McusInRange(s.scan, mcus);
  }

  lemma PlaceInRange(k: Layout, q: P.Ref)
    requires k.Ok() && ImageInRange(k.planes)
    ensures InRangeBlock(BlockOf(k, q))
  {
    hide Padded;
    if q.c < |k.im.comps| {
      PaddedInRange(k.planes[q.c], k.im.comps[q.c], q.b.row, q.b.col);
    }
  }

  // ----- tables made from the scan's own statistics -----

  function NamedTables(scan: ScanCoding.Scan): (ts: set<EntropyOps.TableId>)
    ensures forall t: EntropyOps.TableId :: t in ts <==> t.no in if t.isAC then scan.acTbl else scan.dcTbl
  {
    (set no | no in scan.dcTbl :: EntropyOps.TableId(false, no)) + (set no | no in scan.acTbl :: EntropyOps.TableId(true, no))
  }

  /** The count tables of a scan when its statistics pass starts. */
  function Zeroes(scan: ScanCoding.Scan): SymbolCounts.Statistics {
    map t | t in NamedTables(scan) :: SymbolCounts.NoCounts()
  }

  ghost predicate TablesOptimal(s: P.Step, im: Image, planes: seq<Plane>)
    requires PlanesOk(im, planes) && StepLaid(s, im, planes)
  {
    TwoPass.OptimalFor(s.scan, SymbolCounts.Tally(Zeroes(s.scan), RestartCoding.ScanOps(s.scan, HandedMcus(s, im, planes))), s.tabs)
  }

  lemma ZeroesStart(scan: ScanCoding.Scan)
    ensures SymbolCounts.CountsOk(Zeroes(scan))
    ensures forall t :: TwoPass.Uses(scan, t) ==> t in Zeroes(scan) && Zeroes(scan)[t] == SymbolCounts.NoCounts()
  {}

  /** The output pass of an optimised scan of an image in range cannot fail. */
  lemma OptimizedIsMade(s: P.Step, im: Image, planes: seq<Plane>)
    requires PlanesOk(im, planes) && StepLaid(s, im, planes) && ImageInRange(planes) && TablesOptimal(s, im, planes)
    ensures StepMade(s, im, planes)
  {
    hide SymbolCounts.InRange, SymbolCounts.Tally, SymbolCounts.CountsOk, RestartCoding.ScanOps, Zeroes, TwoPass.OptimalFor, TwoPass.Uses,
         TwoPass.BookCovers, EntropyOps.Tied, EntropyOps.Emittable, ScanCoding.McusFit, HandedMcus, LayoutVisits, CeilDiv, LastOf;
    HandedInRange(s, im, planes);
    ZeroesStart(s.scan);
    TwoPass.TwoPassAgreement(s.scan, HandedMcus(s, im, planes), Zeroes(s.scan), s.tabs, s.book);
  }

  ghost predicate FileOptimized(steps: seq<P.Step>, script: seq<ScanScript.ScanInfo>, im: Image, planes: seq<Plane>) {
    && PlanesOk(im, planes) && ImageInRange(planes) && |steps| == |script|
    && forall i :: 0 <= i < |script| ==>
         steps[i].info == script[i] && P.Matches(steps[i].scan, steps[i].info) && StepLaid(steps[i], im, planes) && TablesOptimal(steps[i], im, planes)
  }

  /** For every progressive script that validation accepts and every image of blocks in range: with each
      scan's tables made from its own statistics, a decoder replaying the file recovers each coefficient of
      each block exactly as far as the script sends it. */
  lemma OptimizedFileReplays(im: Image, planes: seq<Plane>, script: seq<ScanScript.ScanInfo>, steps: seq<P.Step>)
    returns (held: P.Grid, tail: seq<ByteStuffing.byte>)
    requires FileOptimized(steps, script, im, planes) && ScanScript.LegalScript(script, |im.comps|) && ScanScript.IsProgressive(script)
    ensures P.Replay(PaddedImage(im, planes), steps) == P.ReadDone(held, tail)
    ensures forall c: nat, b: P.Spot :: IsReal(im, c, b) ==>
              HeldAsFar(held, c, b, planes[c][b.row][b.col], ScanScript.AfterAll(ScanScript.NothingSent(|im.comps|), script)[c])
  {
    hide StepLaid, StepMade, TablesOptimal, ImageInRange, PaddedImage, P.Replay, HeldAsFar, ScanScript.LegalScript, CeilDiv;
    forall i | 0 <= i < |script|
      ensures StepMade(steps[i], im, planes)
    {
      OptimizedIsMade(steps[i], im, planes);
    }
    held, tail := FileReplays(im, planes, script, steps);
  }

  /** With the script of jpeg_simple_progression the decoder gets back the very image. */
  lemma RecommendedFileIsExact(im: Image, planes: seq<Plane>, script: seq<ScanScript.ScanInfo>, ycc: bool, steps: seq<P.Step>)
    returns (held: P.Grid, tail: seq<ByteStuffing.byte>)
    requires FileOptimized(steps, script, im, planes)
    requires |script| == |SimpleProgression.Plans(|im.comps|, ycc)| && ProgressionLegal.PlannedAt(script, 0, SimpleProgression.Plans(|im.comps|, ycc))
    ensures P.Replay(PaddedImage(im, planes), steps) == P.ReadDone(held, tail)
    ensures forall c: nat, b: P.Spot :: IsReal(im, c, b) ==>
              P.Inside(held, P.Ref(c, b)) && P.At(held, P.Ref(c, b)) == planes[c][b.row][b.col]
  {
    hide StepLaid, StepMade, TablesOptimal, ImageInRange, PaddedImage, P.Replay, SimpleProgression.Plans, ProgressionLegal.PlannedAt,
         ScanScript.ProgressiveLegal, ScanScript.AfterAll, CeilDiv;
    ProgressionLegal.RecommendedIsComplete(script, |im.comps|, ycc);
    forall i | 0 <= i < |script|
      ensures StepMade(steps[i], im, planes)
    {
      OptimizedIsMade(steps[i], im, planes);
    }
    held, tail := CompleteFileIsExact(im, planes, script, steps);
  }

  // ----- sequential scans -----

  /** A sequential scan presupposes nothing, and conveys its blocks whole. */
  lemma NothingPresupposed(scan: ScanCoding.Scan, held: seq<ScanCoding.Mcu>, mcus: seq<ScanCoding.Mcu>)
    requires scan.kind.Sequential? && ScanCoding.McusFit(scan, mcus) && ScanCoding.McusFit(scan, held) && |held| == |mcus|
    ensures IntervalRoundTrip.ReadyMcus(scan, held, mcus) && IntervalRoundTrip.ExpectedMcus(scan, held, mcus) == mcus
  {
    forall i | 0 <= i < |mcus|
      ensures ScanCoding.ExpectedMcu(scan, held[i], mcus[i]) == mcus[i]
    {}
  }

  /** An optimised sequential scan of blocks in range, with any restart interval: it cannot fail for want of
      a code, and decoding its bytes gives back the blocks, whatever the decoder held before. */
  lemma OptimizedScanRoundTrips(scan: ScanCoding.Scan, held: seq<ScanCoding.Mcu>, mcus: seq<ScanCoding.Mcu>,
                                tabs: EntropyOps.Tables, book: EntropyOps.Codebook, tail: seq<ByteStuffing.byte>)
    requires scan.Wf() && scan.kind.Sequential? && ScanCoding.McusFit(scan, mcus) && ScanCoding.McusFit(scan, held) && |held| == |mcus|
    requires forall i, j :: 0 <= i < |mcus| && 0 <= j < |mcus[i]| ==> InRangeBlock(mcus[i][j])
    requires TwoPass.OptimalFor(scan, SymbolCounts.Tally(Zeroes(scan), RestartCoding.ScanOps(scan, mcus)), tabs)
    requires EntropyOps.Tied(book, tabs) && TwoPass.BookCovers(scan, book) && ByteStuffing.AtMarker(tail)
    ensures EntropyOps.Emittable(RestartCoding.ScanOps(scan, mcus), book)
    ensures RestartCoding.DecodeScan(tabs, scan, held, RestartCoding.ScanBytes(scan, book, mcus) + tail, 0) == RestartCoding.ScanDone(mcus, tail)
  {
    hide InRangeBlock, BlockFits, SymbolCounts.InRange, SymbolCounts.Tally, SymbolCounts.CountsOk, RestartCoding.ScanOps, RestartCoding.DecodeScan,
         Zeroes, TwoPass.OptimalFor, TwoPass.Uses, TwoPass.BookCovers, EntropyOps.Tied, EntropyOps.Emittable, IntervalRoundTrip.TablesKnown,
         IntervalRoundTrip.ReadyMcus, IntervalRoundTrip.ExpectedMcus, ScanCoding.McusFit, ByteStuffing.AtMarker;
    McusInRange(scan, mcus);
    ZeroesStart(scan);
    TwoPass.TwoPassAgreement(scan, mcus, Zeroes(scan), tabs, book);
    P.TablesAreKnown(scan, tabs, book);
    NothingPresupposed(scan, held, mcus);
    RestartCoding.ScanRoundTrip(scan, tabs, book, held, mcus, tail);
  }
}
