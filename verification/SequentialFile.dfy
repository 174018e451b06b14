/** A sequential file of several scans: a decoder gets back the very image. */
module SequentialFile {
  import opened Coefficients
  import opened Geometry
  import opened McuLayout
  import opened ScanVisits
  import opened ScanImage
  import opened ProgressiveFile
  import opened OptimizedFile
  import ScanScript
  import ScanCoding
  import EntropyOps
  import ByteStuffing
  import RestartCoding
  import IntervalRoundTrip
  import TwoPass
  import P = ProgressiveImage

  ghost predicate SequentialStep(s: P.Step, im: Image, planes: seq<Plane>)
    requires PlanesOk(im, planes)
  {
    s.scan.kind.Sequential? && StepMade(s, im, planes)
  }

  /** The decoder's grid has the image's shape, and the real blocks of the components sent so far. */
  ghost predicate Has(held: P.Grid, im: Image, planes: seq<Plane>, script: seq<ScanScript.ScanInfo>)
    requires PlanesOk(im, planes)
  {
    && |held| == |planes|
    && (forall q :: P.Inside(held, q) <==> P.Inside(PaddedImage(im, planes), q))
    && forall c: nat, b: P.Spot :: IsReal(im, c, b) && ScanScript.SentIn(script, c) ==>
         P.Inside(held, P.Ref(c, b)) && P.At(held, P.Ref(c, b)) == planes[c][b.row][b.col]
  }

  lemma FitsShape(s: P.Step, held: P.Grid, im: Image, planes: seq<Plane>)
    requires PlanesOk(im, planes) && StepLaid(s, im, planes)
    requires forall q :: P.Inside(held, q) <==> P.Inside(PaddedImage(im, planes), q)
    ensures P.AllInside(held, s.visits) && P.AllInside(PaddedImage(im, planes), s.visits)
    ensures ScanCoding.McusFit(s.scan, P.Gathered(held, s.visits)) && ScanCoding.McusFit(s.scan, P.Gathered(PaddedImage(im, planes), s.visits))
    ensures HandedMcus(s, im, planes) == P.Gathered(PaddedImage(im, planes), s.visits)
  {
    hide PaddedImage, LayoutVisits, P.Inside, P.At, EntropyOps.Tied, TwoPass.BookCovers, CeilDiv, LastOf;
    LayoutIsOk(im, planes, s.info);
    LaidInPlace(s, im, planes);
    PassIsGathered(LayoutOf(im, planes, s.info));
  }

  /** One scan is read back whole, and stored where it belongs. */
  lemma ScanIsStored(s: P.Step, held: P.Grid, im: Image, planes: seq<Plane>)
    requires PlanesOk(im, planes) && SequentialStep(s, im, planes)
    requires forall q :: P.Inside(held, q) <==> P.Inside(PaddedImage(im, planes), q)
    ensures P.Readable(held, PaddedImage(im, planes), s)
    ensures P.SameShape(s.visits, HandedMcus(s, im, planes))
    ensures P.ReadStep(held, s, P.StepBytes(s, PaddedImage(im, planes))) == P.ReadDone(P.StoreAll(held, s.visits, HandedMcus(s, im, planes)), s.tail)
  {
    hide PaddedImage, LayoutOf, HandedMcus, P.Gathered, P.AllInside, P.StoreAll, RestartCoding.DecodeScan, RestartCoding.ScanBytes, RestartCoding.ScanOps,
         EntropyOps.Tied, TwoPass.BookCovers, EntropyOps.Emittable, IntervalRoundTrip.TablesKnown, IntervalRoundTrip.ReadyMcus, IntervalRoundTrip.ExpectedMcus,
         ScanCoding.McusFit, CeilDiv, LastOf, P.SameShape, P.AreMcus;
    FitsShape(s, held, im, planes);
    var mcus := HandedMcus(s, im, planes);
    P.TablesAreKnown(s.scan, s.tabs, s.book);
    SameCounts(held, PaddedImage(im, planes), s.visits);
    NothingPresupposed(s.scan, P.Gathered(held, s.visits), mcus);
    RestartCoding.ScanRoundTrip(s.scan, s.tabs, s.book, P.Gathered(held, s.visits), mcus, s.tail);
    BlocksAreMcus(mcus);
  }

  lemma SameCounts(held: P.Grid, g: P.Grid, visits: P.Visits)
    requires P.AllInside(held, visits) && P.AllInside(g, visits)
    ensures |P.Gathered(held, visits)| == |P.Gathered(g, visits)| && P.SameShape(visits, P.Gathered(g, visits))
  {}

  lemma BlocksAreMcus(mcus: seq<ScanCoding.Mcu>)
    ensures P.AreMcus(mcus)
  {}

  /** What is stored: the image's block at each place visited, what was there elsewhere. */
  lemma StoredBlock(s: P.Step, held: P.Grid, im: Image, planes: seq<Plane>, q: P.Ref)
    requires PlanesOk(im, planes) && StepLaid(s, im, planes) && P.Inside(held, q)
    requires forall q :: P.Inside(held, q) <==> P.Inside(PaddedImage(im, planes), q)
    requires P.AllInside(held, s.visits) && P.SameShape(s.visits, HandedMcus(s, im, planes))
    ensures P.At(P.StoreAll(held, s.visits, HandedMcus(s, im, planes)), q)
         == P.At(if P.Visited(s.visits, q) then PaddedImage(im, planes) else held, q)
  {
    hide PaddedImage, LayoutOf, StepLaid, P.StoreAll, P.At, P.Inside, P.Visited, CeilDiv, LastOf;
    FitsShape(s, held, im, planes);
    P.AllStored(held, s.visits, HandedMcus(s, im, planes), PaddedImage(im, planes), q);
  }

  /** The real blocks of the scan's components are visited, and no block of another component. */
  lemma VisitedIffScanned(s: P.Step, im: Image, planes: seq<Plane>, c: nat, b: P.Spot)
    requires PlanesOk(im, planes) && StepLaid(s, im, planes) && IsReal(im, c, b)
    ensures P.Visited(s.visits, P.Ref(c, b)) <==> c in s.info.Comps()
  {
    hide PaddedImage, RealPlaces, P.Inside, P.Visited, StepLaid, P.InPlace, P.CoversReal, P.EachOnce, CeilDiv, LastOf;
    LaidInPlace(s, im, planes);
    LaidCoversReal(s, im, planes);
    RealBlock(im, planes, c, b);
    P.VisitedIffSent(s, PaddedImage(im, planes), RealPlaces(im), c, b);
  }

  lemma HasNext(s: P.Step, held: P.Grid, im: Image, planes: seq<Plane>, script: seq<ScanScript.ScanInfo>)
    requires PlanesOk(im, planes) && StepLaid(s, im, planes) && Has(held, im, planes, script)
    requires P.AllInside(held, s.visits) && P.SameShape(s.visits, HandedMcus(s, im, planes))
    ensures Has(P.StoreAll(held, s.visits, HandedMcus(s, im, planes)), im, planes, script + [s.info])
  {
    hide PaddedImage, LayoutOf, StepLaid, HandedMcus, P.StoreAll, P.At, P.Visited, ScanScript.SentIn, CeilDiv, LastOf;
    var held' := P.StoreAll(held, s.visits, HandedMcus(s, im, planes));
    forall c: nat, b: P.Spot | IsReal(im, c, b) && ScanScript.SentIn(script + [s.info], c)
      ensures P.Inside(held', P.Ref(c, b)) && P.At(held', P.Ref(c, b)) == planes[c][b.row][b.col]
    {
      RealBlock(im, planes, c, b);
      StoredBlock(s, held, im, planes, P.Ref(c, b));
      VisitedIffScanned(s, im, planes, c, b);
      SentMore(script, s.info, c);
    }
  }

  lemma SentMore(script: seq<ScanScript.ScanInfo>, info: ScanScript.ScanInfo, c: int)
    ensures ScanScript.SentIn(script + [info], c) <==> ScanScript.SentIn(script, c) || c in info.Comps()
  {
    var all := script + [info];
    assert all[|script|] == info;
    if ScanScript.SentIn(script, c) {
      var i :| 0 <= i < |script| && c in script[i].Comps();
      assert all[i] == script[i];
    }
  }

  ghost predicate SequentialMade(steps: seq<P.Step>, script: seq<ScanScript.ScanInfo>, im: Image, planes: seq<Plane>) {
    && PlanesOk(im, planes) && |steps| == |script|
    && forall i :: 0 <= i < |script| ==> steps[i].info == script[i] && SequentialStep(steps[i], im, planes)
  }

  lemma BlankHas(im: Image, planes: seq<Plane>)
    requires PlanesOk(im, planes)
    ensures Has(P.BlankGrid(PaddedImage(im, planes)), im, planes, [])
  {}

  /** After some scans the decoder has all components that were in them. */
  lemma {:induction false} ScansReplay(im: Image, planes: seq<Plane>, script: seq<ScanScript.ScanInfo>, steps: seq<P.Step>)
    returns (held: P.Grid, tail: seq<ByteStuffing.byte>)
    requires SequentialMade(steps, script, im, planes)
    ensures P.Replay(PaddedImage(im, planes), steps) == P.ReadDone(held, tail) && Has(held, im, planes, script)
    decreases |steps|
  {
    hide PaddedImage, Has, SequentialStep, StepMade, HandedMcus, P.Readable, P.ReadStep, P.StepBytes, P.BlankGrid, P.StoreAll, CeilDiv;
    if steps == [] {
      BlankHas(im, planes);
      held, tail := P.BlankGrid(PaddedImage(im, planes)), [];
    } else {
      var n := |steps| - 1;
      var s, h, t := steps[n], [], [];
      h, t := ScansReplay(im, planes, script[..n], steps[..n]);
      StepShape(s, h, im, planes, script[..n]);
      ScanIsStored(s, h, im, planes);
      HasNext(s, h, im, planes, script[..n]);
      assert script[..n] + [s.info] == script;
      held, tail := P.StoreAll(h, s.visits, HandedMcus(s, im, planes)), s.tail;
    }
  }

  lemma StepShape(s: P.Step, held: P.Grid, im: Image, planes: seq<Plane>, script: seq<ScanScript.ScanInfo>)
    requires PlanesOk(im, planes) && SequentialStep(s, im, planes) && Has(held, im, planes, script)
    ensures StepLaid(s, im, planes) && P.AllInside(held, s.visits)
    ensures forall q :: P.Inside(held, q) <==> P.Inside(PaddedImage(im, planes), q)
  {
    hide PaddedImage, StepLaid, HandedMcus, CeilDiv;
    FitsShape(s, held, im, planes);
  }

  /** For any image geometry and any sequential script that validation accepts, a decoder replaying the scans
      gets back every block of every component. */
  lemma SequentialFileIsExact(im: Image, planes: seq<Plane>, script: seq<ScanScript.ScanInfo>, steps: seq<P.Step>)
    returns (held: P.Grid, tail: seq<ByteStuffing.byte>)
    requires SequentialMade(steps, script, im, planes) && ScanScript.LegalScript(script, |im.comps|) && !ScanScript.IsProgressive(script)
    ensures P.Replay(PaddedImage(im, planes), steps) == P.ReadDone(held, tail)
    ensures forall c: nat, b: P.Spot :: IsReal(im, c, b) ==>
              P.Inside(held, P.Ref(c, b)) && P.At(held, P.Ref(c, b)) == planes[c][b.row][b.col]
  {
    hide PaddedImage, SequentialStep, P.Replay, P.At, P.Inside, ScanScript.SequentialScan, ScanScript.SentIn, CeilDiv;
    held, tail := ScansReplay(im, planes, script, steps);
  }

  ghost predicate SequentialOptimized(steps: seq<P.Step>, script: seq<ScanScript.ScanInfo>, im: Image, planes: seq<Plane>) {
    && PlanesOk(im, planes) && ImageInRange(planes) && |steps| == |script|
    && forall i :: 0 <= i < |script| ==>
         steps[i].info == script[i] && steps[i].scan.kind.Sequential? && StepLaid(steps[i], im, planes) && TablesOptimal(steps[i], im, planes)
  }

  /** With optimised tables and blocks in range, nothing is assumed about codes. */
  lemma OptimizedFileIsExact(im: Image, planes: seq<Plane>, script: seq<ScanScript.ScanInfo>, steps: seq<P.Step>)
    returns (held: P.Grid, tail: seq<ByteStuffing.byte>)
    requires SequentialOptimized(steps, script, im, planes) && ScanScript.LegalScript(script, |im.comps|) && !ScanScript.IsProgressive(script)
    ensures P.Replay(PaddedImage(im, planes), steps) == P.ReadDone(held, tail)
    ensures forall c: nat, b: P.Spot :: IsReal(im, c, b) ==>
              P.Inside(held, P.Ref(c, b)) && P.At(held, P.Ref(c, b)) == planes[c][b.row][b.col]
  {
    hide StepLaid, StepMade, ImageInRange, TablesOptimal, PaddedImage, P.Replay, P.At, P.Inside, ScanScript.LegalScript, CeilDiv;
    forall i | 0 <= i < |script|
      ensures SequentialStep(steps[i], im, planes)
    {
      OptimizedIsMade(steps[i], im, planes);
    }
    held, tail := SequentialFileIsExact(im, planes, script, steps);
  }
}
