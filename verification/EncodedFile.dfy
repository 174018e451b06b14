/** From the coefficient controller through the entropy coders: what a finished pass has written is the
    scan of the image that a decoder reads. Blocks leave the controller in natural order. */
module EncodedFile {
  import opened Coefficients
  import opened Geometry
  import opened McuLayout
  import opened ScanVisits
  import opened ScanImage
  import opened ProgressiveFile
  import opened HuffEncoder
  import ScanScript
  import ScanCoding
  import EntropyOps
  import ByteStuffing
  import RestartCoding
  import TwoPass
  import P = ProgressiveImage

  // ----- natural and zigzag order -----

  lemma ZigzagDummy(dc: int)
    ensures Zigzag(Dummy(dc)) == Dummy(dc)
  {
    hide NaturalOrder;
    forall k: Index
      ensures Zigzag(Dummy(dc))[k] == Dummy(dc)[k]
    {
      DcFirst(k);
    }
  }

  lemma DcFirst(k: Index)
    ensures NaturalOrder(k) == 0 <==> k == 0
  {}

  function ZigzagPlane(p: Plane): (z: Plane)
    ensures |z| == |p| && forall r :: 0 <= r < |p| ==> z[r] == ZigzagMcu(p[r])
  {
    seq(|p|, r requires 0 <= r < |p| => ZigzagMcu(p[r]))
  }

  function ZigzagPlanes(planes: seq<Plane>): (z: seq<Plane>)
    ensures |z| == |planes| && forall ci :: 0 <= ci < |planes| ==> z[ci] == ZigzagPlane(planes[ci])
  {
    seq(|planes|, ci requires 0 <= ci < |planes| => ZigzagPlane(planes[ci]))
  }

  lemma {:induction false} PaddedInZigzag(p: Plane, c: Component, row: nat, col: nat)
    requires PlaneOk(p, c) && PlaneOk(ZigzagPlane(p), c)
    ensures Padded(ZigzagPlane(p), c, row, col) == Zigzag(Padded(p, c, row, col))
    decreases row
  {
    hide Zigzag, Dummy;
    if row < c.heightInBlocks {
      var last := p[row][c.widthInBlocks - 1];
      ZigzagKeepsDc(last);
      ZigzagDummy(last[0]);
    } else {
      var above := (col / c.h) * c.h + (c.h - 1);
      PaddedInZigzag(p, c, row - 1, above);
      ZigzagKeepsDc(Padded(p, c, row - 1, above));
      ZigzagDummy(Padded(p, c, row - 1, above)[0]);
    }
  }

  /** The same layout with the blocks in zigzag order. */
  function InZigzag(k: Layout): Layout {
    Layout(k.im, ZigzagPlanes(k.planes), k.which)
  }

  lemma ZigzagOk(im: Image, planes: seq<Plane>)
    requires PlanesOk(im, planes)
    ensures PlanesOk(im, ZigzagPlanes(planes))
  {}

  lemma PlaceInZigzag(k: Layout, q: P.Ref)
    requires k.Ok() && InZigzag(k).Ok() && q.c < |k.im.comps|
    ensures BlockOf(InZigzag(k), q) == Zigzag(BlockOf(k, q))
  {
    hide Zigzag, Padded;
    PaddedInZigzag(k.planes[q.c], k.im.comps[q.c], q.b.row, q.b.col);
  }

  /** Handing over blocks in zigzag order is handing them over and then reordering each. */
  lemma HandedInZigzag(k: Layout)
    requires k.Ok() && PlanesOk(k.im, k.planes)
    ensures InZigzag(k).Ok()
    ensures InZigzag(k).Before(k.im.totalRows) == ZigzagAll(k.Before(k.im.totalRows))
  {
    hide Zigzag, BlockOf, LayoutVisits, CeilDiv, PaddedImage;
    ZigzagOk(k.im, k.planes);
    var k', v := InZigzag(k), LayoutVisits(k);
    assert k'.Ok();
    SameVisits(k, k');
    PassVisitsAll(k);
    PassVisitsAll(k');
    VisitsInside(k);
    forall i, j | 0 <= i < |v| && 0 <= j < |v[i]|
      ensures BlockOf(k', v[i][j]) == Zigzag(BlockOf(k, v[i][j]))
    {
      InsideIsComponent(k, v[i][j]);
      PlaceInZigzag(k, v[i][j]);
    }
    forall i | 0 <= i < |v|
      ensures Blocks(k', v[i]) == ZigzagMcu(Blocks(k, v[i]))
    {}
  }

  lemma InsideIsComponent(k: Layout, q: P.Ref)
    requires PlanesOk(k.im, k.planes) && P.Inside(PaddedImage(k.im, k.planes), q)
    ensures q.c < |k.im.comps|
  {}

  // ----- finished passes -----

  /** What an entropy coder was given: the MCUs of the scan, as the controller hands them over. */
  ghost predicate GivenScan(seen: seq<ScanCoding.Mcu>, s: P.Step, im: Image, planes: seq<Plane>)
    requires PlanesOk(im, planes)
  {
    && ScanScript.GoodComps(s.info, |im.comps|)
    && (LayoutIsOk(im, planes, s.info); seen == ZigzagAll(LayoutOf(im, planes, s.info).Before(im.totalRows)))
  }

  /** A pass of either encoder that accepted all MCUs of the scan and finished has made that scan of the image:
      its bytes are what the decoder is to read. The finish routines promise the two facts asked for here. */
  lemma FinishedIsMade(seen: seq<ScanCoding.Mcu>, s: P.Step, im: Image, planes: seq<Plane>)
    requires PlanesOk(im, planes) && GivenScan(seen, s, im, planes)
    requires ScanCoding.McusFit(s.scan, seen) && s.scan.Wf() && EntropyOps.Emittable(RestartCoding.ScanOps(s.scan, seen), s.book)
    requires PlanesOk(im, ZigzagPlanes(planes)) && StepLaid(s, im, ZigzagPlanes(planes))
    ensures StepMade(s, im, ZigzagPlanes(planes)) && seen == HandedMcus(s, im, ZigzagPlanes(planes))
  {
    hide Zigzag, ZigzagPlanes, ZigzagAll, LayoutVisits, RestartCoding.ScanOps, EntropyOps.Emittable, EntropyOps.Tied, TwoPass.BookCovers, CeilDiv, LastOf;
    LayoutIsOk(im, planes, s.info);
    LayoutIsOk(im, ZigzagPlanes(planes), s.info);
    HandedInZigzag(LayoutOf(im, planes, s.info));
  }

  /** The passes of a whole progressive file: each was given its scan, and finished. */
  ghost predicate Encoded(runs: seq<seq<ScanCoding.Mcu>>, steps: seq<P.Step>, script: seq<ScanScript.ScanInfo>, im: Image, planes: seq<Plane>) {
    && PlanesOk(im, planes) && PlanesOk(im, ZigzagPlanes(planes)) && |runs| == |steps| == |script|
    && forall i :: 0 <= i < |script| ==>
         && steps[i].info == script[i] && P.Matches(steps[i].scan, steps[i].info) && StepLaid(steps[i], im, ZigzagPlanes(planes))
         && GivenScan(runs[i], steps[i], im, planes) && ScanCoding.McusFit(steps[i].scan, runs[i])
         && EntropyOps.Emittable(RestartCoding.ScanOps(steps[i].scan, runs[i]), steps[i].book)
  }

  /** Whatever the image, the accepted progressive script and the tables: if every pass got through, a decoder of
      what they wrote has every block as far as the script sends it. */
  lemma EncodedFileReplays(runs: seq<seq<ScanCoding.Mcu>>, steps: seq<P.Step>, script: seq<ScanScript.ScanInfo>, im: Image, planes: seq<Plane>)
    returns (held: P.Grid, tail: seq<ByteStuffing.byte>)
    requires Encoded(runs, steps, script, im, planes) && ScanScript.LegalScript(script, |im.comps|) && ScanScript.IsProgressive(script)
    ensures P.Replay(PaddedImage(im, ZigzagPlanes(planes)), steps) == P.ReadDone(held, tail)
    ensures forall c: nat, b: P.Spot :: IsReal(im, c, b) ==>
              HeldAsFar(held, c, b, Zigzag(planes[c][b.row][b.col]), ScanScript.AfterAll(ScanScript.NothingSent(|im.comps|), script)[c])
  {
    hide Zigzag, StepLaid, StepMade, GivenScan, PaddedImage, P.Replay, HeldAsFar, ScanScript.LegalScript, EntropyOps.Emittable, RestartCoding.ScanOps, CeilDiv;
    forall i | 0 <= i < |script|
      ensures StepMade(steps[i], im, ZigzagPlanes(planes))
    {
      FinishedIsMade(runs[i], steps[i], im, planes);
    }
    held, tail := FileReplays(im, ZigzagPlanes(planes), script, steps);
  }

  /** When the script sends everything, undoing the zigzag gives the controller's blocks. */
  lemma CompleteEncodedFile(runs: seq<seq<ScanCoding.Mcu>>, steps: seq<P.Step>, script: seq<ScanScript.ScanInfo>, im: Image, planes: seq<Plane>)
    returns (held: P.Grid, tail: seq<ByteStuffing.byte>)
    requires Encoded(runs, steps, script, im, planes) && ScanScript.LegalScript(script, |im.comps|) && ScanScript.IsProgressive(script)
    requires forall c, k :: 0 <= c < |im.comps| && 0 <= k < DCTSIZE2 ==> ScanScript.AfterAll(ScanScript.NothingSent(|im.comps|), script)[c][k] == 0
    ensures P.Replay(PaddedImage(im, ZigzagPlanes(planes)), steps) == P.ReadDone(held, tail)
    ensures forall c: nat, b: P.Spot :: IsReal(im, c, b) ==>
              P.Inside(held, P.Ref(c, b)) && Dezigzag(P.At(held, P.Ref(c, b))) == planes[c][b.row][b.col]
  {
    hide Zigzag, Dezigzag, Encoded, PaddedImage, P.Replay, HeldAsFar, ScanScript.LegalScript, ScanScript.AfterAll, CeilDiv;
    EncodedPlanes(runs, steps, script, im, planes);
    held, tail := EncodedFileReplays(runs, steps, script, im, planes);
    var sent := ScanScript.AfterAll(ScanScript.NothingSent(|im.comps|), script);
    forall c: nat, b: P.Spot | IsReal(im, c, b)
      ensures P.Inside(held, P.Ref(c, b)) && Dezigzag(P.At(held, P.Ref(c, b))) == planes[c][b.row][b.col]
    {
      FullyHeld(held, c, b, Zigzag(planes[c][b.row][b.col]), sent[c]);
      ZigzagRoundTrip(planes[c][b.row][b.col]);
    }
  }

  lemma EncodedPlanes(runs: seq<seq<ScanCoding.Mcu>>, steps: seq<P.Step>, script: seq<ScanScript.ScanInfo>, im: Image, planes: seq<Plane>)
    requires Encoded(runs, steps, script, im, planes)
    ensures PlanesOk(im, planes) && PlanesOk(im, ZigzagPlanes(planes))
  {}
}
