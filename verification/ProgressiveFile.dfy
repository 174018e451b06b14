/** A progressive file made from an image: everything between the coefficient blocks and the decoder. */
module ProgressiveFile {
  import opened Arithmetic
  import opened Coefficients
  import opened Geometry
  import opened McuLayout
  import opened ScanVisits
  import opened ScanImage
  import ScanScript
  import ScanCoding
  import EntropyOps
  import ByteStuffing
  import RestartCoding
  import IntervalRoundTrip
  import TwoPass
  import OpWriter
  import P = ProgressiveImage

  // ----- the image as the decoder's grid -----

  function Places(rows: nat, cols: nat): (s: set<P.Spot>)
    ensures forall q :: q in s <==> q.row < rows && q.col < cols
  {
    set row: nat, col: nat | row < rows && col < cols :: P.Spot(row, col)
  }

  ghost predicate PlanesOk(im: Image, planes: seq<Plane>) {
    im.Ok() && |planes| == |im.comps| && forall ci :: 0 <= ci < |planes| ==> PlaneOk(planes[ci], im.comps[ci])
  }

  function PaddedComponent(im: Image, p: Plane, c: Component): (g: map<P.Spot, Block>)
    requires im.maxH > 0 && PlaneOk(p, c)
    ensures g.Keys == Places(im.totalRows * c.v, im.McusAcross() * c.h)
    ensures forall q :: q in g ==> g[q] == Padded(p, c, q.row, q.col)
  {
    map q | q in Places(im.totalRows * c.v, im.McusAcross() * c.h) :: Padded(p, c, q.row, q.col)
  }

  /** The image's components with their dummy blocks. */
  function PaddedImage(im: Image, planes: seq<Plane>): (g: P.Grid)
    requires PlanesOk(im, planes)
    ensures |g| == |planes|
  {
    seq(|planes|, ci requires 0 <= ci < |planes| => PaddedComponent(im, planes[ci], im.comps[ci]))
  }

  /** The places of real blocks. */
  function RealPlaces(im: Image): (present: seq<set<P.Spot>>)
    ensures |present| == |im.comps|
  {
    seq(|im.comps|, ci requires 0 <= ci < |im.comps| => Places(im.comps[ci].heightInBlocks, im.comps[ci].widthInBlocks))
  }

  lemma RealWithinPadded(im: Image, c: Component)
    requires im.Ok() && im.ComponentOk(c)
    ensures c.heightInBlocks <= im.totalRows * c.v && c.widthInBlocks <= im.McusAcross() * c.h
  {
    hide CeilDiv, LastOf;
    McusHoldBlocks(im, c);
    LastOfIs(c.heightInBlocks, c.v);
    LastOfIs(c.widthInBlocks, c.h);
    Distribute(im.totalRows - 1, 1, c.v);
    Distribute(im.McusAcross() - 1, 1, c.h);
  }

  lemma RealIsInside(im: Image, planes: seq<Plane>)
    requires PlanesOk(im, planes)
    ensures P.PresentInside(PaddedImage(im, planes), RealPlaces(im))
  {
    hide CeilDiv;
    forall c: nat, b | 0 <= c < |planes| && b in RealPlaces(im)[c]
      ensures P.Inside(PaddedImage(im, planes), P.Ref(c, b))
    {
      assert im.ComponentOk(im.comps[c]);
      RealWithinPadded(im, im.comps[c]);
    }
  }

  // ----- a scan's layout -----

  /** The components of a scan, in the order the script lists them. */
  function LayoutOf(im: Image, planes: seq<Plane>, info: ScanScript.ScanInfo): Layout
    requires forall i :: 0 <= i < |info.Comps()| ==> info.Comps()[i] >= 0
  {
    var which: seq<nat> := info.Comps();
    Layout(im, planes, which)
  }

  lemma LayoutIsOk(im: Image, planes: seq<Plane>, info: ScanScript.ScanInfo)
    requires PlanesOk(im, planes) && ScanScript.GoodComps(info, |im.comps|)
    ensures forall i :: 0 <= i < |info.Comps()| ==> info.Comps()[i] >= 0
    ensures LayoutOf(im, planes, info).Ok() && Distinct(LayoutOf(im, planes, info))
  {
    hide CeilDiv;
  }

  function ScanComps(k: Layout): (cs: seq<Component>)
    requires k.Ok()
    ensures |cs| == |k.which|
  {
    seq(|k.which|, i requires 0 <= i < |k.which| => k.Comp(i))
  }

  /** The component each block of an MCU belongs to. */
  function Membership(k: Layout, n: nat): seq<nat>
    requires k.Ok() && n <= |k.which|
  {
    if k.Interleaved() then Members(ScanComps(k), n) else if n == 0 then [] else [0]
  }

  /** Each block belongs to the component that m names. */
  ghost predicate Named(refs: seq<P.Ref>, m: seq<nat>, which: seq<nat>) {
    |refs| == |m| && forall j :: 0 <= j < |refs| ==> m[j] < |which| && refs[j].c == which[m[j]]
  }

  lemma NamedConcat(a: seq<P.Ref>, m: seq<nat>, b: seq<P.Ref>, c: seq<nat>, which: seq<nat>)
    requires Named(a, m, which) && Named(b, c, which)
    ensures Named(a + b, m + c, which)
  {}

  /** The blocks of an MCU are of the components that MCU_membership lists. */
  ghost predicate Fits(k: Layout, refs: seq<P.Ref>, n: nat)
    requires k.Ok() && n <= |k.which|
  {
    Named(refs, Membership(k, n), k.which)
  }

  lemma NextMembers(k: Layout, n: nat)
    requires k.Ok() && 0 < n <= |k.which|
    ensures Membership(k, n) == Membership(k, n - 1) + seq(k.H(n - 1) * k.W(n - 1), _ => n - 1)
  {
    hide CeilDiv;
    if k.Interleaved() {
      assert k.H(n - 1) * k.W(n - 1) == ScanComps(k)[n - 1].h * ScanComps(k)[n - 1].v;
    }
  }

  lemma NoMembers(k: Layout)
    requires k.Ok()
    ensures Named([], Membership(k, 0), k.which)
  {}

  lemma {:induction false} McuFitsMembers(k: Layout, my: nat, mx: nat, n: nat)
    requires k.Ok() && n <= |k.which|
    ensures Fits(k, McuRefs(k, my, mx, n), n)
  {
    hide CeilDiv, Layout.H, Layout.W, CompRefs, Membership, Named;
    if n == 0 {
      NoMembers(k);
    } else {
      var a, b := McuRefs(k, my, mx, n - 1), CompRefs(k.which[n - 1], my * k.H(n - 1), mx * k.W(n - 1), k.W(n - 1), k.H(n - 1));
      McuFitsMembers(k, my, mx, n - 1);
      NextMembers(k, n);
      AllOf(b, n - 1, k.which);
      NamedConcat(a, Membership(k, n - 1), b, seq(k.H(n - 1) * k.W(n - 1), _ => n - 1), k.which);
    }
  }

  lemma AllOf(b: seq<P.Ref>, i: nat, which: seq<nat>)
    requires i < |which| && forall j :: 0 <= j < |b| ==> b[j].c == which[i]
    ensures Named(b, seq(|b|, _ => i), which)
  {}

  ghost predicate AllFit(k: Layout, visits: P.Visits)
    requires k.Ok()
  {
    forall i :: 0 <= i < |visits| ==> Fits(k, visits[i], |k.which|)
  }

  lemma {:induction false} RowFits(k: Layout, my: nat, n: nat)
    requires k.Ok()
    ensures AllFit(k, VisitRow(k, my, n))
  {
    hide Fits, McuRefs;
    if n > 0 {
      RowFits(k, my, n - 1);
      McuFitsMembers(k, my, n - 1, |k.which|);
    }
  }

  lemma {:induction false} RowsFit(k: Layout, m: nat)
    requires k.Ok()
    ensures AllFit(k, VisitRows(k, m))
  {
    hide Fits, VisitRow;
    if m > 0 {
      RowsFit(k, m - 1);
      RowFits(k, m - 1, k.Across());
    }
  }

  // ----- the scan's places in the image -----

  lemma VisitsAre(k: Layout, q: P.Ref)
    requires k.Ok()
    ensures P.Visited(LayoutVisits(k), q) <==> InRows(k, Down(k), q)
  {
    VisitedRows(k, Down(k), q);
  }

  /** A place within the scan's rows of MCUs is within the padded component. */
  lemma InRowsIsInside(k: Layout, q: P.Ref)
    requires k.Ok() && PlanesOk(k.im, k.planes) && InRows(k, Down(k), q)
    ensures P.Inside(PaddedImage(k.im, k.planes), q) && q.c in k.which
    ensures !k.Interleaved() ==> q.b in RealPlaces(k.im)[q.c]
  {
    hide CeilDiv;
    var i :| 0 <= i < |k.which| && InBox(q, k.which[i], 0, 0, k.Across() * k.W(i), Down(k) * k.H(i));
    assert k.im.ComponentOk(k.Comp(i));
    RealWithinPadded(k.im, k.Comp(i));
  }

  lemma RealIsInRows(k: Layout, i: nat, b: P.Spot)
    requires k.Ok() && PlanesOk(k.im, k.planes) && i < |k.which| && b in RealPlaces(k.im)[k.which[i]]
    ensures InRows(k, Down(k), P.Ref(k.which[i], b))
  {
    hide CeilDiv;
    assert k.im.ComponentOk(k.Comp(i));
    RealWithinPadded(k.im, k.Comp(i));
    assert InBox(P.Ref(k.which[i], b), k.which[i], 0, 0, k.Across() * k.W(i), Down(k) * k.H(i));
  }

  lemma VisitsInside(k: Layout)
    requires k.Ok() && PlanesOk(k.im, k.planes)
    ensures P.AllInside(PaddedImage(k.im, k.planes), LayoutVisits(k))
  {
    hide P.Inside, InRows, LayoutVisits, Down;
    var visits := LayoutVisits(k);
    forall i, j | 0 <= i < |visits| && 0 <= j < |visits[i]|
      ensures P.Inside(PaddedImage(k.im, k.planes), visits[i][j])
    {
      assert P.Visited(visits, visits[i][j]);
      VisitsAre(k, visits[i][j]);
      InRowsIsInside(k, visits[i][j]);
    }
  }

  lemma AtPadded(k: Layout, q: P.Ref)
    requires k.Ok() && PlanesOk(k.im, k.planes) && P.Inside(PaddedImage(k.im, k.planes), q)
    ensures P.At(PaddedImage(k.im, k.planes), q) == BlockOf(k, q)
  {
    hide Padded;
  }

  /** What the coefficient controller hands over is what lies at the scan's places. */
  lemma PassIsGathered(k: Layout)
    requires k.Ok() && PlanesOk(k.im, k.planes)
    ensures P.AllInside(PaddedImage(k.im, k.planes), LayoutVisits(k))
    ensures k.Before(k.im.totalRows) == P.Gathered(PaddedImage(k.im, k.planes), LayoutVisits(k))
  {
    hide P.Inside, P.At, LayoutVisits, BlockOf, PaddedImage;
    VisitsInside(k);
    PassVisitsAll(k);
    var g, visits := PaddedImage(k.im, k.planes), LayoutVisits(k);
    forall i, j | 0 <= i < |visits| && 0 <= j < |visits[i]|
      ensures P.At(g, visits[i][j]) == BlockOf(k, visits[i][j])
    {
      AtPadded(k, visits[i][j]);
    }
    assert forall i :: 0 <= i < |visits| ==> P.Gathered(g, visits)[i] == Blocks(k, visits[i]);
  }

  // ----- from the image to the file and back -----

  lemma HandedFits(k: Layout, scan: ScanCoding.Scan)
    requires k.Ok() && PlanesOk(k.im, k.planes) && scan.membership == ShapeOf(k.im, ScanComps(k)).membership
    ensures Membership(k, |k.which|) == scan.membership
    ensures ScanCoding.McusFit(scan, k.Before(k.im.totalRows))
  {
    hide Fits, CeilDiv, LastOf;
    PassVisitsAll(k);
    RowsFit(k, Down(k));
    forall i | 0 <= i < |LayoutVisits(k)|
      ensures |LayoutVisits(k)[i]| == |scan.membership|
    {
      FitsLength(k, LayoutVisits(k)[i]);
    }
  }

  lemma FitsLength(k: Layout, refs: seq<P.Ref>)
    requires k.Ok() && Fits(k, refs, |k.which|)
    ensures |refs| == |Membership(k, |k.which|)|
  {}

  /** A scan laid out as per_scan_setup and the coefficient controller do, with a codebook that the
      decoder's tables match, and followed by a marker. */
  ghost predicate StepLaid(s: P.Step, im: Image, planes: seq<Plane>)
    requires PlanesOk(im, planes)
  {
    && ScanScript.GoodComps(s.info, |im.comps|) && s.scan.Wf() && |s.scan.dcTbl| == |s.info.Comps()| && (s.scan.IsAC() <==> s.info.ss != 0)
    && (LayoutIsOk(im, planes, s.info);
        var k := LayoutOf(im, planes, s.info);
        && s.visits == LayoutVisits(k) && s.scan.membership == ShapeOf(im, ScanComps(k)).membership
        && EntropyOps.Tied(s.book, s.tabs) && TwoPass.BookCovers(s.scan, s.book) && ByteStuffing.AtMarker(s.tail))
  }

  /** The MCUs that the coefficient controller hands over in this scan. */
  ghost function HandedMcus(s: P.Step, im: Image, planes: seq<Plane>): (mcus: seq<seq<Block>>)
    requires PlanesOk(im, planes) && StepLaid(s, im, planes)
    ensures ScanCoding.McusFit(s.scan, mcus)
  {
    LayoutIsOk(im, planes, s.info);
    var k := LayoutOf(im, planes, s.info);
    HandedFits(k, s.scan);
    k.Before(im.totalRows)
  }

  /** A scan that the output pass got through. */
  ghost predicate StepMade(s: P.Step, im: Image, planes: seq<Plane>)
    requires PlanesOk(im, planes)
  {
    StepLaid(s, im, planes) && EntropyOps.Emittable(RestartCoding.ScanOps(s.scan, HandedMcus(s, im, planes)), s.book)
  }

  lemma LaidInPlace(s: P.Step, im: Image, planes: seq<Plane>)
    requires PlanesOk(im, planes) && StepLaid(s, im, planes)
    ensures P.InPlace(s, PaddedImage(im, planes))
  {
    hide CeilDiv, LastOf, PaddedImage, Fits, EntropyOps.Emittable, EntropyOps.Tied, TwoPass.BookCovers, ByteStuffing.AtMarker, VisitRows;
    LayoutIsOk(im, planes, s.info);
    var k := LayoutOf(im, planes, s.info);
    HandedFits(k, s.scan);
    VisitsInside(k);
    RowsFit(k, Down(k));
    forall i | 0 <= i < |s.visits|
      ensures |s.visits[i]| == |s.scan.membership|
      ensures forall j :: 0 <= j < |s.visits[i]| ==> s.visits[i][j].c == s.info.Comps()[s.scan.membership[j]]
    {
      MemberOf(k, s.visits[i]);
    }
  }

  lemma MemberOf(k: Layout, refs: seq<P.Ref>)
    requires k.Ok() && Fits(k, refs, |k.which|)
    ensures |refs| == |Membership(k, |k.which|)|
    ensures forall j :: 0 <= j < |refs| ==> Membership(k, |k.which|)[j] < |k.which| && refs[j].c == k.which[Membership(k, |k.which|)[j]]
  {}

  lemma LaidCoversReal(s: P.Step, im: Image, planes: seq<Plane>)
    requires PlanesOk(im, planes) && StepLaid(s, im, planes)
    ensures P.CoversReal(s, RealPlaces(im)) && P.EachOnce(s.visits)
  {
    hide CeilDiv, LastOf, PaddedImage, RealPlaces, InRows, LayoutVisits, P.Visited, EntropyOps.Emittable, EntropyOps.Tied, TwoPass.BookCovers;
    LayoutIsOk(im, planes, s.info);
    var k := LayoutOf(im, planes, s.info);
    VisitOnce(k);
    forall c: nat, b | 0 <= c < |im.comps| && b in RealPlaces(im)[c] && c in s.info.Comps()
      ensures P.Visited(s.visits, P.Ref(c, b))
    {
      var i :| 0 <= i < |k.which| && k.which[i] == c;
      RealIsInRows(k, i, b);
      VisitsAre(k, P.Ref(c, b));
    }
    if s.info.ss != 0 {
      forall r | P.Visited(s.visits, r)
        ensures r.c < |im.comps| && r.b in RealPlaces(im)[r.c]
      {
        VisitsAre(k, r);
        InRowsIsInside(k, r);
      }
    }
  }

  lemma VisitOnce(k: Layout)
    requires k.Ok() && Distinct(k)
    ensures P.EachOnce(LayoutVisits(k))
  {
    VisitRowsOnce(k, Down(k));
  }

  lemma MadeFits(s: P.Step, im: Image, planes: seq<Plane>)
    requires PlanesOk(im, planes) && StepMade(s, im, planes) && P.Matches(s.scan, s.info)
    ensures P.StepFits(s, PaddedImage(im, planes), RealPlaces(im))
  {
    hide P.InPlace, P.CoversReal, P.EachOnce, P.Matches, P.Gathered, PaddedImage, RealPlaces, LayoutVisits, CeilDiv, LastOf, EntropyOps.Emittable,
         EntropyOps.Tied, TwoPass.BookCovers, P.AllInside;
    LaidInPlace(s, im, planes);
    LaidCoversReal(s, im, planes);
    LayoutIsOk(im, planes, s.info);
    var k := LayoutOf(im, planes, s.info);
    PassIsGathered(k);
    HandedFits(k, s.scan);
  }

  ghost predicate FileMade(steps: seq<P.Step>, script: seq<ScanScript.ScanInfo>, im: Image, planes: seq<Plane>) {
    && PlanesOk(im, planes) && |steps| == |script|
    && forall i :: 0 <= i < |script| ==> steps[i].info == script[i] && P.Matches(steps[i].scan, steps[i].info) && StepMade(steps[i], im, planes)
  }

  predicate IsReal(im: Image, c: nat, b: P.Spot) {
    c < |im.comps| && b.row < im.comps[c].heightInBlocks && b.col < im.comps[c].widthInBlocks
  }

  /** The decoder holds this block as far as `row` says. */
  ghost predicate HeldAsFar(held: P.Grid, c: nat, b: P.Spot, block: Block, row: ScanScript.Row) {
    P.Inside(held, P.Ref(c, b)) && P.BlockKnown(P.At(held, P.Ref(c, b)), block, row)
  }

  lemma RealBlock(im: Image, planes: seq<Plane>, c: nat, b: P.Spot)
    requires PlanesOk(im, planes) && IsReal(im, c, b)
    ensures b in RealPlaces(im)[c] && P.Inside(PaddedImage(im, planes), P.Ref(c, b))
    ensures P.At(PaddedImage(im, planes), P.Ref(c, b)) == planes[c][b.row][b.col]
  {
    hide CeilDiv;
    assert im.ComponentOk(im.comps[c]);
    RealWithinPadded(im, im.comps[c]);
  }

  /** For any image geometry and any progressive script that validation accepts: from the scans made of the
      image, a decoder recovers every block of every component as far as the script sends it. */
  lemma FileReplays(im: Image, planes: seq<Plane>, script: seq<ScanScript.ScanInfo>, steps: seq<P.Step>) returns (held: P.Grid, tail: seq<ByteStuffing.byte>)
    requires FileMade(steps, script, im, planes) && ScanScript.LegalScript(script, |im.comps|) && ScanScript.IsProgressive(script)
    ensures P.Replay(PaddedImage(im, planes), steps) == P.ReadDone(held, tail)
    ensures forall c: nat, b: P.Spot :: IsReal(im, c, b) ==>
              HeldAsFar(held, c, b, planes[c][b.row][b.col], ScanScript.AfterAll(ScanScript.NothingSent(|im.comps|), script)[c])
  {
    hide StepMade, P.StepFits, ScanScript.StepsOk, ScanScript.NothingSent, PaddedImage, RealPlaces, P.Replay, P.BlockKnown, P.PresentInside, CeilDiv;
    var g, present := PaddedImage(im, planes), RealPlaces(im);
    RealIsInside(im, planes);
    forall i | 0 <= i < |script|
      ensures steps[i].info == script[i] && P.StepFits(steps[i], g, present)
    {
      MadeFits(steps[i], im, planes);
    }
    held, tail := P.ScriptReplays(steps, script, g, present);
    forall c: nat, b: P.Spot | IsReal(im, c, b)
      ensures HeldAsFar(held, c, b, planes[c][b.row][b.col], ScanScript.AfterAll(ScanScript.NothingSent(|im.comps|), script)[c])
    {
      RealBlock(im, planes, c, b);
    }
  }

  /** When the script sends everything, the decoder's blocks are the image's. */
  lemma CompleteFileIsExact(im: Image, planes: seq<Plane>, script: seq<ScanScript.ScanInfo>, steps: seq<P.Step>) returns (held: P.Grid, tail: seq<ByteStuffing.byte>)
    requires FileMade(steps, script, im, planes) && ScanScript.LegalScript(script, |im.comps|) && ScanScript.IsProgressive(script)
    requires forall c, k :: 0 <= c < |im.comps| && 0 <= k < DCTSIZE2 ==> ScanScript.AfterAll(ScanScript.NothingSent(|im.comps|), script)[c][k] == 0
    ensures P.Replay(PaddedImage(im, planes), steps) == P.ReadDone(held, tail)
    ensures forall c: nat, b: P.Spot :: IsReal(im, c, b) ==>
              P.Inside(held, P.Ref(c, b)) && P.At(held, P.Ref(c, b)) == planes[c][b.row][b.col]
  {
    hide StepMade, ScanScript.LegalScript, ScanScript.IsProgressive, ScanScript.AfterAll, PaddedImage, P.Replay, HeldAsFar, CeilDiv;
    held, tail := FileReplays(im, planes, script, steps);
    var sent := ScanScript.AfterAll(ScanScript.NothingSent(|im.comps|), script);
    forall c: nat, b: P.Spot | IsReal(im, c, b)
      ensures P.Inside(held, P.Ref(c, b)) && P.At(held, P.Ref(c, b)) == planes[c][b.row][b.col]
    {
      FullyHeld(held, c, b, planes[c][b.row][b.col], sent[c]);
    }
  }

  lemma FullyHeld(held: P.Grid, c: nat, b: P.Spot, block: Block, row: ScanScript.Row)
    requires HeldAsFar(held, c, b, block, row) && forall k :: 0 <= k < DCTSIZE2 ==> row[k] == 0
    ensures P.Inside(held, P.Ref(c, b)) && P.At(held, P.Ref(c, b)) == block
  {
    hide P.KnownAt;
    forall k | 0 <= k < DCTSIZE2
      ensures P.At(held, P.Ref(c, b))[k] == block[k]
    {
      P.KnownExactly(block[k], k);
    }
  }
}
