/** Whole files as one byte stream, from SOI to EOI: a decoder that knows the frame gets the image back,
    with the tables, restart intervals and scan structure it reads on the way. */
module WholeFile {
  import opened ByteStuffing
  import opened HuffmanTable
  import opened Coefficients
  import opened EntropyOps
  import opened ScanCoding
  import opened RestartCoding
  import opened MarkerSyntax
  import opened MarkerWriter
  import opened FileStream
  import Geometry
  import McuLayout
  import ScanScript
  import TwoPass
  import F = ProgressiveFile
  import Q = SequentialFile
  import P = ProgressiveImage

  // ----- the scans as the decoder meets them -----

  /** The encoder got through the scan, whose codes came from its own tables. */
  ghost predicate PartMade(fr: Frame, p: Part, planes: seq<McuLayout.Plane>)
    requires F.PlanesOk(fr.im, planes)
  {
    PartOk(fr, p) && F.StepMade(p.step, fr.im, planes)
  }

  /** The same scan with the decoder's tables, and followed by what follows in the stream. */
  lemma StillMade(fr: Frame, p: Part, planes: seq<McuLayout.Plane>, d: DecState, tail: seq<byte>)
    requires F.PlanesOk(fr.im, planes) && PartMade(fr, p, planes) && HasTables(p.head, p.slots, d) && AtMarker(tail)
    ensures F.StepMade(p.step.(tabs := d.tabs, tail := tail), fr.im, planes)
  {
    hide HasTables, Legal, Derives, Emittable, TwoPass.BookCovers, F.PlanesOk, Needed;
    DecoderIsTied(p.head, p.slots, d, p.step.book);
  }

  /** The header defines the tables that the scan's codes come from, and no others. */
  lemma DefinedAreUsed(fr: Frame, p: Part, t: TableId)
    requires PartOk(fr, p)
    ensures t in Needed(p.head, |p.head.comps|) <==> TwoPass.Uses(p.step.scan, t)
  {
    hide Needed, Legal, Derives, Offset, NumbersOk, AllPresent, ScanScript.GoodComps;
    NeededMeans(p.head, |p.head.comps|, t);
  }

  ghost predicate AllMade(fr: Frame, parts: seq<Part>, planes: seq<McuLayout.Plane>)
    requires F.PlanesOk(fr.im, planes)
  {
    forall i :: 0 <= i < |parts| ==> PartMade(fr, parts[i], planes)
  }

  lemma MadeIsWritable(fr: Frame, parts: seq<Part>, planes: seq<McuLayout.Plane>)
    requires F.PlanesOk(fr.im, planes) && AllMade(fr, parts, planes)
    ensures Writable(fr, parts, F.PaddedImage(fr.im, planes)) && AllLaid(parts, fr.im, planes)
  {
    hide PartOk, F.StepLaid, F.PlanesOk, F.PaddedImage, P.AllInside, P.Gathered, McusFit, Emittable;
    var g := F.PaddedImage(fr.im, planes);
    forall i | 0 <= i < |parts|
      ensures PartOk(fr, parts[i]) && CanRead(g, parts[i].step.visits, parts[i].step.scan) && F.StepLaid(parts[i].step, fr.im, planes)
    {
      assert PartMade(fr, parts[i], planes);
      Q.FitsShape(parts[i].step, g, fr.im, planes);
      LaidIsWf(parts[i].step, fr.im, planes);
    }
  }

  lemma LaidIsWf(s: P.Step, im: Geometry.Image, planes: seq<McuLayout.Plane>)
    requires F.PlanesOk(im, planes) && F.StepLaid(s, im, planes)
    ensures s.scan.Wf()
  {}

  /** Every scan of the stream is made, with the tables that the decoder has when it gets there. */
  lemma {:induction false} StepsMade(fr: Frame, parts: seq<Part>, planes: seq<McuLayout.Plane>, before: Slots, d: DecState, last: nat, i: nat)
    requires F.PlanesOk(fr.im, planes) && AllMade(fr, parts, planes) && Writable(fr, parts, F.PaddedImage(fr.im, planes))
    requires Chained(before, parts) && InSync(before, d) && d.restart == last % 0x1_0000 && i < |parts|
    ensures var s := StreamSteps(fr, parts, F.PaddedImage(fr.im, planes), d)[i];
            s == parts[i].step.(tabs := s.tabs, tail := s.tail) && F.StepMade(s, fr.im, planes)
    decreases |parts|
  {
    hide PartOk, CanRead, F.StepMade, F.PlanesOk, F.PaddedImage, InSync, HasTables, Later, MarkSent, Needed, AllPresent, HeadOk, DecAtScan, HeaderBytes, ScanBytes;
    var g := F.PaddedImage(fr.im, planes);
    WritableRest(fr, parts, g);
    LaterInSync(before, parts[0].slots, d);
    SyncAfter(fr, parts[0], d, last);
    if i == 0 {
      assert PartMade(fr, parts[0], planes);
      StreamAtMarker(fr, parts[1..], g, parts[0].head.restart);
      StillMade(fr, parts[0], planes, AtScan(parts[0], d), Stream(fr, parts[1..], g, parts[0].head.restart));
    } else {
      MadeRest(fr, parts, planes);
      StepsMade(fr, parts[1..], planes, MarkSent(parts[0].slots, Needed(parts[0].head, |parts[0].head.comps|)), AtScan(parts[0], d), parts[0].head.restart,
                i - 1);
    }
  }

  lemma MadeRest(fr: Frame, parts: seq<Part>, planes: seq<McuLayout.Plane>)
    requires F.PlanesOk(fr.im, planes) && AllMade(fr, parts, planes) && parts != []
    ensures AllMade(fr, parts[1..], planes)
  {
    hide PartMade, F.PlanesOk;
  }

  // ----- before the first scan -----

  /** A segment of the file or frame header, or one that the application adds: APPn, COM, DQT, SOF. */
  datatype Seg = Seg(code: byte, payload: seq<byte>)

  ghost predicate Skippable(segs: seq<Seg>) {
    forall i :: 0 <= i < |segs| ==> PassedOver(segs[i].code) && |segs[i].payload| + 2 < 0x1_0000
  }

  function Segments(segs: seq<Seg>): seq<byte> {
    if segs == [] then [] else MarkerSegment(segs[0].code, segs[0].payload) + Segments(segs[1..])
  }

  /** The file continues, with a marker other than EOI. */
  predicate GoesOn(bytes: seq<byte>) {
    |bytes| >= 2 && bytes[0] == 0xFF && bytes[1] != EOI
  }

  lemma SkipRead(fr: Frame, head: seq<byte>, more: seq<byte>, d: DecState, d': DecState, held: P.Grid, end: P.Grid)
    requires GoesOn(head + more) && GoesOn(more) && ReadMarkers(head + more, d) == ReadMarkers(more, d')
    requires ReadFile(fr, more, d', held) == FileRead(end)
    ensures ReadFile(fr, head + more, d, held) == FileRead(end)
  {
    hide ReadMarkers, ReadScan;
  }

  lemma {:induction false} SegmentsRead(fr: Frame, segs: seq<Seg>, more: seq<byte>, d: DecState, held: P.Grid, end: P.Grid)
    requires Skippable(segs) && GoesOn(more) && ReadFile(fr, more, d, held) == FileRead(end)
    ensures GoesOn(Segments(segs) + more) && ReadFile(fr, Segments(segs) + more, d, held) == FileRead(end)
    decreases |segs|
  {
    hide ReadFile, ReadMarkers, TwoBytes;
    if segs == [] {
      assert [] + more == more;
    } else {
      var head, rest := MarkerSegment(segs[0].code, segs[0].payload), Segments(segs[1..]) + more;
      SegmentsRead(fr, segs[1..], more, d, held, end);
      assert Segments(segs) + more == head + rest;
      ReadOther(segs[0].code, segs[0].payload, d, rest);
      SkipRead(fr, head, rest, d, d, held, end);
    }
  }

  // ----- whole files -----

  function Soi(): seq<byte> {
    [0xFF, SOI]
  }

  /** SOI, the segments before the first scan, the scans with their headers, and EOI. */
  ghost function FileBytes(fr: Frame, segs: seq<Seg>, parts: seq<Part>, g: P.Grid): seq<byte>
    requires Writable(fr, parts, g)
  {
    Soi() + (Segments(segs) + Stream(fr, parts, g, 0))
  }

  /** The file begins with the marker SOI and ends with EOI. */
  lemma {:induction false} FileEnds(fr: Frame, segs: seq<Seg>, parts: seq<Part>, g: P.Grid)
    requires Writable(fr, parts, g)
    ensures var b := FileBytes(fr, segs, parts, g); |b| >= 4 && b[..2] == [0xFF, 0xD8] && b[|b| - 2..] == [0xFF, 0xD9]
  {
    hide Stream, Segments;
    StreamEnds(fr, parts, g, 0);
  }

  lemma {:induction false} StreamEnds(fr: Frame, parts: seq<Part>, g: P.Grid, last: nat)
    requires Writable(fr, parts, g)
    ensures var b := Stream(fr, parts, g, last); |b| >= 2 && b[|b| - 2..] == [0xFF, 0xD9]
    decreases |parts|
  {
    hide HeaderBytes, ScanBytes, PartOk, CanRead, P.Gathered;
    if parts != [] {
      WritableRest(fr, parts, g);
      StreamEnds(fr, parts[1..], g, parts[0].head.restart);
    }
  }

  /** A decoder that starts with no tables and an all-zero image. */
  ghost function Decoded(fr: Frame, bytes: seq<byte>, g: P.Grid): FileResult {
    ReadFile(fr, bytes, DecState(map[], 0), P.BlankGrid(g))
  }

  /** When the scans of a file can be replayed, the file can be read. */
  lemma FileIsRead(fr: Frame, segs: seq<Seg>, parts: seq<Part>, planes: seq<McuLayout.Plane>, end: P.Grid, tail: seq<byte>)
    requires F.PlanesOk(fr.im, planes) && AllMade(fr, parts, planes) && parts != [] && Skippable(segs) && Chained(map[], parts)
    requires Writable(fr, parts, F.PaddedImage(fr.im, planes))
    requires P.Replay(F.PaddedImage(fr.im, planes), StreamSteps(fr, parts, F.PaddedImage(fr.im, planes), DecState(map[], 0))) == P.ReadDone(end, tail)
    ensures Decoded(fr, FileBytes(fr, segs, parts, F.PaddedImage(fr.im, planes)), F.PaddedImage(fr.im, planes)) == FileRead(end)
  {
    hide AllMade, AllLaid, Writable, F.PlanesOk, F.PaddedImage, P.Replay, P.BlankGrid, ReplayFrom, ReadFile, ReadMarkers, Chained, Stream, StreamSteps, Segments,
         Skippable;
    var g, d, blank := F.PaddedImage(fr.im, planes), DecState(map[], 0), P.BlankGrid(F.PaddedImage(fr.im, planes));
    MadeIsWritable(fr, parts, planes);
    ReplayIsForward(g, StreamSteps(fr, parts, g, d), end, tail);
    StreamReplays(fr, parts, planes, g, map[], d, 0, blank, end);
    var more := Stream(fr, parts, g, 0);
    StreamAtMarker(fr, parts, g, 0);
    SegmentsRead(fr, segs, more, d, blank, end);
    ReadSoi(d, Segments(segs) + more);
    SkipRead(fr, Soi(), Segments(segs) + more, d, d, blank, end);
  }

  /** A file in one piece: its scans are made of the image, in the order of the script. */
  ghost predicate Written(fr: Frame, segs: seq<Seg>, parts: seq<Part>, planes: seq<McuLayout.Plane>, script: seq<ScanScript.ScanInfo>) {
    && F.PlanesOk(fr.im, planes) && AllMade(fr, parts, planes) && Skippable(segs) && Chained(map[], parts)
    && |parts| == |script| && forall i :: 0 <= i < |script| ==> parts[i].step.info == script[i]
  }

  /** Each real block is known as far as the script sends it. */
  ghost predicate AsFarAsSent(held: P.Grid, im: Geometry.Image, planes: seq<McuLayout.Plane>, script: seq<ScanScript.ScanInfo>)
    requires F.PlanesOk(im, planes)
  {
    forall c: nat, b: P.Spot :: F.IsReal(im, c, b) ==>
      F.HeldAsFar(held, c, b, planes[c][b.row][b.col], ScanScript.AfterAll(ScanScript.NothingSent(|im.comps|), script)[c])
  }

  /** Each real block is there. */
  ghost predicate AllThere(held: P.Grid, im: Geometry.Image, planes: seq<McuLayout.Plane>)
    requires F.PlanesOk(im, planes)
  {
    forall c: nat, b: P.Spot :: F.IsReal(im, c, b) ==> P.Inside(held, P.Ref(c, b)) && P.At(held, P.Ref(c, b)) == planes[c][b.row][b.col]
  }

  /** A progressive file, from SOI to EOI: whatever the geometry, the accepted script, the tables and where they
      were replaced, and the restart intervals, a decoder that has only the frame gets every block as far as the
      script sends it. */
  lemma ProgressiveFileIsRead(fr: Frame, segs: seq<Seg>, parts: seq<Part>, planes: seq<McuLayout.Plane>, script: seq<ScanScript.ScanInfo>)
    returns (held: P.Grid)
    requires Written(fr, segs, parts, planes, script) && forall i :: 0 <= i < |script| ==> P.Matches(parts[i].step.scan, script[i])
    requires ScanScript.LegalScript(script, |fr.im.comps|) && ScanScript.IsProgressive(script)
    ensures Writable(fr, parts, F.PaddedImage(fr.im, planes))
    ensures Decoded(fr, FileBytes(fr, segs, parts, F.PaddedImage(fr.im, planes)), F.PaddedImage(fr.im, planes)) == FileRead(held)
    ensures AsFarAsSent(held, fr.im, planes, script)
  {
    hide AllMade, AllLaid, Writable, F.StepMade, F.PaddedImage, P.Replay, P.Matches, Chained, StreamSteps, Decoded, FileBytes, F.HeldAsFar, ScanScript.ProgressiveLegal,
         Geometry.CeilDiv, Skippable, Geometry.LastOf;
    var g, d := F.PaddedImage(fr.im, planes), DecState(map[], 0);
    MadeIsWritable(fr, parts, planes);
    var steps := StreamSteps(fr, parts, g, d);
    forall i | 0 <= i < |script|
      ensures steps[i].info == script[i] && P.Matches(steps[i].scan, steps[i].info) && F.StepMade(steps[i], fr.im, planes)
    {
      StepsMade(fr, parts, planes, map[], d, 0, i);
    }
    var tail;
    held, tail := F.FileReplays(fr.im, planes, script, steps);
    FileIsRead(fr, segs, parts, planes, held, tail);
  }

  /** A sequential file, likewise: a decoder gets back every block. */
  lemma SequentialFileIsRead(fr: Frame, segs: seq<Seg>, parts: seq<Part>, planes: seq<McuLayout.Plane>, script: seq<ScanScript.ScanInfo>)
    returns (held: P.Grid)
    requires Written(fr, segs, parts, planes, script) && forall i :: 0 <= i < |script| ==> parts[i].step.scan.kind.Sequential?
    requires ScanScript.LegalScript(script, |fr.im.comps|) && !ScanScript.IsProgressive(script)
    ensures Writable(fr, parts, F.PaddedImage(fr.im, planes))
    ensures Decoded(fr, FileBytes(fr, segs, parts, F.PaddedImage(fr.im, planes)), F.PaddedImage(fr.im, planes)) == FileRead(held)
    ensures AllThere(held, fr.im, planes)
  {
    hide AllMade, AllLaid, Writable, F.StepMade, F.PaddedImage, P.Replay, P.Inside, P.At, Chained, StreamSteps, Decoded, FileBytes, ScanScript.SequentialLegal,
         Geometry.CeilDiv, Skippable, Geometry.LastOf;
    var g, d := F.PaddedImage(fr.im, planes), DecState(map[], 0);
    MadeIsWritable(fr, parts, planes);
    var steps := StreamSteps(fr, parts, g, d);
    forall i | 0 <= i < |script|
      ensures steps[i].info == script[i] && Q.SequentialStep(steps[i], fr.im, planes)
    {
      StepsMade(fr, parts, planes, map[], d, 0, i);
    }
    var tail;
    held, tail := Q.SequentialFileIsExact(fr.im, planes, script, steps);
    FileIsRead(fr, segs, parts, planes, held, tail);
  }
}
