/** One byte stream: a decoder that knows the frame reads markers and scans in turn, with the tables, the
    restart intervals and the MCU structure it finds there. */
module FileStream {
  import opened Bits
  import opened ByteStuffing
  import opened HuffmanTable
  import opened Coefficients
  import opened EntropyOps
  import opened ScanCoding
  import opened IntervalRoundTrip
  import opened RestartCoding
  import opened MarkerSyntax
  import opened MarkerWriter
  import opened ScanHeader
  import Geometry
  import McuLayout
  import ScanScript
  import V = ScanVisits
  import F = ProgressiveFile
  import P = ProgressiveImage

  const EOI := 0xD9

  /** What a decoder has from SOF: the geometry, the component identifiers, and the process. */
  datatype Frame = Frame(im: Geometry.Image, ids: seq<byte>, progressive: bool) {
    ghost predicate Ok() {
      im.Ok() && |ids| == |im.comps| && forall i, j :: 0 <= i < j < |ids| ==> ids[i] != ids[j]
    }
  }

  // ----- what a scan header says about a scan -----

  /** The component with this identifier, or |ids| when there is none. */
  function Place(ids: seq<byte>, id: byte): (i: nat)
    ensures i <= |ids| && (i < |ids| ==> ids[i] == id)
  {
    if ids == [] || ids[0] == id then 0 else 1 + Place(ids[1..], id)
  }

  lemma {:induction false} PlaceOf(ids: seq<byte>, i: nat)
    requires i < |ids| && forall j, k :: 0 <= j < k < |ids| ==> ids[j] != ids[k]
    ensures Place(ids, ids[i]) == i
  {
    if i > 0 {
      assert ids[0] != ids[i];
      PlaceOf(ids[1..], i - 1);
    }
  }

  function Which(fr: Frame, sos: Sos): (w: seq<nat>)
    ensures |w| == |sos.comps|
  {
    seq(|sos.comps|, i requires 0 <= i < |sos.comps| => Place(fr.ids, sos.comps[i].id))
  }

  /** All-zero planes: the order of the blocks does not depend on their contents. */
  function BlankPlanes(im: Geometry.Image): (planes: seq<McuLayout.Plane>)
    ensures |planes| == |im.comps|
  {
    seq(|im.comps|, ci requires 0 <= ci < |im.comps| =>
      seq(im.comps[ci].heightInBlocks, _ => seq(im.comps[ci].widthInBlocks, _ => Blank())))
  }

  lemma BlankPlanesOk(im: Geometry.Image)
    requires im.Ok()
    ensures F.PlanesOk(im, BlankPlanes(im))
  {
    hide Geometry.CeilDiv, Geometry.LastOf;
    forall ci | 0 <= ci < |im.comps|
      ensures McuLayout.PlaneOk(BlankPlanes(im)[ci], im.comps[ci])
    {
      assert im.ComponentOk(im.comps[ci]);
      Geometry.McusHoldBlocks(im, im.comps[ci]);
    }
  }

  /** The layout a decoder derives from the frame and a scan header. */
  function LayoutFor(fr: Frame, sos: Sos): McuLayout.Layout {
    McuLayout.Layout(fr.im, BlankPlanes(fr.im), Which(fr, sos))
  }

  /** The header names components of the frame. */
  ghost predicate Understood(fr: Frame, sos: Sos) {
    fr.Ok() && sos.comps != [] && forall i :: 0 <= i < |sos.comps| ==> Place(fr.ids, sos.comps[i].id) < |fr.ids|
  }

  lemma LayoutForOk(fr: Frame, sos: Sos)
    requires Understood(fr, sos)
    ensures LayoutFor(fr, sos).Ok()
  {
    BlankPlanesOk(fr.im);
  }

  /** The scan as the decoder sees it. */
  function ScanFor(fr: Frame, sos: Sos, restart: nat): Scan
    requires LayoutFor(fr, sos).Ok()
  {
    Scan(if fr.progressive then KindOf(sos.ss, sos.ah) else Sequential, sos.ss, sos.se, sos.al,
         seq(|sos.comps|, i requires 0 <= i < |sos.comps| => sos.comps[i].td),
         seq(|sos.comps|, i requires 0 <= i < |sos.comps| => sos.comps[i].ta),
         Geometry.ShapeOf(fr.im, F.ScanComps(LayoutFor(fr, sos))).membership, restart)
  }

  // ----- reading a file -----

  datatype FileResult = BadFile | FileRead(held: P.Grid)

  ghost predicate CanRead(held: P.Grid, visits: P.Visits, scan: Scan) {
    P.AllInside(held, visits) && scan.Wf() && McusFit(scan, P.Gathered(held, visits))
  }

  /** Read a scan's data and store its blocks. */
  ghost function ReadScan(fr: Frame, d: DecState, sos: Sos, bytes: seq<byte>, held: P.Grid): P.ReadResult {
    if !Understood(fr, sos) then P.ReadFail
    else
      LayoutForOk(fr, sos);
      var scan, visits := ScanFor(fr, sos, d.restart), V.LayoutVisits(LayoutFor(fr, sos));
      if !CanRead(held, visits, scan) then P.ReadFail
      else
        match DecodeScan(d.tabs, scan, P.Gathered(held, visits), bytes, 0)
        case ScanFail => P.ReadFail
        case ScanDone(zs, tail) =>
          if !P.AreMcus(zs) then P.ReadFail
          else
            var mcus: seq<Mcu> := zs;
            if P.SameShape(visits, mcus) then P.ReadDone(P.StoreAll(held, visits, mcus), tail) else P.ReadFail
  }

  /** Read markers and scans up to EOI. */
  ghost function ReadFile(fr: Frame, bytes: seq<byte>, d: DecState, held: P.Grid): FileResult
    decreases |bytes|
  {
    if |bytes| >= 2 && bytes[0] == 0xFF && bytes[1] == EOI then FileRead(held)
    else
      match ReadMarkers(bytes, d)
      case BadHeader => BadFile
      case ScanStart(d', sos, rest) =>
        match ReadScan(fr, d', sos, rest, held)
        case ReadFail => BadFile
        case ReadDone(h, tail) => if |tail| < |bytes| then ReadFile(fr, tail, d', h) else BadFile
  }

  // ----- what is written -----

  /** A scan as it was written: its header, and the compression object's tables when the header was. */
  datatype Part = Part(step: P.Step, head: ScanHead, slots: Slots)

  /** The header is the scan's, and the scan's codes come from the tables. */
  ghost predicate PartOk(fr: Frame, p: Part) {
    && fr.Ok() && HeadOk(p.head, p.slots) && AllPresent(p.slots, Needed(p.head, |p.head.comps|))
    && ScanScript.GoodComps(p.step.info, |fr.im.comps|) && |p.head.comps| == |p.step.info.Comps()| == |p.step.scan.dcTbl| == |p.step.scan.acTbl|
    && (forall i :: 0 <= i < |p.head.comps| ==>
          p.head.comps[i] == CompInfo(fr.ids[p.step.info.Comps()[i]], p.step.scan.dcTbl[i], p.step.scan.acTbl[i]))
    && p.head.progressive == fr.progressive && p.step.scan.kind == (if fr.progressive then KindOf(p.head.ss, p.head.ah) else Sequential)
    && p.step.scan.ss == p.head.ss && p.step.scan.se == p.head.se && p.step.scan.al == p.head.al
    && p.step.scan.restart == p.head.restart < 0x1_0000
    && (forall t :: t in p.step.book ==> t in Needed(p.head, |p.head.comps|))
    && (forall t :: t in p.step.book && t in p.slots ==> Legal(p.slots[t].tbl, !t.isAC) && Derives(p.slots[t].tbl, p.step.book[t]))
  }

  /** Between two headers tables may be replaced, which marks them as not sent, and that is all. */
  ghost predicate Later(before: Slots, after: Slots) {
    forall t :: t in after && after[t].sent ==> t in before && before[t] == after[t]
  }

  /** The header's component identifiers name the scan's components. */
  lemma PlacesFound(fr: Frame, p: Part, planes: seq<McuLayout.Plane>)
    requires PartOk(fr, p) && F.PlanesOk(fr.im, planes)
    ensures forall i :: 0 <= i < |p.step.info.Comps()| ==> p.step.info.Comps()[i] >= 0
    ensures Understood(fr, SosFor(p.head)) && Which(fr, SosFor(p.head)) == F.LayoutOf(fr.im, planes, p.step.info).which
  {
    hide Geometry.CeilDiv, Geometry.LastOf, Offset, Legal, Derives, Needed;
    F.LayoutIsOk(fr.im, planes, p.step.info);
    var sos, k := SosFor(p.head), F.LayoutOf(fr.im, planes, p.step.info);
    assert p.step.info.Comps() != [];
    forall i | 0 <= i < |sos.comps|
      ensures Place(fr.ids, sos.comps[i].id) == k.which[i] < |fr.ids|
    {
      NumbersOf(p.head, i);
      PlaceOf(fr.ids, k.which[i]);
    }
  }

  /** What a decoder makes of the header is the scan that was written, as far as decoding goes. */
  lemma HeaderMeans(fr: Frame, p: Part, planes: seq<McuLayout.Plane>)
    requires PartOk(fr, p) && F.PlanesOk(fr.im, planes) && F.StepLaid(p.step, fr.im, planes)
    ensures Understood(fr, SosFor(p.head))
    ensures LayoutFor(fr, SosFor(p.head)).Ok() && V.LayoutVisits(LayoutFor(fr, SosFor(p.head))) == p.step.visits
    ensures Alike(ScanFor(fr, SosFor(p.head), p.head.restart), p.step.scan)
  {
    hide V.LayoutVisits, Geometry.CeilDiv, Geometry.LastOf, Tied, Offset, Legal, Derives, Needed, Geometry.Members, SelectorFor, Which, Understood, AllPresent;
    F.LayoutIsOk(fr.im, planes, p.step.info);
    PlacesFound(fr, p, planes);
    var sos, k := SosFor(p.head), F.LayoutOf(fr.im, planes, p.step.info);
    LayoutForOk(fr, sos);
    V.SameVisits(LayoutFor(fr, sos), k);
    assert F.ScanComps(LayoutFor(fr, sos)) == F.ScanComps(k);
    SelectorsMean(fr, p);
  }

  lemma SelectorsMean(fr: Frame, p: Part)
    requires PartOk(fr, p)
    ensures p.step.scan.kind.Sequential? || p.step.scan.kind.DcFirst? ==>
              seq(|p.head.comps|, i requires 0 <= i < |p.head.comps| => SosFor(p.head).comps[i].td) == p.step.scan.dcTbl
    ensures p.step.scan.kind.Sequential? || p.step.scan.IsAC() ==>
              seq(|p.head.comps|, i requires 0 <= i < |p.head.comps| => SosFor(p.head).comps[i].ta) == p.step.scan.acTbl
  {
    hide Offset, LegalCounts, LegalValues, Derives, Needed;
    forall i | 0 <= i < |p.head.comps|
      ensures p.step.scan.kind.Sequential? || p.step.scan.kind.DcFirst? ==> SosFor(p.head).comps[i].td == p.step.scan.dcTbl[i]
      ensures p.step.scan.kind.Sequential? || p.step.scan.IsAC() ==> SosFor(p.head).comps[i].ta == p.step.scan.acTbl[i]
    {
      NumbersOf(p.head, i);
      assert SosFor(p.head).comps[i] == SelectorFor(p.head, p.head.comps[i]);
    }
  }

  /** The parts can be written: their scans are those of the grid g. */
  ghost predicate Writable(fr: Frame, parts: seq<Part>, g: P.Grid) {
    forall i :: 0 <= i < |parts| ==> PartOk(fr, parts[i]) && CanRead(g, parts[i].step.visits, parts[i].step.scan)
  }

  lemma WritableRest(fr: Frame, parts: seq<Part>, g: P.Grid)
    requires Writable(fr, parts, g) && parts != []
    ensures Writable(fr, parts[1..], g) && PartOk(fr, parts[0]) && CanRead(g, parts[0].step.visits, parts[0].step.scan)
  {
    hide PartOk, CanRead;
  }

  /** The bytes from the first of these parts to the end of the file; last is the interval announced before. */
  ghost function Stream(fr: Frame, parts: seq<Part>, g: P.Grid, last: nat): seq<byte>
    requires Writable(fr, parts, g)
    decreases |parts|
  {
    if parts == [] then [0xFF, EOI]
    else
      WritableRest(fr, parts, g);
      var p := parts[0];
      HeaderBytes(p.slots, last, p.head)
      + (ScanBytes(p.step.scan, p.step.book, P.Gathered(g, p.step.visits)) + Stream(fr, parts[1..], g, p.head.restart))
  }

  /** The decoder's state when it has read the header of the first part. */
  ghost function AtScan(p: Part, d: DecState): DecState
    requires AllPresent(p.slots, Needed(p.head, |p.head.comps|))
  {
    DecAtScan(p.slots, p.head, d)
  }

  /** The scans as the decoder meets them: with the tables it has then, and what follows in the stream. */
  ghost function StreamSteps(fr: Frame, parts: seq<Part>, g: P.Grid, d: DecState): (steps: seq<P.Step>)
    requires Writable(fr, parts, g)
    ensures |steps| == |parts|
    decreases |parts|
  {
    if parts == [] then []
    else
      WritableRest(fr, parts, g);
      var p, d' := parts[0], AtScan(parts[0], d);
      [p.step.(tabs := d'.tabs, tail := Stream(fr, parts[1..], g, p.head.restart))] + StreamSteps(fr, parts[1..], g, d')
  }

  /** What the tables were before the first header, and that they change between headers only as they may. */
  ghost predicate Chained(before: Slots, parts: seq<Part>)
    decreases |parts|
  {
    parts == [] || (Later(before, parts[0].slots) && Chained(MarkSent(parts[0].slots, Needed(parts[0].head, |parts[0].head.comps|)), parts[1..]))
  }

  lemma LaterInSync(before: Slots, after: Slots, d: DecState)
    requires InSync(before, d) && Later(before, after)
    ensures InSync(after, d)
  {
    hide Canonical, Offset;
  }

  /** Marker codes that a scan header begins with. */
  lemma TableBytesStart(slots: Slots, ts: seq<TableId>)
    requires AllPresent(slots, ts)
    ensures TableBytes(slots, ts) == [] || (|TableBytes(slots, ts)| >= 2 && TableBytes(slots, ts)[0] == 0xFF && TableBytes(slots, ts)[1] == DHT)
  {
    hide DhtPayload, Offset, TwoBytes;
    if ts != [] {
      TableBytesStart(slots, ts[..|ts| - 1]);
    }
  }

  lemma HeaderStart(slots: Slots, last: nat, h: ScanHead)
    requires HeadOk(h, slots) && AllPresent(slots, Needed(h, |h.comps|))
    ensures var b := HeaderBytes(slots, last, h); |b| >= 2 && b[0] == 0xFF && b[1] in {DHT, DRI, SOS}
  {
    hide TableBytes, SosPayload, SosFor, TwoBytes, Offset, Needed;
    TableBytesStart(slots, Needed(h, |h.comps|));
  }

  /** Wherever the stream goes on, it goes on with a marker. */
  lemma StreamAtMarker(fr: Frame, parts: seq<Part>, g: P.Grid, last: nat)
    requires Writable(fr, parts, g)
    ensures AtMarker(Stream(fr, parts, g, last))
    ensures |Stream(fr, parts, g, last)| >= 2 && (Stream(fr, parts, g, last)[1] == EOI ==> parts == [])
  {
    hide HeaderBytes, ScanBytes, P.Gathered;
    if parts != [] {
      WritableRest(fr, parts, g);
      HeaderStart(parts[0].slots, last, parts[0].head);
    }
  }

  // ----- reading what was written -----

  /** Reading scans forwards from what is held. */
  ghost function ReplayFrom(g: P.Grid, held: P.Grid, steps: seq<P.Step>): P.ReadResult
    decreases |steps|
  {
    if steps == [] then P.ReadDone(held, [])
    else
      match P.ReplayStep(g, held, steps[0])
      case ReadFail => P.ReadFail
      case ReadDone(h, _) => ReplayFrom(g, h, steps[1..])
  }

  lemma {:induction false} ReplayOneMore(g: P.Grid, held: P.Grid, steps: seq<P.Step>, h: P.Grid, s: P.Step)
    requires ReplayFrom(g, held, steps) == P.ReadDone(h, [])
    ensures ReplayFrom(g, held, steps + [s]) == match P.ReplayStep(g, h, s) case ReadFail => P.ReadFail case ReadDone(h', _) => P.ReadDone(h', [])
    decreases |steps|
  {
    hide P.ReplayStep;
    if steps == [] {
      assert ([] + [s])[1..] == [];
    } else {
      assert (steps + [s])[1..] == steps[1..] + [s];
      var r := P.ReplayStep(g, held, steps[0]);
      ReplayOneMore(g, r.held, steps[1..], h, s);
    }
  }

  /** Reading forwards is replaying. */
  lemma {:induction false} ReplayIsForward(g: P.Grid, steps: seq<P.Step>, held: P.Grid, tail: seq<byte>)
    requires P.Replay(g, steps) == P.ReadDone(held, tail)
    ensures ReplayFrom(g, P.BlankGrid(g), steps) == P.ReadDone(held, [])
    decreases |steps|
  {
    hide P.ReplayStep, P.BlankGrid;
    if steps != [] {
      var n := |steps| - 1;
      var r := P.Replay(g, steps[..n]);
      ReplayIsForward(g, steps[..n], r.held, r.tail);
      ReplayOneMore(g, P.BlankGrid(g), steps[..n], r.held, steps[n]);
      assert steps == steps[..n] + [steps[n]];
    }
  }

  /** Reading the scan's data as the header describes it is reading the scan that was written. */
  lemma ScanIsStep(fr: Frame, p: Part, planes: seq<McuLayout.Plane>, d: DecState, held: P.Grid, s: P.Step, bytes: seq<byte>)
    requires PartOk(fr, p) && F.PlanesOk(fr.im, planes) && F.StepLaid(p.step, fr.im, planes)
    requires d.restart == p.head.restart && s == p.step.(tabs := d.tabs, tail := s.tail)
    requires CanRead(held, s.visits, s.scan)
    ensures ReadScan(fr, d, SosFor(p.head), bytes, held) == P.ReadStep(held, s, bytes)
  {
    hide DecodeScan, SosFor, LayoutFor, ScanFor, V.LayoutVisits, Understood, F.StepLaid, F.PlanesOk, AllPresent, Needed, P.AllInside, P.Gathered,
         P.StoreAll, P.AreMcus, P.SameShape;
    HeaderMeans(fr, p, planes);
    var scan := ScanFor(fr, SosFor(p.head), d.restart);
    AlikeBack(scan, s.scan);
    AlikeWf(s.scan, scan, P.Gathered(held, s.visits));
    AlikeScan(d.tabs, s.scan, scan, P.Gathered(held, s.visits), bytes, 0);
  }

  lemma AlikeBack(a: Scan, b: Scan)
    requires Alike(a, b)
    ensures Alike(b, a)
  {}

  /** One scan of the stream is read: the decoder goes on with what the scan gave it. */
  lemma ScanRead(fr: Frame, parts: seq<Part>, planes: seq<McuLayout.Plane>, g: P.Grid, d: DecState, last: nat, held: P.Grid)
    requires Writable(fr, parts, g) && parts != [] && F.PlanesOk(fr.im, planes) && F.StepLaid(parts[0].step, fr.im, planes)
    requires InSync(parts[0].slots, d) && d.restart == last % 0x1_0000
    requires P.ReplayStep(g, held, StreamSteps(fr, parts, g, d)[0]).ReadDone?
    ensures PartOk(fr, parts[0]) && Writable(fr, parts[1..], g)
    ensures ReadFile(fr, Stream(fr, parts, g, last), d, held)
         == ReadFile(fr, Stream(fr, parts[1..], g, parts[0].head.restart), AtScan(parts[0], d), P.ReplayStep(g, held, StreamSteps(fr, parts, g, d)[0]).held)
  {
    hide ReadMarkers, ReadScan, HeaderBytes, ScanBytes, SosFor, F.StepLaid, F.PlanesOk, HeadOk, AllPresent, InSync, DecAfter, Needed, NumbersOk, Scan.Wf, McusFit,
         P.AllInside, P.Gathered, P.ReadStep, HasTables;
    WritableRest(fr, parts, g);
    var p, s := parts[0], StreamSteps(fr, parts, g, d)[0];
    var bytes := P.StepBytes(s, g);
    HeaderRead(p.slots, last, p.head, d, bytes);
    HeaderStart(p.slots, last, p.head);
    ScanIsStep(fr, p, planes, AtScan(p, d), held, s, bytes);
  }

  ghost predicate AllLaid(parts: seq<Part>, im: Geometry.Image, planes: seq<McuLayout.Plane>)
    requires F.PlanesOk(im, planes)
  {
    forall i :: 0 <= i < |parts| ==> F.StepLaid(parts[i].step, im, planes)
  }

  /** When the scans can be replayed, reading the stream replays them. */
  lemma {:induction false} StreamReplays(fr: Frame, parts: seq<Part>, planes: seq<McuLayout.Plane>, g: P.Grid, before: Slots, d: DecState, last: nat,
                                         held: P.Grid, end: P.Grid)
    requires Writable(fr, parts, g) && F.PlanesOk(fr.im, planes) && AllLaid(parts, fr.im, planes)
    requires Chained(before, parts) && InSync(before, d) && d.restart == last % 0x1_0000
    requires ReplayFrom(g, held, StreamSteps(fr, parts, g, d)) == P.ReadDone(end, [])
    ensures ReadFile(fr, Stream(fr, parts, g, last), d, held) == FileRead(end)
    decreases |parts|
  {
    hide ReadMarkers, ReadScan, ReadFile, HeaderBytes, ScanBytes, F.StepLaid, F.PlanesOk, PartOk, CanRead, InSync, Later, P.ReplayStep, MarkSent, DecAtScan,
         AllPresent;
    if parts == [] {
      EndIsRead(fr, d, held);
    } else {
      LaterInSync(before, parts[0].slots, d);
      WritableRest(fr, parts, g);
      ScanRead(fr, parts, planes, g, d, last, held);
      var steps := StreamSteps(fr, parts, g, d);
      SyncAfter(fr, parts[0], d, last);
      StreamReplays(fr, parts[1..], planes, g, MarkSent(parts[0].slots, Needed(parts[0].head, |parts[0].head.comps|)), AtScan(parts[0], d),
                    parts[0].head.restart, P.ReplayStep(g, held, steps[0]).held, end);
    }
  }

  lemma EndIsRead(fr: Frame, d: DecState, held: P.Grid)
    ensures ReadFile(fr, [0xFF, EOI], d, held) == FileRead(held)
  {}

  lemma SyncAfter(fr: Frame, p: Part, d: DecState, last: nat)
    requires PartOk(fr, p) && InSync(p.slots, d) && d.restart == last % 0x1_0000
    ensures HeadOk(p.head, p.slots) && AllPresent(p.slots, Needed(p.head, |p.head.comps|))
    ensures InSync(MarkSent(p.slots, Needed(p.head, |p.head.comps|)), AtScan(p, d)) && HasTables(p.head, p.slots, AtScan(p, d))
    ensures AtScan(p, d).restart == p.head.restart % 0x1_0000 == p.head.restart
  {
    hide ReadMarkers, HeaderBytes, InSync, HasTables, DecAfter, NumbersOk, AllPresent, Legal, Derives;
    HeaderRead(p.slots, last, p.head, d, []);
  }
}
