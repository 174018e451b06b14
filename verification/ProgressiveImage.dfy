/** Replaying a whole progressive file: for every accepted script the decoder ends up with each
    coefficient exactly as far as the script sent it. */
module ProgressiveImage {
  import opened Bits
  import opened ByteStuffing
  import opened HuffmanTable
  import opened Coefficients
  import opened EntropyOps
  import opened ScanCoding
  import opened IntervalRoundTrip
  import opened RestartCoding
  import opened ScanScript
  import opened OpWriter
  import opened TwoPass

  /** A place in a component, in blocks. */
  datatype Spot = Spot(row: nat, col: nat)

  /** A block of a component. */
  datatype Ref = Ref(c: nat, b: Spot)

  /** The blocks of each component, coefficients in zigzag order. */
  type Grid = seq<map<Spot, Block>>

  predicate Inside(g: Grid, r: Ref) {
    r.c < |g| && r.b in g[r.c]
  }

  function At(g: Grid, r: Ref): Block
    requires Inside(g, r)
  {
    g[r.c][r.b]
  }

  function With(g: Grid, r: Ref, z: Block): (g': Grid)
    requires Inside(g, r)
    ensures |g'| == |g| && forall q :: Inside(g', q) <==> Inside(g, q)
    ensures forall q :: Inside(g, q) ==> At(g', q) == if q == r then z else At(g, q)
  {
    var blocks: map<Spot, Block> := g[r.c][r.b := z];
    g[r.c := blocks]
  }

  /** The order in which a scan visits blocks, MCU by MCU. */
  type Visits = seq<seq<Ref>>

  ghost predicate AllInside(g: Grid, visits: Visits) {
    forall i, k :: 0 <= i < |visits| && 0 <= k < |visits[i]| ==> Inside(g, visits[i][k])
  }

  ghost predicate Visited(visits: Visits, r: Ref) {
    exists i, k :: 0 <= i < |visits| && 0 <= k < |visits[i]| && visits[i][k] == r
  }

  /** The MCUs of a scan, taken from a grid. */
  function Gathered(g: Grid, visits: Visits): (mcus: seq<Mcu>)
    requires AllInside(g, visits)
    ensures |mcus| == |visits|
    ensures forall i :: 0 <= i < |visits| ==> |mcus[i]| == |visits[i]|
  {
    seq(|visits|, i requires 0 <= i < |visits| => seq(|visits[i]|, k requires 0 <= k < |visits[i]| => At(g, visits[i][k])))
  }

  // ----- storing decoded blocks -----

  function StoreMcu(g: Grid, refs: seq<Ref>, blocks: Mcu): (g': Grid)
    requires |refs| == |blocks| && forall k :: 0 <= k < |refs| ==> Inside(g, refs[k])
    ensures |g'| == |g| && forall q :: Inside(g', q) <==> Inside(g, q)
    decreases |refs|
  {
    if refs == [] then g
    else
      var n := |refs| - 1;
      With(StoreMcu(g, refs[..n], blocks[..n]), refs[n], blocks[n])
  }

  ghost predicate SameShape(visits: Visits, mcus: seq<Mcu>) {
    |mcus| == |visits| && forall i :: 0 <= i < |visits| ==> |mcus[i]| == |visits[i]|
  }

  ghost function StoreAll(g: Grid, visits: Visits, mcus: seq<Mcu>): (g': Grid)
    requires AllInside(g, visits) && SameShape(visits, mcus)
    ensures |g'| == |g| && forall q :: Inside(g', q) <==> Inside(g, q)
    decreases |visits|
  {
    if visits == [] then g
    else
      var n := |visits| - 1;
      StoreMcu(StoreAll(g, visits[..n], mcus[..n]), visits[n], mcus[n])
  }

  lemma {:induction false} McuStored(g: Grid, refs: seq<Ref>, blocks: Mcu, target: Grid, q: Ref)
    requires |refs| == |blocks| && Inside(g, q) && Inside(target, q)
    requires forall k :: 0 <= k < |refs| ==> Inside(g, refs[k]) && (refs[k] == q ==> blocks[k] == At(target, q))
    ensures At(StoreMcu(g, refs, blocks), q) == if q in refs then At(target, q) else At(g, q)
    decreases |refs|
  {
    if refs != [] {
      var n := |refs| - 1;
      McuStored(g, refs[..n], blocks[..n], target, q);
      assert refs == refs[..n] + [refs[n]];
    }
  }

  /** Storing what a target grid has at the visited places makes the grid agree with it there. */
  lemma {:induction false} AllStored(g: Grid, visits: Visits, mcus: seq<Mcu>, target: Grid, q: Ref)
    requires AllInside(g, visits) && SameShape(visits, mcus) && Inside(g, q) && Inside(target, q)
    requires forall i, k :: 0 <= i < |visits| && 0 <= k < |visits[i]| && visits[i][k] == q ==> mcus[i][k] == At(target, q)
    ensures At(StoreAll(g, visits, mcus), q) == if Visited(visits, q) then At(target, q) else At(g, q)
    decreases |visits|
  {
    hide At, StoreMcu, Inside;
    if visits != [] {
      var n := |visits| - 1;
      AllStored(g, visits[..n], mcus[..n], target, q);
      McuStored(StoreAll(g, visits[..n], mcus[..n]), visits[n], mcus[n], target, q);
      VisitedLast(visits, q);
    }
  }

  lemma VisitedLast(visits: Visits, q: Ref)
    requires visits != []
    ensures Visited(visits, q) <==> Visited(visits[..|visits| - 1], q) || q in visits[|visits| - 1]
  {
    var n := |visits| - 1;
    if q in visits[n] {
      var k :| 0 <= k < |visits[n]| && visits[n][k] == q;
    }
    if Visited(visits[..n], q) {
      var i, k :| 0 <= i < n && 0 <= k < |visits[..n][i]| && visits[..n][i][k] == q;
      assert visits[i][k] == q;
    }
    if Visited(visits, q) {
      var i, k :| 0 <= i < |visits| && 0 <= k < |visits[i]| && visits[i][k] == q;
      assert i < n ==> visits[..n][i][k] == q;
    }
  }

  // ----- what the decoder knows -----

  /** The value a decoder holds for coefficient k when bits down to al were sent; nothing was when al < 0. */
  function KnownAt(x: int, k: nat, al: int): int {
    if al < 0 then 0 else if k == 0 then DcKnown(x, al) else AcKnown(x, al)
  }

  ghost predicate BlockKnown(h: Block, z: Block, row: Row) {
    forall k :: 0 <= k < DCTSIZE2 ==> h[k] == KnownAt(z[k], k, row[k])
  }

  /** The entropy coder's view of a script entry. */
  ghost predicate Matches(scan: Scan, info: ScanInfo) {
    && 0 <= info.ss && 0 <= info.ah && 0 <= info.al && 0 <= info.se
    && scan.Wf() && scan.kind == KindOf(info.ss, info.ah)
    && scan.ss == info.ss && scan.se == info.se && scan.al == info.al && |scan.dcTbl| == |info.Comps()|
  }

  lemma FirstOrNext(info: ScanInfo, row: Row, k: nat)
    requires GoodBand(info) && ComponentOk(info, row) && info.ss <= k <= info.se
    ensures if info.ah == 0 then row[k] < 0 else row[k] == info.al + 1
  {
    assert Continues(info, row[k]);
  }

  /** One block, one scan: the decoder had what the scan presupposes, and has what it conveys. */
  lemma BlockStep(scan: Scan, info: ScanInfo, h: Block, z: Block, row: Row)
    requires Matches(scan, info) && GoodBand(info) && ComponentOk(info, row) && BlockKnown(h, z, row)
    ensures Ready(scan, h, z) && BlockKnown(Expected(scan, h, z), z, RowAfter(row, info))
  {
    hide DcKnown, AcKnown, ComponentOk, Continues, DcRefined;
    forall k | info.ss <= k <= info.se
      ensures if info.ah == 0 then row[k] < 0 else row[k] == info.al + 1
    {
      FirstOrNext(info, row, k);
    }
    if scan.kind.DcRefine? {
      DcRefines(z[0], scan.al);
    }
  }

  // ----- one scan of the file -----

  /** A scan as it is in the file: its order of blocks, its codes, and what follows it. */
  datatype Step = Step(info: ScanInfo, scan: Scan, visits: Visits, book: Codebook, tabs: Tables, tail: seq<byte>)

  ghost predicate EachOnce(visits: Visits) {
    forall i, k, j, l ::
      (0 <= i < |visits| && 0 <= k < |visits[i]| && 0 <= j < |visits| && 0 <= l < |visits[j]| && visits[i][k] == visits[j][l])
      ==> i == j && k == l
  }

  /** The blocks visited belong to the components that the MCU structure says. */
  ghost predicate InPlace(s: Step, image: Grid) {
    && AllInside(image, s.visits) && |s.scan.dcTbl| == |s.info.Comps()| && s.scan.Wf()
    && forall i :: 0 <= i < |s.visits| ==>
         |s.visits[i]| == |s.scan.membership|
         && forall k :: 0 <= k < |s.visits[i]| ==> s.visits[i][k].c == s.info.Comps()[s.scan.membership[k]]
  }

  /** Every real block of the scan's components is visited; an AC scan visits no others. */
  ghost predicate CoversReal(s: Step, present: seq<set<Spot>>) {
    && (forall c: nat, b :: 0 <= c < |present| && b in present[c] && c in s.info.Comps() ==> Visited(s.visits, Ref(c, b)))
    && (s.info.ss != 0 ==> forall r :: Visited(s.visits, r) ==> r.c < |present| && r.b in present[r.c])
  }

  ghost predicate StepFits(s: Step, image: Grid, present: seq<set<Spot>>) {
    && Matches(s.scan, s.info) && InPlace(s, image) && EachOnce(s.visits) && CoversReal(s, present)
    && Tied(s.book, s.tabs) && BookCovers(s.scan, s.book) && AtMarker(s.tail)
    && McusFit(s.scan, Gathered(image, s.visits)) && Emittable(ScanOps(s.scan, Gathered(image, s.visits)), s.book)
  }

  /** The decoder's grid has the image's shape, and knows each real block as far as the table says. */
  ghost predicate Knows(held: Grid, image: Grid, present: seq<set<Spot>>, sent: Sent) {
    && (forall r :: Inside(held, r) <==> Inside(image, r))
    && |sent| == |present| == |image| == |held|
    && (forall c: nat, b :: 0 <= c < |present| && b in present[c] ==> Inside(image, Ref(c, b)))
    && (forall c: nat, b :: 0 <= c < |present| && b in present[c] ==> BlockKnown(At(held, Ref(c, b)), At(image, Ref(c, b)), sent[c]))
  }

  datatype ReadResult = ReadFail | ReadDone(held: Grid, tail: seq<byte>)

  ghost predicate AreMcus(zs: seq<seq<seq<int>>>) {
    forall i, k :: 0 <= i < |zs| && 0 <= k < |zs[i]| ==> |zs[i][k]| == DCTSIZE2
  }

  /** Reading one scan: decode its MCUs from what is held, and store them. */
  ghost function ReadStep(held: Grid, s: Step, bytes: seq<byte>): ReadResult
    requires AllInside(held, s.visits) && s.scan.Wf() && McusFit(s.scan, Gathered(held, s.visits))
  {
    match DecodeScan(s.tabs, s.scan, Gathered(held, s.visits), bytes, 0)
    case ScanFail => ReadFail
    case ScanDone(zs, tail) =>
      if !AreMcus(zs) then ReadFail
      else
        var mcus: seq<Mcu> := zs;
        if SameShape(s.visits, mcus) then ReadDone(StoreAll(held, s.visits, mcus), tail) else ReadFail
  }

  lemma TablesAreKnown(scan: Scan, tabs: Tables, book: Codebook)
    requires scan.Wf() && Tied(book, tabs) && BookCovers(scan, book)
    ensures TablesKnown(scan, tabs)
  {
    hide Derives, Legal, TableOf;
    forall ci | 0 <= ci < |scan.dcTbl|
      ensures scan.kind.Sequential? || scan.kind.DcFirst? ==> scan.DcId(ci) in tabs
      ensures scan.kind.Sequential? || scan.IsAC() ==> scan.AcId(ci) in tabs
    {
      assert scan.dcTbl[ci] in scan.dcTbl && scan.acTbl[ci] in scan.acTbl;
      assert scan.kind.Sequential? || scan.kind.DcFirst? ==> Uses(scan, scan.DcId(ci));
      assert scan.kind.Sequential? || scan.IsAC() ==> Uses(scan, scan.AcId(ci));
    }
  }

  /** What every block would be if the scan visited it. */
  function Targets(held: Grid, image: Grid, scan: Scan): (g: Grid)
    requires forall r :: Inside(held, r) <==> Inside(image, r)
    requires |held| == |image|
    ensures |g| == |held| && forall c :: 0 <= c < |g| ==> g[c].Keys == held[c].Keys
  {
    seq(|held|, c requires 0 <= c < |held| =>
      map b | b in held[c] ::
        assert Inside(held, Ref(c, b)); assert Inside(image, Ref(c, b));
        Expected(scan, held[c][b], image[c][b]))
  }

  lemma TargetAt(held: Grid, image: Grid, scan: Scan, r: Ref)
    requires (forall r :: Inside(held, r) <==> Inside(image, r)) && |held| == |image| && Inside(held, r)
    ensures Inside(Targets(held, image, scan), r) && At(Targets(held, image, scan), r) == Expected(scan, At(held, r), At(image, r))
  {
    hide Expected;
  }

  /** Where a visited block stands. */
  lemma VisitIs(s: Step, image: Grid, present: seq<set<Spot>>, i: nat, k: nat)
    requires InPlace(s, image) && CoversReal(s, present) && i < |s.visits| && k < |s.visits[i]|
    ensures Inside(image, s.visits[i][k]) && s.visits[i][k].c in s.info.Comps()
    ensures s.info.ss != 0 ==> s.visits[i][k].c < |present| && s.visits[i][k].b in present[s.visits[i][k].c]
  {
    assert Visited(s.visits, s.visits[i][k]);
  }

  lemma VisitIsReady(s: Step, held: Grid, image: Grid, present: seq<set<Spot>>, sent: Sent, i: nat, k: nat)
    requires Knows(held, image, present, sent) && StepOk(sent, s.info) && Matches(s.scan, s.info)
    requires InPlace(s, image) && CoversReal(s, present) && i < |s.visits| && k < |s.visits[i]|
    ensures Inside(held, s.visits[i][k]) && Inside(image, s.visits[i][k])
    ensures Ready(s.scan, At(held, s.visits[i][k]), At(image, s.visits[i][k]))
  {
    hide ComponentOk, BlockKnown, GoodComps;
    VisitIs(s, image, present, i, k);
    var r := s.visits[i][k];
    if s.info.ss != 0 {
      assert r == Ref(r.c, r.b);
      BlockStep(s.scan, s.info, At(held, r), At(image, r), sent[r.c]);
    }
  }

  lemma GatheredReady(s: Step, held: Grid, image: Grid, present: seq<set<Spot>>, sent: Sent)
    requires Knows(held, image, present, sent) && StepOk(sent, s.info) && Matches(s.scan, s.info) && InPlace(s, image) && CoversReal(s, present)
    ensures AllInside(held, s.visits)
    ensures McusFit(s.scan, Gathered(held, s.visits)) && McusFit(s.scan, Gathered(image, s.visits))
    ensures ReadyMcus(s.scan, Gathered(held, s.visits), Gathered(image, s.visits))
  {
    hide StepOk, Matches, CoversReal, Ready, At;
    forall i, k | 0 <= i < |s.visits| && 0 <= k < |s.visits[i]|
      ensures Inside(held, s.visits[i][k]) && Ready(s.scan, At(held, s.visits[i][k]), At(image, s.visits[i][k]))
    {
      VisitIsReady(s, held, image, present, sent, i, k);
    }
    forall i | 0 <= i < |s.visits|
      ensures ReadyMcu(s.scan, Gathered(held, s.visits)[i], Gathered(image, s.visits)[i])
    {
    }
  }

  /** Storing the decoded MCUs gives the target at every visited block. */
  lemma StoredAt(s: Step, held: Grid, image: Grid, mcus: seq<Mcu>, q: Ref)
    requires (forall r :: Inside(held, r) <==> Inside(image, r)) && |held| == |image| && AllInside(held, s.visits) && AllInside(image, s.visits)
    requires mcus == ExpectedMcus(s.scan, Gathered(held, s.visits), Gathered(image, s.visits)) && SameShape(s.visits, mcus)
    requires Inside(held, q)
    ensures At(StoreAll(held, s.visits, mcus), q) == if Visited(s.visits, q) then Expected(s.scan, At(held, q), At(image, q)) else At(held, q)
  {
    hide Expected, StoreAll, Targets, Visited;
    var target := Targets(held, image, s.scan);
    TargetAt(held, image, s.scan, q);
    forall i, k | 0 <= i < |s.visits| && 0 <= k < |s.visits[i]| && s.visits[i][k] == q
      ensures mcus[i][k] == At(target, q)
    {
      assert mcus[i][k] == Expected(s.scan, Gathered(held, s.visits)[i][k], Gathered(image, s.visits)[i][k]);
    }
    AllStored(held, s.visits, mcus, target, q);
  }

  lemma ExpectedShapes(s: Step, held: Grid, image: Grid)
    requires AllInside(held, s.visits) && AllInside(image, s.visits)
    ensures var mcus := ExpectedMcus(s.scan, Gathered(held, s.visits), Gathered(image, s.visits));
            SameShape(s.visits, mcus) && AreMcus(mcus)
  {
    hide Expected;
  }

  /** The component is in the scan exactly when its real blocks are visited. */
  lemma VisitedIffSent(s: Step, image: Grid, present: seq<set<Spot>>, c: nat, b: Spot)
    requires InPlace(s, image) && CoversReal(s, present) && c < |present| && b in present[c]
    ensures Visited(s.visits, Ref(c, b)) <==> c in s.info.Comps()
  {
    if Visited(s.visits, Ref(c, b)) {
      var i, k :| 0 <= i < |s.visits| && 0 <= k < |s.visits[i]| && s.visits[i][k] == Ref(c, b);
      VisitIs(s, image, present, i, k);
    }
  }

  lemma KnowsAfter(s: Step, held: Grid, image: Grid, present: seq<set<Spot>>, sent: Sent, mcus: seq<Mcu>)
    requires Knows(held, image, present, sent) && StepOk(sent, s.info) && Matches(s.scan, s.info) && InPlace(s, image) && CoversReal(s, present)
    requires AllInside(held, s.visits) && AllInside(image, s.visits)
    requires mcus == ExpectedMcus(s.scan, Gathered(held, s.visits), Gathered(image, s.visits)) && SameShape(s.visits, mcus)
    ensures Knows(StoreAll(held, s.visits, mcus), image, present, After(sent, s.info))
  {
    hide StoreAll, Expected, BlockKnown, Ready, RowAfter, ComponentOk, GoodComps, Matches, InPlace, CoversReal, At;
    var held' := StoreAll(held, s.visits, mcus);
    forall c: nat, b | 0 <= c < |present| && b in present[c]
      ensures BlockKnown(At(held', Ref(c, b)), At(image, Ref(c, b)), After(sent, s.info)[c])
    {
      assert Inside(image, Ref(c, b));
      StoredAt(s, held, image, mcus, Ref(c, b));
      VisitedIffSent(s, image, present, c, b);
      assert BlockKnown(At(held, Ref(c, b)), At(image, Ref(c, b)), sent[c]);
      if c in s.info.Comps() {
        BlockStep(s.scan, s.info, At(held, Ref(c, b)), At(image, Ref(c, b)), sent[c]);
      }
    }
  }

  /** The entropy-coded bytes of a scan of the image. */
  ghost function StepBytes(s: Step, image: Grid): seq<byte>
    requires AllInside(image, s.visits) && s.scan.Wf() && McusFit(s.scan, Gathered(image, s.visits))
  {
    ScanBytes(s.scan, s.book, Gathered(image, s.visits)) + s.tail
  }

  /** One scan of the file is read back: the decoder knows what the table says next. */
  lemma StepReplays(s: Step, held: Grid, image: Grid, present: seq<set<Spot>>, sent: Sent) returns (held': Grid)
    requires Knows(held, image, present, sent) && StepOk(sent, s.info) && StepFits(s, image, present)
    ensures AllInside(held, s.visits) && McusFit(s.scan, Gathered(held, s.visits))
    ensures ReadStep(held, s, StepBytes(s, image)) == ReadDone(held', s.tail)
    ensures Knows(held', image, present, After(sent, s.info))
  {
    hide StepOk, Matches, InPlace, CoversReal, Knows, ReadyMcus, TablesKnown, Tied, BookCovers, Emittable, DecodeScan, ScanBytes, StoreAll, AreMcus, SameShape, Gathered, ExpectedMcus, EachOnce, AllInside;
    FitsInside(s, image);
    KnowsShape(held, image, present, sent);
    GatheredReady(s, held, image, present, sent);
    TablesAreKnown(s.scan, s.tabs, s.book);
    ScanRoundTrip(s.scan, s.tabs, s.book, Gathered(held, s.visits), Gathered(image, s.visits), s.tail);
    ExpectedShapes(s, held, image);
    var mcus := ExpectedMcus(s.scan, Gathered(held, s.visits), Gathered(image, s.visits));
    KnowsAfter(s, held, image, present, sent, mcus);
    held' := StoreAll(held, s.visits, mcus);
  }

  lemma FitsInside(s: Step, image: Grid)
    requires InPlace(s, image)
    ensures AllInside(image, s.visits) && s.scan.Wf()
  {}

  lemma KnowsShape(held: Grid, image: Grid, present: seq<set<Spot>>, sent: Sent)
    requires Knows(held, image, present, sent)
    ensures forall r :: Inside(held, r) <==> Inside(image, r)
    ensures |held| == |image| ==> |present| == |held|
  {}

  // ----- the whole file -----

  function BlankGrid(image: Grid): (g: Grid)
    ensures |g| == |image| && forall c :: 0 <= c < |g| ==> g[c].Keys == image[c].Keys
  {
    seq(|image|, c requires 0 <= c < |image| => map b | b in image[c] :: Blank())
  }

  ghost predicate Readable(held: Grid, image: Grid, s: Step) {
    && AllInside(held, s.visits) && AllInside(image, s.visits) && s.scan.Wf()
    && McusFit(s.scan, Gathered(held, s.visits)) && McusFit(s.scan, Gathered(image, s.visits))
  }

  /** Reading the scans of a file one after the other, from an all-zero grid. */
  ghost function Replay(image: Grid, steps: seq<Step>): ReadResult {
    if steps == [] then ReadDone(BlankGrid(image), [])
    else
      var last := steps[|steps| - 1];
      match Replay(image, steps[..|steps| - 1])
      case ReadFail => ReadFail
      case ReadDone(held, _) => ReplayStep(image, held, last)
  }

  /** One more scan, which must be read up to exactly what follows it. */
  ghost function ReplayStep(image: Grid, held: Grid, s: Step): ReadResult {
    if !Readable(held, image, s) then ReadFail
    else
      var r := ReadStep(held, s, StepBytes(s, image));
      if r.ReadDone? && r.tail == s.tail then r else ReadFail
  }

  ghost predicate PresentInside(image: Grid, present: seq<set<Spot>>) {
    |present| == |image| && forall c: nat, b :: 0 <= c < |present| && b in present[c] ==> Inside(image, Ref(c, b))
  }

  lemma BlankKnows(image: Grid, present: seq<set<Spot>>)
    requires PresentInside(image, present)
    ensures Knows(BlankGrid(image), image, present, NothingSent(|image|))
  {}

  ghost predicate StepsFit(steps: seq<Step>, script: seq<ScanInfo>, image: Grid, present: seq<set<Spot>>) {
    |steps| == |script| && forall i :: 0 <= i < |script| ==> steps[i].info == script[i] && StepFits(steps[i], image, present)
  }

  /** Main theorem for progressive files: replaying all scans of any script that validation accepts, the
      decoder ends up knowing every coefficient of every real block exactly as far as it was sent: DC values
      arithmetically shifted by their final Al, AC values as sign and shifted magnitude, the others zero. */
  lemma {:induction false} ScriptReplays(steps: seq<Step>, script: seq<ScanInfo>, image: Grid, present: seq<set<Spot>>) returns (held: Grid, tail: seq<byte>)
    requires PresentInside(image, present) && StepsFit(steps, script, image, present)
    requires StepsOk(NothingSent(|image|), script)
    ensures Replay(image, steps) == ReadDone(held, tail)
    ensures Knows(held, image, present, AfterAll(NothingSent(|image|), script))
    decreases |steps|
  {
    hide Knows, StepFits, StepOk, After, NothingSent, ReadStep, PresentInside, BlankGrid;
    if steps == [] {
      BlankKnows(image, present);
      held, tail := BlankGrid(image), [];
    } else {
      var n := |steps| - 1;
      var h, t := ScriptReplays(steps[..n], script[..n], image, present);
      var s := steps[n];
      held := StepReplays(s, h, image, present, AfterAll(NothingSent(|image|), script[..n]));
      FitsReadable(s, image, present);
      tail := s.tail;
    }
  }

  lemma FitsReadable(s: Step, image: Grid, present: seq<set<Spot>>)
    requires StepFits(s, image, present)
    ensures AllInside(image, s.visits) && s.scan.Wf() && McusFit(s.scan, Gathered(image, s.visits))
  {
    hide Emittable, Tied;
  }

  lemma KnownExactly(x: int, k: nat)
    ensures KnownAt(x, k, 0) == x
  {
    assert Pow2(0) == 1;
  }

  /** When every coefficient was sent down to its last bit, the decoder has the image. */
  lemma CompleteIsExact(held: Grid, image: Grid, present: seq<set<Spot>>, sent: Sent, c: nat, b: Spot)
    requires Knows(held, image, present, sent) && c < |present| && b in present[c]
    requires forall k :: 0 <= k < DCTSIZE2 ==> sent[c][k] == 0
    ensures Inside(held, Ref(c, b)) && Inside(image, Ref(c, b)) && At(held, Ref(c, b)) == At(image, Ref(c, b))
  {
    assert Inside(image, Ref(c, b));
    var h, z := At(held, Ref(c, b)), At(image, Ref(c, b));
    assert BlockKnown(h, z, sent[c]);
    hide KnownAt;
    forall k | 0 <= k < DCTSIZE2
      ensures h[k] == z[k]
    {
      KnownExactly(z[k], k);
    }
  }
}
