/** What the five MCU encoders emit, the matching decoders of sections F.2 and G.2 of T.81,
    and the round trip over one restart interval. */
module ScanCoding {
  import opened Bits
  import opened Arithmetic
  import opened ByteStuffing
  import opened HuffmanTable
  import opened Coefficients
  import opened EntropyOps
  import opened BandCoding
  import opened EobRuns

  datatype Kind = Sequential | DcFirst | DcRefine | AcFirst | AcRefine

  /** The routine that start_pass_phuff selects from the spectral band and the successive approximation. */
  function KindOf(ss: nat, ah: nat): Kind {
    if ah == 0 then (if ss == 0 then DcFirst else AcFirst) else if ss == 0 then DcRefine else AcRefine
  }

  /** The parameters of a scan that its entropy coder looks at. */
  datatype Scan = Scan(kind: Kind, ss: nat, se: nat, al: nat, dcTbl: seq<int>, acTbl: seq<int>,
                       membership: seq<nat>, restart: nat) {
    predicate IsAC() { kind.AcFirst? || kind.AcRefine? }

    ghost predicate Wf() {
      && |dcTbl| == |acTbl| > 0
      && (forall b :: 0 <= b < |membership| ==> membership[b] < |dcTbl|)
      && (IsAC() ==> 0 < ss <= se < DCTSIZE2 && |membership| == 1 && |dcTbl| == 1)
    }

    function DcId(ci: nat): TableId
      requires ci < |dcTbl|
    {
      TableId(false, dcTbl[ci])
    }

    function AcId(ci: nat): TableId
      requires ci < |acTbl|
    {
      TableId(true, acTbl[ci])
    }
  }

  /** The blocks of one MCU, coefficients in zigzag order. */
  type Mcu = seq<Block>

  datatype Coder = Coder(lastDc: seq<int>, pend: Pending)

  function FreshCoder(scan: Scan): Coder {
    Coder(seq(|scan.dcTbl|, _ => 0), NONE_PENDING)
  }

  // ----- encoding -----

  /** A DC difference: magnitude category and appended bits. */
  function DcOps(t: TableId, diff: int): seq<Op> {
    var n := BitLength(Abs(diff));
    if n > MAX_COEF_BITS + 1 then [OutOfRange]
    else [Sym(t, n)] + (if n > 0 then [Raw(Appended(diff), n)] else [])
  }

  /** The values of a first scan: each coefficient after the point transform. */
  function FirstItem(x: int, al: nat): Item {
    var a := Shr(Abs(x), al);
    if a == 0 then Zero else New(WithSign(x, a))
  }

  /** A refinement: only coefficients whose magnitude becomes 1 are new. */
  function RefineItem(x: int, al: nat): Item {
    var a := Shr(Abs(x), al);
    if a == 0 then Zero else if a == 1 then New(WithSign(x, 1)) else Corr(a % 2 == 1)
  }

  function ItemsOf(refine: bool, z: Block, al: nat): Items {
    seq(DCTSIZE2, k requires 0 <= k < DCTSIZE2 => if refine then RefineItem(z[k], al) else FirstItem(z[k], al))
  }

  /** The AC coefficients of a sequential block. */
  function SequentialAcOps(t: TableId, z: Block): seq<Op> {
    var b := Band(t, ItemsOf(false, z, 0), 1, DCTSIZE2);
    b.sym + (if b.eob then [Sym(t, 0)] else [])
  }

  /** One block of a scan that is not an AC scan, given the prediction for its component. */
  function BlockOps(scan: Scan, ci: nat, z: Block, last: int): (seq<Op>, int)
    requires ci < |scan.dcTbl| == |scan.acTbl|
  {
    match scan.kind
    case Sequential => (DcOps(scan.DcId(ci), z[0] - last) + SequentialAcOps(scan.AcId(ci), z), z[0])
    case DcRefine => ([Raw(Asr(z[0], scan.al), 1)], last)
    case _ => (DcOps(scan.DcId(ci), Asr(z[0], scan.al) - last), Asr(z[0], scan.al))
  }

  function BlocksOps(scan: Scan, mcu: Mcu, b: nat, lastDc: seq<int>): (seq<Op>, seq<int>)
    requires scan.Wf() && |lastDc| == |scan.dcTbl|
    requires b <= |mcu| == |scan.membership|
    ensures |BlocksOps(scan, mcu, b, lastDc).1| == |lastDc|
    decreases |mcu| - b
  {
    if b == |mcu| then ([], lastDc)
    else
      var ci := scan.membership[b];
      var (ops, last) := BlockOps(scan, ci, mcu[b], lastDc[ci]);
      var (more, lastDc') := BlocksOps(scan, mcu, b + 1, lastDc[ci := last]);
      (ops + more, lastDc')
  }

  /** The band of an AC scan's block. */
  function AcBand(scan: Scan, z: Block): BandOps
    requires scan.Wf() && scan.IsAC()
  {
    Band(scan.AcId(0), ItemsOf(scan.kind.AcRefine?, z, scan.al), scan.ss, scan.se + 1)
  }

  /** The coder state fits the scan. */
  ghost predicate CoderOk(scan: Scan, c: Coder) {
    |c.lastDc| == |scan.dcTbl| && PendingOk(c.pend) && (!scan.IsAC() ==> c.pend == NONE_PENDING)
  }

  ghost predicate McuFits(scan: Scan, mcu: Mcu) {
    |mcu| == |scan.membership|
  }

  ghost predicate McusFit(scan: Scan, mcus: seq<Mcu>) {
    forall i :: 0 <= i < |mcus| ==> McuFits(scan, mcus[i])
  }

  /** encode_mcu of any kind: the operations emitted now. */
  function McuOps(scan: Scan, mcu: Mcu, c: Coder): seq<Op>
    requires scan.Wf() && CoderOk(scan, c) && McuFits(scan, mcu)
  {
    if scan.IsAC() then BandEmits(scan.AcId(0), c.pend, AcBand(scan, mcu[0])).0
    else BlocksOps(scan, mcu, 0, c.lastDc).0
  }

  /** encode_mcu of any kind: the coder state after. */
  function NextCoder(scan: Scan, mcu: Mcu, c: Coder): (c': Coder)
    requires scan.Wf() && CoderOk(scan, c) && McuFits(scan, mcu)
    ensures CoderOk(scan, c')
  {
    if scan.IsAC() then
      CorrBitsFew(scan, mcu[0]);
      PendingKept(scan.AcId(0), c.pend, AcBand(scan, mcu[0]));
      c.(pend := BandEmits(scan.AcId(0), c.pend, AcBand(scan, mcu[0])).1)
    else c.(lastDc := BlocksOps(scan, mcu, 0, c.lastDc).1)
  }

  lemma CorrBitsFew(scan: Scan, z: Block)
    requires scan.Wf() && scan.IsAC()
    ensures |AcBand(scan, z).br| < DCTSIZE2
  {
    hide SymOps, CorrBits, ItemsOf;
    var its := ItemsOf(scan.kind.AcRefine?, z, scan.al);
    CorrBitsLength(its, End(its, scan.ss, scan.se + 1), scan.se + 1);
  }

  /** emit_eobrun at the end of an interval; nothing in a scan that is not an AC scan. */
  function EndOps(scan: Scan, c: Coder): seq<Op>
    requires scan.Wf() && CoderOk(scan, c)
  {
    FlushOps(scan.AcId(0), c.pend)
  }

  /** All operations of one restart interval. */
  function IntervalOps(scan: Scan, mcus: seq<Mcu>, c: Coder): seq<Op>
    requires scan.Wf() && CoderOk(scan, c) && McusFit(scan, mcus)
    decreases |mcus|
  {
    if mcus == [] then EndOps(scan, c)
    else
      McuOps(scan, mcus[0], c) + IntervalOps(scan, mcus[1..], NextCoder(scan, mcus[0], c))
  }

  // ----- decoding -----

  datatype DcResult = DcFail | DcDone(diff: int, rest: seq<bool>)

  /** DC difference decoding: a category symbol, then EXTEND of that many bits. */
  function DecodeDc(tab: Table, bits: seq<bool>): DcResult {
    match DecodeSymbol(tab, bits)
    case NoCode => DcFail
    case Symbol(n, b1) =>
      match Receive(b1, n)
      case Short => DcFail
      case Received(v, b2) => DcDone(Extend(v, n), b2)
  }

  datatype BlockResult = BlockFail | BlockDone(block: seq<int>, rest: seq<bool>, last: int)

  function Blank(): Block {
    seq(DCTSIZE2, _ => 0)
  }

  /** Section F.2.2: one sequential block, built from an all-zero one. */
  function DecodeSequential(dc: Table, ac: Table, bits: seq<bool>, last: int): BlockResult {
    match DecodeDc(dc, bits)
    case DcFail => BlockFail
    case DcDone(diff, b1) =>
      match DecodeBand(ac, false, Blank()[0 := last + diff], b1, 1, DCTSIZE2, 0)
      case BandFail => BlockFail
      case BandDone(z, b2, run) => if run > 1 then BlockFail else BlockDone(z, b2, last + diff)
  }

  /** A block of a DC scan: first scan or one more bit. */
  function DecodeDcScan(tabs: Tables, scan: Scan, ci: nat, h: Block, bits: seq<bool>, last: int): BlockResult
    requires ci < |scan.dcTbl|
  {
    if scan.kind.DcRefine? then
      if bits == [] then BlockFail
      else BlockDone(h[0 := h[0] + (if bits[0] then Pow2(scan.al) else 0)], bits[1..], last)
    else if scan.DcId(ci) !in tabs then BlockFail
    else match DecodeDc(tabs[scan.DcId(ci)], bits)
      case DcFail => BlockFail
      case DcDone(diff, rest) => BlockDone(h[0 := (last + diff) * Pow2(scan.al)], rest, last + diff)
  }

  function DecodeBlock(tabs: Tables, scan: Scan, ci: nat, h: Block, bits: seq<bool>, last: int): BlockResult
    requires ci < |scan.dcTbl| == |scan.acTbl|
  {
    if scan.kind.Sequential? then
      if scan.DcId(ci) in tabs && scan.AcId(ci) in tabs
      then DecodeSequential(tabs[scan.DcId(ci)], tabs[scan.AcId(ci)], bits, last)
      else BlockFail
    else DecodeDcScan(tabs, scan, ci, h, bits, last)
  }

  datatype Decoder = Decoder(lastDc: seq<int>, run: nat)

  function FreshDecoder(scan: Scan): Decoder {
    Decoder(seq(|scan.dcTbl|, _ => 0), 0)
  }

  datatype McuResult = McuFail | McuDone(blocks: seq<seq<int>>, rest: seq<bool>, d: Decoder)

  function DecodeBlocks(tabs: Tables, scan: Scan, hs: Mcu, b: nat, bits: seq<bool>, lastDc: seq<int>): McuResult
    requires scan.Wf() && |lastDc| == |scan.dcTbl| && b <= |hs| == |scan.membership|
    decreases |hs| - b
  {
    if b == |hs| then McuDone([], bits, Decoder(lastDc, 0))
    else
      var ci := scan.membership[b];
      match DecodeBlock(tabs, scan, ci, hs[b], bits, lastDc[ci])
      case BlockFail => McuFail
      case BlockDone(z, rest, last) =>
        match DecodeBlocks(tabs, scan, hs, b + 1, rest, lastDc[ci := last])
        case McuFail => McuFail
        case McuDone(zs, rest', d) => McuDone([z] + zs, rest', d)
  }

  /** One MCU; hs is what the decoder holds for its blocks. */
  function DecodeMcu(tabs: Tables, scan: Scan, hs: Mcu, bits: seq<bool>, d: Decoder): McuResult
    requires scan.Wf() && |d.lastDc| == |scan.dcTbl| && McuFits(scan, hs)
  {
    if scan.IsAC() then
      if scan.AcId(0) !in tabs then McuFail
      else match DecodeOne(tabs[scan.AcId(0)], scan.kind.AcRefine?, hs[0], bits, d.run, scan.ss, scan.se + 1, scan.al)
        case BandFail => McuFail
        case BandDone(z, rest, run) => McuDone([z], rest, d.(run := run))
    else DecodeBlocks(tabs, scan, hs, 0, bits, d.lastDc)
  }

  datatype IntervalResult = IntervalFail | IntervalDone(mcus: seq<seq<seq<int>>>, rest: seq<bool>)

  function DecodeInterval(tabs: Tables, scan: Scan, hists: seq<Mcu>, bits: seq<bool>, d: Decoder): IntervalResult
    requires scan.Wf() && |d.lastDc| == |scan.dcTbl| && McusFit(scan, hists)
    decreases |hists|
  {
    if hists == [] then IntervalDone([], bits)
    else match DecodeMcu(tabs, scan, hists[0], bits, d)
      case McuFail => IntervalFail
      case McuDone(zs, rest, d') =>
        if |d'.lastDc| != |scan.dcTbl| then IntervalFail
        else match DecodeInterval(tabs, scan, hists[1..], rest, d')
          case IntervalFail => IntervalFail
          case IntervalDone(more, rest') => IntervalDone([zs] + more, rest')
  }

  // ----- what decoding should give -----

  function WithBand(h: Block, z: Block, ss: nat, se: nat, al: nat): Block {
    seq(DCTSIZE2, k requires 0 <= k < DCTSIZE2 => if ss <= k <= se then AcKnown(z[k], al) else h[k])
  }

  /** A DC refinement adds one bit to whatever the decoder holds. */
  function DcRefined(h: int, x: int, al: nat): int {
    h + (if Asr(x, al) % 2 == 1 then Pow2(al) else 0)
  }

  /** The decoder's block after the scan, when it held h before and the coefficients are z. */
  function Expected(scan: Scan, h: Block, z: Block): Block {
    match scan.kind
    case Sequential => z
    case DcFirst => h[0 := DcKnown(z[0], scan.al)]
    case DcRefine => h[0 := DcRefined(h[0], z[0], scan.al)]
    case _ => WithBand(h, z, scan.ss, scan.se, scan.al)
  }

  /** What the decoder must hold before the scan for it to make sense. */
  ghost predicate Ready(scan: Scan, h: Block, z: Block) {
    match scan.kind
    case AcFirst => forall k :: scan.ss <= k <= scan.se && k < DCTSIZE2 ==> h[k] == 0
    case AcRefine => forall k :: scan.ss <= k <= scan.se && k < DCTSIZE2 ==> h[k] == AcKnown(z[k], scan.al + 1)
    case _ => true
  }

  function ExpectedMcu(scan: Scan, hs: Mcu, mcu: Mcu): Mcu
    requires |hs| == |mcu|
  {
    seq(|mcu|, b requires 0 <= b < |mcu| => Expected(scan, hs[b], mcu[b]))
  }

  ghost predicate ReadyMcu(scan: Scan, hs: Mcu, mcu: Mcu) {
    |hs| == |mcu| && forall b :: 0 <= b < |mcu| ==> Ready(scan, hs[b], mcu[b])
  }
}
