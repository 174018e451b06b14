/** Decoding the operations of one restart interval gives back what the scan carries. */
module IntervalRoundTrip {
  import opened Bits
  import opened Arithmetic
  import opened ByteStuffing
  import opened HuffmanTable
  import opened Coefficients
  import opened EntropyOps
  import opened BandCoding
  import opened EobRuns
  import opened ScanCoding

  // ----- DC differences -----

  lemma DcDecodes(t: TableId, diff: int, book: Codebook, tabs: Tables, y: seq<bool>)
    requires Tied(book, tabs) && t in tabs && Emittable(DcOps(t, diff), book)
    ensures DecodeDc(tabs[t], OpsBits(DcOps(t, diff), book) + y) == DcDone(diff, y)
  {
    hide Tied, OpsBits, OpBits, Emittable, OpOk, DecodeSymbol, Receive, Extend, Pow2, BitLength;
    var n := BitLength(Abs(diff));
    DcShape(t, diff, book, y);
    var ext := if n > 0 then OpBits(Raw(Appended(diff), n), book) else [];
    SymDecodes(t, n, book, tabs, ext + y);
    RawReceived(Appended(diff), n, book, y);
    ExtendInvertsAppended(diff);
    ReceiveNone(y);
    EmptyFirst(y);
    NoCategory(diff);
  }

  lemma NoCategory(diff: int)
    ensures BitLength(Abs(diff)) == 0 ==> diff == 0 && Extend(0, 0) == 0
  {}

  lemma DcShape(t: TableId, diff: int, book: Codebook, y: seq<bool>)
    requires Emittable(DcOps(t, diff), book)
    ensures var n := BitLength(Abs(diff));
            && n <= MAX_COEF_BITS + 1 && OpOk(Sym(t, n), book)
            && OpsBits(DcOps(t, diff), book) + y
            == OpBits(Sym(t, n), book) + ((if n > 0 then OpBits(Raw(Appended(diff), n), book) else []) + y)
  {
    hide OpsBits, OpBits, Emittable, OpOk, BitLength;
    var n := BitLength(Abs(diff));
    OneOpBits(OutOfRange, book);
    CannotEmit(book);
    var ext := if n > 0 then [Raw(Appended(diff), n)] else [];
    if n <= MAX_COEF_BITS + 1 {
      HeadBits(Sym(t, n), [], ext, y, book);
      NoOpBits(book);
      OneOpBits(Raw(Appended(diff), n), book);
      assert [Sym(t, n)] + [] + ext == [Sym(t, n)] + ext;
      EmptyFirst(OpsBits(ext, book) + y);
    }
  }

  // ----- the items of a scan agree with what it should convey -----

  lemma FirstAgreesAt(x: int, al: nat)
    ensures AgreesAt(false, FirstItem(x, al), 0, AcKnown(x, al), al)
  {
    hide Shr, Pow2;
    assert WithSign(x, 0) == 0;
  }

  lemma RefineAgreesAt(x: int, al: nat)
    ensures AgreesAt(true, RefineItem(x, al), AcKnown(x, al + 1), AcKnown(x, al), al)
  {
    hide Shr;
    ShrStep(Abs(x), al);
    var a, p := Shr(Abs(x), al), Pow2(al);
    assert Pow2(al + 1) == 2 * p;
    RefineArithmetic(x, a, p);
  }

  lemma RefineArithmetic(x: int, a: nat, p: nat)
    requires p > 0
    ensures var known, target := WithSign(x, a / 2) * (2 * p), WithSign(x, a) * p;
            && (a < 2 <==> known == 0) && (a == 0 ==> target == 0)
            && (a >= 2 ==> target == if a % 2 == 1 then known + WithSign(known, p) else known)
  {
    var q := a / 2;
    assert a == 2 * q || a == 2 * q + 1;
    assert q * (2 * p) == 2 * (q * p);
    assert (2 * q) * p == 2 * (q * p) && (2 * q + 1) * p == 2 * (q * p) + p;
    assert q > 0 ==> q * p > 0;
    if x < 0 {
      var negq: int := q;
      assert (-negq) * (2 * p) == -(2 * (q * p));
      var neg: int := a;
      assert (-neg) * p == -(a * p);
    }
  }

  lemma AcAgrees(scan: Scan, h: Block, z: Block)
    requires scan.Wf() && scan.IsAC() && Ready(scan, h, z)
    ensures Agrees(scan.kind.AcRefine?, ItemsOf(scan.kind.AcRefine?, z, scan.al), h, Expected(scan, h, z),
                   scan.al, scan.ss, scan.se + 1)
  {
    hide AcKnown, AgreesAt, FirstItem, RefineItem;
    forall k | scan.ss <= k <= scan.se
      ensures AgreesAt(scan.kind.AcRefine?, ItemsOf(scan.kind.AcRefine?, z, scan.al)[k], h[k], Expected(scan, h, z)[k], scan.al)
    {
      if scan.kind.AcRefine? {
        RefineAgreesAt(z[k], scan.al);
      } else {
        FirstAgreesAt(z[k], scan.al);
      }
    }
  }

  // ----- sequential blocks -----

  lemma SequentialAgrees(z: Block)
    ensures Agrees(false, ItemsOf(false, z, 0), Blank()[0 := z[0]], z, 0, 1, DCTSIZE2)
  {
    hide AgreesAt, FirstItem, AcKnown;
    forall k | 1 <= k < DCTSIZE2
      ensures AgreesAt(false, ItemsOf(false, z, 0)[k], Blank()[0 := z[0]][k], z[k], 0)
    {
      FirstAgreesAt(z[k], 0);
      KnownExactly(z[k]);
    }
  }

  /** Known down to bit 0 is known exactly. */
  lemma KnownExactly(x: int)
    ensures AcKnown(x, 0) == x && DcKnown(x, 0) == x
  {}

  lemma {:induction false} FirstHasNoCorr(z: Block, al: nat, lo: nat, hi: nat)
    requires lo <= hi <= DCTSIZE2
    ensures CorrBits(ItemsOf(false, z, al), lo, hi) == []
    decreases hi - lo
  {
    if lo < hi {
      FirstHasNoCorr(z, al, lo + 1, hi);
    }
  }

  lemma SequentialBandDecodes(t: TableId, z: Block, book: Codebook, tabs: Tables, y: seq<bool>) returns (run: nat)
    requires Tied(book, tabs) && t in tabs && Emittable(SequentialAcOps(t, z), book)
    ensures run <= 1
    ensures
      DecodeBand(tabs[t], false, Blank()[0 := z[0]], OpsBits(SequentialAcOps(t, z), book) + y, 1, DCTSIZE2, 0)
      == BandDone(z, y, run)
  {
    hide Tied, OpsBits, Emittable, DecodeBand, Agrees, SymOps, End, ItemsOf, CorrBits, Mix;
    var its := ItemsOf(false, z, 0);
    var c := Case(t, book, tabs, false, its, Blank()[0 := z[0]], z, 0, 1, DCTSIZE2);
    SequentialAgrees(z);
    MixEnds(c);
    var b, e := Band(t, its, 1, DCTSIZE2), End(its, 1, DCTSIZE2);
    var eob := if b.eob then [Sym(t, 0)] else [];
    TailBits(b.sym, eob, y, book);
    BandSymbolsDecode(c, OpsBits(eob, book) + y);
    if b.eob {
      RunOfOne(t);
      FirstHasNoCorr(z, 0, e, DCTSIZE2);
      EmptyFirst(y);
      EobDecodes(c, 1, y);
      run := 1;
    } else {
      NoOpBits(book);
      EmptyFirst(y);
      BandOver(c, y);
      run := 0;
    }
  }

  lemma RunOfOne(t: TableId)
    ensures EobRunOps(t, 1) == [Sym(t, 0)]
  {
    assert BitLength(1) == 1 + BitLength(0) == 1;
  }

  lemma SequentialDecodes(t: TableId, u: TableId, z: Block, last: int, book: Codebook, tabs: Tables, y: seq<bool>)
    requires Tied(book, tabs) && t in tabs && u in tabs
    requires Emittable(DcOps(t, z[0] - last) + SequentialAcOps(u, z), book)
    ensures DecodeSequential(tabs[t], tabs[u], OpsBits(DcOps(t, z[0] - last) + SequentialAcOps(u, z), book) + y, last)
         == BlockDone(z, y, z[0])
  {
    hide Tied, OpsBits, Emittable, DecodeBand, DecodeDc, SequentialAcOps, DcOps, Blank;
    TailBits(DcOps(t, z[0] - last), SequentialAcOps(u, z), y, book);
    DcDecodes(t, z[0] - last, book, tabs, OpsBits(SequentialAcOps(u, z), book) + y);
    var run := SequentialBandDecodes(u, z, book, tabs, y);
  }

  // ----- DC scans -----

  /** A decoder that knows a DC value down to bit al + 1 knows it down to bit al after a refinement. */
  lemma DcRefines(x: int, al: nat)
    ensures DcRefined(DcKnown(x, al + 1), x, al) == DcKnown(x, al)
  {
    hide Asr;
    AsrStep(x, al);
    var q, p := Asr(x, al), Pow2(al);
    assert Pow2(al + 1) == 2 * p;
    assert q == 2 * (q / 2) + q % 2;
    assert (2 * (q / 2) + q % 2) * p == (q / 2) * (2 * p) + (q % 2) * p;
  }

  lemma DcBitDecodes(scan: Scan, tabs: Tables, ci: nat, h: Block, z: Block, last: int, book: Codebook, y: seq<bool>)
    requires scan.kind.DcRefine? && ci < |scan.dcTbl| && Ready(scan, h, z)
    ensures DecodeDcScan(tabs, scan, ci, h, OpsBits([Raw(Asr(z[0], scan.al), 1)], book) + y, last)
         == BlockDone(Expected(scan, h, z), y, last)
  {
    hide OpsBits, DcKnown;
    var v := Asr(z[0], scan.al);
    OneOpBits(Raw(v, 1), book);
    OneBit(v);
    FirstBit(v % 2 == 1, [], y);
    assert [v % 2 == 1] + y == [v % 2 == 1] + [] + y;
  }

  lemma OneBit(v: int)
    ensures Field(v, 1) == [v % 2 == 1]
  {
    assert Pow2(1) == 2;
    assert ToBits(v % 2, 1) == ToBits(0, 0) + [v % 2 == 1];
  }

  // ----- blocks and MCUs of scans that are not AC scans -----

  /** The tables a scan's coder uses are known to the decoder. */
  ghost predicate TablesKnown(scan: Scan, tabs: Tables)
    requires scan.Wf()
  {
    forall ci :: 0 <= ci < |scan.dcTbl| ==>
      && (scan.kind.Sequential? || scan.kind.DcFirst? ==> scan.DcId(ci) in tabs)
      && (scan.kind.Sequential? || scan.IsAC() ==> scan.AcId(ci) in tabs)
  }

  lemma BlockDecodes(scan: Scan, tabs: Tables, book: Codebook, ci: nat, h: Block, z: Block, last: int, y: seq<bool>)
    requires scan.Wf() && !scan.IsAC() && ci < |scan.dcTbl| && Ready(scan, h, z)
    requires Tied(book, tabs) && TablesKnown(scan, tabs)
    requires Emittable(BlockOps(scan, ci, z, last).0, book)
    ensures DecodeBlock(tabs, scan, ci, h, OpsBits(BlockOps(scan, ci, z, last).0, book) + y, last)
         == BlockDone(Expected(scan, h, z), y, BlockOps(scan, ci, z, last).1)
  {
    hide Tied, OpsBits, Emittable, DecodeSequential, DecodeDc, SequentialAcOps, DcOps, Asr, Pow2;
    match scan.kind
    case Sequential => SequentialDecodes(scan.DcId(ci), scan.AcId(ci), z, last, book, tabs, y);
    case DcRefine => DcBitDecodes(scan, tabs, ci, h, z, last, book, y);
    case DcFirst => DcDecodes(scan.DcId(ci), Asr(z[0], scan.al) - last, book, tabs, y);
  }

  lemma {:induction false} BlocksDecode(scan: Scan, tabs: Tables, book: Codebook, hs: Mcu, mcu: Mcu, b: nat,
                                        lastDc: seq<int>, y: seq<bool>)
    requires scan.Wf() && !scan.IsAC() && McuFits(scan, mcu) && ReadyMcu(scan, hs, mcu)
    requires b <= |mcu| && |lastDc| == |scan.dcTbl|
    requires Tied(book, tabs) && TablesKnown(scan, tabs)
    requires Emittable(BlocksOps(scan, mcu, b, lastDc).0, book)
    ensures DecodeBlocks(tabs, scan, hs, b, OpsBits(BlocksOps(scan, mcu, b, lastDc).0, book) + y, lastDc)
         == McuDone(ExpectedMcu(scan, hs, mcu)[b..], y, Decoder(BlocksOps(scan, mcu, b, lastDc).1, 0))
    decreases |mcu| - b
  {
    hide Tied, TablesKnown, OpsBits, Emittable, DecodeBlock, BlockOps, Expected, Ready;
    if b == |mcu| {
      NoOpBits(book);
      EmptyFirst(y);
    } else {
      var ci := scan.membership[b];
      var (ops, last) := BlockOps(scan, ci, mcu[b], lastDc[ci]);
      var more := BlocksOps(scan, mcu, b + 1, lastDc[ci := last]).0;
      TailBits(ops, more, y, book);
      BlockDecodes(scan, tabs, book, ci, hs[b], mcu[b], lastDc[ci], OpsBits(more, book) + y);
      BlocksDecode(scan, tabs, book, hs, mcu, b + 1, lastDc[ci := last], y);
    }
  }

  // ----- a whole interval -----

  function ExpectedMcus(scan: Scan, hists: seq<Mcu>, mcus: seq<Mcu>): (r: seq<Mcu>)
    requires |hists| == |mcus| && forall i :: 0 <= i < |mcus| ==> |hists[i]| == |mcus[i]|
    ensures |r| == |mcus|
  {
    seq(|mcus|, i requires 0 <= i < |mcus| => ExpectedMcu(scan, hists[i], mcus[i]))
  }

  ghost predicate ReadyMcus(scan: Scan, hists: seq<Mcu>, mcus: seq<Mcu>) {
    |hists| == |mcus| && forall i :: 0 <= i < |mcus| ==> McuFits(scan, mcus[i]) && ReadyMcu(scan, hists[i], mcus[i])
  }

  lemma ReadyFits(scan: Scan, hists: seq<Mcu>, mcus: seq<Mcu>)
    requires ReadyMcus(scan, hists, mcus)
    ensures McusFit(scan, hists) && McusFit(scan, mcus)
  {}

  lemma ReadyTail(scan: Scan, hists: seq<Mcu>, mcus: seq<Mcu>)
    requires ReadyMcus(scan, hists, mcus) && mcus != []
    ensures ReadyMcus(scan, hists[1..], mcus[1..])
    ensures McuFits(scan, mcus[0]) && ReadyMcu(scan, hists[0], mcus[0])
    ensures ExpectedMcus(scan, hists, mcus) == [ExpectedMcu(scan, hists[0], mcus[0])] + ExpectedMcus(scan, hists[1..], mcus[1..])
  {
    hide Ready, Expected;
    var all, one := ExpectedMcus(scan, hists, mcus), ExpectedMcu(scan, hists[0], mcus[0]);
    var more := ExpectedMcus(scan, hists[1..], mcus[1..]);
    assert all == [one] + more by {
      forall i | 0 <= i < |all|
        ensures all[i] == ([one] + more)[i]
      {
        if i > 0 {
          assert ([one] + more)[i] == more[i - 1];
        }
      }
    }
  }

  lemma {:induction false} DcIntervalDecodes(scan: Scan, tabs: Tables, book: Codebook, hists: seq<Mcu>, mcus: seq<Mcu>,
                                             c: Coder, y: seq<bool>)
    requires scan.Wf() && !scan.IsAC() && CoderOk(scan, c) && ReadyMcus(scan, hists, mcus)
    requires McusFit(scan, mcus) && McusFit(scan, hists)
    requires Tied(book, tabs) && TablesKnown(scan, tabs)
    requires Emittable(IntervalOps(scan, mcus, c), book)
    ensures DecodeInterval(tabs, scan, hists, OpsBits(IntervalOps(scan, mcus, c), book) + y, Decoder(c.lastDc, 0))
         == IntervalDone(ExpectedMcus(scan, hists, mcus), y)
    decreases |mcus|
  {
    hide Tied, TablesKnown, OpsBits, Emittable, DecodeBlocks, BlocksOps, ReadyMcu, ExpectedMcu, ReadyMcus;
    SameCount(scan, hists, mcus);
    if mcus == [] {
      NoOpBits(book);
      EmptyFirst(y);
    } else {
      var c' := NextCoder(scan, mcus[0], c);
      var ops, more := McuOps(scan, mcus[0], c), IntervalOps(scan, mcus[1..], c');
      TailBits(ops, more, y, book);
      ReadyTail(scan, hists, mcus);
      BlocksDecode(scan, tabs, book, hists[0], mcus[0], 0, c.lastDc, OpsBits(more, book) + y);
      WholeMcu(scan, hists[0], mcus[0]);
      DcIntervalDecodes(scan, tabs, book, hists[1..], mcus[1..], c', y);
    }
  }

  lemma SameCount(scan: Scan, hists: seq<Mcu>, mcus: seq<Mcu>)
    requires ReadyMcus(scan, hists, mcus)
    ensures |hists| == |mcus| && forall i :: 0 <= i < |mcus| ==> |hists[i]| == |mcus[i]|
    ensures mcus == [] ==> ExpectedMcus(scan, hists, mcus) == []
  {
    hide Expected, Ready;
  }

  lemma WholeMcu(scan: Scan, hs: Mcu, mcu: Mcu)
    requires |hs| == |mcu|
    ensures ExpectedMcu(scan, hs, mcu)[0..] == ExpectedMcu(scan, hs, mcu)
  {
    hide Expected;
  }

  // ----- AC scans -----

  function CaseOf(scan: Scan, tabs: Tables, book: Codebook): Case
    requires scan.Wf() && scan.IsAC()
  {
    Case(scan.AcId(0), book, tabs, scan.kind.AcRefine?, ItemsOf(scan.kind.AcRefine?, Blank(), scan.al), Blank(), Blank(),
         scan.al, scan.ss, scan.se + 1)
  }

  function JobOf(scan: Scan, hs: Mcu, mcu: Mcu): Job
    requires |hs| == |mcu| == 1
  {
    Job(ItemsOf(scan.kind.AcRefine?, mcu[0], scan.al), hs[0], Expected(scan, hs[0], mcu[0]))
  }

  function JobsOf(scan: Scan, hists: seq<Mcu>, mcus: seq<Mcu>): (jobs: seq<Job>)
    requires |hists| == |mcus| && forall i :: 0 <= i < |mcus| ==> |hists[i]| == |mcus[i]| == 1
    ensures |jobs| == |mcus|
  {
    seq(|mcus|, i requires 0 <= i < |mcus| => JobOf(scan, hists[i], mcus[i]))
  }

  lemma OneBlockEach(scan: Scan, hists: seq<Mcu>, mcus: seq<Mcu>)
    requires scan.Wf() && scan.IsAC() && ReadyMcus(scan, hists, mcus)
    ensures |hists| == |mcus| && forall i :: 0 <= i < |mcus| ==> |hists[i]| == |mcus[i]| == 1
  {
    hide Ready;
  }

  lemma JobsAreOk(scan: Scan, tabs: Tables, book: Codebook, hists: seq<Mcu>, mcus: seq<Mcu>)
    requires scan.Wf() && scan.IsAC() && ReadyMcus(scan, hists, mcus)
    requires Tied(book, tabs) && scan.AcId(0) in tabs
    requires |hists| == |mcus| && forall i :: 0 <= i < |mcus| ==> |hists[i]| == |mcus[i]| == 1
    ensures JobsOk(CaseOf(scan, tabs, book), JobsOf(scan, hists, mcus))
  {
    hide Tied, Agrees, Expected, Ready, ItemsOf, Blank;
    var c, jobs := CaseOf(scan, tabs, book), JobsOf(scan, hists, mcus);
    forall i | 0 <= i < |jobs|
      ensures With(c, jobs[i]).Ok()
    {
      assert ReadyMcu(scan, hists[i], mcus[i]);
      AcAgrees(scan, hists[i][0], mcus[i][0]);
    }
  }

  lemma {:induction false} IntervalIsSegment(scan: Scan, tabs: Tables, book: Codebook, hists: seq<Mcu>, mcus: seq<Mcu>, c: Coder)
    requires scan.Wf() && scan.IsAC() && CoderOk(scan, c) && McusFit(scan, mcus)
    requires |hists| == |mcus| && forall i :: 0 <= i < |mcus| ==> |hists[i]| == |mcus[i]| == 1
    ensures IntervalOps(scan, mcus, c) == SegmentOps(scan.AcId(0), Bands(CaseOf(scan, tabs, book), JobsOf(scan, hists, mcus)), c.pend)
    decreases |mcus|
  {
    hide BandEmits, FlushOps, Band, ItemsOf, Expected, PendingOk, Blank;
    var k, jobs := CaseOf(scan, tabs, book), JobsOf(scan, hists, mcus);
    PendingRun(c.pend);
    if mcus != [] {
      var c' := NextCoder(scan, mcus[0], c);
      IntervalIsSegment(scan, tabs, book, hists[1..], mcus[1..], c');
      JobsTail(scan, hists, mcus);
      SegmentStep(k, jobs, c.pend);
    }
  }

  lemma PendingRun(p: Pending)
    requires PendingOk(p)
    ensures p.run < MAX_EOBRUN
  {}

  lemma JobsTail(scan: Scan, hists: seq<Mcu>, mcus: seq<Mcu>)
    requires |hists| == |mcus| && mcus != [] && forall i :: 0 <= i < |mcus| ==> |hists[i]| == |mcus[i]| == 1
    ensures JobsOf(scan, hists, mcus)[1..] == JobsOf(scan, hists[1..], mcus[1..])
    ensures Histories(JobsOf(scan, hists, mcus)) == [hists[0][0]] + Histories(JobsOf(scan, hists[1..], mcus[1..]))
  {
    hide ItemsOf, Expected;
  }

  function Wrapped(blocks: seq<seq<int>>): seq<seq<seq<int>>> {
    seq(|blocks|, i requires 0 <= i < |blocks| => [blocks[i]])
  }

  /** The interval decoder is the band decoder applied block by block. */
  lemma {:induction false} BandsAreInterval(scan: Scan, tabs: Tables, hists: seq<Mcu>, hs: seq<Block>, bits: seq<bool>, d: Decoder,
                                            blocks: seq<seq<int>>, rest: seq<bool>, run: nat)
    requires scan.Wf() && scan.IsAC() && |d.lastDc| == |scan.dcTbl| && scan.AcId(0) in tabs
    requires McusFit(scan, hists) && |hs| == |hists| && forall i :: 0 <= i < |hists| ==> hists[i] == [hs[i]]
    requires DecodeBands(tabs[scan.AcId(0)], scan.kind.AcRefine?, hs, bits, d.run, scan.ss, scan.se + 1, scan.al)
          == BandsDone(blocks, rest, run)
    ensures DecodeInterval(tabs, scan, hists, bits, d) == IntervalDone(Wrapped(blocks), rest)
    decreases |hists|
  {
    hide DecodeOne;
    if hists != [] {
      var r := DecodeOne(tabs[scan.AcId(0)], scan.kind.AcRefine?, hs[0], bits, d.run, scan.ss, scan.se + 1, scan.al);
      BandsAreInterval(scan, tabs, hists[1..], hs[1..], r.rest, d.(run := r.run), blocks[1..], rest, run);
      assert Wrapped(blocks) == [[blocks[0]]] + Wrapped(blocks[1..]);
    }
  }

  lemma AcIntervalDecodes(scan: Scan, tabs: Tables, book: Codebook, hists: seq<Mcu>, mcus: seq<Mcu>, c: Coder, y: seq<bool>)
    requires scan.Wf() && scan.IsAC() && CoderOk(scan, c) && c.pend == NONE_PENDING && ReadyMcus(scan, hists, mcus)
    requires McusFit(scan, mcus) && McusFit(scan, hists)
    requires Tied(book, tabs) && scan.AcId(0) in tabs
    requires Emittable(IntervalOps(scan, mcus, c), book)
    ensures DecodeInterval(tabs, scan, hists, OpsBits(IntervalOps(scan, mcus, c), book) + y, Decoder(c.lastDc, 0))
         == IntervalDone(ExpectedMcus(scan, hists, mcus), y)
  {
    hide Tied, OpsBits, Emittable, SegmentOps, DecodeBands, IntervalOps, DecodeInterval, JobsOk, ReadyMcus, Band, ItemsOf, Expected, Blank;
    OneBlockEach(scan, hists, mcus);
    var k, jobs := CaseOf(scan, tabs, book), JobsOf(scan, hists, mcus);
    JobsAreOk(scan, tabs, book, hists, mcus);
    IntervalIsSegment(scan, tabs, book, hists, mcus, c);
    SegmentFresh(k, jobs, y);
    BandsAreInterval(scan, tabs, hists, Histories(jobs), OpsBits(IntervalOps(scan, mcus, c), book) + y, Decoder(c.lastDc, 0),
                     Targets(jobs), y, 0);
    WrappedTargets(scan, hists, mcus);
  }

  lemma WrappedTargets(scan: Scan, hists: seq<Mcu>, mcus: seq<Mcu>)
    requires |hists| == |mcus| && forall i :: 0 <= i < |mcus| ==> |hists[i]| == |mcus[i]| == 1
    ensures Wrapped(Targets(JobsOf(scan, hists, mcus))) == ExpectedMcus(scan, hists, mcus)
  {
    hide ItemsOf, Expected;
    var a, b := Wrapped(Targets(JobsOf(scan, hists, mcus))), ExpectedMcus(scan, hists, mcus);
    forall i | 0 <= i < |mcus|
      ensures a[i] == b[i]
    {
      assert ExpectedMcu(scan, hists[i], mcus[i]) == [Expected(scan, hists[i][0], mcus[i][0])];
    }
  }

  /** Any kind of scan: the interval's bits, whatever follows them, decode to what is expected. */
  lemma IntervalDecodes(scan: Scan, tabs: Tables, book: Codebook, hists: seq<Mcu>, mcus: seq<Mcu>, y: seq<bool>)
    requires scan.Wf() && ReadyMcus(scan, hists, mcus) && McusFit(scan, mcus) && McusFit(scan, hists)
    requires Tied(book, tabs) && TablesKnown(scan, tabs)
    requires CoderOk(scan, FreshCoder(scan)) && Emittable(IntervalOps(scan, mcus, FreshCoder(scan)), book)
    ensures DecodeInterval(tabs, scan, hists, OpsBits(IntervalOps(scan, mcus, FreshCoder(scan)), book) + y, FreshDecoder(scan))
         == IntervalDone(ExpectedMcus(scan, hists, mcus), y)
  {
    hide Tied, OpsBits, Emittable, IntervalOps, DecodeInterval, ReadyMcus, ExpectedMcus;
    SameCount(scan, hists, mcus);
    assert FreshDecoder(scan) == Decoder(FreshCoder(scan).lastDc, 0);
    if scan.IsAC() {
      AcIntervalDecodes(scan, tabs, book, hists, mcus, FreshCoder(scan), y);
    } else {
      DcIntervalDecodes(scan, tabs, book, hists, mcus, FreshCoder(scan), y);
    }
  }
}
