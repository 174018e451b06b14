/** When the encoders raise JERR_BAD_DCT_COEF: exactly for AC magnitudes of more than 10 bits and DC
    differences of more than 11, which leaves out -1024, the lower end of the documented range. */
module RangeChecks {
  import opened Bits
  import opened ByteStuffing
  import opened HuffmanTable
  import opened Coefficients
  import opened EntropyOps
  import opened BandCoding
  import opened EobRuns
  import opened ScanCoding
  import opened RestartCoding
  import opened SymbolCounts
  import opened ProgressiveEncoder

  const AC_LIMIT := 1024
  const DC_LIMIT := 1024

  lemma TenBits(v: nat)
    ensures BitLength(v) <= MAX_COEF_BITS <==> v < AC_LIMIT
    ensures BitLength(v) <= MAX_COEF_BITS + 1 <==> v < 2 * DC_LIMIT
  {
    BitLengthAtMost(v, MAX_COEF_BITS);
    BitLengthAtMost(v, MAX_COEF_BITS + 1);
    Pow2Add(5, 5);
    assert Pow2(5) == 32;
    assert Pow2(11) == 2 * Pow2(10);
  }

  /** A DC difference is accepted exactly when its magnitude is below 2048. */
  lemma DcRange(t: TableId, diff: int)
    ensures InRange(DcOps(t, diff)) <==> -2 * DC_LIMIT < diff < 2 * DC_LIMIT
  {
    hide BitLength;
    TenBits(Abs(diff));
    if BitLength(Abs(diff)) > MAX_COEF_BITS + 1 {
      assert DcOps(t, diff)[0] == OutOfRange;
    }
  }

  lemma NewRange(t: TableId, r: nat, v: int, br: seq<bool>)
    requires r < 16
    ensures InRange(NewOps(t, r, v, br)) <==> Abs(v) < AC_LIMIT
  {
    hide BitLength, BitOps;
    TenBits(Abs(v));
    Encoder.BitsInRange(br);
    if BitLength(Abs(v)) > MAX_COEF_BITS {
      assert NewOps(t, r, v, br)[0] == OutOfRange;
    } else {
      InRangeConcat([Sym(t, 16 * r + BitLength(Abs(v))), Raw(Appended(v), BitLength(Abs(v)))], BitOps(br));
    }
  }

  lemma {:induction false} ZrlRange(t: TableId, r: nat, br: seq<bool>)
    ensures InRange(ZrlOps(t, r, br))
    decreases r
  {
    hide BitOps;
    if r > 15 {
      Encoder.BitsInRange(br);
      ZrlRange(t, r - 16, []);
      InRangeConcat([Sym(t, 0xF0)], BitOps(br));
      InRangeConcat([Sym(t, 0xF0)] + BitOps(br), ZrlOps(t, r - 16, []));
    }
  }

  /** The new values of a band all have magnitudes below 1024. */
  ghost predicate NewFit(its: Items, lo: nat, hi: nat)
    requires hi <= DCTSIZE2
  {
    forall k :: lo <= k < hi && its[k].New? ==> Abs(its[k].v) < AC_LIMIT
  }

  lemma {:induction false} SymsRange(t: TableId, its: Items, k: nat, e: nat, r: nat, br: seq<bool>)
    requires k <= e <= DCTSIZE2
    ensures InRange(SymOps(t, its, k, e, r, br)) <==> NewFit(its, k, e)
    decreases e - k
  {
    hide ZrlOps, NewOps, InRange, AfterZrl;
    if k == e {
      NothingOutOfRange();
    } else {
      ZrlRange(t, r, br);
      match its[k]
      case Zero => SymsRange(t, its, k + 1, e, r + 1, br);
      case Corr(b) =>
        SymsRange(t, its, k + 1, e, r % 16, AfterZrl(r, br) + [b]);
        InRangeConcat(ZrlOps(t, r, br), SymOps(t, its, k + 1, e, r % 16, AfterZrl(r, br) + [b]));
      case New(v) =>
        NewRange(t, r % 16, v, AfterZrl(r, br));
        SymsRange(t, its, k + 1, e, 0, []);
        InRangeConcat(ZrlOps(t, r, br), NewOps(t, r % 16, v, AfterZrl(r, br)));
        InRangeConcat(ZrlOps(t, r, br) + NewOps(t, r % 16, v, AfterZrl(r, br)), SymOps(t, its, k + 1, e, 0, []));
    }
  }

  lemma NothingOutOfRange()
    ensures InRange([])
  {}

  /** A band is accepted exactly when its new values fit. */
  lemma BandRange(t: TableId, its: Items, lo: nat, hi: nat)
    requires lo <= hi <= DCTSIZE2
    ensures InRange(Band(t, its, lo, hi).sym) <==> NewFit(its, lo, hi)
  {
    hide SymOps, InRange;
    SymsRange(t, its, lo, End(its, lo, hi), 0, []);
  }

  /** A sequential block's AC part is accepted exactly when all AC magnitudes are below 1024. */
  lemma SequentialAcRange(t: TableId, z: Block)
    ensures InRange(SequentialAcOps(t, z)) <==> forall k :: 1 <= k < DCTSIZE2 ==> Abs(z[k]) < AC_LIMIT
  {
    hide SymOps, InRange, End;
    var b := Band(t, ItemsOf(false, z, 0), 1, DCTSIZE2);
    BandRange(t, ItemsOf(false, z, 0), 1, DCTSIZE2);
    OneSymInRange(t);
    InRangeConcat(b.sym, if b.eob then [Sym(t, 0)] else []);
    hide Band;
    SequentialItems(z);
  }

  lemma OneSymInRange(t: TableId)
    ensures InRange([Sym(t, 0)]) && InRange([])
  {}

  lemma SequentialItems(z: Block)
    ensures NewFit(ItemsOf(false, z, 0), 1, DCTSIZE2) <==> forall k :: 1 <= k < DCTSIZE2 ==> Abs(z[k]) < AC_LIMIT
  {
    var its := ItemsOf(false, z, 0);
    forall k | 1 <= k < DCTSIZE2
      ensures Abs(z[k]) < AC_LIMIT <==> (its[k].New? ==> Abs(its[k].v) < AC_LIMIT)
    {
      assert its[k] == FirstItem(z[k], 0);
    }
    if NewFit(its, 1, DCTSIZE2) {
      forall k | 1 <= k < DCTSIZE2
        ensures Abs(z[k]) < AC_LIMIT
      {
        assert its[k].New? ==> Abs(its[k].v) < AC_LIMIT;
      }
    }
  }

  /** -1024 is in the documented range of a coefficient, but as an AC value it stops the encoder. */
  lemma LowestAcIsRefused(t: TableId, z: Block)
    requires z[1] == -1024
    ensures !InRange(SequentialAcOps(t, z))
  {
    hide SequentialAcOps;
    SequentialAcRange(t, z);
    assert Abs(z[1]) == AC_LIMIT;
  }

  // ----- whole scans -----

  predicate DcFits(x: int) {
    -DC_LIMIT <= x < DC_LIMIT
  }

  /** What the blocks of a scan must satisfy so that it cannot be refused. */
  ghost predicate BlockFits(scan: Scan, z: Block) {
    match scan.kind
    case Sequential => DcFits(z[0]) && forall k :: 1 <= k < DCTSIZE2 ==> Abs(z[k]) < AC_LIMIT
    case DcFirst => DcFits(z[0])
    case AcFirst => forall k :: scan.ss <= k <= scan.se && k < DCTSIZE2 ==> Shr(Abs(z[k]), scan.al) < AC_LIMIT
    case _ => true
  }

  ghost predicate LastFit(lastDc: seq<int>) {
    forall ci :: 0 <= ci < |lastDc| ==> DcFits(lastDc[ci])
  }

  lemma {:induction false} AsrFits(x: int, n: nat)
    requires DcFits(x)
    ensures DcFits(Asr(x, n))
    decreases n
  {
    if n > 0 {
      AsrFits(x / 2, n - 1);
    }
  }

  lemma BlockInRange(scan: Scan, ci: nat, z: Block, last: int)
    requires scan.Wf() && !scan.IsAC() && ci < |scan.dcTbl| && BlockFits(scan, z) && DcFits(last)
    ensures InRange(BlockOps(scan, ci, z, last).0) && DcFits(BlockOps(scan, ci, z, last).1)
  {
    hide DcOps, SequentialAcOps, Asr;
    if scan.kind.DcFirst? {
      AsrFits(z[0], scan.al);
    }
    DcRange(scan.DcId(ci), z[0] - last);
    DcRange(scan.DcId(ci), Asr(z[0], scan.al) - last);
    SequentialAcRange(scan.AcId(ci), z);
    InRangeConcat(DcOps(scan.DcId(ci), z[0] - last), SequentialAcOps(scan.AcId(ci), z));
  }

  lemma {:induction false} BlocksInRange(scan: Scan, mcu: Mcu, b: nat, lastDc: seq<int>)
    requires scan.Wf() && !scan.IsAC() && |lastDc| == |scan.dcTbl| && b <= |mcu| == |scan.membership|
    requires LastFit(lastDc) && forall k :: 0 <= k < |mcu| ==> BlockFits(scan, mcu[k])
    ensures InRange(BlocksOps(scan, mcu, b, lastDc).0) && LastFit(BlocksOps(scan, mcu, b, lastDc).1)
    decreases |mcu| - b
  {
    hide BlockOps, InRange, BlockFits;
    if b == |mcu| {
      NothingOutOfRange();
    } else {
      var ci := scan.membership[b];
      var (ops, last) := BlockOps(scan, ci, mcu[b], lastDc[ci]);
      BlockInRange(scan, ci, mcu[b], lastDc[ci]);
      BlocksInRange(scan, mcu, b + 1, lastDc[ci := last]);
      InRangeConcat(ops, BlocksOps(scan, mcu, b + 1, lastDc[ci := last]).0);
    }
  }

  lemma AcBandInRange(scan: Scan, z: Block)
    requires scan.Wf() && scan.IsAC() && BlockFits(scan, z)
    ensures InRange(AcBand(scan, z).sym)
  {
    hide Band, InRange, Shr;
    var its := ItemsOf(scan.kind.AcRefine?, z, scan.al);
    BandRange(scan.AcId(0), its, scan.ss, scan.se + 1);
    assert NewFit(its, scan.ss, scan.se + 1);
  }

  lemma BandEmitsInRange(scan: Scan, p: Pending, b: BandOps)
    requires scan.Wf() && PendingOk(p) && |b.br| < DCTSIZE2 && InRange(b.sym)
    ensures InRange(BandEmits(scan.AcId(0), p, b).0)
  {
    hide FlushOps, InRange, MustFlush;
    var t := scan.AcId(0);
    var p1 := if b.sym == [] then p else NONE_PENDING;
    var p2 := Pending(p1.run + 1, p1.be + b.br);
    FlushInRange(t, p);
    FlushInRange(t, p2);
    NothingOutOfRange();
    InRangeConcat(FlushOps(t, p), b.sym);
    InRangeConcat(if b.sym == [] then [] else FlushOps(t, p) + b.sym, FlushOps(t, p2));
  }

  lemma FlushInRange(t: TableId, p: Pending)
    requires p.run <= MAX_EOBRUN
    ensures InRange(FlushOps(t, p))
  {
    hide BitOps;
    Encoder.BitsInRange(p.be);
    if p.run > 0 {
      InRangeConcat(EobRunOps(t, p.run), BitOps(p.be));
    }
  }

  lemma McuInRange(scan: Scan, mcu: Mcu, c: Coder)
    requires scan.Wf() && CoderOk(scan, c) && McuFits(scan, mcu) && LastFit(c.lastDc)
    requires forall k :: 0 <= k < |mcu| ==> BlockFits(scan, mcu[k])
    ensures InRange(McuOps(scan, mcu, c)) && LastFit(NextCoder(scan, mcu, c).lastDc)
  {
    hide InRange, BlockFits, BandEmits, BlocksOps, Band, ItemsOf;
    if scan.IsAC() {
      AcBandInRange(scan, mcu[0]);
      CorrBitsFew(scan, mcu[0]);
      BandEmitsInRange(scan, c.pend, AcBand(scan, mcu[0]));
    } else {
      BlocksInRange(scan, mcu, 0, c.lastDc);
    }
  }

  lemma FreshFits(scan: Scan)
    ensures LastFit(FreshCoder(scan).lastDc)
  {}

  lemma {:induction false} RestInRange(scan: Scan, c: Coder, togo: nat, mcus: seq<Mcu>)
    requires scan.Wf() && CoderOk(scan, c) && McusFit(scan, mcus) && LastFit(c.lastDc)
    requires forall i, k :: 0 <= i < |mcus| && 0 <= k < |mcus[i]| ==> BlockFits(scan, mcus[i][k])
    ensures InRange(RestOps(scan, c, togo, mcus))
    decreases |mcus|
  {
    hide InRange, BlockFits, McuOps, EndOps, NextCoder, FreshCoder, CoderOk, LastFit;
    Encoder.EndInRange(scan, c);
    if mcus != [] {
      FreshOk(scan);
      FreshFits(scan);
      var c0 := if scan.restart > 0 && togo == 0 then FreshCoder(scan) else c;
      McuInRange(scan, mcus[0], c0);
      var more := RestOps(scan, StepCoder(scan, c, togo, mcus[0]), StepTogo(scan, togo), mcus[1..]);
      RestInRange(scan, StepCoder(scan, c, togo, mcus[0]), StepTogo(scan, togo), mcus[1..]);
      InRangeConcat(EndOps(scan, c), McuOps(scan, mcus[0], c0));
      InRangeConcat(StepOps(scan, c, togo, mcus[0]), more);
    }
  }

  /** A scan whose DC values lie in -1024..1023 and whose AC magnitudes stay below 1024 is never refused. */
  lemma FittingScanInRange(scan: Scan, mcus: seq<Mcu>)
    requires scan.Wf() && McusFit(scan, mcus)
    requires forall i, k :: 0 <= i < |mcus| && 0 <= k < |mcus[i]| ==> BlockFits(scan, mcus[i][k])
    ensures InRange(ScanOps(scan, mcus))
  {
    hide InRange, BlockFits, RestOps, FreshCoder;
    FreshOk(scan);
    FreshFits(scan);
    RestInRange(scan, FreshCoder(scan), scan.restart, mcus);
  }
}
