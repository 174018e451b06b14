/** End-of-band runs: EOB codes and correction bits deferred over whole blocks
    (sections G.1.2.2 and G.1.2.3 of T.81), and their decoding. */
module EobRuns {
  import opened Bits
  import opened Arithmetic
  import opened ByteStuffing
  import opened HuffmanTable
  import opened Coefficients
  import opened EntropyOps
  import opened BandCoding

  const MAX_EOBRUN := 0x7FFF
  const MAX_CORR_BITS := 1000

  /** EOBRUN and the BE buffered correction bits that belong to it. */
  datatype Pending = Pending(run: nat, be: seq<bool>)

  const NONE_PENDING := Pending(0, [])

  /** Holds between MCUs. */
  predicate PendingOk(p: Pending) {
    p.run < MAX_EOBRUN && |p.be| <= MAX_CORR_BITS - DCTSIZE2 + 1 && (p.be != [] ==> p.run > 0)
  }

  /** The EOBn symbol and its extra bits. */
  function EobRunOps(t: TableId, run: nat): seq<Op>
    requires 0 < run <= MAX_EOBRUN
  {
    RunCategory(run);
    var n := BitLength(run) - 1;
    [Sym(t, 16 * n)] + (if n > 0 then [Raw(run, n)] else [])
  }

  lemma RunCategory(run: nat)
    requires 0 < run <= MAX_EOBRUN
    ensures 1 <= BitLength(run) <= 15
  {
    BitLengthAtMost(run, 15);
    assert Pow2(15) == 0x8000 by { Pow2Add(7, 8); assert Pow2(7) == 128 && Pow2(8) == 256; }
  }

  /** emit_eobrun. */
  function FlushOps(t: TableId, p: Pending): seq<Op>
    requires p.run <= MAX_EOBRUN
  {
    if p.run == 0 then [] else EobRunOps(t, p.run) + BitOps(p.be)
  }

  /** Must an EOB be forced out after this block? */
  predicate MustFlush(p: Pending) {
    p.run == MAX_EOBRUN || |p.be| > MAX_CORR_BITS - DCTSIZE2 + 1
  }

  /** One block's band: pending runs go out before its first symbol, its own EOB is deferred. */
  function BandEmits(t: TableId, p: Pending, b: BandOps): (seq<Op>, Pending)
    requires p.run < MAX_EOBRUN
  {
    var before := if b.sym == [] then [] else FlushOps(t, p) + b.sym;
    var p1 := if b.sym == [] then p else NONE_PENDING;
    if !b.eob then (before, p1)
    else
      var p2 := Pending(p1.run + 1, p1.be + b.br);
      if MustFlush(p2) then (before + FlushOps(t, p2), NONE_PENDING) else (before, p2)
  }

  lemma PendingKept(t: TableId, p: Pending, b: BandOps)
    requires PendingOk(p) && |b.br| < DCTSIZE2
    ensures var p' := BandEmits(t, p, b).1;
            PendingOk(p') && p'.run <= 0x7FFE && |p'.be| <= 937 && (p'.be != [] ==> p'.run > 0)
  {}

  /** All blocks of a segment without restarts, and the flush at its end. */
  function SegmentOps(t: TableId, bands: seq<BandOps>, p: Pending): seq<Op>
    requires p.run < MAX_EOBRUN
    decreases |bands|
  {
    if bands == [] then FlushOps(t, p)
    else
      var (ops, p') := BandEmits(t, p, bands[0]);
      ops + SegmentOps(t, bands[1..], p')
  }

  // ----- how bands are collected -----

  /** A band without new values, which is left to an EOB. */
  predicate Deferred(b: BandOps) {
    b.sym == [] && b.eob
  }

  /** The correction bits of some bands, in order. */
  function AllCorrections(bands: seq<BandOps>): seq<bool> {
    if bands == [] then [] else bands[0].br + AllCorrections(bands[1..])
  }

  /** A run of n such bands: one EOBm symbol, the m low bits of n, and all their correction bits. */
  ghost predicate OneRun(t: TableId, n: nat, be: seq<bool>, ops: seq<Op>) {
    exists m: nat :: m <= 14 && Pow2(m) <= n < Pow2(m + 1)
      && ops == [Sym(t, 16 * m)] + (if m > 0 then [Raw(n, m)] else []) + seq(|be|, i requires 0 <= i < |be| => Raw(if be[i] then 1 else 0, 1))
  }

  lemma {:induction false} BitOpsAre(br: seq<bool>)
    ensures BitOps(br) == seq(|br|, i requires 0 <= i < |br| => Raw(if br[i] then 1 else 0, 1))
  {
    if br != [] {
      BitOpsAre(br[..|br| - 1]);
    }
  }

  lemma FlushIsOneRun(t: TableId, n: nat, be: seq<bool>)
    requires 0 < n <= 0x7FFE
    ensures OneRun(t, n, be, FlushOps(t, Pending(n, be)))
  {
    hide BitOps;
    RunCategory(n);
    var m := BitLength(n) - 1;
    BitLengthAtMost(n, m);
    BitLengthAtMost(n, m + 1);
    BitOpsAre(be);
  }

  /** Up to 0x7FFE deferred bands with at most 937 correction bits go out as one run. */
  lemma {:induction false} RunCollected(t: TableId, bands: seq<BandOps>, p: Pending)
    requires (forall i :: 0 <= i < |bands| ==> Deferred(bands[i])) && 0 < p.run + |bands| <= 0x7FFE && |p.be| + |AllCorrections(bands)| <= 937
    ensures OneRun(t, p.run + |bands|, p.be + AllCorrections(bands), SegmentOps(t, bands, p))
    decreases |bands|
  {
    hide FlushOps, OneRun;
    if bands == [] {
      FlushIsOneRun(t, p.run, p.be);
      assert p.be + [] == p.be && Pending(p.run, p.be) == p;
    } else {
      var b := bands[0];
      RunCollected(t, bands[1..], Pending(p.run + 1, p.be + b.br));
      assert p.be + (b.br + AllCorrections(bands[1..])) == p.be + b.br + AllCorrections(bands[1..]);
      assert [] + SegmentOps(t, bands[1..], Pending(p.run + 1, p.be + b.br)) == SegmentOps(t, bands[1..], Pending(p.run + 1, p.be + b.br));
    }
  }

  /** From a fresh start. */
  lemma DeferredIsOneRun(t: TableId, bands: seq<BandOps>)
    requires (forall i :: 0 <= i < |bands| ==> Deferred(bands[i])) && 0 < |bands| <= 0x7FFE && |AllCorrections(bands)| <= 937
    ensures OneRun(t, |bands|, AllCorrections(bands), SegmentOps(t, bands, NONE_PENDING))
  {
    RunCollected(t, bands, NONE_PENDING);
    assert [] + AllCorrections(bands) == AllCorrections(bands);
  }

  /** The EOBn symbols among some operations. */
  function EobCount(ops: seq<Op>): nat {
    if ops == [] then 0 else (if ops[0].Sym? && ops[0].s % 16 == 0 && ops[0].s != 0xF0 then 1 else 0) + EobCount(ops[1..])
  }

  lemma {:induction false} EobCountConcat(a: seq<Op>, b: seq<Op>)
    ensures EobCount(a + b) == EobCount(a) + EobCount(b)
  {
    if a == [] {
      assert a + b == b;
    } else {
      EobCountConcat(a[1..], b);
      assert (a + b)[1..] == a[1..] + b;
    }
  }

  lemma FlushHasOne(t: TableId, run: nat)
    requires 0 < run <= 0x7FFF
    ensures EobCount(FlushOps(t, Pending(run, []))) == 1
  {
    RunCategory(run);
    var n := BitLength(run) - 1;
    var ops := EobRunOps(t, run);
    assert EobCount([]) == 0;
    assert n > 0 ==> ops[1..] == [Raw(run, n)] && [Raw(run, n)][1..] == [];
    assert n == 0 ==> ops[1..] == [];
    assert FlushOps(t, Pending(run, [])) == ops;
  }

  /** Bands without correction bits are cut into runs of 0x7FFF and a rest. */
  lemma {:induction false} RunsCounted(t: TableId, bands: seq<BandOps>, run: nat)
    requires (forall i :: 0 <= i < |bands| ==> Deferred(bands[i]) && bands[i].br == []) && run <= 0x7FFE
    ensures var n := run + |bands|;
            EobCount(SegmentOps(t, bands, Pending(run, []))) == n / 0x7FFF + (if n % 0x7FFF > 0 then 1 else 0)
    decreases |bands|
  {
    hide FlushOps, EobCount;
    if bands == [] {
      if run > 0 {
        FlushHasOne(t, run);
      } else {
        NoEobs(t);
      }
    } else {
      var ops, p' := BandEmits(t, Pending(run, []), bands[0]).0, BandEmits(t, Pending(run, []), bands[0]).1;
      EobCountConcat(ops, SegmentOps(t, bands[1..], p'));
      NoEobs(t);
      assert bands[0].br == [] && [] + bands[0].br == [];
      if run == 0x7FFE {
        FlushHasOne(t, 0x7FFF);
        RunsCounted(t, bands[1..], 0);
        assert [] + FlushOps(t, Pending(0x7FFF, [])) == FlushOps(t, Pending(0x7FFF, []));
      } else {
        RunsCounted(t, bands[1..], run + 1);
      }
    }
  }

  lemma NoEobs(t: TableId)
    ensures EobCount([]) == 0 && FlushOps(t, NONE_PENDING) == []
  {}

  // ----- decoding -----

  /** One block given the run of bands still to be skipped, as section G.2 describes. */
  function DecodeOne(tab: Table, refine: bool, h: seq<int>, bits: seq<bool>, run: nat, lo: nat, hi: nat, al: nat): BandResult
    requires hi <= |h|
  {
    if run > 0 then
      match CorrectAll(refine, h, bits, lo, hi, al)
      case WalkFail => BandFail
      case Walk(h', rest, _) => BandDone(h', rest, run - 1)
    else
      match DecodeBand(tab, refine, h, bits, lo, hi, al)
      case BandFail => BandFail
      case BandDone(h', rest, n) => BandDone(h', rest, if n > 0 then n - 1 else 0)
  }

  datatype BandsResult = BandsFail | BandsDone(blocks: seq<seq<int>>, rest: seq<bool>, run: nat)

  function DecodeBands(tab: Table, refine: bool, hs: seq<Block>, bits: seq<bool>, run: nat, lo: nat, hi: nat, al: nat): BandsResult
    requires hi <= DCTSIZE2
    decreases |hs|
  {
    if hs == [] then BandsDone([], bits, run)
    else match DecodeOne(tab, refine, hs[0], bits, run, lo, hi, al)
      case BandFail => BandsFail
      case BandDone(h', rest, run') =>
        match DecodeBands(tab, refine, hs[1..], rest, run', lo, hi, al)
        case BandsFail => BandsFail
        case BandsDone(more, rest', run'') => BandsDone([h'] + more, rest', run'')
  }

  // ----- the round trip -----

  /** One block's part in a scan: its items, what the decoder has, what it should get. */
  datatype Job = Job(its: Items, h: Block, target: Block)

  function With(c: Case, j: Job): Case {
    c.(its := j.its, h := j.h, target := j.target)
  }

  ghost predicate JobsOk(c: Case, jobs: seq<Job>) {
    && 0 < c.lo < c.hi <= DCTSIZE2
    && Tied(c.book, c.tabs) && c.t in c.tabs
    && forall i :: 0 <= i < |jobs| ==> With(c, jobs[i]).Ok()
  }

  function BandOf(c: Case, j: Job): BandOps
    requires c.lo <= c.hi <= DCTSIZE2
  {
    Band(c.t, j.its, c.lo, c.hi)
  }

  function Bands(c: Case, jobs: seq<Job>): (b: seq<BandOps>)
    requires c.lo <= c.hi <= DCTSIZE2
    ensures |b| == |jobs|
  {
    seq(|jobs|, i requires 0 <= i < |jobs| => BandOf(c, jobs[i]))
  }

  function Histories(jobs: seq<Job>): seq<Block> {
    seq(|jobs|, i requires 0 <= i < |jobs| => jobs[i].h)
  }

  function Targets(jobs: seq<Job>): seq<seq<int>> {
    seq(|jobs|, i requires 0 <= i < |jobs| => jobs[i].target)
  }

  function DecodeJobs(c: Case, jobs: seq<Job>, bits: seq<bool>, run: nat): BandsResult
    requires c.hi <= DCTSIZE2 && c.t in c.tabs
  {
    DecodeBands(c.tabs[c.t], c.refine, Histories(jobs), bits, run, c.lo, c.hi, c.al)
  }

  function DecodeJob(c: Case, bits: seq<bool>, run: nat): BandResult
    requires c.hi <= DCTSIZE2 && c.t in c.tabs
  {
    DecodeOne(c.tabs[c.t], c.refine, c.h, bits, run, c.lo, c.hi, c.al)
  }

  lemma MixEnds(c: Case)
    requires c.Ok()
    ensures Mix(c.h, c.target, c.lo) == c.h && Mix(c.h, c.target, c.hi) == c.target
  {}

  /** A block inside a run: only correction bits are read. */
  lemma InRunDecodes(c: Case, run: nat, y: seq<bool>)
    requires c.Ok() && run > 0 && End(c.its, c.lo, c.hi) == c.lo
    ensures DecodeJob(c, CorrBits(c.its, c.lo, c.hi) + y, run) == BandDone(c.target, y, run - 1)
  {
    hide Agrees, CorrectAll, CorrBits, Mix, Tied;
    MixEnds(c);
    CorrectAllDecodes(c.refine, c.its, c.h, c.target, c.al, c.lo, c.hi, c.lo, y);
  }

  /** Reading an EOBn symbol gives back the run. */
  lemma EobDecodes(c: Case, run: nat, y: seq<bool>)
    requires c.Ok() && 0 < run <= MAX_EOBRUN && End(c.its, c.lo, c.hi) < c.hi
    requires Emittable(EobRunOps(c.t, run), c.book)
    ensures var e := End(c.its, c.lo, c.hi);
            c.DecodeAt(e, c.Bits(EobRunOps(c.t, run)) + (CorrBits(c.its, e, c.hi) + y)) == BandDone(c.target, y, run)
  {
    hide Agrees, CorrectAll, CorrBits, Mix, Tied, OpsBits, OpBits, OpOk, Emittable, DecodeSymbol, Receive, BitLength, Pow2, EobRunOps, DecodeEob;
    var e := End(c.its, c.lo, c.hi);
    var z := CorrBits(c.its, e, c.hi) + y;
    var n := EobBits(c.t, run, z, c.book);
    var ext := if n > 0 then OpBits(Raw(run, n), c.book) else [];
    SymDecodes(c.t, 16 * n, c.book, c.tabs, ext + z);
    RunReceived(run, n, z, c.book);
    MixEnds(c);
    CorrectAllDecodes(c.refine, c.its, c.h, c.target, c.al, c.lo, c.hi, e, y);
    EobStep(c.tabs[c.t], c.refine, Mix(c.h, c.target, e), OpBits(Sym(c.t, 16 * n), c.book) + (ext + z), e, c.hi, c.al,
            n, ext + z, run, z, c.target, y);
  }

  lemma EobBits(t: TableId, run: nat, z: seq<bool>, book: Codebook) returns (n: nat)
    requires 0 < run <= MAX_EOBRUN && Emittable(EobRunOps(t, run), book)
    ensures n == BitLength(run) - 1 && n <= 14 && OpOk(Sym(t, 16 * n), book)
    ensures OpsBits(EobRunOps(t, run), book) + z
         == OpBits(Sym(t, 16 * n), book) + ((if n > 0 then OpBits(Raw(run, n), book) else []) + z)
  {
    hide OpsBits, OpBits, OpOk, Emittable, BitLength;
    RunCategory(run);
    n := BitLength(run) - 1;
    var ext := if n > 0 then [Raw(run, n)] else [];
    HeadBits(Sym(t, 16 * n), [], ext, z, book);
    NoOpBits(book);
    OneOpBits(Raw(run, n), book);
    assert [Sym(t, 16 * n)] + [] + ext == [Sym(t, 16 * n)] + ext;
    EmptyFirst(OpsBits(ext, book) + z);
  }

  /** The extra bits are what is left of the run below its leading one. */
  lemma RunReceived(run: nat, n: nat, z: seq<bool>, book: Codebook)
    requires run > 0 && n == BitLength(run) - 1
    ensures Receive((if n > 0 then OpBits(Raw(run, n), book) else []) + z, n) == Received(run - Pow2(n), z)
  {
    hide OpBits, Receive;
    var p := Pow2(n);
    assert p <= run < 2 * p;
    DivModUnique(run, p, 1, run - p);
    RawReceived(run, n, book, z);
    EmptyFirst(z);
    ReceiveNone(z);
    assert n == 0 ==> p == 1;
  }

  lemma EobStep(tab: Table, refine: bool, h: Block, bits: seq<bool>, k: nat, hi: nat, al: nat,
                n: nat, b1: seq<bool>, run: nat, b2: seq<bool>, h': seq<int>, y: seq<bool>)
    requires k < hi <= DCTSIZE2 && n <= 14
    requires DecodeSymbol(tab, bits) == Symbol(16 * n, b1)
    requires run >= Pow2(n) && Receive(b1, n) == Received(run - Pow2(n), b2)
    requires CorrectAll(refine, h, b2, k, hi, al) == Walk(h', y, hi)
    ensures DecodeBand(tab, refine, h, bits, k, hi, al) == BandDone(h', y, run)
  {
    hide DecodeSymbol, Receive, CorrectAll, Pow2, Extend, Skip;
    UnpackSym(n, 0);
  }

  /** A block that starts fresh and leaves an EOB: its run includes the blocks after it. */
  lemma FreshEobDecodes(c: Case, run: nat, y: seq<bool>)
    requires c.Ok() && 0 < run <= MAX_EOBRUN
    requires var b := Band(c.t, c.its, c.lo, c.hi);
             b.eob && Emittable(b.sym, c.book) && Emittable(EobRunOps(c.t, run), c.book)
    ensures var b := Band(c.t, c.its, c.lo, c.hi);
            DecodeJob(c, c.Bits(b.sym) + (c.Bits(EobRunOps(c.t, run)) + (b.br + y)), 0) == BandDone(c.target, y, run - 1)
  {
    hide Agrees, CorrBits, Mix, Tied, OpsBits, Emittable, EobRunOps, DecodeBand, SymOps, End;
    BandSymbolsDecode(c, c.Bits(EobRunOps(c.t, run)) + (CorrBits(c.its, End(c.its, c.lo, c.hi), c.hi) + y));
    EobDecodes(c, run, y);
    MixEnds(c);
  }

  /** A block that starts fresh and ends with a new value in its last position. */
  lemma FreshFullDecodes(c: Case, y: seq<bool>)
    requires c.Ok()
    requires var b := Band(c.t, c.its, c.lo, c.hi); !b.eob && Emittable(b.sym, c.book)
    ensures DecodeJob(c, c.Bits(Band(c.t, c.its, c.lo, c.hi).sym) + y, 0) == BandDone(c.target, y, 0)
  {
    hide Agrees, CorrBits, Mix, Tied, OpsBits, Emittable, SymOps;
    BandSymbolsDecode(c, y);
    MixEnds(c);
    BandOver(c, y);
  }

  lemma BandOver(c: Case, y: seq<bool>)
    requires c.Ok()
    ensures c.DecodeAt(c.hi, y) == BandDone(c.target, y, 0)
  {
    MixEnds(c);
  }

  lemma JobStep(c: Case, jobs: seq<Job>, bits: seq<bool>, run: nat, rest: seq<bool>, run': nat, y: seq<bool>)
    requires JobsOk(c, jobs) && jobs != []
    requires DecodeJob(With(c, jobs[0]), bits, run) == BandDone(jobs[0].target, rest, run')
    requires DecodeJobs(c, jobs[1..], rest, run') == BandsDone(Targets(jobs[1..]), y, 0)
    ensures DecodeJobs(c, jobs, bits, run) == BandsDone(Targets(jobs), y, 0)
  {
    hide DecodeOne, Tied, Agrees;
    assert Histories(jobs)[1..] == Histories(jobs[1..]);
    assert Targets(jobs) == [jobs[0].target] + Targets(jobs[1..]);
  }

  lemma SegmentStep(c: Case, jobs: seq<Job>, p: Pending)
    requires c.lo <= c.hi <= DCTSIZE2 && p.run < MAX_EOBRUN && jobs != []
    ensures var (ops, p') := BandEmits(c.t, p, BandOf(c, jobs[0]));
            SegmentOps(c.t, Bands(c, jobs), p) == ops + SegmentOps(c.t, Bands(c, jobs[1..]), p')
  {
    hide BandEmits, FlushOps, BandOf;
    assert Bands(c, jobs)[1..] == Bands(c, jobs[1..]);
  }

  lemma {:induction false} CorrBitsLength(its: Items, lo: nat, hi: nat)
    requires lo <= hi <= DCTSIZE2
    ensures |CorrBits(its, lo, hi)| <= hi - lo
    decreases hi - lo
  {
    if lo < hi {
      CorrBitsLength(its, lo + 1, hi);
    }
  }

  /** The parts of a band: few correction bits; without symbols, an EOB covering all of it. */
  lemma BandShape(c: Case, j: Job)
    requires 0 < c.lo < c.hi <= DCTSIZE2
    ensures var b := BandOf(c, j);
            && |b.br| < DCTSIZE2
            && (b.sym == [] ==> b.eob && End(j.its, c.lo, c.hi) == c.lo && b.br == CorrBits(j.its, c.lo, c.hi))
  {
    hide SymOps, CorrBits;
    var e := End(j.its, c.lo, c.hi);
    CorrBitsLength(j.its, e, c.hi);
    NoSymbols(c.t, j.its, c.lo, e, 0, []);
  }

  /** What BandEmits does with a fresh state, and when the band has no symbols. */
  lemma FreshEmits(t: TableId, b: BandOps)
    requires |b.br| < DCTSIZE2
    ensures BandEmits(t, NONE_PENDING, b) == (b.sym, if b.eob then Pending(1, b.br) else NONE_PENDING)
  {
    hide BitOps, EobRunOps;
    assert [] + b.sym == b.sym;
    assert [] + b.br == b.br;
  }

  lemma SilentEmits(t: TableId, p: Pending, b: BandOps)
    requires p.run < MAX_EOBRUN && b.sym == [] && b.eob
    ensures var p2 := Pending(p.run + 1, p.be + b.br);
            BandEmits(t, p, b) == if MustFlush(p2) then (FlushOps(t, p2), NONE_PENDING) else ([], p2)
  {
    hide BitOps, EobRunOps;
    assert [] + FlushOps(t, Pending(p.run + 1, p.be + b.br)) == FlushOps(t, Pending(p.run + 1, p.be + b.br));
  }

  /** Before the first symbol of a band the pending run is flushed; then it is as if fresh. */
  lemma LoudEmits(c: Case, jobs: seq<Job>, p: Pending)
    requires 0 < c.lo < c.hi <= DCTSIZE2 && p.run < MAX_EOBRUN
    requires jobs != [] && BandOf(c, jobs[0]).sym != []
    ensures SegmentOps(c.t, Bands(c, jobs), p) == FlushOps(c.t, p) + SegmentOps(c.t, Bands(c, jobs), NONE_PENDING)
  {
    hide FlushOps, SegmentOps, BandOf, Bands, MustFlush;
    var b := BandOf(c, jobs[0]);
    BandShape(c, jobs[0]);
    SegmentStep(c, jobs, p);
    SegmentStep(c, jobs, NONE_PENDING);
    var (ops, p1) := BandEmits(c.t, p, b);
    var (ops0, p0) := BandEmits(c.t, NONE_PENDING, b);
    LoudOnce(c.t, p, b);
    assert FlushOps(c.t, p) + ops0 + SegmentOps(c.t, Bands(c, jobs[1..]), p0)
        == FlushOps(c.t, p) + (ops0 + SegmentOps(c.t, Bands(c, jobs[1..]), p0));
  }

  lemma LoudOnce(t: TableId, p: Pending, b: BandOps)
    requires p.run < MAX_EOBRUN && b.sym != []
    ensures BandEmits(t, p, b).0 == FlushOps(t, p) + BandEmits(t, NONE_PENDING, b).0
    ensures BandEmits(t, p, b).1 == BandEmits(t, NONE_PENDING, b).1
  {
    hide BitOps, EobRunOps, MustFlush;
    assert FlushOps(t, NONE_PENDING) == [];
    var p2 := Pending(1, [] + b.br);
    var f := if b.eob && MustFlush(p2) then FlushOps(t, p2) else [];
    assert FlushOps(t, p) + b.sym + f == FlushOps(t, p) + ([] + b.sym + f);
    assert FlushOps(t, p) + b.sym == FlushOps(t, p) + ([] + b.sym);
  }

  lemma FlushBitsAre(c: Case, p: Pending, more: seq<Op>)
    requires 0 < p.run <= MAX_EOBRUN && Emittable(FlushOps(c.t, p) + more, c.book)
    ensures Emittable(EobRunOps(c.t, p.run), c.book) && Emittable(more, c.book)
    ensures c.Bits(FlushOps(c.t, p) + more) == c.Bits(EobRunOps(c.t, p.run)) + (p.be + c.Bits(more))
  {
    hide OpsBits, Emittable, EobRunOps, BitOps;
    OpsBitsConcat(FlushOps(c.t, p), more, c.book);
    OpsBitsConcat(EobRunOps(c.t, p.run), BitOps(p.be), c.book);
    BitOpsBits(p.be, c.book);
  }

  lemma AppendNothing(ops: seq<Op>)
    ensures ops + [] == ops
  {}

  lemma Regroup(a: seq<bool>, b: seq<bool>, d: seq<bool>, y: seq<bool>)
    ensures a + (b + d) == (a + b) + d
    ensures a + (b + d) + y == a + (b + (d + y))
  {}

  /** From a fresh state: everything decodes to the targets. */
  lemma {:induction false} SegmentFresh(c: Case, jobs: seq<Job>, y: seq<bool>)
    requires JobsOk(c, jobs)
    requires Emittable(SegmentOps(c.t, Bands(c, jobs), NONE_PENDING), c.book)
    ensures DecodeJobs(c, jobs, c.Bits(SegmentOps(c.t, Bands(c, jobs), NONE_PENDING)) + y, 0)
         == BandsDone(Targets(jobs), y, 0)
    decreases |jobs|, 0
  {
    hide OpsBits, Emittable, DecodeBands, DecodeOne, SegmentOps, BandEmits, Band, Tied, Agrees, EobRunOps, FlushOps, Bands;
    if jobs == [] {
      NoJobs(c, jobs, y);
    } else {
      var j, rest := jobs[0], jobs[1..];
      var b := BandOf(c, j);
      BandShape(c, j);
      FreshEmits(c.t, b);
      SegmentStep(c, jobs, NONE_PENDING);
      RestOk(c, jobs);
      if b.eob {
        var more := SegmentOps(c.t, Bands(c, rest), Pending(1, b.br));
        TailBits(b.sym, more, y, c.book);
        var m, tail := SegmentPending(c, rest, Pending(1, b.br), y);
        Regroup(c.Bits(EobRunOps(c.t, 1 + m)), b.br, tail, y);
        FreshEobDecodes(With(c, j), 1 + m, tail + y);
        JobStep(c, jobs, c.Bits(b.sym + more) + y, 0, tail + y, m, y);
      } else {
        var more := SegmentOps(c.t, Bands(c, rest), NONE_PENDING);
        TailBits(b.sym, more, y, c.book);
        SegmentFresh(c, rest, y);
        FreshFullDecodes(With(c, j), c.Bits(more) + y);
        JobStep(c, jobs, c.Bits(b.sym + more) + y, 0, c.Bits(more) + y, 0, y);
      }
    }
  }

  lemma NoJobs(c: Case, jobs: seq<Job>, y: seq<bool>)
    requires c.lo <= c.hi <= DCTSIZE2 && c.t in c.tabs && jobs == []
    ensures DecodeJobs(c, jobs, c.Bits(SegmentOps(c.t, Bands(c, jobs), NONE_PENDING)) + y, 0)
         == BandsDone(Targets(jobs), y, 0)
    ensures DecodeJobs(c, jobs, y, 0) == BandsDone(Targets(jobs), y, 0)
    ensures forall p: Pending :: p.run < MAX_EOBRUN ==> SegmentOps(c.t, Bands(c, jobs), p) == FlushOps(c.t, p)
  {
    hide FlushOps;
    assert FlushOps(c.t, NONE_PENDING) == [] by { NothingPending(c.t); }
    NoOpBits(c.book);
    EmptyFirst(y);
  }

  lemma NothingPending(t: TableId)
    ensures FlushOps(t, NONE_PENDING) == []
  {}

  lemma RestOk(c: Case, jobs: seq<Job>)
    requires JobsOk(c, jobs) && jobs != []
    ensures JobsOk(c, jobs[1..]) && With(c, jobs[0]).Ok()
  {
    hide Tied, Agrees;
  }

  /** With a run pending: the next EOBn covers m more whole blocks, whose correction bits come
      first in `tail`; reading `tail` with m bands to skip gives the targets. */
  lemma {:induction false} SegmentPending(c: Case, jobs: seq<Job>, p: Pending, y: seq<bool>) returns (m: nat, tail: seq<bool>)
    requires JobsOk(c, jobs) && PendingOk(p) && p.run > 0
    requires Emittable(SegmentOps(c.t, Bands(c, jobs), p), c.book)
    ensures p.run + m <= MAX_EOBRUN && Emittable(EobRunOps(c.t, p.run + m), c.book)
    ensures c.Bits(SegmentOps(c.t, Bands(c, jobs), p)) == c.Bits(EobRunOps(c.t, p.run + m)) + (p.be + tail)
    ensures DecodeJobs(c, jobs, tail + y, m) == BandsDone(Targets(jobs), y, 0)
    decreases |jobs|, 1
  {
    hide OpsBits, Emittable, DecodeBands, DecodeOne, SegmentOps, BandEmits, Band, Tied, Agrees, EobRunOps, FlushOps, Bands;
    if jobs == [] {
      NoJobs(c, jobs, y);
      m, tail := 0, [];
      AppendNothing(FlushOps(c.t, p));
      FlushBitsAre(c, p, []);
      NoOpBits(c.book);
      EmptyFirst(y);
    } else if BandOf(c, jobs[0]).sym != [] {
      m, tail := 0, c.Bits(SegmentOps(c.t, Bands(c, jobs), NONE_PENDING));
      LoudEmits(c, jobs, p);
      FlushBitsAre(c, p, SegmentOps(c.t, Bands(c, jobs), NONE_PENDING));
      SegmentFresh(c, jobs, y);
    } else {
      m, tail := SegmentInRun(c, jobs, p, y);
    }
  }

  lemma {:induction false} SegmentInRun(c: Case, jobs: seq<Job>, p: Pending, y: seq<bool>) returns (m: nat, tail: seq<bool>)
    requires JobsOk(c, jobs) && PendingOk(p) && p.run > 0
    requires jobs != [] && BandOf(c, jobs[0]).sym == []
    requires Emittable(SegmentOps(c.t, Bands(c, jobs), p), c.book)
    ensures p.run + m <= MAX_EOBRUN && Emittable(EobRunOps(c.t, p.run + m), c.book)
    ensures c.Bits(SegmentOps(c.t, Bands(c, jobs), p)) == c.Bits(EobRunOps(c.t, p.run + m)) + (p.be + tail)
    ensures DecodeJobs(c, jobs, tail + y, m) == BandsDone(Targets(jobs), y, 0)
    decreases |jobs|, 0
  {
    hide OpsBits, Emittable, DecodeBands, DecodeOne, SegmentOps, BandEmits, Band, Tied, Agrees, EobRunOps, FlushOps, Bands, CorrBits, End;
    var j, rest := jobs[0], jobs[1..];
    var b := BandOf(c, j);
    BandShape(c, j);
    SegmentStep(c, jobs, p);
    SilentEmits(c.t, p, b);
    RestOk(c, jobs);
    var p2 := Pending(p.run + 1, p.be + b.br);
    var more: seq<bool>;
    if MustFlush(p2) {
      var ops := SegmentOps(c.t, Bands(c, rest), NONE_PENDING);
      FlushBitsAre(c, p2, ops);
      SegmentFresh(c, rest, y);
      m, more := 1, c.Bits(ops);
    } else {
      NoOpsFirst(SegmentOps(c.t, Bands(c, rest), p2));
      var m';
      m', more := SegmentPending(c, rest, p2, y);
      m := m' + 1;
    }
    tail := b.br + more;
    Regroup(p.be, b.br, more, y);
    InRunDecodes(With(c, j), m, more + y);
    assert tail + y == b.br + (more + y);
    JobStep(c, jobs, tail + y, m, more + y, m - 1, y);
  }

  lemma NoOpsFirst(ops: seq<Op>)
    ensures [] + ops == ops
  {}
}
