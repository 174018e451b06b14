/** Two-pass agreement: the symbols counted in a statistics pass are those emitted later, their
    alphabets are small enough to optimise, and the optimal tables have a code for each of them. */
module TwoPass {
  import opened Bits
  import opened ByteStuffing
  import opened HuffmanTable
  import opened Coefficients
  import opened EntropyOps
  import opened BandCoding
  import opened EobRuns
  import opened ScanCoding
  import opened IntervalRoundTrip
  import opened RestartCoding
  import opened OpWriter
  import opened SymbolCounts
  import opened HuffmanMerge
  import opened OptimalTable
  import opened CodeDepth
  import opened EncodingPass
  import opened HuffGather

  // ----- which symbols a scan can emit -----

  /** The scan codes symbols with this table. */
  ghost predicate Uses(scan: Scan, t: TableId) {
    if t.isAC then scan.kind in {Sequential, AcFirst, AcRefine} && t.no in scan.acTbl
    else scan.kind in {Sequential, DcFirst} && t.no in scan.dcTbl
  }

  /** DC categories; AC run/size, ZRL and EOBn symbols. */
  predicate InAlphabet(isAC: bool, s: byte) {
    if isAC then s % 16 <= MAX_COEF_BITS else s <= MAX_COEF_BITS + 1
  }

  ghost predicate GoodOp(scan: Scan, op: Op) {
    match op
    case Sym(t, s) => Uses(scan, t) && InAlphabet(t.isAC, s)
    case Raw(_, n) => 0 < n <= 16
    case OutOfRange => true
  }

  ghost predicate GoodOps(scan: Scan, ops: seq<Op>) {
    forall i :: 0 <= i < |ops| ==> GoodOp(scan, ops[i])
  }

  lemma GoodConcat(scan: Scan, a: seq<Op>, b: seq<Op>)
    requires GoodOps(scan, a) && GoodOps(scan, b)
    ensures GoodOps(scan, a + b)
  {
    hide GoodOp;
  }

  lemma BitLengthSmall(n: nat, x: int)
    requires n == BitLength(Abs(x)) && x != 0
    ensures n > 0
  {}

  lemma GoodDc(scan: Scan, t: TableId, diff: int)
    requires Uses(scan, t) && !t.isAC
    ensures GoodOps(scan, DcOps(t, diff))
  {
    hide BitLength, Uses;
  }

  lemma {:induction false} GoodBits(scan: Scan, br: seq<bool>)
    ensures GoodOps(scan, BitOps(br))
  {
    if br != [] {
      GoodBits(scan, br[..|br| - 1]);
    }
  }

  lemma {:induction false} GoodZrl(scan: Scan, t: TableId, r: nat, br: seq<bool>)
    requires Uses(scan, t) && t.isAC
    ensures GoodOps(scan, ZrlOps(t, r, br))
    decreases r
  {
    hide Uses, BitOps;
    if r > 15 {
      GoodBits(scan, br);
      GoodZrl(scan, t, r - 16, []);
      GoodConcat(scan, [Sym(t, 0xF0)], BitOps(br));
      GoodConcat(scan, [Sym(t, 0xF0)] + BitOps(br), ZrlOps(t, r - 16, []));
    }
  }

  lemma GoodNew(scan: Scan, t: TableId, r: nat, v: int, br: seq<bool>)
    requires Uses(scan, t) && t.isAC && r < 16 && v != 0
    ensures GoodOps(scan, NewOps(t, r, v, br))
  {
    hide Uses, BitOps, BitLength;
    var n := BitLength(Abs(v));
    BitLengthSmall(n, v);
    GoodBits(scan, br);
    if n <= MAX_COEF_BITS {
      RunSize(r, n);
      GoodConcat(scan, [Sym(t, 16 * r + n), Raw(Appended(v), n)], BitOps(br));
    }
  }

  lemma RunSize(r: nat, n: nat)
    requires r < 16 && n < 16
    ensures (16 * r + n) % 16 == n && 16 * r + n < 256
  {}

  ghost predicate NewNonzero(its: Items) {
    forall k :: 0 <= k < DCTSIZE2 && its[k].New? ==> its[k].v != 0
  }

  lemma ItemsNonzero(refine: bool, z: Block, al: nat)
    ensures NewNonzero(ItemsOf(refine, z, al))
  {
    hide Shr;
  }

  lemma {:induction false} GoodSyms(scan: Scan, t: TableId, its: Items, k: nat, e: nat, r: nat, br: seq<bool>)
    requires Uses(scan, t) && t.isAC && e <= DCTSIZE2 && NewNonzero(its)
    ensures GoodOps(scan, SymOps(t, its, k, e, r, br))
    decreases e - k
  {
    hide Uses, ZrlOps, NewOps, AfterZrl, GoodOps;
    if k >= e {
      NothingGood(scan);
    } else {
      GoodZrl(scan, t, r, br);
      match its[k]
      case Zero => GoodSyms(scan, t, its, k + 1, e, r + 1, br);
      case Corr(b) =>
        var br' := AfterZrl(r, br) + [b];
        GoodSyms(scan, t, its, k + 1, e, r % 16, br');
        GoodConcat(scan, ZrlOps(t, r, br), SymOps(t, its, k + 1, e, r % 16, br'));
      case New(v) =>
        GoodNew(scan, t, r % 16, v, AfterZrl(r, br));
        GoodSyms(scan, t, its, k + 1, e, 0, []);
        GoodConcat(scan, ZrlOps(t, r, br), NewOps(t, r % 16, v, AfterZrl(r, br)));
        GoodConcat(scan, ZrlOps(t, r, br) + NewOps(t, r % 16, v, AfterZrl(r, br)), SymOps(t, its, k + 1, e, 0, []));
    }
  }

  lemma NothingGood(scan: Scan)
    ensures GoodOps(scan, [])
  {}

  lemma BandIsGood(scan: Scan, t: TableId, its: Items, lo: nat, hi: nat)
    requires Uses(scan, t) && t.isAC && lo <= hi <= DCTSIZE2 && NewNonzero(its)
    ensures GoodOps(scan, Band(t, its, lo, hi).sym)
  {
    GoodSyms(scan, t, its, lo, End(its, lo, hi), 0, []);
  }

  lemma GoodFlush(scan: Scan, t: TableId, p: Pending)
    requires Uses(scan, t) && t.isAC && p.run <= MAX_EOBRUN
    ensures GoodOps(scan, FlushOps(t, p))
  {
    hide Uses, BitOps, BitLength;
    if p.run > 0 {
      RunCategory(p.run);
      var n := BitLength(p.run) - 1;
      RunSize(n, 0);
      GoodBits(scan, p.be);
      GoodConcat(scan, EobRunOps(t, p.run), BitOps(p.be));
    }
  }

  lemma GoodBandEmits(scan: Scan, t: TableId, p: Pending, b: BandOps)
    requires Uses(scan, t) && t.isAC && p.run < MAX_EOBRUN && GoodOps(scan, b.sym)
    ensures GoodOps(scan, BandEmits(t, p, b).0)
  {
    hide Uses, FlushOps, GoodOps, MustFlush;
    NothingGood(scan);
    GoodFlush(scan, t, p);
    GoodConcat(scan, FlushOps(t, p), b.sym);
    var p1 := if b.sym == [] then p else NONE_PENDING;
    GoodFlush(scan, t, Pending(p1.run + 1, p1.be + b.br));
    GoodConcat(scan, if b.sym == [] then [] else FlushOps(t, p) + b.sym, FlushOps(t, Pending(p1.run + 1, p1.be + b.br)));
  }

  lemma GoodBlock(scan: Scan, ci: nat, z: Block, last: int)
    requires scan.Wf() && !scan.IsAC() && ci < |scan.dcTbl|
    ensures GoodOps(scan, BlockOps(scan, ci, z, last).0)
  {
    hide DcOps, Band, GoodOp;
    if scan.kind.Sequential? {
      GoodDc(scan, scan.DcId(ci), z[0] - last);
      ItemsNonzero(false, z, 0);
      BandIsGood(scan, scan.AcId(ci), ItemsOf(false, z, 0), 1, DCTSIZE2);
      assert GoodOp(scan, Sym(scan.AcId(ci), 0)) by { GoodEob(scan, ci); }
    } else if scan.kind.DcRefine? {
      assert GoodOp(scan, Raw(Asr(z[0], scan.al), 1)) by { GoodBit(scan, Asr(z[0], scan.al)); }
    } else {
      GoodDc(scan, scan.DcId(ci), Asr(z[0], scan.al) - last);
    }
  }

  lemma GoodEob(scan: Scan, ci: nat)
    requires scan.kind.Sequential? && ci < |scan.acTbl|
    ensures GoodOp(scan, Sym(scan.AcId(ci), 0))
  {}

  lemma GoodBit(scan: Scan, v: int)
    ensures GoodOp(scan, Raw(v, 1))
  {}

  lemma {:induction false} GoodBlocks(scan: Scan, mcu: Mcu, b: nat, lastDc: seq<int>)
    requires scan.Wf() && !scan.IsAC() && |lastDc| == |scan.dcTbl| && b <= |mcu| == |scan.membership|
    ensures GoodOps(scan, BlocksOps(scan, mcu, b, lastDc).0)
    decreases |mcu| - b
  {
    hide BlockOps, GoodOps;
    if b == |mcu| {
      NothingGood(scan);
    } else {
      var ci := scan.membership[b];
      var (ops, last) := BlockOps(scan, ci, mcu[b], lastDc[ci]);
      GoodBlock(scan, ci, mcu[b], lastDc[ci]);
      GoodBlocks(scan, mcu, b + 1, lastDc[ci := last]);
      GoodConcat(scan, ops, BlocksOps(scan, mcu, b + 1, lastDc[ci := last]).0);
    }
  }

  lemma GoodMcu(scan: Scan, mcu: Mcu, c: Coder)
    requires scan.Wf() && CoderOk(scan, c) && McuFits(scan, mcu)
    ensures GoodOps(scan, McuOps(scan, mcu, c)) && GoodOps(scan, EndOps(scan, c))
  {
    hide Band, BandEmits, BlocksOps, GoodOps, ItemsOf, FlushOps;
    if scan.IsAC() {
      ItemsNonzero(scan.kind.AcRefine?, mcu[0], scan.al);
      BandIsGood(scan, scan.AcId(0), ItemsOf(scan.kind.AcRefine?, mcu[0], scan.al), scan.ss, scan.se + 1);
      GoodBandEmits(scan, scan.AcId(0), c.pend, AcBand(scan, mcu[0]));
      GoodFlush(scan, scan.AcId(0), c.pend);
    } else {
      GoodBlocks(scan, mcu, 0, c.lastDc);
      NothingGood(scan);
      NoFlush(scan.AcId(0));
    }
  }

  lemma NoFlush(t: TableId)
    ensures FlushOps(t, NONE_PENDING) == []
  {}

  /** A scan emits only symbols of the small alphabets, with the tables it names. */
  lemma {:induction false} RestIsGood(scan: Scan, c: Coder, togo: nat, mcus: seq<Mcu>)
    requires scan.Wf() && CoderOk(scan, c) && McusFit(scan, mcus)
    ensures GoodOps(scan, RestOps(scan, c, togo, mcus))
    decreases |mcus|
  {
    hide McuOps, EndOps, GoodOps, StepCoder, FreshCoder, CoderOk;
    var blank: Mcu := seq(|scan.membership|, _ => Blank());
    if mcus == [] {
      GoodMcu(scan, blank, c);
    } else {
      FreshOk(scan);
      GoodMcu(scan, mcus[0], c);
      GoodMcu(scan, mcus[0], FreshCoder(scan));
      GoodConcat(scan, EndOps(scan, c), McuOps(scan, mcus[0], FreshCoder(scan)));
      RestIsGood(scan, StepCoder(scan, c, togo, mcus[0]), StepTogo(scan, togo), mcus[1..]);
      GoodConcat(scan, StepOps(scan, c, togo, mcus[0]), RestOps(scan, StepCoder(scan, c, togo, mcus[0]), StepTogo(scan, togo), mcus[1..]));
    }
  }

  lemma ScanIsGood(scan: Scan, mcus: seq<Mcu>)
    requires scan.Wf() && McusFit(scan, mcus)
    ensures GoodOps(scan, ScanOps(scan, mcus))
  {
    FreshOk(scan);
    RestIsGood(scan, FreshCoder(scan), scan.restart, mcus);
  }

  // ----- every table that a scan uses gets at least one symbol -----

  /** A symbol of this table occurs, or the fatal out-of-range coefficient. */
  ghost predicate Speaks(ops: seq<Op>, t: TableId) {
    exists i :: 0 <= i < |ops| && Voice(ops[i], t)
  }

  predicate Voice(op: Op, t: TableId) {
    op.OutOfRange? || (op.Sym? && op.t == t)
  }

  lemma SpeaksMore(a: seq<Op>, b: seq<Op>, t: TableId)
    requires Speaks(a, t) || Speaks(b, t)
    ensures Speaks(a + b, t)
  {
    if Speaks(a, t) {
      var i :| 0 <= i < |a| && Voice(a[i], t);
      assert Voice((a + b)[i], t);
    } else {
      var i :| 0 <= i < |b| && Voice(b[i], t);
      assert Voice((a + b)[|a| + i], t);
    }
  }

  lemma SpeaksFirst(ops: seq<Op>, t: TableId)
    requires ops != [] && Voice(ops[0], t)
    ensures Speaks(ops, t)
  {}

  lemma {:induction false} SymsSpeak(t: TableId, its: Items, k: nat, e: nat, r: nat, br: seq<bool>)
    requires k <= e <= DCTSIZE2 && SymOps(t, its, k, e, r, br) != []
    ensures Speaks(SymOps(t, its, k, e, r, br), t)
    decreases e - k
  {
    hide ZrlOps, NewOps, AfterZrl, Speaks;
    if k < e {
      ZrlSpeaks(t, r, br);
      match its[k]
      case Zero => SymsSpeak(t, its, k + 1, e, r + 1, br);
      case Corr(b) =>
        var more := SymOps(t, its, k + 1, e, r % 16, AfterZrl(r, br) + [b]);
        if more != [] {
          SymsSpeak(t, its, k + 1, e, r % 16, AfterZrl(r, br) + [b]);
        }
        SpeaksMore(ZrlOps(t, r, br), more, t);
      case New(v) =>
        NewSpeaks(t, r % 16, v, AfterZrl(r, br));
        SpeaksMore(ZrlOps(t, r, br), NewOps(t, r % 16, v, AfterZrl(r, br)), t);
        SpeaksMore(ZrlOps(t, r, br) + NewOps(t, r % 16, v, AfterZrl(r, br)), SymOps(t, its, k + 1, e, 0, []), t);
    }
  }

  lemma ZrlSpeaks(t: TableId, r: nat, br: seq<bool>)
    ensures ZrlOps(t, r, br) == [] || Speaks(ZrlOps(t, r, br), t)
  {
    if r > 15 {
      assert ZrlOps(t, r, br)[0] == Sym(t, 0xF0);
      SpeaksFirst(ZrlOps(t, r, br), t);
    }
  }

  lemma NewSpeaks(t: TableId, r: nat, v: int, br: seq<bool>)
    requires r < 16
    ensures Speaks(NewOps(t, r, v, br), t)
  {
    hide BitLength;
    var ops := NewOps(t, r, v, br);
    assert Voice(ops[0], t);
    SpeaksFirst(ops, t);
  }

  lemma FlushSpeaks(t: TableId, p: Pending)
    requires 0 < p.run <= MAX_EOBRUN
    ensures Speaks(FlushOps(t, p), t)
  {
    hide BitLength, BitOps;
    assert FlushOps(t, p)[0].t == t;
    SpeaksFirst(FlushOps(t, p), t);
  }

  /** A band without symbols has an end-of-band to report. */
  lemma BandSpeaks(t: TableId, its: Items, lo: nat, hi: nat)
    requires lo < hi <= DCTSIZE2
    ensures Speaks(Band(t, its, lo, hi).sym, t) || (Band(t, its, lo, hi).sym == [] && Band(t, its, lo, hi).eob)
  {
    hide SymOps, Speaks;
    var e := End(its, lo, hi);
    if SymOps(t, its, lo, e, 0, []) == [] {
      NoSymbols(t, its, lo, e, 0, []);
    } else {
      SymsSpeak(t, its, lo, e, 0, []);
    }
  }

  /** After a block of an AC scan, a symbol was emitted or a run is pending. */
  lemma BandEmitsSpeaks(t: TableId, p: Pending, b: BandOps)
    requires p.run < MAX_EOBRUN && (Speaks(b.sym, t) || (b.sym == [] && b.eob))
    ensures Speaks(BandEmits(t, p, b).0, t) || BandEmits(t, p, b).1.run > 0
  {
    hide FlushOps, Speaks;
    var p1 := if b.sym == [] then p else NONE_PENDING;
    var p2 := Pending(p1.run + 1, p1.be + b.br);
    FlushSpeaks(t, p2);
    var before := if b.sym == [] then [] else FlushOps(t, p) + b.sym;
    if b.sym != [] {
      SpeaksMore(FlushOps(t, p), b.sym, t);
    }
    SpeaksMore(before, FlushOps(t, p2), t);
  }

  /** In an AC scan a pending run is flushed in the end. */
  lemma {:induction false} RestSpeaks(scan: Scan, c: Coder, togo: nat, mcus: seq<Mcu>)
    requires scan.Wf() && scan.IsAC() && CoderOk(scan, c) && McusFit(scan, mcus) && (c.pend.run > 0 || mcus != [])
    ensures Speaks(RestOps(scan, c, togo, mcus), scan.AcId(0))
    decreases |mcus|
  {
    hide FlushOps, Speaks, BandEmits, Band, FreshCoder;
    var t := scan.AcId(0);
    if mcus == [] {
      FlushSpeaks(t, c.pend);
    } else {
      FreshOk(scan);
      var c0 := if scan.restart > 0 && togo == 0 then FreshCoder(scan) else c;
      var ops, c' := McuOps(scan, mcus[0], c0), NextCoder(scan, mcus[0], c0);
      var before := if scan.restart > 0 && togo == 0 then EndOps(scan, c) else [];
      var more := RestOps(scan, c', StepTogo(scan, togo), mcus[1..]);
      BandSpeaks(t, ItemsOf(scan.kind.AcRefine?, mcus[0][0], scan.al), scan.ss, scan.se + 1);
      BandEmitsSpeaks(t, c0.pend, AcBand(scan, mcus[0][0]));
      if c'.pend.run > 0 {
        RestSpeaks(scan, c', StepTogo(scan, togo), mcus[1..]);
      } else {
        SpeaksMore(before, ops, t);
      }
      assert before + ops == StepOps(scan, c, togo, mcus[0]) by {
        assert [] + ops == ops;
      }
      SpeaksMore(before + ops, more, t);
    }
  }

  lemma DcSpeaks(t: TableId, diff: int)
    ensures Speaks(DcOps(t, diff), t)
  {
    hide BitLength;
    assert Voice(DcOps(t, diff)[0], t);
  }

  lemma SequentialAcSpeaks(t: TableId, z: Block)
    ensures Speaks(SequentialAcOps(t, z), t)
  {
    hide SymOps, ItemsOf, End;
    var b := Band(t, ItemsOf(false, z, 0), 1, DCTSIZE2);
    BandSpeaks(t, ItemsOf(false, z, 0), 1, DCTSIZE2);
    if b.eob {
      SpeaksFirst([Sym(t, 0)], t);
    }
    SpeaksMore(b.sym, if b.eob then [Sym(t, 0)] else [], t);
  }

  lemma BlockSpeaks(scan: Scan, ci: nat, z: Block, last: int, t: TableId)
    requires scan.Wf() && !scan.IsAC() && ci < |scan.dcTbl| && Uses(scan, t)
    requires t == (if t.isAC then scan.AcId(ci) else scan.DcId(ci))
    ensures Speaks(BlockOps(scan, ci, z, last).0, t)
  {
    hide DcOps, SequentialAcOps, Speaks;
    if scan.kind.Sequential? {
      DcSpeaks(scan.DcId(ci), z[0] - last);
      SequentialAcSpeaks(scan.AcId(ci), z);
      SpeaksMore(DcOps(scan.DcId(ci), z[0] - last), SequentialAcOps(scan.AcId(ci), z), t);
    } else {
      DcSpeaks(scan.DcId(ci), Asr(z[0], scan.al) - last);
    }
  }

  lemma {:induction false} BlocksSpeak(scan: Scan, mcu: Mcu, b: nat, k: nat, lastDc: seq<int>, t: TableId)
    requires scan.Wf() && !scan.IsAC() && |lastDc| == |scan.dcTbl| && b <= k < |mcu| == |scan.membership| && Uses(scan, t)
    requires var ci := scan.membership[k]; t == (if t.isAC then scan.AcId(ci) else scan.DcId(ci))
    ensures Speaks(BlocksOps(scan, mcu, b, lastDc).0, t)
    decreases k - b
  {
    hide BlockOps, Speaks, Uses;
    var ci := scan.membership[b];
    var (ops, last) := BlockOps(scan, ci, mcu[b], lastDc[ci]);
    if b == k {
      BlockSpeaks(scan, ci, mcu[b], lastDc[ci], t);
    } else {
      BlocksSpeak(scan, mcu, b + 1, k, lastDc[ci := last], t);
    }
    SpeaksMore(ops, BlocksOps(scan, mcu, b + 1, lastDc[ci := last]).0, t);
  }

  /** Every component of the scan has a block in each MCU. */
  ghost predicate Covers(scan: Scan) {
    forall ci :: 0 <= ci < |scan.dcTbl| ==> ci in scan.membership
  }

  lemma WhereUsed(scan: Scan, t: TableId) returns (k: nat)
    requires scan.Wf() && Covers(scan) && Uses(scan, t)
    ensures k < |scan.membership|
    ensures t == (if t.isAC then scan.AcId(scan.membership[k]) else scan.DcId(scan.membership[k]))
  {
    var tbl := if t.isAC then scan.acTbl else scan.dcTbl;
    var ci: nat :| ci < |tbl| && tbl[ci] == t.no;
    assert ci in scan.membership;
    k :| 0 <= k < |scan.membership| && scan.membership[k] == ci;
  }

  /** A table that the scan uses codes at least one symbol. */
  lemma UsedTableSpeaks(scan: Scan, mcus: seq<Mcu>, t: TableId)
    requires scan.Wf() && McusFit(scan, mcus) && mcus != [] && Covers(scan) && Uses(scan, t)
    ensures Speaks(ScanOps(scan, mcus), t)
  {
    hide Speaks, BlocksOps, FreshCoder, BandEmits;
    FreshOk(scan);
    var c := FreshCoder(scan);
    if scan.IsAC() {
      RestSpeaks(scan, c, scan.restart, mcus);
    } else {
      var k := WhereUsed(scan, t);
      BlocksSpeak(scan, mcus[0], 0, k, c.lastDc, t);
      SpeaksMore(McuOps(scan, mcus[0], c), RestOps(scan, StepCoder(scan, c, scan.restart, mcus[0]), StepTogo(scan, scan.restart), mcus[1..]), t);
    }
  }

  // ----- the counts can be optimised -----

  lemma {:induction false} LiveFew(f: seq<nat>, isAC: bool, n: nat)
    requires n <= 256 <= |f| && forall s: byte :: f[s] > 0 ==> InAlphabet(isAC, s)
    ensures isAC ==> LiveCount(f, n) <= 11 * (n / 16) + (if n % 16 <= 11 then n % 16 else 11)
    ensures !isAC ==> LiveCount(f, n) <= (if n <= 12 then n else 12)
    decreases n
  {
    if n > 0 {
      LiveFew(f, isAC, n - 1);
      var s: byte := n - 1;
      assert f[s] > 0 ==> InAlphabet(isAC, s);
      SixteenStep(n - 1);
    }
  }

  lemma SixteenStep(n: nat)
    ensures (n + 1) / 16 == if n % 16 == 15 then n / 16 + 1 else n / 16
    ensures (n + 1) % 16 == if n % 16 == 15 then 0 else n % 16 + 1
  {}

  /** No more symbols are counted than there are operations. */
  lemma {:induction false} TotalSmall(c: Statistics, ops: seq<Op>, t: TableId)
    requires CountsOk(c) && t in c
    ensures CountsOk(Tally(c, ops)) && t in Tally(c, ops)
    ensures Total(Tally(c, ops)[t], 256) <= Total(c[t], 256) + |ops|
  {
    hide Total, LiveCount;
    TallyOk(c, ops);
    if ops != [] {
      var init, op := ops[..|ops| - 1], ops[|ops| - 1];
      TotalSmall(c, init, t);
      if op.Sym? && op.t == t {
        var f := Tally(c, init)[t];
        TotalDiffers(f, f[op.s := f[op.s] + 1], op.s, 256);
      }
    }
  }

  lemma {:induction false} TotalNone(n: nat)
    requires n <= COUNT_ENTRIES
    ensures Total(NoCounts(), n) == 0
  {
    if n > 0 {
      TotalNone(n - 1);
    }
  }

  lemma VoiceCounted(ops: seq<Op>, t: TableId) returns (s: byte)
    requires Speaks(ops, t) && InRange(ops)
    ensures CountSym(ops, t, s) > 0
  {
    var i :| 0 <= i < |ops| && Voice(ops[i], t);
    s := ops[i].s;
    CountedOccurs(ops, t, s);
  }

  lemma CountedGood(scan: Scan, ops: seq<Op>, t: TableId, s: byte)
    requires GoodOps(scan, ops) && CountSym(ops, t, s) > 0
    ensures Uses(scan, t) && InAlphabet(t.isAC, s)
  {
    CountedOccurs(ops, t, s);
    var i :| 0 <= i < |ops| && ops[i] == Sym(t, s);
    assert GoodOp(scan, ops[i]);
  }

  /** What a scan's statistics hold for table t. */
  lemma CountsAre(zero: Statistics, ops: seq<Op>, t: TableId)
    requires CountsOk(zero) && t in zero && zero[t] == NoCounts()
    ensures t in Tally(zero, ops) && |Tally(zero, ops)[t]| == COUNT_ENTRIES
    ensures forall s: byte :: Tally(zero, ops)[t][s] == CountSym(ops, t, s)
  {
    TallyOk(zero, ops);
    forall s: byte
      ensures Tally(zero, ops)[t][s] == CountSym(ops, t, s)
    {
      TallyCounts(zero, ops, t, s);
    }
  }

  /** The counts of every table that a scan uses meet the needs of jpeg_gen_optimal_table. */
  lemma CountsCanOptimize(scan: Scan, mcus: seq<Mcu>, zero: Statistics, t: TableId)
    requires scan.Wf() && McusFit(scan, mcus) && mcus != [] && Covers(scan) && Uses(scan, t)
    requires InRange(ScanOps(scan, mcus)) && |ScanOps(scan, mcus)| + 1 <= 1000000000
    requires CountsOk(zero) && t in zero && zero[t] == NoCounts()
    ensures t in Tally(zero, ScanOps(scan, mcus)) && CanOptimize(Tally(zero, ScanOps(scan, mcus))[t])
  {
    hide Total, LiveCount, Tally, CountSym, ScanOps, Speaks, InRange, GoodOps, NoCounts;
    var ops := ScanOps(scan, mcus);
    CountsAre(zero, ops, t);
    ScanIsGood(scan, mcus);
    UsedTableSpeaks(scan, mcus, t);
    TotalSmall(zero, ops, t);
    TotalNone(256);
    FewAndSome(scan, ops, Tally(zero, ops)[t], t);
  }

  /** In a scan of fewer than F(35) - 1 operations no count table is too deep: both finish routines for
      statistics passes succeed. */
  lemma SmallScanIsShallow(scan: Scan, mcus: seq<Mcu>, zero: Statistics, t: TableId)
    requires scan.Wf() && McusFit(scan, mcus) && mcus != [] && Covers(scan) && Uses(scan, t)
    requires InRange(ScanOps(scan, mcus)) && |ScanOps(scan, mcus)| + 1 < SHALLOW_TOTAL
    requires CountsOk(zero) && t in zero && zero[t] == NoCounts()
    ensures t in Tally(zero, ScanOps(scan, mcus)) && CanOptimize(Tally(zero, ScanOps(scan, mcus))[t])
    ensures !TooDeep(Tally(zero, ScanOps(scan, mcus))[t])
  {
    hide Total, LiveCount, Tally, ScanOps, InRange, NoCounts, CanOptimize, TooDeep;
    CountsCanOptimize(scan, mcus, zero, t);
    TotalSmall(zero, ScanOps(scan, mcus), t);
    TotalNone(256);
    FewAreShallow(Tally(zero, ScanOps(scan, mcus))[t]);
  }

  lemma FewAndSome(scan: Scan, ops: seq<Op>, f: seq<nat>, t: TableId)
    requires GoodOps(scan, ops) && Speaks(ops, t) && InRange(ops)
    requires |f| == COUNT_ENTRIES && forall s: byte :: f[s] == CountSym(ops, t, s)
    ensures 1 <= LiveCount(f, 256) <= MAX_REAL_SYMBOLS
  {
    hide LiveCount, CountSym, Speaks, InRange, GoodOps;
    var s := VoiceCounted(ops, t);
    LiveHere(f, s, 256);
    forall s: byte | f[s] > 0
      ensures InAlphabet(t.isAC, s)
    {
      CountedGood(scan, ops, t, s);
    }
    LiveFew(f, t.isAC, 256);
  }

  // ----- the agreement -----

  /** tabs holds, for every table the scan uses, one made from these counts. */
  ghost predicate OptimalFor(scan: Scan, counts: Statistics, tabs: Tables) {
    forall t :: Uses(scan, t) ==> t in counts && t in tabs && TableFor(counts[t], tabs[t])
  }

  ghost predicate BookCovers(scan: Scan, book: Codebook) {
    forall t :: Uses(scan, t) ==> t in book && TableOf(book, t, book[t])
  }

  /** A table made from a scan's counts passes the checks of jpeg_make_c_derived_tbl. */
  lemma OptimalIsLegal(scan: Scan, mcus: seq<Mcu>, zero: Statistics, t: TableId, tab: Table)
    requires scan.Wf() && McusFit(scan, mcus)
    requires CountsOk(zero) && t in zero && zero[t] == NoCounts() && t in Tally(zero, ScanOps(scan, mcus))
    requires TableFor(Tally(zero, ScanOps(scan, mcus))[t], tab)
    ensures Legal(tab, !t.isAC)
  {
    hide TableFor, Tally, CountSym, ScanOps, GoodOps, NoCounts, Legal;
    var ops := ScanOps(scan, mcus);
    CountsAre(zero, ops, t);
    ScanIsGood(scan, mcus);
    var f := Tally(zero, ops)[t];
    forall s: byte | f[s] > 0
      ensures s <= MaxSymbol(!t.isAC)
    {
      CountedGood(scan, ops, t, s);
    }
    TableAccepted(f, tab, !t.isAC);
  }

  lemma CountedHasCode(f: seq<nat>, tab: Table, isDC: bool, d: Derived, s: byte)
    requires TableFor(f, tab) && Legal(tab, isDC) && Derives(tab, d) && f[s] > 0
    ensures d.ehufsi[s] > 0
  {
    ListedIffCoded(tab, d, s);
  }

  lemma GoodIsOk(scan: Scan, ops: seq<Op>, counts: Statistics, tabs: Tables, book: Codebook, i: nat)
    requires GoodOps(scan, ops) && InRange(ops) && i < |ops|
    requires OptimalFor(scan, counts, tabs) && BookCovers(scan, book) && Tied(book, tabs)
    requires forall t, s: byte :: Uses(scan, t) ==> |counts[t]| == COUNT_ENTRIES && counts[t][s] == CountSym(ops, t, s)
    ensures OpOk(ops[i], book)
  {
    hide CountSym, Uses, TableFor, Legal, Derives;
    var op := ops[i];
    assert GoodOp(scan, op);
    if op.Sym? {
      CountedOccurs(ops, op.t, op.s);
      CountedHasCode(counts[op.t], tabs[op.t], !op.t.isAC, book[op.t], op.s);
    }
  }

  /** Two-pass agreement: with tables made from the statistics of a scan, everything that the output
      pass of the same MCUs emits has a code; it cannot hit a missing Huffman code. */
  lemma TwoPassAgreement(scan: Scan, mcus: seq<Mcu>, zero: Statistics, tabs: Tables, book: Codebook)
    requires scan.Wf() && McusFit(scan, mcus) && InRange(ScanOps(scan, mcus))
    requires CountsOk(zero) && forall t :: Uses(scan, t) ==> t in zero && zero[t] == NoCounts()
    requires OptimalFor(scan, Tally(zero, ScanOps(scan, mcus)), tabs)
    requires Tied(book, tabs) && BookCovers(scan, book)
    ensures Emittable(ScanOps(scan, mcus), book)
  {
    hide OptimalFor, BookCovers, Tied, Tally, CountSym, ScanOps, GoodOps, NoCounts, InRange, Uses, OpOk;
    var ops := ScanOps(scan, mcus);
    ScanIsGood(scan, mcus);
    forall t | Uses(scan, t)
      ensures t in Tally(zero, ops) && |Tally(zero, ops)[t]| == COUNT_ENTRIES
      ensures forall s: byte :: Tally(zero, ops)[t][s] == CountSym(ops, t, s)
    {
      CountsAre(zero, ops, t);
    }
    forall i | 0 <= i < |ops|
      ensures OpOk(ops[i], book)
    {
      GoodIsOk(scan, ops, Tally(zero, ops), tabs, book, i);
    }
  }

  /** Hence no MCU of the output pass, wherever it stands, fails for want of a code. */
  lemma EveryStepEmittable(scan: Scan, mcus: seq<Mcu>, book: Codebook, k: nat)
    requires scan.Wf() && McusFit(scan, mcus) && k < |mcus| && Emittable(ScanOps(scan, mcus), book)
    ensures McusFit(scan, mcus[..k])
    ensures var p := PassAfter(scan, mcus[..k]); Emittable(StepOps(scan, p.coder, p.togo, mcus[k]), book)
  {
    hide ScanOps, Emittable, StepOps, EndOps, StepCoder;
    McusTail(scan, mcus, k);
    OpsSplit(scan, mcus, k);
    var p := PassAfter(scan, mcus[..k]);
    var rest := RestOps(scan, p.coder, p.togo, mcus[k..]);
    OpsBitsConcat(OpsSoFar(scan, mcus[..k]), rest, book);
    OpsBitsConcat(StepOps(scan, p.coder, p.togo, mcus[k]),
                  RestOps(scan, StepCoder(scan, p.coder, p.togo, mcus[k]), StepTogo(scan, p.togo), mcus[k..][1..]), book);
  }

  /** In a scan without EOB runs the counts of a finished gathering pass are those of the whole scan. */
  lemma GatheredAll(scan: Scan, zero: Statistics, mcus: seq<Mcu>, c: Coder, togo: nat, counts: Statistics)
    requires GatherOk(scan, zero, mcus, c, togo, counts) && !scan.IsAC()
    ensures counts == Tally(zero, ScanOps(scan, mcus)) && InRange(ScanOps(scan, mcus))
  {
    hide ScanOps, OpsSoFar;
    OpsSplit(scan, mcus, |mcus|);
    assert mcus[..|mcus|] == mcus && mcus[|mcus|..] == [];
    assert RestOps(scan, c, togo, []) == [];
    assert OpsSoFar(scan, mcus) + [] == OpsSoFar(scan, mcus);
  }
}
