/** The progressive Huffman entropy encoder object: one pass over one scan, either output or
    statistics, with restart markers, DC scans, and the two ways a pass finishes. */
module ProgressiveEncoder {
  import opened Bits
  import opened ByteStuffing
  import opened BitWriter
  import opened HuffmanTable
  import opened Coefficients
  import opened EntropyOps
  import opened BandCoding
  import opened EobRuns
  import opened ScanCoding
  import opened RestartCoding
  import opened OpWriter
  import opened SequentialEncoder
  import opened SymbolCounts
  import opened EncodingPass
  import opened HuffEncoder
  import opened HuffmanMerge
  import opened OptimalTable
  import opened HuffGather
  import opened TwoPass
  import opened ProgressiveOutput
  import opened ProgressiveBands
  import opened ProgressiveAc

  /** Every table of the scan is there to count or to code with. */
  ghost predicate AllServed(scan: Scan, tgt: Target) {
    forall t :: Uses(scan, t) ==> Served(tgt, t)
  }

  /** The state after one MCU of any scan, by its parts. */
  lemma StepShape(scan: Scan, book: Codebook, s: ScanState, mcu: Mcu)
    requires StateOk(scan, s) && McuFits(scan, mcu)
    ensures var r, s' := AfterRestart(scan, book, s), EncodeStep(scan, book, s, mcu);
            var due := scan.restart != 0 && s.togo == 0;
            && StateOk(scan, r) && scan.Wf() && CoderOk(scan, r.coder) && CoderOk(scan, s.coder)
            && (due ==> r == ScanState(Closed(scan, book, s) + RestartMarker(s.num), [], FreshCoder(scan), scan.restart, (s.num + 1) % 8))
            && (due ==> StepOps(scan, s.coder, s.togo, mcu) == EndOps(scan, s.coder) + McuOps(scan, mcu, r.coder))
            && (!due ==> r == s && StepOps(scan, s.coder, s.togo, mcu) == McuOps(scan, mcu, r.coder))
            && s' == ScanState(r.base, r.bits + OpsBits(McuOps(scan, mcu, r.coder), book), NextCoder(scan, mcu, r.coder),
                               NextTogo(scan.restart, s.togo), NextNum(scan.restart, s.togo, s.num))
            && StepCoder(scan, s.coder, s.togo, mcu) == NextCoder(scan, mcu, r.coder) && StepTogo(scan, s.togo) == NextTogo(scan.restart, s.togo)
  {
    hide PackBytes, Pad, OpsBits, McuOps, NextCoder, FreshCoder, EndOps, Closed;
  }

  /** jpeg_gen_optimal_table can work on the counts of every table the scan uses. */
  ghost predicate CanOptimizeAll(scan: Scan, c: Statistics) {
    forall t :: Uses(scan, t) ==> t in c && 0 <= t.no < NUM_HUFF_TBLS && CanOptimize(c[t])
  }

  ghost predicate SomeTooDeep(scan: Scan, c: Statistics) {
    exists t :: Uses(scan, t) && t in c && TooDeep(c[t])
  }

  class Encoder {
    const ac: AcCoder
    const scan: Scan
    const out: Emitter
    var lastDc: seq<int>
    var restartsToGo: nat
    var nextRestartNum: RestartNum
    ghost var start: seq<byte>        // the stream when the pass began
    ghost var seen: seq<Mcu>          // the MCUs accepted in this pass
    ghost var state: ScanState        // what the fields stand for; in a statistics pass only its coder and togo matter
    ghost var zero: Statistics        // the count tables when a statistics pass began

    constructor (scan: Scan, gather: bool, w: Writer, book: Codebook, counts: Statistics)
      ensures this.scan == scan && ac.scan == scan && ac.out == out && fresh(ac) && fresh(ac.bitBuffer) && fresh(out)
      ensures out.gather == gather && out.w == w && out.book == book && out.counts == counts
      ensures ac.Holds(NONE_PENDING) && lastDc == NoPredictions(scan) && restartsToGo == scan.restart && nextRestartNum == 0
      ensures start == [] && seen == [] && zero == counts && state == StartState(scan, [])
    {
      var o := new Emitter(gather, w, book, counts);
      this.scan, this.out := scan, o;
      this.ac := new AcCoder(scan, o);
      lastDc, restartsToGo, nextRestartNum := NoPredictions(scan), scan.restart, 0;
      start, seen, zero, state := [], [], counts, StartState(scan, []);
    }

    /** The predictions and the pending run are those of c. An AC scan has no predictions. */
    ghost predicate Stands(c: Coder)
      reads this`lastDc, ac, ac.bitBuffer
    {
      (scan.IsAC() || lastDc == c.lastDc) && ac.Holds(c.pend)
    }

    /** Zero predictions. */
    static function NoPredictions(scan: Scan): (z: seq<int>)
      ensures z == FreshCoder(scan).lastDc
    {
      seq(|scan.dcTbl|, _ => 0)
    }

    /** The ghost record at the start of a pass. */
    ghost method Begin()
      requires Wired() && seen == [] && ac.Holds(NONE_PENDING) && lastDc == NoPredictions(scan)
      requires restartsToGo == scan.restart && nextRestartNum == 0
      requires if out.gather then CountsReady() && zero == out.counts
               else out.w.Idle() && out.w.Writing(out.w.dest.Committed(), []) && BookCovers(scan, out.book)
      modifies this`start, this`state
      ensures Valid() && start == out.w.dest.Committed()
    {
      hide CountsOk, BookCovers, Uses, NoCounts, PassOk, GatherOk, WindowHolds, PackBytes, StateOk, FreshCoder;
      start, state := out.w.dest.Committed(), StartState(scan, out.w.dest.Committed());
      PassStarts(scan, out.book, start);
      StartOk(scan, start);
      FreshIs(scan);
      if out.gather {
        GatherStarts(scan, zero);
      }
    }

    // ----- DC scans -----

    static lemma BlocksNext(scan: Scan, mcu: Mcu, b: nat, lastDc: seq<int>)
      requires scan.Wf() && !scan.IsAC() && McuFits(scan, mcu) && b < |mcu| && |lastDc| == |scan.dcTbl|
      ensures var ci := scan.membership[b];
              var o := BlockOps(scan, ci, mcu[b], lastDc[ci]);
              && BlocksOps(scan, mcu, b, lastDc).0 == o.0 + BlocksOps(scan, mcu, b + 1, lastDc[ci := o.1]).0
              && BlocksOps(scan, mcu, b, lastDc).1 == BlocksOps(scan, mcu, b + 1, lastDc[ci := o.1]).1
    {
      hide BlockOps;
    }

    /** A DC difference of a first scan. */
    method EmitDifference(t: TableId, diff: int, ghost tgt: Target, ghost sent: seq<Op>, ghost rest: seq<Op>) returns (s: Status)
      requires out.Reached(tgt, sent) && Served(tgt, t) && tgt.g.ops == sent + DcOps(t, diff) + rest
      modifies out.Footprint()
      ensures s.Done? ==> out.Reached(tgt, sent + DcOps(t, diff))
      ensures !s.Done? ==> s.Fatal? && !CanReach(tgt)
    {
      hide Served, CanReach, BitLength, Field, Emitter.Reached;
      var temp, temp2 := diff, diff;
      if temp < 0 {
        temp := -temp;
        temp2 := temp2 - 1;
      }
      var nbits := CountBits(temp);
      if nbits > MAX_COEF_BITS + 1 {
        AcCoder.OutOfRangeStops(tgt, sent, rest);
        return Fatal(BadDctCoef);
      }
      ghost var sym, raw := Sym(t, nbits), Raw(temp2, nbits);
      AcCoder.FirstRest(sent, sym, raw, rest);
      assert sent + [sym] + [] == sent + [sym] && [sym] + [] == [sym] && [] + rest == rest && [sym] + [raw] == [sym, raw];
      s := out.EmitSymbol(t, nbits, tgt, sent, (if nbits > 0 then [raw] else []) + rest);
      if !s.Done? {
        return;
      }
      if nbits > 0 {
        s := out.EmitBits(temp2, nbits, raw, tgt, sent + [sym], rest);
      }
    }

    /** The blocks of encode_mcu_DC_first. */
    method EncodeDcFirst(data: seq<Block>, ghost tgt: Target) returns (s: Status)
      requires scan.Wf() && scan.kind.DcFirst? && |data| == |scan.membership| && |lastDc| == |scan.dcTbl|
      requires out.Reached(tgt, []) && AllServed(scan, tgt) && tgt.g.ops == BlocksOps(scan, ZigzagMcu(data), 0, lastDc).0
      modifies this`lastDc, out.Footprint()
      ensures s.Done? ==> out.Reached(tgt, tgt.g.ops) && lastDc == BlocksOps(scan, ZigzagMcu(data), 0, old(lastDc)).1
      ensures !s.Done? ==> s.Fatal? && !CanReach(tgt)
    {
      hide Served, CanReach, Emitter.Reached, BlocksOps, DcOps, Zigzag, Asr, AllServed;
      ghost var mcu, done := ZigzagMcu(data), [];
      var blkn := 0;
      assert [] + tgt.g.ops == tgt.g.ops;
      while blkn < |data|
        invariant blkn <= |data| && |lastDc| == |scan.dcTbl|
        invariant out.Reached(tgt, done) && tgt.g.ops == done + BlocksOps(scan, mcu, blkn, lastDc).0
        invariant BlocksOps(scan, mcu, blkn, lastDc).1 == BlocksOps(scan, mcu, 0, old(lastDc)).1
      {
        var ci := scan.membership[blkn];
        BlocksNext(scan, mcu, blkn, lastDc);
        ZigzagKeepsDc(data[blkn]);
        var temp2 := Asr(data[blkn][0], scan.al);
        var temp := temp2 - lastDc[ci];
        ghost var more := BlocksOps(scan, mcu, blkn + 1, lastDc[ci := temp2]).0;
        AssocOps(done, DcOps(scan.DcId(ci), temp), more);
        lastDc := lastDc[ci := temp2];
        DcServed(scan, tgt, ci);
        s := EmitDifference(scan.DcId(ci), temp, tgt, done, more);
        if !s.Done? {
          return;
        }
        done := done + DcOps(scan.DcId(ci), temp);
        blkn := blkn + 1;
      }
      BlocksOver(scan, mcu, lastDc);
      assert done + [] == done;
      s := Done;
    }

    static lemma DcServed(scan: Scan, tgt: Target, ci: nat)
      requires AllServed(scan, tgt) && scan.kind.DcFirst? && ci < |scan.dcTbl|
      ensures Served(tgt, scan.DcId(ci))
    {
      hide Served;
      assert scan.dcTbl[ci] in scan.dcTbl;
      assert Uses(scan, scan.DcId(ci));
    }

    static lemma AcServed(scan: Scan, tgt: Target)
      requires scan.Wf() && AllServed(scan, tgt) && scan.IsAC()
      ensures Served(tgt, scan.AcId(0))
    {
      hide Served;
      assert scan.acTbl[0] in scan.acTbl;
      assert Uses(scan, scan.AcId(0));
    }

    /** The blocks of encode_mcu_DC_refine: one bit each. */
    method EncodeDcRefine(data: seq<Block>, ghost tgt: Target) returns (s: Status)
      requires scan.Wf() && scan.kind.DcRefine? && |data| == |scan.membership| && |lastDc| == |scan.dcTbl|
      requires out.Reached(tgt, []) && tgt.g.ops == BlocksOps(scan, ZigzagMcu(data), 0, lastDc).0
      modifies out.Footprint()
      ensures s.Done? ==> out.Reached(tgt, tgt.g.ops) && lastDc == BlocksOps(scan, ZigzagMcu(data), 0, lastDc).1
      ensures !s.Done? ==> s.Fatal? && !CanReach(tgt)
    {
      hide CanReach, Emitter.Reached, BlocksOps, Zigzag, Asr, Field;
      ghost var mcu, done := ZigzagMcu(data), [];
      var blkn := 0;
      assert [] + tgt.g.ops == tgt.g.ops;
      while blkn < |data|
        invariant blkn <= |data|
        invariant out.Reached(tgt, done) && tgt.g.ops == done + BlocksOps(scan, mcu, blkn, lastDc).0
        invariant BlocksOps(scan, mcu, blkn, lastDc).1 == BlocksOps(scan, mcu, 0, lastDc).1
      {
        BlocksNext(scan, mcu, blkn, lastDc);
        ZigzagKeepsDc(data[blkn]);
        ghost var ci := scan.membership[blkn];
        assert lastDc[ci := lastDc[ci]] == lastDc;
        var temp := data[blkn][0];
        ghost var op := Raw(Asr(temp, scan.al), 1);
        ghost var more := BlocksOps(scan, mcu, blkn + 1, lastDc).0;
        AssocOps(done, [op], more);
        s := out.EmitBits(Asr(temp, scan.al), 1, op, tgt, done, more);
        if !s.Done? {
          return;
        }
        done := done + [op];
        blkn := blkn + 1;
      }
      BlocksOver(scan, mcu, lastDc);
      assert done + [] == done;
      s := Done;
    }

    // ----- one MCU -----

    ghost predicate Wired() {
      ac.out == out && ac.scan == scan && scan.Wf() && !scan.kind.Sequential? && (scan.ss == 0 <==> !scan.IsAC())
    }

    lemma BandIs(block: Block, mcu: Mcu, c: Coder)
      requires Wired() && scan.IsAC() && CoderOk(scan, c) && mcu == ZigzagMcu([block])
      ensures PendingOk(c.pend) && ac.WorkOf(block, c.pend).Ok()
      ensures ac.WorkOf(block, c.pend).Whole() == (McuOps(scan, mcu, c), NextCoder(scan, mcu, c).pend)
    {
      hide BandEmits, SymOps, ItemsOf, Zigzag, End, CorrBits;
    }

    lemma PlainIs(mcu: Mcu, c: Coder)
      requires Wired() && !scan.IsAC() && CoderOk(scan, c) && McuFits(scan, mcu)
      ensures BlocksOps(scan, mcu, 0, c.lastDc) == (McuOps(scan, mcu, c), NextCoder(scan, mcu, c).lastDc)
      ensures NextCoder(scan, mcu, c).pend == c.pend && |c.lastDc| == |scan.dcTbl|
    {
      hide BlocksOps;
    }

    /** The routine that start_pass_phuff selected, past the restart handling. */
    method EncodeBlocks(data: seq<Block>, ghost c: Coder, ghost tgt: Target) returns (s: Status)
      requires Wired() && CoderOk(scan, c) && Stands(c) && |data| == |scan.membership|
      requires out.Reached(tgt, []) && AllServed(scan, tgt) && tgt.g.ops == McuOps(scan, ZigzagMcu(data), c)
      modifies this`lastDc, ac, ac.bitBuffer, out.Footprint()
      ensures s.Done? ==> out.Reached(tgt, tgt.g.ops) && Stands(NextCoder(scan, ZigzagMcu(data), c))
      ensures !s.Done? ==> s.Fatal? && !CanReach(tgt)
    {
      hide CanReach, Emitter.Reached, BlocksOps, Zigzag, AllServed, McuOps, NextCoder, CoderOk, Work.Whole, Served, PendingOk;
      ghost var mcu := ZigzagMcu(data);
      if scan.kind.DcFirst? {
        PlainIs(mcu, c);
        s := EncodeDcFirst(data, tgt);
      } else if scan.kind.DcRefine? {
        PlainIs(mcu, c);
        s := EncodeDcRefine(data, tgt);
      } else {
        assert data == [data[0]];
        BandIs(data[0], mcu, c);
        AcServed(scan, tgt);
        if scan.kind.AcFirst? {
          s := ac.EncodeAcFirst(data[0], c.pend, tgt);
        } else {
          s := ac.EncodeAcRefine(data[0], c.pend, tgt);
        }
      }
    }

    /** The pending run at the end of an interval: none in a DC scan. */
    lemma EndIs(c: Coder)
      requires Wired() && CoderOk(scan, c)
      ensures EndOps(scan, c) == FlushOps(scan.AcId(0), c.pend) && c.pend.run <= MAX_EOBRUN
      ensures (c.pend.be != [] ==> c.pend.run > 0) && (!scan.IsAC() ==> c.pend.run == 0)
    {
      hide FlushOps;
    }

    /** emit_eobrun at the end of an interval. */
    method EndInterval(ghost c: Coder, ghost tgt: Target) returns (s: Status)
      requires Wired() && CoderOk(scan, c) && Stands(c)
      requires out.Reached(tgt, []) && AllServed(scan, tgt) && tgt.g.ops == EndOps(scan, c)
      modifies ac, out.Footprint()
      ensures s.Done? ==> out.Reached(tgt, tgt.g.ops) && ac.Holds(NONE_PENDING)
      ensures !s.Done? ==> s.Fatal? && !CanReach(tgt)
    {
      hide CanReach, Emitter.Reached, AllServed, CoderOk, EndOps, FlushOps, Served;
      EndIs(c);
      if scan.IsAC() {
        AcServed(scan, tgt);
      }
      ghost var ops := FlushOps(scan.AcId(0), c.pend);
      assert [] + ops == ops && ops + [] == ops;
      s := ac.EmitEobrun(c.pend, tgt, [], []);
    }

    /** emit_restart; st is the state before it. */
    method EmitRestart(ghost st: ScanState, ghost tgt: Target) returns (s: Status)
      requires Wired() && CoderOk(scan, st.coder) && StateOk(scan, st) && Stands(st.coder) && nextRestartNum == st.num
      requires out.Reached(tgt, []) && AllServed(scan, tgt) && tgt.g.ops == EndOps(scan, st.coder)
      requires !out.gather ==> tgt.g.base == st.base && tgt.g.bits == st.bits
      modifies this`lastDc, ac, out.Footprint()
      ensures s.Done? ==> Stands(FreshCoder(scan))
      ensures s.Done? && out.gather ==> out.Reached(tgt, tgt.g.ops)
      ensures s.Done? && !out.gather ==>
                (out.w.Valid() && out.w.Writing(Closed(scan, out.book, st) + RestartMarker(st.num), [])
                 && (!tgt.g.empties ==> out.w.Room() == tgt.g.room) && Emittable(tgt.g.ops, out.book))
      ensures !s.Done? ==> s.Fatal?
      ensures !s.Done? ==> (!CanReach(tgt)
                            || (!out.gather && !tgt.g.empties && |Closed(scan, out.book, st) + RestartMarker(st.num)| >= tgt.g.room))
    {
      hide CanReach, Emitter.Reached, AllServed, CoderOk, StateOk, EndOps, Served, PackBytes, Pad, WindowHolds, OpsBits, Emittable, FreshCoder, Closed;
      s := EndInterval(st.coder, tgt);
      if !s.Done? {
        return;
      }
      if !out.gather {
        WrittenSoFar(out, tgt, tgt.g.ops);
        ClosedIs(scan, out.book, st);
        s := out.w.FlushBits();
        if s.Done? {
          s := out.w.EmitMarker(RST0 + nextRestartNum);
        }
        if !s.Done? {
          return Fatal(CantSuspend);
        }
      }
      FreshIs(scan);
      if scan.ss == 0 {
        lastDc := NoPredictions(scan);
      } else {
        ac.eobrun := 0;
        ac.be := 0;
      }
    }

    static lemma FreshIs(scan: Scan)
      ensures FreshCoder(scan) == Coder(NoPredictions(scan), NONE_PENDING)
    {}

    static lemma ClosedIs(scan: Scan, book: Codebook, st: ScanState)
      requires StateOk(scan, st)
      ensures Closed(scan, book, st) == st.base + PackBytes(Pad(st.bits + OpsBits(EndOps(scan, st.coder), book)))
    {}

    static lemma WrittenSoFar(o: Emitter, tgt: Target, sent: seq<Op>)
      requires o.Reached(tgt, sent) && !o.gather
      ensures o.w.Valid() && o.w.dest.empties == tgt.g.empties && o.w.Writing(tgt.g.base, tgt.g.bits + OpsBits(sent, o.book))
      ensures Emittable(sent, o.book) && (!tgt.g.empties ==> o.w.Room() == tgt.g.room)
    {}

    /** What this pass is to put out next: by writing from where the stream is, or by counting on. */
    ghost function Next(base: seq<byte>, bits: seq<bool>, room: nat, ops: seq<Op>): (t: Target)
      reads out
    {
      Target(out.gather, Goal(out.w.dest.empties, base, bits, room, ops, out.book), out.counts)
    }

    /** The output side is ready for work: tables to count in, or a stream to write to. */
    ghost predicate Open(st: ScanState)
      reads out, out.w, out.w.dest
    {
      if out.gather then CountsOk(out.counts) && forall t :: Uses(scan, t) ==> t in out.counts
      else out.w.Valid() && out.w.Writing(st.base, st.bits) && BookCovers(scan, out.book)
    }

    /** Where a due restart leaves the pass. */
    lemma OpenIsReached(st: ScanState, ops: seq<Op>)
      requires Open(st)
      ensures out.Reached(Next(st.base, st.bits, out.w.Room(), ops), []) && AllServed(scan, Next(st.base, st.bits, out.w.Room(), ops))
    {
      hide PackBytes, WindowHolds, Uses, TableOf;
      assert st.bits + [] == st.bits;
    }

    /** The whole MCU is accepted: in an output pass it has codes and fits, in a statistics pass it is in range. */
    ghost predicate Acceptable(st: ScanState, mcu: Mcu, room: nat)
      requires StateOk(scan, st) && McuFits(scan, mcu)
    {
      if out.gather then InRange(StepOps(scan, st.coder, st.togo, mcu))
      else Accepts(scan, out.book, st, mcu, out.w.dest.empties, room)
    }

    /** A restart that is due, and what it leaves: mid is the point where the MCU's blocks start. */
    method RestartIfDue(ghost st: ScanState, ghost mcu: Mcu) returns (s: Status)
      requires Wired() && StateOk(scan, st) && McuFits(scan, mcu)
      requires Stands(st.coder) && restartsToGo == st.togo && nextRestartNum == st.num && Open(st)
      modifies this`lastDc, ac, out.Footprint()
      ensures s.Done? ==> Stands(AfterRestart(scan, out.book, st).coder) && Open(AfterRestart(scan, out.book, st))
      ensures s.Done? ==> (out.gather || out.w.dest.empties || out.w.Room() == old(out.w.Room()))
      ensures s.Done? && scan.restart != 0 && st.togo == 0 ==> Emitted(old(out.counts), out.counts, EndOps(scan, st.coder))
      ensures !(scan.restart != 0 && st.togo == 0) ==> s.Done? && out.counts == old(out.counts)
      ensures !s.Done? ==> s.Fatal? && !Acceptable(st, mcu, old(out.w.Room()))
    {
      hide CanReach, Emitter.Reached, AllServed, CoderOk, StateOk, EndOps, McuOps, StepOps, PackBytes, Pad, WindowHolds, OpsBits, Emittable, FreshCoder, Closed, AfterRestart, EncodeStep, NextCoder, InRange, BookCovers, CountsOk;
      StepShape(scan, out.book, st, mcu);
      s := Done;
      if scan.restart != 0 {
        if restartsToGo == 0 {
          ghost var tgt := Next(st.base, st.bits, out.w.Room(), EndOps(scan, st.coder));
          OpenIsReached(st, tgt.g.ops);
          s := EmitRestart(st, tgt);
          if s.Done? {
            AfterCounting(out, tgt);
          } else {
            RestartRefused(st, mcu, tgt);
          }
        }
      }
    }

    /** The operations went out: with codes, or into the counts. */
    ghost predicate Emitted(before: Statistics, after: Statistics, ops: seq<Op>) {
      if out.gather then after == Tally(before, ops) && InRange(ops) else Emittable(ops, out.book)
    }

    lemma AfterCounting(o: Emitter, tgt: Target)
      requires o == out
      ensures out.gather && out.Reached(tgt, tgt.g.ops) && CountsOk(tgt.c0) ==>
                Emitted(tgt.c0, out.counts, tgt.g.ops) && CountsOk(out.counts) && out.counts.Keys == tgt.c0.Keys
    {
      if CountsOk(tgt.c0) {
        TallyOk(tgt.c0, tgt.g.ops);
      }
    }

    lemma RestartRefused(st: ScanState, mcu: Mcu, tgt: Target)
      requires StateOk(scan, st) && McuFits(scan, mcu) && scan.restart != 0 && st.togo == 0
      requires tgt.gather == out.gather && tgt.g.ops == EndOps(scan, st.coder) && tgt.g.book == out.book
      requires tgt.g.base == st.base && tgt.g.bits == st.bits && tgt.g.empties == out.w.dest.empties
      requires !CanReach(tgt) || (!out.gather && !tgt.g.empties && |Closed(scan, out.book, st) + RestartMarker(st.num)| >= tgt.g.room)
      ensures !Acceptable(st, mcu, tgt.g.room)
    {
      hide EndOps, McuOps, StepOps, PackBytes, Pad, OpsBits, Emittable, FreshCoder, Closed, AfterRestart, EncodeStep, NextCoder, InRange;
      StepShape(scan, out.book, st, mcu);
      var r := AfterRestart(scan, out.book, st);
      if out.gather {
        InRangeConcat(EndOps(scan, st.coder), McuOps(scan, mcu, r.coder));
      } else {
        OpsBitsConcat(EndOps(scan, st.coder), McuOps(scan, mcu, r.coder), out.book);
        ClosedLonger(scan, out.book, st);
      }
    }

    static lemma ClosedLonger(scan: Scan, book: Codebook, st: ScanState)
      requires StateOk(scan, st)
      ensures |st.base + PackBytes(st.bits + OpsBits(EndOps(scan, st.coder), book))| <= |Closed(scan, book, st)|
    {
      hide OpsBits, EndOps, PackBytes;
      var bits := st.bits + OpsBits(EndOps(scan, st.coder), book);
      var fill := PadIsPadding(bits);
      PackLonger(bits, fill);
    }

    /** The output of one encode_mcu call, restart included. */
    method WriteMcu(data: seq<Block>, ghost st: ScanState) returns (s: Status)
      requires Wired() && StateOk(scan, st) && |data| == |scan.membership|
      requires Stands(st.coder) && restartsToGo == st.togo && nextRestartNum == st.num && Open(st)
      modifies this`lastDc, ac, ac.bitBuffer, out.Footprint()
      ensures s.Done? <==> Acceptable(st, ZigzagMcu(data), old(out.w.Room()))
      ensures var next := EncodeStep(scan, out.book, st, ZigzagMcu(data)); s.Done? ==> Stands(next.coder) && Open(next)
      ensures s.Done? && out.gather ==> out.counts == Tally(old(out.counts), StepOps(scan, st.coder, st.togo, ZigzagMcu(data)))
      ensures s.Done? ==> (out.gather || out.w.dest.empties || out.w.Room() == old(out.w.Room()))
      ensures !s.Done? ==> s.Fatal?
    {
      hide CanReach, Emitter.Reached, AllServed, CoderOk, StateOk, EndOps, McuOps, StepOps, Tally, FreshCoder, Closed, AfterRestart, EncodeStep, NextCoder, InRange, Accepts, Emitted, Open, Acceptable, Zigzag;
      ghost var mcu := ZigzagMcu(data);
      StepShape(scan, out.book, st, mcu);
      ghost var room, c0 := out.w.Room(), out.counts;
      s := RestartIfDue(st, mcu);
      if !s.Done? {
        return;
      }
      ghost var r, c1 := AfterRestart(scan, out.book, st), out.counts;
      ghost var tgt := Next(r.base, r.bits, out.w.Room(), McuOps(scan, mcu, r.coder));
      OpenIsReached(r, tgt.g.ops);
      ghost var before := OpenCounts(r);
      s := EncodeBlocks(data, r.coder, tgt);
      StepDone(st, mcu, tgt, room, c0, s.Done?);
      if s.Done? {
        StepOpen(st, mcu, tgt, before);
        StepCounts(st, mcu, tgt, c0);
      }
    }

    /** The count tables that are open. */
    lemma OpenCounts(st: ScanState) returns (keys: set<TableId>)
      requires Open(st)
      ensures out.gather ==> (CountsOk(out.counts) && out.counts.Keys == keys && forall t :: Uses(scan, t) ==> t in keys)
      ensures !out.gather ==> BookCovers(scan, out.book)
    {
      keys := out.counts.Keys;
    }

    lemma StepOpen(st: ScanState, mcu: Mcu, tgt: Target, keys: set<TableId>)
      requires StateOk(scan, st) && McuFits(scan, mcu) && tgt.gather == out.gather && out.Reached(tgt, tgt.g.ops)
      requires var r := AfterRestart(scan, out.book, st);
               tgt.g.base == r.base && tgt.g.bits == r.bits && CoderOk(scan, r.coder) && tgt.g.ops == McuOps(scan, mcu, r.coder)
      requires out.gather ==> (CountsOk(tgt.c0) && tgt.c0.Keys == keys && forall t :: Uses(scan, t) ==> t in keys)
      requires !out.gather ==> BookCovers(scan, out.book)
      ensures Open(EncodeStep(scan, out.book, st, mcu)) && (out.gather || tgt.g.empties || out.w.Room() == tgt.g.room)
    {
      hide EndOps, McuOps, StepOps, PackBytes, Pad, OpsBits, Emittable, AfterRestart, EncodeStep, NextCoder, InRange, BookCovers, StateOk, CoderOk, WindowHolds, Uses;
      StepShape(scan, out.book, st, mcu);
      if out.gather {
        TallyOk(tgt.c0, tgt.g.ops);
      }
    }

    lemma StepCounts(st: ScanState, mcu: Mcu, tgt: Target, c0: Statistics)
      requires StateOk(scan, st) && McuFits(scan, mcu) && tgt.gather == out.gather && out.Reached(tgt, tgt.g.ops)
      requires var r := AfterRestart(scan, out.book, st); CoderOk(scan, r.coder) && tgt.g.ops == McuOps(scan, mcu, r.coder)
      requires CoderOk(scan, st.coder)
      requires scan.restart != 0 && st.togo == 0 ==> Emitted(c0, tgt.c0, EndOps(scan, st.coder))
      requires !(scan.restart != 0 && st.togo == 0) ==> tgt.c0 == c0
      ensures out.gather ==> out.counts == Tally(c0, StepOps(scan, st.coder, st.togo, mcu))
    {
      hide EndOps, McuOps, StepOps, Emittable, AfterRestart, EncodeStep, NextCoder, InRange, StateOk, CoderOk;
      StepShape(scan, out.book, st, mcu);
      TallyConcat(c0, EndOps(scan, st.coder), McuOps(scan, mcu, AfterRestart(scan, out.book, st).coder));
    }

    lemma StepDone(st: ScanState, mcu: Mcu, tgt: Target, room: nat, c0: Statistics, ok: bool)
      requires StateOk(scan, st) && McuFits(scan, mcu) && tgt.gather == out.gather && tgt.g.empties == out.w.dest.empties && tgt.g.book == out.book
      requires var r := AfterRestart(scan, out.book, st);
               tgt.g.base == r.base && tgt.g.bits == r.bits && CoderOk(scan, r.coder) && tgt.g.ops == McuOps(scan, mcu, r.coder)
      requires CoderOk(scan, st.coder) && (out.gather || tgt.g.empties || tgt.g.room == room)
      requires scan.restart != 0 && st.togo == 0 ==> Emitted(c0, tgt.c0, EndOps(scan, st.coder))
      requires if ok then out.Reached(tgt, tgt.g.ops) else !CanReach(tgt)
      ensures ok <==> Acceptable(st, mcu, room)
    {
      hide EndOps, McuOps, StepOps, PackBytes, Pad, OpsBits, Emittable, AfterRestart, EncodeStep, NextCoder, InRange, StateOk, CoderOk, WindowHolds, Tally;
      StepShape(scan, out.book, st, mcu);
      var r := AfterRestart(scan, out.book, st);
      InRangeConcat(EndOps(scan, st.coder), McuOps(scan, mcu, r.coder));
      OpsBitsConcat(EndOps(scan, st.coder), McuOps(scan, mcu, r.coder), out.book);
      assert ok ==> CanReach(tgt) by {
        if ok {
          ReachedCan(out, tgt);
        }
      }
    }

    static lemma ReachedCan(o: Emitter, tgt: Target)
      requires o.Reached(tgt, tgt.g.ops)
      ensures CanReach(tgt)
    {
      hide PackBytes, WindowHolds, OpsBits, Tally;
    }

    // ----- a whole pass -----

    /** Between MCUs: the fields stand for what encoding `seen` leads to. */
    ghost predicate Valid()
      reads this, ac, ac.bitBuffer, out, out.w, out.w.dest
    {
      && Wired() && StateOk(scan, state) && Stands(state.coder) && restartsToGo == state.togo && nextRestartNum == state.num
      && if out.gather then
           CountsReady() && GatherOk(scan, zero, seen, state.coder, state.togo, out.counts)
         else
           PassOk(scan, out.book, start, seen, state) && BookCovers(scan, out.book)
           && out.w.Idle() && out.w.Writing(state.base, state.bits)
    }

    ghost predicate CountsReady()
      reads this
    {
      CountsOk(zero) && forall t :: Uses(scan, t) ==> t in zero && zero[t] == NoCounts()
    }

    lemma ValidGathers(c: Coder, togo: nat, counts: Statistics)
      requires CountsReady() && GatherOk(scan, zero, seen, c, togo, counts)
      ensures CountsOk(counts) && forall t :: Uses(scan, t) ==> t in counts
    {
      TallyOk(zero, OpsSoFar(scan, seen));
    }

    /** encode_mcu: the routine selected at the start of the pass. */
    method EncodeMcu(data: seq<Block>) returns (s: Status)
      requires Valid() && |data| == |scan.membership|
      modifies this, ac, ac.bitBuffer, out, out.w, out.w.dest
      ensures StateOk(scan, old(state))
      ensures s.Done? <==> Acceptable(old(state), ZigzagMcu(data), old(|out.w.dest.Committed()| + out.w.dest.free))
      ensures s.Done? ==> Valid() && seen == old(seen) + [ZigzagMcu(data)]
      ensures !s.Done? ==> s.Fatal?
      ensures start == old(start) && zero == old(zero)
      ensures out.gather ==> unchanged(out.w) && unchanged(out.w.dest)
    {
      hide CoderOk, StateOk, StepOps, FreshCoder, AfterRestart, EncodeStep, NextCoder, InRange, Emittable, Accepts, Zigzag, PassOk, GatherOk, BookCovers, WindowHolds, PackBytes, Uses, NextTogo, NextNum, StepCoder, StepTogo, Tally;
      ghost var st, mcu, c0 := state, ZigzagMcu(data), out.counts;
      StepState(scan, out.book, st, mcu);
      if out.gather {
        ValidGathers(st.coder, st.togo, out.counts);
      } else {
        out.w.Load();
      }
      s := WriteMcu(data, st);
      if s.Done? {
        OpsIfAcceptable(st, mcu, old(|out.w.dest.Committed()| + out.w.dest.free));
        Settle(st, mcu, c0);
      }
    }

    /** The end of encode_mcu: write the destination's pointers back, and update the restart state. */
    method Settle(ghost st: ScanState, ghost mcu: Mcu, ghost c0: Statistics)
      requires Wired() && StateOk(scan, st) && McuFits(scan, mcu) && CoderOk(scan, st.coder)
      requires restartsToGo == st.togo && nextRestartNum == st.num
      requires Stands(EncodeStep(scan, out.book, st, mcu).coder) && Open(EncodeStep(scan, out.book, st, mcu))
      requires out.gather ==> CountsReady() && GatherOk(scan, zero, seen, st.coder, st.togo, c0)
      requires out.gather ==> InRange(StepOps(scan, st.coder, st.togo, mcu)) && out.counts == Tally(c0, StepOps(scan, st.coder, st.togo, mcu))
      requires !out.gather ==> PassOk(scan, out.book, start, seen, st) && Emittable(StepOps(scan, st.coder, st.togo, mcu), out.book)
      modifies this`restartsToGo, this`nextRestartNum, this`seen, this`state, if out.gather then {} else {out.w, out.w.dest}
      ensures Valid() && seen == old(seen) + [mcu]
    {
      hide CoderOk, StateOk, StepOps, FreshCoder, AfterRestart, EncodeStep, NextCoder, InRange, Emittable, PassOk, GatherOk, BookCovers, WindowHolds, PackBytes, Uses, NextTogo, NextNum, StepCoder, StepTogo, Tally, CountsOk;
      if !out.gather {
        out.w.Commit();
      }
      CountDown();
      seen, state := seen + [mcu], EncodeStep(scan, out.book, st, mcu);
      StepState(scan, out.book, st, mcu);
      if out.gather {
        GatherGrows(scan, zero, old(seen), st.coder, st.togo, c0, mcu);
      } else {
        PassGrows(scan, out.book, start, old(seen), st, mcu);
      }
    }

    lemma OpsIfAcceptable(st: ScanState, mcu: Mcu, room: nat)
      requires StateOk(scan, st) && McuFits(scan, mcu) && Acceptable(st, mcu, room)
      ensures CoderOk(scan, st.coder)
      ensures if out.gather then InRange(StepOps(scan, st.coder, st.togo, mcu)) else Emittable(StepOps(scan, st.coder, st.togo, mcu), out.book)
    {}

    static lemma StepState(scan: Scan, book: Codebook, s: ScanState, mcu: Mcu)
      requires StateOk(scan, s) && McuFits(scan, mcu)
      ensures CoderOk(scan, s.coder)
      ensures var s' := EncodeStep(scan, book, s, mcu);
              && StateOk(scan, s') && s'.coder == StepCoder(scan, s.coder, s.togo, mcu)
              && s'.togo == StepTogo(scan, s.togo) == NextTogo(scan.restart, s.togo) && s'.num == NextNum(scan.restart, s.togo, s.num)
    {
      hide AfterRestart, EncodeStep, NextCoder, McuOps, NextTogo, NextNum, StepCoder, StepTogo;
      StepShape(scan, book, s, mcu);
    }

    /** The restart-interval bookkeeping after an MCU. */
    method CountDown()
      modifies this`restartsToGo, this`nextRestartNum
      ensures restartsToGo == NextTogo(scan.restart, old(restartsToGo))
      ensures nextRestartNum == NextNum(scan.restart, old(restartsToGo), old(nextRestartNum))
    {
      if scan.restart != 0 {
        if restartsToGo == 0 {
          restartsToGo := scan.restart;
          nextRestartNum := (nextRestartNum + 1) % 8;
        }
        restartsToGo := restartsToGo - 1;
      }
    }

    /** finish_pass_phuff: the last pending run, then the padding. */
    method FinishPass() returns (s: Status)
      requires Valid() && !out.gather
      modifies ac, out.w, out.w.dest
      ensures StateOk(scan, state) && CoderOk(scan, state.coder)
      ensures s.Done? <==> Emittable(EndOps(scan, state.coder), out.book)
                           && (out.w.dest.empties || |start + ScanBytes(scan, out.book, seen)| < old(|out.w.dest.Committed()| + out.w.dest.free))
      ensures s.Done? ==> out.w.dest.Committed() == start + ScanBytes(scan, out.book, seen) && out.w.dest.Valid()
      ensures s.Done? ==> Emittable(ScanOps(scan, seen), out.book)
      ensures !s.Done? ==> s.Fatal?
    {
      hide CanReach, Emitter.Reached, AllServed, CoderOk, StateOk, EndOps, Served, PackBytes, Pad, WindowHolds, OpsBits, Emittable, FreshCoder, Closed, PassOk, BookCovers, ScanBytes, ScanOps;
      PassEnds(scan, out.book, start, seen, state);
      assert CoderOk(scan, state.coder) by { CoderOfState(scan, state); }
      out.w.Load();
      ghost var tgt := Next(state.base, state.bits, out.w.Room(), EndOps(scan, state.coder));
      OpenIsReached(state, tgt.g.ops);
      ClosedIs(scan, out.book, state);
      ClosedLonger(scan, out.book, state);
      s := EndInterval(state.coder, tgt);
      CannotFinish(tgt);
      if !s.Done? {
        return;
      }
      WrittenSoFar(out, tgt, tgt.g.ops);
      s := out.w.FlushBits();
      if !s.Done? {
        return Fatal(CantSuspend);
      }
      HuffEncoder.Encoder.NothingHeld(out.w);
      out.w.Commit();
    }

    static lemma CoderOfState(scan: Scan, s: ScanState)
      requires StateOk(scan, s)
      ensures CoderOk(scan, s.coder)
    {}

    static lemma CannotFinish(tgt: Target)
      ensures !tgt.gather && !CanReach(tgt) ==>
                !Emittable(tgt.g.ops, tgt.g.book)
                || (!tgt.g.empties && |tgt.g.base + PackBytes(tgt.g.bits + OpsBits(tgt.g.ops, tgt.g.book))| >= tgt.g.room)
    {
      hide PackBytes, OpsBits, Emittable;
    }

    /** A pending run has no out-of-range coefficient. */
    static lemma {:induction false} BitsInRange(be: seq<bool>)
      ensures InRange(BitOps(be))
    {
      if be != [] {
        BitsInRange(be[..|be| - 1]);
      }
    }

    static lemma EndInRange(scan: Scan, c: Coder)
      requires scan.Wf() && CoderOk(scan, c)
      ensures InRange(EndOps(scan, c))
    {
      hide BitOps;
      BitsInRange(c.pend.be);
      if c.pend.run > 0 {
        InRangeConcat(EobRunOps(scan.AcId(0), c.pend.run), BitOps(c.pend.be));
      }
    }

    /** All that a pass over the MCUs emits is what its encode_mcu calls and its end emit. */
    static lemma PassIsScan(scan: Scan, zero: Statistics, seen: seq<Mcu>, c: Coder, togo: nat, counts: Statistics)
      requires GatherOk(scan, zero, seen, c, togo, counts) && CoderOk(scan, c)
      ensures Tally(counts, EndOps(scan, c)) == Tally(zero, ScanOps(scan, seen)) && InRange(ScanOps(scan, seen))
    {
      hide ScanOps, OpsSoFar, EndOps, CoderOk, InRange, Tally;
      OpsSplit(scan, seen, |seen|);
      assert seen[..|seen|] == seen && seen[|seen|..] == [];
      EndInRange(scan, c);
      InRangeConcat(OpsSoFar(scan, seen), EndOps(scan, c));
      TallyConcat(zero, OpsSoFar(scan, seen), EndOps(scan, c));
    }

    /** The table numbers the scan codes with. */
    static function TableNumbers(scan: Scan): seq<int> {
      if scan.kind.DcRefine? then [] else if scan.IsAC() then scan.acTbl else scan.dcTbl
    }

    static lemma NumbersAreUses(scan: Scan, t: TableId)
      requires !scan.kind.Sequential?
      ensures Uses(scan, t) <==> t.isAC == scan.IsAC() && t.no in TableNumbers(scan)
    {}

    /** The statistics when the last pending run has been counted. */
    method CountEnd()
      requires Valid() && out.gather
      modifies ac, out
      ensures out.counts == Tally(zero, ScanOps(scan, seen)) && InRange(ScanOps(scan, seen))
    {
      hide CanReach, Emitter.Reached, AllServed, CoderOk, StateOk, EndOps, ScanOps, Served, GatherOk, Tally, CountsOk, Uses, InRange;
      assert CoderOk(scan, state.coder) by { CoderOfState(scan, state); }
      ghost var tgt := Next(state.base, state.bits, out.w.Room(), EndOps(scan, state.coder));
      ValidGathers(state.coder, state.togo, out.counts);
      OpenIsReached(state, tgt.g.ops);
      PassIsScan(scan, zero, seen, state.coder, state.togo, out.counts);
      EndInRange(scan, state.coder);
      var s := EndInterval(state.coder, tgt);
      InRangeReaches(tgt);
      CountedAll(out, tgt);
    }

    static lemma InRangeReaches(tgt: Target)
      requires tgt.gather && InRange(tgt.g.ops)
      ensures CanReach(tgt)
    {}

    static lemma CountedAll(o: Emitter, tgt: Target)
      requires o.gather && o.Reached(tgt, tgt.g.ops)
      ensures o.counts == Tally(tgt.c0, tgt.g.ops)
    {
      hide Tally;
    }

    /** finish_pass_gather_phuff: tables are those of the scan's class, DC or AC. */
    method FinishPassGather(tables: seq<Option<Table>>) returns (ok: bool, tables': seq<Option<Table>>)
      requires Valid() && out.gather && |tables| == NUM_HUFF_TBLS
      requires CanOptimizeAll(scan, Tally(zero, ScanOps(scan, seen)))
      modifies ac, out
      ensures ok ==> Optimized(Tally(zero, ScanOps(scan, seen)), out.counts, scan.IsAC(), TableNumbers(scan), tables, tables')
      ensures ok <==> !SomeTooDeep(scan, Tally(zero, ScanOps(scan, seen)))
      ensures InRange(ScanOps(scan, seen))
    {
      hide CanOptimize, Optimized, DoneSoFar, TooDeep, ScanOps, Tally, StateOk, CountsOk, InRange, Uses, NoCounts, OpsSoFar, PassAfter;
      ghost var c0 := Tally(zero, ScanOps(scan, seen));
      KeysKept(zero, ScanOps(scan, seen));
      CountEnd();
      var did := seq(NUM_HUFF_TBLS, _ => false);
      tables' := tables;
      var numbers := TableNumbers(scan);
      NothingDone(c0, scan.IsAC(), tables, did);
      ok := true;
      var ci := 0;
      while ci < |numbers|
        invariant ci <= |numbers| && ok
        invariant Optimized(c0, out.counts, scan.IsAC(), numbers[..ci], tables, tables') && DoneSoFar(did, numbers[..ci])
      {
        assert numbers[..ci + 1] == numbers[..ci] + [numbers[ci]];
        NumbersAreUses(scan, TableId(scan.IsAC(), numbers[ci]));
        var c;
        ok, c, tables', did := OptimizeOnce(out.counts, TableId(scan.IsAC(), numbers[ci]), tables', did, c0, numbers[..ci], tables);
        out.counts := c;
        if !ok {
          return;
        }
        ci := ci + 1;
      }
      assert numbers[..ci] == numbers;
      NoneTooDeep(scan, c0, out.counts, tables, tables');
    }

    static lemma NoneTooDeep(scan: Scan, c0: Statistics, c: Statistics, before: seq<Option<Table>>, after: seq<Option<Table>>)
      requires Optimized(c0, c, scan.IsAC(), TableNumbers(scan), before, after) && CanOptimizeAll(scan, c0) && !scan.kind.Sequential?
      ensures !SomeTooDeep(scan, c0)
    {
      hide CanOptimize, TooDeep, Uses, TableFor;
      forall t | Uses(scan, t)
        ensures t in c0 && !TooDeep(c0[t])
      {
        NumbersAreUses(scan, t);
        assert t == TableId(scan.IsAC(), t.no);
      }
    }

    static lemma KeysKept(zero: Statistics, ops: seq<Op>)
      requires CountsOk(zero)
      ensures Tally(zero, ops).Keys == zero.Keys
    {
      TallyOk(zero, ops);
    }

    static lemma NothingDone(c0: Statistics, isAC: bool, tables: seq<Option<Table>>, did: seq<bool>)
      requires |tables| == NUM_HUFF_TBLS && did == seq(NUM_HUFF_TBLS, _ => false)
      ensures Optimized(c0, c0, isAC, [], tables, tables) && DoneSoFar(did, [])
    {}
  }

  // ----- starting a pass -----

  /** The tables whose numbers are listed are present and legal. */
  ghost predicate AllUsable(tables: seq<Option<Table>>, isDC: bool, numbers: seq<int>)
    requires |tables| == NUM_HUFF_TBLS
  {
    forall i :: 0 <= i < |numbers| ==> Usable(tables, isDC, numbers[i])
  }

  ghost predicate AllIndexes(numbers: seq<int>) {
    forall i :: 0 <= i < |numbers| ==> 0 <= numbers[i] < 4
  }

  ghost predicate AllCoded(book: Codebook, isAC: bool, numbers: seq<int>) {
    forall i :: 0 <= i < |numbers| ==> TableId(isAC, numbers[i]) in book && TableOf(book, TableId(isAC, numbers[i]), book[TableId(isAC, numbers[i])])
  }

  ghost predicate AllZeroed(c: Statistics, isAC: bool, numbers: seq<int>) {
    forall i :: 0 <= i < |numbers| ==> TableId(isAC, numbers[i]) in c && c[TableId(isAC, numbers[i])] == NoCounts()
  }

  lemma CodedMore(book: Codebook, dc: seq<Option<Table>>, ac: seq<Option<Table>>, t: TableId, d: Derived, numbers: seq<int>)
    requires |dc| == |ac| == NUM_HUFF_TBLS && Tied(book, Known(dc, ac)) && AllCoded(book, t.isAC, numbers)
    requires Usable(if t.isAC then ac else dc, !t.isAC, t.no) && Derives((if t.isAC then ac else dc)[t.no].value, d)
    ensures Tied(book[t := d], Known(dc, ac)) && AllCoded(book[t := d], t.isAC, numbers + [t.no])
  {
    hide Legal, Derives, Known, Tied;
    HuffEncoder.Encoder.AddTable(book, dc, ac, t, d);
  }

  /** The derived tables for an output pass of a progressive scan. */
  method DeriveScanTables(scan: Scan, dcTables: seq<Option<Table>>, acTables: seq<Option<Table>>) returns (r: StartResult, book: Codebook)
    requires !scan.kind.Sequential? && |dcTables| == |acTables| == NUM_HUFF_TBLS
    ensures r.Started? <==> AllUsable(if scan.IsAC() then acTables else dcTables, !scan.IsAC(), Encoder.TableNumbers(scan))
    ensures r.Started? ==> Tied(book, Known(dcTables, acTables)) && BookCovers(scan, book)
  {
    hide Tied, Known, Legal, Derives, AllCoded, BookCovers;
    var numbers := Encoder.TableNumbers(scan);
    book := map[];
    NoneCoded(scan, Known(dcTables, acTables));
    var ci := 0;
    while ci < |numbers|
      invariant ci <= |numbers|
      invariant Tied(book, Known(dcTables, acTables)) && AllCoded(book, scan.IsAC(), numbers[..ci])
      invariant AllUsable(if scan.IsAC() then acTables else dcTables, !scan.IsAC(), numbers[..ci])
    {
      assert numbers[..ci + 1] == numbers[..ci] + [numbers[ci]];
      var d := MakeDerivedTbl(if scan.IsAC() then acTables else dcTables, !scan.IsAC(), numbers[ci]);
      if d.Bad? {
        return Rejected(d.error), book;
      }
      CodedMore(book, dcTables, acTables, TableId(scan.IsAC(), numbers[ci]), d.tbl, numbers[..ci]);
      book := book[TableId(scan.IsAC(), numbers[ci]) := d.tbl];
      ci := ci + 1;
    }
    assert numbers[..ci] == numbers;
    CodedCovers(scan, book);
    r := Started;
  }

  lemma NoneCoded(scan: Scan, tabs: Tables)
    ensures Tied(map[], tabs) && AllCoded(map[], scan.IsAC(), [])
  {}

  lemma CodedCovers(scan: Scan, book: Codebook)
    requires !scan.kind.Sequential? && AllCoded(book, scan.IsAC(), Encoder.TableNumbers(scan))
    ensures BookCovers(scan, book)
  {
    hide TableOf;
    forall t | Uses(scan, t)
      ensures t in book && TableOf(book, t, book[t])
    {
      Encoder.NumbersAreUses(scan, t);
      assert t == TableId(scan.IsAC(), t.no);
    }
  }

  /** The count tables for a statistics pass of a progressive scan. */
  method ZeroScanCounts(scan: Scan, counts: Statistics) returns (r: StartResult, counts': Statistics)
    requires !scan.kind.Sequential? && CountsOk(counts)
    ensures r.Started? <==> AllIndexes(Encoder.TableNumbers(scan))
    ensures r.Started? ==> CountsOk(counts') && forall t :: Uses(scan, t) ==> t in counts' && counts'[t] == NoCounts()
  {
    hide NoCounts, AllZeroed, AllIndexes, CountsOk;
    var numbers := Encoder.TableNumbers(scan);
    NoCountsLength();
    NoneZeroed(counts, scan.IsAC());
    counts' := counts;
    var ci := 0;
    while ci < |numbers|
      invariant ci <= |numbers| && AllIndexes(numbers[..ci]) && CountsOk(counts') && AllZeroed(counts', scan.IsAC(), numbers[..ci])
    {
      OneMoreZeroed(counts', scan.IsAC(), numbers, ci);
      if numbers[ci] < 0 || numbers[ci] >= NUM_HUFF_TBLS {
        return Rejected(NoHuffTable), counts';
      }
      counts' := counts'[TableId(scan.IsAC(), numbers[ci]) := NoCounts()];
      ci := ci + 1;
    }
    assert numbers[..ci] == numbers;
    ZeroedCovers(scan, counts');
    r := Started;
  }

  lemma OneMoreZeroed(c: Statistics, isAC: bool, numbers: seq<int>, ci: nat)
    requires ci < |numbers| && CountsOk(c) && AllZeroed(c, isAC, numbers[..ci]) && AllIndexes(numbers[..ci]) && |NoCounts()| == COUNT_ENTRIES
    ensures CountsOk(c[TableId(isAC, numbers[ci]) := NoCounts()]) && AllZeroed(c[TableId(isAC, numbers[ci]) := NoCounts()], isAC, numbers[..ci + 1])
    ensures 0 <= numbers[ci] < NUM_HUFF_TBLS ==> AllIndexes(numbers[..ci + 1])
    ensures !(0 <= numbers[ci] < NUM_HUFF_TBLS) ==> !AllIndexes(numbers)
  {
    hide NoCounts;
    assert numbers[..ci + 1] == numbers[..ci] + [numbers[ci]];
  }

  lemma NoneZeroed(c: Statistics, isAC: bool)
    ensures AllZeroed(c, isAC, []) && AllIndexes([])
  {}

  lemma NoCountsLength()
    ensures |NoCounts()| == COUNT_ENTRIES
  {}

  lemma ZeroedCovers(scan: Scan, c: Statistics)
    requires !scan.kind.Sequential? && AllZeroed(c, scan.IsAC(), Encoder.TableNumbers(scan))
    ensures forall t :: Uses(scan, t) ==> t in c && c[t] == NoCounts()
  {
    forall t | Uses(scan, t)
      ensures t in c && c[t] == NoCounts()
    {
      Encoder.NumbersAreUses(scan, t);
      assert t == TableId(scan.IsAC(), t.no);
    }
  }

  /** start_pass_phuff */
  method StartPass(scan: Scan, gather: bool, w: Writer, dcTables: seq<Option<Table>>, acTables: seq<Option<Table>>, counts: Statistics)
    returns (r: StartResult, e: Encoder?)
    requires scan.Wf() && !scan.kind.Sequential? && (scan.ss == 0 <==> !scan.IsAC())
    requires w.dest.Valid() && CountsOk(counts) && |dcTables| == |acTables| == NUM_HUFF_TBLS
    modifies w
    ensures r.Started? <==> if gather then AllIndexes(Encoder.TableNumbers(scan))
                            else AllUsable(if scan.IsAC() then acTables else dcTables, !scan.IsAC(), Encoder.TableNumbers(scan))
    ensures r.Started? ==> e != null && e.Valid() && e.scan == scan && e.out.gather == gather && e.out.w == w && e.seen == []
    ensures r.Started? && !gather ==> e.start == w.dest.Committed() && Tied(e.out.book, Known(dcTables, acTables))
  {
    hide Tied, Known, AllUsable, AllIndexes, CountsOk, BookCovers, Uses, NoCounts, PassOk, GatherOk, WindowHolds, PackBytes, StateOk;
    e := null;
    var book: Codebook, c := map[], counts;
    if gather {
      r, c := ZeroScanCounts(scan, counts);
    } else {
      r, book := DeriveScanTables(scan, dcTables, acTables);
    }
    if r.Rejected? {
      return;
    }
    if !gather {
      w.Reset();
    }
    e := new Encoder(scan, gather, w, book, c);
    e.Begin();
  }
}
