/** Huffman optimisation in sequential scans: the statistics-gathering twin of the encoder, and
    the tables made from what it counted. */
module HuffGather {
  import opened Bits
  import opened ByteStuffing
  import opened BitWriter
  import opened HuffmanTable
  import opened Coefficients
  import opened EntropyOps
  import opened BandCoding
  import opened EobRuns
  import opened ScanCoding
  import opened RestartCoding
  import opened OpWriter
  import opened SequentialEncoder
  import opened SymbolCounts
  import opened EncodingPass
  import opened HuffmanForest
  import opened HuffmanMerge
  import opened LengthLimit
  import opened OptimalTable
  import opened CodeDepth
  import opened HuffEncoder

  datatype FinishResult = Finished(dc: seq<Option<Table>>, ac: seq<Option<Table>>) | Overflow

  /** What jpeg_gen_optimal_table needs of a count table. */
  ghost predicate CanOptimize(freq: seq<nat>) {
    |freq| == COUNT_ENTRIES && 1 <= LiveCount(freq, 256) <= MAX_REAL_SYMBOLS && Total(freq, 256) + 1 <= 1000000000
  }

  /** The numbers in `used` have optimal tables for the counts c0; all others, and their counts in c, are as before. */
  ghost predicate Optimized(c0: Statistics, c: Statistics, isAC: bool, used: seq<int>, before: seq<Option<Table>>, after: seq<Option<Table>>) {
    && |before| == |after| == NUM_HUFF_TBLS && c.Keys == c0.Keys
    && forall n :: 0 <= n < NUM_HUFF_TBLS ==>
         if n in used then
           after[n].Some? && TableId(isAC, n) in c0 && MadeFrom(c0[TableId(isAC, n)], after[n].value) && !TooDeep(c0[TableId(isAC, n)])
         else after[n] == before[n] && (TableId(isAC, n) in c0 ==> c[TableId(isAC, n)] == c0[TableId(isAC, n)])
  }

  ghost predicate DoneSoFar(did: seq<bool>, used: seq<int>) {
    |did| == NUM_HUFF_TBLS && forall n :: 0 <= n < NUM_HUFF_TBLS ==> (did[n] <==> n in used)
  }

  /** The code that merging finds for these counts is deeper than the working arrays allow. */
  ghost predicate TooDeep(freq: seq<nat>) {
    |freq| == ALPHABET && !Shallow(HuffmanSizes(freq[256 := 1]))
  }

  ghost predicate Shallow(cs: seq<nat>) {
    forall i :: 0 <= i < |cs| ==> cs[i] <= 32
  }

  /** jpeg_gen_optimal_table for one table number, unless it was done; it spoils the counts it works on. */
  method OptimizeOnce(counts: Statistics, t: TableId, tables: seq<Option<Table>>, did: seq<bool>, ghost c0: Statistics,
                      ghost used: seq<int>, ghost before: seq<Option<Table>>)
    returns (ok: bool, counts': Statistics, tables': seq<Option<Table>>, did': seq<bool>)
    requires 0 <= t.no < NUM_HUFF_TBLS && t in c0 && CanOptimize(c0[t])
    requires Optimized(c0, counts, t.isAC, used, before, tables) && DoneSoFar(did, used)
    ensures ok ==> Optimized(c0, counts', t.isAC, used + [t.no], before, tables') && DoneSoFar(did', used + [t.no])
    ensures ok <==> !TooDeep(c0[t])
    ensures counts'.Keys == counts.Keys && forall u :: u in counts && u.isAC != t.isAC ==> counts'[u] == counts[u]
  {
    hide LiveCount, Total, MadeFrom, TableFor, Sorted, Shortened, OwnSizes, Offset, Optimal, TooDeep, HuffmanSizes;
    counts', tables', did' := counts, tables, did;
    if !did[t.no] {
      assert counts[t] == c0[t] by { StillThere(c0, counts, t, used, before, tables); }
      var freq := new nat[COUNT_ENTRIES];
      CopyCounts(counts[t], freq);
      var r, w0, cs, tree := GenOptimalTable(freq, if tables[t.no].Some? then tables[t.no].value.huffval else seq(256, _ => 0));
      counts' := counts[t := freq[..]];
      OptimalSizes(w0, cs, tree);
      DeepIff(c0[t], cs);
      if r.ClenOverflow? {
        return false, counts', tables', did';
      }
      tables', did' := tables[t.no := Some(r.tbl)], did[t.no := true];
      NowOptimized(c0, counts, counts', t, used, before, tables, r.tbl);
    } else {
      AgainOptimized(c0, counts, t, used, before, tables);
    }
    ok := true;
  }

  lemma DeepIff(freq: seq<nat>, cs: seq<nat>)
    requires |freq| == ALPHABET == |cs| && cs == HuffmanSizes(freq[256 := 1])
    ensures TooDeep(freq) <==> exists i :: 0 <= i < ALPHABET && cs[i] > 32
  {
    hide HuffmanSizes;
  }

  /** Counts that add up to less than the Fibonacci number F(35), pseudo-symbol included, cannot be too deep. */
  lemma FewAreShallow(freq: seq<nat>)
    requires CanOptimize(freq) && Total(freq, 256) + 1 < SHALLOW_TOTAL
    ensures !TooDeep(freq)
  {
    hide Optimal, HuffmanSizes, Fib, LiveCount;
    WithPseudo(freq);
    var w0 := freq[256 := 1];
    SamePrefixTotal(freq, w0, 256);
    var t := SizesAreOptimal(w0);
    var cs := HuffmanSizes(w0);
    OptimalSizes(w0, cs, t);
    forall i | 0 <= i < ALPHABET
      ensures cs[i] <= 32
    {
      ShortWhenFew(w0, cs, t, i);
    }
  }

  lemma {:induction false} SamePrefixTotal(a: seq<nat>, b: seq<nat>, n: nat)
    requires n <= |a| && n <= |b| && forall i :: 0 <= i < n ==> a[i] == b[i]
    ensures Total(a, n) == Total(b, n)
  {
    if n > 0 {
      SamePrefixTotal(a, b, n - 1);
    }
  }

  method CopyCounts(c: seq<nat>, freq: array<nat>)
    requires |c| == freq.Length
    modifies freq
    ensures freq[..] == c
  {
    var i := 0;
    while i < |c|
      invariant i <= |c| && freq[..i] == c[..i]
    {
      freq[i] := c[i];
      i := i + 1;
    }
  }

  lemma StillThere(c0: Statistics, c: Statistics, t: TableId, used: seq<int>, before: seq<Option<Table>>, after: seq<Option<Table>>)
    requires 0 <= t.no < NUM_HUFF_TBLS && t in c0 && t.no !in used && Optimized(c0, c, t.isAC, used, before, after)
    ensures t in c && c[t] == c0[t]
  {
    hide MadeFrom, TooDeep;
    assert t == TableId(t.isAC, t.no);
  }

  lemma NowOptimized(c0: Statistics, c: Statistics, c': Statistics, t: TableId, used: seq<int>, before: seq<Option<Table>>,
                            after: seq<Option<Table>>, tbl: Table)
    requires 0 <= t.no < NUM_HUFF_TBLS && t in c0 && Optimized(c0, c, t.isAC, used, before, after) && MadeFrom(c0[t], tbl) && !TooDeep(c0[t])
    requires t in c' && c' == c[t := c'[t]]
    ensures Optimized(c0, c', t.isAC, used + [t.no], before, after[t.no := Some(tbl)])
  {
    hide MadeFrom, TooDeep;
    assert t == TableId(t.isAC, t.no);
  }

  lemma AgainOptimized(c0: Statistics, c: Statistics, t: TableId, used: seq<int>, before: seq<Option<Table>>, after: seq<Option<Table>>)
    requires t.no in used && Optimized(c0, c, t.isAC, used, before, after)
    ensures Optimized(c0, c, t.isAC, used + [t.no], before, after)
  {
    hide MadeFrom, TooDeep;
  }

  lemma OtherClass(c0: Statistics, c: Statistics, c': Statistics, isAC: bool, used: seq<int>, before: seq<Option<Table>>, after: seq<Option<Table>>)
    requires Optimized(c0, c, isAC, used, before, after) && c.Keys == c'.Keys
    requires forall u :: u in c' && u.isAC == isAC ==> c'[u] == c[u]
    ensures Optimized(c0, c', isAC, used, before, after)
  {
    hide MadeFrom, TooDeep;
  }

  class Gatherer {
    var scan: Scan
    var counts: Statistics
    var lastDc: seq<int>
    var restartsToGo: nat
    ghost var seen: seq<Mcu>          // the MCUs counted in this pass
    ghost var zero: Statistics        // the count tables when the pass began

    constructor (scan: Scan)
      requires scan.Wf() && scan.kind.Sequential?
      ensures this.scan == scan && counts == map[]
    {
      this.scan, counts, lastDc, restartsToGo, seen, zero := scan, map[], [], 0, [], map[];
    }

    /** In a statistics pass. */
    ghost predicate Gathering()
      reads this
    {
      && scan.kind.Sequential? && CountsOk(zero) && CountersFor(scan, zero, |scan.dcTbl|)
      && GatherOk(scan, zero, seen, Coder(lastDc, NONE_PENDING), restartsToGo, counts)
    }

    /** Zeroed count tables exist for the components of the scan below n. */
    static ghost predicate CountersFor(scan: Scan, c: Statistics, n: nat) {
      && n <= |scan.dcTbl| == |scan.acTbl|
      && forall ci :: 0 <= ci < n ==>
           scan.DcId(ci) in c && c[scan.DcId(ci)] == NoCounts() && scan.AcId(ci) in c && c[scan.AcId(ci)] == NoCounts()
    }

    static ghost predicate IndexesOk(scan: Scan, n: nat)
      requires n <= |scan.dcTbl| == |scan.acTbl|
    {
      forall ci :: 0 <= ci < n ==> 0 <= scan.dcTbl[ci] < 4 && 0 <= scan.acTbl[ci] < 4
    }

    /** start_pass_huff for a statistics pass. */
    method StartGatherPass() returns (r: StartResult)
      requires scan.Wf() && scan.kind.Sequential? && CountsOk(counts)
      modifies this
      ensures scan == old(scan)
      ensures r.Started? <==> IndexesOk(scan, |scan.dcTbl|)
      ensures r.Started? ==> Gathering() && seen == []
      ensures r.Rejected? ==> r.error == NoHuffTable
    {
      hide GatherOk, NoCounts, FreshCoder;
      var ci := 0;
      var c := counts;
      while ci < |scan.dcTbl|
        invariant ci <= |scan.dcTbl| == |scan.acTbl|
        invariant scan == old(scan) && CountsOk(c) && CountersFor(scan, c, ci) && IndexesOk(scan, ci)
      {
        var dctbl, actbl := scan.dcTbl[ci], scan.acTbl[ci];
        if dctbl < 0 || dctbl >= NUM_HUFF_TBLS || actbl < 0 || actbl >= NUM_HUFF_TBLS {
          return Rejected(NoHuffTable);
        }
        MoreCounters(scan, c, ci);
        c := c[scan.DcId(ci) := NoCounts()][scan.AcId(ci) := NoCounts()];
        ci := ci + 1;
      }
      counts, zero, seen := c, c, [];
      lastDc, restartsToGo := ZeroPredictions(scan), scan.restart;
      StartFields(scan, []);
      GatherStarts(scan, c);
      return Started;
    }

    static lemma MoreCounters(scan: Scan, c: Statistics, ci: nat)
      requires ci < |scan.dcTbl| == |scan.acTbl| && CountsOk(c) && CountersFor(scan, c, ci)
      ensures CountsOk(c[scan.DcId(ci) := NoCounts()][scan.AcId(ci) := NoCounts()])
      ensures CountersFor(scan, c[scan.DcId(ci) := NoCounts()][scan.AcId(ci) := NoCounts()], ci + 1)
    {
      assert |NoCounts()| == COUNT_ENTRIES;
    }

    /** count_ptrs[t][sym]++ */
    method CountSymbol(t: TableId, sym: byte, ghost c0: Statistics, ghost done: seq<Op>)
      requires Tallied(c0, counts, done) && t in c0
      modifies this`counts
      ensures Tallied(c0, counts, done + [Sym(t, sym)])
    {
      hide Tally, CountsOk;
      TalliedSym(c0, counts, done, t, sym);
      counts := counts[t := counts[t][sym := counts[t][sym] + 1]];
    }

    /** The DC part of htest_one_block. */
    method TestDcDifference(t: TableId, diff: int, ghost c0: Statistics, ghost done: seq<Op>) returns (ok: bool)
      requires Tallied(c0, counts, done) && t in c0
      modifies this`counts
      ensures ok <==> InRange(DcOps(t, diff))
      ensures ok ==> Tallied(c0, counts, done + DcOps(t, diff))
    {
      hide Tallied, BitLength;
      var temp := diff;
      if temp < 0 {
        temp := -temp;
      }
      var nbits := CountBits(temp);
      DcTally(t, diff);
      if nbits > MAX_COEF_BITS + 1 {
        return false;
      }
      CountSymbol(t, nbits, c0, done);
      ghost var raw := if nbits > 0 then [Raw(Appended(diff), nbits)] else [];
      TalliedRaw(c0, counts, done + [Sym(t, nbits)], raw);
      assert done + [Sym(t, nbits)] + raw == done + ([Sym(t, nbits)] + raw);
      return true;
    }

    static lemma DcTally(t: TableId, diff: int)
      ensures InRange(DcOps(t, diff)) <==> BitLength(Abs(diff)) <= MAX_COEF_BITS + 1
    {
      hide BitLength;
      if BitLength(Abs(diff)) > MAX_COEF_BITS + 1 {
        assert DcOps(t, diff)[0] == OutOfRange;
      }
    }

    /** A run of zeros and the nonzero coefficient x after it, counted. */
    method TestNonzero(t: TableId, x: int, zeros: nat, ghost c0: Statistics, ghost done: seq<Op>) returns (ok: bool)
      requires Tallied(c0, counts, done) && t in c0 && x != 0
      modifies this`counts
      ensures ok <==> InRange(NewOps(t, zeros % 16, x, []))
      ensures ok ==> Tallied(c0, counts, done + ZrlOps(t, zeros, []) + NewOps(t, zeros % 16, x, []))
    {
      hide Tallied, BitLength, ZrlOps, NewOps;
      var r: nat := zeros;
      ghost var now := done;
      while r > 15
        invariant r % 16 == zeros % 16
        invariant Tallied(c0, counts, now)
        invariant done + ZrlOps(t, zeros, []) == now + ZrlOps(t, r, [])
      {
        ZrlAgain(t, r);
        assert now + ([Sym(t, 0xF0)] + ZrlOps(t, r - 16, [])) == now + [Sym(t, 0xF0)] + ZrlOps(t, r - 16, []);
        CountSymbol(t, 0xF0, c0, now);
        now := now + [Sym(t, 0xF0)];
        r := r - 16;
      }
      ZrlAgain(t, r);
      assert now + [] == now;
      var temp := x;
      if temp < 0 {
        temp := -temp;
      }
      var nbits := CountBits(temp);
      NewTally(t, r, x);
      if nbits > MAX_COEF_BITS {
        return false;
      }
      CountSymbol(t, 16 * r + nbits, c0, now);
      ghost var raw := [Raw(Appended(x), nbits)];
      TalliedRaw(c0, counts, now + [Sym(t, 16 * r + nbits)], raw);
      assert now + [Sym(t, 16 * r + nbits)] + raw == now + [Sym(t, 16 * r + nbits), Raw(Appended(x), nbits)];
      return true;
    }

    static lemma NewTally(t: TableId, r: nat, x: int)
      requires x != 0 && r < 16
      ensures var n := BitLength(Abs(x));
              && (InRange(NewOps(t, r, x, [])) <==> n <= MAX_COEF_BITS)
              && n > 0 && (n <= MAX_COEF_BITS ==> NewOps(t, r, x, []) == [Sym(t, 16 * r + n), Raw(Appended(x), n)])
    {
      hide BitLength;
      NonzeroShape(t, x, r);
      if BitLength(Abs(x)) > MAX_COEF_BITS {
        assert NewOps(t, r, x, [])[0] == OutOfRange;
      }
    }

    /** htest_one_block. */
    method HtestOneBlock(block: Block, lastDcVal: int, t: TableId, u: TableId, ghost c0: Statistics, ghost done: seq<Op>)
      returns (ok: bool)
      requires Tallied(c0, counts, done) && t in c0 && u in c0
      modifies this`counts
      ensures ok <==> InRange(DcOps(t, block[0] - lastDcVal) + SequentialAcOps(u, Zigzag(block)))
      ensures ok ==> Tallied(c0, counts, done + (DcOps(t, block[0] - lastDcVal) + SequentialAcOps(u, Zigzag(block))))
    {
      hide Tallied, DcOps, SequentialAcOps, Zigzag, InRange;
      ghost var dc, ac := DcOps(t, block[0] - lastDcVal), SequentialAcOps(u, Zigzag(block));
      InRangeConcat(dc, ac);
      ok := TestDcDifference(t, block[0] - lastDcVal, c0, done);
      if ok {
        ok := TestAc(block, u, c0, done + dc);
        assert done + dc + ac == done + (dc + ac);
      }
    }

    /** The AC loop of htest_one_block. */
    method TestAc(block: Block, t: TableId, ghost c0: Statistics, ghost done: seq<Op>) returns (ok: bool)
      requires Tallied(c0, counts, done) && t in c0
      modifies this`counts
      ensures ok <==> InRange(SequentialAcOps(t, Zigzag(block)))
      ensures ok ==> Tallied(c0, counts, done + SequentialAcOps(t, Zigzag(block)))
    {
      hide Tallied, AcProgress, NaturalOrder, Band, NewOps, ZrlOps, SymOps, End, ItemsOf, SequentialAcOps, Zigzag, InRange;
      ghost var its, sym, tail := AcParts(t, Zigzag(block), [], []);
      ghost var now := [];
      var r, k := 0, 1;
      assert done + [] == done;
      NothingOut();
      while k < DCTSIZE2
        invariant AcProgress(t, its, k, r, now, sym) && Tallied(c0, counts, done + now) && 1 <= k <= DCTSIZE2 && InRange(now)
      {
        var temp := block[NaturalOrder(k)];
        ItemAt(block, k);
        if temp == 0 {
          AcZero(t, its, k, r, now, sym);
          r := r + 1;
        } else {
          AcNew(t, its, k, r, now, sym);
          ghost var zrl, new_ := ZrlOps(t, r, []), NewOps(t, r % 16, temp, []);
          ghost var more := SymOps(t, its, k + 1, End(its, 1, DCTSIZE2), 0, []);
          TestSplit(done, now, zrl, new_, more, tail, sym);
          ZrlInRange(t, r);
          ok := TestNonzero(t, temp, r, c0, done + now);
          if !ok {
            return;
          }
          now := now + zrl + new_;
          r := 0;
        }
        k := k + 1;
      }
      AcEnd(t, its, r, now, sym);
      InRangeConcat(sym, tail);
      OneInRange(t, 0);
      if r > 0 {
        CountSymbol(t, 0, c0, done + sym);
        assert done + sym + tail == done + (sym + tail);
      } else {
        assert sym + tail == sym;
      }
      ok := true;
    }

    static lemma NothingOut()
      ensures InRange([])
    {}

    static lemma OneInRange(t: TableId, s: byte)
      ensures InRange([Sym(t, s)]) && InRange([])
    {}

    static lemma {:induction false} ZrlInRange(t: TableId, r: nat)
      ensures InRange(ZrlOps(t, r, []))
      decreases r
    {
      hide ZrlOps;
      ZrlAgain(t, r);
      if r > 15 {
        ZrlInRange(t, r - 16);
        InRangeConcat([Sym(t, 0xF0)], ZrlOps(t, r - 16, []));
      }
    }

    /** The parts of the AC operations around one coefficient, for counting. */
    static lemma TestSplit(done: seq<Op>, now: seq<Op>, a: seq<Op>, b: seq<Op>, c: seq<Op>, tail: seq<Op>, sym: seq<Op>)
      requires sym == now + (a + (b + c)) && InRange(now)
      ensures done + now + a + b == done + (now + a + b)
      ensures InRange(a) ==> (InRange(b) <==> InRange(now + a + b))
      ensures !InRange(b) ==> !InRange(sym + tail)
    {
      hide InRange;
      InRangeConcat(now + a, b);
      InRangeConcat(now, a);
      assert sym + tail == (now + a + b) + (c + tail);
      InRangeConcat(now + a + b, c + tail);
    }

    /** encode_mcu_gather: nothing is output, so it never suspends. */
    method EncodeMcuGather(data: seq<Block>) returns (s: Status)
      requires Gathering() && |data| == |scan.membership|
      modifies this
      ensures CoderOk(old(scan), Coder(old(lastDc), NONE_PENDING))
      ensures s.Done? <==> InRange(StepOps(old(scan), Coder(old(lastDc), NONE_PENDING), old(restartsToGo), ZigzagMcu(data)))
      ensures s.Done? ==> Gathering() && seen == old(seen) + [ZigzagMcu(data)]
      ensures !s.Done? ==> s == Fatal(BadDctCoef)
      ensures scan == old(scan) && zero == old(zero)
    {
      hide GatherOk, CountersFor, CountsOk, StepOps, StepCoder, BlocksOps, FreshCoder, Tallied, InRange;
      ghost var mcu, c := ZigzagMcu(data), Coder(lastDc, NONE_PENDING);
      GatherHas(scan, zero, seen, c, restartsToGo, counts);
      ghost var first, now, ops := GatherStep(scan, c, restartsToGo, mcu);
      if scan.restart != 0 {
        if restartsToGo == 0 {
          lastDc := ZeroPredictions(scan);
          restartsToGo := scan.restart;
        }
        restartsToGo := restartsToGo - 1;
      }
      TalliedStart(counts);
      var ok := TestBlocks(data, counts, zero, first);
      if !ok {
        return Fatal(BadDctCoef);
      }
      TalliedIs(old(counts), counts, ops);
      GatherGrows(scan, zero, seen, c, old(restartsToGo), old(counts), mcu);
      seen := seen + [mcu];
      return Done;
    }

    /** Where the statistics pass goes with one MCU: predictions to start from, then the blocks. */
    static lemma GatherStep(scan: Scan, c: Coder, togo: nat, mcu: Mcu) returns (first: seq<int>, last: seq<int>, ops: seq<Op>)
      requires scan.Wf() && scan.kind.Sequential? && CoderOk(scan, c) && McuFits(scan, mcu)
      ensures first == (if scan.restart != 0 && togo == 0 then FreshCoder(scan).lastDc else c.lastDc)
      ensures |first| == |scan.dcTbl| && (ops, last) == BlocksOps(scan, mcu, 0, first)
      ensures ops == StepOps(scan, c, togo, mcu)
      ensures StepCoder(scan, c, togo, mcu) == Coder(last, NONE_PENDING)
      ensures StepTogo(scan, togo) == NextTogo(scan.restart, togo)
    {
      hide BlocksOps, FreshCoder;
      FreshOk(scan);
      StartFields(scan, []);
      first := if scan.restart != 0 && togo == 0 then FreshCoder(scan).lastDc else c.lastDc;
      ops, last := BlocksOps(scan, mcu, 0, first).0, BlocksOps(scan, mcu, 0, first).1;
      assert [] + ops == ops;
    }

    static lemma GatherHas(scan: Scan, zero: Statistics, seen: seq<Mcu>, c: Coder, togo: nat, counts: Statistics)
      requires GatherOk(scan, zero, seen, c, togo, counts) && CountsOk(zero)
      ensures scan.Wf() && CoderOk(scan, c) && CountsOk(counts) && counts.Keys == zero.Keys
    {
      TallyOk(zero, OpsSoFar(scan, seen));
    }

    static lemma TalliedIs(c0: Statistics, c: Statistics, ops: seq<Op>)
      requires Tallied(c0, c, ops)
      ensures c == Tally(c0, ops) && InRange(ops)
    {}

    /** The blocks of one MCU, counted. */
    method TestBlocks(data: seq<Block>, ghost c0: Statistics, ghost z: Statistics, ghost first: seq<int>) returns (ok: bool)
      requires scan.Wf() && scan.kind.Sequential? && |data| == |scan.membership| && first == lastDc
      requires |first| == |scan.dcTbl| && c0.Keys == z.Keys && CountersFor(scan, z, |scan.dcTbl|)
      requires Tallied(c0, counts, [])
      modifies this`counts, this`lastDc
      ensures ok <==> InRange(BlocksOps(scan, ZigzagMcu(data), 0, first).0)
      ensures ok ==> Tallied(c0, counts, BlocksOps(scan, ZigzagMcu(data), 0, first).0)
      ensures ok ==> lastDc == BlocksOps(scan, ZigzagMcu(data), 0, first).1
    {
      hide Tallied, InRange, BlocksOps, DcOps, SequentialAcOps, Zigzag, NoCounts;
      ghost var mcu, done := ZigzagMcu(data), [];
      ghost var ops := BlocksOps(scan, mcu, 0, first).0;
      var blkn := 0;
      assert [] + ops == ops;
      while blkn < |data|
        invariant blkn <= |data| && |lastDc| == |scan.dcTbl|
        invariant Tallied(c0, counts, done) && ops == done + BlocksOps(scan, mcu, blkn, lastDc).0
        invariant BlocksOps(scan, mcu, blkn, lastDc).1 == BlocksOps(scan, mcu, 0, first).1
      {
        var ci := scan.membership[blkn];
        BlocksStep(scan, mcu, blkn, lastDc);
        ZigzagKeepsDc(data[blkn]);
        ghost var now := DcOps(scan.DcId(ci), data[blkn][0] - lastDc[ci]) + SequentialAcOps(scan.AcId(ci), Zigzag(data[blkn]));
        ghost var more := BlocksOps(scan, mcu, blkn + 1, lastDc[ci := data[blkn][0]]).0;
        AssocOps(done, now, more);
        InRangeConcat(done + now, more);
        InRangeConcat(done, now);
        ok := HtestOneBlock(data[blkn], lastDc[ci], scan.DcId(ci), scan.AcId(ci), c0, done);
        if !ok {
          return;
        }
        lastDc := lastDc[ci := data[blkn][0]];
        done := done + now;
        blkn := blkn + 1;
      }
      BlocksOver(scan, mcu, lastDc);
      assert done + [] == done;
      TalliedIs(c0, counts, done);
      ok := true;
    }

    /** Component ci's counts make a code that is too deep. */
    static ghost predicate DeepAt(scan: Scan, c: Statistics, ci: nat)
      requires ci < |scan.dcTbl| == |scan.acTbl|
    {
      (scan.DcId(ci) in c && TooDeep(c[scan.DcId(ci)])) || (scan.AcId(ci) in c && TooDeep(c[scan.AcId(ci)]))
    }

    /** finish_pass_gather: one optimal table for each table number the scan uses. */
    method FinishPassGather(dcTables: seq<Option<Table>>, acTables: seq<Option<Table>>) returns (r: FinishResult)
      requires |scan.dcTbl| == |scan.acTbl| && |dcTables| == |acTables| == NUM_HUFF_TBLS && IndexesOk(scan, |scan.dcTbl|)
      requires forall ci :: 0 <= ci < |scan.dcTbl| ==>
                 (scan.DcId(ci) in counts && CanOptimize(counts[scan.DcId(ci)]) && scan.AcId(ci) in counts && CanOptimize(counts[scan.AcId(ci)]))
      modifies this`counts
      ensures r.Finished? ==> Optimized(old(counts), counts, false, scan.dcTbl, dcTables, r.dc)
      ensures r.Finished? ==> Optimized(old(counts), counts, true, scan.acTbl, acTables, r.ac)
      ensures r.Overflow? <==> exists ci :: 0 <= ci < |scan.dcTbl| && DeepAt(scan, old(counts), ci)
    {
      hide CanOptimize, Optimized, TooDeep, DoneSoFar;
      var didDc, didAc := seq(NUM_HUFF_TBLS, _ => false), seq(NUM_HUFF_TBLS, _ => false);
      var dc, ac, ok := dcTables, acTables, true;
      ghost var c0 := counts;
      NothingOptimized(c0, dcTables, acTables, didDc);
      var ci := 0;
      while ci < |scan.dcTbl|
        invariant ci <= |scan.dcTbl| == |scan.acTbl|
        invariant forall i :: 0 <= i < ci ==> !DeepAt(scan, c0, i)
        invariant Optimized(c0, counts, false, scan.dcTbl[..ci], dcTables, dc) && DoneSoFar(didDc, scan.dcTbl[..ci])
        invariant Optimized(c0, counts, true, scan.acTbl[..ci], acTables, ac) && DoneSoFar(didAc, scan.acTbl[..ci])
      {
        assert scan.dcTbl[..ci + 1] == scan.dcTbl[..ci] + [scan.dcTbl[ci]];
        assert scan.acTbl[..ci + 1] == scan.acTbl[..ci] + [scan.acTbl[ci]];
        ghost var c1 := counts;
        ok, counts, dc, didDc := OptimizeOnce(counts, scan.DcId(ci), dc, didDc, c0, scan.dcTbl[..ci], dcTables);
        if !ok {
          assert DeepAt(scan, c0, ci);
          return Overflow;
        }
        OtherClass(c0, c1, counts, true, scan.acTbl[..ci], acTables, ac);
        ghost var c2 := counts;
        ok, counts, ac, didAc := OptimizeOnce(counts, scan.AcId(ci), ac, didAc, c0, scan.acTbl[..ci], acTables);
        if !ok {
          assert DeepAt(scan, c0, ci);
          return Overflow;
        }
        OtherClass(c0, c2, counts, false, scan.dcTbl[..ci + 1], dcTables, dc);
        ci := ci + 1;
      }
      assert scan.dcTbl[..ci] == scan.dcTbl && scan.acTbl[..ci] == scan.acTbl;
      return Finished(dc, ac);
    }

    static lemma NothingOptimized(c0: Statistics, dc: seq<Option<Table>>, ac: seq<Option<Table>>, did: seq<bool>)
      requires |dc| == |ac| == NUM_HUFF_TBLS && did == seq(NUM_HUFF_TBLS, _ => false)
      ensures Optimized(c0, c0, false, [], dc, dc) && Optimized(c0, c0, true, [], ac, ac) && DoneSoFar(did, [])
    {}
  }
}
