/** One pass of an entropy coder over the MCUs of a scan: what its saved state stands for,
    MCU after MCU, in an output pass and in a statistics pass. */
module EncodingPass {
  import opened Bits
  import opened ByteStuffing
  import opened BitWriter
  import opened HuffmanTable
  import opened Coefficients
  import opened EntropyOps
  import opened EobRuns
  import opened ScanCoding
  import opened RestartCoding
  import opened OpWriter
  import opened SymbolCounts

  /** The state s is what encoding the MCUs `seen` after the bytes `start` leads to; all they needed had codes. */
  ghost predicate PassOk(scan: Scan, book: Codebook, start: seq<byte>, seen: seq<Mcu>, s: ScanState) {
    && scan.Wf() && McusFit(scan, seen)
    && StateOk(scan, StartState(scan, start)) && StateOk(scan, s)
    && s == EncodeAll(scan, book, StartState(scan, start), seen) && Emittable(OpsSoFar(scan, seen), book)
  }

  lemma PassStarts(scan: Scan, book: Codebook, start: seq<byte>)
    requires scan.Wf()
    ensures PassOk(scan, book, start, [], StartState(scan, start))
  {
    StartOk(scan, start);
  }

  lemma PassGrows(scan: Scan, book: Codebook, start: seq<byte>, seen: seq<Mcu>, s: ScanState, mcu: Mcu)
    requires PassOk(scan, book, start, seen, s) && McuFits(scan, mcu) && CoderOk(scan, s.coder)
    requires Emittable(StepOps(scan, s.coder, s.togo, mcu), book)
    ensures PassOk(scan, book, start, seen + [mcu], EncodeStep(scan, book, s, mcu))
  {
    hide EncodeStep, StateOk, StepOps, Emittable, CoderOk;
    assert (seen + [mcu])[..|seen + [mcu]| - 1] == seen;
    PassIsState(scan, book, start, seen);
    OpsBitsConcat(OpsSoFar(scan, seen), StepOps(scan, s.coder, s.togo, mcu), book);
  }

  /** An MCU that needs a code that does not exist is one that no pass over these MCUs gets past. */
  lemma PassStuck(scan: Scan, book: Codebook, start: seq<byte>, seen: seq<Mcu>, s: ScanState, mcu: Mcu)
    requires PassOk(scan, book, start, seen, s) && McuFits(scan, mcu) && CoderOk(scan, s.coder)
    requires !Emittable(StepOps(scan, s.coder, s.togo, mcu), book)
    ensures McusFit(scan, seen + [mcu]) && !Emittable(OpsSoFar(scan, seen + [mcu]), book)
  {
    hide StateOk, StepOps, Emittable, CoderOk;
    assert (seen + [mcu])[..|seen + [mcu]| - 1] == seen;
    PassIsState(scan, book, start, seen);
    OpsBitsConcat(OpsSoFar(scan, seen), StepOps(scan, s.coder, s.togo, mcu), book);
  }

  /** A scan that begins with such MCUs cannot be encoded. */
  lemma StuckScan(scan: Scan, book: Codebook, begun: seq<Mcu>, mcus: seq<Mcu>)
    requires scan.Wf() && McusFit(scan, begun) && McusFit(scan, mcus) && begun <= mcus && !Emittable(OpsSoFar(scan, begun), book)
    ensures !Emittable(ScanOps(scan, mcus), book)
  {
    hide OpsSoFar, Emittable, ScanOps, RestOps, CoderOk;
    OpsSplit(scan, mcus, |begun|);
    assert mcus[..|begun|] == begun;
    var p := PassAfter(scan, begun);
    OpsBitsConcat(OpsSoFar(scan, begun), RestOps(scan, p.coder, p.togo, mcus[|begun|..]), book);
  }

  /** The stream after an MCU is never shorter than before it. */
  function BytesOf(s: ScanState): seq<byte> {
    s.base + PackBytes(s.bits)
  }

  /** The pass is over: the stream is what was there before followed by the scan's bytes. */
  lemma PassEnds(scan: Scan, book: Codebook, start: seq<byte>, seen: seq<Mcu>, s: ScanState)
    requires PassOk(scan, book, start, seen, s)
    ensures StateOk(scan, s) && Closed(scan, book, s) == start + ScanBytes(scan, book, seen)
    ensures CoderOk(scan, s.coder) && (Emittable(ScanOps(scan, seen), book) <==> Emittable(EndOps(scan, s.coder), book))
  {
    hide EncodeAll, Closed, StateOk, EndOps, OpsSoFar, Emittable, CoderOk, FreshCoder;
    BytesAppend(scan, book, start, seen);
    PassIsState(scan, book, start, seen);
    OpsSplit(scan, seen, |seen|);
    assert seen[..|seen|] == seen && seen[|seen|..] == [];
    OpsBitsConcat(OpsSoFar(scan, seen), EndOps(scan, s.coder), book);
  }

  /** MCUs left before the next restart, and the next marker's number, after one more MCU. */
  function NextTogo(restart: nat, togo: nat): nat {
    if restart == 0 then togo else if togo == 0 then restart - 1 else togo - 1
  }

  function NextNum(restart: nat, togo: nat, num: RestartNum): RestartNum {
    if restart != 0 && togo == 0 then (num + 1) % 8 else num
  }

  // ----- scans that are not AC scans -----

  /** One MCU in a scan without EOB runs: where writing starts, and the state after. */
  lemma PlainStep(scan: Scan, book: Codebook, s: ScanState, mcu: Mcu)
    requires StateOk(scan, s) && !scan.IsAC() && McuFits(scan, mcu)
    ensures var r, s' := AfterRestart(scan, book, s), EncodeStep(scan, book, s, mcu);
            var due := scan.restart != 0 && s.togo == 0;
            && StateOk(scan, r) && StateOk(scan, s') && CoderOk(scan, r.coder)
            && (due ==> r.base == s.base + PackBytes(Pad(s.bits)) + RestartMarker(s.num) && r.bits == [] && r.coder == FreshCoder(scan))
            && (!due ==> r == s)
            && StepOps(scan, s.coder, s.togo, mcu) == McuOps(scan, mcu, r.coder) == BlocksOps(scan, mcu, 0, r.coder.lastDc).0
            && s'.base == r.base && s'.bits == r.bits + OpsBits(McuOps(scan, mcu, r.coder), book)
            && s'.coder == Coder(BlocksOps(scan, mcu, 0, r.coder.lastDc).1, NONE_PENDING)
            && s'.togo == NextTogo(scan.restart, s.togo) && s'.num == NextNum(scan.restart, s.togo, s.num)
  {
    hide PackBytes, Pad, OpsBits, BlocksOps, FreshCoder;
    FreshOk(scan);
    assert EndOps(scan, s.coder) == [];
    NoOpBits(book);
    assert s.bits + [] == s.bits;
    assert [] + McuOps(scan, mcu, FreshCoder(scan)) == McuOps(scan, mcu, FreshCoder(scan));
  }

  // ----- the statistics pass -----

  /** The count tables of a scan: one for each table number it uses. */
  ghost predicate GatherOk(scan: Scan, zero: Statistics, seen: seq<Mcu>, c: Coder, togo: nat, counts: Statistics) {
    && scan.Wf() && McusFit(scan, seen)
    && PassAfter(scan, seen) == Pass(c, togo)
    && counts == Tally(zero, OpsSoFar(scan, seen)) && InRange(OpsSoFar(scan, seen))
  }

  lemma GatherStarts(scan: Scan, zero: Statistics)
    requires scan.Wf()
    ensures GatherOk(scan, zero, [], FreshCoder(scan), scan.restart, zero)
  {}

  lemma GatherGrows(scan: Scan, zero: Statistics, seen: seq<Mcu>, c: Coder, togo: nat, counts: Statistics, mcu: Mcu)
    requires GatherOk(scan, zero, seen, c, togo, counts) && McuFits(scan, mcu) && CoderOk(scan, c)
    requires InRange(StepOps(scan, c, togo, mcu))
    ensures GatherOk(scan, zero, seen + [mcu], StepCoder(scan, c, togo, mcu), StepTogo(scan, togo),
                     Tally(counts, StepOps(scan, c, togo, mcu)))
  {
    hide StepCoder, StepOps, CoderOk, Tally, InRange;
    assert (seen + [mcu])[..|seen + [mcu]| - 1] == seen;
    TallyConcat(zero, OpsSoFar(scan, seen), StepOps(scan, c, togo, mcu));
    InRangeConcat(OpsSoFar(scan, seen), StepOps(scan, c, togo, mcu));
  }
}
