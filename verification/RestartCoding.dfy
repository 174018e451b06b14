/** A whole scan's entropy-coded data: restart intervals, padding, stuffing and RSTn markers,
    the fold that the encoders perform, and reading the scan back from its bytes. */
module RestartCoding {
  import opened Bits
  import opened ByteStuffing
  import opened HuffmanTable
  import opened Coefficients
  import opened EntropyOps
  import opened BandCoding
  import opened EobRuns
  import opened ScanCoding
  import opened IntervalRoundTrip

  const RST0 := 0xD0

  type RestartNum = n: nat | n < 8

  function RestartMarker(num: RestartNum): seq<byte> {
    [0xFF, RST0 + num]
  }

  /** What an encoder has done so far: all bytes before the current interval, the bits of the
      current interval, the coder's state, MCUs left in the interval, next marker number. */
  datatype ScanState = ScanState(base: seq<byte>, bits: seq<bool>, coder: Coder, togo: nat, num: RestartNum)

  ghost predicate StateOk(scan: Scan, s: ScanState) {
    scan.Wf() && CoderOk(scan, s.coder) && s.togo <= scan.restart
  }

  function StartState(scan: Scan, base: seq<byte>): ScanState {
    ScanState(base, [], FreshCoder(scan), scan.restart, 0)
  }

  lemma StartOk(scan: Scan, base: seq<byte>)
    requires scan.Wf()
    ensures StateOk(scan, StartState(scan, base))
  {}

  predicate RestartDue(scan: Scan, s: ScanState) {
    scan.restart > 0 && s.togo == 0
  }

  /** The bytes of an interval once it is complete. */
  function Closed(scan: Scan, book: Codebook, s: ScanState): seq<byte>
    requires StateOk(scan, s)
  {
    s.base + PackBytes(Pad(s.bits + OpsBits(EndOps(scan, s.coder), book)))
  }

  /** emit_restart, when it is due: flush, pad, marker, fresh predictions. */
  function AfterRestart(scan: Scan, book: Codebook, s: ScanState): (s': ScanState)
    requires StateOk(scan, s)
    ensures StateOk(scan, s')
  {
    if RestartDue(scan, s) then
      ScanState(Closed(scan, book, s) + RestartMarker(s.num), [], FreshCoder(scan), scan.restart, (s.num + 1) % 8)
    else s
  }

  /** encode_mcu, restart handling included. */
  function EncodeStep(scan: Scan, book: Codebook, s: ScanState, mcu: Mcu): (s': ScanState)
    requires StateOk(scan, s) && McuFits(scan, mcu)
    ensures StateOk(scan, s')
  {
    var r := AfterRestart(scan, book, s);
    ScanState(r.base, r.bits + OpsBits(McuOps(scan, mcu, r.coder), book), NextCoder(scan, mcu, r.coder),
              if scan.restart > 0 then r.togo - 1 else r.togo, r.num)
  }

  function EncodeAll(scan: Scan, book: Codebook, s: ScanState, mcus: seq<Mcu>): (s': ScanState)
    requires StateOk(scan, s) && McusFit(scan, mcus)
    ensures StateOk(scan, s')
    decreases |mcus|
  {
    if mcus == [] then s
    else EncodeStep(scan, book, EncodeAll(scan, book, s, mcus[..|mcus| - 1]), mcus[|mcus| - 1])
  }

  /** The bytes of a complete scan, from any state. */
  function FinalBytes(scan: Scan, book: Codebook, s: ScanState, mcus: seq<Mcu>): seq<byte>
    requires StateOk(scan, s) && McusFit(scan, mcus)
    decreases |mcus|
  {
    if mcus == [] then Closed(scan, book, s)
    else FinalBytes(scan, book, EncodeStep(scan, book, s, mcus[0]), mcus[1..])
  }

  /** The operations of one encode_mcu call, the flush of a due restart included. */
  function StepOps(scan: Scan, c: Coder, togo: nat, mcu: Mcu): seq<Op>
    requires scan.Wf() && CoderOk(scan, c) && McuFits(scan, mcu)
  {
    if scan.restart > 0 && togo == 0 then EndOps(scan, c) + McuOps(scan, mcu, FreshCoder(scan))
    else McuOps(scan, mcu, c)
  }

  function StepCoder(scan: Scan, c: Coder, togo: nat, mcu: Mcu): (c': Coder)
    requires scan.Wf() && CoderOk(scan, c) && McuFits(scan, mcu)
    ensures CoderOk(scan, c')
  {
    NextCoder(scan, mcu, if scan.restart > 0 && togo == 0 then FreshCoder(scan) else c)
  }

  function StepTogo(scan: Scan, togo: nat): nat {
    if scan.restart > 0 then (if togo == 0 then scan.restart else togo) - 1 else togo
  }

  /** All operations of the rest of a scan. */
  function RestOps(scan: Scan, c: Coder, togo: nat, mcus: seq<Mcu>): seq<Op>
    requires scan.Wf() && CoderOk(scan, c) && McusFit(scan, mcus)
    decreases |mcus|
  {
    if mcus == [] then EndOps(scan, c)
    else
      StepOps(scan, c, togo, mcus[0])
        + RestOps(scan, StepCoder(scan, c, togo, mcus[0]), StepTogo(scan, togo), mcus[1..])
  }

  function ScanOps(scan: Scan, mcus: seq<Mcu>): seq<Op>
    requires scan.Wf() && McusFit(scan, mcus)
  {
    RestOps(scan, FreshCoder(scan), scan.restart, mcus)
  }

  // ----- the fold in closed form: intervals joined by markers -----

  lemma McusTail(scan: Scan, mcus: seq<Mcu>, n: nat)
    requires McusFit(scan, mcus) && n <= |mcus|
    ensures McusFit(scan, mcus[..n]) && McusFit(scan, mcus[n..])
  {}

  /** Does the current interval reach to the end of the scan? */
  predicate LastInterval(scan: Scan, s: ScanState, mcus: seq<Mcu>) {
    scan.restart == 0 || |mcus| <= s.togo
  }

  /** The current interval closes with the scan's last MCU. */
  lemma {:induction false} LastBytes(scan: Scan, book: Codebook, s: ScanState, mcus: seq<Mcu>)
    requires StateOk(scan, s) && McusFit(scan, mcus) && LastInterval(scan, s, mcus)
    ensures FinalBytes(scan, book, s, mcus)
         == s.base + PackBytes(Pad(s.bits + OpsBits(IntervalOps(scan, mcus, s.coder), book)))
    ensures RestOps(scan, s.coder, s.togo, mcus) == IntervalOps(scan, mcus, s.coder)
    decreases |mcus|
  {
    hide PackBytes, Pad, OpsBits, McuOps, NextCoder, EndOps, CoderOk;
    if mcus != [] {
      McusTail(scan, mcus, 1);
      var c' := NextCoder(scan, mcus[0], s.coder);
      var ops, more := McuOps(scan, mcus[0], s.coder), IntervalOps(scan, mcus[1..], c');
      LastBytes(scan, book, EncodeStep(scan, book, s, mcus[0]), mcus[1..]);
      JoinBits(s.bits, ops, more, book);
    }
  }

  lemma JoinBits(bits: seq<bool>, ops: seq<Op>, more: seq<Op>, book: Codebook)
    ensures bits + OpsBits(ops, book) + OpsBits(more, book) == bits + OpsBits(ops + more, book)
  {
    hide OpsBits, Emittable;
    OpsBitsConcat(ops, more, book);
  }

  /** The state at the start of the next interval. */
  function NextInterval(scan: Scan, base: seq<byte>, num: RestartNum): ScanState {
    ScanState(base, [], FreshCoder(scan), scan.restart, num)
  }

  lemma NextIntervalOk(scan: Scan, base: seq<byte>, num: RestartNum)
    requires scan.Wf()
    ensures StateOk(scan, NextInterval(scan, base, num))
  {}

  /** A full interval is followed by its marker and the rest of the scan. */
  lemma {:induction false} FullBytes(scan: Scan, book: Codebook, s: ScanState, mcus: seq<Mcu>)
    requires StateOk(scan, s) && McusFit(scan, mcus) && !LastInterval(scan, s, mcus)
    ensures McusFit(scan, mcus[..s.togo]) && McusFit(scan, mcus[s.togo..])
    ensures var done := s.base + PackBytes(Pad(s.bits + OpsBits(IntervalOps(scan, mcus[..s.togo], s.coder), book)));
            && StateOk(scan, NextInterval(scan, done + RestartMarker(s.num), (s.num + 1) % 8))
            && FinalBytes(scan, book, s, mcus)
            == FinalBytes(scan, book, NextInterval(scan, done + RestartMarker(s.num), (s.num + 1) % 8), mcus[s.togo..])
    ensures CoderOk(scan, FreshCoder(scan)) && RestOps(scan, s.coder, s.togo, mcus)
         == IntervalOps(scan, mcus[..s.togo], s.coder) + RestOps(scan, FreshCoder(scan), scan.restart, mcus[s.togo..])
    decreases |mcus|
  {
    hide PackBytes, Pad, OpsBits, McuOps, NextCoder, EndOps, CoderOk, FreshCoder;
    McusTail(scan, mcus, s.togo);
    FreshOk(scan);
    if s.togo == 0 {
      RestartNow(scan, book, s, mcus);
    } else {
      McusTail(scan, mcus, 1);
      var c' := NextCoder(scan, mcus[0], s.coder);
      var front := mcus[..s.togo];
      assert front[1..] == mcus[1..][..s.togo - 1];
      assert mcus[s.togo..] == mcus[1..][s.togo - 1..];
      FullBytes(scan, book, EncodeStep(scan, book, s, mcus[0]), mcus[1..]);
      JoinBits(s.bits, McuOps(scan, mcus[0], s.coder), IntervalOps(scan, front[1..], c'), book);
      assert McuOps(scan, mcus[0], s.coder) + (IntervalOps(scan, front[1..], c')
               + RestOps(scan, FreshCoder(scan), scan.restart, mcus[s.togo..]))
          == McuOps(scan, mcus[0], s.coder) + IntervalOps(scan, front[1..], c')
               + RestOps(scan, FreshCoder(scan), scan.restart, mcus[s.togo..]);
    }
  }

  lemma FreshOk(scan: Scan)
    requires scan.Wf()
    ensures CoderOk(scan, FreshCoder(scan))
  {}

  lemma RestartNow(scan: Scan, book: Codebook, s: ScanState, mcus: seq<Mcu>)
    requires StateOk(scan, s) && McusFit(scan, mcus) && RestartDue(scan, s) && mcus != []
    ensures McusFit(scan, []) && CoderOk(scan, FreshCoder(scan))
    ensures IntervalOps(scan, [], s.coder) == EndOps(scan, s.coder)
    ensures var next := NextInterval(scan, Closed(scan, book, s) + RestartMarker(s.num), (s.num + 1) % 8);
            StateOk(scan, next) && FinalBytes(scan, book, s, mcus) == FinalBytes(scan, book, next, mcus)
    ensures RestOps(scan, s.coder, 0, mcus) == EndOps(scan, s.coder) + RestOps(scan, FreshCoder(scan), scan.restart, mcus)
  {
    hide PackBytes, Pad, OpsBits, McuOps, NextCoder, EndOps, CoderOk, FreshCoder;
    FreshOk(scan);
    var next := NextInterval(scan, Closed(scan, book, s) + RestartMarker(s.num), (s.num + 1) % 8);
    NextIntervalOk(scan, next.base, next.num);
    assert AfterRestart(scan, book, s) == next == AfterRestart(scan, book, next);
    AssocOps(EndOps(scan, s.coder), McuOps(scan, mcus[0], FreshCoder(scan)),
             RestOps(scan, StepCoder(scan, s.coder, 0, mcus[0]), StepTogo(scan, 0), mcus[1..]));
  }

  lemma AssocOps(a: seq<Op>, b: seq<Op>, c: seq<Op>)
    ensures (a + b) + c == a + (b + c)
  {}

  // ----- reading a scan -----

  datatype ScanResult = ScanFail | ScanDone(mcus: seq<seq<seq<int>>>, tail: seq<byte>)

  /** What may follow the last MCU of an interval: fewer than 8 one-bits. */
  ghost predicate IsPadding(bits: seq<bool>) {
    |bits| < 8 && forall i :: 0 <= i < |bits| ==> bits[i]
  }

  /** Read a scan's bytes: hists is what the decoder holds for each MCU, num the next RSTn expected. */
  ghost function DecodeScan(tabs: Tables, scan: Scan, hists: seq<Mcu>, bytes: seq<byte>, num: RestartNum): ScanResult
    requires scan.Wf() && McusFit(scan, hists)
    decreases |hists|
  {
    var seg := ReadSegment(bytes);
    if scan.restart == 0 || |hists| <= scan.restart then
      match DecodeInterval(tabs, scan, hists, seg.bits, FreshDecoder(scan))
      case IntervalFail => ScanFail
      case IntervalDone(zs, rest) => if IsPadding(rest) then ScanDone(zs, seg.tail) else ScanFail
    else
      match DecodeInterval(tabs, scan, hists[..scan.restart], seg.bits, FreshDecoder(scan))
      case IntervalFail => ScanFail
      case IntervalDone(zs, rest) =>
        if !IsPadding(rest) || !(RestartMarker(num) <= seg.tail) then ScanFail
        else match DecodeScan(tabs, scan, hists[scan.restart..], seg.tail[2..], (num + 1) % 8)
          case ScanFail => ScanFail
          case ScanDone(more, tail) => ScanDone(zs + more, tail)
  }

  lemma PadIsPadding(bits: seq<bool>) returns (fill: seq<bool>)
    ensures Pad(bits) == bits + fill && IsPadding(fill)
  {
    fill := Pad(bits)[|bits|..];
  }

  /** One interval of a scan, read back from its packed bytes. */
  lemma PackedIntervalDecodes(scan: Scan, tabs: Tables, book: Codebook, hists: seq<Mcu>, mcus: seq<Mcu>, tail: seq<byte>)
    returns (fill: seq<bool>)
    requires scan.Wf() && ReadyMcus(scan, hists, mcus) && McusFit(scan, mcus) && McusFit(scan, hists)
    requires Tied(book, tabs) && TablesKnown(scan, tabs) && AtMarker(tail)
    requires CoderOk(scan, FreshCoder(scan)) && Emittable(IntervalOps(scan, mcus, FreshCoder(scan)), book)
    ensures var seg := ReadSegment(PackBytes(Pad(OpsBits(IntervalOps(scan, mcus, FreshCoder(scan)), book))) + tail);
            && seg.tail == tail && IsPadding(fill)
            && DecodeInterval(tabs, scan, hists, seg.bits, FreshDecoder(scan)) == IntervalDone(ExpectedMcus(scan, hists, mcus), fill)
  {
    hide Tied, TablesKnown, OpsBits, Emittable, IntervalOps, DecodeInterval, ReadyMcus, ExpectedMcus, PackBytes, Pad, ReadSegment, IsPadding, CoderOk;
    SameCount(scan, hists, mcus);
    var bits := OpsBits(IntervalOps(scan, mcus, FreshCoder(scan)), book);
    fill := PadIsPadding(bits);
    ReadPacked(Pad(bits), tail);
    IntervalDecodes(scan, tabs, book, hists, mcus, fill);
  }

  lemma ReadySplit(scan: Scan, hists: seq<Mcu>, mcus: seq<Mcu>, n: nat)
    requires ReadyMcus(scan, hists, mcus) && n <= |mcus|
    ensures ReadyMcus(scan, hists[..n], mcus[..n]) && ReadyMcus(scan, hists[n..], mcus[n..])
    ensures forall i :: 0 <= i < |mcus| ==> |hists[i]| == |mcus[i]|
    ensures ExpectedMcus(scan, hists, mcus) == ExpectedMcus(scan, hists[..n], mcus[..n]) + ExpectedMcus(scan, hists[n..], mcus[n..])
  {
    hide Ready, Expected;
    assert forall i :: 0 <= i < |mcus| ==> ReadyMcu(scan, hists[i], mcus[i]);
    var all, a, b := ExpectedMcus(scan, hists, mcus), ExpectedMcus(scan, hists[..n], mcus[..n]), ExpectedMcus(scan, hists[n..], mcus[n..]);
    forall i | 0 <= i < |all|
      ensures all[i] == (a + b)[i]
    {
      if i >= n {
        assert (a + b)[i] == b[i - n];
      }
    }
  }

  /** The scan's bytes do not depend on what lies before it. */
  lemma {:induction false} BaseKept(scan: Scan, book: Codebook, s: ScanState, mcus: seq<Mcu>, x: seq<byte>)
    requires StateOk(scan, s) && McusFit(scan, mcus)
    ensures StateOk(scan, s.(base := x + s.base))
    ensures FinalBytes(scan, book, s.(base := x + s.base), mcus) == x + FinalBytes(scan, book, s, mcus)
    decreases |mcus|
  {
    hide PackBytes, Pad, OpsBits, McuOps, NextCoder, EndOps, CoderOk, FreshCoder;
    var t := s.(base := x + s.base);
    var packed := PackBytes(Pad(s.bits + OpsBits(EndOps(scan, s.coder), book)));
    assert (x + s.base) + packed == x + (s.base + packed);
    if mcus != [] {
      McusTail(scan, mcus, 1);
      assert (x + s.base + packed) + RestartMarker(s.num) == x + (s.base + packed + RestartMarker(s.num));
      BaseKept(scan, book, EncodeStep(scan, book, s, mcus[0]), mcus[1..], x);
    }
  }

  lemma StartsPlain(bits: seq<bool>)
    ensures [] + bits == bits
  {}

  lemma SplitReading(packed: seq<byte>, marker: seq<byte>, more: seq<byte>, tail: seq<byte>)
    requires |marker| == 2
    ensures ([] + packed + marker) + more + tail == packed + (marker + (more + tail))
    ensures marker <= marker + (more + tail) && (marker + (more + tail))[2..] == more + tail
  {}

  /** The scan round trip from the start of any interval. */
  lemma {:induction false} ScanDecodes(scan: Scan, tabs: Tables, book: Codebook, hists: seq<Mcu>, mcus: seq<Mcu>,
                                       num: RestartNum, tail: seq<byte>)
    requires scan.Wf() && ReadyMcus(scan, hists, mcus) && McusFit(scan, mcus) && McusFit(scan, hists)
    requires Tied(book, tabs) && TablesKnown(scan, tabs) && AtMarker(tail)
    requires CoderOk(scan, FreshCoder(scan)) && Emittable(RestOps(scan, FreshCoder(scan), scan.restart, mcus), book)
    requires StateOk(scan, NextInterval(scan, [], num))
    ensures |hists| == |mcus| && forall i :: 0 <= i < |mcus| ==> |hists[i]| == |mcus[i]|
    ensures DecodeScan(tabs, scan, hists, FinalBytes(scan, book, NextInterval(scan, [], num), mcus) + tail, num)
         == ScanDone(ExpectedMcus(scan, hists, mcus), tail)
    decreases |mcus|
  {
    hide Tied, TablesKnown, OpsBits, Emittable, IntervalOps, DecodeInterval, ReadyMcus, ExpectedMcus, PackBytes, Pad, ReadSegment, IsPadding, CoderOk, FinalBytes, RestOps, StateOk, FreshCoder;
    SameCount(scan, hists, mcus);
    var s := NextInterval(scan, [], num);
    if LastInterval(scan, s, mcus) {
      LastBytes(scan, book, s, mcus);
      StartsPlain(OpsBits(IntervalOps(scan, mcus, s.coder), book));
      var packed := PackBytes(Pad(OpsBits(IntervalOps(scan, mcus, s.coder), book)));
      assert [] + packed == packed;
      var fill := PackedIntervalDecodes(scan, tabs, book, hists, mcus, tail);
    } else {
      ScanDecodesOn(scan, tabs, book, hists, mcus, num, tail);
    }
  }

  lemma {:induction false} ScanDecodesOn(scan: Scan, tabs: Tables, book: Codebook, hists: seq<Mcu>, mcus: seq<Mcu>,
                                         num: RestartNum, tail: seq<byte>)
    requires scan.Wf() && ReadyMcus(scan, hists, mcus) && McusFit(scan, mcus) && McusFit(scan, hists)
    requires Tied(book, tabs) && TablesKnown(scan, tabs) && AtMarker(tail)
    requires CoderOk(scan, FreshCoder(scan)) && Emittable(RestOps(scan, FreshCoder(scan), scan.restart, mcus), book)
    requires StateOk(scan, NextInterval(scan, [], num)) && scan.restart > 0 && |mcus| > scan.restart
    ensures |hists| == |mcus| && forall i :: 0 <= i < |mcus| ==> |hists[i]| == |mcus[i]|
    ensures DecodeScan(tabs, scan, hists, FinalBytes(scan, book, NextInterval(scan, [], num), mcus) + tail, num)
         == ScanDone(ExpectedMcus(scan, hists, mcus), tail)
    decreases |mcus|, 0
  {
    hide Tied, TablesKnown, OpsBits, Emittable, IntervalOps, DecodeInterval, ReadyMcus, ExpectedMcus, PackBytes, Pad, ReadSegment, IsPadding, CoderOk, FinalBytes, RestOps, StateOk, FreshCoder;
    SameCount(scan, hists, mcus);
    var n := scan.restart;
    var s := NextInterval(scan, [], num);
    FullBytes(scan, book, s, mcus);
    ReadySplit(scan, hists, mcus, n);
    ReadyFits(scan, hists[..n], mcus[..n]);
    ReadyFits(scan, hists[n..], mcus[n..]);
    OpsBitsConcat(IntervalOps(scan, mcus[..n], s.coder), RestOps(scan, FreshCoder(scan), n, mcus[n..]), book);
    StartsPlain(OpsBits(IntervalOps(scan, mcus[..n], s.coder), book));
    var packed := PackBytes(Pad(OpsBits(IntervalOps(scan, mcus[..n], s.coder), book)));
    var next: RestartNum := (num + 1) % 8;
    var begin := NextInterval(scan, [], next);
    NextIntervalOk(scan, [], next);
    var data := FinalBytes(scan, book, begin, mcus[n..]);
    BaseKept(scan, book, begin, mcus[n..], [] + packed + RestartMarker(num));
    assert ([] + packed + RestartMarker(num)) + [] == [] + packed + RestartMarker(num);
    SplitReading(packed, RestartMarker(num), data, tail);
    var fill := PackedIntervalDecodes(scan, tabs, book, hists[..n], mcus[..n], RestartMarker(num) + (data + tail));
    ScanDecodes(scan, tabs, book, hists[n..], mcus[n..], next, tail);
  }

  /** Running the encoder MCU by MCU and closing it gives the scan's bytes. */
  lemma {:induction false} FoldIsFinal(scan: Scan, book: Codebook, s: ScanState, mcus: seq<Mcu>, k: nat)
    requires StateOk(scan, s) && McusFit(scan, mcus) && k <= |mcus|
    ensures McusFit(scan, mcus[..k]) && McusFit(scan, mcus[k..])
    ensures FinalBytes(scan, book, s, mcus) == FinalBytes(scan, book, EncodeAll(scan, book, s, mcus[..k]), mcus[k..])
  {
    hide EncodeStep, StateOk, Closed;
    McusTail(scan, mcus, k);
    if k == 0 {
      assert mcus[..0] == [] && mcus[0..] == mcus;
    } else {
      FoldIsFinal(scan, book, s, mcus, k - 1);
      assert mcus[..k][..k - 1] == mcus[..k - 1];
      assert mcus[k - 1..][1..] == mcus[k..];
      assert mcus[k - 1..][0] == mcus[k - 1];
    }
  }

  /** The bytes an encoder has written after all MCUs of a scan and its end-of-pass flush. */
  function ScanBytes(scan: Scan, book: Codebook, mcus: seq<Mcu>): seq<byte>
    requires scan.Wf() && McusFit(scan, mcus)
  {
    StartOk(scan, []);
    Closed(scan, book, EncodeAll(scan, book, StartState(scan, []), mcus))
  }

  /** Main theorem for one scan, of any kind, with any restart interval: a decoder that has the
      tables and the history the scan presupposes reads back exactly what the scan conveys, and
      stops right at the marker that follows. */
  lemma ScanRoundTrip(scan: Scan, tabs: Tables, book: Codebook, hists: seq<Mcu>, mcus: seq<Mcu>, tail: seq<byte>)
    requires scan.Wf() && ReadyMcus(scan, hists, mcus) && McusFit(scan, mcus) && McusFit(scan, hists)
    requires Tied(book, tabs) && TablesKnown(scan, tabs) && AtMarker(tail)
    requires Emittable(ScanOps(scan, mcus), book)
    ensures |hists| == |mcus| && forall i :: 0 <= i < |mcus| ==> |hists[i]| == |mcus[i]|
    ensures DecodeScan(tabs, scan, hists, ScanBytes(scan, book, mcus) + tail, 0)
         == ScanDone(ExpectedMcus(scan, hists, mcus), tail)
  {
    hide Tied, TablesKnown, Emittable, DecodeScan, ReadyMcus, ExpectedMcus, RestOps, EncodeStep, StateOk, Closed, CoderOk;
    FreshOk(scan);
    StartOk(scan, []);
    NextIntervalOk(scan, [], 0);
    var s := StartState(scan, []);
    FoldIsFinal(scan, book, s, mcus, |mcus|);
    assert mcus[..|mcus|] == mcus && mcus[|mcus|..] == [];
    ScanDecodes(scan, tabs, book, hists, mcus, 0, tail);
  }

  /** Encoding more MCUs appends to what is there: bytes before a scan never change. */
  lemma BytesAppend(scan: Scan, book: Codebook, base: seq<byte>, mcus: seq<Mcu>)
    requires scan.Wf() && McusFit(scan, mcus)
    ensures StateOk(scan, StartState(scan, base))
    ensures Closed(scan, book, EncodeAll(scan, book, StartState(scan, base), mcus)) == base + ScanBytes(scan, book, mcus)
  {
    hide EncodeStep, StateOk, Closed, CoderOk;
    StartOk(scan, base);
    StartOk(scan, []);
    FoldIsFinal(scan, book, StartState(scan, base), mcus, |mcus|);
    FoldIsFinal(scan, book, StartState(scan, []), mcus, |mcus|);
    assert mcus[..|mcus|] == mcus && mcus[|mcus|..] == [];
    BaseKept(scan, book, StartState(scan, []), mcus, base);
    assert base + [] == base;
  }

  // ----- the statistics pass over the same operations -----

  /** What the gathering encoder keeps between MCUs. */
  datatype Pass = Pass(coder: Coder, togo: nat)

  function PassAfter(scan: Scan, mcus: seq<Mcu>): (p: Pass)
    requires scan.Wf() && McusFit(scan, mcus)
    ensures CoderOk(scan, p.coder)
    decreases |mcus|
  {
    if mcus == [] then Pass(FreshCoder(scan), scan.restart)
    else
      var p := PassAfter(scan, mcus[..|mcus| - 1]);
      Pass(StepCoder(scan, p.coder, p.togo, mcus[|mcus| - 1]), StepTogo(scan, p.togo))
  }

  /** The operations of all encode_mcu calls so far. */
  function OpsSoFar(scan: Scan, mcus: seq<Mcu>): seq<Op>
    requires scan.Wf() && McusFit(scan, mcus)
    decreases |mcus|
  {
    if mcus == [] then []
    else
      var p := PassAfter(scan, mcus[..|mcus| - 1]);
      OpsSoFar(scan, mcus[..|mcus| - 1]) + StepOps(scan, p.coder, p.togo, mcus[|mcus| - 1])
  }

  lemma {:induction false} OpsSplit(scan: Scan, mcus: seq<Mcu>, k: nat)
    requires scan.Wf() && McusFit(scan, mcus) && k <= |mcus|
    ensures McusFit(scan, mcus[..k]) && McusFit(scan, mcus[k..])
    ensures var p := PassAfter(scan, mcus[..k]);
            ScanOps(scan, mcus) == OpsSoFar(scan, mcus[..k]) + RestOps(scan, p.coder, p.togo, mcus[k..])
  {
    hide StepOps, StepCoder, CoderOk, EndOps, FreshCoder;
    McusTail(scan, mcus, k);
    FreshOk(scan);
    if k == 0 {
      assert mcus[..0] == [] && mcus[0..] == mcus;
      assert [] + ScanOps(scan, mcus) == ScanOps(scan, mcus);
    } else {
      OpsSplit(scan, mcus, k - 1);
      assert mcus[..k][..k - 1] == mcus[..k - 1];
      assert mcus[k - 1..][1..] == mcus[k..];
      assert mcus[k - 1..][0] == mcus[k - 1];
      var p := PassAfter(scan, mcus[..k - 1]);
      var q := PassAfter(scan, mcus[..k]);
      AssocOps(OpsSoFar(scan, mcus[..k - 1]), StepOps(scan, p.coder, p.togo, mcus[k - 1]),
               RestOps(scan, q.coder, q.togo, mcus[k..]));
    }
  }

  /** The statistics pass and the output pass see the same operations, MCU by MCU. */
  lemma {:induction false} PassIsState(scan: Scan, book: Codebook, base: seq<byte>, mcus: seq<Mcu>)
    requires scan.Wf() && McusFit(scan, mcus) && StateOk(scan, StartState(scan, base))
    ensures var s := EncodeAll(scan, book, StartState(scan, base), mcus);
            PassAfter(scan, mcus) == Pass(s.coder, s.togo)
    decreases |mcus|
  {
    hide NextCoder, CoderOk, FreshCoder, Closed;
    if mcus != [] {
      PassIsState(scan, book, base, mcus[..|mcus| - 1]);
    }
  }
}
