/** The entropy encoder of sequential scans: start of pass, MCU encoding with commit-on-success,
    and end of pass. */
module HuffEncoder {
  import opened Bits
  import opened ByteStuffing
  import opened BitWriter
  import opened HuffmanTable
  import opened Coefficients
  import opened EntropyOps
  import opened BandCoding
  import opened EobRuns
  import opened ScanCoding
  import opened IntervalRoundTrip
  import opened RestartCoding
  import opened OpWriter
  import opened SequentialEncoder
  import opened EncodingPass

  datatype StartResult = Started | Rejected(error: TableError)

  /** The MCU's blocks with their coefficients in zigzag order. */
  function ZigzagMcu(data: seq<Block>): (mcu: Mcu)
    ensures |mcu| == |data|
  {
    seq(|data|, b requires 0 <= b < |data| => Zigzag(data[b]))
  }

  function ZigzagAll(mcus: seq<seq<Block>>): (z: seq<Mcu>)
    ensures |z| == |mcus| && forall i :: 0 <= i < |mcus| ==> z[i] == ZigzagMcu(mcus[i])
  {
    seq(|mcus|, i requires 0 <= i < |mcus| => ZigzagMcu(mcus[i]))
  }

  lemma ZigzagOneMore(mcus: seq<seq<Block>>, mcu: seq<Block>)
    ensures ZigzagAll(mcus + [mcu]) == ZigzagAll(mcus) + [ZigzagMcu(mcu)]
  {}

  lemma ZigzagKeepsDc(block: Block)
    ensures Zigzag(block)[0] == block[0]
  {}

  /** The tables present in the compression object, as a decoder would know them. */
  ghost function Known(dc: seq<Option<Table>>, ac: seq<Option<Table>>): Tables
    requires |dc| == |ac| == NUM_HUFF_TBLS
  {
    map t: TableId | t in (set b: bool, n: int | 0 <= n < NUM_HUFF_TBLS && (if b then ac[n] else dc[n]).Some? :: TableId(b, n))
      :: (if t.isAC then ac[t.no] else dc[t.no]).value
  }

  /** Derived tables for the components of the scan below ci are in the code book. */
  ghost predicate CodesFor(scan: Scan, book: Codebook, n: nat)
    requires n <= |scan.dcTbl| == |scan.acTbl|
  {
    forall ci :: 0 <= ci < n ==>
      && scan.DcId(ci) in book && TableOf(book, scan.DcId(ci), book[scan.DcId(ci)])
      && scan.AcId(ci) in book && TableOf(book, scan.AcId(ci), book[scan.AcId(ci)])
  }

  /** No pass over these MCUs gets to the end of them: some code is missing. */
  ghost predicate Stuck(scan: Scan, book: Codebook, mcus: seq<Mcu>) {
    scan.Wf() && McusFit(scan, mcus) && !Emittable(OpsSoFar(scan, mcus), book)
  }

  /** The MCU can be encoded: all symbols have codes, and a suspending sink has room. */
  ghost predicate Accepts(scan: Scan, book: Codebook, s: ScanState, mcu: Mcu, empties: bool, room: nat)
    requires StateOk(scan, s) && McuFits(scan, mcu)
  {
    && Emittable(StepOps(scan, s.coder, s.togo, mcu), book)
    && (empties || |BytesOf(EncodeStep(scan, book, s, mcu))| < room)
  }

  lemma BlocksStep(scan: Scan, mcu: Mcu, b: nat, lastDc: seq<int>)
    requires scan.Wf() && scan.kind.Sequential? && McuFits(scan, mcu) && b < |mcu| && |lastDc| == |scan.dcTbl|
    ensures var ci := scan.membership[b];
            var z := mcu[b];
            && BlocksOps(scan, mcu, b, lastDc).0
            == DcOps(scan.DcId(ci), z[0] - lastDc[ci]) + SequentialAcOps(scan.AcId(ci), z)
               + BlocksOps(scan, mcu, b + 1, lastDc[ci := z[0]]).0
            && BlocksOps(scan, mcu, b, lastDc).1 == BlocksOps(scan, mcu, b + 1, lastDc[ci := z[0]]).1
  {
    hide DcOps, SequentialAcOps;
  }

  lemma BlocksOver(scan: Scan, mcu: Mcu, lastDc: seq<int>)
    requires scan.Wf() && McuFits(scan, mcu) && |lastDc| == |scan.dcTbl|
    ensures BlocksOps(scan, mcu, |mcu|, lastDc) == ([], lastDc)
  {}

  function ZeroPredictions(scan: Scan): (z: seq<int>)
    ensures z == FreshCoder(scan).lastDc
  {
    seq(|scan.dcTbl|, _ => 0)
  }

  lemma StartFields(scan: Scan, start: seq<byte>)
    ensures FreshCoder(scan) == Coder(ZeroPredictions(scan), NONE_PENDING)
    ensures StartState(scan, start) == ScanState(start, [], FreshCoder(scan), scan.restart, 0)
    ensures BytesOf(StartState(scan, start)) == start && WindowHolds(0, 0, [])
  {
    Writer.EmptyWindow();
    assert start + [] == start;
  }

  /** The part of the state that a suspended MCU must not change. */
  datatype Savable = Savable(putBuffer: nat, putBits: nat, lastDc: seq<int>)

  /** Every component's table numbers are in range and name tables that are present and legal. */
  ghost predicate TablesUsable(scan: Scan, dc: seq<Option<Table>>, ac: seq<Option<Table>>, n: nat)
    requires n <= |scan.dcTbl| == |scan.acTbl| && |dc| == |ac| == NUM_HUFF_TBLS
  {
    forall ci :: 0 <= ci < n ==> Usable(dc, true, scan.dcTbl[ci]) && Usable(ac, false, scan.acTbl[ci])
  }

  ghost predicate Usable(tables: seq<Option<Table>>, isDC: bool, no: int)
    requires |tables| == NUM_HUFF_TBLS
  {
    0 <= no < 4 && tables[no].Some? && Legal(tables[no].value, isDC)
  }

  class Encoder {
    const dest: Destination
    var scan: Scan
    var book: Codebook                // derived tables
    var saved: Savable
    var restartsToGo: nat
    var nextRestartNum: RestartNum
    ghost var start: seq<byte>        // the stream when the pass began
    ghost var seen: seq<Mcu>          // the MCUs accepted in this pass
    ghost var state: ScanState        // what the fields stand for in an output pass

    constructor (dest: Destination, scan: Scan)
      requires scan.Wf() && scan.kind.Sequential?
      ensures this.dest == dest && this.scan == scan
    {
      this.dest, this.scan := dest, scan;
      book := map[];
      saved, restartsToGo, nextRestartNum := Savable(0, 0, []), 0, 0;
      start, seen, state := [], [], StartState(scan, []);
    }

    /** In an output pass. */
    ghost predicate Valid()
      reads this, dest
    {
      && scan.kind.Sequential? && PassOk(scan, book, start, seen, state)
      && Coder(saved.lastDc, NONE_PENDING) == state.coder && restartsToGo == state.togo && nextRestartNum == state.num
      && AllCodes(scan, book)
      && dest.Valid() && dest.Committed() == BytesOf(state)
      && WindowHolds(saved.putBuffer, saved.putBits, state.bits)
    }

    static ghost predicate AllCodes(scan: Scan, book: Codebook) {
      |scan.dcTbl| == |scan.acTbl| && CodesFor(scan, book, |scan.dcTbl|)
    }

    /** The derived tables of all components of the scan. */
    method DeriveTables(dcTables: seq<Option<Table>>, acTables: seq<Option<Table>>) returns (r: StartResult)
      requires scan.Wf() && |dcTables| == |acTables| == NUM_HUFF_TBLS
      modifies this`book
      ensures r.Started? ==> Tied(book, Known(dcTables, acTables)) && AllCodes(scan, book)
      ensures r.Started? <==> TablesUsable(scan, dcTables, acTables, |scan.dcTbl|)
    {
      hide Tied, Legal, Derives, TableOf;
      book := map[];
      NoCodes(scan, Known(dcTables, acTables));
      var ci := 0;
      while ci < |scan.dcTbl|
        invariant ci <= |scan.dcTbl| == |scan.acTbl|
        invariant Tied(book, Known(dcTables, acTables)) && CodesFor(scan, book, ci)
        invariant TablesUsable(scan, dcTables, acTables, ci)
      {
        var d := MakeDerivedTbl(dcTables, true, scan.dcTbl[ci]);
        if d.Bad? {
          return Rejected(d.error);
        }
        var a := MakeDerivedTbl(acTables, false, scan.acTbl[ci]);
        if a.Bad? {
          return Rejected(a.error);
        }
        AddTable(book, dcTables, acTables, scan.DcId(ci), d.tbl);
        AddTable(book[scan.DcId(ci) := d.tbl], dcTables, acTables, scan.AcId(ci), a.tbl);
        MoreCodes(scan, book, ci, d.tbl, a.tbl);
        book := book[scan.DcId(ci) := d.tbl][scan.AcId(ci) := a.tbl];
        ci := ci + 1;
      }
      return Started;
    }

    static lemma NoCodes(scan: Scan, tabs: Tables)
      requires |scan.dcTbl| == |scan.acTbl|
      ensures Tied(map[], tabs) && CodesFor(scan, map[], 0)
    {}

    /** start_pass_huff for an output pass. */
    method StartOutputPass(dcTables: seq<Option<Table>>, acTables: seq<Option<Table>>) returns (r: StartResult)
      requires scan.Wf() && scan.kind.Sequential? && dest.Valid()
      requires |dcTables| == |acTables| == NUM_HUFF_TBLS
      modifies this
      ensures scan == old(scan)
      ensures r.Started? ==> Valid() && seen == [] && start == dest.Committed()
      ensures r.Started? ==> Tied(book, Known(dcTables, acTables))
      ensures r.Started? <==> TablesUsable(scan, dcTables, acTables, |scan.dcTbl|)
    {
      hide Tied, CodesFor, PassOk, Known, WindowHolds, PackBytes, TablesUsable;
      r := DeriveTables(dcTables, acTables);
      if r.Rejected? {
        return;
      }
      ResetState();
    }

    /** Zero predictions, an empty bit buffer, a full restart interval. */
    method ResetState()
      requires scan.Wf() && scan.kind.Sequential? && dest.Valid() && AllCodes(scan, book)
      modifies this
      ensures Valid() && seen == [] && start == dest.Committed() && state == StartState(scan, start)
      ensures scan == old(scan) && book == old(book)
    {
      hide AllCodes, CodesFor, PassOk, WindowHolds, BytesOf, StartState, FreshCoder, ZeroPredictions, Scan.Wf;
      saved := Savable(0, 0, ZeroPredictions(scan));
      restartsToGo, nextRestartNum := scan.restart, 0;
      start, seen, state := dest.Committed(), [], StartState(scan, dest.Committed());
      PassStarts(scan, book, start);
      StartFields(scan, start);
    }

    static lemma AddTable(book: Codebook, dc: seq<Option<Table>>, ac: seq<Option<Table>>, t: TableId, d: Derived)
      requires |dc| == |ac| == NUM_HUFF_TBLS && Tied(book, Known(dc, ac))
      requires 0 <= t.no < NUM_HUFF_TBLS && (if t.isAC then ac[t.no] else dc[t.no]).Some?
      requires Legal((if t.isAC then ac[t.no] else dc[t.no]).value, !t.isAC)
      requires Derives((if t.isAC then ac[t.no] else dc[t.no]).value, d)
      ensures Tied(book[t := d], Known(dc, ac)) && TableOf(book[t := d], t, d)
    {
      hide Derives, Legal;
      assert t == TableId(t.isAC, t.no);
      DerivedSizes((if t.isAC then ac[t.no] else dc[t.no]).value, !t.isAC, d);
    }

    static lemma DerivedSizes(t: Table, isDC: bool, d: Derived)
      requires Legal(t, isDC) && Derives(t, d)
      ensures |d.ehufco| == 256 == |d.ehufsi| && forall s: byte :: d.ehufsi[s] <= 16
    {
      hide DecodeSymbol;
      forall s: byte
        ensures d.ehufsi[s] <= 16
      {
        if d.ehufsi[s] > 0 {
          SymbolRoundTrip(t, isDC, d, s, []);
        }
      }
    }

    static lemma MoreCodes(scan: Scan, book: Codebook, ci: nat, d: Derived, a: Derived)
      requires ci < |scan.dcTbl| == |scan.acTbl| && CodesFor(scan, book, ci)
      requires TableOf(book[scan.DcId(ci) := d], scan.DcId(ci), d)
      requires TableOf(book[scan.DcId(ci) := d][scan.AcId(ci) := a], scan.AcId(ci), a)
      ensures CodesFor(scan, book[scan.DcId(ci) := d][scan.AcId(ci) := a], ci + 1)
    {}

    /** emit_restart; last are the new DC predictions. */
    method EmitRestart(w: Writer, num: RestartNum) returns (s: Status, last: seq<int>)
      requires w.Valid()
      modifies w, w.dest
      ensures !s.Fatal?
      ensures s.Done? ==> w.Valid() && w.Writing(old(w.base) + PackBytes(Pad(old(w.bits))) + RestartMarker(num), [])
      ensures last == ZeroPredictions(scan)
      ensures s.Done? <==> w.dest.empties || |old(w.base) + PackBytes(Pad(old(w.bits))) + RestartMarker(num)| < old(w.Room())
      ensures !w.dest.empties ==> unchanged(w.dest)
      ensures !w.dest.empties && s.Done? ==> w.Room() == old(w.Room())
    {
      hide PackBytes, Pad, WindowHolds;
      last := ZeroPredictions(scan);
      s := w.FlushBits();
      if s.Done? {
        s := w.EmitMarker(RST0 + num);
      }
    }

    /** The blocks of an MCU, one after the other; returns the new DC predictions. */
    method EncodeBlocks(w: Writer, data: seq<Block>, last: seq<int>, ghost g: Goal) returns (s: Status, cur: seq<int>)
      requires scan.Wf() && scan.kind.Sequential? && |data| == |scan.membership| && |last| == |scan.dcTbl|
      requires g.book == book && AllCodes(scan, book)
      requires Sent(w, g, []) && g.ops == BlocksOps(scan, ZigzagMcu(data), 0, last).0
      modifies w, w.dest
      ensures s.Done? ==> Sent(w, g, g.ops) && cur == BlocksOps(scan, ZigzagMcu(data), 0, last).1
      ensures !s.Done? ==> !CanFinish(g) && (s.Fatal? ==> !Emittable(g.ops, g.book))
      ensures s.Suspended? ==> !g.empties
      ensures !g.empties ==> unchanged(w.dest)
    {
      hide Sent, CanFinish, Emittable, TableOf, BlocksOps, DcOps, SequentialAcOps, Zigzag;
      ghost var mcu, sent := ZigzagMcu(data), [];
      cur := last;
      var blkn := 0;
      assert [] + g.ops == g.ops;
      while blkn < |data|
        invariant blkn <= |data| && |cur| == |scan.dcTbl|
        invariant Sent(w, g, sent) && g.ops == sent + BlocksOps(scan, mcu, blkn, cur).0
        invariant BlocksOps(scan, mcu, blkn, cur).1 == BlocksOps(scan, mcu, 0, last).1
        invariant !g.empties ==> unchanged(w.dest)
      {
        var ci := scan.membership[blkn];
        BlocksStep(scan, mcu, blkn, cur);
        ZigzagKeepsDc(data[blkn]);
        ghost var now := DcOps(scan.DcId(ci), data[blkn][0] - cur[ci]) + SequentialAcOps(scan.AcId(ci), Zigzag(data[blkn]));
        ghost var more := BlocksOps(scan, mcu, blkn + 1, cur[ci := data[blkn][0]]).0;
        AssocOps(sent, now, more);
        s := EncodeOneBlock(w, data[blkn], cur[ci], book[scan.DcId(ci)], book[scan.AcId(ci)],
                            scan.DcId(ci), scan.AcId(ci), g, sent, more);
        if !s.Done? {
          return;
        }
        cur := cur[ci := data[blkn][0]];
        sent := sent + now;
        blkn := blkn + 1;
      }
      BlocksOver(scan, mcu, cur);
      assert sent + [] == sent;
      s := Done;
    }

    /** What encode_mcu_huff writes through the working state: a due restart, then the blocks. */
    method WriteMcu(w: Writer, data: seq<Block>, ghost st: ScanState) returns (s: Status, cur: seq<int>)
      requires StateOk(scan, st) && scan.kind.Sequential? && |data| == |scan.membership| && AllCodes(scan, book)
      requires w.Valid() && w.Writing(st.base, st.bits)
      requires saved.lastDc == st.coder.lastDc && restartsToGo == st.togo && nextRestartNum == st.num
      modifies w, w.dest
      ensures var next := EncodeStep(scan, book, st, ZigzagMcu(data));
              && (s.Done? <==> Accepts(scan, book, st, ZigzagMcu(data), w.dest.empties, old(w.Room())))
              && (s.Done? ==> w.Valid() && w.Writing(next.base, next.bits) && cur == next.coder.lastDc)
      ensures s.Fatal? ==> !Emittable(StepOps(scan, st.coder, st.togo, ZigzagMcu(data)), book)
      ensures s.Suspended? ==> !w.dest.empties
      ensures !w.dest.empties ==> unchanged(w.dest) && (s.Done? ==> w.Room() == old(w.Room()))
    {
      hide PackBytes, Pad, WindowHolds, Emittable, OpsBits, StepOps, CodesFor, BlocksOps, FreshCoder, CanFinish, Sent, StateOk, AfterRestart, EncodeStep, McuOps;
      assert scan.Wf() by { WfOfState(scan, st); }
      ghost var mcu := ZigzagMcu(data);
      PlainStep(scan, book, st, mcu);
      ghost var r := AfterRestart(scan, book, st);
      ghost var g := Goal(w.dest.empties, r.base, r.bits, w.Room(), McuOps(scan, mcu, r.coder), book);
      GoalIsAccept(scan, book, st, mcu, g);
      cur := saved.lastDc;
      if scan.restart != 0 && restartsToGo == 0 {
        s, cur := EmitRestart(w, nextRestartNum);
        if !s.Done? {
          NoRoomLater(g);
          return;
        }
      }
      NothingSent(w, g);
      s, cur := EncodeBlocks(w, data, cur, g);
      if s.Done? {
        AllSent(w, g);
      }
    }

    /** The MCU cannot fit when even the restart marker before it does not. */
    static lemma NoRoomLater(g: Goal)
      requires !g.empties && g.bits == [] && |g.base| >= g.room
      ensures !CanFinish(g)
    {}

    /** encode_mcu_huff: all or nothing. */
    method EncodeMcuHuff(data: seq<Block>) returns (s: Status)
      requires Valid() && |data| == |scan.membership|
      modifies this, dest
      ensures StateOk(old(scan), old(state))
      ensures s.Done? <==> old(Accepts(scan, book, state, ZigzagMcu(data), dest.empties, |dest.Committed()| + dest.free))
      ensures s.Done? ==> Valid() && seen == old(seen) + [ZigzagMcu(data)]
      ensures !s.Done? ==> unchanged(this)
      ensures !s.Done? && !dest.empties ==> unchanged(dest)
      ensures s.Suspended? ==> !dest.empties
      ensures s.Fatal? ==> !Emittable(StepOps(old(scan), old(state).coder, old(restartsToGo), ZigzagMcu(data)), old(book))
      ensures s.Fatal? ==> Stuck(old(scan), old(book), old(seen) + [ZigzagMcu(data)])
      ensures scan == old(scan) && start == old(start) && book == old(book)
      ensures s.Done? && !dest.empties ==> |dest.Committed()| + dest.free == old(|dest.Committed()| + dest.free)
    {
      hide WindowHolds, Emittable, StepOps, CodesFor, PassOk, Accepts, EncodeStep, StateOk, Pad, PackBytes, NextTogo, NextNum, OpsBits, McuOps, BlocksOps;
      ghost var st, mcu := state, ZigzagMcu(data);
      PassHasState(scan, book, start, seen, st);
      var w := new Writer(dest, saved.putBuffer, saved.putBits, state.base, state.bits);
      var cur;
      s, cur := WriteMcu(w, data, st);
      if !s.Done? {
        if s.Fatal? {
          PassStuck(scan, book, start, seen, st, mcu);
        }
        return;
      }
      w.Commit();
      saved := Savable(w.putBuffer, w.putBits, cur);
      CountDown();
      seen, state := seen + [mcu], EncodeStep(scan, book, st, mcu);
      StepIs(scan, book, st, mcu);
      AcceptedIsEmittable(scan, book, st, mcu, dest.empties, old(|dest.Committed()| + dest.free));
      PassGrows(scan, book, start, old(seen), st, mcu);
    }

    static lemma AcceptedIsEmittable(scan: Scan, book: Codebook, s: ScanState, mcu: Mcu, empties: bool, room: nat)
      requires StateOk(scan, s) && McuFits(scan, mcu) && Accepts(scan, book, s, mcu, empties, room)
      ensures Emittable(StepOps(scan, s.coder, s.togo, mcu), book)
    {}

    /** The restart-interval bookkeeping after an MCU. */
    method CountDown()
      modifies this`restartsToGo, this`nextRestartNum
      ensures restartsToGo == NextTogo(scan.restart, old(restartsToGo))
      ensures nextRestartNum == NextNum(scan.restart, old(restartsToGo), old(nextRestartNum))
    {
      if scan.restart != 0 {
        if restartsToGo == 0 {
          restartsToGo := scan.restart;
          nextRestartNum := (nextRestartNum + 1) % 8;
        }
        restartsToGo := restartsToGo - 1;
      }
    }

    static lemma WfOfState(scan: Scan, s: ScanState)
      requires StateOk(scan, s)
      ensures scan.Wf()
    {}

    static lemma PassHasState(scan: Scan, book: Codebook, start: seq<byte>, seen: seq<Mcu>, s: ScanState)
      requires PassOk(scan, book, start, seen, s)
      ensures scan.Wf() && StateOk(scan, s) && CoderOk(scan, s.coder)
    {}

    static lemma StepIs(scan: Scan, book: Codebook, s: ScanState, mcu: Mcu)
      requires StateOk(scan, s) && !scan.IsAC() && McuFits(scan, mcu)
      ensures var next := EncodeStep(scan, book, s, mcu);
              && next.coder.pend == NONE_PENDING
              && next.togo == NextTogo(scan.restart, s.togo) && next.num == NextNum(scan.restart, s.togo, s.num)
    {
      hide StateOk, AfterRestart, EncodeStep, McuOps, BlocksOps, PackBytes, Pad, OpsBits, StepOps, NextTogo, NextNum;
      PlainStep(scan, book, s, mcu);
    }

    static lemma NothingSent(w: Writer, g: Goal)
      requires w.Valid() && w.dest.empties == g.empties && w.Writing(g.base, g.bits)
      requires !g.empties ==> w.Room() == g.room
      ensures Sent(w, g, [])
    {
      hide PackBytes, WindowHolds;
      assert g.bits + [] == g.bits;
    }

    static lemma AllSent(w: Writer, g: Goal)
      requires Sent(w, g, g.ops)
      ensures w.Valid() && w.Writing(g.base, g.bits + OpsBits(g.ops, g.book)) && (!g.empties ==> w.Room() == g.room)
      ensures CanFinish(g)
    {
      hide PackBytes, WindowHolds, OpsBits;
    }

    static lemma GoalIsAccept(scan: Scan, book: Codebook, s: ScanState, mcu: Mcu, g: Goal)
      requires StateOk(scan, s) && !scan.IsAC() && McuFits(scan, mcu)
      requires var r := AfterRestart(scan, book, s);
               g.base == r.base && g.bits == r.bits && g.ops == McuOps(scan, mcu, r.coder) && g.book == book
      ensures CanFinish(g) <==> Accepts(scan, book, s, mcu, g.empties, g.room)
      ensures Emittable(g.ops, book) <==> Emittable(StepOps(scan, s.coder, s.togo, mcu), book)
    {
      hide PackBytes, OpsBits, McuOps, AfterRestart, EncodeStep, StepOps, NextCoder, Emittable, StateOk, Pad;
      PlainStep(scan, book, s, mcu);
    }

    /** finish_pass_huff: pad the last byte; a destination that refuses now is fatal. */
    method FinishPassHuff() returns (s: Status)
      requires Valid()
      modifies this`saved, dest
      ensures StateOk(scan, state)
      ensures s.Done? <==> dest.empties || |start + ScanBytes(scan, book, seen)| < old(|dest.Committed()| + dest.free)
      ensures s.Done? ==> dest.Committed() == start + ScanBytes(scan, book, seen) && dest.Valid()
      ensures scan.Wf() && McusFit(scan, seen) && Emittable(ScanOps(scan, seen), book)
      ensures !s.Done? ==> s == Fatal(CantSuspend)
    {
      hide WindowHolds, CodesFor, PassOk, StateOk, Pad, PackBytes, Closed, ScanBytes, ScanOps, Emittable;
      PassHasState(scan, book, start, seen, state);
      PlainClosed(scan, book, state);
      PassEnds(scan, book, start, seen, state);
      AllEmitted(scan, book, start, seen, state);
      var w := new Writer(dest, saved.putBuffer, saved.putBits, state.base, state.bits);
      s := w.FlushBits();
      if !s.Done? {
        return Fatal(CantSuspend);
      }
      NothingHeld(w);
      w.Commit();
      saved := Savable(w.putBuffer, w.putBits, saved.lastDc);
    }

    static lemma AllEmitted(scan: Scan, book: Codebook, start: seq<byte>, seen: seq<Mcu>, s: ScanState)
      requires PassOk(scan, book, start, seen, s) && s.coder.pend == NONE_PENDING
      ensures McusFit(scan, seen) && Emittable(ScanOps(scan, seen), book)
    {
      hide ScanOps, OpsSoFar;
      PassEnds(scan, book, start, seen, s);
    }

    static lemma NothingHeld(w: Writer)
      requires w.Valid() && w.bits == []
      ensures w.Stream() == w.base
    {
      assert w.base + [] == w.base;
    }

    static lemma PlainClosed(scan: Scan, book: Codebook, s: ScanState)
      requires StateOk(scan, s) && s.coder.pend == NONE_PENDING
      ensures Closed(scan, book, s) == s.base + PackBytes(Pad(s.bits))
    {
      hide PackBytes, Pad;
      assert s.bits + [] == s.bits;
    }
  }

  /** Suspensions leave no trace: two output passes of one scan that have accepted the same MCUs agree in the
      bytes committed, the bits waiting, the predictions and the restart counters, whatever their
      destinations refused on the way. */
  lemma SuspensionsLeaveNoTrace(a: Encoder, b: Encoder)
    requires a.Valid() && b.Valid()
    requires a.scan == b.scan && a.book == b.book && a.start == b.start && a.seen == b.seen
    ensures a.dest.Committed() == b.dest.Committed()
    ensures a.saved.lastDc == b.saved.lastDc && a.restartsToGo == b.restartsToGo && a.nextRestartNum == b.nextRestartNum
    ensures a.saved.putBits == b.saved.putBits && a.saved.putBuffer % Pow2(WINDOW) == b.saved.putBuffer % Pow2(WINDOW)
  {
    hide EncodeAll, StartState, StateOk, BytesOf, PackRest, Pow2, Encoder.AllCodes, OpsSoFar, Emittable, McusFit;
  }
}
