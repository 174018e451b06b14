/** The coefficient controller: assembling MCUs in a single pass, or through whole-image buffers in
    several passes, with an entropy coder that may suspend at any MCU. */
module CoefController {
  import opened Arithmetic
  import opened Coefficients
  import opened Geometry
  import opened McuLayout
  import opened ByteStuffing
  import opened BitWriter
  import opened EntropyOps
  import opened ScanCoding
  import opened RestartCoding
  import opened EncodingPass
  import opened HuffEncoder

  /** How many of the first n calls are answered with no. */
  function Refusals(takes: nat -> bool, n: nat): nat {
    if n == 0 then 0 else Refusals(takes, n - 1) + (if takes(n - 1) then 0 else 1)
  }

  /** An entropy coder as the controller sees it: it takes an MCU, or refuses it and stays as it was. It is the
      sequential encoder, between whose refusals the application makes room in the destination; or, when huff
      is null, any other coder, of which `takes` says what it answers to each call. */
  class McuSink {
    const huff: Encoder?
    const takes: nat -> bool
    const rooms: nat -> nat
    ghost const scan: Scan
    ghost const book: Codebook
    ghost const start: seq<byte>      // the stream when the pass began
    var calls: nat
    var failed: bool                  // the encoder has aborted
    ghost var accepted: seq<seq<Block>>
    ghost var last: seq<Block>        // the MCU at which the encoder aborted

    constructor (takes: nat -> bool)
      ensures Valid() && huff == null && this.takes == takes && accepted == [] && calls == 0 && !failed
    {
      huff, this.takes, rooms := null, takes, _ => 0;
      calls, failed, accepted := 0, false, [];
    }

    /** The sequential encoder at the start of an output pass. */
    constructor Huffman(huff: Encoder, rooms: nat -> nat)
      requires huff.Valid() && huff.seen == []
      ensures Valid() && this.huff == huff && this.rooms == rooms && accepted == [] && calls == 0 && !failed
      ensures scan == huff.scan && book == huff.book && start == huff.start
    {
      this.huff, takes, this.rooms := huff, _ => false, rooms;
      scan, book, start := huff.scan, huff.book, huff.start;
      calls, failed, accepted := 0, false, [];
    }

    ghost function Repr(): set<object> {
      {this} + if huff == null then {} else {huff, huff.dest}
    }

    /** The encoder has taken exactly the MCUs accepted, each reordered to zigzag. */
    ghost predicate Valid()
      reads Repr()
    {
      && (huff == null ==> Refused() == Refusals(takes, calls))
      && (failed ==> huff != null && Stuck(scan, book, ZigzagAll(accepted) + [ZigzagMcu(last)]))
      && (huff != null && !failed ==>
        huff.Valid() && huff.seen == ZigzagAll(accepted) && huff.scan == scan && huff.book == book && huff.start == start)
    }

    /** Calls that were refused so far. */
    ghost function Refused(): int
      reads this
    {
      calls - |accepted|
    }

    method EncodeMcu(mcu: seq<Block>) returns (ok: bool)
      requires Valid() && !failed && (huff != null ==> |mcu| == |scan.membership|)
      modifies Repr()
      ensures Valid() && (ok ==> !failed) && calls == old(calls) + 1
      ensures accepted == if ok then old(accepted) + [mcu] else old(accepted)
      ensures huff == null ==> (ok <==> takes(old(calls))) && !failed
      ensures failed ==> last == mcu
    {
      hide Encoder.Valid, Stuck, ZigzagAll, ZigzagMcu, Accepts, StateOk, Emittable, StepOps;
      if huff == null {
        ok := takes(calls);
      } else {
        var s := huff.EncodeMcuHuff(mcu);
        ok, failed, last := s.Done?, s.Fatal?, mcu;
        ZigzagOneMore(accepted, mcu);
      }
      calls := calls + 1;
      if ok {
        accepted := accepted + [mcu];
      }
    }

    /** After a refusal the application empties part of the buffer, and calls again. */
    method AwaitRoom()
      requires Valid()
      modifies if huff == null then {} else {huff.dest}
      ensures Valid() && calls == old(calls) && accepted == old(accepted) && failed == old(failed) && last == old(last)
    {
      hide PassOk, WindowHolds, PackBytes, ZigzagAll, Encoder.AllCodes, StateOk;
      if huff != null {
        huff.dest.MakeRoom(rooms(calls));
      }
    }
  }

  datatype Mode = PassThru | SaveAndPass | CrankDest

  class Controller {
    const k: Layout
    const sink: McuSink
    ghost const base: seq<seq<Block>>     // what the coder had accepted before this pass
    var iMcuRowNum: nat
    var mcuCtr: nat
    var mcuVertOffset: nat
    var mcuRowsPerIMcuRow: nat
    var wholeImage: seq<seq<seq<Block>>>  // the virtual arrays: rows of padded components

    /** start_pass_coef */
    constructor (k: Layout, sink: McuSink, wholeImage: seq<seq<seq<Block>>>)
      requires k.Ok() && sink.Valid() && !sink.failed && SinkFits(k, sink)
      ensures this.k == k && this.sink == sink && base == sink.accepted && this.wholeImage == wholeImage
      ensures Valid() && iMcuRowNum == 0
    {
      hide McuSink.Valid, SinkFits, Layout.Done, Layout.Before, Layout.Rows, Layout.Across, LastOf, CeilDiv;
      this.k, this.sink, this.wholeImage := k, sink, wholeImage;
      base := sink.accepted;
      iMcuRowNum, mcuCtr, mcuVertOffset := 0, 0, 0;
      mcuRowsPerIMcuRow := k.Rows(0);
      new;
      assert this !in sink.Repr();
      NothingDone(k, base);
      RowsPositive(k, 0);
    }

    static lemma NothingDone(k: Layout, base: seq<seq<Block>>)
      requires k.Ok()
      ensures base + k.Done(0, 0, 0) == base
    {}

    static lemma RowsPositive(k: Layout, r: nat)
      requires k.Ok()
      ensures k.Rows(r) > 0 && k.Across() > 0
    {
      hide CeilDiv, LastOf;
      var c := k.Comp(0);
      assert k.im.ComponentOk(c);
      McusHoldBlocks(k.im, c);
      LastOfIs(c.heightInBlocks, c.v);
    }

    /** The counters are at a position of the scan, and exactly the MCUs before it have been accepted. */
    ghost predicate Valid()
      reads this, sink, sink.Repr()
    {
      && k.Ok() && sink.Valid() && SinkFits(k, sink) && mcuRowsPerIMcuRow == k.Rows(iMcuRowNum) && mcuVertOffset < k.Rows(iMcuRowNum) && mcuCtr < k.Across()
      && sink.accepted == base + k.Done(iMcuRowNum, mcuVertOffset, mcuCtr) && (sink.failed ==> sink.accepted + [sink.last] <= base + k.Before(k.im.totalRows))
    }

    /** The encoder's MCUs are the scan's. */
    static ghost predicate SinkFits(k: Layout, sink: McuSink)
      requires k.Ok()
    {
      sink.huff != null ==> |sink.scan.membership| == McuSize(k, |k.which|)
    }

    /** start_iMCU_row */
    method StartIMcuRow()
      requires k.Ok()
      modifies this`mcuRowsPerIMcuRow, this`mcuCtr, this`mcuVertOffset
      ensures mcuRowsPerIMcuRow == k.Rows(iMcuRowNum) && mcuCtr == 0 && mcuVertOffset == 0
    {
      hide LastOf;
      if k.Interleaved() {
        mcuRowsPerIMcuRow := 1;
      } else if iMcuRowNum + 1 < k.im.totalRows {
        mcuRowsPerIMcuRow := k.Comp(0).v;
      } else {
        mcuRowsPerIMcuRow := LastOf(k.Comp(0).heightInBlocks, k.Comp(0).v);
      }
      mcuCtr, mcuVertOffset := 0, 0;
    }

    /** One row of an MCU's component: real blocks and dummies at the right edge, or all dummies. */
    method AddRow(i: nat, r: nat, yoffset: nat, x: nat, yindex: nat, mcu: seq<Block>) returns (mcu': seq<Block>)
      requires k.Ok() && i < |k.which| && r < k.im.totalRows && yoffset < k.Rows(r) && x < k.Across() && yindex < k.H(i)
      requires yindex > 0 ==> mcu != [] && mcu[|mcu| - 1] == LastAbove(i, r, yoffset, x, yindex)
      ensures mcu' == mcu + RowBlocks(k.planes[k.which[i]], k.Comp(i), k.Top(i, r) + yoffset + yindex, k.Left(i, x), k.W(i))
    {
      hide CeilDiv, LastOf, RowBlocks, Padded, Dummy;
      RealRow(k, i, r, yoffset, yindex);
      RealCols(k, i, x);
      var c, p := k.Comp(i), k.planes[k.which[i]];
      ghost var row, col := k.Top(i, r) + yoffset + yindex, k.Left(i, x);
      var blockcnt := if x + 1 < k.Across() then k.W(i) else if k.Interleaved() then LastOf(c.widthInBlocks, c.h) else 1;
      if r + 1 < k.im.totalRows || yoffset + yindex < LastOf(c.heightInBlocks, c.v) {
        mcu' := AddRealRow(p, c, k.Top(i, r) + yoffset + yindex, k.Left(i, x), blockcnt, k.W(i), mcu);
      } else {
        OnlyInterleaved(i, r, yoffset, yindex);
        mcu' := AddDummyRow(p, c, k.Top(i, r) + yoffset + yindex, x, mcu);
      }
    }

    /** The last block of the MCU's row above. */
    ghost function LastAbove(i: nat, r: nat, yoffset: nat, x: nat, yindex: nat): Block
      requires k.Ok() && i < |k.which| && yindex > 0
    {
      Padded(k.planes[k.which[i]], k.Comp(i), k.Top(i, r) + yoffset + yindex - 1, k.Left(i, x) + k.W(i) - 1)
    }

    /** Bottom dummies occur only in interleaved scans, and never in the first row of an MCU. */
    lemma OnlyInterleaved(i: nat, r: nat, yoffset: nat, yindex: nat)
      requires k.Ok() && i < |k.which| && r < k.im.totalRows && yoffset < k.Rows(r) && yindex < k.H(i)
      requires k.Top(i, r) + yoffset + yindex >= k.Comp(i).heightInBlocks
      ensures yindex > 0 && k.W(i) == k.Comp(i).h
    {
      RealRow(k, i, r, yoffset, yindex);
    }

    /** forward_DCT for blockcnt real blocks, then zeroed blocks with the DC of the one before. */
    static method AddRealRow(p: Plane, c: Component, row: nat, col: nat, blockcnt: nat, w: nat, mcu: seq<Block>) returns (mcu': seq<Block>)
      requires PlaneOk(p, c) && row < c.heightInBlocks && 1 <= blockcnt <= w && col + blockcnt <= c.widthInBlocks
      requires blockcnt < w ==> col + blockcnt == c.widthInBlocks
      ensures mcu' == mcu + RowBlocks(p, c, row, col, w)
    {
      hide RowBlocks, Dummy;
      RealBlocks(p, c, row, col, blockcnt);
      mcu' := mcu + p[row][col..col + blockcnt];
      var bi := blockcnt;
      while bi < w
        invariant blockcnt <= bi <= w && mcu' == mcu + RowBlocks(p, c, row, col, bi)
      {
        NextRightDummy(p, c, row, col, bi);
        mcu' := mcu' + [Dummy(mcu'[|mcu'| - 1][0])];
        bi := bi + 1;
      }
    }

    /** A row of dummy blocks with the DC of the block before the row. */
    static method AddDummyRow(p: Plane, c: Component, row: nat, x: nat, mcu: seq<Block>) returns (mcu': seq<Block>)
      requires PlaneOk(p, c) && row >= c.heightInBlocks && mcu != []
      requires mcu[|mcu| - 1] == Padded(p, c, row - 1, x * c.h + (c.h - 1))
      ensures mcu' == mcu + RowBlocks(p, c, row, x * c.h, c.h)
    {
      hide RowBlocks, Dummy, Padded;
      mcu' := mcu;
      var bi := 0;
      NoBlocks(p, c, row, x * c.h);
      assert mcu + [] == mcu;
      while bi < c.h
        invariant bi <= c.h && mcu' == mcu + RowBlocks(p, c, row, x * c.h, bi)
      {
        NextBottomDummy(p, c, row, x, bi);
        mcu' := mcu' + [Dummy(mcu[|mcu| - 1][0])];
        bi := bi + 1;
      }
    }

    static lemma NoBlocks(p: Plane, c: Component, row: nat, col: nat)
      requires PlaneOk(p, c)
      ensures RowBlocks(p, c, row, col, 0) == []
    {}

    /** One component's blocks of an MCU. */
    method AddComponent(i: nat, r: nat, yoffset: nat, x: nat, mcu: seq<Block>) returns (mcu': seq<Block>)
      requires k.Ok() && i < |k.which| && r < k.im.totalRows && yoffset < k.Rows(r) && x < k.Across()
      ensures mcu' == mcu + CompBlocks(k.planes[k.which[i]], k.Comp(i), k.Top(i, r) + yoffset, k.Left(i, x), k.W(i), k.H(i))
    {
      hide RowBlocks, CompBlocks, Padded, LastOf, CeilDiv;
      ghost var p, c, row, col := k.planes[k.which[i]], k.Comp(i), k.Top(i, r) + yoffset, k.Left(i, x);
      mcu' := mcu;
      var yindex := 0;
      NoRows(p, c, row, col, k.W(i));
      assert mcu + [] == mcu;
      RealCols(k, i, x);
      while yindex < k.H(i)
        invariant yindex <= k.H(i) && mcu' == mcu + CompBlocks(p, c, row, col, k.W(i), yindex)
      {
        if yindex > 0 {
          LastOfRow(p, c, row, col, k.W(i), yindex);
        }
        NextRow(p, c, row, col, k.W(i), yindex);
        assert mcu + (CompBlocks(p, c, row, col, k.W(i), yindex) + RowBlocks(p, c, row + yindex, col, k.W(i)))
            == mcu' + RowBlocks(p, c, row + yindex, col, k.W(i));
        mcu' := AddRow(i, r, yoffset, x, yindex, mcu');
        yindex := yindex + 1;
      }
    }

    static lemma NoRows(p: Plane, c: Component, row: nat, col: nat, w: nat)
      requires PlaneOk(p, c)
      ensures CompBlocks(p, c, row, col, w, 0) == []
    {}

    static lemma NextRow(p: Plane, c: Component, row: nat, col: nat, w: nat, m: nat)
      requires PlaneOk(p, c)
      ensures CompBlocks(p, c, row, col, w, m + 1) == CompBlocks(p, c, row, col, w, m) + RowBlocks(p, c, row + m, col, w)
    {}

    /** The MCU that compress_data constructs from the current strip of the image. */
    method BuildMcu(r: nat, yoffset: nat, x: nat) returns (mcu: seq<Block>)
      requires k.Ok() && r < k.im.totalRows && yoffset < k.Rows(r) && x < k.Across()
      ensures mcu == k.Mcu(r, yoffset, x)
    {
      hide CompBlocks, LastOf, CeilDiv;
      mcu := [];
      var i := 0;
      while i < |k.which|
        invariant i <= |k.which| && mcu == k.McuPart(r, yoffset, x, i)
      {
        mcu := AddComponent(i, r, yoffset, x, mcu);
        i := i + 1;
      }
    }

    /** The MCU at a position of the scan goes to the entropy coder. */
    method HandOver(mcu: seq<Block>, yoffset: nat, col: nat) returns (ok: bool)
      requires k.Ok() && sink.Valid() && !sink.failed && SinkFits(k, sink)
      requires iMcuRowNum < k.im.totalRows && yoffset < k.Rows(iMcuRowNum) && col < k.Across()
      requires mcu == k.Mcu(iMcuRowNum, yoffset, col) && sink.accepted == base + k.Done(iMcuRowNum, yoffset, col)
      modifies sink.Repr()
      ensures sink.Valid() && (ok ==> !sink.failed) && sink.Refused() == old(sink.Refused()) + if ok then 0 else 1
      ensures sink.accepted == base + k.Done(iMcuRowNum, yoffset, if ok then col + 1 else col)
      ensures sink.failed ==> sink.accepted + [sink.last] <= base + k.Before(k.im.totalRows)
    {
      hide McuSink.Valid, Layout.Mcu, Layout.Rows, Layout.Across, Layout.Done, Layout.Before, Layout.IRowMcus, Layout.RowMcus, Layout.McuPart, LastOf, CeilDiv;
      DoneNextCol(k, iMcuRowNum, yoffset, col);
      DonePrefix(k, iMcuRowNum, yoffset, col);
      MatchesSize(iMcuRowNum, yoffset, col);
      ok := sink.EncodeMcu(mcu);
      assert base + (k.Done(iMcuRowNum, yoffset, col) + [mcu]) <= base + k.Before(k.im.totalRows);
      assert base + k.Done(iMcuRowNum, yoffset, col) + [mcu] == base + (k.Done(iMcuRowNum, yoffset, col) + [mcu]);
    }

    lemma MatchesSize(r: nat, y: nat, x: nat)
      requires k.Ok()
      ensures |k.Mcu(r, y, x)| == McuSize(k, |k.which|)
    {
      McuHasSize(k, r, y, x, |k.which|);
    }

    /** compress_data: one iMCU row, or up to the MCU that the entropy coder refused. */
    method CompressData() returns (ok: bool)
      requires Valid() && !sink.failed && iMcuRowNum < k.im.totalRows
      modifies this`iMcuRowNum, this`mcuCtr, this`mcuVertOffset, this`mcuRowsPerIMcuRow, sink.Repr()
      ensures Valid() && (ok ==> !sink.failed)
      ensures sink.Refused() == old(sink.Refused()) + if ok then 0 else 1
      ensures ok ==> iMcuRowNum == old(iMcuRowNum) + 1 && mcuVertOffset == 0 && mcuCtr == 0
      ensures !ok ==> iMcuRowNum == old(iMcuRowNum)
    {
      hide McuSink.Valid, McuSize, SinkFits, Layout.Mcu, Layout.Done, Layout.Before, Layout.IRowMcus, Layout.RowMcus, Layout.Across, Layout.Rows, LastOf, CeilDiv;
      var yoffset := mcuVertOffset;
      while yoffset < mcuRowsPerIMcuRow
        invariant yoffset <= mcuRowsPerIMcuRow == k.Rows(iMcuRowNum) && iMcuRowNum == old(iMcuRowNum) && mcuCtr < k.Across()
        invariant yoffset == mcuRowsPerIMcuRow ==> mcuCtr == 0
        invariant sink.Valid() && !sink.failed && sink.Refused() == old(sink.Refused())
        invariant sink.accepted == base + k.Done(iMcuRowNum, yoffset, mcuCtr)
      {
        var col := mcuCtr;
        while col < k.Across()
          invariant col <= k.Across() && iMcuRowNum == old(iMcuRowNum) && yoffset < mcuRowsPerIMcuRow == k.Rows(iMcuRowNum)
          invariant sink.Valid() && !sink.failed && sink.Refused() == old(sink.Refused())
          invariant sink.accepted == base + k.Done(iMcuRowNum, yoffset, col)
        {
          var mcu := BuildMcu(iMcuRowNum, yoffset, col);
          ok := HandOver(mcu, yoffset, col);
          if !ok {
            mcuVertOffset, mcuCtr := yoffset, col;
            return;
          }
          col := col + 1;
        }
        DoneNextRow(k, iMcuRowNum, yoffset);
        RowsPositive(k, iMcuRowNum);
        mcuCtr := 0;
        yoffset := yoffset + 1;
      }
      NextIRow();
      ok := true;
    }

    /** The counters move on to the next iMCU row. */
    method NextIRow()
      requires k.Ok() && sink.Valid() && !sink.failed && SinkFits(k, sink) && sink.accepted == base + k.Done(iMcuRowNum, k.Rows(iMcuRowNum), 0)
      modifies this`iMcuRowNum, this`mcuCtr, this`mcuVertOffset, this`mcuRowsPerIMcuRow
      ensures Valid() && iMcuRowNum == old(iMcuRowNum) + 1 && mcuVertOffset == 0 && mcuCtr == 0
    {
      hide McuSink.Valid, SinkFits, Layout.Done, Layout.Before, Layout.IRowMcus, Layout.RowMcus, Layout.Across, Layout.Rows, LastOf, CeilDiv;
      DoneNextIRow(k, iMcuRowNum);
      assert this !in sink.Repr();
      iMcuRowNum := iMcuRowNum + 1;
      StartIMcuRow();
      RowsPositive(k, iMcuRowNum);
    }

    // ----- whole-image buffers -----

    /** The virtual arrays have the padded size of each component. */
    ghost predicate Allocated()
      requires k.Ok()
      reads this`wholeImage
    {
      && |wholeImage| == |k.im.comps|
      && forall ci :: 0 <= ci < |wholeImage| ==> |wholeImage[ci]| == k.im.totalRows * k.im.comps[ci].v
    }

    /** A row of the padded component. */
    static ghost function PaddedRow(k: Layout, ci: nat, row: nat): seq<Block>
      requires k.Ok() && ci < |k.im.comps|
    {
      RowBlocks(k.planes[ci], k.im.comps[ci], row, 0, k.im.McusAcross() * k.im.comps[ci].h)
    }

    /** The first n of these rows are the padded rows of component ci. */
    static ghost predicate RowsAre(k: Layout, rows: seq<seq<Block>>, ci: nat, n: nat)
      requires k.Ok() && ci < |k.im.comps|
    {
      n <= |rows| && forall j :: 0 <= j < n ==> rows[j] == PaddedRow(k, ci, j)
    }

    /** The rows of component ci before `row` have been saved. */
    ghost predicate SavedRows(ci: nat, row: nat)
      requires k.Ok() && ci < |k.im.comps| && Allocated()
      reads this`wholeImage
    {
      RowsAre(k, wholeImage[ci], ci, row)
    }

    /** iMCU rows before r have been saved for all components. */
    ghost predicate Saved(r: nat)
      requires k.Ok()
      reads this`wholeImage
    {
      Allocated() && forall ci :: 0 <= ci < |k.im.comps| ==> SavedRows(ci, r * k.im.comps[ci].v)
    }

    /** A row of real blocks, completed with dummies at the right margin. */
    static method BuildRealRow(p: Plane, c: Component, row: nat, width: nat) returns (blocks: seq<Block>)
      requires PlaneOk(p, c) && row < c.heightInBlocks && width == c.widthInBlocks + (if c.widthInBlocks % c.h > 0 then c.h - c.widthInBlocks % c.h else 0)
      ensures blocks == RowBlocks(p, c, row, 0, width)
    {
      hide RowBlocks, Dummy;
      var ndummy := c.widthInBlocks % c.h;
      if ndummy > 0 {
        ndummy := c.h - ndummy;
      }
      blocks := p[row];
      RealBlocks(p, c, row, 0, c.widthInBlocks);
      assert p[row][0..0 + c.widthInBlocks] == p[row];
      if ndummy > 0 {
        var lastDC := blocks[|blocks| - 1][0];
        var bi := 0;
        while bi < ndummy
          invariant 0 <= bi <= ndummy && blocks == RowBlocks(p, c, row, 0, c.widthInBlocks + bi)
          invariant |blocks| > 0 && blocks[|blocks| - 1][0] == lastDC
        {
          NextRightDummy(p, c, row, 0, c.widthInBlocks + bi);
          DummyDc(lastDC);
          blocks := blocks + [Dummy(lastDC)];
          bi := bi + 1;
        }
      }
    }

    static lemma DummyDc(dc: int)
      ensures Dummy(dc)[0] == dc
    {}

    /** A row of dummies: within each MCU the DC of the MCU's last block in the row above. */
    static method BuildDummyRow(p: Plane, c: Component, row: nat, above: seq<Block>, mcusAcross: nat) returns (blocks: seq<Block>)
      requires PlaneOk(p, c) && row >= c.heightInBlocks && above == RowBlocks(p, c, row - 1, 0, mcusAcross * c.h)
      ensures blocks == RowBlocks(p, c, row, 0, mcusAcross * c.h)
    {
      hide RowBlocks, Dummy, Padded;
      blocks := [];
      NoBlocks(p, c, row, 0);
      var mcu := 0;
      while mcu < mcusAcross
        invariant mcu <= mcusAcross && blocks == RowBlocks(p, c, row, 0, mcu * c.h)
      {
        MulLess(mcu, mcusAcross, c.h);
        BlockAt(p, c, row - 1, mcusAcross * c.h, mcu * c.h + (c.h - 1));
        var lastDC := above[mcu * c.h + (c.h - 1)][0];
        var bi := 0;
        while bi < c.h
          invariant bi <= c.h && blocks == RowBlocks(p, c, row, 0, mcu * c.h + bi)
        {
          NextInRow(p, c, row, mcu, bi);
          blocks := blocks + [Dummy(lastDC)];
          bi := bi + 1;
        }
        mcu := mcu + 1;
      }
    }

    static lemma {:induction false} BlockAt(p: Plane, c: Component, row: nat, w: nat, i: nat)
      requires PlaneOk(p, c) && i < w
      ensures RowBlocks(p, c, row, 0, w)[i] == Padded(p, c, row, i)
    {
      hide Padded;
      if i < w - 1 {
        BlockAt(p, c, row, w - 1, i);
      }
    }

    static lemma NextInRow(p: Plane, c: Component, row: nat, mcu: nat, bi: nat)
      requires PlaneOk(p, c) && row >= c.heightInBlocks && bi < c.h
      ensures RowBlocks(p, c, row, 0, mcu * c.h + bi + 1)
           == RowBlocks(p, c, row, 0, mcu * c.h + bi) + [Dummy(Padded(p, c, row - 1, mcu * c.h + (c.h - 1))[0])]
    {
      hide Dummy;
      DivModUnique(mcu * c.h + bi, c.h, mcu, bi);
    }

    /** Widths agree: real blocks and right-margin dummies make up whole MCUs. */
    static lemma PaddedWidth(k: Layout, ci: nat)
      requires k.Ok() && ci < |k.im.comps|
      ensures var c := k.im.comps[ci];
              c.widthInBlocks + (if c.widthInBlocks % c.h > 0 then c.h - c.widthInBlocks % c.h else 0) == k.im.McusAcross() * c.h
    {
      hide CeilDiv;
      var c := k.im.comps[ci];
      assert k.im.ComponentOk(c);
      McusHoldBlocks(k.im, c);
      Distribute(k.im.McusAcross() - 1, 1, c.h);
    }

    /** Real block rows of an iMCU row. */
    static lemma RealRows(k: Layout, ci: nat, r: nat, j: nat)
      requires k.Ok() && ci < |k.im.comps| && r < k.im.totalRows && j < k.im.comps[ci].v
      ensures var c := k.im.comps[ci];
              var n := if r + 1 < k.im.totalRows then c.v else LastOf(c.heightInBlocks, c.v);
              && 1 <= n <= c.v && (j < n <==> r * c.v + j < c.heightInBlocks)
              && r * c.v + c.v <= k.im.totalRows * c.v
    {
      hide CeilDiv, LastOf;
      var c := k.im.comps[ci];
      assert k.im.ComponentOk(c);
      McusHoldBlocks(k.im, c);
      LastOfIs(c.heightInBlocks, c.v);
      RealRowNumbers(r, k.im.totalRows, c.v, c.heightInBlocks, LastOf(c.heightInBlocks, c.v), j, 0);
      MulLess(r, k.im.totalRows, c.v);
    }

    /** One row of the strip is built and stored. */
    method SaveRow(ci: nat, r: nat, j: nat)
      requires k.Ok() && ci < |k.im.comps| && r < k.im.totalRows && j < k.im.comps[ci].v
      requires Allocated() && SavedRows(ci, r * k.im.comps[ci].v + j)
      modifies this`wholeImage
      ensures Allocated() && SavedRows(ci, r * k.im.comps[ci].v + j + 1)
      ensures forall d :: 0 <= d < |k.im.comps| && d != ci ==> wholeImage[d] == old(wholeImage)[d]
    {
      hide CeilDiv, LastOf, RowBlocks;
      RealRows(k, ci, r, j);
      PaddedWidth(k, ci);
      var c, p := k.im.comps[ci], k.planes[ci];
      var row := r * c.v + j;
      var block_rows := if r + 1 < k.im.totalRows then c.v else LastOf(c.heightInBlocks, c.v);
      var blocks;
      if j < block_rows {
        blocks := BuildRealRow(p, c, row, k.im.McusAcross() * c.h);
      } else {
        blocks := BuildDummyRow(p, c, row, wholeImage[ci][row - 1], k.im.McusAcross());
      }
      Store(ci, row, blocks);
    }

    method Store(ci: nat, row: nat, blocks: seq<Block>)
      requires k.Ok() && ci < |k.im.comps| && Allocated() && SavedRows(ci, row) && row < |wholeImage[ci]|
      requires blocks == PaddedRow(k, ci, row)
      modifies this`wholeImage
      ensures Allocated() && SavedRows(ci, row + 1)
      ensures forall d :: 0 <= d < |k.im.comps| && d != ci ==> wholeImage[d] == old(wholeImage)[d]
    {
      hide PaddedRow;
      var rows: seq<seq<Block>> := wholeImage[ci][row := blocks];
      wholeImage := wholeImage[ci := rows];
    }

    /** The strip of one component. */
    method SaveComponent(ci: nat, r: nat)
      requires k.Ok() && ci < |k.im.comps| && r < k.im.totalRows && Allocated() && SavedRows(ci, r * k.im.comps[ci].v)
      modifies this`wholeImage
      ensures Allocated() && SavedRows(ci, (r + 1) * k.im.comps[ci].v)
      ensures forall d :: 0 <= d < |k.im.comps| && d != ci ==> wholeImage[d] == old(wholeImage)[d]
    {
      hide RowsAre;
      var block_row := 0;
      while block_row < k.im.comps[ci].v
        invariant block_row <= k.im.comps[ci].v && Allocated() && SavedRows(ci, r * k.im.comps[ci].v + block_row)
        invariant forall d :: 0 <= d < |k.im.comps| && d != ci ==> wholeImage[d] == old(wholeImage)[d]
      {
        SaveRow(ci, r, block_row);
        block_row := block_row + 1;
      }
      Distribute(r, 1, k.im.comps[ci].v);
    }

    /** The first half of compress_first_pass: the current strip of every component goes into the virtual arrays. */
    method SaveStrip()
      requires k.Ok() && iMcuRowNum < k.im.totalRows && Saved(iMcuRowNum)
      modifies this`wholeImage
      ensures Saved(iMcuRowNum + 1)
    {
      hide RowsAre;
      var ci := 0;
      while ci < |k.im.comps|
        invariant ci <= |k.im.comps| && Allocated()
        invariant forall d :: 0 <= d < ci ==> SavedRows(d, (iMcuRowNum + 1) * k.im.comps[d].v)
        invariant forall d :: ci <= d < |k.im.comps| ==> SavedRows(d, iMcuRowNum * k.im.comps[d].v)
      {
        SaveComponent(ci, iMcuRowNum);
        ci := ci + 1;
      }
    }

    /** The place of an MCU's block in the virtual arrays. */
    static lemma PlaceFits(k: Layout, i: nat, r: nat, y: nat, x: nat, yindex: nat, xindex: nat)
      requires k.Ok() && i < |k.which| && r < k.im.totalRows && y < k.Rows(r) && x < k.Across() && yindex < k.H(i) && xindex < k.W(i)
      ensures var c := k.Comp(i);
              && r * c.v + y + yindex < (r + 1) * c.v && x * k.W(i) + xindex < k.im.McusAcross() * c.h
    {
      hide CeilDiv, LastOf, Layout.Rows;
      var c := k.Comp(i);
      assert k.im.ComponentOk(c);
      OffsetsFit(k, i, r, y, yindex);
      Distribute(r, 1, c.v);
      McusHoldBlocks(k.im, c);
      Distribute(k.im.McusAcross() - 1, 1, c.h);
      LastOfIs(c.widthInBlocks, c.h);
      if k.Interleaved() {
        MulLess(x, k.im.McusAcross(), c.h);
      }
    }

    static lemma SavedBlock(k: Layout, rows: seq<seq<Block>>, i: nat, r: nat, y: nat, x: nat, yindex: nat, xindex: nat, row: nat, col: nat)
      requires k.Ok() && i < |k.which| && r < k.im.totalRows && y < k.Rows(r) && x < k.Across() && yindex < k.H(i) && xindex < k.W(i)
      requires RowsAre(k, rows, k.which[i], (r + 1) * k.Comp(i).v)
      requires row == k.Top(i, r) + y + yindex && col == k.Left(i, x) + xindex
      ensures row < |rows| && col < |rows[row]| && rows[row][col] == Padded(k.planes[k.which[i]], k.Comp(i), row, col)
    {
      hide CeilDiv, LastOf, Layout.Rows, Layout.Across, Padded, RowBlocks;
      PlaceFits(k, i, r, y, x, yindex, xindex);
      var c := k.Comp(i);
      assert rows[row] == PaddedRow(k, k.which[i], row);
      BlockAt(k.planes[k.which[i]], c, row, k.im.McusAcross() * c.h, col);
    }

    static lemma NextBlock(p: Plane, c: Component, row: nat, col: nat, w: nat)
      requires PlaneOk(p, c)
      ensures RowBlocks(p, c, row, col, w + 1) == RowBlocks(p, c, row, col, w) + [Padded(p, c, row, col + w)]
    {}

    /** The loop over the columns of an MCU. */
    method TakeRow(i: nat, y: nat, x: nat, yindex: nat, mcu: seq<Block>) returns (mcu': seq<Block>)
      requires k.Ok() && i < |k.which| && iMcuRowNum < k.im.totalRows && y < k.Rows(iMcuRowNum) && x < k.Across() && yindex < k.H(i)
      requires Saved(iMcuRowNum + 1)
      ensures mcu' == mcu + RowBlocks(k.planes[k.which[i]], k.Comp(i), k.Top(i, iMcuRowNum) + y + yindex, k.Left(i, x), k.W(i))
    {
      hide RowBlocks, Padded, RowsAre, Layout.Rows, Layout.Across, CeilDiv, LastOf;
      ghost var p, c, row, col := k.planes[k.which[i]], k.Comp(i), k.Top(i, iMcuRowNum) + y + yindex, k.Left(i, x);
      mcu' := mcu;
      NoBlocks(p, c, row, col);
      assert mcu + [] == mcu;
      var xindex := 0;
      assert SavedRows(k.which[i], (iMcuRowNum + 1) * k.im.comps[k.which[i]].v);
      while xindex < k.W(i)
        invariant xindex <= k.W(i) && mcu' == mcu + RowBlocks(p, c, row, col, xindex)
      {
        SavedBlock(k, wholeImage[k.which[i]], i, iMcuRowNum, y, x, yindex, xindex, row, col + xindex);
        NextBlock(p, c, row, col, xindex);
        mcu' := mcu' + [wholeImage[k.which[i]][k.Top(i, iMcuRowNum) + y + yindex][k.Left(i, x) + xindex]];
        xindex := xindex + 1;
      }
    }

    method TakeComponent(i: nat, y: nat, x: nat, mcu: seq<Block>) returns (mcu': seq<Block>)
      requires k.Ok() && i < |k.which| && iMcuRowNum < k.im.totalRows && y < k.Rows(iMcuRowNum) && x < k.Across() && Saved(iMcuRowNum + 1)
      ensures mcu' == mcu + CompBlocks(k.planes[k.which[i]], k.Comp(i), k.Top(i, iMcuRowNum) + y, k.Left(i, x), k.W(i), k.H(i))
    {
      hide RowBlocks, CompBlocks, Padded, LastOf, CeilDiv, Saved, Layout.Rows, Layout.Across;
      ghost var p, c, row, col := k.planes[k.which[i]], k.Comp(i), k.Top(i, iMcuRowNum) + y, k.Left(i, x);
      mcu' := mcu;
      var yindex := 0;
      NoRows(p, c, row, col, k.W(i));
      assert mcu + [] == mcu;
      while yindex < k.H(i)
        invariant yindex <= k.H(i) && mcu' == mcu + CompBlocks(p, c, row, col, k.W(i), yindex)
      {
        NextRow(p, c, row, col, k.W(i), yindex);
        assert mcu + (CompBlocks(p, c, row, col, k.W(i), yindex) + RowBlocks(p, c, row + yindex, col, k.W(i)))
            == mcu' + RowBlocks(p, c, row + yindex, col, k.W(i));
        mcu' := TakeRow(i, y, x, yindex, mcu');
        yindex := yindex + 1;
      }
    }

    /** The MCU that compress_output collects from the virtual arrays. */
    method TakeMcu(y: nat, x: nat) returns (mcu: seq<Block>)
      requires k.Ok() && iMcuRowNum < k.im.totalRows && y < k.Rows(iMcuRowNum) && x < k.Across() && Saved(iMcuRowNum + 1)
      ensures mcu == k.Mcu(iMcuRowNum, y, x)
    {
      hide CompBlocks, LastOf, CeilDiv, Saved;
      mcu := [];
      var i := 0;
      while i < |k.which|
        invariant i <= |k.which| && mcu == k.McuPart(iMcuRowNum, y, x, i)
      {
        mcu := TakeComponent(i, y, x, mcu);
        i := i + 1;
      }
    }

    /** compress_output: one iMCU row from the virtual arrays, or up to the MCU that was refused. */
    method CompressOutput() returns (ok: bool)
      requires Valid() && !sink.failed && iMcuRowNum < k.im.totalRows && Saved(iMcuRowNum + 1)
      modifies this`iMcuRowNum, this`mcuCtr, this`mcuVertOffset, this`mcuRowsPerIMcuRow, sink.Repr()
      ensures Valid() && (ok ==> !sink.failed)
      ensures sink.Refused() == old(sink.Refused()) + if ok then 0 else 1
      ensures ok ==> iMcuRowNum == old(iMcuRowNum) + 1 && mcuVertOffset == 0 && mcuCtr == 0
      ensures !ok ==> iMcuRowNum == old(iMcuRowNum)
    {
      hide McuSink.Valid, McuSize, SinkFits, Layout.Mcu, Layout.Done, Layout.Before, Layout.IRowMcus, Layout.RowMcus, Layout.Across, Layout.Rows, LastOf, CeilDiv, Saved;
      var yoffset := mcuVertOffset;
      while yoffset < mcuRowsPerIMcuRow
        invariant yoffset <= mcuRowsPerIMcuRow == k.Rows(iMcuRowNum) && iMcuRowNum == old(iMcuRowNum) && mcuCtr < k.Across()
        invariant yoffset == mcuRowsPerIMcuRow ==> mcuCtr == 0
        invariant sink.Valid() && !sink.failed && sink.Refused() == old(sink.Refused())
        invariant sink.accepted == base + k.Done(iMcuRowNum, yoffset, mcuCtr)
      {
        var col := mcuCtr;
        while col < k.Across()
          invariant col <= k.Across() && iMcuRowNum == old(iMcuRowNum) && yoffset < mcuRowsPerIMcuRow == k.Rows(iMcuRowNum)
          invariant sink.Valid() && !sink.failed && sink.Refused() == old(sink.Refused())
          invariant sink.accepted == base + k.Done(iMcuRowNum, yoffset, col)
        {
          var mcu := TakeMcu(yoffset, col);
          ok := HandOver(mcu, yoffset, col);
          if !ok {
            mcuVertOffset, mcuCtr := yoffset, col;
            return;
          }
          col := col + 1;
        }
        DoneNextRow(k, iMcuRowNum, yoffset);
        RowsPositive(k, iMcuRowNum);
        mcuCtr := 0;
        yoffset := yoffset + 1;
      }
      NextIRow();
      ok := true;
    }

    static lemma FewerRows(k: Layout, rows: seq<seq<Block>>, ci: nat, m: nat, n: nat)
      requires k.Ok() && ci < |k.im.comps| && m <= n && RowsAre(k, rows, ci, n)
      ensures RowsAre(k, rows, ci, m)
    {}

    lemma SavedBefore(r: nat, n: nat)
      requires k.Ok() && r <= n && Saved(n)
      ensures Saved(r)
    {
      hide RowsAre;
      forall ci | 0 <= ci < |k.im.comps|
        ensures SavedRows(ci, r * k.im.comps[ci].v)
      {
        MulLessEq(r, n, k.im.comps[ci].v);
        assert SavedRows(ci, n * k.im.comps[ci].v);
        FewerRows(k, wholeImage[ci], ci, r * k.im.comps[ci].v, n * k.im.comps[ci].v);
      }
    }

    /** compress_first_pass: after a suspension the strip is saved again, with the same contents. */
    method CompressFirstPass() returns (ok: bool)
      requires Valid() && !sink.failed && iMcuRowNum < k.im.totalRows && Saved(iMcuRowNum)
      modifies this, sink.Repr()
      ensures Valid() && Saved(iMcuRowNum) && Saved(old(iMcuRowNum) + 1) && (ok ==> !sink.failed)
      ensures sink.Refused() == old(sink.Refused()) + if ok then 0 else 1
      ensures ok ==> iMcuRowNum == old(iMcuRowNum) + 1 && mcuVertOffset == 0 && mcuCtr == 0
      ensures !ok ==> iMcuRowNum == old(iMcuRowNum)
    {
      hide McuSink.Valid, SinkFits, Saved, Layout.Done, Layout.Rows, Layout.Across, LastOf, CeilDiv;
      SaveStrip();
      SavedBefore(iMcuRowNum, iMcuRowNum + 1);
      ok := CompressOutput();
    }

    /** A whole pass, called again after every suspension. The buffered and the single-pass form hand over the
        same MCUs in the same order, whatever the entropy coder refuses in between. The pass is cut off after
        `patience` calls, of which all but the refused ones get through one iMCU row. */
    method RunPass(mode: Mode, patience: nat) returns (done: bool)
      requires Valid() && !sink.failed && iMcuRowNum == 0 && mcuVertOffset == 0 && mcuCtr == 0
      requires mode.SaveAndPass? ==> Saved(0)
      requires mode.CrankDest? ==> Saved(k.im.totalRows)
      modifies this, sink.Repr()
      ensures done ==> sink.accepted == base + k.Before(k.im.totalRows)
      ensures if mode.SaveAndPass? then done ==> Saved(k.im.totalRows) else wholeImage == old(wholeImage)
      ensures Valid()
      ensures done <==> !sink.failed && sink.Refused() - old(sink.Refused()) <= patience - k.im.totalRows
    {
      hide Saved, Layout.Done, Layout.Before, Layout.Rows, Layout.Across, LastOf, CeilDiv, McuSize, McuSink.Valid;
      var calls := 0;
      while iMcuRowNum < k.im.totalRows && calls < patience && !sink.failed
        invariant Valid() && iMcuRowNum <= k.im.totalRows && calls <= patience
        invariant calls == iMcuRowNum + (sink.Refused() - old(sink.Refused())) && (sink.failed ==> iMcuRowNum < k.im.totalRows)
        invariant iMcuRowNum == k.im.totalRows ==> mcuVertOffset == 0 && mcuCtr == 0
        invariant if mode.SaveAndPass? then Saved(iMcuRowNum) else wholeImage == old(wholeImage)
        invariant mode.CrankDest? ==> Saved(k.im.totalRows)
        decreases patience - calls
      {
        var ok;
        match mode {
          case PassThru => ok := CompressData();
          case SaveAndPass => ok := CompressFirstPass();
          case CrankDest =>
            SavedBefore(iMcuRowNum + 1, k.im.totalRows);
            ok := CompressOutput();
        }
        calls := calls + 1;
        if !ok {
          sink.AwaitRoom();
        }
      }
      done := iMcuRowNum == k.im.totalRows;
      if done {
        AllDone(k, iMcuRowNum);
      }
    }

    static lemma AllDone(k: Layout, r: nat)
      requires k.Ok()
      ensures k.Done(r, 0, 0) == k.Before(r)
    {
      assert k.IRowMcus(r, 0) == [] && k.RowMcus(r, 0, 0) == [];
      assert k.Before(r) + [] + [] == k.Before(r);
    }
  }
}
