/** Scanlines in, iMCU-row strips out: the preprocessor, the main controller with its suspension
    bookkeeping, and jpeg_write_scanlines. */
module RowControl {
  import opened Arithmetic
  import opened Geometry
  import opened RowSpec

  /** The coefficient controller as the main controller sees it. It must be offered the next strip of the
      image, again and again until it takes it; `takes` says what it answers to each call. */
  class StripSink {
    const src: Source
    const takes: nat -> bool
    var calls: nat
    ghost var taken: nat              // strips taken so far

    constructor (src: Source, takes: nat -> bool)
      ensures this.src == src && this.takes == takes && taken == calls == 0
    {
      this.src, this.takes := src, takes;
      calls, taken := 0, 0;
    }

    /** Calls that were refused so far. */
    ghost function Refused(): int
      reads this
    {
      calls - taken
    }

    /** The calls from m to n - 1 are answered with yes. */
    ghost predicate AllTaken(m: int, n: int) {
      forall i: nat :: m <= i < n ==> takes(i)
    }

    method CompressData(strip: Strip) returns (ok: bool)
      requires src.Ok() && taken < src.IMcuRows() && strip == src.StripAt(taken)
      modifies this
      ensures taken == (if ok then old(taken) + 1 else old(taken)) && calls == old(calls) + 1
      ensures ok <==> takes(old(calls))
    {
      ok := takes(calls);
      calls := calls + 1;
      if ok {
        taken := taken + 1;
      }
    }
  }

  /** expand_bottom_edge: rows from inputRows on become copies of the row before them. */
  method ExpandBottomEdge<T>(data: seq<T>, inputRows: nat, outputRows: nat) returns (data': seq<T>)
    requires 0 < inputRows <= outputRows <= |data|
    ensures |data'| == |data| && data'[..inputRows] == data[..inputRows] && data'[outputRows..] == data[outputRows..]
    ensures forall i :: inputRows <= i < outputRows ==> data'[i] == data[inputRows - 1]
  {
    data' := data;
    var row := inputRows;
    while row < outputRows
      invariant inputRows <= row <= outputRows && |data'| == |data|
      invariant forall i :: 0 <= i < |data| ==> data'[i] == if inputRows <= i < row then data[inputRows - 1] else data[i]
    {
      data' := data'[row := data'[inputRows - 1]];
      row := row + 1;
    }
  }

  /** The preprocessor. */
  class Prep {
    const src: Source
    var rowsToGo: nat
    var nextBufRow: nat
    var colorBuf: seq<Converted>

    /** start_pass_prep */
    constructor (src: Source)
      requires src.Ok()
      ensures this.src == src && Valid() && rowsToGo == src.Height()
    {
      this.src := src;
      rowsToGo, nextBufRow := src.Height(), 0;
      colorBuf := seq(src.maxV, _ => []);
    }

    /** Rows taken from the application so far. */
    ghost function Consumed(): int
      reads this`rowsToGo
    {
      src.Height() - rowsToGo
    }

    /** Whole row groups finished so far, when the image is not. */
    ghost predicate Valid()
      reads this
    {
      && src.Ok() && |colorBuf| == src.maxV && nextBufRow < src.maxV && rowsToGo <= src.Height()
      && (rowsToGo == 0 ==> nextBufRow == 0)
      && nextBufRow <= Consumed()
      && colorBuf[..nextBufRow] == src.RowsFrom(Consumed() - nextBufRow, nextBufRow)
    }

    /** With rows still to come, g whole row groups have been finished. */
    ghost predicate AtGroup(g: nat)
      reads this
    {
      Valid() && rowsToGo > 0 && Consumed() == g * src.maxV + nextBufRow
    }

    /** color_convert for numrows scanlines, stored from nextBufRow on. */
    method Convert(lines: seq<Row>, first: nat, numrows: nat, ghost at: nat)
      requires src.Ok() && |colorBuf| == src.maxV && nextBufRow + numrows <= src.maxV && first + numrows <= |lines|
      requires nextBufRow <= at && colorBuf[..nextBufRow] == src.RowsFrom(at - nextBufRow, nextBufRow)
      requires at + numrows <= src.Height() && lines[first..first + numrows] == src.rows[at..at + numrows]
      modifies this`colorBuf
      ensures |colorBuf| == src.maxV && colorBuf[..nextBufRow + numrows] == src.RowsFrom(at - nextBufRow, nextBufRow + numrows)
    {
      var i := 0;
      while i < numrows
        invariant i <= numrows && |colorBuf| == src.maxV
        invariant colorBuf[..nextBufRow + i] == src.RowsFrom(at - nextBufRow, nextBufRow + i)
      {
        assert lines[first + i] == lines[first..first + numrows][i] && src.rows[at + i] == src.rows[at..at + numrows][i];
        colorBuf := colorBuf[nextBufRow + i := src.convert(lines[first + i])];
        assert src.RowsFrom(at - nextBufRow, nextBufRow + i + 1) == src.RowsFrom(at - nextBufRow, nextBufRow + i) + [src.RowAt(at + i)];
        assert colorBuf[..nextBufRow + i + 1] == colorBuf[..nextBufRow + i] + [colorBuf[nextBufRow + i]];
        i := i + 1;
      }
    }

    /** The application presents scanlines from number base on. */
    ghost predicate Presented(lines: seq<Row>, base: nat) {
      base + |lines| <= src.Height() && lines == src.rows[base..base + |lines|]
    }

    /** The colour conversion buffer holds group g; the image may have ended within it. */
    ghost predicate Full(g: nat)
      reads this
    {
      && src.Ok() && nextBufRow == src.maxV && colorBuf == src.RowsFrom(g * src.maxV, src.maxV) && rowsToGo <= src.Height()
      && (if rowsToGo > 0 then Consumed() == (g + 1) * src.maxV else g * src.maxV < src.Height() <= (g + 1) * src.maxV)
    }

    /** The first half of the loop: convert rows, and pad the buffer at the bottom of the image. */
    method TakeRows(lines: seq<Row>, inRowCtr: nat, ghost base: nat, ghost g: nat) returns (next: nat)
      requires AtGroup(g) && Presented(lines, base) && inRowCtr < |lines| && Consumed() == base + inRowCtr
      modifies this
      ensures inRowCtr < next <= |lines| && Consumed() == base + next
      ensures Full(g) || (AtGroup(g) && next == |lines|)
    {
      var inrows := |lines| - inRowCtr;
      var numrows := src.maxV - nextBufRow;
      numrows := if numrows < inrows then numrows else inrows;
      ghost var at := base + inRowCtr;
      SliceMatches(lines, base, inRowCtr, numrows);
      Convert(lines, inRowCtr, numrows, at);
      next := inRowCtr + numrows;
      nextBufRow := nextBufRow + numrows;
      rowsToGo := rowsToGo - numrows;
      Distribute(g, 1, src.maxV);
      if rowsToGo == 0 && nextBufRow < src.maxV {
        colorBuf := ExpandBottomEdge(colorBuf, nextBufRow, src.maxV);
        PaddedRows(colorBuf, nextBufRow, g);
        nextBufRow := src.maxV;
      }
      assert colorBuf[..|colorBuf|] == colorBuf;
    }

    lemma SliceMatches(lines: seq<Row>, base: nat, first: nat, n: nat)
      requires Presented(lines, base) && first + n <= |lines|
      ensures lines[first..first + n] == src.rows[base + first..base + first + n]
    {}

    /** Copies of the last scanline are what the padded image has below the bottom. */
    lemma PaddedRows(buf: seq<Converted>, n: nat, g: nat)
      requires src.Ok() && |buf| == src.maxV && 0 < n < src.maxV && g * src.maxV + n == src.Height()
      requires buf[..n] == src.RowsFrom(g * src.maxV, n) && forall i :: n <= i < src.maxV ==> buf[i] == buf[n - 1]
      ensures buf == src.RowsFrom(g * src.maxV, src.maxV)
    {
      assert buf[n - 1] == buf[..n][n - 1] == src.RowAt(src.Height() - 1);
      forall i | 0 <= i < src.maxV
        ensures buf[i] == src.RowsFrom(g * src.maxV, src.maxV)[i]
      {
        assert src.RowsFrom(g * src.maxV, src.maxV)[i] == src.RowAt(g * src.maxV + i);
        if i < n {
          assert buf[i] == buf[..n][i] == src.RowAt(g * src.maxV + i);
        } else {
          assert buf[i] == buf[n - 1];
        }
      }
    }

    /** A full conversion buffer is downsampled into the strip. */
    method EmptyBuffer(buffer: Strip, ctr: nat, ghost g: nat) returns (buffer': Strip)
      requires Full(g) && ctr < |buffer|
      modifies this`nextBufRow
      ensures buffer' == buffer[ctr := src.PaddedGroup(g)] && Consumed() == old(Consumed())
      ensures rowsToGo > 0 ==> AtGroup(g + 1)
      ensures rowsToGo == 0 ==> Valid() && src.Groups() == g + 1
    {
      hide CeilDiv;
      CeilDivBounds(src.Height(), src.maxV);
      LastGroup(g);
      buffer' := buffer[ctr := src.downsample(colorBuf)];
      nextBufRow := 0;
      assert colorBuf[..0] == [] == src.RowsFrom(Consumed(), 0);
    }

    lemma LastGroup(g: nat)
      requires Full(g)
      ensures g < src.Groups() && (rowsToGo == 0 ==> src.Groups() == g + 1)
    {
      hide CeilDiv;
      Counts(src);
      if rowsToGo == 0 {
        CeilDivUnique(src.Height(), src.maxV, g + 1);
      } else {
        Distribute(g, 1, src.maxV);
        CancelLess(g, src.Groups(), src.maxV);
      }
    }

    /** Padding the strip to a full iMCU row with copies of each component's last row. */
    method PadStrip(buffer: Strip, ctr: nat) returns (buffer': Strip)
      requires 0 < ctr <= |buffer| == DCTSIZE
      ensures |buffer'| == DCTSIZE && forall j :: 0 <= j < DCTSIZE ==> buffer'[j] == if j < ctr then buffer[j] else LastRows(buffer[ctr - 1])
    {
      buffer' := buffer;
      var j := ctr;
      while j < DCTSIZE
        invariant ctr <= j <= DCTSIZE && |buffer'| == DCTSIZE
        invariant forall i :: 0 <= i < DCTSIZE ==> buffer'[i] == if ctr <= i < j then LastRows(buffer[ctr - 1]) else buffer[i]
      {
        buffer' := buffer'[j := LastRows(buffer[ctr - 1])];
        j := j + 1;
      }
    }

    /** pre_process_data: fills up strip r as far as the rows go. */
    method PreProcessData(lines: seq<Row>, inRowCtr: nat, buffer: Strip, groupCtr: nat, ghost base: nat, ghost r: nat)
      returns (next: nat, buffer': Strip, groupCtr': nat)
      requires Presented(lines, base) && Consumed() == base + inRowCtr
      requires groupCtr < DCTSIZE == |buffer| && AtGroup(r * DCTSIZE + groupCtr) && buffer[..groupCtr] == src.StripPart(r, groupCtr)
      modifies this
      ensures inRowCtr <= next && (next <= |lines| || next == inRowCtr) && Consumed() == base + next && Valid()
      ensures groupCtr <= groupCtr' <= DCTSIZE == |buffer'| && buffer'[..groupCtr'] == src.StripPart(r, groupCtr')
      ensures rowsToGo > 0 ==> AtGroup(r * DCTSIZE + groupCtr')
      ensures rowsToGo == 0 ==> groupCtr' == DCTSIZE && src.IMcuRows() == r + 1
      ensures groupCtr' == DCTSIZE || next >= |lines|
      ensures groupCtr' > groupCtr ==> next > inRowCtr
    {
      hide CeilDiv, LastRows, Source.PaddedGroup;
      next, buffer', groupCtr' := inRowCtr, buffer, groupCtr;
      while next < |lines| && groupCtr' < DCTSIZE
        invariant inRowCtr <= next && (next <= |lines| || next == inRowCtr) && Consumed() == base + next
        invariant groupCtr <= groupCtr' <= DCTSIZE == |buffer'| && AtGroup(r * DCTSIZE + groupCtr')
        invariant buffer'[..groupCtr'] == src.StripPart(r, groupCtr')
        invariant groupCtr' > groupCtr ==> next > inRowCtr
        decreases |lines| - next
      {
        ghost var g := r * DCTSIZE + groupCtr';
        next := TakeRows(lines, next, base, g);
        if nextBufRow == src.maxV {
          buffer' := EmptyBuffer(buffer', groupCtr', g);
          OneMoreGroup(buffer', groupCtr', r);
          groupCtr' := groupCtr' + 1;
        }
        if rowsToGo == 0 {
          StripsEnd(r, groupCtr');
          if groupCtr' < DCTSIZE {
            PaddingIs(buffer', groupCtr', r);
            buffer' := PadStrip(buffer', groupCtr');
            groupCtr' := DCTSIZE;
            assert buffer'[..DCTSIZE] == src.StripPart(r, DCTSIZE);
          }
          break;
        }
      }
    }

    lemma OneMoreGroup(buffer: Strip, ctr: nat, r: nat)
      requires src.Ok() && ctr < |buffer| && buffer[..ctr] == src.StripPart(r, ctr) && buffer[ctr] == src.PaddedGroup(r * DCTSIZE + ctr)
      ensures buffer[..ctr + 1] == src.StripPart(r, ctr + 1)
    {
      hide CeilDiv, LastRows, Source.PaddedGroup;
      assert buffer[..ctr + 1] == buffer[..ctr] + [buffer[ctr]];
      assert src.StripPart(r, ctr + 1) == src.StripPart(r, ctr) + [src.PaddedGroup(r * DCTSIZE + ctr)];
    }

    /** When the image has ended, this is the last strip. */
    lemma StripsEnd(r: nat, ctr: nat)
      requires src.Ok() && 0 < ctr <= DCTSIZE && src.Groups() == r * DCTSIZE + ctr
      ensures src.IMcuRows() == r + 1
    {
      hide CeilDiv;
      Counts(src);
      CeilDivUnique(src.Groups(), DCTSIZE, r + 1);
    }

    /** The groups below the image are copies of the last rows of its last group. */
    lemma PaddingIs(buffer: Strip, ctr: nat, r: nat)
      requires src.Ok() && 0 < ctr <= |buffer| && buffer[..ctr] == src.StripPart(r, ctr) && src.Groups() == r * DCTSIZE + ctr
      ensures forall j :: ctr <= j < DCTSIZE ==> src.StripPart(r, DCTSIZE)[j] == LastRows(buffer[ctr - 1])
      ensures forall j :: 0 <= j < ctr && j < DCTSIZE ==> src.StripPart(r, DCTSIZE)[j] == buffer[j]
    {
      hide CeilDiv, LastRows;
      assert buffer[ctr - 1] == buffer[..ctr][ctr - 1] == src.PaddedGroup(r * DCTSIZE + (ctr - 1));
      forall j | ctr <= j < DCTSIZE
        ensures src.StripPart(r, DCTSIZE)[j] == LastRows(buffer[ctr - 1])
      {
        assert src.StripPart(r, DCTSIZE)[j] == src.PaddedGroup(r * DCTSIZE + j);
      }
      forall j | 0 <= j < ctr && j < DCTSIZE
        ensures src.StripPart(r, DCTSIZE)[j] == buffer[j]
      {
        assert buffer[j] == buffer[..ctr][j];
      }
    }
  }

  /** The main controller, with only a strip buffer. */
  class MainController {
    const src: Source
    const prep: Prep
    const sink: StripSink
    var buffer: Strip
    var curIMcuRow: nat
    var rowgroupCtr: nat
    var suspended: bool

    /** start_pass_main */
    constructor (src: Source, takes: nat -> bool)
      requires src.Ok()
      ensures this.src == src && Valid(0) && fresh(prep) && fresh(sink) && curIMcuRow == 0 && !suspended
      ensures sink.takes == takes && sink.calls == 0
    {
      this.src := src;
      prep := new Prep(src);
      sink := new StripSink(src, takes);
      buffer, curIMcuRow, rowgroupCtr, suspended := seq(DCTSIZE, _ => []), 0, 0, false;
      new;
      Counts(src);
    }

    /** Between calls. Rows taken by the preprocessor are those the application has been told of, and one
        more while a strip is waiting; `told` is next_scanline. */
    ghost predicate Valid(told: nat)
      reads this, prep, sink
    {
      && InCall(told) && (suspended <==> rowgroupCtr == DCTSIZE)
    }

    /** Within a call; the strip buffer may be full without having been refused yet. */
    ghost predicate InCall(told: nat)
      reads this, prep, sink
    {
      && src.Ok() && prep.src == src && sink.src == src && prep.Valid() && sink.taken == curIMcuRow <= src.IMcuRows()
      && prep.Consumed() == told + (if suspended then 1 else 0)
      && rowgroupCtr <= DCTSIZE == |buffer| && (suspended ==> rowgroupCtr == DCTSIZE)
      && (curIMcuRow == src.IMcuRows() ==> rowgroupCtr == 0 && prep.rowsToGo == 0)
      && (curIMcuRow < src.IMcuRows() ==>
            (buffer[..rowgroupCtr] == src.StripPart(curIMcuRow, rowgroupCtr)
             && (prep.rowsToGo > 0 ==> prep.AtGroup(curIMcuRow * DCTSIZE + rowgroupCtr))
             && (prep.rowsToGo == 0 ==> rowgroupCtr == DCTSIZE && curIMcuRow + 1 == src.IMcuRows())))
    }

    /** Reading input while the strip buffer is not full. */
    method Fill(lines: seq<Row>, rowCtr: nat, ghost told: nat) returns (next: nat)
      requires InCall(told + rowCtr) && curIMcuRow < src.IMcuRows() && rowgroupCtr < DCTSIZE
      requires told + |lines| <= src.Height() && lines == src.rows[told..told + |lines|]
      modifies this`buffer, this`rowgroupCtr, prep
      ensures InCall(told + next) && rowCtr <= next && (next <= |lines| || next == rowCtr)
      ensures rowgroupCtr == DCTSIZE ==> next > rowCtr
      ensures rowgroupCtr == DCTSIZE || next >= |lines|
    {
      hide CeilDiv, Source.StripPart;
      var b, c;
      next, b, c := prep.PreProcessData(lines, rowCtr, buffer, rowgroupCtr, told, curIMcuRow);
      buffer, rowgroupCtr := b, c;
    }

    lemma FullStrip(told: nat)
      requires InCall(told) && curIMcuRow < src.IMcuRows() && rowgroupCtr == DCTSIZE
      ensures buffer == src.StripAt(curIMcuRow)
      ensures curIMcuRow + 1 == src.IMcuRows() ==> prep.rowsToGo == 0
      ensures curIMcuRow + 1 < src.IMcuRows() ==> prep.AtGroup((curIMcuRow + 1) * DCTSIZE)
    {
      hide CeilDiv, Source.StripPart;
      assert buffer[..DCTSIZE] == buffer;
      Counts(src);
      if curIMcuRow + 1 == src.IMcuRows() {
        LastStrip(src, (curIMcuRow + 1) * DCTSIZE);
      }
    }

    /** The row groups of all strips cover the image. */
    static lemma LastStrip(src: Source, groups: nat)
      requires src.Ok() && groups == src.IMcuRows() * DCTSIZE
      ensures src.Height() <= groups * src.maxV
    {
      hide CeilDiv;
      Counts(src);
      MulLessEq(src.Groups(), groups, src.maxV);
    }

    /** process_data_simple_main. rowCtr counts the lines of this call; told is what next_scanline was before it.
        It ends with all lines taken, or with a strip refused, of which there is one at most. */
    method ProcessData(lines: seq<Row>, ghost told: nat) returns (rowCtr: nat)
      requires Valid(told) && told + |lines| <= src.Height() && lines == src.rows[told..told + |lines|]
      modifies this, prep, sink
      ensures Valid(told + rowCtr) && told + rowCtr <= src.Height()
      ensures curIMcuRow >= old(curIMcuRow)
      ensures sink.Refused() == old(sink.Refused()) + if suspended then 1 else 0
      ensures old(sink.calls) <= sink.calls && sink.AllTaken(old(sink.calls), sink.calls - if suspended then 1 else 0)
      ensures suspended || rowCtr >= |lines|
      ensures rowCtr > |lines| <==> lines == [] && old(suspended) && curIMcuRow > old(curIMcuRow)
      ensures rowCtr <= |lines| || rowCtr == 1
      ensures old(suspended) ==> (sink.takes(old(sink.calls)) <==> curIMcuRow > old(curIMcuRow))
    {
      hide CeilDiv, Source.StripPart, Source.StripAt;
      rowCtr := 0;
      while curIMcuRow < src.IMcuRows()
        invariant InCall(told + rowCtr) && (suspended || rowgroupCtr < DCTSIZE) && curIMcuRow >= old(curIMcuRow)
        invariant rowCtr <= |lines| || (rowCtr == 1 && lines == [] && old(suspended))
        invariant suspended ==> old(suspended) && rowCtr == 0
        invariant old(suspended) && curIMcuRow > old(curIMcuRow) ==> rowCtr >= 1
        invariant rowCtr > |lines| ==> curIMcuRow > old(curIMcuRow)
        invariant curIMcuRow == old(curIMcuRow) ==> suspended == old(suspended) && sink.calls == old(sink.calls)
        invariant sink.Refused() == old(sink.Refused())
        invariant old(sink.calls) <= sink.calls && sink.AllTaken(old(sink.calls), sink.calls)
        decreases src.IMcuRows() - curIMcuRow
      {
        if rowgroupCtr < DCTSIZE {
          rowCtr := Fill(lines, rowCtr, told);
        }
        if rowgroupCtr != DCTSIZE {
          return;
        }
        var ok;
        ok, rowCtr := Offer(rowCtr, told);
        if !ok {
          return;
        }
      }
    }

    /** The full strip is offered to the compressor. If it is refused, the last line is held back; once it is
        taken, a line held back is counted after all. */
    method Offer(rowCtr: nat, ghost told: nat) returns (ok: bool, next: nat)
      requires InCall(told + rowCtr) && curIMcuRow < src.IMcuRows() && rowgroupCtr == DCTSIZE && (suspended || rowCtr > 0)
      modifies this`suspended, this`rowgroupCtr, this`curIMcuRow, sink
      ensures ok <==> sink.takes(old(sink.calls))
      ensures sink.calls == old(sink.calls) + 1 && InCall(told + next)
      ensures !ok ==> suspended && curIMcuRow == old(curIMcuRow) && rowgroupCtr == DCTSIZE && next == (if old(suspended) then rowCtr else rowCtr - 1)
      ensures ok ==> !suspended && curIMcuRow == old(curIMcuRow) + 1 && rowgroupCtr == 0 && next == (if old(suspended) then rowCtr + 1 else rowCtr)
    {
      hide CeilDiv, Source.StripPart, Source.StripAt;
      FullStrip(told + rowCtr);
      next := rowCtr;
      ok := sink.CompressData(buffer);
      if !ok {
        if !suspended {
          next := next - 1;
          suspended := true;
        }
        return;
      }
      if suspended {
        next := next + 1;
        suspended := false;
      }
      rowgroupCtr := 0;
      curIMcuRow := curIMcuRow + 1;
      EmptyStrip(curIMcuRow);
    }

    lemma EmptyStrip(r: nat)
      requires src.Ok()
      ensures src.StripPart(r, 0) == []
    {}
  }

  /** The application's side: jpeg_write_scanlines. */
  class Compressor {
    const src: Source
    const main: MainController
    var nextScanline: nat

    constructor (src: Source, takes: nat -> bool)
      requires src.Ok()
      ensures this.src == src && Valid() && nextScanline == 0 && fresh(main) && fresh(main.prep) && fresh(main.sink)
      ensures main.sink.takes == takes && main.sink.calls == 0 && !main.suspended
    {
      this.src, nextScanline := src, 0;
      main := new MainController(src, takes);
    }

    /** Rows consumed by the preprocessor equal next_scanline, plus one while suspended; and the strips taken
        by the compressor are a prefix of the image's strips, of which the next is offered only when complete. */
    ghost predicate Valid()
      reads this, main, main.prep, main.sink
    {
      main.src == src && main.Valid(nextScanline) && nextScanline <= src.Height()
    }

    /** One call with the scanlines from next_scanline on; extra ones at the bottom are ignored. Fewer are written
        only when a strip was refused or the image is complete. More than were given are counted exactly when
        none were, and a strip that had been refused is taken now: its held-back line is counted in this call. */
    method WriteScanlines(scanlines: seq<Row>) returns (written: nat)
      requires Valid()
      requires forall i :: 0 <= i < |scanlines| && nextScanline + i < src.Height() ==> scanlines[i] == src.rows[nextScanline + i]
      modifies this, main, main.prep, main.sink
      ensures Valid() && nextScanline == old(nextScanline) + written
      ensures main.prep.Consumed() == nextScanline + (if main.suspended then 1 else 0)
      ensures main.curIMcuRow >= old(main.curIMcuRow) && main.sink.taken == main.curIMcuRow
      ensures main.sink.Refused() == old(main.sink.Refused()) + if main.suspended then 1 else 0
      ensures main.sink.AllTaken(old(main.sink.calls), main.sink.calls - if main.suspended then 1 else 0)
      ensures main.suspended || written >= |scanlines| || nextScanline == src.Height()
      ensures written > |scanlines| <==> scanlines == [] && old(main.suspended) && main.sink.takes(old(main.sink.calls))
      ensures old(main.suspended) ==> (main.sink.takes(old(main.sink.calls)) <==> main.curIMcuRow > old(main.curIMcuRow))
      ensures written > |scanlines| ==> written == 1
      ensures |scanlines| > 0 || !old(main.suspended) ==> written <= |scanlines|
    {
      hide CeilDiv;
      var rowsLeft := src.Height() - nextScanline;
      var numLines := if |scanlines| > rowsLeft then rowsLeft else |scanlines|;
      var lines := scanlines[..numLines];
      assert lines == src.rows[nextScanline..nextScanline + |lines|];
      written := main.ProcessData(lines, nextScanline);
      nextScanline := nextScanline + written;
    }

    /** When all scanlines have been written, all strips have been taken: nothing is left waiting. */
    lemma AllWritten()
      requires Valid() && nextScanline == src.Height()
      ensures !main.suspended && main.sink.taken == main.curIMcuRow == src.IMcuRows()
    {}

    /** Not everything is written while a strip waits, so that the application comes back. */
    lemma WaitingMeansUnwritten()
      requires Valid() && main.suspended
      ensures nextScanline < src.Height()
    {}
  }

  /** The held-back line at work, in an image of one scanline: the first call writes none of its one line, since
      the strip is refused; the second, with no lines at all, writes one, since the strip is taken. */
  method HeldBackLine(row: Row, convert: Row -> Converted, downsample: seq<Converted> -> Group) returns (first: nat, second: nat)
    ensures first == 0 && second == 1
  {
    var src := Source([row], 1, convert, downsample);
    var c := new Compressor(src, n => n > 0);
    Counts(src);
    assert !c.main.sink.takes(0) && c.main.sink.takes(1);
    first := c.WriteScanlines([row]);
    assert c.main.suspended && c.main.sink.calls == 1;
    second := c.WriteScanlines([]);
  }
}
