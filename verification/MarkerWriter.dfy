/** The marker writer: which Huffman tables and restart intervals are sent, and when, so that at every
    scan a decoder's tables and restart interval are those the encoder uses. */
module MarkerWriter {
  import Geometry
  import opened Bits
  import opened ByteStuffing
  import opened BitWriter
  import opened HuffmanTable
  import opened EntropyOps
  import opened MarkerSyntax

  /** A Huffman table of the compression object and its sent_table flag. */
  datatype Slot = Slot(tbl: Table, sent: bool)
  type Slots = map<TableId, Slot>

  datatype MarkerError = NoTable | Refused | BadLength
  datatype MarkerStatus = Written | Failed(error: MarkerError) {
    predicate IsFailure() { Failed? }
    function PropagateFailure(): MarkerStatus
      requires IsFailure()
    {
      this
    }
  }

  datatype CompInfo = CompInfo(id: byte, dcTbl: int, acTbl: int)

  /** What write_scan_header looks at. */
  datatype ScanHead = ScanHead(comps: seq<CompInfo>, progressive: bool, ss: nat, se: nat, ah: nat, al: nat, restart: nat)

  // ----- what a scan header consists of -----

  /** The tables one component of the scan needs, in the order they are considered. */
  function NeededBy(h: ScanHead, c: CompInfo): (ts: seq<TableId>) {
    if h.progressive then
      if h.ss == 0 then (if h.ah == 0 then [TableId(false, c.dcTbl)] else []) else [TableId(true, c.acTbl)]
    else [TableId(false, c.dcTbl), TableId(true, c.acTbl)]
  }

  function Needed(h: ScanHead, n: nat): seq<TableId>
    requires n <= |h.comps|
  {
    if n == 0 then [] else Needed(h, n - 1) + NeededBy(h, h.comps[n - 1])
  }

  /** The scan's table numbers are in range, and its tables, where present, well formed. */
  ghost predicate HeadOk(h: ScanHead, slots: Slots) {
    NumbersOk(h) && forall t :: t in Needed(h, |h.comps|) && t in slots ==> Offset(slots[t].tbl.bits, 17) <= 256
  }

  predicate NumbersOk(h: ScanHead) {
    && |h.comps| <= 4 && h.ss < 64 && h.se < 64 && h.ah < 16 && h.al < 16
    && forall t :: t in Needed(h, |h.comps|) ==> 0 <= t.no < NUM_HUFF_TBLS
  }

  /** The selectors of a component; fields that the scan does not use are 0. */
  function SelectorFor(h: ScanHead, c: CompInfo): (s: Selector)
    requires forall t :: t in NeededBy(h, c) ==> 0 <= t.no < NUM_HUFF_TBLS
    ensures s.td < 16 && s.ta < 16 && s.id == c.id
  {
    var ts := NeededBy(h, c);
    if !h.progressive then
      assert TableId(false, c.dcTbl) in ts && TableId(true, c.acTbl) in ts;
      Selector(c.id, c.dcTbl, c.acTbl)
    else if h.ss == 0 then
      assert h.ah == 0 ==> TableId(false, c.dcTbl) in ts;
      Selector(c.id, if h.ah == 0 then c.dcTbl else 0, 0)
    else
      assert TableId(true, c.acTbl) in ts;
      Selector(c.id, 0, c.acTbl)
  }

  lemma {:induction false} NeededHas(h: ScanHead, n: nat, i: nat, t: TableId)
    requires i < n <= |h.comps| && t in NeededBy(h, h.comps[i])
    ensures t in Needed(h, n)
  {
    if i < n - 1 {
      NeededHas(h, n - 1, i, t);
    }
  }

  /** The tables of a scan: DC tables for a scan that begins DC coefficients, AC tables for a scan that has any. */
  lemma {:induction false} NeededMeans(h: ScanHead, n: nat, t: TableId)
    requires n <= |h.comps|
    ensures t in Needed(h, n) <==>
              exists i :: 0 <= i < n && if t.isAC then t.no == h.comps[i].acTbl && (h.progressive ==> h.ss > 0)
                                        else t.no == h.comps[i].dcTbl && (h.progressive ==> h.ss == 0 && h.ah == 0)
  {
    if n > 0 {
      NeededMeans(h, n - 1, t);
    }
  }

  lemma NumbersOf(h: ScanHead, i: nat)
    requires NumbersOk(h) && i < |h.comps|
    ensures forall t :: t in NeededBy(h, h.comps[i]) ==> 0 <= t.no < NUM_HUFF_TBLS
  {
    forall t | t in NeededBy(h, h.comps[i])
      ensures 0 <= t.no < NUM_HUFF_TBLS
    {
      NeededHas(h, |h.comps|, i, t);
    }
  }

  function SosFor(h: ScanHead): (sos: Sos)
    requires NumbersOk(h)
    ensures SosOk(sos) && |sos.comps| == |h.comps|
  {
    Sos(seq(|h.comps|, i requires 0 <= i < |h.comps| => NumbersOf(h, i); SelectorFor(h, h.comps[i])), h.ss, h.se, h.ah, h.al)
  }

  ghost predicate AllPresent(slots: Slots, ts: seq<TableId>) {
    forall i :: 0 <= i < |ts| ==> ts[i] in slots && 0 <= ts[i].no < NUM_HUFF_TBLS && Offset(slots[ts[i]].tbl.bits, 17) <= 256
  }

  function MarkSent(slots: Slots, ts: seq<TableId>): (s: Slots)
    ensures s.Keys == slots.Keys && forall t :: t in slots ==> s[t] == Slot(slots[t].tbl, slots[t].sent || t in ts)
  {
    map t | t in slots :: Slot(slots[t].tbl, slots[t].sent || t in ts)
  }

  /** One emit_dht call: nothing when the table has been sent. */
  function DhtBytes(slots: Slots, t: TableId): seq<byte>
    requires AllPresent(slots, [t])
  {
    assert [t][0] == t;
    if slots[t].sent then [] else MarkerSegment(DHT, DhtPayload(t, slots[t].tbl))
  }

  /** The emit_dht calls for a list of tables, each of which may be named several times. */
  function TableBytes(slots: Slots, ts: seq<TableId>): seq<byte>
    requires AllPresent(slots, ts)
  {
    if ts == [] then []
    else
      var n := |ts| - 1;
      assert AllPresent(MarkSent(slots, ts[..n]), [ts[n]]);
      TableBytes(slots, ts[..n]) + DhtBytes(MarkSent(slots, ts[..n]), ts[n])
  }

  function DriBytes(last: nat, restart: nat): seq<byte> {
    if restart != last then MarkerSegment(DRI, TwoBytes(restart)) else []
  }

  function HeaderBytes(slots: Slots, last: nat, h: ScanHead): seq<byte>
    requires HeadOk(h, slots) && AllPresent(slots, Needed(h, |h.comps|))
  {
    TableBytes(slots, Needed(h, |h.comps|)) + DriBytes(last, h.restart) + MarkerSegment(SOS, SosPayload(SosFor(h)))
  }

  // ----- what a decoder makes of it -----

  /** Tables marked as sent are what the decoder has. */
  ghost predicate InSync(slots: Slots, d: DecState) {
    forall t :: t in slots && slots[t].sent ==> Offset(slots[t].tbl.bits, 17) <= 256 && t in d.tabs && d.tabs[t] == Canonical(slots[t].tbl)
  }

  function DecAfter(slots: Slots, ts: seq<TableId>, d: DecState): DecState
    requires AllPresent(slots, ts)
  {
    if ts == [] then d
    else
      var n := |ts| - 1;
      var d' := DecAfter(slots, ts[..n], d);
      if MarkSent(slots, ts[..n])[ts[n]].sent then d' else d'.(tabs := d'.tabs[ts[n] := Canonical(slots[ts[n]].tbl)])
  }

  lemma {:induction false} TablesRead(slots: Slots, ts: seq<TableId>, d: DecState, rest: seq<byte>)
    requires AllPresent(slots, ts) && InSync(slots, d)
    ensures ReadMarkers(TableBytes(slots, ts) + rest, d) == ReadMarkers(rest, DecAfter(slots, ts, d))
    ensures InSync(MarkSent(slots, ts), DecAfter(slots, ts, d)) && DecAfter(slots, ts, d).restart == d.restart
    decreases |ts|
  {
    hide ReadMarkers, MarkerSegment, DhtPayload, Canonical, Offset;
    if ts == [] {
      assert [] + rest == rest;
      assert MarkSent(slots, []) == slots;
    } else {
      var n := |ts| - 1;
      var slots', t := MarkSent(slots, ts[..n]), ts[n];
      assert AllPresent(slots', [t]);
      var more := DhtBytes(slots', t);
      TablesRead(slots, ts[..n], d, more + rest);
      assert TableBytes(slots, ts) + rest == TableBytes(slots, ts[..n]) + (more + rest);
      OneTableRead(slots, ts, d, rest);
    }
  }

  lemma OneTableRead(slots: Slots, ts: seq<TableId>, d: DecState, rest: seq<byte>)
    requires ts != [] && AllPresent(slots, ts)
    requires var n := |ts| - 1; InSync(MarkSent(slots, ts[..n]), DecAfter(slots, ts[..n], d))
    ensures var n := |ts| - 1;
            AllPresent(MarkSent(slots, ts[..n]), [ts[n]])
            && ReadMarkers(DhtBytes(MarkSent(slots, ts[..n]), ts[n]) + rest, DecAfter(slots, ts[..n], d))
            == ReadMarkers(rest, DecAfter(slots, ts, d))
    ensures InSync(MarkSent(slots, ts), DecAfter(slots, ts, d))
  {
    hide ReadMarkers, MarkerSegment, DhtPayload, Canonical, Offset, MarkSent, InSync;
    var n := |ts| - 1;
    var slots', t, d' := MarkSent(slots, ts[..n]), ts[n], DecAfter(slots, ts[..n], d);
    assert AllPresent(slots', [t]);
    if slots'[t].sent {
      assert [] + rest == rest;
    } else {
      ReadDht(t, slots'[t].tbl, d', rest);
    }
    SyncStep(slots, ts, d', DecAfter(slots, ts, d));
  }

  /** After one more table, everything marked as sent is in the decoder. */
  lemma SyncStep(slots: Slots, ts: seq<TableId>, d: DecState, d': DecState)
    requires ts != [] && AllPresent(slots, ts) && InSync(MarkSent(slots, ts[..|ts| - 1]), d)
    requires var t := ts[|ts| - 1];
             d' == if MarkSent(slots, ts[..|ts| - 1])[t].sent then d else d.(tabs := d.tabs[t := Canonical(slots[t].tbl)])
    ensures InSync(MarkSent(slots, ts), d')
  {
    hide Canonical, Offset, MarkSent;
    var n, t := |ts| - 1, ts[|ts| - 1];
    var before, after := MarkSent(slots, ts[..n]), MarkSent(slots, ts);
    forall u | u in after && after[u].sent
      ensures Offset(after[u].tbl.bits, 17) <= 256 && u in d'.tabs && d'.tabs[u] == Canonical(after[u].tbl)
    {
      if u == t {
        assert ts[n] == t;
      } else {
        assert ts == ts[..n] + [t];
        assert before[u].sent;
      }
    }
  }

  /** What a decoder knows when it has read a scan header: the tables sent, and sixteen bits of the interval. */
  function DecAtScan(slots: Slots, h: ScanHead, d: DecState): DecState
    requires AllPresent(slots, Needed(h, |h.comps|))
  {
    DecAfter(slots, Needed(h, |h.comps|), d).(restart := h.restart % 0x1_0000)
  }

  /** The decoder has the current contents of every table the scan uses. */
  ghost predicate HasTables(h: ScanHead, slots: Slots, d: DecState) {
    forall t :: t in Needed(h, |h.comps|) ==> t in slots && Offset(slots[t].tbl.bits, 17) <= 256 && t in d.tabs && d.tabs[t] == Canonical(slots[t].tbl)
  }

  /** At the scan header the decoder has the current contents of every table that the scan uses. */
  lemma HeaderRead(slots: Slots, last: nat, h: ScanHead, d: DecState, rest: seq<byte>)
    requires HeadOk(h, slots) && AllPresent(slots, Needed(h, |h.comps|)) && InSync(slots, d) && d.restart == last % 0x1_0000
    ensures ReadMarkers(HeaderBytes(slots, last, h) + rest, d) == ScanStart(DecAtScan(slots, h, d), SosFor(h), rest)
    ensures InSync(MarkSent(slots, Needed(h, |h.comps|)), DecAtScan(slots, h, d)) && HasTables(h, slots, DecAtScan(slots, h, d))
  {
    hide ReadMarkers, MarkerSegment, SosPayload, Canonical, Offset, TableBytes, SosFor, DecAfter, TwoBytes;
    var ts := Needed(h, |h.comps|);
    var dri, sos := DriBytes(last, h.restart), MarkerSegment(SOS, SosPayload(SosFor(h)));
    assert HeaderBytes(slots, last, h) + rest == TableBytes(slots, ts) + (dri + (sos + rest));
    TablesRead(slots, ts, d, dri + (sos + rest));
    var e, d' := DecAfter(slots, ts, d), DecAtScan(slots, h, d);
    if h.restart != last {
      ReadDri(h.restart, e, sos + rest);
    } else {
      assert [] + (sos + rest) == sos + rest;
    }
    ReadSosSegment(SosFor(h), d', rest);
    forall t | t in ts
      ensures t in slots && t in d'.tabs && d'.tabs[t] == Canonical(slots[t].tbl)
    {
      var i :| 0 <= i < |ts| && ts[i] == t;
      assert MarkSent(slots, ts)[t].sent;
    }
  }

  /** The decoder's restart interval is the encoder's exactly when it was given in rows, or fits 16 bits. */
  lemma RestartInSyncIff(h: ScanHead, d: DecState, inRows: int, mcusPerRow: nat, interval: nat)
    requires h.restart == Geometry.RestartInterval(inRows, mcusPerRow, interval) && d.restart == h.restart % 0x1_0000
    ensures d.restart == h.restart <==> inRows > 0 || interval < 0x1_0000
  {
    if inRows > 0 {
      assert inRows * mcusPerRow >= 0;
    }
  }

  /** The encoder's codes, derived from its own tables, are tied to the tables the decoder has. */
  lemma DecoderIsTied(h: ScanHead, slots: Slots, d: DecState, book: Codebook)
    requires HasTables(h, slots, d)
    requires forall t :: t in book ==> t in Needed(h, |h.comps|)
    requires forall t :: t in book && t in slots ==> Legal(slots[t].tbl, !t.isAC) && Derives(slots[t].tbl, book[t])
    ensures Tied(book, d.tabs)
  {
    hide LegalValues, Derives, Canonical, Offset, Needed;
    forall t | t in book
      ensures t in d.tabs && Legal(d.tabs[t], !t.isAC) && Offset(d.tabs[t].bits, 17) <= 256 && Derives(d.tabs[t], book[t])
    {
      CanonicalServes(slots[t].tbl, !t.isAC, book[t]);
    }
  }

  /** An interval of 65536 MCUs is announced as no restarts at all. */
  lemma LongIntervalIsLost(slots: Slots, last: nat, h: ScanHead, d: DecState, rest: seq<byte>)
    requires HeadOk(h, slots) && AllPresent(slots, Needed(h, |h.comps|)) && InSync(slots, d) && d.restart == last % 0x1_0000
    requires h.restart == 0x1_0000
    ensures ReadMarkers(HeaderBytes(slots, last, h) + rest, d).ScanStart? && ReadMarkers(HeaderBytes(slots, last, h) + rest, d).d.restart == 0
  {
    hide HeaderBytes, ReadMarkers, HeadOk, AllPresent, InSync;
    HeaderRead(slots, last, h, d, rest);
  }

  // ----- the writer -----

  /** Would n more bytes leave a refusing sink a byte to spare? */
  ghost predicate HasRoom(dest: Destination, n: nat)
    reads dest
  {
    dest.empties || dest.free > n
  }

  class Markers {
    const dest: Destination
    var slots: Slots
    var lastRestartInterval: nat
    ghost var dec: DecState           // what a decoder has parsed so far

    constructor (dest: Destination, slots: Slots)
      ensures this.dest == dest && this.slots == slots && lastRestartInterval == 0
    {
      this.dest, this.slots, lastRestartInterval, dec := dest, slots, 0, DecState(map[], 0);
    }

    /** The decoder is in step with the tables marked as sent and with the last restart interval announced. */
    ghost predicate Valid()
      reads this, dest
    {
      dest.Valid() && InSync(slots, dec) && dec.restart == lastRestartInterval % 0x1_0000
    }

    /** Exactly these bytes have been written. */
    twostate predicate Wrote(s: seq<byte>)
      reads dest
    {
      dest.Valid() && dest.Committed() == old(dest.Committed()) + s && (dest.empties || dest.free == old(dest.free) - |s|)
    }

    /** emit_byte; a destination that refuses to be emptied is a fatal error. */
    method EmitByte(val: byte) returns (s: MarkerStatus)
      requires dest.Valid()
      modifies dest
      ensures s.Written? <==> old(HasRoom(dest, 1))
      ensures s.Written? ==> Wrote([val])
      ensures s.Failed? ==> s.error == Refused
    {
      dest.buffer := dest.buffer + [val];
      dest.free := dest.free - 1;
      assert dest.flushed + dest.buffer == old(dest.flushed + dest.buffer) + [val];
      if dest.free == 0 {
        assert dest.Committed() + [] == dest.Committed();
        var ok := dest.EmptyOutputBuffer([]);
        if !ok {
          return Failed(Refused);
        }
      }
      s := Written;
    }

    method EmitMarker(mark: byte) returns (s: MarkerStatus)
      requires dest.Valid()
      modifies dest
      ensures s.Written? <==> old(HasRoom(dest, 2))
      ensures s.Written? ==> Wrote([0xFF, mark])
      ensures s.Failed? ==> s.error == Refused
    {
      s := EmitByte(0xFF);
      if s.Written? {
        s := EmitByte(mark);
        assert [0xFF] + [mark] == [0xFF, mark];
      }
    }

    method Emit2Bytes(value: nat) returns (s: MarkerStatus)
      requires dest.Valid()
      modifies dest
      ensures s.Written? <==> old(HasRoom(dest, 2))
      ensures s.Written? ==> Wrote(TwoBytes(value))
      ensures s.Failed? ==> s.error == Refused
    {
      s := EmitByte((value / 256) % 256);
      if s.Written? {
        s := EmitByte(value % 256);
        assert [(value / 256) % 256] + [value % 256] == TwoBytes(value);
      }
    }

    /** The start of a marker segment: code and length. */
    method EmitHead(mark: byte, length: nat) returns (s: MarkerStatus)
      requires dest.Valid()
      modifies dest
      ensures s.Written? <==> old(HasRoom(dest, 4))
      ensures s.Written? ==> Wrote([0xFF, mark] + TwoBytes(length))
      ensures s.Failed? ==> s.error == Refused
    {
      hide TwoBytes;
      TwoLong(length);
      s := EmitMarker(mark);
      if s.Written? {
        s := Emit2Bytes(length);
      }
    }

    static lemma TwoLong(v: nat)
      ensures |TwoBytes(v)| == 2
    {}

    /** A loop of emit_byte calls over a list of values. */
    method EmitList(values: seq<byte>) returns (s: MarkerStatus)
      requires dest.Valid()
      modifies dest
      ensures s.Written? <==> old(HasRoom(dest, |values|))
      ensures s.Written? ==> Wrote(values)
      ensures s.Failed? ==> s.error == Refused
    {
      var i := 0;
      assert old(dest.Committed()) + [] == old(dest.Committed());
      while i < |values|
        invariant i <= |values| && Wrote(values[..i]) && old(HasRoom(dest, i))
      {
        assert values[..i + 1] == values[..i] + [values[i]];
        s := EmitByte(values[i]);
        if s.Failed? {
          return;
        }
        i := i + 1;
      }
      assert values[..i] == values;
      s := Written;
    }

    /** The loop that adds up the code counts of a table. */
    static method CountValues(tbl: Table) returns (length: nat)
      ensures length == Offset(tbl.bits, 17)
    {
      length := 0;
      var i := 1;
      while i <= 16
        invariant 1 <= i <= 17 && length == Offset(tbl.bits, i)
      {
        length := length + tbl.bits[i];
        i := i + 1;
      }
    }

    /** The DHT segment of one table. */
    method EmitTable(t: TableId, htbl: Table) returns (s: MarkerStatus)
      requires dest.Valid() && 0 <= t.no < NUM_HUFF_TBLS && Offset(htbl.bits, 17) <= 256
      modifies dest
      ensures s.Written? ==> Wrote(MarkerSegment(DHT, DhtPayload(t, htbl)))
      ensures s.Failed? ==> s.error == Refused && !dest.empties
    {
      hide Offset, TwoBytes, MarkerSegment, DhtPayload;
      var length := CountValues(htbl);
      TwoLong(length + 2 + 1 + 16);
      DhtParts(t, htbl);
      s := EmitHead(DHT, length + 2 + 1 + 16);
      if s.Failed? {
        return;
      }
      s := EmitByte((if t.isAC then 0x10 else 0) + t.no);
      if s.Failed? {
        return;
      }
      s := EmitList(htbl.bits[1..]);
      if s.Failed? {
        return;
      }
      s := EmitList(htbl.huffval[..length]);
    }

    /** emit_dht: a table goes out once until it is replaced. */
    method EmitDht(t: TableId) returns (s: MarkerStatus)
      requires dest.Valid() && 0 <= t.no < NUM_HUFF_TBLS && (t in slots ==> Offset(slots[t].tbl.bits, 17) <= 256)
      modifies dest, this`slots
      ensures s.Written? ==> AllPresent(old(slots), [t]) && Wrote(DhtBytes(old(slots), t)) && slots == MarkSent(old(slots), [t])
      ensures s.Failed? ==> (if s.error == NoTable then t !in old(slots) else s.error == Refused && !dest.empties)
    {
      hide Offset, MarkerSegment, DhtPayload;
      if t !in slots {
        return Failed(NoTable);
      }
      var htbl := slots[t].tbl;
      assert old(dest.Committed()) + [] == old(dest.Committed());
      MarkOne(slots, t);
      if !slots[t].sent {
        s := EmitTable(t, htbl);
        if s.Failed? {
          return;
        }
        slots := slots[t := Slot(htbl, true)];
      }
      s := Written;
    }

    static lemma MarkOne(slots: Slots, t: TableId)
      requires t in slots
      ensures MarkSent(slots, [t]) == if slots[t].sent then slots else slots[t := Slot(slots[t].tbl, true)]
    {
      assert [t][0] == t;
    }

    static lemma DhtParts(t: TableId, tbl: Table)
      requires Offset(tbl.bits, 17) <= 256 && 0 <= t.no < NUM_HUFF_TBLS
      ensures MarkerSegment(DHT, DhtPayload(t, tbl))
           == [0xFF, DHT] + TwoBytes(Offset(tbl.bits, 17) + 2 + 1 + 16) + [(if t.isAC then 0x10 else 0) + t.no] + tbl.bits[1..]
              + tbl.huffval[..Offset(tbl.bits, 17)]
    {
      hide Offset, TwoBytes;
      var h, a, b, c := [0xFF, DHT] + TwoBytes(Offset(tbl.bits, 17) + 19), [(if t.isAC then 0x10 else 0) + t.no], tbl.bits[1..], tbl.huffval[..Offset(tbl.bits, 17)];
      assert |DhtPayload(t, tbl)| == 17 + Offset(tbl.bits, 17);
      assert h + (a + b + c) == h + a + b + c;
    }

    static lemma TablesMore(slots: Slots, ts: seq<TableId>, t: TableId)
      requires AllPresent(slots, ts) && AllPresent(MarkSent(slots, ts), [t])
      ensures AllPresent(slots, ts + [t])
      ensures TableBytes(slots, ts + [t]) == TableBytes(slots, ts) + DhtBytes(MarkSent(slots, ts), t)
      ensures MarkSent(MarkSent(slots, ts), [t]) == MarkSent(slots, ts + [t])
    {
      hide DhtBytes, Offset;
      assert [t][0] == t;
      assert (ts + [t])[..|ts + [t]| - 1] == ts;
    }

    /** The tables ts have been dealt with since the tables were `before`, and the stream and its room base and room. */
    ghost predicate SoFar(before: Slots, ts: seq<TableId>, base: seq<byte>, room: int)
      reads this, dest
    {
      && AllPresent(before, ts) && slots == MarkSent(before, ts) && dest.Valid()
      && dest.Committed() == base + TableBytes(before, ts) && (dest.empties || dest.free == room - |TableBytes(before, ts)|)
    }

    /** One more table. */
    method EmitNext(t: TableId, ghost before: Slots, ghost ts: seq<TableId>, ghost base: seq<byte>, ghost room: int) returns (s: MarkerStatus)
      requires SoFar(before, ts, base, room) && 0 <= t.no < NUM_HUFF_TBLS && (t in before ==> Offset(before[t].tbl.bits, 17) <= 256)
      modifies dest, this`slots
      ensures s.Written? ==> SoFar(before, ts + [t], base, room)
      ensures s.Failed? ==> (if s.error == NoTable then t !in before else s.error == Refused && !dest.empties)
    {
      hide Offset, DhtBytes, TableBytes;
      s := EmitDht(t);
      if s.Written? {
        TablesMore(before, ts, t);
        assert base + TableBytes(before, ts) + DhtBytes(MarkSent(before, ts), t) == base + (TableBytes(before, ts) + DhtBytes(MarkSent(before, ts), t));
      }
    }

    /** The tables of one component. */
    method EmitFor(h: ScanHead, c: CompInfo, ghost before: Slots, ghost ts: seq<TableId>, ghost base: seq<byte>, ghost room: int)
      returns (s: MarkerStatus)
      requires SoFar(before, ts, base, room)
      requires forall t :: t in NeededBy(h, c) ==> 0 <= t.no < NUM_HUFF_TBLS && (t in before ==> Offset(before[t].tbl.bits, 17) <= 256)
      modifies dest, this`slots
      ensures s.Written? ==> SoFar(before, ts + NeededBy(h, c), base, room)
      ensures s.Failed? ==> (if s.error == NoTable then exists t :: t in NeededBy(h, c) && t !in before else s.error == Refused && !dest.empties)
    {
      hide Offset, SoFar;
      ghost var need := NeededBy(h, c);
      if h.progressive {
        if h.ss == 0 {
          if h.ah == 0 {
            assert need[0] in need;
            s := EmitNext(TableId(false, c.dcTbl), before, ts, base, room);
          } else {
            assert ts + [] == ts;
            s := Written;
          }
        } else {
          assert need[0] in need;
          s := EmitNext(TableId(true, c.acTbl), before, ts, base, room);
        }
      } else {
        assert need[0] in need && need[1] in need;
        s := EmitNext(TableId(false, c.dcTbl), before, ts, base, room);
        if s.Written? {
          s := EmitNext(TableId(true, c.acTbl), before, ts + [need[0]], base, room);
          assert ts + [need[0]] + [need[1]] == ts + need;
        }
      }
    }

    /** The DHT loop of write_scan_header. */
    method EmitTables(h: ScanHead) returns (s: MarkerStatus)
      requires dest.Valid() && HeadOk(h, slots)
      modifies dest, this`slots
      ensures s.Written? ==> SoFar(old(slots), Needed(h, |h.comps|), old(dest.Committed()), old(dest.free))
      ensures s.Failed? ==> (if s.error == NoTable then exists t :: t in Needed(h, |h.comps|) && t !in old(slots) else s.error == Refused && !dest.empties)
    {
      hide Offset, SoFar, NeededBy, HeadOk;
      ghost var before := slots;
      StartsHere();
      var i := 0;
      while i < |h.comps|
        invariant i <= |h.comps| && SoFar(before, Needed(h, i), old(dest.Committed()), old(dest.free))
      {
        NeededHere(h, before, i);
        s := EmitFor(h, h.comps[i], before, Needed(h, i), old(dest.Committed()), old(dest.free));
        if s.Failed? {
          return;
        }
        i := i + 1;
      }
      s := Written;
    }

    lemma StartsHere()
      requires dest.Valid()
      ensures SoFar(slots, [], dest.Committed(), dest.free)
    {
      NoneMarked(slots);
      assert dest.Committed() + [] == dest.Committed();
    }

    static lemma NoneMarked(slots: Slots)
      ensures MarkSent(slots, []) == slots && AllPresent(slots, []) && TableBytes(slots, []) == []
    {}

    static lemma NeededHere(h: ScanHead, slots: Slots, i: nat)
      requires i < |h.comps| && HeadOk(h, slots)
      ensures Needed(h, i + 1) == Needed(h, i) + NeededBy(h, h.comps[i])
      ensures forall t :: t in NeededBy(h, h.comps[i]) ==>
                (t in Needed(h, |h.comps|) && 0 <= t.no < NUM_HUFF_TBLS && (t in slots ==> Offset(slots[t].tbl.bits, 17) <= 256))
    {
      hide Offset;
      forall t | t in NeededBy(h, h.comps[i])
        ensures t in Needed(h, |h.comps|)
      {
        NeededHas(h, |h.comps|, i, t);
      }
    }

    /** emit_dri */
    method EmitDri(restart: nat) returns (s: MarkerStatus)
      requires dest.Valid()
      modifies dest
      ensures s.Written? ==> Wrote(MarkerSegment(DRI, TwoBytes(restart)))
      ensures s.Failed? ==> s.error == Refused && !dest.empties
    {
      hide TwoBytes;
      TwoLong(4);
      TwoLong(restart);
      s := EmitHead(DRI, 4);
      if s.Written? {
        s := Emit2Bytes(restart);
      }
    }

    /** The loop of emit_sos over the scan's components. */
    method EmitSelectors(h: ScanHead) returns (s: MarkerStatus)
      requires dest.Valid() && NumbersOk(h)
      modifies dest
      ensures s.Written? ==> Wrote(SelectorBytes(SosFor(h).comps))
      ensures s.Failed? ==> s.error == Refused && !dest.empties
    {
      hide SosFor, SelectorBytes, NumbersOk;
      ghost var comps := SosFor(h).comps;
      NoSelectors();
      assert comps[..0] == [] && old(dest.Committed()) + [] == old(dest.Committed());
      var i := 0;
      while i < |h.comps|
        invariant i <= |h.comps| && Wrote(SelectorBytes(comps[..i]))
      {
        var compptr := h.comps[i];
        SelectorAt(h, i);
        s := EmitByte(compptr.id);
        if s.Failed? {
          return;
        }
        var td, ta := compptr.dcTbl, compptr.acTbl;
        if h.progressive {
          if h.ss == 0 {
            ta := 0;
            if h.ah != 0 {
              td := 0;
            }
          } else {
            td := 0;
          }
        }
        s := EmitByte(td * 16 + ta);
        if s.Failed? {
          return;
        }
        assert SelectorBytes(comps[..i]) + [compptr.id] + [td * 16 + ta] == SelectorBytes(comps[..i + 1]);
        i := i + 1;
      }
      assert comps[..i] == comps;
      s := Written;
    }

    static lemma NoSelectors()
      ensures SelectorBytes([]) == []
    {}

    static lemma SelectorAt(h: ScanHead, i: nat)
      requires NumbersOk(h) && i < |h.comps|
      ensures var c, comps := h.comps[i], SosFor(h).comps;
              var td := if h.progressive && (h.ss != 0 || h.ah != 0) then 0 else c.dcTbl;
              var ta := if h.progressive && h.ss == 0 then 0 else c.acTbl;
              && 0 <= td < NUM_HUFF_TBLS && 0 <= ta < NUM_HUFF_TBLS
              && SelectorBytes(comps[..i + 1]) == SelectorBytes(comps[..i]) + [c.id] + [td * 16 + ta]
    {
      NumbersOf(h, i);
      var comps, ts := SosFor(h).comps, NeededBy(h, h.comps[i]);
      assert comps[i] == SelectorFor(h, h.comps[i]);
      assert comps[..i + 1][..i] == comps[..i];
      assert ts != [] ==> ts[0] in ts;
      assert |ts| > 1 ==> ts[1] in ts;
    }

    /** emit_sos */
    method EmitSos(h: ScanHead) returns (s: MarkerStatus)
      requires dest.Valid() && NumbersOk(h)
      modifies dest
      ensures s.Written? ==> Wrote(MarkerSegment(SOS, SosPayload(SosFor(h))))
      ensures s.Failed? ==> s.error == Refused && !dest.empties
    {
      hide SosFor, SelectorBytes, TwoBytes;
      SosParts(h);
      TwoLong(2 * |h.comps| + 2 + 1 + 3);
      s := EmitHead(SOS, 2 * |h.comps| + 2 + 1 + 3);
      if s.Failed? {
        return;
      }
      s := EmitByte(|h.comps|);
      if s.Failed? {
        return;
      }
      s := EmitSelectors(h);
      if s.Failed? {
        return;
      }
      s := EmitList([h.ss, h.se, h.ah * 16 + h.al]);
    }

    static lemma SosParts(h: ScanHead)
      requires NumbersOk(h)
      ensures MarkerSegment(SOS, SosPayload(SosFor(h)))
           == [0xFF, SOS] + TwoBytes(2 * |h.comps| + 2 + 1 + 3) + [|h.comps|] + SelectorBytes(SosFor(h).comps) + [h.ss, h.se, h.ah * 16 + h.al]
    {
      hide SelectorBytes, TwoBytes;
      var head, a, b, c := [0xFF, SOS] + TwoBytes(2 * |h.comps| + 6), [|h.comps|], SelectorBytes(SosFor(h).comps), [h.ss, h.se, h.ah * 16 + h.al];
      assert SosPayload(SosFor(h)) == a + b + c;
      assert head + (a + b + c) == head + a + b + c;
    }

    /** A restart interval is announced only when it differs from the last one. */
    method EmitDriIfNew(restart: nat) returns (s: MarkerStatus)
      requires dest.Valid()
      modifies dest, this`lastRestartInterval
      ensures s.Written? ==> Wrote(DriBytes(old(lastRestartInterval), restart)) && lastRestartInterval == restart
      ensures s.Failed? ==> s.error == Refused && !dest.empties
    {
      hide TwoBytes, MarkerSegment;
      s := Written;
      if restart != lastRestartInterval {
        s := EmitDri(restart);
        if s.Failed? {
          return;
        }
        lastRestartInterval := restart;
      } else {
        assert dest.Committed() + [] == dest.Committed();
      }
    }

    /** The bytes of a scan header. */
    method EmitHeader(h: ScanHead) returns (s: MarkerStatus)
      requires dest.Valid() && HeadOk(h, slots)
      modifies dest, this`slots, this`lastRestartInterval
      ensures s.Written? ==> AllPresent(old(slots), Needed(h, |h.comps|)) && dest.Valid()
      ensures s.Written? ==> dest.Committed() == old(dest.Committed()) + HeaderBytes(old(slots), old(lastRestartInterval), h)
      ensures s.Written? ==> slots == MarkSent(old(slots), Needed(h, |h.comps|)) && lastRestartInterval == h.restart
      ensures s.Failed? ==> (if s.error == NoTable then exists t :: t in Needed(h, |h.comps|) && t !in old(slots) else s.error == Refused && !dest.empties)
    {
      hide HeadOk, AllPresent, Needed, NumbersOk, TableBytes, SosFor, MarkerSegment, SosPayload, MarkSent, DriBytes, HeaderBytes;
      ghost var base, before, last := dest.Committed(), slots, lastRestartInterval;
      s := EmitTables(h);
      if s.Failed? {
        return;
      }
      s := EmitDriIfNew(h.restart);
      if s.Failed? {
        return;
      }
      HeadHasNumbers(h, before);
      s := EmitSos(h);
      if s.Failed? {
        return;
      }
      HeaderJoined(base, before, last, h);
    }

    static lemma HeaderJoined(base: seq<byte>, slots: Slots, last: nat, h: ScanHead)
      requires HeadOk(h, slots) && AllPresent(slots, Needed(h, |h.comps|))
      ensures base + TableBytes(slots, Needed(h, |h.comps|)) + DriBytes(last, h.restart) + MarkerSegment(SOS, SosPayload(SosFor(h)))
           == base + HeaderBytes(slots, last, h)
    {
      hide TableBytes, DriBytes, MarkerSegment, SosPayload;
    }

    static lemma HeadHasNumbers(h: ScanHead, slots: Slots)
      requires HeadOk(h, slots)
      ensures NumbersOk(h)
    {}

    /** write_scan_header: afterwards a decoder that has read everything so far is at the scan's data with
        exactly the tables the scan uses, and sixteen bits of its restart interval. */
    method WriteScanHeader(h: ScanHead) returns (s: MarkerStatus)
      requires Valid() && HeadOk(h, slots)
      modifies this, dest
      ensures s.Written? ==> Valid() && AllPresent(old(slots), Needed(h, |h.comps|))
      ensures s.Written? ==> dest.Committed() == old(dest.Committed()) + HeaderBytes(old(slots), old(lastRestartInterval), h)
      ensures s.Written? ==> slots == MarkSent(old(slots), Needed(h, |h.comps|)) && lastRestartInterval == h.restart
      ensures s.Written? ==> Reads(HeaderBytes(old(slots), old(lastRestartInterval), h), old(dec), dec, SosFor(h))
      ensures s.Written? ==> HasTables(h, old(slots), dec) && dec.restart == h.restart % 0x1_0000
      ensures s.Failed? ==> (if s.error == NoTable then exists t :: t in Needed(h, |h.comps|) && t !in old(slots) else s.error == Refused && !dest.empties)
    {
      hide Offset, TableBytes, InSync, SosFor, ReadMarkers, MarkSent, HasTables, HeaderBytes, DecAfter, Reads;
      ghost var before, last := slots, lastRestartInterval;
      s := EmitHeader(h);
      if s.Written? {
        HeaderReads(before, last, h, dec);
        dec := DecAtScan(before, h, dec);
      }
    }

    /** Whatever follows these bytes, reading them leads from d to a scan with state d'. */
    static ghost predicate Reads(bytes: seq<byte>, d: DecState, d': DecState, sos: Sos) {
      forall rest :: ReadMarkers(bytes + rest, d) == ScanStart(d', sos, rest)
    }

    static lemma HeaderReads(slots: Slots, last: nat, h: ScanHead, d: DecState)
      requires HeadOk(h, slots) && AllPresent(slots, Needed(h, |h.comps|)) && InSync(slots, d) && d.restart == last % 0x1_0000
      ensures Reads(HeaderBytes(slots, last, h), d, DecAtScan(slots, h, d), SosFor(h))
      ensures InSync(MarkSent(slots, Needed(h, |h.comps|)), DecAtScan(slots, h, d)) && HasTables(h, slots, DecAtScan(slots, h, d))
    {
      hide HeaderBytes, ReadMarkers, AllPresent, InSync, MarkSent, HasTables, DecAtScan, SosFor;
      HeaderRead(slots, last, h, d, []);
      forall rest
        ensures ReadMarkers(HeaderBytes(slots, last, h) + rest, d) == ScanStart(DecAtScan(slots, h, d), SosFor(h), rest)
      {
        HeaderRead(slots, last, h, d, rest);
      }
    }

    /** SOI, the start of write_file_header: it resets the restart interval on both sides. */
    method WriteFileHeader() returns (s: MarkerStatus)
      requires dest.Valid() && InSync(slots, dec)
      modifies this`lastRestartInterval, this`dec, dest
      ensures s.Written? ==> Valid() && Wrote([0xFF, SOI])
      ensures s.Written? ==> forall rest :: ReadMarkers([0xFF, SOI] + rest, old(dec)) == ReadMarkers(rest, dec)
    {
      hide InSync, ReadMarkers;
      s := EmitMarker(SOI);
      if s.Written? {
        lastRestartInterval := 0;
        InSyncStays(slots, dec, 0);
        forall rest
          ensures ReadMarkers([0xFF, SOI] + rest, dec) == ReadMarkers(rest, dec.(restart := 0))
        {
          ReadSoi(dec, rest);
        }
        dec := dec.(restart := 0);
      }
    }

    static lemma InSyncStays(slots: Slots, d: DecState, n: nat)
      requires InSync(slots, d)
      ensures InSync(slots, d.(restart := n))
    {}

    /** Any other segment that the application may add. Nothing the decoder remembers changes by a COM or APPn
        segment, or by another that it passes over. */
    method WriteMarker(marker: byte, data: seq<byte>) returns (s: MarkerStatus)
      requires Valid()
      modifies dest
      ensures s.Written? ==> Valid() && Wrote(MarkerSegment(marker, data))
      ensures s.Written? && PassedOver(marker) ==>
                forall rest :: ReadMarkers(MarkerSegment(marker, data) + rest, dec) == ReadMarkers(rest, dec)
      ensures |data| > 65533 <==> s == Failed(BadLength)
      ensures s.Failed? && s.error != BadLength ==> s.error == Refused && !dest.empties
    {
      hide InSync, ReadMarkers, TwoBytes;
      if |data| > 65533 {
        return Failed(BadLength);
      }
      TwoLong(|data| + 2);
      s := EmitHead(marker, |data| + 2);
      if s.Failed? {
        return;
      }
      s := EmitList(data);
      if PassedOver(marker) {
        forall rest
          ensures ReadMarkers(MarkerSegment(marker, data) + rest, dec) == ReadMarkers(rest, dec)
        {
          ReadOther(marker, data, dec, rest);
        }
      }
    }

    /** jpeg_suppress_tables: with FALSE all tables are to be written again, whatever a decoder has. */
    method SuppressTables(suppress: bool)
      modifies this`slots
      ensures slots.Keys == old(slots).Keys && forall t :: t in slots ==> slots[t] == Slot(old(slots)[t].tbl, suppress)
      ensures !suppress ==> forall d :: InSync(slots, d)
    {
      slots := map t | t in slots :: Slot(slots[t].tbl, suppress);
    }

    /** A new table takes the place of an old one, as in jpeg_gen_optimal_table and add_huff_table: not sent yet. */
    method ReplaceTable(t: TableId, tbl: Table)
      requires Valid()
      modifies this`slots
      ensures Valid() && slots == old(slots)[t := Slot(tbl, false)]
    {
      hide Offset, Canonical;
      slots := slots[t := Slot(tbl, false)];
    }
  }
}
