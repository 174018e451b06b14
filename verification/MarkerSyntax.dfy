/** The marker segments before a scan's data, as a decoder reads them: DHT, DRI and SOS
    (sections B.2.3 and B.2.4 of T.81). */
module MarkerSyntax {
  import opened Bits
  import opened ByteStuffing
  import opened HuffmanTable
  import opened EntropyOps

  const SOI := 0xD8
  const SOS := 0xDA
  const DHT := 0xC4
  const DRI := 0xDD

  /** One component of a scan header: identifier and table selectors. */
  datatype Selector = Selector(id: byte, td: nat, ta: nat)
  datatype Sos = Sos(comps: seq<Selector>, ss: nat, se: nat, ah: nat, al: nat)

  /** What a decoder remembers from one scan to the next. */
  datatype DecState = DecState(tabs: Tables, restart: nat)
  datatype Header = BadHeader | ScanStart(d: DecState, sos: Sos, rest: seq<byte>)

  /** A table as it can be sent: no entry for length 0, no values beyond the listed ones. */
  function Canonical(t: Table): (c: Table)
    requires Offset(t.bits, 17) <= 256
  {
    RawTable([0] + t.bits[1..], t.huffval[..Offset(t.bits, 17)] + seq(256 - Offset(t.bits, 17), _ => 0))
  }

  lemma {:induction false} OffsetDepends(a: Counts, b: Counts, l: nat)
    requires 1 <= l <= 17 && a[1..] == b[1..]
    ensures Offset(a, l) == Offset(b, l) && FirstCode(a, l) == FirstCode(b, l)
  {
    if l > 1 {
      OffsetDepends(a, b, l - 1);
      assert a[l - 1] == a[1..][l - 2];
      assert b[l - 1] == b[1..][l - 2];
    }
  }

  lemma CanonicalCounts(t: Table, l: nat)
    requires 1 <= l <= 17 && Offset(t.bits, 17) <= 256
    ensures Offset(Canonical(t).bits, l) == Offset(t.bits, l) && FirstCode(Canonical(t).bits, l) == FirstCode(t.bits, l)
    ensures l < 17 ==> Canonical(t).bits[l] == t.bits[l]
    ensures Canonical(t).bits[1..] == t.bits[1..]
  {
    hide Offset, FirstCode;
    assert ([0] + t.bits[1..])[1..] == t.bits[1..];
    OffsetDepends(Canonical(t).bits, t.bits, l);
  }

  lemma CanonicalValues(t: Table)
    requires Offset(t.bits, 17) <= 256
    ensures Offset(Canonical(t).bits, 17) == Offset(t.bits, 17)
    ensures Canonical(t).huffval[..Offset(t.bits, 17)] == t.huffval[..Offset(t.bits, 17)]
    ensures forall p :: 0 <= p < Offset(t.bits, 17) ==> Canonical(t).huffval[p] == t.huffval[p]
  {
    hide Offset;
    CanonicalCounts(t, 17);
  }

  /** The table a decoder reads is as good as the encoder's: it is legal, and yields the same codes. */
  lemma CanonicalServes(t: Table, isDC: bool, d: Derived)
    requires Legal(t, isDC) && Derives(t, d)
    ensures Legal(Canonical(t), isDC) && Derives(Canonical(t), d)
  {
    CanonicalLegal(t, isDC);
    CanonicalDerives(t, d);
  }

  lemma CanonicalLegal(t: Table, isDC: bool)
    requires Legal(t, isDC)
    ensures Legal(Canonical(t), isDC)
  {
    hide Offset, FirstCode, Canonical, Pow2;
    var c := Canonical(t);
    CanonicalValues(t);
    forall l | 1 <= l <= 16
      ensures FirstCode(c.bits, l) + c.bits[l] < Pow2(l)
    {
      CanonicalCounts(t, l);
    }
  }

  lemma CanonicalDerives(t: Table, d: Derived)
    requires Offset(t.bits, 17) <= 256 && Derives(t, d) && Offset(Canonical(t).bits, 17) <= 256
    ensures Derives(Canonical(t), d)
  {
    hide Offset, FirstCode, Canonical;
    var c := Canonical(t);
    CanonicalValues(t);
    forall p: nat, l: nat | HasLength(c.bits, p, l) && p < Offset(c.bits, 17)
      ensures d.ehufsi[c.huffval[p]] == l && d.ehufco[c.huffval[p]] == CodeOf(c.bits, p, l)
    {
      CanonicalCounts(t, l);
      CanonicalCounts(t, l + 1);
      assert HasLength(t.bits, p, l);
    }
  }

  // ----- reading -----

  function Word(hi: byte, lo: byte): nat {
    256 * hi + lo
  }

  datatype TablesResult = BadTables | ReadTables(tabs: Tables)

  /** The tables of a DHT segment. */
  function TablesOf(payload: seq<byte>, tabs: Tables): TablesResult
    decreases |payload|
  {
    if payload == [] then ReadTables(tabs)
    else if |payload| < 17 then BadTables
    else
      var bits := [0] + payload[1..17];
      var n := Offset(bits, 17);
      if n > 256 || |payload| < 17 + n then BadTables
      else
        var t := RawTable(bits, payload[17..17 + n] + seq(256 - n, _ => 0));
        TablesOf(payload[17 + n..], tabs[TableId(payload[0] / 16 == 1, payload[0] % 16) := t])
  }

  function SelectorsOf(payload: seq<byte>): (s: seq<Selector>)
    requires |payload| % 2 == 0
  {
    if payload == [] then []
    else [Selector(payload[0], payload[1] / 16, payload[1] % 16)] + SelectorsOf(payload[2..])
  }

  datatype SosResult = BadSos | ReadSos(sos: Sos)

  function SosOf(payload: seq<byte>): SosResult {
    if payload == [] || |payload| != 4 + 2 * payload[0] as int then BadSos
    else
      var n: int := payload[0];
      assert |payload[1..1 + 2 * n]| % 2 == 0;
      ReadSos(Sos(SelectorsOf(payload[1..1 + 2 * n]), payload[1 + 2 * n], payload[2 + 2 * n],
                  payload[3 + 2 * n] / 16, payload[3 + 2 * n] % 16))
  }

  /** Read marker segments up to and including a scan header. Segments of other kinds are passed over. */
  function ReadMarkers(bytes: seq<byte>, d: DecState): Header
    decreases |bytes|
  {
    if |bytes| < 2 || bytes[0] != 0xFF then BadHeader
    else if bytes[1] == SOI then ReadMarkers(bytes[2..], d.(restart := 0))
    else if |bytes| < 4 then BadHeader
    else
      var len := Word(bytes[2], bytes[3]);
      if len < 2 || |bytes| < 2 + len then BadHeader
      else
        var payload, rest := bytes[4..2 + len], bytes[2 + len..];
        if bytes[1] == DHT then
          match TablesOf(payload, d.tabs)
          case BadTables => BadHeader
          case ReadTables(tabs) => ReadMarkers(rest, d.(tabs := tabs))
        else if bytes[1] == DRI then
          if |payload| != 2 then BadHeader else ReadMarkers(rest, d.(restart := Word(payload[0], payload[1])))
        else if bytes[1] == SOS then
          match SosOf(payload)
          case BadSos => BadHeader
          case ReadSos(sos) => ScanStart(d, sos, rest)
        else ReadMarkers(rest, d)
  }

  // ----- writing -----

  function TwoBytes(v: nat): seq<byte> {
    [(v / 256) % 256, v % 256]
  }

  /** A marker segment: code, length and contents. */
  function MarkerSegment(code: byte, payload: seq<byte>): seq<byte> {
    [0xFF, code] + TwoBytes(|payload| + 2) + payload
  }

  function DhtPayload(t: TableId, tbl: Table): seq<byte>
    requires Offset(tbl.bits, 17) <= 256 && 0 <= t.no < NUM_HUFF_TBLS
  {
    [(if t.isAC then 0x10 else 0) + t.no] + tbl.bits[1..] + tbl.huffval[..Offset(tbl.bits, 17)]
  }

  function SelectorBytes(comps: seq<Selector>): (s: seq<byte>)
    requires forall i :: 0 <= i < |comps| ==> comps[i].td < 16 && comps[i].ta < 16
    ensures |s| == 2 * |comps|
  {
    if comps == [] then [] else SelectorBytes(comps[..|comps| - 1]) + [comps[|comps| - 1].id, comps[|comps| - 1].td * 16 + comps[|comps| - 1].ta]
  }

  predicate SosOk(sos: Sos) {
    && |sos.comps| < 256 && sos.ss < 256 && sos.se < 256 && sos.ah < 16 && sos.al < 16
    && forall i :: 0 <= i < |sos.comps| ==> sos.comps[i].td < 16 && sos.comps[i].ta < 16
  }

  function SosPayload(sos: Sos): seq<byte>
    requires SosOk(sos)
  {
    [|sos.comps|] + SelectorBytes(sos.comps) + [sos.ss, sos.se, sos.ah * 16 + sos.al]
  }

  // ----- the bytes of the segments -----

  /** Section B.2.4.2 of T.81: marker, length, class and destination, sixteen counts, and the values they count. */
  lemma DhtBytewise(t: TableId, tbl: Table)
    requires Offset(tbl.bits, 17) <= 256 && 0 <= t.no <= 3
    ensures var n, b := Offset(tbl.bits, 17), MarkerSegment(DHT, DhtPayload(t, tbl));
            && |b| == 21 + n && b[0] == 0xFF && b[1] == 0xC4 && 256 * b[2] as int + b[3] as int == 19 + n
            && b[4] == (if t.isAC then 16 else 0) + t.no
            && (forall l :: 1 <= l <= 16 ==> b[4 + l] == tbl.bits[l]) && (forall p :: 0 <= p < n ==> b[21 + p] == tbl.huffval[p])
  {
    hide Offset;
    var n, head := Offset(tbl.bits, 17), [(if t.isAC then 0x10 else 0) + t.no];
    var b := MarkerSegment(DHT, DhtPayload(t, tbl));
    assert b == [0xFF, 0xC4] + TwoBytes(19 + n) + head + tbl.bits[1..] + tbl.huffval[..n];
  }

  /** Section B.2.4.4. */
  lemma DriBytewise(n: nat)
    requires n <= 65535
    ensures var b := MarkerSegment(DRI, TwoBytes(n));
            |b| == 6 && b[..4] == [0xFF, 0xDD, 0, 4] && 256 * b[4] as int + b[5] as int == n
  {
    assert TwoBytes(4) == [0, 4];
    assert MarkerSegment(DRI, TwoBytes(n)) == [0xFF, 0xDD] + TwoBytes(4) + TwoBytes(n);
  }

  /** Section B.2.3: each component's selectors, and the band and bit positions of the scan. */
  lemma SosBytewise(sos: Sos)
    requires SosOk(sos)
    ensures var n, b := |sos.comps|, MarkerSegment(SOS, SosPayload(sos));
            && |b| == 8 + 2 * n && b[0] == 0xFF && b[1] == 0xDA && 256 * b[2] as int + b[3] as int == 6 + 2 * n && b[4] as int == n
            && (forall i :: 0 <= i < n ==> b[5 + 2 * i] == sos.comps[i].id && b[6 + 2 * i] as int == 16 * sos.comps[i].td + sos.comps[i].ta)
            && b[5 + 2 * n..] == [sos.ss, sos.se, 16 * sos.ah + sos.al]
  {
    hide SelectorBytes;
    var n, s, last := |sos.comps|, SelectorBytes(sos.comps), [sos.ss, sos.se, 16 * sos.ah + sos.al];
    var b := MarkerSegment(SOS, SosPayload(sos));
    assert b == [0xFF, 0xDA] + TwoBytes(6 + 2 * n) + [n] + s + last;
    assert ([0xFF, 0xDA] + TwoBytes(6 + 2 * n) + [n] + s)[..] == b[..5 + 2 * n];
    forall i | 0 <= i < n
      ensures b[5 + 2 * i] == sos.comps[i].id && b[6 + 2 * i] as int == 16 * sos.comps[i].td + sos.comps[i].ta
    {
      SelectorBytewise(sos.comps, i);
      assert b[5 + 2 * i] == s[2 * i] && b[6 + 2 * i] == s[2 * i + 1];
    }
  }

  lemma {:induction false} SelectorBytewise(comps: seq<Selector>, i: nat)
    requires i < |comps| && forall i :: 0 <= i < |comps| ==> comps[i].td < 16 && comps[i].ta < 16
    ensures SelectorBytes(comps)[2 * i] == comps[i].id && SelectorBytes(comps)[2 * i + 1] as int == 16 * comps[i].td + comps[i].ta
  {
    if i < |comps| - 1 {
      SelectorBytewise(comps[..|comps| - 1], i);
    }
  }

  // ----- reading what was written -----

  lemma TwoBytesRead(v: nat)
    requires v < 0x1_0000
    ensures Word(TwoBytes(v)[0], TwoBytes(v)[1]) == v
  {}

  /** A segment is read as one. */
  lemma SegmentIs(code: byte, payload: seq<byte>, rest: seq<byte>)
    requires |payload| + 2 < 0x1_0000
    ensures var bytes := MarkerSegment(code, payload) + rest;
            && |bytes| >= 4 && bytes[0] == 0xFF && bytes[1] == code && Word(bytes[2], bytes[3]) == |payload| + 2
            && |bytes| >= 2 + (|payload| + 2) && bytes[4..2 + (|payload| + 2)] == payload && bytes[2 + (|payload| + 2)..] == rest
  {
    TwoBytesRead(|payload| + 2);
    var head := [0xFF, code] + TwoBytes(|payload| + 2);
    var bytes := head + payload + rest;
    assert bytes == head + (payload + rest);
    assert bytes[4..] == payload + rest;
    assert bytes[4..2 + (|payload| + 2)] == (payload + rest)[..|payload|];
    assert bytes[2 + (|payload| + 2)..] == (payload + rest)[|payload|..];
  }

  lemma DhtIs(t: TableId, tbl: Table, tabs: Tables)
    requires Offset(tbl.bits, 17) <= 256 && 0 <= t.no < NUM_HUFF_TBLS
    ensures TablesOf(DhtPayload(t, tbl), tabs) == ReadTables(tabs[t := Canonical(tbl)])
    ensures |DhtPayload(t, tbl)| == 17 + Offset(tbl.bits, 17)
  {
    hide Offset;
    var p, n := DhtPayload(t, tbl), Offset(tbl.bits, 17);
    assert p[1..17] == tbl.bits[1..];
    CanonicalCounts(tbl, 17);
    assert p[17..17 + n] == tbl.huffval[..n];
    assert p[17 + n..] == [];
    assert TableId(p[0] / 16 == 1, p[0] % 16) == t;
    DhtOne(p, tabs, Canonical(tbl), t, n);
  }

  lemma DhtOne(p: seq<byte>, tabs: Tables, c: Table, t: TableId, n: nat)
    requires |p| == 17 + n && n <= 256 && c.bits == [0] + p[1..17] && Offset(c.bits, 17) == n
    requires c.huffval == p[17..17 + n] + seq(256 - n, _ => 0) && t == TableId(p[0] / 16 == 1, p[0] % 16)
    ensures TablesOf(p, tabs) == ReadTables(tabs[t := c])
  {
    hide Offset;
    assert p[17 + n..] == [];
  }

  /** Reading past a table definition. */
  lemma ReadDht(t: TableId, tbl: Table, d: DecState, rest: seq<byte>)
    requires Offset(tbl.bits, 17) <= 256 && 0 <= t.no < NUM_HUFF_TBLS
    ensures ReadMarkers(MarkerSegment(DHT, DhtPayload(t, tbl)) + rest, d) == ReadMarkers(rest, d.(tabs := d.tabs[t := Canonical(tbl)]))
  {
    hide TablesOf, DhtPayload, MarkerSegment, Word, Offset, Canonical;
    DhtIs(t, tbl, d.tabs);
    SegmentIs(DHT, DhtPayload(t, tbl), rest);
  }

  /** Reading past a restart interval: sixteen bits of it. */
  lemma ReadDri(n: nat, d: DecState, rest: seq<byte>)
    ensures ReadMarkers(MarkerSegment(DRI, TwoBytes(n)) + rest, d) == ReadMarkers(rest, d.(restart := n % 0x1_0000))
  {
    hide MarkerSegment, ReadMarkers;
    SegmentIs(DRI, TwoBytes(n), rest);
    SixteenBits(n);
    DriStep(MarkerSegment(DRI, TwoBytes(n)) + rest, TwoBytes(n), rest, d, n % 0x1_0000);
  }

  lemma SixteenBits(n: nat)
    ensures Word(TwoBytes(n)[0], TwoBytes(n)[1]) == n % 0x1_0000
  {}

  lemma DriStep(bytes: seq<byte>, payload: seq<byte>, rest: seq<byte>, d: DecState, v: nat)
    requires |bytes| >= 6 && bytes[0] == 0xFF && bytes[1] == DRI && Word(bytes[2], bytes[3]) == 4
    requires bytes[4..6] == payload && bytes[6..] == rest && |payload| == 2 && Word(payload[0], payload[1]) == v
    ensures ReadMarkers(bytes, d) == ReadMarkers(rest, d.(restart := v))
  {
    hide Word, TablesOf, SosOf;
  }

  lemma Nibbles(hi: nat, lo: nat)
    requires hi < 16 && lo < 16
    ensures hi * 16 + lo < 256 && (hi * 16 + lo) / 16 == hi && (hi * 16 + lo) % 16 == lo
  {}

  lemma OneSelector(c: Selector, s: seq<byte>, more: seq<byte>)
    requires |more| % 2 == 0 && |s| >= 2 && s[0] == c.id && s[1] as int / 16 == c.td && s[1] as int % 16 == c.ta && s[2..] == more
    ensures SelectorsOf(s) == [c] + SelectorsOf(more)
  {}

  lemma {:induction false} SelectorsRead(comps: seq<Selector>, more: seq<byte>)
    requires |more| % 2 == 0 && forall i :: 0 <= i < |comps| ==> comps[i].td < 16 && comps[i].ta < 16
    ensures SelectorsOf(SelectorBytes(comps) + more) == comps + SelectorsOf(more)
    decreases |comps|
  {
    hide SelectorsOf;
    if comps == [] {
      assert [] + more == more;
      assert [] + SelectorsOf(more) == SelectorsOf(more);
    } else {
      var n := |comps| - 1;
      var c := comps[n];
      var s: seq<byte> := [c.id, c.td * 16 + c.ta];
      SelectorsRead(comps[..n], s + more);
      Nibbles(c.td, c.ta);
      OneSelector(c, s + more, more);
      assert SelectorBytes(comps) + more == SelectorBytes(comps[..n]) + (s + more);
      assert comps[..n] + ([c] + SelectorsOf(more)) == comps + SelectorsOf(more);
    }
  }

  lemma SosIs(sos: Sos)
    requires SosOk(sos)
    ensures SosOf(SosPayload(sos)) == ReadSos(sos) && |SosPayload(sos)| == 4 + 2 * |sos.comps|
  {
    hide SelectorBytes;
    var p, n := SosPayload(sos), |sos.comps|;
    SelectorsRead(sos.comps, []);
    assert SelectorBytes(sos.comps) + [] == SelectorBytes(sos.comps);
    assert p[1..1 + 2 * n] == SelectorBytes(sos.comps);
    assert sos.comps + [] == sos.comps;
  }

  /** Reading a scan header ends at the scan's data. */
  lemma ReadSosSegment(sos: Sos, d: DecState, rest: seq<byte>)
    requires SosOk(sos)
    ensures ReadMarkers(MarkerSegment(SOS, SosPayload(sos)) + rest, d) == ScanStart(d, sos, rest)
  {
    hide SosOf, SosPayload, MarkerSegment, Word;
    SosIs(sos);
    SegmentIs(SOS, SosPayload(sos), rest);
  }

  /** Segments that carry nothing this decoder remembers. */
  predicate PassedOver(code: byte) {
    code in {0xC0, 0xC1, 0xC2, 0xDB, 0xFE} || 0xE0 <= code <= 0xEF
  }

  lemma ReadOther(code: byte, payload: seq<byte>, d: DecState, rest: seq<byte>)
    requires PassedOver(code) && |payload| + 2 < 0x1_0000
    ensures ReadMarkers(MarkerSegment(code, payload) + rest, d) == ReadMarkers(rest, d)
  {
    hide MarkerSegment, Word;
    SegmentIs(code, payload, rest);
  }

  lemma ReadSoi(d: DecState, rest: seq<byte>)
    ensures ReadMarkers([0xFF, SOI] + rest, d) == ReadMarkers(rest, d.(restart := 0))
  {
    assert ([0xFF, SOI] + rest)[2..] == rest;
  }
}
