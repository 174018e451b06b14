/** Huffman tables as a DHT marker carries them, the encoder's derived form, and the
    decoder's code matching (Annex C and section F.2.2.3 of T.81). */
module HuffmanTable {
  import opened Bits
  import opened ByteStuffing
  import opened Arithmetic

  const NUM_HUFF_TBLS := 4
  const MAX_CODE_LENGTH := 16

  datatype Option<+T> = None | Some(value: T)

  /** bits[l] codes have length l; huffval lists the symbols in order of code length. */
  datatype RawTable = RawTable(bits: seq<byte>, huffval: seq<byte>)
  type Table = t: RawTable | |t.bits| == 17 && |t.huffval| == 256
    witness RawTable(seq(17, _ => 0), seq(256, _ => 0))

  datatype Derived = Derived(ehufco: seq<nat>, ehufsi: seq<nat>)

  datatype TableError = NoHuffTable | BadHuffTable
  datatype DeriveResult = Good(tbl: Derived) | Bad(error: TableError)

  type Counts = b: seq<byte> | |b| == 17 witness seq(17, _ => 0)

  /** How many symbols have codes shorter than l. */
  function Offset(bits: Counts, l: nat): (n: nat)
    requires 1 <= l <= 17
  {
    if l == 1 then 0 else Offset(bits, l - 1) + bits[l - 1]
  }

  /** The smallest code of length l in the canonical assignment. */
  function FirstCode(bits: Counts, l: nat): (n: nat)
    requires 1 <= l <= 17
  {
    if l == 1 then 0 else 2 * (FirstCode(bits, l - 1) + bits[l - 1])
  }

  /** Every length's codes fit with one to spare, so no code is all ones. */
  ghost predicate LegalCounts(bits: Counts) {
    && Offset(bits, 17) <= 256
    && forall l :: 1 <= l <= 16 ==> FirstCode(bits, l) + bits[l] < Pow2(l)
  }

  function MaxSymbol(isDC: bool): nat {
    if isDC then 15 else 255
  }

  ghost predicate LegalValues(t: Table, isDC: bool)
    requires Offset(t.bits, 17) <= 256
  {
    && (forall p :: 0 <= p < Offset(t.bits, 17) ==> t.huffval[p] <= if isDC then 15 else 255)
    && (forall p, q :: 0 <= p < q < Offset(t.bits, 17) ==> t.huffval[p] != t.huffval[q])
  }

  /** What a legal Huffman table definition is. */
  ghost predicate Legal(t: Table, isDC: bool) {
    LegalCounts(t.bits) && LegalValues(t, isDC)
  }

  /** The p-th symbol has a code of length l. */
  ghost predicate HasLength(bits: Counts, p: nat, l: nat) {
    1 <= l <= 16 && Offset(bits, l) <= p < Offset(bits, l + 1)
  }

  function CodeOf(bits: Counts, p: nat, l: nat): (c: nat)
    requires 1 <= l <= 16 && Offset(bits, l) <= p
  {
    FirstCode(bits, l) + (p - Offset(bits, l))
  }

  /** The derived table gives each listed symbol its canonical code, all others none. */
  ghost predicate Derives(t: Table, d: Derived)
    requires Offset(t.bits, 17) <= 256
  {
    && |d.ehufco| == 256 && |d.ehufsi| == 256
    && (forall p: nat, l: nat :: HasLength(t.bits, p, l) && p < Offset(t.bits, 17) ==>
          d.ehufsi[t.huffval[p]] == l && d.ehufco[t.huffval[p]] == CodeOf(t.bits, p, l))
    && (forall s: byte :: s !in t.huffval[..Offset(t.bits, 17)] ==> d.ehufsi[s] == 0)
  }

  lemma {:induction false} OffsetMonotone(bits: Counts, k: nat, l: nat)
    requires 1 <= k <= l <= 17
    ensures Offset(bits, k) <= Offset(bits, l)
    decreases l - k
  {
    if k < l {
      OffsetMonotone(bits, k + 1, l);
    }
  }

  lemma {:induction false} LengthExists(bits: Counts, p: nat, k: nat) returns (l: nat)
    requires 1 <= k <= 17 && p < Offset(bits, k)
    ensures l < k && HasLength(bits, p, l)
  {
    if p < Offset(bits, k - 1) {
      l := LengthExists(bits, p, k - 1);
    } else {
      l := k - 1;
    }
  }

  lemma LengthUnique(bits: Counts, p: nat, k: nat, l: nat)
    requires HasLength(bits, p, k) && HasLength(bits, p, l)
    ensures k == l
  {
    if k < l {
      OffsetMonotone(bits, k + 1, l);
    } else if l < k {
      OffsetMonotone(bits, l + 1, k);
    }
  }

  lemma {:induction false} NoShorterCodes(bits: Counts, l: nat)
    requires 1 <= l <= 17 && Offset(bits, l) == 0
    ensures FirstCode(bits, l) == 0
  {
    if l > 1 {
      NoShorterCodes(bits, l - 1);
    }
  }

  lemma {:induction false} CodesGrow(bits: Counts, k: nat, l: nat)
    requires 1 <= k < l <= 17
    ensures (FirstCode(bits, k) + bits[k]) * Pow2(l - k) <= FirstCode(bits, l)
    decreases l - k
  {
    if k + 1 < l {
      CodesGrow(bits, k + 1, l);
      GrowsBy(FirstCode(bits, k) + bits[k], bits[k + 1], Pow2(l - k - 1));
    }
  }

  lemma GrowsBy(here: nat, more: nat, p: nat)
    ensures here * (2 * p) <= (2 * here + more) * p
  {
    Assoc(here, 2, p);
    Distribute(2 * here, more, p);
  }

  // ----- the decoder -----

  datatype Decoded = NoCode | Symbol(sym: byte, rest: seq<bool>)

  /** MAXCODE of Figure F.15. */
  function MaxCode(bits: Counts, l: nat): int
    requires 1 <= l <= 16
  {
    if bits[l] == 0 then -1 else FirstCode(bits, l) + bits[l] - 1
  }

  /** DECODE of Figure F.16, having read l - 1 bits that make up `code`. */
  function DecodeFrom(t: Table, bs: seq<bool>, l: nat, code: nat): Decoded
    requires 1 <= l <= 17
    decreases 17 - l
  {
    if l == 17 || bs == [] then NoCode
    else
      var c := 2 * code + (if bs[0] then 1 else 0);
      if c > MaxCode(t.bits, l) then DecodeFrom(t, bs[1..], l + 1, c)
      else
        var j := Offset(t.bits, l) + (c - FirstCode(t.bits, l));
        if 0 <= j < 256 then Symbol(t.huffval[j], bs[1..]) else NoCode
  }

  function DecodeSymbol(t: Table, bs: seq<bool>): Decoded {
    DecodeFrom(t, bs, 1, 0)
  }

  /** Decoding the last l - k + 1 bits of the p-th symbol's code c. */
  lemma {:induction false} DecodeRestOfCode(t: Table, p: nat, l: nat, c: nat, k: nat, rest: seq<bool>)
    requires LegalCounts(t.bits) && HasLength(t.bits, p, l) && p < 256 && c == CodeOf(t.bits, p, l)
    requires 1 <= k <= l
    ensures DecodeFrom(t, ToBits(c, l - k + 1) + rest, k, Shr(c, l - k + 1)) == Symbol(t.huffval[p], rest)
    decreases l - k
  {
    hide ToBits, DecodeFrom, FirstCode, Offset, MaxCode, Pow2, Shr, LegalCounts;
    var n := l - k + 1;
    SplitCode(c, n, rest);
    DecodeStep(t, ToBits(c, n) + rest, k, Shr(c, n));
    CodeInRange(t.bits, p, l, k);
    if k == l {
      NoBitsLeft(c, rest);
    } else {
      DecodeRestOfCode(t, p, l, c, k + 1, rest);
    }
  }

  /** Taking one bit off the front of the unread part of a code. */
  lemma SplitCode(c: nat, n: nat, rest: seq<bool>)
    requires n > 0
    ensures var bs := ToBits(c, n) + rest;
            && bs != [] && bs[1..] == ToBits(c, n - 1) + rest
            && 2 * Shr(c, n) + (if bs[0] then 1 else 0) == Shr(c, n - 1)
  {
    ToBitsFirst(c, n);
    ShrStep(c, n - 1);
    hide *;
    var more := ToBits(c, n - 1);
    assert [Shr(c, n - 1) % 2 == 1] + more + rest == [Shr(c, n - 1) % 2 == 1] + (more + rest);
  }

  lemma LastOfLength(bits: Counts, p: nat, l: nat)
    requires HasLength(bits, p, l)
    ensures CodeOf(bits, p, l) <= MaxCode(bits, l)
  {}

  /** The first k bits of a length-l code exceed MAXCODE(k) for k < l, and not for k = l. */
  lemma CodeInRange(bits: Counts, p: nat, l: nat, k: nat)
    requires LegalCounts(bits) && HasLength(bits, p, l) && 1 <= k <= l
    ensures k < l ==> Shr(CodeOf(bits, p, l), l - k) > MaxCode(bits, k)
    ensures k == l ==> CodeOf(bits, p, l) <= MaxCode(bits, k)
    ensures Offset(bits, l) + (CodeOf(bits, p, l) - FirstCode(bits, l)) == p
  {
    hide Pow2, Shr, Offset, LegalCounts;
    LastOfLength(bits, p, l);
    if k < l {
      CodesGrow(bits, k, l);
      ShrAtLeast(CodeOf(bits, p, l), FirstCode(bits, k) + bits[k], l - k);
    }
  }

  /** One turn of the DECODE loop. */
  lemma DecodeStep(t: Table, bs: seq<bool>, l: nat, code: nat)
    requires 1 <= l <= 16 && bs != []
    ensures var c := 2 * code + (if bs[0] then 1 else 0);
            if c > MaxCode(t.bits, l) then DecodeFrom(t, bs, l, code) == DecodeFrom(t, bs[1..], l + 1, c)
            else
              var j := Offset(t.bits, l) + (c - FirstCode(t.bits, l));
              0 <= j < 256 ==> DecodeFrom(t, bs, l, code) == Symbol(t.huffval[j], bs[1..])
  {}

  lemma NoBitsLeft(c: nat, rest: seq<bool>)
    ensures ToBits(c, 0) + rest == rest && Shr(c, 0) == c
  {}

  lemma NotAllOnes(bits: Counts, p: nat, l: nat)
    requires LegalCounts(bits) && HasLength(bits, p, l)
    ensures CodeOf(bits, p, l) < Pow2(l) - 1
  {}

  /** The decoder recognises every code of a legal table and stops right after it. */
  lemma DecodeCode(t: Table, p: nat, l: nat, rest: seq<bool>)
    requires LegalCounts(t.bits) && HasLength(t.bits, p, l)
    ensures p < 256
    ensures CodeOf(t.bits, p, l) < Pow2(l) - 1
    ensures DecodeSymbol(t, ToBits(CodeOf(t.bits, p, l), l) + rest) == Symbol(t.huffval[p], rest)
  {
    hide ToBits, DecodeFrom, FirstCode, Pow2, Shr;
    OffsetMonotone(t.bits, l + 1, 17);
    NotAllOnes(t.bits, p, l);
    DecodeRestOfCode(t, p, l, CodeOf(t.bits, p, l), 1, rest);
    ShrAtLeast(CodeOf(t.bits, p, l), 1, l);
  }

  /** Only a symbol's own code begins with its code: the code is prefix-free. */
  lemma PrefixFree(t: Table, isDC: bool, p: nat, k: nat, q: nat, l: nat)
    requires Legal(t, isDC) && HasLength(t.bits, p, k) && HasLength(t.bits, q, l)
    requires ToBits(CodeOf(t.bits, p, k), k) <= ToBits(CodeOf(t.bits, q, l), l)
    ensures p == q
  {
    var a, b := ToBits(CodeOf(t.bits, p, k), k), ToBits(CodeOf(t.bits, q, l), l);
    OffsetMonotone(t.bits, k + 1, 17);
    OffsetMonotone(t.bits, l + 1, 17);
    DecodeCode(t, p, k, b[k..]);
    DecodeCode(t, q, l, []);
    SamePrefix(a, b);
    assert t.huffval[p] == t.huffval[q];
  }

  lemma SamePrefix(a: seq<bool>, b: seq<bool>)
    requires a <= b
    ensures a + b[|a|..] == b + []
  {}

  // ----- the encoder's derived table -----

  /** huffsize[] holds the code lengths of the first Offset(l) symbols. */
  ghost predicate SizesListed(bits: Counts, sizes: seq<nat>, l: nat)
    requires 1 <= l <= 17
  {
    && Offset(bits, l) <= |sizes|
    && forall p: nat, k: nat :: HasLength(bits, p, k) && p < Offset(bits, l) ==> sizes[p] == k
  }

  /** Figure C.1: the code length of each symbol, with a zero after the last. */
  method FillSizes(bits: Counts, huffsize: array<nat>) returns (ok: bool, lastp: nat)
    requires huffsize.Length == 257
    modifies huffsize
    ensures ok <==> Offset(bits, 17) <= 256
    ensures ok ==> lastp == Offset(bits, 17) && huffsize[lastp] == 0 && SizesListed(bits, huffsize[..], 17)
  {
    var p, l := 0, 1;
    while l <= 16
      invariant 1 <= l <= 17 && p == Offset(bits, l) <= 256
      invariant SizesListed(bits, huffsize[..], l)
    {
      hide SizesListed;
      var i := bits[l];
      if p + i > 256 {
        OffsetMonotone(bits, l + 1, 17);
        return false, 0;
      }
      p := FillRun(bits, huffsize, l, p);
      l := l + 1;
    }
    huffsize[p] := 0;
    return true, p;
  }

  /** The inner loop of Figure C.1 for one code length. */
  method FillRun(bits: Counts, huffsize: array<nat>, l: nat, start: nat) returns (p: nat)
    requires 1 <= l <= 16 && start == Offset(bits, l) && start + bits[l] <= 256 < huffsize.Length
    requires SizesListed(bits, huffsize[..], l)
    modifies huffsize
    ensures p == Offset(bits, l + 1) && SizesListed(bits, huffsize[..], l + 1)
  {
    p := start;
    var i := bits[l];
    ghost var before := huffsize[..];
    while i > 0
      invariant 0 <= i && p + i == start + bits[l]
      invariant forall q :: 0 <= q < start ==> huffsize[q] == before[q]
      invariant forall q :: start <= q < p ==> huffsize[q] == l
    {
      huffsize[p] := l;
      p, i := p + 1, i - 1;
    }
    forall q: nat, k: nat | HasLength(bits, q, k) && q < Offset(bits, l + 1)
      ensures huffsize[..][q] == k
    {
      if q < start {
        assert before[q] == k;
      } else {
        assert HasLength(bits, q, l);
        LengthUnique(bits, q, k, l);
      }
    }
  }

  ghost predicate CodesListed(bits: Counts, codes: seq<nat>, n: nat) {
    n <= |codes| && forall p: nat, k: nat :: HasLength(bits, p, k) && p < n ==> codes[p] == CodeOf(bits, p, k)
  }

  lemma SizeAt(bits: Counts, sizes: seq<nat>, p: nat) returns (l: nat)
    requires SizesListed(bits, sizes, 17) && p < Offset(bits, 17)
    ensures HasLength(bits, p, l) && sizes[p] == l > 0
  {
    l := LengthExists(bits, p, 17);
  }

  /** When the counts of all lengths below si fit and no longer ones are used, all fit. */
  lemma {:induction false} CountsFit(bits: Counts, si: nat, l: nat)
    requires 1 <= si <= l <= 17
    requires Offset(bits, si) == Offset(bits, 17)
    requires si > 1 ==> FirstCode(bits, si - 1) + bits[si - 1] < Pow2(si - 1)
    ensures FirstCode(bits, l) < Pow2(l)
    ensures l <= 16 ==> bits[l] == 0
  {
    OffsetMonotone(bits, si, l);
    if l <= 16 {
      OffsetMonotone(bits, l + 1, 17);
      assert Offset(bits, l + 1) == Offset(bits, l) + bits[l];
    }
    if l > si {
      CountsFit(bits, si, l - 1);
    }
  }

  /** The inner loop of Figure C.2: consecutive codes for all symbols of length si. */
  method AssignRun(bits: Counts, huffsize: array<nat>, huffcode: array<nat>, si: nat, start: nat, first: nat)
    returns (p: nat, code: nat)
    requires huffsize.Length == 257 == huffcode.Length && huffsize != huffcode
    requires 1 <= si <= 16 && Offset(bits, 17) <= 256
    requires SizesListed(bits, huffsize[..], 17) && huffsize[Offset(bits, 17)] == 0
    requires start == Offset(bits, si) && CodesListed(bits, huffcode[..], start)
    requires first == FirstCode(bits, si)
    modifies huffcode
    ensures p == Offset(bits, si + 1) && code == FirstCode(bits, si) + bits[si]
    ensures CodesListed(bits, huffcode[..], p)
  {
    p, code := start, first;
    OffsetMonotone(bits, si + 1, 17);
    ghost var sizes := huffsize[..];
    while huffsize[p] == si
      invariant start <= p <= Offset(bits, si + 1)
      invariant code == FirstCode(bits, si) + (p - start)
      invariant CodesListed(bits, huffcode[..], p)
      invariant huffsize[..] == sizes
      decreases 257 - p
    {
      RunStops(bits, sizes, si, p);
      ghost var codes := huffcode[..];
      huffcode[p] := code;
      ListOneMore(bits, codes, huffcode[..], p, si);
      p, code := p + 1, code + 1;
    }
    RunStops(bits, sizes, si, p);
  }

  lemma RunStops(bits: Counts, sizes: seq<nat>, si: nat, p: nat)
    requires |sizes| == 257 && Offset(bits, 17) <= 256 && SizesListed(bits, sizes, 17) && sizes[Offset(bits, 17)] == 0
    requires 1 <= si <= 16 && Offset(bits, si) <= p <= Offset(bits, si + 1)
    ensures p <= 256
    ensures sizes[p] == si <==> HasLength(bits, p, si)
  {
    OffsetMonotone(bits, si + 1, 17);
    if p < Offset(bits, 17) {
      var l := SizeAt(bits, sizes, p);
      if p < Offset(bits, si + 1) {
        LengthUnique(bits, p, l, si);
      }
    }
  }

  lemma ListOneMore(bits: Counts, codes: seq<nat>, codes': seq<nat>, p: nat, l: nat)
    requires CodesListed(bits, codes, p) && HasLength(bits, p, l) && p < |codes|
    requires codes' == codes[p := CodeOf(bits, p, l)]
    ensures CodesListed(bits, codes', p + 1)
  {
    forall q: nat, k: nat | HasLength(bits, q, k) && q < p + 1
      ensures codes'[q] == CodeOf(bits, q, k)
    {
      if q == p {
        LengthUnique(bits, p, k, l);
      }
    }
  }

  /** The counts of all lengths below l fit. */
  ghost predicate FitBelow(bits: Counts, l: nat)
    requires 1 <= l <= 17
  {
    forall k :: 1 <= k < l ==> FirstCode(bits, k) + bits[k] < Pow2(k)
  }

  /** Figure C.2: the codes themselves, rejecting counts that do not fit. */
  method FillCodes(bits: Counts, huffsize: array<nat>, huffcode: array<nat>) returns (ok: bool)
    requires huffsize.Length == 257 == huffcode.Length && huffsize != huffcode
    requires Offset(bits, 17) <= 256
    requires SizesListed(bits, huffsize[..], 17) && huffsize[Offset(bits, 17)] == 0
    modifies huffcode
    ensures ok <==> LegalCounts(bits)
    ensures ok ==> CodesListed(bits, huffcode[..], Offset(bits, 17))
  {
    hide SizesListed, CodesListed, Offset, FirstCode, Pow2, FitBelow, LegalCounts;
    var code, si, p := 0, huffsize[0], 0;
    ghost var sizes := huffsize[..];
    StartRuns(bits, sizes, huffcode[..]);
    while huffsize[p] != 0
      invariant 0 <= si <= 17 && p <= 256
      invariant huffsize[..] == sizes
      invariant si == 0 ==> sizes[0] == 0 && p == 0
      invariant si > 0 ==> p == Offset(bits, si) && code == FirstCode(bits, si) && FitBelow(bits, si)
      invariant CodesListed(bits, huffcode[..], p)
      decreases 17 - si
    {
      RunBegins(bits, sizes, si, p);
      p, code := AssignRun(bits, huffsize, huffcode, si, p, code);
      OffsetMonotone(bits, si + 1, 17);
      if code >= Pow2(si) {
        DoesNotFit(bits, si);
        return false;
      }
      NextRun(bits, si);
      code, si := 2 * code, si + 1;
    }
    RunsEnd(bits, sizes, si, p);
    return true;
  }

  lemma StartRuns(bits: Counts, sizes: seq<nat>, codes: seq<nat>)
    requires |sizes| == 257 && SizesListed(bits, sizes, 17)
    requires Offset(bits, 17) <= 256 && sizes[Offset(bits, 17)] == 0
    ensures CodesListed(bits, codes, 0)
    ensures sizes[0] > 0 ==> sizes[0] <= 16 && Offset(bits, sizes[0]) == 0 && FirstCode(bits, sizes[0]) == 0
    ensures sizes[0] > 0 ==> FitBelow(bits, sizes[0])
  {
    if sizes[0] > 0 {
      var l := SizeAt(bits, sizes, 0);
      forall k | 1 <= k < l
        ensures FirstCode(bits, k) + bits[k] < Pow2(k)
      {
        OffsetMonotone(bits, k, l);
        OffsetMonotone(bits, k + 1, l);
        NoShorterCodes(bits, k);
      }
      NoShorterCodes(bits, l);
    }
  }

  lemma RunBegins(bits: Counts, sizes: seq<nat>, si: nat, p: nat)
    requires |sizes| == 257 && SizesListed(bits, sizes, 17)
    requires Offset(bits, 17) <= 256 && sizes[Offset(bits, 17)] == 0
    requires si == 0 ==> sizes[0] == 0 && p == 0
    requires 1 <= si <= 17 ==> p == Offset(bits, si)
    requires si <= 17 && p <= 256 && sizes[p] != 0
    ensures 1 <= si <= 16
  {}

  lemma DoesNotFit(bits: Counts, si: nat)
    requires 1 <= si <= 16 && FirstCode(bits, si) + bits[si] >= Pow2(si)
    ensures !LegalCounts(bits)
  {}

  lemma NextRun(bits: Counts, si: nat)
    requires 1 <= si <= 16 && FitBelow(bits, si) && FirstCode(bits, si) + bits[si] < Pow2(si)
    ensures FitBelow(bits, si + 1)
    ensures FirstCode(bits, si + 1) == 2 * (FirstCode(bits, si) + bits[si])
  {}

  lemma RunsEnd(bits: Counts, sizes: seq<nat>, si: nat, p: nat)
    requires |sizes| == 257 && SizesListed(bits, sizes, 17)
    requires Offset(bits, 17) <= 256 && sizes[Offset(bits, 17)] == 0
    requires si <= 17 && p <= 256 && sizes[p] == 0
    requires si == 0 ==> p == 0
    requires si > 0 ==> p == Offset(bits, si) && FitBelow(bits, si)
    ensures p == Offset(bits, 17) && LegalCounts(bits)
  {
    if si > 0 {
      OffsetMonotone(bits, si, 17);
    }
    if p < Offset(bits, 17) {
      var l := SizeAt(bits, sizes, p);
    }
    var from := if si == 0 then 1 else si;
    forall l | 1 <= l <= 16
      ensures FirstCode(bits, l) + bits[l] < Pow2(l)
    {
      if l >= from {
        CountsFit(bits, from, l);
      }
    }
  }

  /** What Figure C.3 has entered after the first n symbols. */
  ghost predicate Entered(t: Table, ehufco: seq<nat>, ehufsi: seq<nat>, n: nat)
    requires n <= 256
  {
    && |ehufco| == 256 == |ehufsi|
    && (forall p: nat, l: nat :: HasLength(t.bits, p, l) && p < n ==>
          ehufsi[t.huffval[p]] == l && ehufco[t.huffval[p]] == CodeOf(t.bits, p, l))
    && (forall s: byte :: s !in t.huffval[..n] ==> ehufsi[s] == 0)
  }

  ghost predicate ValuesGood(t: Table, isDC: bool, n: nat)
    requires n <= 256
  {
    && (forall p :: 0 <= p < n ==> t.huffval[p] <= if isDC then 15 else 255)
    && (forall p, q :: 0 <= p < q < n ==> t.huffval[p] != t.huffval[q])
  }

  /** Figure C.3: codes and sizes indexed by symbol, rejecting bad or repeated symbols. */
  method FillEncoding(t: Table, isDC: bool, huffsize: array<nat>, huffcode: array<nat>, lastp: nat)
    returns (r: DeriveResult)
    requires huffsize.Length == 257 == huffcode.Length
    requires lastp == Offset(t.bits, 17) <= 256
    requires SizesListed(t.bits, huffsize[..], 17) && CodesListed(t.bits, huffcode[..], lastp)
    ensures r.Good? <==> LegalValues(t, isDC)
    ensures r.Good? ==> Derives(t, r.tbl)
    ensures r.Bad? ==> r.error == BadHuffTable
  {
    hide SizesListed, CodesListed, Offset, Entered, ValuesGood, HasLength, CodeOf, LegalValues, Derives;
    var ehufco := new nat[256](i => 0);
    var ehufsi := new nat[256](i => 0);
    var p := 0;
    NothingEntered(t, isDC, ehufco[..], ehufsi[..]);
    while p < lastp
      invariant p <= lastp
      invariant Entered(t, ehufco[..], ehufsi[..], p) && ValuesGood(t, isDC, p)
      invariant fresh(ehufco) && fresh(ehufsi) && ehufco != ehufsi
      invariant unchanged(huffsize) && unchanged(huffcode)
    {
      var i := t.huffval[p];
      ghost var co, si := ehufco[..], ehufsi[..];
      ghost var l := SizeAt(t.bits, huffsize[..], p);
      CodeAt(t.bits, huffcode[..], p, l, lastp);
      EnterNext(t, isDC, co, si, p, l);
      if i > MaxSymbol(isDC) || ehufsi[i] != 0 {
        BadValue(t, isDC, p);
        return Bad(BadHuffTable);
      }
      ehufco[i] := huffcode[p];
      ehufsi[i] := huffsize[p];
      assert ehufco[..] == co[i := CodeOf(t.bits, p, l)] && ehufsi[..] == si[i := l];
      p := p + 1;
    }
    AllEntered(t, isDC, ehufco[..], ehufsi[..]);
    return Good(Derived(ehufco[..], ehufsi[..]));
  }

  lemma NothingEntered(t: Table, isDC: bool, co: seq<nat>, si: seq<nat>)
    requires |co| == 256 == |si| && forall i :: 0 <= i < 256 ==> si[i] == 0
    ensures Entered(t, co, si, 0) && ValuesGood(t, isDC, 0)
  {}

  lemma CodeAt(bits: Counts, codes: seq<nat>, p: nat, l: nat, n: nat)
    requires CodesListed(bits, codes, n) && p < n && HasLength(bits, p, l)
    ensures codes[p] == CodeOf(bits, p, l)
  {}

  lemma EnterNext(t: Table, isDC: bool, co: seq<nat>, si: seq<nat>, p: nat, l: nat)
    requires p < Offset(t.bits, 17) <= 256 && HasLength(t.bits, p, l)
    requires Entered(t, co, si, p) && ValuesGood(t, isDC, p)
    ensures |co| == 256 == |si|
    ensures var i := t.huffval[p];
            && (i <= MaxSymbol(isDC) && si[i] == 0 <==> ValuesGood(t, isDC, p + 1))
            && (si[i] == 0 ==> Entered(t, co[i := CodeOf(t.bits, p, l)], si[i := l], p + 1))
  {
    var i := t.huffval[p];
    if si[i] == 0 {
      if i in t.huffval[..p] {
        var q :| 0 <= q < p && t.huffval[q] == i;
        var k := LengthExists(t.bits, q, 17);
      } else {
        EnterFresh(t, co, si, p, l);
      }
      FreshValue(t, isDC, p);
    } else {
      assert i in t.huffval[..p];
    }
  }

  lemma EnterFresh(t: Table, co: seq<nat>, si: seq<nat>, p: nat, l: nat)
    requires p < Offset(t.bits, 17) <= 256 && HasLength(t.bits, p, l)
    requires Entered(t, co, si, p) && t.huffval[p] !in t.huffval[..p]
    ensures Entered(t, co[t.huffval[p] := CodeOf(t.bits, p, l)], si[t.huffval[p] := l], p + 1)
  {
    var i := t.huffval[p];
    var co', si' := co[i := CodeOf(t.bits, p, l)], si[i := l];
    assert t.huffval[..p + 1] == t.huffval[..p] + [i];
    forall q: nat, k: nat | HasLength(t.bits, q, k) && q < p + 1
      ensures si'[t.huffval[q]] == k && co'[t.huffval[q]] == CodeOf(t.bits, q, k)
    {
      if q == p {
        LengthUnique(t.bits, p, k, l);
      } else {
        assert t.huffval[q] in t.huffval[..p];
      }
    }
  }

  lemma FreshValue(t: Table, isDC: bool, p: nat)
    requires p < 256 && ValuesGood(t, isDC, p)
    ensures ValuesGood(t, isDC, p + 1) <==> t.huffval[p] <= (if isDC then 15 else 255) && t.huffval[p] !in t.huffval[..p]
  {
    if t.huffval[p] in t.huffval[..p] {
      var q :| 0 <= q < p && t.huffval[..p][q] == t.huffval[p];
      assert t.huffval[q] == t.huffval[p];
    } else {
      forall q | 0 <= q < p
        ensures t.huffval[q] != t.huffval[p]
      {
        assert t.huffval[..p][q] == t.huffval[q];
      }
    }
  }

  lemma BadValue(t: Table, isDC: bool, p: nat)
    requires p < Offset(t.bits, 17) <= 256 && !ValuesGood(t, isDC, p + 1)
    ensures !LegalValues(t, isDC)
  {}

  lemma AllEntered(t: Table, isDC: bool, co: seq<nat>, si: seq<nat>)
    requires Offset(t.bits, 17) <= 256
    requires Entered(t, co, si, Offset(t.bits, 17)) && ValuesGood(t, isDC, Offset(t.bits, 17))
    ensures LegalValues(t, isDC) && Derives(t, Derived(co, si))
  {}

  /** jpeg_make_c_derived_tbl: accepts exactly the legal tables that are present. */
  method MakeDerivedTbl(tables: seq<Option<Table>>, isDC: bool, tblno: int) returns (r: DeriveResult)
    requires |tables| == NUM_HUFF_TBLS
    ensures r == Bad(NoHuffTable) <==> !(0 <= tblno < 4 && tables[tblno].Some?)
    ensures r.Good? <==> 0 <= tblno < 4 && tables[tblno].Some? && Legal(tables[tblno].value, isDC)
    ensures r.Good? ==> Derives(tables[tblno].value, r.tbl)
  {
    hide LegalCounts, LegalValues, Derives, Offset, SizesListed, CodesListed;
    if tblno < 0 || tblno >= NUM_HUFF_TBLS || tables[tblno].None? {
      return Bad(NoHuffTable);
    }
    var htbl := tables[tblno].value;
    LegalMeans(htbl, isDC);
    var huffsize := new nat[257](i => 0);
    var huffcode := new nat[257](i => 0);
    var ok, lastp := FillSizes(htbl.bits, huffsize);
    if !ok {
      return Bad(BadHuffTable);
    }
    ok := FillCodes(htbl.bits, huffsize, huffcode);
    if !ok {
      return Bad(BadHuffTable);
    }
    r := FillEncoding(htbl, isDC, huffsize, huffcode, lastp);
  }

  lemma LegalMeans(t: Table, isDC: bool)
    ensures Legal(t, isDC) <==> Offset(t.bits, 17) <= 256 && LegalCounts(t.bits) && LegalValues(t, isDC)
  {}

  /** What the encoder emits for a symbol is what the decoder recognises. */
  lemma SymbolRoundTrip(t: Table, isDC: bool, d: Derived, s: byte, rest: seq<bool>)
    requires Legal(t, isDC) && Derives(t, d) && d.ehufsi[s] > 0
    ensures d.ehufsi[s] <= MAX_CODE_LENGTH && d.ehufco[s] < Pow2(d.ehufsi[s]) - 1
    ensures DecodeSymbol(t, ToBits(d.ehufco[s], d.ehufsi[s]) + rest) == Symbol(s, rest)
  {
    var p, l := ListedSymbol(t, d, s);
    DecodeCode(t, p, l, rest);
  }

  lemma ListedSymbol(t: Table, d: Derived, s: byte) returns (p: nat, l: nat)
    requires LegalCounts(t.bits) && Derives(t, d) && d.ehufsi[s] > 0
    ensures HasLength(t.bits, p, l) && p < 256 && t.huffval[p] == s
    ensures d.ehufsi[s] == l && d.ehufco[s] == CodeOf(t.bits, p, l)
  {
    var n := Offset(t.bits, 17);
    assert s in t.huffval[..n];
    p :| 0 <= p < n && t.huffval[p] == s;
    l := LengthExists(t.bits, p, 17);
  }

  /** Exactly the listed symbols have a code. */
  lemma ListedIffCoded(t: Table, d: Derived, s: byte)
    requires LegalCounts(t.bits) && Derives(t, d)
    ensures d.ehufsi[s] > 0 <==> s in t.huffval[..Offset(t.bits, 17)]
  {
    if s in t.huffval[..Offset(t.bits, 17)] {
      var p :| 0 <= p < Offset(t.bits, 17) && t.huffval[p] == s;
      var l := LengthExists(t.bits, p, 17);
    }
  }
}
