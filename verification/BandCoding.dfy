/** Coding of one block's band of AC coefficients: zero runs, newly nonzero values and
    correction bits. One form serves sequential blocks, first AC scans and AC refinements. */
module BandCoding {
  import opened Bits
  import opened Arithmetic
  import opened ByteStuffing
  import opened HuffmanTable
  import opened Coefficients
  import opened EntropyOps

  /** What a scan has to say about one coefficient: nothing, a correction bit for one that is
      already nonzero in the decoder, or the value of one that becomes nonzero. */
  datatype Item = Zero | Corr(bit: bool) | New(v: int)

  type Items = s: seq<Item> | |s| == DCTSIZE2 witness seq(DCTSIZE2, _ => Zero)

  // ----- the encoder's side -----

  /** One past the last newly nonzero position in [lo, hi), or lo. */
  function End(its: Items, lo: nat, hi: nat): (e: nat)
    requires lo <= hi <= DCTSIZE2
    ensures lo <= e <= hi
    ensures e > lo ==> its[e - 1].New?
    ensures forall k :: e <= k < hi ==> !its[k].New?
  {
    if hi == lo then lo else if its[hi - 1].New? then hi else End(its, lo, hi - 1)
  }

  function BitOps(br: seq<bool>): (ops: seq<Op>)
    ensures |ops| == |br|
  {
    if br == [] then [] else BitOps(br[..|br| - 1]) + [Raw(if br[|br| - 1] then 1 else 0, 1)]
  }

  /** Runs of 16 zeros, the first one followed by the correction bits pending so far. */
  function ZrlOps(t: TableId, r: nat, br: seq<bool>): seq<Op> {
    if r <= 15 then [] else [Sym(t, 0xF0)] + BitOps(br) + ZrlOps(t, r - 16, [])
  }

  function AfterZrl(r: nat, br: seq<bool>): seq<bool> {
    if r <= 15 then br else []
  }

  /** A run of r < 16 zeros and a new value, with the correction bits that go with it. */
  function NewOps(t: TableId, r: nat, v: int, br: seq<bool>): seq<Op>
    requires r < 16
  {
    var n := BitLength(Abs(v));
    if n > MAX_COEF_BITS then [OutOfRange] else [Sym(t, 16 * r + n), Raw(Appended(v), n)] + BitOps(br)
  }

  /** Operations for positions k..e-1, given r zeros and the correction bits br since the last symbol. */
  function SymOps(t: TableId, its: Items, k: nat, e: nat, r: nat, br: seq<bool>): seq<Op>
    requires e <= DCTSIZE2
    decreases e - k
  {
    if k >= e then []
    else match its[k]
      case Zero => SymOps(t, its, k + 1, e, r + 1, br)
      case Corr(b) => ZrlOps(t, r, br) + SymOps(t, its, k + 1, e, r % 16, AfterZrl(r, br) + [b])
      case New(v) => ZrlOps(t, r, br) + NewOps(t, r % 16, v, AfterZrl(r, br)) + SymOps(t, its, k + 1, e, 0, [])
  }

  function CorrBits(its: Items, lo: nat, hi: nat): seq<bool>
    requires lo <= hi <= DCTSIZE2
    decreases hi - lo
  {
    if lo == hi then []
    else (if its[lo].Corr? then [its[lo].bit] else []) + CorrBits(its, lo + 1, hi)
  }

  function Zeros(its: Items, lo: nat, hi: nat): nat
    requires lo <= hi <= DCTSIZE2
    decreases hi - lo
  {
    if lo == hi then 0 else (if its[lo].Zero? then 1 else 0) + Zeros(its, lo + 1, hi)
  }

  /** A block's band: symbols, whether positions are left for an EOB, and their correction bits. */
  datatype BandOps = BandOps(sym: seq<Op>, eob: bool, br: seq<bool>)

  function Band(t: TableId, its: Items, lo: nat, hi: nat): BandOps
    requires lo <= hi <= DCTSIZE2
  {
    var e := End(its, lo, hi);
    BandOps(SymOps(t, its, lo, e, 0, []), e < hi, CorrBits(its, e, hi))
  }

  lemma {:induction false} SymbolsIfNew(t: TableId, its: Items, k: nat, e: nat, r: nat, br: seq<bool>)
    requires k < e <= DCTSIZE2 && its[e - 1].New?
    ensures SymOps(t, its, k, e, r, br) != []
    decreases e - k
  {
    match its[k]
    case Zero => SymbolsIfNew(t, its, k + 1, e, r + 1, br);
    case Corr(b) => SymbolsIfNew(t, its, k + 1, e, r % 16, AfterZrl(r, br) + [b]);
    case New(v) =>
  }

  /** A band has symbols exactly when it has new values, and is left to an EOB exactly when its last position has
      none; then everything since the last new value is: no run of zeros is spelled out before an EOB. */
  lemma BandMeans(t: TableId, its: Items, lo: nat, hi: nat)
    requires lo < hi <= DCTSIZE2
    ensures Band(t, its, lo, hi).sym == [] <==> forall k :: lo <= k < hi ==> !its[k].New?
    ensures Band(t, its, lo, hi).eob <==> !its[hi - 1].New?
    ensures Band(t, its, lo, hi).sym == [] ==> Band(t, its, lo, hi).br == CorrBits(its, lo, hi)
  {
    hide End;
    var e := End(its, lo, hi);
    if e > lo {
      SymbolsIfNew(t, its, lo, e, 0, []);
      assert its[e - 1].New?;
    }
  }

  // ----- the decoder's side: Figures F.13, G.3 and G.7 read backwards -----

  datatype Walk = WalkFail | Walk(h: seq<int>, rest: seq<bool>, k: nat)

  /** In a refinement scan, a coefficient that is already nonzero has a correction bit. */
  predicate Correctable(refine: bool, x: int) {
    refine && x != 0
  }

  function Corrected(x: int, bit: bool, al: nat): int {
    if bit then x + WithSign(x, Pow2(al)) else x
  }

  /** Pass over n zero-history coefficients, correcting the others, up to the next zero-history one. */
  function Skip(refine: bool, h: seq<int>, bits: seq<bool>, k: nat, n: nat, hi: nat, al: nat): Walk
    requires hi <= |h|
    decreases hi - k
  {
    if k >= hi then WalkFail
    else if Correctable(refine, h[k]) then
      if bits == [] then WalkFail
      else Skip(refine, h[k := Corrected(h[k], bits[0], al)], bits[1..], k + 1, n, hi, al)
    else if n == 0 then Walk(h, bits, k)
    else Skip(refine, h, bits, k + 1, n - 1, hi, al)
  }

  /** Correct everything correctable in [k, hi). */
  function CorrectAll(refine: bool, h: seq<int>, bits: seq<bool>, k: nat, hi: nat, al: nat): Walk
    requires hi <= |h|
    decreases hi - k
  {
    if k >= hi then Walk(h, bits, k)
    else if Correctable(refine, h[k]) then
      if bits == [] then WalkFail
      else CorrectAll(refine, h[k := Corrected(h[k], bits[0], al)], bits[1..], k + 1, hi, al)
    else CorrectAll(refine, h, bits, k + 1, hi, al)
  }

  /** `run` is the length of the end-of-band run that the block opens, 0 if it has no EOB. */
  datatype BandResult = BandFail | BandDone(h: seq<int>, rest: seq<bool>, run: nat)

  function DecodeBand(tab: Table, refine: bool, h: seq<int>, bits: seq<bool>, k: nat, hi: nat, al: nat): BandResult
    requires hi <= |h|
    decreases hi - k
  {
    if k >= hi then BandDone(h, bits, 0)
    else match DecodeSymbol(tab, bits)
      case NoCode => BandFail
      case Symbol(sym, b1) =>
        var r, s := sym / 16, sym % 16;
        if s == 0 && r < 15 then DecodeEob(refine, h, b1, r, k, hi, al)
        else if refine && s > 1 then BandFail
        else match Receive(b1, s)
          case Short => BandFail
          case Received(v, b2) =>
            match Skip(refine, h, b2, k, r, hi, al)
            case WalkFail => BandFail
            case Walk(h', b3, k') =>
              if k' >= hi || k' < k || |h'| != |h| then BandFail
              else
                var h'' := if s > 0 then h'[k' := Extend(v, s) * Pow2(al)] else h';
                DecodeBand(tab, refine, h'', b3, k' + 1, hi, al)
  }

  /** EOBn: a run of 2^r + (r more bits) bands, this one included. */
  function DecodeEob(refine: bool, h: seq<int>, bits: seq<bool>, r: nat, k: nat, hi: nat, al: nat): BandResult
    requires hi <= |h|
  {
    match Receive(bits, r)
    case Short => BandFail
    case Received(ext, b2) =>
      match CorrectAll(refine, h, b2, k, hi, al)
      case WalkFail => BandFail
      case Walk(h', b3, _) => BandDone(h', b3, Pow2(r) + ext)
  }

  // ----- agreement -----

  /** The items say, for each position of the band, how the target follows from the history h. */
  ghost predicate Agrees(refine: bool, its: Items, h: Block, target: Block, al: nat, lo: nat, hi: nat)
    requires hi <= DCTSIZE2
  {
    && (forall k :: 0 <= k < DCTSIZE2 && !(lo <= k < hi) ==> target[k] == h[k])
    && (forall k :: lo <= k < hi ==> AgreesAt(refine, its[k], h[k], target[k], al))
  }

  ghost predicate AgreesAt(refine: bool, it: Item, x: int, y: int, al: nat) {
    match it
    case Zero => !Correctable(refine, x) && y == x
    case Corr(b) => Correctable(refine, x) && y == Corrected(x, b, al)
    case New(v) => !Correctable(refine, x) && v != 0 && (refine ==> Abs(v) == 1) && y == v * Pow2(al)
  }

  /** The decoder's block when it has got as far as position k. */
  function Mix(h: Block, target: Block, k: nat): (m: Block)
    requires k <= DCTSIZE2
  {
    target[..k] + h[k..]
  }

  lemma MixStep(h: Block, target: Block, k: nat)
    requires k < DCTSIZE2
    ensures Mix(h, target, k)[k] == h[k]
    ensures Mix(h, target, k)[k := target[k]] == Mix(h, target, k + 1)
  {}

  // ----- decoding what was encoded -----

  lemma {:induction false} BitOpsBits(br: seq<bool>, book: Codebook)
    ensures OpsBits(BitOps(br), book) == br && Emittable(BitOps(br), book)
  {
    hide OpsBits, OpBits, Emittable, Field;
    NoOpBits(book);
    if br != [] {
      var init, op := br[..|br| - 1], Raw(if br[|br| - 1] then 1 else 0, 1);
      BitOpsBits(init, book);
      OpsBitsConcat(BitOps(init), [op], book);
      OneOpBits(op, book);
      RawBit(br[|br| - 1], book);
      assert br == init + [br[|br| - 1]];
    }
  }

  lemma {:induction false} SkipDecodes(refine: bool, its: Items, h: Block, target: Block, al: nat, lo: nat, hi: nat,
                                       k: nat, p: nat, rest: seq<bool>)
    requires lo <= k <= p < hi <= DCTSIZE2 && Agrees(refine, its, h, target, al, lo, hi)
    requires !its[p].Corr? && forall j :: k <= j < p ==> !its[j].New?
    ensures Skip(refine, Mix(h, target, k), CorrBits(its, k, p) + rest, k, Zeros(its, k, p), hi, al)
         == Walk(Mix(h, target, p), rest, p)
    decreases p - k
  {
    MixStep(h, target, k);
    assert AgreesAt(refine, its[k], h[k], target[k], al);
    if k == p {
      assert [] + rest == rest;
    } else {
      SkipDecodes(refine, its, h, target, al, lo, hi, k + 1, p, rest);
      SkipStep(refine, its, h, target, al, hi, k, p, rest);
    }
  }

  lemma SkipStep(refine: bool, its: Items, h: Block, target: Block, al: nat, hi: nat, k: nat, p: nat, rest: seq<bool>)
    requires k < p < hi <= DCTSIZE2 && !its[k].New?
    requires AgreesAt(refine, its[k], h[k], target[k], al)
    ensures Skip(refine, Mix(h, target, k), CorrBits(its, k, p) + rest, k, Zeros(its, k, p), hi, al)
         == Skip(refine, Mix(h, target, k + 1), CorrBits(its, k + 1, p) + rest, k + 1, Zeros(its, k + 1, p), hi, al)
  {
    MixStep(h, target, k);
    if its[k].Corr? {
      FirstBit(its[k].bit, CorrBits(its, k + 1, p), rest);
    } else {
      assert Mix(h, target, k)[k := target[k]] == Mix(h, target, k);
      assert [] + CorrBits(its, k + 1, p) == CorrBits(its, k + 1, p);
    }
  }

  lemma FirstBit(b: bool, more: seq<bool>, rest: seq<bool>)
    ensures [b] + more + rest == [b] + (more + rest)
    ensures ([b] + more + rest)[0] == b && ([b] + more + rest)[1..] == more + rest
  {}

  lemma {:induction false} CorrectAllDecodes(refine: bool, its: Items, h: Block, target: Block, al: nat, lo: nat, hi: nat,
                                             k: nat, rest: seq<bool>)
    requires lo <= k <= hi <= DCTSIZE2 && Agrees(refine, its, h, target, al, lo, hi)
    requires forall j :: k <= j < hi ==> !its[j].New?
    ensures CorrectAll(refine, Mix(h, target, k), CorrBits(its, k, hi) + rest, k, hi, al)
         == Walk(Mix(h, target, hi), rest, hi)
    decreases hi - k
  {
    if k == hi {
      assert [] + rest == rest;
    } else {
      assert AgreesAt(refine, its[k], h[k], target[k], al);
      CorrectAllDecodes(refine, its, h, target, al, lo, hi, k + 1, rest);
      CorrectStep(refine, its, h, target, al, k, hi, rest);
    }
  }

  lemma CorrectStep(refine: bool, its: Items, h: Block, target: Block, al: nat, k: nat, hi: nat, rest: seq<bool>)
    requires k < hi <= DCTSIZE2 && !its[k].New?
    requires AgreesAt(refine, its[k], h[k], target[k], al)
    ensures CorrectAll(refine, Mix(h, target, k), CorrBits(its, k, hi) + rest, k, hi, al)
         == CorrectAll(refine, Mix(h, target, k + 1), CorrBits(its, k + 1, hi) + rest, k + 1, hi, al)
  {
    MixStep(h, target, k);
    if its[k].Corr? {
      FirstBit(its[k].bit, CorrBits(its, k + 1, hi), rest);
    } else {
      assert Mix(h, target, k)[k := target[k]] == Mix(h, target, k);
      assert [] + CorrBits(its, k + 1, hi) == CorrBits(its, k + 1, hi);
    }
  }

  // ----- the round trip for one band -----

  /** A band to code: table, code book, items, the decoder's history and the target block. */
  datatype Case = Case(t: TableId, book: Codebook, tabs: Tables, refine: bool, its: Items,
                       h: Block, target: Block, al: nat, lo: nat, hi: nat) {
    ghost predicate Ok() {
      && lo <= hi <= DCTSIZE2 && Tied(book, tabs) && t in tabs
      && Agrees(refine, its, h, target, al, lo, hi)
    }

    /** The decoder at position k of this band, with the given bits to read. */
    function DecodeAt(k: nat, bits: seq<bool>): BandResult
      requires k <= DCTSIZE2 && hi <= DCTSIZE2 && t in tabs
    {
      DecodeBand(tabs[t], refine, Mix(h, target, k), bits, k, hi, al)
    }

    function Bits(ops: seq<Op>): seq<bool> {
      OpsBits(ops, book)
    }
  }

  /** The encoder is at k with r zeros and correction bits br not yet sent; the decoder is at k0. */
  ghost predicate RunState(its: Items, k0: nat, k: nat, r: nat, br: seq<bool>) {
    && k0 <= k <= DCTSIZE2
    && (forall j :: k0 <= j < k ==> !its[j].New?)
    && r == Zeros(its, k0, k) && br == CorrBits(its, k0, k)
    && (r > 15 ==> k - (r - 15) >= k0 && forall j :: k - (r - 15) <= j < k ==> its[j].Zero?)
  }

  lemma RunSnoc(its: Items, lo: nat, k: nat)
    requires lo <= k < DCTSIZE2
    ensures Zeros(its, lo, k + 1) == Zeros(its, lo, k) + (if its[k].Zero? then 1 else 0)
    ensures CorrBits(its, lo, k + 1) == CorrBits(its, lo, k) + (if its[k].Corr? then [its[k].bit] else [])
  {
    RunSplit(its, lo, k, k + 1);
    assert Zeros(its, k + 1, k + 1) == 0 && CorrBits(its, k + 1, k + 1) == [];
  }

  lemma {:induction false} RunSplit(its: Items, lo: nat, p: nat, hi: nat)
    requires lo <= p <= hi <= DCTSIZE2
    ensures Zeros(its, lo, hi) == Zeros(its, lo, p) + Zeros(its, p, hi)
    ensures CorrBits(its, lo, hi) == CorrBits(its, lo, p) + CorrBits(its, p, hi)
    decreases p - lo
  {
    if lo < p {
      RunSplit(its, lo + 1, p, hi);
      AssocBits(if its[lo].Corr? then [its[lo].bit] else [], CorrBits(its, lo + 1, p), CorrBits(its, p, hi));
    } else {
      assert [] + CorrBits(its, p, hi) == CorrBits(its, p, hi);
    }
  }

  lemma {:induction false} AllZero(its: Items, lo: nat, hi: nat)
    requires lo <= hi <= DCTSIZE2 && forall j :: lo <= j < hi ==> its[j].Zero?
    ensures Zeros(its, lo, hi) == hi - lo && CorrBits(its, lo, hi) == []
    decreases hi - lo
  {
    if lo < hi {
      AllZero(its, lo + 1, hi);
    }
  }

  lemma {:induction false} ZerosAtMost(its: Items, lo: nat, hi: nat)
    requires lo <= hi <= DCTSIZE2
    ensures Zeros(its, lo, hi) <= hi - lo
    decreases hi - lo
  {
    if lo < hi {
      ZerosAtMost(its, lo + 1, hi);
    }
  }

  lemma RunZero(its: Items, k0: nat, k: nat, r: nat, br: seq<bool>)
    requires RunState(its, k0, k, r, br) && k < DCTSIZE2 && its[k].Zero?
    ensures RunState(its, k0, k + 1, r + 1, br)
  {
    RunSnoc(its, k0, k);
  }

  lemma RunCorr(its: Items, k0: nat, k: nat, r: nat, br: seq<bool>)
    requires RunState(its, k0, k, r, br) && k < DCTSIZE2 && its[k].Corr? && r <= 15
    ensures RunState(its, k0, k + 1, r, br + [its[k].bit])
  {
    RunSnoc(its, k0, k);
  }

  /** The 16th zero of a long run: up to it 15 zeros and all correction bits, after it only zeros. */
  lemma RunBreak(its: Items, k0: nat, k: nat, r: nat, br: seq<bool>)
    requires RunState(its, k0, k, r, br) && r > 15
    ensures var p := k - (r - 15);
            && k0 <= p < k && its[p].Zero?
            && Zeros(its, k0, p) == 15 && CorrBits(its, k0, p) == br
            && RunState(its, p + 1, k, r - 16, [])
  {
    var p := k - (r - 15);
    RunSplit(its, k0, p, k);
    AllZero(its, p, k);
    AllZero(its, p + 1, k);
    assert br == CorrBits(its, k0, p) + [];
  }

  /** One symbol of the band loop. */
  lemma BandStep(tab: Table, refine: bool, h: seq<int>, bits: seq<bool>, k: nat, hi: nat, al: nat,
                 sym: byte, b1: seq<bool>, v: nat, b2: seq<bool>, h': seq<int>, b3: seq<bool>, k': nat)
    requires k <= k' < hi <= |h| == |h'|
    requires DecodeSymbol(tab, bits) == Symbol(sym, b1)
    requires sym % 16 > 0 || sym / 16 == 15
    requires refine ==> sym % 16 <= 1
    requires Receive(b1, sym % 16) == Received(v, b2)
    requires Skip(refine, h, b2, k, sym / 16, hi, al) == Walk(h', b3, k')
    ensures var h'' := if sym % 16 > 0 then h'[k' := Extend(v, sym % 16) * Pow2(al)] else h';
            DecodeBand(tab, refine, h, bits, k, hi, al) == DecodeBand(tab, refine, h'', b3, k' + 1, hi, al)
  {
    hide DecodeSymbol, Receive, Skip, Extend, Pow2, DecodeEob;
  }

  /** Receiving no bits. */
  lemma ReceiveNone(bits: seq<bool>)
    ensures Receive(bits, 0) == Received(0, bits)
  {}

  lemma MixZero(h: Block, target: Block, p: nat)
    requires p < DCTSIZE2 && target[p] == h[p]
    ensures Mix(h, target, p) == Mix(h, target, p + 1)
  {}

  /** Position reached by the decoder after the ZRL codes for a run of r zeros ending at k. */
  function AfterRuns(k0: nat, k: nat, r: nat): nat
    requires r > 15 ==> r <= k
  {
    if r <= 15 then k0 else k - r % 16
  }

  /** Bits of an operation list split at its head. */
  lemma HeadBits(op: Op, mid: seq<Op>, tail: seq<Op>, rest: seq<bool>, book: Codebook)
    ensures OpsBits([op] + mid + tail, book) + rest
         == OpBits(op, book) + (OpsBits(mid, book) + (OpsBits(tail, book) + rest))
    ensures Emittable([op] + mid + tail, book) <==> OpOk(op, book) && Emittable(mid, book) && Emittable(tail, book)
  {
    hide OpsBits, OpBits, Emittable, OpOk;
    OpsBitsConcat([op] + mid, tail, book);
    OpsBitsConcat([op], mid, book);
    OneOpBits(op, book);
  }

  /** A run of 16 or more zeros: one ZRL takes the decoder past the 16th. */
  lemma ZrlOnce(c: Case, k0: nat, k: nat, r: nat, br: seq<bool>, p: nat, y: seq<bool>)
    requires c.Ok() && c.lo <= k0 && k < c.hi && RunState(c.its, k0, k, r, br) && r > 15 && p + (r - 15) == k
    requires OpOk(Sym(c.t, 0xF0), c.book)
    ensures c.DecodeAt(k0, OpBits(Sym(c.t, 0xF0), c.book) + (br + y)) == c.DecodeAt(p + 1, y)
  {
    hide DecodeSymbol, Skip, DecodeBand, Receive, RunState, Mix, OpBits, Agrees, Tied, OpOk;
    RunBreak(c.its, k0, k, r, br);
    NoNewBefore(c.its, k0, k, r, br, p);
    SymDecodes(c.t, 0xF0, c.book, c.tabs, br + y);
    ReceiveNone(br + y);
    SkipDecodes(c.refine, c.its, c.h, c.target, c.al, c.lo, c.hi, k0, p, y);
    ZeroKept(c, p);
    BandStep(c.tabs[c.t], c.refine, Mix(c.h, c.target, k0), OpBits(Sym(c.t, 0xF0), c.book) + (br + y), k0, c.hi, c.al,
             0xF0, br + y, 0, br + y, Mix(c.h, c.target, p), y, p);
  }

  lemma NoNewBefore(its: Items, k0: nat, k: nat, r: nat, br: seq<bool>, p: nat)
    requires RunState(its, k0, k, r, br) && p <= k
    ensures forall j :: k0 <= j < p ==> !its[j].New?
  {}

  lemma ZeroKept(c: Case, p: nat)
    requires c.Ok() && c.lo <= p < c.hi && c.its[p].Zero?
    ensures Mix(c.h, c.target, p) == Mix(c.h, c.target, p + 1)
  {
    assert AgreesAt(c.refine, c.its[p], c.h[p], c.target[p], c.al);
    MixZero(c.h, c.target, p);
  }

  /** All ZRL codes before a symbol or a correction. */
  lemma {:induction false} ZrlDecodes(c: Case, k0: nat, k: nat, r: nat, br: seq<bool>, y: seq<bool>)
    requires c.Ok() && c.lo <= k0 && k < c.hi && RunState(c.its, k0, k, r, br)
    requires Emittable(ZrlOps(c.t, r, br), c.book)
    ensures r > 15 ==> r <= k
    ensures k0 <= AfterRuns(k0, k, r) && RunState(c.its, AfterRuns(k0, k, r), k, r % 16, AfterZrl(r, br))
    ensures c.DecodeAt(k0, c.Bits(ZrlOps(c.t, r, br)) + y) == c.DecodeAt(AfterRuns(k0, k, r), y)
    decreases r
  {
    hide OpsBits, OpBits, Emittable, OpOk, DecodeBand, Mix, Tied, Agrees, RunState, ZrlOps, AfterZrl;
    ZrlEnds(c.t, r, br);
    if r <= 15 {
      NoOpBits(c.book);
      EmptyFirst(y);
    } else {
      RunBreak(c.its, k0, k, r, br);
      RunLong(c.its, k0, k, r, br);
      ZrlBits(c, r, br, y);
      ZrlOnce(c, k0, k, r, br, k - (r - 15), c.Bits(ZrlOps(c.t, r - 16, [])) + y);
      ZrlDecodes(c, k - (r - 15) + 1, k, r - 16, [], y);
    }
  }

  lemma ZrlEnds(t: TableId, r: nat, br: seq<bool>)
    ensures r <= 15 ==> ZrlOps(t, r, br) == [] && AfterZrl(r, br) == br
    ensures r > 15 ==> AfterZrl(r, br) == [] == AfterZrl(r - 16, [])
  {}

  /** The bits of the first ZRL and its correction bits, then those of the others. */
  lemma ZrlBits(c: Case, r: nat, br: seq<bool>, y: seq<bool>)
    requires r > 15 && Emittable(ZrlOps(c.t, r, br), c.book)
    ensures OpOk(Sym(c.t, 0xF0), c.book) && Emittable(ZrlOps(c.t, r - 16, []), c.book)
    ensures c.Bits(ZrlOps(c.t, r, br)) + y == OpBits(Sym(c.t, 0xF0), c.book) + (br + (c.Bits(ZrlOps(c.t, r - 16, [])) + y))
  {
    hide OpsBits, OpBits, Emittable, OpOk, BitOps;
    HeadBits(Sym(c.t, 0xF0), BitOps(br), ZrlOps(c.t, r - 16, []), y, c.book);
    BitOpsBits(br, c.book);
  }

  lemma RunLong(its: Items, k0: nat, k: nat, r: nat, br: seq<bool>)
    requires RunState(its, k0, k, r, br)
    ensures r <= k - k0
  {
    ZerosAtMost(its, k0, k);
  }

  lemma EmptyFirst(y: seq<bool>)
    ensures [] + y == y
  {}

  /** A newly nonzero coefficient at k after r < 16 zeros. */
  lemma NewDecodes(c: Case, k0: nat, k: nat, r: nat, br: seq<bool>, y: seq<bool>)
    requires c.Ok() && c.lo <= k0 && k < c.hi && RunState(c.its, k0, k, r, br) && r <= 15
    requires c.its[k].New? && Emittable(NewOps(c.t, r, c.its[k].v, br), c.book)
    ensures c.DecodeAt(k0, c.Bits(NewOps(c.t, r, c.its[k].v, br)) + y) == c.DecodeAt(k + 1, y)
  {
    hide OpsBits, OpBits, Emittable, OpOk, DecodeBand, Mix, Tied, Agrees, RunState, DecodeSymbol, Skip, Receive, BitOps, Extend, Pow2, BitLength;
    UnpackRun(c.its, k0, k, r, br);
    NewInRange(c, k, r, br);
    var v := c.its[k].v;
    var n := BitLength(Abs(v));
    HeadBits(Sym(c.t, 16 * r + n), [Raw(Appended(v), n)], BitOps(br), y, c.book);
    OneOpBits(Raw(Appended(v), n), c.book);
    BitOpsBits(br, c.book);
    NewRead(c, k0, k, r, n, br, y);
  }

  /** The decoder reading a run/size symbol, the appended bits and the correction bits. */
  lemma NewRead(c: Case, k0: nat, k: nat, r: nat, n: nat, br: seq<bool>, y: seq<bool>)
    requires c.Ok() && c.lo <= k0 && k < c.hi && RunState(c.its, k0, k, r, br) && r <= 15
    requires c.its[k].New? && n == BitLength(Abs(c.its[k].v)) && 1 <= n <= MAX_COEF_BITS && (c.refine ==> n == 1)
    requires OpOk(Sym(c.t, 16 * r + n), c.book) && c.target[k] == c.its[k].v * Pow2(c.al)
    ensures c.DecodeAt(k0, OpBits(Sym(c.t, 16 * r + n), c.book) + (OpBits(Raw(Appended(c.its[k].v), n), c.book) + (br + y)))
         == c.DecodeAt(k + 1, y)
  {
    hide OpsBits, OpBits, OpOk, DecodeBand, Mix, Tied, Agrees, RunState, DecodeSymbol, Skip, Receive, Extend, Pow2, BitLength;
    var v, sym: byte := c.its[k].v, 16 * r + n;
    var b2 := br + y;
    var b1 := OpBits(Raw(Appended(v), n), c.book) + b2;
    UnpackRun(c.its, k0, k, r, br);
    SymDecodes(c.t, sym, c.book, c.tabs, b1);
    RawReceived(Appended(v), n, c.book, b2);
    ExtendInvertsAppended(v);
    SkipDecodes(c.refine, c.its, c.h, c.target, c.al, c.lo, c.hi, k0, k, y);
    UnpackSym(r, n);
    BandStep(c.tabs[c.t], c.refine, Mix(c.h, c.target, k0), OpBits(Sym(c.t, sym), c.book) + b1, k0, c.hi, c.al,
             sym, b1, Appended(v) % Pow2(n), b2, Mix(c.h, c.target, k), y, k);
    MixStep(c.h, c.target, k);
  }

  lemma UnpackSym(r: nat, n: nat)
    requires n < 16
    ensures (16 * r + n) / 16 == r && (16 * r + n) % 16 == n
  {}

  lemma UnpackRun(its: Items, k0: nat, k: nat, r: nat, br: seq<bool>)
    requires RunState(its, k0, k, r, br)
    ensures k0 <= k <= DCTSIZE2 && r == Zeros(its, k0, k) && br == CorrBits(its, k0, k)
    ensures forall j :: k0 <= j < k ==> !its[j].New?
  {}

  /** The magnitude category of a value that can be emitted, and the shape of its operations. */
  lemma NewInRange(c: Case, k: nat, r: nat, br: seq<bool>)
    requires c.Ok() && c.lo <= k < c.hi && c.its[k].New? && r <= 15
    requires Emittable(NewOps(c.t, r, c.its[k].v, br), c.book)
    ensures var v := c.its[k].v;
            var n := BitLength(Abs(v));
            && 1 <= n <= MAX_COEF_BITS && (c.refine ==> n == 1)
            && NewOps(c.t, r, v, br) == [Sym(c.t, 16 * r + n)] + [Raw(Appended(v), n)] + BitOps(br)
            && OpOk(Sym(c.t, 16 * r + n), c.book)
            && c.target[k] == v * Pow2(c.al)
  {
    hide OpOk, Tied, BitOps, Pow2;
    var v := c.its[k].v;
    var n := BitLength(Abs(v));
    assert AgreesAt(c.refine, c.its[k], c.h[k], c.target[k], c.al);
    if n > MAX_COEF_BITS {
      OneOpBits(OutOfRange, c.book);
      CannotEmit(c.book);
    } else {
      assert NewOps(c.t, r, v, br) == [Sym(c.t, 16 * r + n)] + [Raw(Appended(v), n)] + BitOps(br);
      HeadBits(Sym(c.t, 16 * r + n), [Raw(Appended(v), n)], BitOps(br), [], c.book);
    }
    OneBitLong(v);
  }

  lemma OneBitLong(v: int)
    ensures Abs(v) == 1 ==> BitLength(Abs(v)) == 1
  {
    if Abs(v) == 1 {
      assert BitLength(0) == 0;
    }
  }

  lemma CannotEmit(book: Codebook)
    ensures !OpOk(OutOfRange, book)
  {}

  /** From the last symbol to the last new value: what SymOps emits brings the decoder to e. */
  lemma {:induction false} SymDecodesAll(c: Case, k0: nat, k: nat, e: nat, r: nat, br: seq<bool>, y: seq<bool>)
    requires c.Ok() && c.lo <= k0 && k <= e <= c.hi && RunState(c.its, k0, k, r, br)
    requires k == e ==> k0 == e
    requires k < e ==> c.its[e - 1].New?
    requires Emittable(SymOps(c.t, c.its, k, e, r, br), c.book)
    ensures c.DecodeAt(k0, c.Bits(SymOps(c.t, c.its, k, e, r, br)) + y) == c.DecodeAt(e, y)
    decreases e - k
  {
    hide OpsBits, OpBits, Emittable, OpOk, DecodeBand, Mix, Tied, Agrees, RunState, ZrlOps, NewOps, SymOps;
    SymOpsStep(c.t, c.its, k, e, r, br);
    UnpackRun(c.its, k0, k, r, br);
    if k == e {
      NoOpBits(c.book);
      EmptyFirst(y);
    } else {
      var zrl, br' := ZrlOps(c.t, r, br), AfterZrl(r, br);
      match c.its[k]
      case Zero =>
        RunZero(c.its, k0, k, r, br);
        SymDecodesAll(c, k0, k + 1, e, r + 1, br, y);
      case Corr(b) =>
        var more := SymOps(c.t, c.its, k + 1, e, r % 16, br' + [b]);
        TailBits(zrl, more, y, c.book);
        ZrlDecodes(c, k0, k, r, br, c.Bits(more) + y);
        RunCorr(c.its, AfterRuns(k0, k, r), k, r % 16, br');
        SymDecodesAll(c, AfterRuns(k0, k, r), k + 1, e, r % 16, br' + [b], y);
      case New(v) =>
        var now, more := NewOps(c.t, r % 16, v, br'), SymOps(c.t, c.its, k + 1, e, 0, []);
        TailBits(zrl, now + more, y, c.book);
        TailBits(now, more, y, c.book);
        ZrlDecodes(c, k0, k, r, br, c.Bits(now + more) + y);
        NewDecodes(c, AfterRuns(k0, k, r), k, r % 16, br', c.Bits(more) + y);
        RunFresh(c.its, k + 1);
        SymDecodesAll(c, k + 1, k + 1, e, 0, [], y);
    }
  }

  lemma RunFresh(its: Items, k: nat)
    requires k <= DCTSIZE2
    ensures RunState(its, k, k, 0, [])
  {}

  lemma TailBits(a: seq<Op>, b: seq<Op>, y: seq<bool>, book: Codebook)
    ensures OpsBits(a + b, book) + y == OpsBits(a, book) + (OpsBits(b, book) + y)
    ensures Emittable(a + b, book) <==> Emittable(a, book) && Emittable(b, book)
  {
    hide OpsBits, Emittable;
    OpsBitsConcat(a, b, book);
  }

  lemma SymOpsStep(t: TableId, its: Items, k: nat, e: nat, r: nat, br: seq<bool>)
    requires k <= e <= DCTSIZE2
    ensures k == e ==> SymOps(t, its, k, e, r, br) == []
    ensures k < e && its[k].Zero? ==> SymOps(t, its, k, e, r, br) == SymOps(t, its, k + 1, e, r + 1, br)
    ensures k < e && its[k].Corr? ==>
      SymOps(t, its, k, e, r, br)
      == ZrlOps(t, r, br) + SymOps(t, its, k + 1, e, r % 16, AfterZrl(r, br) + [its[k].bit])
    ensures k < e && its[k].New? ==>
      SymOps(t, its, k, e, r, br)
      == ZrlOps(t, r, br) + (NewOps(t, r % 16, its[k].v, AfterZrl(r, br)) + SymOps(t, its, k + 1, e, 0, []))
  {
    hide ZrlOps, NewOps;
  }

  /** The symbols of a whole band take the decoder from its start to the last new value. */
  lemma BandSymbolsDecode(c: Case, y: seq<bool>)
    requires c.Ok() && Emittable(Band(c.t, c.its, c.lo, c.hi).sym, c.book)
    ensures Band(c.t, c.its, c.lo, c.hi).sym == [] ==> End(c.its, c.lo, c.hi) == c.lo
    ensures c.DecodeAt(c.lo, c.Bits(Band(c.t, c.its, c.lo, c.hi).sym) + y) == c.DecodeAt(End(c.its, c.lo, c.hi), y)
  {
    hide OpsBits, Emittable, DecodeBand, Mix, Tied, Agrees;
    RunFresh(c.its, c.lo);
    SymDecodesAll(c, c.lo, c.lo, End(c.its, c.lo, c.hi), 0, [], y);
    NoSymbols(c.t, c.its, c.lo, End(c.its, c.lo, c.hi), 0, []);
  }

  /** A band with a new value has symbols. */
  lemma {:induction false} NoSymbols(t: TableId, its: Items, k: nat, e: nat, r: nat, br: seq<bool>)
    requires k <= e <= DCTSIZE2 && (k < e ==> its[e - 1].New?)
    ensures SymOps(t, its, k, e, r, br) == [] ==> k == e
    decreases e - k
  {
    SymOpsStep(t, its, k, e, r, br);
    if k < e {
      match its[k]
      case Zero => NoSymbols(t, its, k + 1, e, r + 1, br);
      case Corr(b) => NoSymbols(t, its, k + 1, e, r % 16, AfterZrl(r, br) + [b]);
      case New(v) =>
    }
  }
}
