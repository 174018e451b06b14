/** How far the encoding of one block's AC band has got: the pending run, the zeros and
    correction bits since the last symbol, and what is still to be emitted. */
module ProgressiveBands {
  import opened Bits
  import opened ByteStuffing
  import opened HuffmanTable
  import opened Coefficients
  import opened EntropyOps
  import opened BandCoding
  import opened EobRuns

  /** The state of the loop over a band at position k: everything emitted so far is `done`, r zeros
      and the correction bits br came since the last symbol, and cur is the pending run. */
  datatype At = At(k: nat, r: nat, br: seq<bool>, cur: Pending)

  /** The band a block has: its table, what each coefficient needs, and the pending run before it. */
  datatype Work = Work(t: TableId, its: Items, lo: nat, hi: nat, p: Pending) {
    ghost predicate Ok() { 0 < lo < hi <= DCTSIZE2 && p.run < MAX_EOBRUN && PendingOk(p) }

    function Last(): nat
      requires lo < hi <= DCTSIZE2
    {
      End(its, lo, hi)
    }

    function Whole(): (seq<Op>, Pending)
      requires lo < hi <= DCTSIZE2 && p.run < MAX_EOBRUN
    {
      BandEmits(t, p, Band(t, its, lo, hi))
    }

    /** What is still to come, from a point inside the band. */
    function Rest(at: At): (seq<Op>, Pending)
      requires lo < hi <= DCTSIZE2 && at.cur.run < MAX_EOBRUN
    {
      BandEmits(t, at.cur, BandOps(SymOps(t, its, at.k, Last(), at.r, at.br), Last() < hi, CorrBits(its, Last(), hi)))
    }
  }

  ghost predicate Progress(w: Work, at: At, done: seq<Op>) {
    && w.Ok() && w.lo <= at.k <= w.hi && PendingOk(at.cur)
    && at.r + |at.br| <= at.k - w.lo
    && w.Whole().0 == done + w.Rest(at).0 && w.Whole().1 == w.Rest(at).1
    && (at.k >= w.Last() ==> at.br == CorrBits(w.its, w.Last(), at.k) && (at.r > 0 || at.br != [] <==> at.k > w.Last()))
  }

  lemma ProgressStarts(w: Work)
    requires w.Ok()
    ensures Progress(w, At(w.lo, 0, [], w.p), [])
  {
    hide SymOps, BandEmits, End;
    var rest := w.Rest(At(w.lo, 0, [], w.p)).0;
    assert [] + rest == rest;
    assert w.Last() == w.lo ==> CorrBits(w.its, w.lo, w.lo) == [];
  }

  lemma {:induction false} CorrBitsStep(its: Items, lo: nat, k: nat)
    requires lo <= k < DCTSIZE2
    ensures CorrBits(its, lo, k + 1) == CorrBits(its, lo, k) + (if its[k].Corr? then [its[k].bit] else [])
    decreases k - lo
  {
    if lo < k {
      CorrBitsStep(its, lo + 1, k);
    }
  }

  lemma SymsStep(t: TableId, its: Items, k: nat, e: nat, r: nat, br: seq<bool>)
    requires e <= DCTSIZE2 && k < DCTSIZE2
    ensures its[k].Zero? ==> SymOps(t, its, k, e, r, br) == SymOps(t, its, k + 1, e, r + 1, br)
    ensures its[k].Corr? && (r <= 15 || k >= e) ==> SymOps(t, its, k, e, r, br) == SymOps(t, its, k + 1, e, r, br + [its[k].bit])
  {
    assert r <= 15 ==> [] + SymOps(t, its, k + 1, e, r, br + [Bit(its[k])]) == SymOps(t, its, k + 1, e, r, br + [Bit(its[k])]);
  }

  function Bit(it: Item): bool {
    it.Corr? && it.bit
  }

  /** A coefficient that stays zero. */
  lemma ProgressZero(w: Work, at: At, done: seq<Op>)
    requires Progress(w, at, done) && at.k < w.hi && w.its[at.k].Zero?
    ensures Progress(w, at.(k := at.k + 1, r := at.r + 1), done)
  {
    hide SymOps, BandEmits, End, PendingOk;
    SymsStep(w.t, w.its, at.k, w.Last(), at.r, at.br);
    if at.k >= w.Last() {
      CorrBitsStep(w.its, w.Last(), at.k);
    }
    EndIsNew(w);
  }

  lemma EndIsNew(w: Work)
    requires w.Ok()
    ensures w.lo <= w.Last() <= w.hi && (w.Last() > w.lo ==> w.its[w.Last() - 1].New?)
    ensures forall k :: w.Last() <= k < w.hi ==> !w.its[k].New?
  {}

  /** A correction bit is put aside. */
  lemma ProgressCorr(w: Work, at: At, done: seq<Op>)
    requires Progress(w, at, done) && at.k < w.hi && w.its[at.k].Corr? && (at.r <= 15 || at.k >= w.Last())
    ensures Progress(w, at.(k := at.k + 1, br := at.br + [w.its[at.k].bit]), done)
  {
    hide SymOps, BandEmits, End, PendingOk;
    SymsStep(w.t, w.its, at.k, w.Last(), at.r, at.br);
    if at.k >= w.Last() {
      CorrBitsStep(w.its, w.Last(), at.k);
    }
    EndIsNew(w);
  }

  /** Before the first symbol the pending run goes out. */
  lemma ProgressFlush(w: Work, at: At, done: seq<Op>)
    requires Progress(w, at, done) && at.k < w.Last()
    ensures w.Whole().0 == done + FlushOps(w.t, at.cur) + w.Rest(at.(cur := NONE_PENDING)).0
    ensures Progress(w, at.(cur := NONE_PENDING), done + FlushOps(w.t, at.cur))
  {
    hide SymOps, BandEmits, End, FlushOps, CorrBits;
    EndIsNew(w);
    var e := w.Last();
    NoSymbols(w.t, w.its, at.k, e, at.r, at.br);
    var b := BandOps(SymOps(w.t, w.its, at.k, e, at.r, at.br), e < w.hi, CorrBits(w.its, e, w.hi));
    LoudOnce(w.t, at.cur, b);
    var rest := w.Rest(at.(cur := NONE_PENDING)).0;
    assert done + (FlushOps(w.t, at.cur) + rest) == done + FlushOps(w.t, at.cur) + rest;
  }

  /** A symbol's operations x, then the rest. */
  lemma SymbolThen(t: TableId, x: seq<Op>, rem: seq<Op>, eob: bool, br: seq<bool>)
    requires x != []
    ensures BandEmits(t, NONE_PENDING, BandOps(x + rem, eob, br)).0 == x + BandEmits(t, NONE_PENDING, BandOps(rem, eob, br)).0
    ensures BandEmits(t, NONE_PENDING, BandOps(x + rem, eob, br)).1 == BandEmits(t, NONE_PENDING, BandOps(rem, eob, br)).1
  {
    hide FlushOps, MustFlush;
    var p2 := Pending(1, [] + br);
    NothingToFlush(t);
    var f := if eob && MustFlush(p2) then FlushOps(t, p2) else [];
    assert [] + (x + rem) == x + rem && [] + rem == rem && rem + [] == rem;
    assert BandEmits(t, NONE_PENDING, BandOps(rem, eob, br)).0 == rem + f;
    assert (x + rem) + f == x + (rem + f);
    assert (x + rem) + [] == x + rem;
  }

  lemma NothingToFlush(t: TableId)
    ensures FlushOps(t, NONE_PENDING) == []
  {}

  /** One ZRL, with the correction bits that go with it. */
  lemma ZrlStep(t: TableId, its: Items, k: nat, e: nat, r: nat, br: seq<bool>)
    requires k < e <= DCTSIZE2 && !its[k].Zero? && r > 15
    ensures SymOps(t, its, k, e, r, br) == ([Sym(t, 0xF0)] + BitOps(br)) + SymOps(t, its, k, e, r - 16, [])
  {
    hide BitOps, NewOps;
    var z, y := [Sym(t, 0xF0)] + BitOps(br), ZrlOps(t, r - 16, []);
    assert AfterZrl(r - 16, []) == [];
    match its[k]
    case Corr(b) =>
      var m := SymOps(t, its, k + 1, e, r % 16, [] + [b]);
      assert (z + y) + m == z + (y + m);
    case New(v) =>
      var m, n := SymOps(t, its, k + 1, e, 0, []), NewOps(t, r % 16, v, []);
      assert (z + y) + n + m == z + (y + n + m);
  }

  lemma ProgressZrl(w: Work, at: At, done: seq<Op>)
    requires Progress(w, at, done) && at.k < w.Last() && !w.its[at.k].Zero? && at.r > 15 && at.cur == NONE_PENDING
    ensures w.Whole().0 == done + ([Sym(w.t, 0xF0)] + BitOps(at.br)) + w.Rest(At(at.k, at.r - 16, [], NONE_PENDING)).0
    ensures Progress(w, At(at.k, at.r - 16, [], NONE_PENDING), done + ([Sym(w.t, 0xF0)] + BitOps(at.br)))
  {
    hide SymOps, BandEmits, End, BitOps, CorrBits;
    var x := [Sym(w.t, 0xF0)] + BitOps(at.br);
    ZrlStep(w.t, w.its, at.k, w.Last(), at.r, at.br);
    var rem := SymOps(w.t, w.its, at.k, w.Last(), at.r - 16, []);
    SymbolThen(w.t, x, rem, w.Last() < w.hi, CorrBits(w.its, w.Last(), w.hi));
    var rest := w.Rest(At(at.k, at.r - 16, [], NONE_PENDING)).0;
    assert done + (x + rest) == done + x + rest;
  }

  /** A newly nonzero coefficient after fewer than 16 zeros. */
  lemma NewStep(t: TableId, its: Items, k: nat, e: nat, r: nat, br: seq<bool>)
    requires k < e <= DCTSIZE2 && its[k].New? && r <= 15
    ensures SymOps(t, its, k, e, r, br) == NewOps(t, r, its[k].v, br) + SymOps(t, its, k + 1, e, 0, [])
    ensures NewOps(t, r, its[k].v, br) != []
  {
    hide BitOps, BitLength;
    var n := NewOps(t, r, its[k].v, br);
    assert [] + n == n;
  }

  lemma ProgressNew(w: Work, at: At, done: seq<Op>)
    requires Progress(w, at, done) && at.k < w.Last() && w.its[at.k].New? && at.r <= 15 && at.cur == NONE_PENDING
    ensures w.Whole().0 == done + NewOps(w.t, at.r, w.its[at.k].v, at.br) + w.Rest(At(at.k + 1, 0, [], NONE_PENDING)).0
    ensures Progress(w, At(at.k + 1, 0, [], NONE_PENDING), done + NewOps(w.t, at.r, w.its[at.k].v, at.br))
  {
    hide SymOps, BandEmits, End, NewOps, CorrBits;
    NewStep(w.t, w.its, at.k, w.Last(), at.r, at.br);
    NoCorrYet(w);
    EndIsNew(w);
    var x := NewOps(w.t, at.r, w.its[at.k].v, at.br);
    var rem := SymOps(w.t, w.its, at.k + 1, w.Last(), 0, []);
    SymbolThen(w.t, x, rem, w.Last() < w.hi, CorrBits(w.its, w.Last(), w.hi));
    var rest := w.Rest(At(at.k + 1, 0, [], NONE_PENDING)).0;
    assert done + (x + rest) == done + x + rest;
  }

  /** Newly nonzero coefficients lie before the end. */
  lemma NewBeforeEnd(w: Work, k: nat)
    requires w.Ok() && w.lo <= k < w.hi && w.its[k].New?
    ensures k < w.Last()
  {}

  lemma NoCorrYet(w: Work)
    requires w.Ok()
    ensures CorrBits(w.its, w.Last(), w.Last()) == []
  {}

  /** At the end of the band: an EOB is counted if anything came after the last symbol. */
  lemma ProgressEnds(w: Work, at: At, done: seq<Op>)
    requires Progress(w, at, done) && at.k == w.hi
    ensures var p2 := Pending(at.cur.run + 1, at.cur.be + at.br);
            if at.r > 0 || at.br != [] then
              if MustFlush(p2) then (w.Whole() == (done + FlushOps(w.t, p2), NONE_PENDING)) else (w.Whole() == (done, p2))
            else (w.Whole() == (done, at.cur))
  {
    hide End, FlushOps, MustFlush, CorrBits;
    EndIsNew(w);
    assert SymOps(w.t, w.its, at.k, w.Last(), at.r, at.br) == [];
    assert done + [] == done;
    var p2 := Pending(at.cur.run + 1, at.cur.be + at.br);
    assert [] + FlushOps(w.t, p2) == FlushOps(w.t, p2);
  }
}
