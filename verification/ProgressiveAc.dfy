/** AC scans of the progressive entropy encoder: first scans and refinements, with deferred EOB
    runs and the correction-bit buffer. */
module ProgressiveAc {
  import opened Bits
  import opened ByteStuffing
  import opened BitWriter
  import opened HuffmanTable
  import opened Coefficients
  import opened EntropyOps
  import opened BandCoding
  import opened EobRuns
  import opened ScanCoding
  import opened RestartCoding
  import opened OpWriter
  import opened SymbolCounts
  import opened SequentialEncoder
  import opened ProgressiveOutput
  import opened ProgressiveBands

  /** The AC part of the encoder's state. */
  class AcCoder {
    const scan: Scan
    const out: Emitter
    const bitBuffer: array<bool>      // correction bits; those before be belong to the pending run
    var eobrun: nat
    var be: nat

    constructor (scan: Scan, out: Emitter)
      ensures this.scan == scan && this.out == out && Holds(NONE_PENDING) && fresh(bitBuffer)
    {
      this.scan, this.out := scan, out;
      bitBuffer := new bool[MAX_CORR_BITS];
      eobrun, be := 0, 0;
    }

    /** The pending run is p. */
    ghost predicate Holds(p: Pending)
      reads this`eobrun, this`be, bitBuffer
    {
      eobrun == p.run && be == |p.be| && bitBuffer.Length == MAX_CORR_BITS && |p.be| <= MAX_CORR_BITS && bitBuffer[..be] == p.be
    }

    /** The r correction bits br of the current block lie after the pending ones. */
    ghost predicate Buffered(start: nat, n: nat, br: seq<bool>)
      reads bitBuffer
    {
      n == |br| && start + n <= bitBuffer.Length && bitBuffer[start..start + n] == br
    }

    /** The loop that finds the category of a run, which is never above 14. */
    static method RunBits(run: nat) returns (nbits: nat)
      requires 0 < run <= MAX_EOBRUN
      ensures nbits == BitLength(run) - 1 && nbits <= 14
    {
      hide BitLength;
      RunCategory(run);
      nbits := Halvings(run);
    }

    static method Halvings(run: nat) returns (nbits: nat)
      requires run > 0
      ensures nbits == BitLength(run) - 1
    {
      nbits := 0;
      var temp: nat := run / 2;
      while temp != 0
        invariant nbits + BitLength(temp) + 1 == BitLength(run)
      {
        nbits := nbits + 1;
        temp := temp / 2;
      }
    }

    /** emit_eobrun. The check for more than 14 category bits can never fire. */
    method EmitEobrun(ghost cur: Pending, ghost tgt: Target, ghost sent: seq<Op>, ghost rest: seq<Op>) returns (s: Status)
      requires |scan.acTbl| > 0 && Holds(cur) && cur.run <= MAX_EOBRUN && (cur.be != [] ==> cur.run > 0)
      requires out.Reached(tgt, sent) && (cur.run > 0 ==> Served(tgt, scan.AcId(0)))
      requires tgt.g.ops == sent + FlushOps(scan.AcId(0), cur) + rest
      modifies this`eobrun, this`be, out.Footprint()
      ensures s.Done? ==> out.Reached(tgt, sent + FlushOps(scan.AcId(0), cur)) && Holds(NONE_PENDING)
      ensures !s.Done? ==> s.Fatal? && !CanReach(tgt)
    {
      hide Served, CanReach, BitOps, BitLength, Field, Emitter.Reached, FlushOps;
      assert sent + [] == sent;
      if eobrun > 0 {
        ghost var t := scan.AcId(0);
        ghost var n, sym, ext, bits := FlushParts(t, cur, sent, rest);
        var nbits := RunBits(eobrun);
        s := out.EmitSymbol(scan.AcId(0), 16 * nbits, tgt, sent, ext + (bits + rest));
        if !s.Done? {
          return;
        }
        if nbits > 0 {
          s := out.EmitBits(eobrun, nbits, Raw(cur.run, nbits), tgt, sent + [sym], bits + rest);
          if !s.Done? {
            return;
          }
        } else {
          assert sent + [sym] + [] == sent + [sym];
        }
        eobrun := 0;
        s := out.EmitBufferedBits(bitBuffer, 0, be, tgt, sent + [sym] + ext, rest);
        if !s.Done? {
          return;
        }
        be := 0;
      } else {
        NoRun(scan.AcId(0), cur);
      }
      s := Done;
    }

    static lemma NoRun(t: TableId, cur: Pending)
      requires cur.run == 0
      ensures FlushOps(t, cur) == []
    {}

    /** The operations of a pending run, in the order they are emitted. */
    static lemma FlushParts(t: TableId, cur: Pending, sent: seq<Op>, rest: seq<Op>) returns (n: nat, sym: Op, ext: seq<Op>, bits: seq<Op>)
      requires 0 < cur.run <= MAX_EOBRUN
      ensures n == BitLength(cur.run) - 1 && n <= 14 && sym == Sym(t, 16 * n) && ext == (if n > 0 then [Raw(cur.run, n)] else [])
      ensures bits == BitOps(cur.be) && FlushOps(t, cur) == [sym] + ext + bits
      ensures sent + FlushOps(t, cur) + rest == sent + [sym] + (ext + (bits + rest))
      ensures sent + FlushOps(t, cur) + rest == (sent + [sym]) + ext + (bits + rest)
      ensures sent + FlushOps(t, cur) + rest == (sent + [sym] + ext) + bits + rest
      ensures sent + FlushOps(t, cur) == (sent + [sym] + ext) + bits
    {
      hide BitOps, BitLength;
      RunCategory(cur.run);
      n := BitLength(cur.run) - 1;
      sym, ext, bits := Sym(t, 16 * n), if n > 0 then [Raw(cur.run, n)] else [], BitOps(cur.be);
      Regroupings(sent, [sym], ext, bits, rest);
    }

    static lemma Regroupings(sent: seq<Op>, a: seq<Op>, b: seq<Op>, c: seq<Op>, rest: seq<Op>)
      ensures sent + (a + b + c) + rest == sent + a + (b + (c + rest))
      ensures sent + (a + b + c) + rest == (sent + a) + b + (c + rest)
      ensures sent + (a + b + c) + rest == (sent + a + b) + c + rest
      ensures sent + (a + b + c) == (sent + a + b) + c
    {}

    // ----- AC first scan -----

    /** The block's band in this scan, with the run pending before it. */
    ghost function WorkOf(block: Block, p: Pending): (w: Work)
      requires scan.Wf() && scan.IsAC()
      ensures w.t == scan.AcId(0) && w.lo == scan.ss && w.hi == scan.se + 1 && w.p == p
    {
      Work(scan.AcId(0), ItemsOf(scan.kind.AcRefine?, Zigzag(block), scan.al), scan.ss, scan.se + 1, p)
    }

    static lemma FirstItemAt(block: Block, k: Index, al: nat)
      ensures var x, it := block[NaturalOrder(k)], ItemsOf(false, Zigzag(block), al)[k];
              && (Shr(Abs(x), al) == 0 ==> it == Zero)
              && (Shr(Abs(x), al) > 0 ==> it == New(WithSign(x, Shr(Abs(x), al))))
    {
      hide NaturalOrder, Shr;
    }

    static lemma OutOfRangeStops(tgt: Target, sent: seq<Op>, rest: seq<Op>)
      requires tgt.g.ops == sent + [OutOfRange] + rest
      ensures !CanReach(tgt)
    {
      assert tgt.g.ops[|sent|] == OutOfRange;
      assert sent + [OutOfRange] + rest == sent + ([OutOfRange] + rest);
      FaultStops(tgt.g, sent, rest);
    }

    static lemma FirstRest(sent: seq<Op>, sym: Op, raw: Op, rest: seq<Op>)
      ensures sent + [sym, raw] + rest == sent + [sym] + ([raw] + rest)
      ensures sent + [sym, raw] + rest == (sent + [sym]) + [raw] + rest
      ensures sent + [sym] + [raw] == sent + [sym, raw]
    {}

    /** A run/size symbol and the bits of the value v, whose magnitude is temp and whose appended bits are temp2. */
    method EmitValue(r: nat, temp: nat, temp2: int, ghost v: int, ghost tgt: Target, ghost sent: seq<Op>, ghost rest: seq<Op>)
      returns (s: Status)
      requires |scan.acTbl| > 0 && r < 16 && temp == Abs(v) && temp > 0 && temp2 == Appended(v)
      requires out.Reached(tgt, sent) && Served(tgt, scan.AcId(0))
      requires tgt.g.ops == sent + NewOps(scan.AcId(0), r, v, []) + rest
      modifies out.Footprint()
      ensures s.Done? ==> out.Reached(tgt, sent + NewOps(scan.AcId(0), r, v, []))
      ensures !s.Done? ==> s.Fatal? && !CanReach(tgt)
    {
      hide Served, CanReach, BitLength, Field, Emitter.Reached, NewOps;
      NonzeroShape(scan.AcId(0), v, r);
      var nbits := CountBits(temp);
      if nbits > MAX_COEF_BITS {
        OutOfRangeStops(tgt, sent, rest);
        return Fatal(BadDctCoef);
      }
      ghost var sym, raw := Sym(scan.AcId(0), 16 * r + nbits), Raw(temp2, nbits);
      FirstRest(sent, sym, raw, rest);
      s := out.EmitSymbol(scan.AcId(0), 16 * r + nbits, tgt, sent, [raw] + rest);
      if !s.Done? {
        return;
      }
      s := out.EmitBits(temp2, nbits, raw, tgt, sent + [sym], rest);
    }

    /** One ZRL for each 16 zeros, in a first scan. */
    method EmitZrlsFirst(zeros: nat, ghost work: Work, ghost at: At, ghost tgt: Target, ghost sent: seq<Op>)
      returns (s: Status, r: nat, ghost now: seq<Op>)
      requires |scan.acTbl| > 0 && work.t == scan.AcId(0) && Served(tgt, work.t)
      requires Progress(work, at, sent) && at.r == zeros && at.br == [] && at.cur == NONE_PENDING
      requires at.k < work.Last() && !work.its[at.k].Zero?
      requires out.Reached(tgt, sent) && tgt.g.ops == work.Whole().0
      modifies out.Footprint()
      ensures s.Done? ==> r <= 15 && Progress(work, at.(r := r), now) && out.Reached(tgt, now)
      ensures !s.Done? ==> s.Fatal? && !CanReach(tgt)
    {
      hide Served, CanReach, Emitter.Reached, Progress, Work.Whole, Work.Rest, Work.Last, BitOps;
      r, now := zeros, sent;
      while r > 15
        invariant Progress(work, at.(r := r), now) && out.Reached(tgt, now)
      {
        PlainZrl(work, at.(r := r), now);
        s := out.EmitSymbol(scan.AcId(0), 0xF0, tgt, now, work.Rest(At(at.k, r - 16, [], NONE_PENDING)).0);
        if !s.Done? {
          return;
        }
        now := now + [Sym(work.t, 0xF0)];
        r := r - 16;
      }
      s := Done;
    }

    static lemma PlainZrl(w: Work, at: At, done: seq<Op>)
      requires Progress(w, at, done) && at.k < w.Last() && !w.its[at.k].Zero? && at.r > 15 && at.cur == NONE_PENDING && at.br == []
      ensures w.Ok() && w.Whole().0 == done + [Sym(w.t, 0xF0)] + w.Rest(At(at.k, at.r - 16, [], NONE_PENDING)).0
      ensures Progress(w, At(at.k, at.r - 16, [], NONE_PENDING), done + [Sym(w.t, 0xF0)])
    {
      ProgressHas(w, at, done);
      hide Progress, Work.Whole, Work.Rest, Work.Last;
      ProgressZrl(w, at, done);
      assert [Sym(w.t, 0xF0)] + [] == [Sym(w.t, 0xF0)];
    }

    static lemma ProgressHas(w: Work, at: At, done: seq<Op>)
      requires Progress(w, at, done)
      ensures w.Ok() && PendingOk(at.cur) && w.lo <= at.k <= w.hi && at.r + |at.br| <= at.k - w.lo
    {}

    /** The AC loop of encode_mcu_AC_first. */
    method EncodeAcFirst(block: Block, ghost p: Pending, ghost tgt: Target) returns (s: Status)
      requires scan.Wf() && scan.kind.AcFirst? && Holds(p) && PendingOk(p)
      requires out.Reached(tgt, []) && Served(tgt, scan.AcId(0)) && tgt.g.ops == WorkOf(block, p).Whole().0
      modifies this`eobrun, this`be, out.Footprint()
      ensures s.Done? ==> out.Reached(tgt, tgt.g.ops) && Holds(WorkOf(block, p).Whole().1)
      ensures !s.Done? ==> s.Fatal? && !CanReach(tgt)
    {
      hide Served, CanReach, Emitter.Reached, Progress, Work.Whole, Work.Rest, Work.Last, BitOps, ItemsOf, Shr, NaturalOrder, NewOps, FlushOps;
      ghost var work, cur, done := WorkOf(block, p), p, [];
      var r, k := 0, scan.ss;
      ProgressStarts(work);
      while k <= scan.se
        invariant scan.ss <= k <= scan.se + 1 && Holds(cur)
        invariant Progress(work, At(k, r, [], cur), done) && out.Reached(tgt, done) && PendingOk(cur)
      {
        var temp, temp2 := block[NaturalOrder(k)], 0;
        FirstItemAt(block, k, scan.al);
        ghost var v := WithSign(temp, Shr(Abs(temp), scan.al));
        if temp < 0 {
          temp := Shr(-temp, scan.al);
          temp2 := -temp - 1;
        } else {
          temp := Shr(temp, scan.al);
          temp2 := temp;
        }
        if temp == 0 {
          ProgressZero(work, At(k, r, [], cur), done);
          r := r + 1;
        } else {
          NewBeforeEnd(work, k);
          ProgressFlush(work, At(k, r, [], cur), done);
          s := EmitEobrun(cur, tgt, done, work.Rest(At(k, r, [], NONE_PENDING)).0);
          if !s.Done? {
            return;
          }
          done, cur := done + FlushOps(work.t, cur), NONE_PENDING;
          s, r, done := EmitZrlsFirst(r, work, At(k, r, [], cur), tgt, done);
          if !s.Done? {
            return;
          }
          ProgressNew(work, At(k, r, [], cur), done);
          s := EmitValue(r, temp, temp2, v, tgt, done, work.Rest(At(k + 1, 0, [], NONE_PENDING)).0);
          if !s.Done? {
            return;
          }
          done := done + NewOps(work.t, r, v, []);
          r := 0;
        }
        k := k + 1;
      }
      ProgressEnds(work, At(k, r, [], cur), done);
      AppendNothing(tgt.g.ops);
      s := Done;
      if r > 0 {
        eobrun := eobrun + 1;
        cur := Pending(cur.run + 1, cur.be + []);
        if eobrun == MAX_EOBRUN {
          s := EmitEobrun(cur, tgt, done, []);
        }
      }
    }

    // ----- AC refinement scan -----

    static lemma RefineItemAt(block: Block, k: Index, al: nat)
      ensures var x, it := block[NaturalOrder(k)], ItemsOf(true, Zigzag(block), al)[k];
              var a := Shr(Abs(x), al);
              && (a == 0 ==> it == Zero) && (a == 1 ==> it == New(WithSign(x, 1))) && (a > 1 ==> it == Corr(a % 2 == 1))
    {
      hide NaturalOrder, Shr;
    }

    /** The position of the last newly nonzero coefficient, 0 if there is none. */
    static ghost predicate LastNew(its: Items, lo: nat, hi: nat, eob: nat)
      requires lo <= hi <= DCTSIZE2
    {
      eob == if End(its, lo, hi) > lo then End(its, lo, hi) - 1 else 0
    }

    static lemma LastNewStep(its: Items, lo: nat, k: nat, eob: nat)
      requires lo <= k < DCTSIZE2 && LastNew(its, lo, k, eob)
      ensures LastNew(its, lo, k + 1, if its[k].New? then k else eob)
    {}

    /** The pre-pass over the band: transformed magnitudes and the EOB position. */
    method PrePass(block: Block, absvalues: array<nat>) returns (eob: nat)
      requires scan.Wf() && scan.kind.AcRefine? && absvalues.Length == DCTSIZE2
      modifies absvalues
      ensures forall k :: scan.ss <= k <= scan.se ==> absvalues[k] == Shr(Abs(block[NaturalOrder(k)]), scan.al)
      ensures LastNew(ItemsOf(true, Zigzag(block), scan.al), scan.ss, scan.se + 1, eob)
    {
      hide NaturalOrder, Shr, ItemsOf, LastNew;
      ghost var its := ItemsOf(true, Zigzag(block), scan.al);
      NothingNewYet(its, scan.ss);
      eob := 0;
      var k := scan.ss;
      while k <= scan.se
        invariant scan.ss <= k <= scan.se + 1 && LastNew(its, scan.ss, k, eob)
        invariant forall j :: scan.ss <= j < k ==> absvalues[j] == Shr(Abs(block[NaturalOrder(j)]), scan.al)
      {
        var temp := block[NaturalOrder(k)];
        if temp < 0 {
          temp := -temp;
        }
        temp := Shr(temp, scan.al);
        absvalues[k] := temp;
        RefineItemAt(block, k, scan.al);
        LastNewStep(its, scan.ss, k, eob);
        if temp == 1 {
          eob := k;
        }
        k := k + 1;
      }
    }

    static lemma NothingNewYet(its: Items, lo: nat)
      requires lo <= DCTSIZE2
      ensures LastNew(its, lo, lo, 0)
    {}

    static lemma BeforeEob(w: Work, k: nat, eob: nat)
      requires w.Ok() && w.lo <= k && LastNew(w.its, w.lo, w.hi, eob)
      ensures k <= eob <==> k < w.Last()
    {}

    /** BR_buffer[BR++] = bit */
    method PutBit(n: nat, bit: bool, ghost cur: Pending, ghost br: seq<bool>)
      requires Holds(cur) && Buffered(be, n, br) && be + n < MAX_CORR_BITS
      modifies bitBuffer
      ensures Holds(cur) && Buffered(be, n + 1, br + [bit])
    {
      bitBuffer[be + n] := bit;
      assert bitBuffer[be..be + n + 1] == bitBuffer[be..be + n] + [bit];
    }

    /** The ZRLs due before position k, unless they can be folded into the EOB. */
    method EmitZrls(k: nat, eob: nat, zeros: nat, bits: nat, ghost work: Work, ghost at: At, ghost tgt: Target, ghost sent: seq<Op>)
      returns (s: Status, r: nat, n: nat, ghost at': At, ghost now: seq<Op>)
      requires |scan.acTbl| > 0 && work.t == scan.AcId(0) && Served(tgt, work.t)
      requires work.Ok() && k < work.hi && LastNew(work.its, work.lo, work.hi, eob)
      requires Progress(work, at, sent) && at.k == k && at.r == zeros && Holds(at.cur) && Buffered(be, bits, at.br)
      requires !work.its[k].Zero?
      requires out.Reached(tgt, sent) && tgt.g.ops == work.Whole().0
      modifies this`eobrun, this`be, out.Footprint()
      ensures s.Done? ==> Progress(work, at', now) && at'.k == k && at'.r == r && out.Reached(tgt, now)
      ensures s.Done? ==> Holds(at'.cur) && Buffered(be, n, at'.br)
      ensures s.Done? ==> r <= 15 || k > eob
      ensures !s.Done? ==> s.Fatal? && !CanReach(tgt)
    {
      hide Served, CanReach, Emitter.Reached, Progress, Work.Whole, Work.Rest, Work.Last, BitOps, LastNew, PendingOk, FlushOps;
      r, n, at', now := zeros, bits, at, sent;
      s := Done;
      while r > 15 && k <= eob
        invariant Progress(work, at', now) && at'.k == k && at'.r == r && out.Reached(tgt, now)
        invariant Holds(at'.cur) && Buffered(be, n, at'.br) && s.Done?
      {
        ProgressHas(work, at', now);
        BeforeEob(work, k, eob);
        var start := be;
        ghost var x, mid, rest := ZrlParts(work, at', now);
        s := EmitEobrun(at'.cur, tgt, now, x + rest);
        if !s.Done? {
          return;
        }
        s := out.EmitSymbol(scan.AcId(0), 0xF0, tgt, now + FlushOps(work.t, at'.cur), BitOps(at'.br) + rest);
        if !s.Done? {
          return;
        }
        r := r - 16;
        s := out.EmitBufferedBits(bitBuffer, start, n, tgt, mid, rest);
        if !s.Done? {
          return;
        }
        now := mid + BitOps(at'.br);
        at' := At(k, r, [], NONE_PENDING);
        n := 0;
      }
    }

    /** A ZRL's operations: the pending run, the symbol, its correction bits; mid is the point before the bits. */
    static lemma ZrlParts(w: Work, at: At, done: seq<Op>) returns (x: seq<Op>, mid: seq<Op>, rest: seq<Op>)
      requires Progress(w, at, done) && at.k < w.Last() && !w.its[at.k].Zero? && at.r > 15
      ensures w.Ok() && at.cur.run <= MAX_EOBRUN && (at.cur.be != [] ==> at.cur.run > 0)
      ensures x == [Sym(w.t, 0xF0)] + BitOps(at.br) && mid == done + FlushOps(w.t, at.cur) + [Sym(w.t, 0xF0)]
      ensures w.Whole().0 == done + FlushOps(w.t, at.cur) + (x + rest)
      ensures w.Whole().0 == (done + FlushOps(w.t, at.cur)) + [Sym(w.t, 0xF0)] + (BitOps(at.br) + rest)
      ensures w.Whole().0 == mid + BitOps(at.br) + rest
      ensures Progress(w, At(at.k, at.r - 16, [], NONE_PENDING), mid + BitOps(at.br))
    {
      hide Work.Whole, Work.Rest, Work.Last, BitOps, FlushOps;
      ProgressFlush(w, at, done);
      var f, z, c := FlushOps(w.t, at.cur), [Sym(w.t, 0xF0)], BitOps(at.br);
      ProgressZrl(w, at.(cur := NONE_PENDING), done + f);
      x, mid := z + c, done + f + z;
      rest := w.Rest(At(at.k, at.r - 16, [], NONE_PENDING)).0;
      Regroupings(done + f, [], z, c, rest);
      ThreeParts(done + f, z, c, rest);
    }

    static lemma ThreeParts(a: seq<Op>, z: seq<Op>, c: seq<Op>, rest: seq<Op>)
      ensures a + (z + c) + rest == a + ((z + c) + rest)
      ensures a + (z + c) + rest == a + z + (c + rest)
      ensures a + (z + c) + rest == (a + z) + c + rest
      ensures a + (z + c) == (a + z) + c
    {}

    /** A newly nonzero coefficient: the pending run, run/size symbol, sign bit, correction bits. */
    method EmitNew(r: nat, sign: bool, n: nat, ghost work: Work, ghost at: At, ghost tgt: Target, ghost sent: seq<Op>)
      returns (s: Status, ghost now: seq<Op>)
      requires |scan.acTbl| > 0 && work.t == scan.AcId(0) && Served(tgt, work.t)
      requires Progress(work, at, sent) && at.r == r && Holds(at.cur) && Buffered(be, n, at.br)
      requires at.k < work.hi && work.its[at.k] == New(if sign then -1 else 1) && r <= 15
      requires out.Reached(tgt, sent) && tgt.g.ops == work.Whole().0
      modifies this`eobrun, this`be, out.Footprint()
      ensures s.Done? ==> Progress(work, At(at.k + 1, 0, [], NONE_PENDING), now) && out.Reached(tgt, now) && Holds(NONE_PENDING)
      ensures !s.Done? ==> s.Fatal? && !CanReach(tgt)
    {
      hide Served, CanReach, Emitter.Reached, Progress, Work.Whole, Work.Rest, Work.Last, BitOps, PendingOk, FlushOps, NewOps, Field;
      now := sent;
      var start := be;
      ghost var sym, raw, rest := NewParts(work, at, sent, sign);
      ghost var a := sent + FlushOps(work.t, at.cur);
      s := EmitEobrun(at.cur, tgt, sent, [sym] + ([raw] + (BitOps(at.br) + rest)));
      if !s.Done? {
        return;
      }
      s := out.EmitSymbol(scan.AcId(0), 16 * r + 1, tgt, a, [raw] + (BitOps(at.br) + rest));
      if !s.Done? {
        return;
      }
      SignBit(sign);
      s := out.EmitBits(if sign then 0 else 1, 1, raw, tgt, a + [sym], BitOps(at.br) + rest);
      if !s.Done? {
        return;
      }
      s := out.EmitBufferedBits(bitBuffer, start, n, tgt, a + [sym] + [raw], rest);
      now := a + [sym] + [raw] + BitOps(at.br);
    }

    static lemma SignBit(sign: bool)
      ensures Field(if sign then 0 else 1, 1) == Field(Appended(if sign then -1 else 1), 1)
    {
      assert Pow2(1) == 2;
    }

    static lemma NewParts(w: Work, at: At, done: seq<Op>, sign: bool) returns (sym: Op, raw: Op, rest: seq<Op>)
      requires Progress(w, at, done) && at.k < w.hi && w.its[at.k] == New(if sign then -1 else 1) && at.r <= 15
      ensures w.Ok() && at.cur.run <= MAX_EOBRUN && (at.cur.be != [] ==> at.cur.run > 0)
      ensures sym == Sym(w.t, 16 * at.r + 1) && raw == Raw(Appended(if sign then -1 else 1), 1)
      ensures var a, c := done + FlushOps(w.t, at.cur), BitOps(at.br);
              && w.Whole().0 == a + ([sym] + ([raw] + (c + rest)))
              && w.Whole().0 == a + [sym] + ([raw] + (c + rest))
              && w.Whole().0 == (a + [sym]) + [raw] + (c + rest)
              && w.Whole().0 == (a + [sym] + [raw]) + c + rest
              && Progress(w, At(at.k + 1, 0, [], NONE_PENDING), a + [sym] + [raw] + c)
    {
      hide Work.Whole, Work.Rest, Work.Last, BitOps, FlushOps;
      NewBeforeEnd(w, at.k);
      ProgressFlush(w, at, done);
      var a, c := done + FlushOps(w.t, at.cur), BitOps(at.br);
      ProgressNew(w, at.(cur := NONE_PENDING), a);
      sym, raw := Sym(w.t, 16 * at.r + 1), Raw(Appended(if sign then -1 else 1), 1);
      rest := w.Rest(At(at.k + 1, 0, [], NONE_PENDING)).0;
      OneBitValue(w.t, at.r, sign, at.br);
      FourParts(a, [sym], [raw], c, rest);
    }

    static lemma OneBitValue(t: TableId, r: nat, sign: bool, br: seq<bool>)
      requires r <= 15
      ensures NewOps(t, r, if sign then -1 else 1, br) == [Sym(t, 16 * r + 1)] + [Raw(Appended(if sign then -1 else 1), 1)] + BitOps(br)
    {
      hide BitOps;
      assert BitLength(1) == 1;
    }

    static lemma FourParts(a: seq<Op>, x: seq<Op>, y: seq<Op>, c: seq<Op>, rest: seq<Op>)
      ensures a + (x + y + c) + rest == a + (x + (y + (c + rest)))
      ensures a + (x + y + c) + rest == a + x + (y + (c + rest))
      ensures a + (x + y + c) + rest == (a + x) + y + (c + rest)
      ensures a + (x + y + c) + rest == (a + x + y) + c + rest
      ensures a + (x + y + c) == (a + x + y) + c
    {}

    /** A coefficient of transformed magnitude temp > 0: ZRLs due, then a correction bit or a new value. */
    method RefineNonzero(k: nat, eob: nat, zeros: nat, bits: nat, temp: nat, sign: bool,
                         ghost work: Work, ghost at: At, ghost tgt: Target, ghost sent: seq<Op>)
      returns (s: Status, r: nat, n: nat, ghost at': At, ghost now: seq<Op>)
      requires |scan.acTbl| > 0 && work.t == scan.AcId(0) && Served(tgt, work.t)
      requires work.Ok() && k < work.hi && LastNew(work.its, work.lo, work.hi, eob) && temp > 0
      requires work.its[k] == if temp == 1 then New(if sign then -1 else 1) else Corr(temp % 2 == 1)
      requires Progress(work, at, sent) && at.k == k && at.r == zeros && Holds(at.cur) && Buffered(be, bits, at.br)
      requires out.Reached(tgt, sent) && tgt.g.ops == work.Whole().0
      modifies this`eobrun, this`be, bitBuffer, out.Footprint()
      ensures s.Done? ==> Progress(work, at', now) && at'.k == k + 1 && at'.r == r && out.Reached(tgt, now)
      ensures s.Done? ==> Holds(at'.cur) && Buffered(be, n, at'.br)
      ensures !s.Done? ==> s.Fatal? && !CanReach(tgt)
    {
      hide Served, CanReach, Emitter.Reached, Progress, Work.Whole, Work.Rest, Work.Last, LastNew;
      s, r, n, at', now := EmitZrls(k, eob, zeros, bits, work, at, tgt, sent);
      if !s.Done? {
        return;
      }
      ProgressHas(work, at', now);
      BeforeEob(work, k, eob);
      if temp > 1 {
        ProgressCorr(work, at', now);
        PutBit(n, temp % 2 == 1, at'.cur, at'.br);
        at' := at'.(k := k + 1, br := at'.br + [temp % 2 == 1]);
        n := n + 1;
      } else {
        NewBeforeEnd(work, k);
        s, now := EmitNew(r, sign, n, work, at', tgt, now);
        at' := At(k + 1, 0, [], NONE_PENDING);
        r, n := 0, 0;
      }
    }

    /** The AC loop of encode_mcu_AC_refine. */
    method EncodeAcRefine(block: Block, ghost p: Pending, ghost tgt: Target) returns (s: Status)
      requires scan.Wf() && scan.kind.AcRefine? && Holds(p) && PendingOk(p)
      requires out.Reached(tgt, []) && Served(tgt, scan.AcId(0)) && tgt.g.ops == WorkOf(block, p).Whole().0
      modifies this`eobrun, this`be, bitBuffer, out.Footprint()
      ensures s.Done? ==> out.Reached(tgt, tgt.g.ops) && Holds(WorkOf(block, p).Whole().1)
      ensures !s.Done? ==> s.Fatal? && !CanReach(tgt)
    {
      hide Served, CanReach, Emitter.Reached, Progress, Work.Whole, Work.Rest, Work.Last, BitOps, ItemsOf, Shr, NaturalOrder, LastNew, NewOps, FlushOps;
      ghost var work, done := WorkOf(block, p), [];
      ghost var at := At(scan.ss, 0, [], p);
      var absvalues := new nat[DCTSIZE2];
      var eob := PrePass(block, absvalues);
      var r, n, k := 0, 0, scan.ss;
      ProgressStarts(work);
      while k <= scan.se
        invariant scan.ss <= k <= scan.se + 1 && Holds(at.cur) && Buffered(be, n, at.br)
        invariant Progress(work, at, done) && at.k == k && at.r == r && out.Reached(tgt, done)
        invariant forall k :: scan.ss <= k <= scan.se ==> absvalues[k] == Shr(Abs(block[NaturalOrder(k)]), scan.al)
      {
        var temp := absvalues[k];
        RefineItemAt(block, k, scan.al);
        if temp == 0 {
          ProgressZero(work, at, done);
          r := r + 1;
          at := at.(k := k + 1, r := r);
        } else {
          s, r, n, at, done := RefineNonzero(k, eob, r, n, temp, block[NaturalOrder(k)] < 0, work, at, tgt, done);
          if !s.Done? {
            return;
          }
        }
        k := k + 1;
      }
      s := FinishBand(r, n, work, at, tgt, done);
    }

    /** The end of the refinement loop: count an EOB, keep its correction bits, force it out when full. */
    method FinishBand(r: nat, n: nat, ghost work: Work, ghost at: At, ghost tgt: Target, ghost sent: seq<Op>) returns (s: Status)
      requires |scan.acTbl| > 0 && work.t == scan.AcId(0) && Served(tgt, work.t)
      requires Progress(work, at, sent) && at.k == work.hi && at.r == r && Holds(at.cur) && Buffered(be, n, at.br)
      requires out.Reached(tgt, sent) && tgt.g.ops == work.Whole().0
      modifies this`eobrun, this`be, out.Footprint()
      ensures s.Done? ==> work.Ok() && out.Reached(tgt, tgt.g.ops) && Holds(work.Whole().1)
      ensures !s.Done? ==> s.Fatal? && !CanReach(tgt)
    {
      hide Served, CanReach, Emitter.Reached, Progress, Work.Whole, Work.Rest, Work.Last, FlushOps;
      ProgressHas(work, at, sent);
      ProgressEnds(work, at, sent);
      AppendNothing(tgt.g.ops);
      s := Done;
      if r > 0 || n > 0 {
        ghost var p2 := Pending(at.cur.run + 1, at.cur.be + at.br);
        assert bitBuffer[..be + n] == p2.be;
        eobrun := eobrun + 1;
        be := be + n;
        if eobrun == MAX_EOBRUN || be > MAX_CORR_BITS - DCTSIZE2 + 1 {
          s := EmitEobrun(p2, tgt, sent, []);
        }
      }
    }
  }
}
