/** The sequential Huffman entropy encoder: output pass and statistics-gathering twin. */
module SequentialEncoder {
  import opened Bits
  import opened ByteStuffing
  import opened BitWriter
  import opened HuffmanTable
  import opened Coefficients
  import opened EntropyOps
  import opened BandCoding
  import opened EobRuns
  import opened ScanCoding
  import opened RestartCoding
  import opened OpWriter

  // ----- one block -----

  /** Where the AC loop is: everything before position k, except r pending zeros, has been sent. */
  ghost predicate AcProgress(t: TableId, its: Items, k: nat, r: nat, sent: seq<Op>, sym: seq<Op>) {
    var e := End(its, 1, DCTSIZE2);
    && 1 <= k <= DCTSIZE2 && sym == sent + SymOps(t, its, k, e, r, [])
    && (forall j :: 0 <= j < DCTSIZE2 ==> !its[j].Corr?)
    && (k >= e ==> r == k - e)
  }

  lemma AcStart(t: TableId, z: Block)
    ensures AcProgress(t, ItemsOf(false, z, 0), 1, 0, [], Band(t, ItemsOf(false, z, 0), 1, DCTSIZE2).sym)
  {
    hide SymOps, FirstItem;
    var its := ItemsOf(false, z, 0);
    assert [] + SymOps(t, its, 1, End(its, 1, DCTSIZE2), 0, []) == SymOps(t, its, 1, End(its, 1, DCTSIZE2), 0, []);
    assert forall j :: 0 <= j < DCTSIZE2 ==> !its[j].Corr? by { NoCorrections(z, 0); }
  }

  lemma NoCorrections(z: Block, al: nat)
    ensures forall j :: 0 <= j < DCTSIZE2 ==> !ItemsOf(false, z, al)[j].Corr?
  {}

  lemma AcZero(t: TableId, its: Items, k: nat, r: nat, sent: seq<Op>, sym: seq<Op>)
    requires AcProgress(t, its, k, r, sent, sym) && k < DCTSIZE2 && its[k].Zero?
    ensures AcProgress(t, its, k + 1, r + 1, sent, sym)
  {
    hide ZrlOps, NewOps;
  }

  /** At a nonzero coefficient: ZRL codes, then the run/size symbol and the value, then the rest. */
  lemma AcNew(t: TableId, its: Items, k: nat, r: nat, sent: seq<Op>, sym: seq<Op>)
    requires AcProgress(t, its, k, r, sent, sym) && k < DCTSIZE2 && its[k].New?
    ensures var e := End(its, 1, DCTSIZE2);
            && k < e
            && sym == sent + (ZrlOps(t, r, []) + (NewOps(t, r % 16, its[k].v, []) + SymOps(t, its, k + 1, e, 0, [])))
            && AcProgress(t, its, k + 1, 0, sent + ZrlOps(t, r, []) + NewOps(t, r % 16, its[k].v, []), sym)
  {
    hide ZrlOps, NewOps, SymOps;
    var e := End(its, 1, DCTSIZE2);
    SymOpsStep(t, its, k, e, r, []);
    NothingAfter(r);
    var a, b, c := ZrlOps(t, r, []), NewOps(t, r % 16, its[k].v, []), SymOps(t, its, k + 1, e, 0, []);
    assert sent + (a + (b + c)) == sent + a + b + c;
  }

  lemma NothingAfter(r: nat)
    ensures AfterZrl(r, []) == []
  {}

  lemma ZrlAgain(t: TableId, r: nat)
    ensures r > 15 ==> ZrlOps(t, r, []) == [Sym(t, 0xF0)] + ZrlOps(t, r - 16, [])
    ensures r <= 15 ==> ZrlOps(t, r, []) == []
  {
    assert [Sym(t, 0xF0)] + [] == [Sym(t, 0xF0)];
  }

  /** The loop that sends one ZRL for each 16 zeros. */
  method EmitZrls(w: Writer, act: Derived, zeros: nat, ghost t: TableId, ghost g: Goal, ghost sent: seq<Op>, ghost rest: seq<Op>)
    returns (s: Status, r: nat)
    requires TableOf(g.book, t, act)
    requires Sent(w, g, sent) && g.ops == sent + (ZrlOps(t, zeros, []) + rest)
    modifies w, w.dest
    ensures s.Done? ==> r == zeros % 16 && Sent(w, g, sent + ZrlOps(t, zeros, []))
    ensures !s.Done? ==> !CanFinish(g) && (s.Fatal? ==> !Emittable(g.ops, g.book))
    ensures s.Suspended? ==> !g.empties
    ensures !g.empties ==> unchanged(w.dest)
  {
    hide Sent, CanFinish, Emittable, ZrlOps, TableOf;
    r := zeros;
    ghost var done := sent;
    while r > 15
      invariant Sent(w, g, done)
      invariant r % 16 == zeros % 16
      invariant sent + ZrlOps(t, zeros, []) == done + ZrlOps(t, r, [])
      invariant !g.empties ==> unchanged(w.dest)
    {
      ZrlAgain(t, r);
      ZrlSplit(sent, ZrlOps(t, zeros, []), done, [Sym(t, 0xF0)], ZrlOps(t, r - 16, []), rest);
      s := EmitSymbol(w, act, 0xF0, t, g, done, ZrlOps(t, r - 16, []) + rest);
      if !s.Done? {
        return;
      }
      done := done + [Sym(t, 0xF0)];
      r := r - 16;
    }
    ZrlAgain(t, r);
    assert done + [] == done;
    s := Done;
  }

  lemma ZrlSplit(sent: seq<Op>, zrl: seq<Op>, done: seq<Op>, one: seq<Op>, more: seq<Op>, rest: seq<Op>)
    requires sent + zrl == done + (one + more)
    ensures sent + (zrl + rest) == done + one + (more + rest)
    ensures sent + zrl == done + one + more
  {
    assert sent + (zrl + rest) == (sent + zrl) + rest;
  }

  /** A nonzero AC coefficient x after r < 16 zeros. */
  method EmitNonzero(w: Writer, act: Derived, x: int, r: nat, ghost t: TableId, ghost g: Goal, ghost sent: seq<Op>, ghost rest: seq<Op>)
    returns (s: Status)
    requires TableOf(g.book, t, act) && x != 0 && r < 16
    requires Sent(w, g, sent) && g.ops == sent + (NewOps(t, r, x, []) + rest)
    modifies w, w.dest
    ensures s.Done? ==> Sent(w, g, sent + NewOps(t, r, x, []))
    ensures !s.Done? ==> !CanFinish(g) && (s.Fatal? ==> !Emittable(g.ops, g.book))
    ensures s.Suspended? ==> !g.empties
    ensures !g.empties ==> unchanged(w.dest)
  {
    hide Sent, CanFinish, Emittable, TableOf, BitLength, OpsBits, PackBytes, OpOk;
    var temp, temp2 := x, x;
    if temp < 0 {
      temp := -temp;
      temp2 := temp2 - 1;
    }
    var nbits := CountBits(temp);
    NonzeroShape(t, x, r);
    if nbits > MAX_COEF_BITS {
      FaultStops(g, sent, rest);
      return Fatal(BadDctCoef);
    }
    ghost var sym, raw := Sym(t, 16 * r + nbits), Raw(temp2, nbits);
    NonzeroSplit(sent, sym, raw, rest);
    s := EmitSymbol(w, act, 16 * r + nbits, t, g, sent, [raw] + rest);
    if !s.Done? {
      return;
    }
    s := EmitRaw(w, temp2, nbits, g, sent + [sym], rest);
  }

  lemma NonzeroShape(t: TableId, x: int, r: nat)
    requires x != 0 && r < 16
    ensures var n := BitLength(Abs(x));
            && n > 0
            && NewOps(t, r, x, []) == if n > MAX_COEF_BITS then [OutOfRange] else [Sym(t, 16 * r + n), Raw(Appended(x), n)]
  {
    assert BitOps([]) == [];
  }

  lemma NonzeroSplit(sent: seq<Op>, sym: Op, raw: Op, rest: seq<Op>)
    ensures sent + ([sym, raw] + rest) == sent + [sym] + ([raw] + rest)
    ensures sent + ([sym, raw] + rest) == (sent + [sym]) + [raw] + rest
    ensures sent + [sym] + [raw] == sent + [sym, raw]
  {}

  lemma FaultStops(g: Goal, sent: seq<Op>, rest: seq<Op>)
    requires g.ops == sent + ([OutOfRange] + rest)
    ensures !CanFinish(g) && !Emittable(g.ops, g.book)
  {
    assert g.ops[|sent|] == OutOfRange;
  }

  /** The DC part of a block: the category of the difference, then its bits. */
  method EmitDcDifference(w: Writer, dct: Derived, diff: int, ghost t: TableId, ghost g: Goal, ghost sent: seq<Op>, ghost rest: seq<Op>)
    returns (s: Status)
    requires TableOf(g.book, t, dct)
    requires Sent(w, g, sent) && g.ops == sent + (DcOps(t, diff) + rest)
    modifies w, w.dest
    ensures s.Done? ==> Sent(w, g, sent + DcOps(t, diff))
    ensures !s.Done? ==> !CanFinish(g) && (s.Fatal? ==> !Emittable(g.ops, g.book))
    ensures s.Suspended? ==> !g.empties
    ensures !g.empties ==> unchanged(w.dest)
  {
    hide Sent, CanFinish, Emittable, TableOf, BitLength, OpsBits, PackBytes, OpOk;
    var temp, temp2 := diff, diff;
    if temp < 0 {
      temp := -temp;
      temp2 := temp2 - 1;
    }
    var nbits := CountBits(temp);
    if nbits > MAX_COEF_BITS + 1 {
      FaultStops(g, sent, rest);
      return Fatal(BadDctCoef);
    }
    ghost var sym, raw := Sym(t, nbits), Raw(temp2, nbits);
    ghost var ext := if nbits > 0 then [raw] else [];
    assert sent + ([sym] + ext + rest) == sent + [sym] + (ext + rest);
    assert sent + [sym] + ext == sent + ([sym] + ext);
    s := EmitSymbol(w, dct, nbits, t, g, sent, ext + rest);
    if !s.Done? {
      return;
    }
    if nbits > 0 {
      s := EmitRaw(w, temp2, nbits, g, sent + [sym], rest);
    } else {
      assert sent + [sym] == sent + ([sym] + []);
    }
  }

  /** encode_one_block. */
  method EncodeOneBlock(w: Writer, block: Block, lastDcVal: int, dct: Derived, act: Derived,
                        ghost t: TableId, ghost u: TableId, ghost g: Goal, ghost sent: seq<Op>, ghost rest: seq<Op>)
    returns (s: Status)
    requires TableOf(g.book, t, dct) && TableOf(g.book, u, act)
    requires Sent(w, g, sent)
    requires g.ops == sent + (DcOps(t, block[0] - lastDcVal) + SequentialAcOps(u, Zigzag(block)) + rest)
    modifies w, w.dest
    ensures s.Done? ==> Sent(w, g, sent + (DcOps(t, block[0] - lastDcVal) + SequentialAcOps(u, Zigzag(block))))
    ensures !s.Done? ==> !CanFinish(g) && (s.Fatal? ==> !Emittable(g.ops, g.book))
    ensures s.Suspended? ==> !g.empties
    ensures !g.empties ==> unchanged(w.dest)
  {
    hide Sent, CanFinish, Emittable, TableOf, DcOps, SequentialAcOps, Zigzag;
    ghost var dc, ac := DcOps(t, block[0] - lastDcVal), SequentialAcOps(u, Zigzag(block));
    assert sent + (dc + ac + rest) == sent + (dc + (ac + rest));
    s := EmitDcDifference(w, dct, block[0] - lastDcVal, t, g, sent, ac + rest);
    if !s.Done? {
      return;
    }
    assert sent + (dc + (ac + rest)) == (sent + dc) + (ac + rest);
    s := EncodeAc(w, block, act, u, g, sent + dc, rest);
    assert sent + dc + ac == sent + (dc + ac);
  }

  /** The AC loop of encode_one_block. */
  method EncodeAc(w: Writer, block: Block, act: Derived, ghost t: TableId, ghost g: Goal, ghost sent: seq<Op>, ghost rest: seq<Op>)
    returns (s: Status)
    requires TableOf(g.book, t, act)
    requires Sent(w, g, sent) && g.ops == sent + (SequentialAcOps(t, Zigzag(block)) + rest)
    modifies w, w.dest
    ensures s.Done? ==> Sent(w, g, sent + SequentialAcOps(t, Zigzag(block)))
    ensures !s.Done? ==> !CanFinish(g) && (s.Fatal? ==> !Emittable(g.ops, g.book))
    ensures s.Suspended? ==> !g.empties
    ensures !g.empties ==> unchanged(w.dest)
  {
    hide Sent, CanFinish, Emittable, TableOf, AcProgress, NaturalOrder, Band, NewOps, ZrlOps, SymOps, End, ItemsOf, SequentialAcOps, Zigzag;
    ghost var its, sym, tail := AcParts(t, Zigzag(block), sent, rest);
    var r, k := 0, 1;
    ghost var done := [];
    assert sent + [] == sent;
    while k < DCTSIZE2
      invariant AcProgress(t, its, k, r, done, sym) && Sent(w, g, sent + done) && 1 <= k <= DCTSIZE2
      invariant !g.empties ==> unchanged(w.dest)
    {
      var temp := block[NaturalOrder(k)];
      ItemAt(block, k);
      if temp == 0 {
        AcZero(t, its, k, r, done, sym);
        r := r + 1;
      } else {
        AcNew(t, its, k, r, done, sym);
        ghost var zrl, new_ := ZrlOps(t, r, []), NewOps(t, r % 16, temp, []);
        ghost var more := SymOps(t, its, k + 1, End(its, 1, DCTSIZE2), 0, []);
        AcSplit(sent, done, zrl, new_, more, tail + rest, sym, g.ops);
        s, r := EmitZrls(w, act, r, t, g, sent + done, new_ + (more + (tail + rest)));
        if !s.Done? {
          return;
        }
        s := EmitNonzero(w, act, temp, r, t, g, sent + done + zrl, more + (tail + rest));
        if !s.Done? {
          return;
        }
        done := done + zrl + new_;
        r := 0;
      }
      k := k + 1;
    }
    AcEnd(t, its, r, done, sym);
    EobSplit(sent, sym, tail, rest);
    if r > 0 {
      s := EmitSymbol(w, act, 0, t, g, sent + sym, rest);
      return;
    }
    s := Done;
  }

  /** The parts of a sequential block's AC operations. */
  lemma AcParts(t: TableId, z: Block, sent: seq<Op>, rest: seq<Op>) returns (its: Items, sym: seq<Op>, tail: seq<Op>)
    ensures its == ItemsOf(false, z, 0) && AcProgress(t, its, 1, 0, [], sym)
    ensures tail == if End(its, 1, DCTSIZE2) < DCTSIZE2 then [Sym(t, 0)] else []
    ensures SequentialAcOps(t, z) == sym + tail
    ensures sent + (SequentialAcOps(t, z) + rest) == sent + (sym + (tail + rest))
  {
    hide SymOps, End, ItemsOf, AcProgress;
    its := ItemsOf(false, z, 0);
    var b := Band(t, its, 1, DCTSIZE2);
    sym, tail := b.sym, if b.eob then [Sym(t, 0)] else [];
    AcStart(t, z);
    assert sym + tail + rest == sym + (tail + rest);
  }

  lemma ItemAt(block: Block, k: Index)
    ensures var x, it := block[NaturalOrder(k)], ItemsOf(false, Zigzag(block), 0)[k];
            if x == 0 then it == Zero else it == New(x)
  {
    hide NaturalOrder;
  }

  lemma AcSplit(sent: seq<Op>, done: seq<Op>, a: seq<Op>, b: seq<Op>, c: seq<Op>, rest: seq<Op>, sym: seq<Op>, ops: seq<Op>)
    requires sym == done + (a + (b + c)) && ops == sent + (sym + rest)
    ensures ops == (sent + done) + (a + (b + (c + rest)))
    ensures ops == (sent + done + a) + (b + (c + rest))
    ensures sent + done + a + b == sent + (done + a + b)
  {
    assert done + (a + (b + c)) + rest == done + (a + (b + (c + rest)));
  }

  lemma AcEnd(t: TableId, its: Items, r: nat, done: seq<Op>, sym: seq<Op>)
    requires AcProgress(t, its, DCTSIZE2, r, done, sym)
    ensures done == sym && (r > 0 <==> End(its, 1, DCTSIZE2) < DCTSIZE2)
  {
    hide ZrlOps, NewOps;
    assert done + [] == done;
  }

  lemma EobSplit(sent: seq<Op>, sym: seq<Op>, tail: seq<Op>, rest: seq<Op>)
    ensures sent + (sym + (tail + rest)) == sent + sym + tail + rest
    ensures sent + (sym + tail) == sent + sym + tail
    ensures sent + sym + [] == sent + sym
  {}
}
