/** Writing a list of coder operations through the bit writer, one emit_bits call each. */
module OpWriter {
  import opened Bits
  import opened ByteStuffing
  import opened BitWriter
  import opened HuffmanTable
  import opened Coefficients
  import opened EntropyOps

  /** The operations a routine is to write, and the writer's position when it starts. */
  datatype Goal = Goal(empties: bool, base: seq<byte>, bits: seq<bool>, room: nat, ops: seq<Op>, book: Codebook)

  /** All operations have codes, and a suspending sink has a byte to spare for their bytes. */
  ghost predicate CanFinish(g: Goal) {
    && Emittable(g.ops, g.book)
    && (g.empties || |g.base + PackBytes(g.bits + OpsBits(g.ops, g.book))| < g.room)
  }

  /** The writer has written exactly `sent` since the goal was set. */
  ghost predicate Sent(w: Writer, g: Goal, sent: seq<Op>)
    reads w, w.dest
  {
    && w.Valid() && w.dest.empties == g.empties
    && w.Writing(g.base, g.bits + OpsBits(sent, g.book)) && Emittable(sent, g.book)
    && (!g.empties ==> w.Room() == g.room)
  }

  lemma {:induction false} PackLonger(a: seq<bool>, b: seq<bool>)
    ensures |PackBytes(a)| <= |PackBytes(a + b)|
  {
    PackConcat(a, b);
  }

  /** An operation that cannot be written makes the whole goal unreachable. */
  lemma StuckAt(g: Goal, sent: seq<Op>, op: Op, rest: seq<Op>)
    requires g.ops == sent + [op] + rest
    requires !OpOk(op, g.book) ||
             (!g.empties && |g.base + PackBytes((g.bits + OpsBits(sent, g.book)) + OpBits(op, g.book))| >= g.room)
    ensures !CanFinish(g)
  {
    hide OpsBits, OpBits, Emittable, OpOk, PackBytes;
    OpsBitsConcat(sent + [op], rest, g.book);
    OpsBitsConcat(sent, [op], g.book);
    OneOpBits(op, g.book);
    var upto := g.bits + OpsBits(sent, g.book) + OpBits(op, g.book);
    PackLonger(upto, OpsBits(rest, g.book));
    assert upto + OpsBits(rest, g.book) == g.bits + OpsBits(g.ops, g.book);
  }

  lemma SentMore(g: Goal, sent: seq<Op>, op: Op)
    requires Emittable(sent, g.book) && OpOk(op, g.book)
    ensures Emittable(sent + [op], g.book)
    ensures g.bits + OpsBits(sent, g.book) + OpBits(op, g.book) == g.bits + OpsBits(sent + [op], g.book)
  {
    hide OpsBits, OpBits, Emittable, OpOk;
    OpsBitsConcat(sent, [op], g.book);
    OneOpBits(op, g.book);
  }

  /** emit_bits for one operation of the goal. */
  method EmitCode(w: Writer, code: int, size: nat, ghost g: Goal, ghost sent: seq<Op>, ghost op: Op, ghost rest: seq<Op>)
    returns (s: Status)
    requires Sent(w, g, sent) && g.ops == sent + [op] + rest && size <= 16
    requires OpBits(op, g.book) == Field(code, size) && (OpOk(op, g.book) <==> size > 0)
    modifies w, w.dest
    ensures s.Done? ==> Sent(w, g, sent + [op])
    ensures !s.Done? ==> !CanFinish(g) && (s.Fatal? ==> !Emittable(g.ops, g.book))
    ensures s.Suspended? ==> !g.empties
    ensures !g.empties ==> unchanged(w.dest)
  {
    hide OpsBits, OpBits, Emittable, OpOk, PackBytes, CanFinish, ToBits, Pow2, WindowHolds;
    ghost var before := w.bits;
    s := w.EmitBits(code, size);
    if s.Done? {
      SentMore(g, sent, op);
    } else {
      StuckAt(g, sent, op, rest);
      if s.Fatal? {
        NotEmittable(g, sent, op, rest);
      }
    }
  }

  lemma NotEmittable(g: Goal, sent: seq<Op>, op: Op, rest: seq<Op>)
    requires g.ops == sent + [op] + rest && !OpOk(op, g.book)
    ensures !Emittable(g.ops, g.book)
  {
    hide OpOk;
    OpsBitsConcat(sent + [op], rest, g.book);
    OpsBitsConcat(sent, [op], g.book);
    OneOpBits(op, g.book);
  }

  /** A derived table as the code book has it. */
  ghost predicate TableOf(book: Codebook, t: TableId, d: Derived) {
    t in book && book[t] == d && |d.ehufco| == 256 == |d.ehufsi| && forall s: byte :: d.ehufsi[s] <= 16
  }

  /** Emitting a Huffman symbol. */
  method EmitSymbol(w: Writer, d: Derived, sym: byte, ghost t: TableId, ghost g: Goal, ghost sent: seq<Op>, ghost rest: seq<Op>)
    returns (s: Status)
    requires TableOf(g.book, t, d)
    requires Sent(w, g, sent) && g.ops == sent + [Sym(t, sym)] + rest
    modifies w, w.dest
    ensures s.Done? ==> Sent(w, g, sent + [Sym(t, sym)])
    ensures !s.Done? ==> !CanFinish(g) && (s.Fatal? ==> !Emittable(g.ops, g.book))
    ensures s.Suspended? ==> !g.empties
    ensures !g.empties ==> unchanged(w.dest)
  {
    hide OpsBits, Emittable, PackBytes, CanFinish, Sent, Field;
    s := EmitCode(w, d.ehufco[sym], d.ehufsi[sym], g, sent, Sym(t, sym), rest);
  }

  /** Emitting raw bits; size 0 never occurs here. */
  method EmitRaw(w: Writer, v: int, n: nat, ghost g: Goal, ghost sent: seq<Op>, ghost rest: seq<Op>) returns (s: Status)
    requires 0 < n <= 16
    requires Sent(w, g, sent) && g.ops == sent + [Raw(v, n)] + rest
    modifies w, w.dest
    ensures s.Done? ==> Sent(w, g, sent + [Raw(v, n)])
    ensures !s.Done? ==> !CanFinish(g) && (s.Fatal? ==> !Emittable(g.ops, g.book))
    ensures s.Suspended? ==> !g.empties
    ensures !g.empties ==> unchanged(w.dest)
  {
    hide OpsBits, Emittable, PackBytes, CanFinish, Sent, Field;
    s := EmitCode(w, v, n, g, sent, Raw(v, n), rest);
  }

  /** The shift loop that counts the bits of a magnitude. */
  method CountBits(magnitude: nat) returns (nbits: nat)
    ensures nbits == BitLength(magnitude)
  {
    nbits := 0;
    var temp := magnitude;
    while temp != 0
      invariant nbits + BitLength(temp) == BitLength(magnitude)
    {
      nbits := nbits + 1;
      temp := temp / 2;
    }
  }
}
