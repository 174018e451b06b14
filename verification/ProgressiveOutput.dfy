/** The progressive encoder's output primitives: each either emits, or only counts when a
    statistics pass is on. A destination that refuses to be emptied is a fatal error here. */
module ProgressiveOutput {
  import opened Bits
  import opened ByteStuffing
  import opened BitWriter
  import opened HuffmanTable
  import opened Coefficients
  import opened EntropyOps
  import opened BandCoding
  import opened OpWriter
  import opened SymbolCounts

  /** What a routine is to put out: by writing from the goal's position, or by counting on from c0. */
  datatype Target = Target(gather: bool, g: Goal, c0: Statistics)

  ghost predicate CanReach(tgt: Target) {
    if tgt.gather then InRange(tgt.g.ops) else CanFinish(tgt.g)
  }

  /** The table t is there to count or to code with. */
  ghost predicate Served(tgt: Target, t: TableId) {
    if tgt.gather then t in tgt.c0 else t in tgt.g.book && TableOf(tgt.g.book, t, tgt.g.book[t])
  }

  class Emitter {
    const gather: bool
    const w: Writer
    const book: Codebook
    var counts: Statistics

    constructor (gather: bool, w: Writer, book: Codebook, counts: Statistics)
      ensures this.gather == gather && this.w == w && this.book == book && this.counts == counts
    {
      this.gather, this.w, this.book, this.counts := gather, w, book, counts;
    }

    /** A statistics pass changes only the counts, an output pass only the output. */
    ghost function Footprint(): set<object> {
      if gather then {this} else {w, w.dest}
    }

    /** Exactly `sent` has been put out since the target was set. */
    ghost predicate Reached(tgt: Target, sent: seq<Op>)
      reads this, w, w.dest
    {
      && gather == tgt.gather
      && if gather then Tallied(tgt.c0, counts, sent) else tgt.g.book == book && Sent(w, tgt.g, sent)
    }

    /** emit_symbol */
    method EmitSymbol(t: TableId, sym: byte, ghost tgt: Target, ghost sent: seq<Op>, ghost rest: seq<Op>) returns (s: Status)
      requires Reached(tgt, sent) && Served(tgt, t) && tgt.g.ops == sent + [Sym(t, sym)] + rest
      modifies Footprint()
      ensures s.Done? ==> Reached(tgt, sent + [Sym(t, sym)])
      ensures !s.Done? ==> s.Fatal? && !CanReach(tgt)
    {
      hide Sent, CanFinish, Emittable, TableOf, Tallied;
      if gather {
        TalliedSym(tgt.c0, counts, sent, t, sym);
        counts := counts[t := counts[t][sym := counts[t][sym] + 1]];
        return Done;
      }
      s := OpWriter.EmitSymbol(w, book[t], sym, t, tgt.g, sent, rest);
      if s.Suspended? {
        s := Fatal(CantSuspend);
      }
    }

    /** emit_bits for raw bits that encode `op`. */
    method EmitBits(code: int, size: nat, ghost op: Op, ghost tgt: Target, ghost sent: seq<Op>, ghost rest: seq<Op>) returns (s: Status)
      requires Reached(tgt, sent) && tgt.g.ops == sent + [op] + rest
      requires op.Raw? && op.n == size && 0 < size <= 16 && Field(code, size) == Field(op.v, size)
      modifies Footprint()
      ensures s.Done? ==> Reached(tgt, sent + [op])
      ensures !s.Done? ==> s.Fatal? && !CanReach(tgt)
    {
      hide Sent, CanFinish, Emittable, Tallied, Field;
      if gather {
        TalliedRaw(tgt.c0, counts, sent, [op]);
        return Done;
      }
      s := EmitCode(w, code, size, tgt.g, sent, op, rest);
      if s.Suspended? {
        s := Fatal(CantSuspend);
      }
    }

    /** emit_buffered_bits: n bits of the buffer from `start` on. */
    method EmitBufferedBits(buffer: array<bool>, start: nat, n: nat, ghost tgt: Target, ghost sent: seq<Op>, ghost rest: seq<Op>)
      returns (s: Status)
      requires start + n <= buffer.Length
      requires Reached(tgt, sent) && tgt.g.ops == sent + BitOps(buffer[start..start + n]) + rest
      modifies Footprint()
      ensures s.Done? ==> Reached(tgt, sent + BitOps(buffer[start..start + n]))
      ensures !s.Done? ==> s.Fatal? && !CanReach(tgt)
    {
      hide Sent, CanFinish, Emittable, Tallied, Field, OpsBits, PackBytes, BitOps;
      ghost var bits := buffer[start..start + n];
      ghost var now := sent;
      NoBitOps();
      assert sent + [] == sent;
      if gather {
        OnlyRaw(bits);
        TalliedRaw(tgt.c0, counts, sent, BitOps(bits));
        return Done;
      }
      s := Done;
      var i := 0;
      while i < n
        invariant i <= n && buffer[start..start + n] == bits
        invariant now == sent + BitOps(bits[..i])
        invariant Reached(tgt, now)
      {
        ghost var op := Raw(if bits[i] then 1 else 0, 1);
        BitSplit(sent, bits, i, rest);
        s := EmitBits(if buffer[start + i] then 1 else 0, 1, op, tgt, now, BitOps(bits[i + 1..]) + rest);
        if !s.Done? {
          return;
        }
        now := now + [op];
        i := i + 1;
      }
      assert bits[..i] == bits;
      s := Done;
    }

    static lemma NoBitOps()
      ensures BitOps([]) == []
    {}

    static lemma {:induction false} OnlyRaw(bits: seq<bool>)
      ensures forall i :: 0 <= i < |bits| ==> BitOps(bits)[i].Raw?
    {
      if bits != [] {
        OnlyRaw(bits[..|bits| - 1]);
      }
    }

    static lemma {:induction false} BitOpsConcat(a: seq<bool>, b: seq<bool>)
      ensures BitOps(a + b) == BitOps(a) + BitOps(b)
    {
      if b == [] {
        assert a + b == a;
      } else {
        BitOpsConcat(a, b[..|b| - 1]);
        assert (a + b)[..|a + b| - 1] == a + b[..|b| - 1];
      }
    }

    static lemma BitSplit(sent: seq<Op>, bits: seq<bool>, i: nat, rest: seq<Op>)
      requires i < |bits|
      ensures var op := Raw(if bits[i] then 1 else 0, 1);
              && sent + BitOps(bits) + rest == sent + BitOps(bits[..i]) + [op] + (BitOps(bits[i + 1..]) + rest)
              && sent + BitOps(bits[..i]) + [op] == sent + BitOps(bits[..i + 1])
    {
      var op := Raw(if bits[i] then 1 else 0, 1);
      OneMoreBit(bits, i);
      BitOpsConcat(bits[..i + 1], bits[i + 1..]);
      assert bits[..i + 1] + bits[i + 1..] == bits;
      hide BitOps;
      AppendOp(sent, BitOps(bits[..i]), op, BitOps(bits[i + 1..]), rest);
    }

    static lemma OneMoreBit(bits: seq<bool>, i: nat)
      requires i < |bits|
      ensures BitOps(bits[..i + 1]) == BitOps(bits[..i]) + [Raw(if bits[i] then 1 else 0, 1)]
    {
      assert bits[..i + 1][..i] == bits[..i];
    }

    static lemma AppendOp(sent: seq<Op>, a: seq<Op>, op: Op, b: seq<Op>, rest: seq<Op>)
      ensures sent + ((a + [op]) + b) + rest == sent + a + [op] + (b + rest)
      ensures sent + a + [op] == sent + (a + [op])
    {}
  }
}
