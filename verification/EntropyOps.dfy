/** What an entropy coder emits, as a list of operations that can either be counted
    (statistics pass) or turned into bits (output pass). */
module EntropyOps {
  import opened Bits
  import opened Arithmetic
  import opened ByteStuffing
  import opened HuffmanTable
  import opened Coefficients

  datatype TableId = TableId(isAC: bool, no: int)

  /** A Huffman symbol, `n` raw low bits of a number, or the fatal out-of-range coefficient. */
  datatype Op = Sym(t: TableId, s: byte) | Raw(v: int, n: nat) | OutOfRange

  type Codebook = map<TableId, Derived>
  type Tables = map<TableId, Table>

  /** The operation can be emitted: the symbol has a code, the bits fit one call. */
  ghost predicate OpOk(op: Op, book: Codebook) {
    match op
    case Sym(t, s) =>
      t in book && |book[t].ehufco| == 256 == |book[t].ehufsi| && 0 < book[t].ehufsi[s] <= 16
    case Raw(_, n) => 0 < n <= 16
    case OutOfRange => false
  }

  ghost predicate Emittable(ops: seq<Op>, book: Codebook) {
    forall i :: 0 <= i < |ops| ==> OpOk(ops[i], book)
  }

  function Field(v: int, n: nat): seq<bool> {
    ToBits(v % Pow2(n), n)
  }

  function OpBits(op: Op, book: Codebook): seq<bool> {
    match op
    case Sym(t, s) =>
      if t in book && |book[t].ehufco| == 256 == |book[t].ehufsi|
      then Field(book[t].ehufco[s], book[t].ehufsi[s]) else []
    case Raw(v, n) => Field(v, n)
    case OutOfRange => []
  }

  function OpsBits(ops: seq<Op>, book: Codebook): seq<bool> {
    if ops == [] then [] else OpsBits(ops[..|ops| - 1], book) + OpBits(ops[|ops| - 1], book)
  }

  lemma {:induction false} OpsBitsConcat(a: seq<Op>, b: seq<Op>, book: Codebook)
    ensures OpsBits(a + b, book) == OpsBits(a, book) + OpsBits(b, book)
    ensures Emittable(a + b, book) <==> Emittable(a, book) && Emittable(b, book)
  {
    hide Emittable, OpBits;
    EmittableConcat(a, b, book);
    if b == [] {
      assert a + b == a;
      assert OpsBits(a, book) + [] == OpsBits(a, book);
    } else {
      var init := b[..|b| - 1];
      OpsBitsConcat(a, init, book);
      assert (a + b)[..|a + b| - 1] == a + init;
      AssocBits(OpsBits(a, book), OpsBits(init, book), OpBits(b[|b| - 1], book));
    }
  }

  lemma AssocBits(a: seq<bool>, b: seq<bool>, c: seq<bool>)
    ensures a + (b + c) == (a + b) + c
  {}

  lemma EmittableConcat(a: seq<Op>, b: seq<Op>, book: Codebook)
    ensures Emittable(a + b, book) <==> Emittable(a, book) && Emittable(b, book)
  {
    if Emittable(a + b, book) {
      forall i | 0 <= i < |a|
        ensures OpOk(a[i], book)
      {
        assert (a + b)[i] == a[i];
      }
      forall i | 0 <= i < |b|
        ensures OpOk(b[i], book)
      {
        assert (a + b)[|a| + i] == b[i];
      }
    }
  }

  lemma OneOpBits(op: Op, book: Codebook)
    ensures OpsBits([op], book) == OpBits(op, book)
    ensures Emittable([op], book) <==> OpOk(op, book)
  {
    assert [op][..0] == [];
  }

  lemma NoOpBits(book: Codebook)
    ensures OpsBits([], book) == [] && Emittable([], book)
  {}

  // ----- counting -----

  function CountSym(ops: seq<Op>, t: TableId, s: byte): nat {
    if ops == [] then 0 else CountSym(ops[..|ops| - 1], t, s) + (if ops[|ops| - 1] == Sym(t, s) then 1 else 0)
  }

  lemma {:induction false} CountedOccurs(ops: seq<Op>, t: TableId, s: byte)
    ensures CountSym(ops, t, s) > 0 <==> Sym(t, s) in ops
  {
    if ops != [] {
      CountedOccurs(ops[..|ops| - 1], t, s);
      assert ops == ops[..|ops| - 1] + [ops[|ops| - 1]];
    }
  }

  // ----- the decoder's view -----

  /** The encoder's codes are derived from the very tables that the decoder has. */
  ghost predicate Tied(book: Codebook, tabs: Tables) {
    forall t :: t in book ==> t in tabs && Legal(tabs[t], !t.isAC) && Derives(tabs[t], book[t])
  }

  /** Decoding what was emitted for one symbol. */
  lemma SymDecodes(t: TableId, s: byte, book: Codebook, tabs: Tables, rest: seq<bool>)
    requires Tied(book, tabs) && OpOk(Sym(t, s), book)
    ensures t in tabs && DecodeSymbol(tabs[t], OpBits(Sym(t, s), book) + rest) == Symbol(s, rest)
  {
    hide DecodeSymbol, Legal, Derives, ToBits, Pow2, Field;
    SymbolRoundTrip(tabs[t], !t.isAC, book[t], s, rest);
    FieldOfCode(book[t].ehufco[s], book[t].ehufsi[s]);
  }

  lemma FieldOfCode(c: nat, n: nat)
    requires c < Pow2(n)
    ensures Field(c, n) == ToBits(c, n)
  {
    hide Pow2, ToBits;
    SmallMod(c, Pow2(n));
  }

  /** Receiving what was emitted for raw bits. */
  lemma RawReceived(v: int, n: nat, book: Codebook, rest: seq<bool>)
    ensures Receive(OpBits(Raw(v, n), book) + rest, n) == Received(v % Pow2(n), rest)
  {
    ReceiveSent(v % Pow2(n), n, rest);
  }

  /** One raw bit. */
  lemma RawBit(b: bool, book: Codebook)
    ensures OpBits(Raw(if b then 1 else 0, 1), book) == [b]
  {
    assert Pow2(1) == 2;
    assert ToBits(if b then 1 else 0, 1) == ToBits(0, 0) + [b];
  }
}
