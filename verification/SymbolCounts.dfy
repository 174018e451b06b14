/** Symbol statistics: what a gathering pass leaves in the count tables. */
module SymbolCounts {
  import opened ByteStuffing
  import opened EntropyOps

  const COUNT_ENTRIES := 257

  type Statistics = map<TableId, seq<nat>>

  /** Every count table has its 257 entries. */
  ghost predicate CountsOk(c: Statistics) {
    forall t :: t in c ==> |c[t]| == COUNT_ENTRIES
  }

  function TallyOp(c: Statistics, op: Op): Statistics {
    match op
    case Sym(t, s) => if t in c && s < |c[t]| then c[t := c[t][s := c[t][s] + 1]] else c
    case _ => c
  }

  /** The counts after all operations of a list. */
  function Tally(c: Statistics, ops: seq<Op>): Statistics {
    if ops == [] then c else TallyOp(Tally(c, ops[..|ops| - 1]), ops[|ops| - 1])
  }

  lemma {:induction false} TallyConcat(c: Statistics, a: seq<Op>, b: seq<Op>)
    ensures Tally(c, a + b) == Tally(Tally(c, a), b)
  {
    if b == [] {
      assert a + b == a;
    } else {
      TallyConcat(c, a, b[..|b| - 1]);
      assert (a + b)[..|a + b| - 1] == a + b[..|b| - 1];
    }
  }

  lemma {:induction false} TallyOk(c: Statistics, ops: seq<Op>)
    requires CountsOk(c)
    ensures CountsOk(Tally(c, ops)) && Tally(c, ops).Keys == c.Keys
  {
    if ops != [] {
      TallyOk(c, ops[..|ops| - 1]);
    }
  }

  /** The count of a symbol is the number of its occurrences. */
  lemma {:induction false} TallyCounts(c: Statistics, ops: seq<Op>, t: TableId, s: byte)
    requires CountsOk(c) && t in c
    ensures CountsOk(Tally(c, ops)) && t in Tally(c, ops)
    ensures Tally(c, ops)[t][s] == c[t][s] + CountSym(ops, t, s)
  {
    TallyOk(c, ops);
    if ops != [] {
      TallyCounts(c, ops[..|ops| - 1], t, s);
      TallyOk(c, ops[..|ops| - 1]);
    }
  }

  /** No operation is the fatal out-of-range coefficient. */
  ghost predicate InRange(ops: seq<Op>) {
    forall i :: 0 <= i < |ops| ==> !ops[i].OutOfRange?
  }

  lemma InRangeConcat(a: seq<Op>, b: seq<Op>)
    ensures InRange(a + b) <==> InRange(a) && InRange(b)
  {
    if InRange(a + b) {
      forall i | 0 <= i < |a|
        ensures !a[i].OutOfRange?
      {
        assert (a + b)[i] == a[i];
      }
      forall i | 0 <= i < |b|
        ensures !b[i].OutOfRange?
      {
        assert (a + b)[|a| + i] == b[i];
      }
    }
  }

  /** c is c0 after counting the symbols of `done`. */
  ghost predicate Tallied(c0: Statistics, c: Statistics, done: seq<Op>) {
    CountsOk(c0) && c == Tally(c0, done) && InRange(done)
  }

  function NoCounts(): (z: seq<nat>) {
    seq(COUNT_ENTRIES, _ => 0)
  }

  lemma TalliedStart(c0: Statistics)
    requires CountsOk(c0)
    ensures Tallied(c0, c0, [])
  {}

  /** Counting one symbol. */
  lemma TalliedSym(c0: Statistics, c: Statistics, done: seq<Op>, t: TableId, s: byte)
    requires Tallied(c0, c, done) && t in c0
    ensures t in c && s < |c[t]|
    ensures Tallied(c0, c[t := c[t][s := c[t][s] + 1]], done + [Sym(t, s)])
  {
    TallyOk(c0, done);
    assert (done + [Sym(t, s)])[..|done + [Sym(t, s)]| - 1] == done;
  }

  /** Raw bits are not counted. */
  lemma {:induction false} TalliedRaw(c0: Statistics, c: Statistics, done: seq<Op>, raw: seq<Op>)
    requires Tallied(c0, c, done) && forall i :: 0 <= i < |raw| ==> raw[i].Raw?
    ensures Tallied(c0, c, done + raw)
  {
    if raw == [] {
      assert done + raw == done;
    } else {
      TalliedRaw(c0, c, done, raw[..|raw| - 1]);
      assert (done + raw)[..|done + raw| - 1] == done + raw[..|raw| - 1];
    }
  }
}
