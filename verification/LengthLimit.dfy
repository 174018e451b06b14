/** Counting code lengths, and shortening them to at most 16 bits (section K.2 of T.81). */
module LengthLimit {
  import opened Bits
  import opened Arithmetic
  import opened ByteStuffing
  import opened CodeLengths

  const MAX_CLEN := 32
  const LEVELS := 33

  /** Code space used by the lengths 1..m, in units of 2^-scale. */
  function LevelUnits(bits: seq<byte>, scale: nat, m: nat): nat
    requires m < |bits| && m <= scale
  {
    if m == 0 then 0 else LevelUnits(bits, scale, m - 1) + LevelTerm(bits[m], scale - m)
  }

  function LevelTerm(count: byte, shift: nat): nat {
    count * Pow2(shift)
  }

  /** Number of codes of length 1..m. */
  function LevelTotal(bits: seq<byte>, m: nat): nat
    requires m < |bits|
  {
    if m == 0 then 0 else LevelTotal(bits, m - 1) + bits[m]
  }

  lemma {:induction false} LevelsDiffer(b: seq<byte>, b': seq<byte>, k: nat, scale: nat, m: nat)
    requires |b| == |b'| && m < |b| && m <= scale && 1 <= k <= scale && k < |b|
    requires forall i :: 0 <= i < |b| && i != k ==> b[i] == b'[i]
    ensures LevelUnits(b', scale, m) + (if k <= m then LevelTerm(b[k], scale - k) else 0)
         == LevelUnits(b, scale, m) + (if k <= m then LevelTerm(b'[k], scale - k) else 0)
    ensures LevelTotal(b', m) + (if k <= m then b[k] else 0) == LevelTotal(b, m) + (if k <= m then b'[k] else 0)
  {
    if m > 0 {
      LevelsDiffer(b, b', k, scale, m - 1);
    }
  }

  lemma {:induction false} FinerScale(b: seq<byte>, scale: nat, m: nat)
    requires m < |b| && m <= scale
    ensures LevelUnits(b, scale + 1, m) == 2 * LevelUnits(b, scale, m)
  {
    if m > 0 {
      FinerScale(b, scale, m - 1);
      Assoc(b[m], 2, Pow2(scale - m));
      assert LevelTerm(b[m], scale + 1 - m) == 2 * LevelTerm(b[m], scale - m);
    }
  }

  /** The Kraft sum up to level m in its own units, from the one of the level below. */
  lemma NextLevel(b: seq<byte>, m: nat)
    requires 0 < m < |b|
    ensures LevelUnits(b, m, m) == 2 * LevelUnits(b, m - 1, m - 1) + b[m]
  {
    FinerScale(b, m - 1, m - 1);
    assert LevelTerm(b[m], 0) == b[m];
  }

  lemma {:induction false} LevelAtMostTotal(b: seq<byte>, k: nat, m: nat)
    requires 1 <= k <= m < |b|
    ensures b[k] <= LevelTotal(b, m)
  {
    if k < m {
      LevelAtMostTotal(b, k, m - 1);
    }
  }

  lemma {:induction false} TwoLevels(b: seq<byte>, j: nat, k: nat, m: nat)
    requires 1 <= j < k <= m < |b|
    ensures b[j] + b[k] <= LevelTotal(b, m)
  {
    if k < m {
      TwoLevels(b, j, k, m - 1);
    } else {
      LevelAtMostTotal(b, j, m - 1);
    }
  }

  lemma {:induction false} NoCodes(b: seq<byte>, scale: nat, m: nat)
    requires m < |b| && m <= scale && forall k :: 1 <= k <= m ==> b[k] == 0
    ensures LevelUnits(b, scale, m) == 0 && LevelTotal(b, m) == 0
  {
    if m > 0 {
      NoCodes(b, scale, m - 1);
      assert LevelTerm(b[m], scale - m) == 0;
    }
  }

  // ----- counting the lengths -----

  function CountLength(cs: seq<nat>, k: nat, n: nat): (c: nat)
    requires n <= |cs|
  {
    if n == 0 then 0 else CountLength(cs, k, n - 1) + (if cs[n - 1] == k then 1 else 0)
  }

  function CountCoded(cs: seq<nat>, n: nat): (c: nat)
    requires n <= |cs|
    ensures c <= n
  {
    if n == 0 then 0 else CountCoded(cs, n - 1) + (if cs[n - 1] > 0 then 1 else 0)
  }

  /** bits[k] is the number of symbols with code size k among the first n. */
  ghost predicate Counted(cs: seq<nat>, bits: seq<byte>, n: nat)
    requires n <= |cs|
  {
    && |bits| == LEVELS && bits[0] == 0
    && (forall k :: 1 <= k <= MAX_CLEN ==> bits[k] == CountLength(cs, k, n))
    && (forall i :: 0 <= i < n ==> cs[i] <= MAX_CLEN)
  }

  lemma {:induction false} CountWithin(cs: seq<nat>, k: nat, n: nat, m: nat)
    requires k > 0 && n <= m <= |cs|
    ensures CountLength(cs, k, n) <= CountCoded(cs, n) <= CountCoded(cs, m)
    decreases m
  {
    if n < m {
      CountWithin(cs, k, n, m - 1);
    } else if n > 0 {
      CountWithin(cs, k, n - 1, n - 1);
    }
  }

  /** UINT8 bits[] counters; lengths over MAX_CLEN are a fatal error. */
  method CountLengths(codesize: array<nat>, bits: array<byte>) returns (ok: bool)
    requires bits.Length == LEVELS && forall k :: 0 <= k < LEVELS ==> bits[k] == 0
    requires CountCoded(codesize[..], codesize.Length) <= 255
    modifies bits
    ensures ok <==> forall i :: 0 <= i < codesize.Length ==> codesize[i] <= 32
    ensures ok ==> Counted(codesize[..], bits[..], codesize.Length)
  {
    ghost var cs := codesize[..];
    for i := 0 to codesize.Length
      invariant Counted(cs, bits[..], i)
      invariant codesize[..] == cs
    {
      if codesize[i] != 0 {
        if codesize[i] > MAX_CLEN {
          return false;
        }
        CountWithin(cs, cs[i], i + 1, |cs|);
        bits[codesize[i]] := (bits[codesize[i]] + 1) % 0x100;
      }
      assert cs[i] == codesize[i];
    }
    ok := true;
  }

  /** Counting by length and summing by symbol agree. */
  lemma {:induction false} CountedUnits(w: seq<nat>, cs: seq<nat>, bits: seq<byte>, n: nat)
    requires n <= |w| == |cs| && Counted(cs, bits, n)
    requires forall i :: 0 <= i < |w| ==> (w[i] > 0 <==> cs[i] > 0)
    requires CountCoded(cs, n) <= 255
    ensures LevelUnits(bits, MAX_CLEN, MAX_CLEN) == Units(w, cs, MAX_CLEN, n)
    ensures LevelTotal(bits, MAX_CLEN) == CountCoded(cs, n)
    decreases n
  {
    if n == 0 {
      NoCodes(bits, MAX_CLEN, MAX_CLEN);
    } else if cs[n - 1] == 0 {
      CountedUnits(w, cs, bits, n - 1);
    } else {
      var k := cs[n - 1];
      CountWithin(cs, k, n - 1, n - 1);
      var fewer := bits[k := bits[k] - 1];
      assert Counted(cs, fewer, n - 1);
      CountedUnits(w, cs, fewer, n - 1);
      LevelsDiffer(fewer, bits, k, MAX_CLEN, MAX_CLEN);
      Distribute(bits[k] - 1, 1, Pow2(MAX_CLEN - k));
    }
  }

  // ----- length limiting -----

  /** Kraft sum exactly one with no code longer than i, and n codes in all. */
  ghost predicate FullTo(bits: seq<byte>, i: nat, n: nat) {
    && |bits| == LEVELS && bits[0] == 0 && 1 <= i <= MAX_CLEN
    && (forall k :: i < k < LEVELS ==> bits[k] == 0)
    && LevelUnits(bits, i, i) == Pow2(i)
    && LevelTotal(bits, i) == n
  }

  lemma {:induction false} UsedLevel(b: seq<byte>, scale: nat, m: nat) returns (k: nat)
    requires m < |b| && m <= scale
    requires LevelUnits(b, scale, m) > 0 || LevelTotal(b, m) > 0
    ensures 1 <= k <= m && b[k] > 0
  {
    if b[m] > 0 && m > 0 {
      k := m;
    } else {
      assert m > 0 ==> LevelTerm(b[m], scale - m) == 0;
      k := UsedLevel(b, scale, m - 1);
    }
  }

  /** At most 255 symbols cannot fill the two deepest levels alone when those lie beyond 16. */
  lemma ShorterCodeExists(bits: seq<byte>, i: nat, n: nat) returns (k: nat)
    requires FullTo(bits, i, n) && 16 < i && n <= 255
    ensures 1 <= k <= i - 2 && bits[k] > 0
  {
    NextLevel(bits, i);
    NextLevel(bits, i - 1);
    TwoLevels(bits, i - 1, i, i);
    Pow2Monotone(16, i);
    assert Pow2(16) == 0x10000 by { Pow2Add(8, 8); assert Pow2(8) == 0x100; }
    k := UsedLevel(bits, i - 2, i - 2);
  }

  lemma DeepestPaired(bits: seq<byte>, i: nat, n: nat)
    requires FullTo(bits, i, n)
    ensures bits[i] % 2 == 0
    ensures bits[i] == 0 && i > 1 ==> FullTo(bits, i - 1, n)
  {
    NextLevel(bits, i);
  }

  function Moved(bits: seq<byte>, i: nat, j: nat): (r: seq<byte>)
    requires |bits| == LEVELS && 1 <= j && j + 2 <= i <= MAX_CLEN
    requires bits[i] >= 2 && bits[j] >= 1
    requires bits[i - 1] <= 252 && bits[j + 1] <= 252
  {
    var b1 := bits[i := bits[i] - 2];
    var b2 := b1[i - 1 := b1[i - 1] + 1];
    var b3 := b2[j + 1 := b2[j + 1] + 2];
    b3[j := b3[j] - 1]
  }

  /** There is room in the byte counters for the codes that move. */
  lemma RoomToMove(bits: seq<byte>, i: nat, j: nat, n: nat)
    requires FullTo(bits, i, n) && n <= 255
    requires 1 <= j && j + 2 <= i && bits[i] >= 2 && bits[j] >= 1
    ensures bits[i - 1] <= 252 && bits[j + 1] <= 252
  {
    ThreeLevels(bits, j, j + 1, i, i);
    ThreeLevels(bits, j, i - 1, i, i);
  }

  lemma {:induction false} ThreeLevels(b: seq<byte>, j: nat, k: nat, l: nat, m: nat)
    requires 1 <= j < k < l <= m < |b|
    ensures b[j] + b[k] + b[l] <= LevelTotal(b, m)
  {
    if l < m {
      ThreeLevels(b, j, k, l, m - 1);
    } else {
      TwoLevels(b, j, k, m - 1);
    }
  }

  /** One step: two codes of length i become one of i - 1, one of length j becomes two of j + 1. */
  lemma MoveKeeps(bits: seq<byte>, i: nat, j: nat, n: nat)
    requires FullTo(bits, i, n) && n <= 255
    requires 1 <= j && j + 2 <= i && bits[i] >= 2 && bits[j] >= 1
    requires bits[i - 1] <= 252 && bits[j + 1] <= 252
    ensures FullTo(Moved(bits, i, j), i, n)
    ensures Moved(bits, i, j)[i] == bits[i] - 2
  {
    hide Pow2, LevelUnits, LevelTotal;
    var b1 := bits[i := bits[i] - 2];
    var b2 := b1[i - 1 := b1[i - 1] + 1];
    var b3 := b2[j + 1 := b2[j + 1] + 2];
    var b4 := b3[j := b3[j] - 1];
    LevelsDiffer(bits, b1, i, i, i);
    LevelsDiffer(b1, b2, i - 1, i, i);
    LevelsDiffer(b2, b3, j + 1, i, i);
    LevelsDiffer(b3, b4, j, i, i);
    TermAdds(bits[i] - 2, 2, 0);
    TermAdds(b1[i - 1], 1, 1);
    TermAdds(b2[j + 1], 2, i - j - 1);
    TermAdds(b3[j] - 1, 1, i - j);
    Balance(i - j - 1);
  }

  lemma TermAdds(count: byte, more: byte, shift: nat)
    requires count + more < 256
    ensures LevelTerm(count + more, shift) == LevelTerm(count, shift) + LevelTerm(more, shift)
  {
    Distribute(count, more, Pow2(shift));
  }

  lemma Balance(s: nat)
    ensures LevelTerm(2, 0) == LevelTerm(1, 1) && LevelTerm(2, s) == LevelTerm(1, s + 1)
  {}

  /** One step from a to b: two of the longest codes, of i > 16 bits, make one of i - 1, and one of the longest
      codes that are shorter by two or more, of j bits, makes two of j + 1. */
  ghost predicate Splits(a: seq<byte>, b: seq<byte>, i: nat, j: nat) {
    && |a| == |b| == LEVELS && 16 < i < LEVELS && 1 <= j <= i - 2 && a[i] > 0 && a[j] > 0
    && (forall k :: i < k < LEVELS ==> a[k] == 0) && (forall k :: j < k <= i - 2 ==> a[k] == 0)
    && forall k :: 0 <= k < LEVELS ==> b[k] as int - a[k] as int == Change(k, i, j)
  }

  function Change(k: int, i: int, j: int): int {
    (if k == i - 1 then 1 else 0) + (if k == j + 1 then 2 else 0) - (if k == i then 2 else 0) - (if k == j then 1 else 0)
  }

  ghost predicate Step(a: seq<byte>, b: seq<byte>) {
    exists i, j :: Splits(a, b, i, j)
  }

  /** The counters on the way from a to b. */
  ghost predicate Steps(a: seq<byte>, trace: seq<seq<byte>>, b: seq<byte>) {
    && |trace| > 0 && trace[0] == a && trace[|trace| - 1] == b
    && forall m, n :: 0 <= m && n == m + 1 && n < |trace| ==> Step(trace[m], trace[n])
  }

  lemma OneMoreStep(a: seq<byte>, trace: seq<seq<byte>>, b: seq<byte>, c: seq<byte>, i: nat, j: nat)
    requires Steps(a, trace, b) && Splits(b, c, i, j)
    ensures Steps(a, trace + [c], c)
  {
    hide Splits;
    assert Step(b, c);
    var t := trace + [c];
    assert forall n :: 0 <= n < |trace| ==> t[n] == trace[n];
  }

  /** Codes of at most 16 bits are left alone. */
  lemma ShortStay(a: seq<byte>, trace: seq<seq<byte>>, b: seq<byte>)
    requires Steps(a, trace, b) && |a| == LEVELS && forall k :: 16 < k < LEVELS ==> a[k] == 0
    ensures a == b
  {
    assert |trace| > 1 ==> Step(trace[0], trace[1]);
  }

  /** Shorten all codes to at most 16 bits, keeping the Kraft sum at one and the count at n. */
  method LimitLengths(bits: array<byte>, ghost n: nat) returns (ghost trace: seq<seq<byte>>)
    requires FullTo(bits[..], MAX_CLEN, n) && n <= 255
    modifies bits
    ensures FullTo(bits[..], 16, n) && Steps(old(bits[..]), trace, bits[..])
  {
    hide LevelUnits, LevelTotal, Pow2, Steps, Moved;
    trace := [bits[..]];
    Standing(bits[..]);
    var i := MAX_CLEN;
    while i > 16
      invariant 16 <= i <= MAX_CLEN
      invariant FullTo(bits[..], i, n) && Steps(old(bits[..]), trace, bits[..])
    {
      while bits[i] > 0
        invariant FullTo(bits[..], i, n) && Steps(old(bits[..]), trace, bits[..])
        decreases bits[i]
      {
        DeepestPaired(bits[..], i, n);
        ghost var used := ShorterCodeExists(bits[..], i, n);
        var j := i - 2;
        while bits[j] == 0
          invariant 1 <= used <= j <= i - 2 && bits[used] > 0
          invariant forall k :: j < k <= i - 2 ==> bits[k] == 0
          decreases j
        {
          j := j - 1;
        }
        RoomToMove(bits[..], i, j, n);
        MoveKeeps(bits[..], i, j, n);
        MovedSplits(bits[..], i, j);
        OneMoreStep(old(bits[..]), trace, bits[..], Moved(bits[..], i, j), i, j);
        MovePair(bits, i, j);
        trace := trace + [bits[..]];
      }
      DeepestPaired(bits[..], i, n);
      i := i - 1;
    }
  }

  lemma Standing(a: seq<byte>)
    ensures Steps(a, [a], a)
  {}

  lemma MovedSplits(a: seq<byte>, i: nat, j: nat)
    requires |a| == LEVELS && 16 < i < LEVELS && 1 <= j && j + 2 <= i && a[i] >= 2 && a[j] >= 1 && a[i - 1] <= 252 && a[j + 1] <= 252
    requires (forall k :: i < k < LEVELS ==> a[k] == 0) && (forall k :: j < k <= i - 2 ==> a[k] == 0)
    ensures Splits(a, Moved(a, i, j), i, j)
  {}

  /** The four counter updates of one step. */
  method MovePair(bits: array<byte>, i: nat, j: nat)
    requires bits.Length == LEVELS && 1 <= j && j + 2 <= i <= MAX_CLEN
    requires bits[i] >= 2 && bits[j] >= 1
    requires bits[i - 1] <= 252 && bits[j + 1] <= 252
    modifies bits
    ensures bits[..] == Moved(old(bits[..]), i, j)
  {
    bits[i] := (bits[i] - 2) % 0x100;
    bits[i - 1] := (bits[i - 1] + 1) % 0x100;
    bits[j + 1] := (bits[j + 1] + 2) % 0x100;
    bits[j] := (bits[j] - 1) % 0x100;
  }

  /** b is a with one code of the longest length taken away. */
  ghost predicate LongestDropped(a: seq<byte>, b: seq<byte>) {
    exists top :: 1 <= top < |a| && a[top] > 0 && (forall k :: top < k < |a| ==> a[k] == 0) && b == a[top := a[top] - 1]
  }

  /** Take the pseudo-symbol's count out of the longest length in use. */
  method RemovePseudoSymbol(bits: array<byte>, ghost n: nat)
    requires FullTo(bits[..], 16, n) && 0 < n <= 255
    modifies bits
    ensures bits[0] == 0 && LevelUnits(bits[..], 16, 16) < Pow2(16) && LevelTotal(bits[..], 16) == n - 1
    ensures LongestDropped(old(bits[..]), bits[..])
  {
    hide LevelUnits, LevelTotal, Pow2;
    ghost var used := UsedLevel(bits[..], 16, 16);
    var i := 16;
    while bits[i] == 0
      invariant 1 <= used <= i <= 16 && bits[used] > 0
      invariant forall k :: i < k < LEVELS ==> bits[k] == 0
      decreases i
    {
      i := i - 1;
    }
    ghost var before := bits[..];
    bits[i] := (bits[i] - 1) % 0x100;
    assert bits[..] == before[i := before[i] - 1];
    LevelsDiffer(before, bits[..], i, 16, 16);
    OneFewer(before[i], 16 - i);
  }

  lemma OneFewer(count: byte, shift: nat)
    requires count > 0
    ensures LevelTerm(count - 1, shift) < LevelTerm(count, shift)
  {
    Distribute(count - 1, 1, Pow2(shift));
  }
}
