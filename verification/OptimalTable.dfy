/** jpeg_gen_optimal_table: from symbol counts to a table definition that
    jpeg_make_c_derived_tbl accepts. */
module OptimalTable {
  import opened Bits
  import opened Arithmetic
  import opened ByteStuffing
  import opened CodeLengths
  import opened HuffmanForest
  import opened HuffmanMerge
  import opened ReservedSymbol
  import opened LengthLimit
  import opened HuffmanTable

  const MAX_REAL_SYMBOLS := 254   // so that the UINT8 counters cannot wrap

  datatype GenResult = Generated(tbl: Table) | ClenOverflow

  // ----- listing the symbols in order of code size -----

  /** The real symbols below j with code size i, in increasing order. */
  function SymbolsAt(cs: seq<nat>, i: nat, j: nat): (s: seq<byte>)
    requires j <= 256 <= |cs|
    ensures |s| == CountLength(cs, i, j)
  {
    if j == 0 then [] else SymbolsAt(cs, i, j - 1) + (if cs[j - 1] == i then [j - 1] else [])
  }

  function CountBelow(cs: seq<nat>, i: nat, j: nat): (c: nat)
    requires j <= 256 <= |cs|
    ensures c <= j
  {
    if j == 0 then 0 else CountBelow(cs, i, j - 1) + (if 1 <= cs[j - 1] <= i then 1 else 0)
  }

  lemma {:induction false} CountBelowStep(cs: seq<nat>, i: nat, j: nat)
    requires j <= 256 <= |cs| && i > 0
    ensures CountBelow(cs, i, j) == CountBelow(cs, i - 1, j) + CountLength(cs, i, j)
  {
    if j > 0 {
      CountBelowStep(cs, i, j - 1);
    }
  }

  /** All real symbols with code sizes 1..i, shortest first. */
  function SymbolsUpTo(cs: seq<nat>, i: nat): (s: seq<byte>)
    requires 256 <= |cs|
    ensures |s| == CountBelow(cs, i, 256)
  {
    if i == 0 then NoneBelow(cs, 256); []
    else CountBelowStep(cs, i, 256); SymbolsUpTo(cs, i - 1) + SymbolsAt(cs, i, 256)
  }

  lemma {:induction false} NoneBelow(cs: seq<nat>, j: nat)
    requires j <= 256 <= |cs|
    ensures CountBelow(cs, 0, j) == 0
  {
    if j > 0 {
      NoneBelow(cs, j - 1);
    }
  }

  lemma {:induction false} SymbolsAtHas(cs: seq<nat>, i: nat, j: nat)
    requires j <= 256 <= |cs|
    ensures forall s: byte :: s in SymbolsAt(cs, i, j) <==> s < j && cs[s] == i
    ensures forall p, q :: 0 <= p < q < |SymbolsAt(cs, i, j)| ==> SymbolsAt(cs, i, j)[p] != SymbolsAt(cs, i, j)[q]
  {
    if j > 0 {
      SymbolsAtHas(cs, i, j - 1);
      if cs[j - 1] == i {
        AppendFresh(SymbolsAt(cs, i, j - 1), [j - 1]);
      }
    }
  }

  /** Distinctness of a concatenation of disjoint distinct lists. */
  lemma AppendFresh(a: seq<byte>, b: seq<byte>)
    requires forall p, q :: 0 <= p < q < |a| ==> a[p] != a[q]
    requires forall p, q :: 0 <= p < q < |b| ==> b[p] != b[q]
    requires forall s :: s in a ==> s !in b
    ensures forall p, q :: 0 <= p < q < |a + b| ==> (a + b)[p] != (a + b)[q]
    ensures forall s :: s in a + b <==> s in a || s in b
  {
    forall p, q | 0 <= p < q < |a + b|
      ensures (a + b)[p] != (a + b)[q]
    {
      if p < |a| <= q {
        assert a[p] in a && b[q - |a|] in b;
      }
    }
  }

  lemma {:induction false} SymbolsUpToHas(cs: seq<nat>, i: nat)
    requires 256 <= |cs|
    ensures forall s: byte :: s in SymbolsUpTo(cs, i) <==> 1 <= cs[s] <= i
    ensures forall p, q :: 0 <= p < q < |SymbolsUpTo(cs, i)| ==> SymbolsUpTo(cs, i)[p] != SymbolsUpTo(cs, i)[q]
  {
    if i > 0 {
      SymbolsUpToHas(cs, i - 1);
      SymbolsAtHas(cs, i, 256);
      AppendFresh(SymbolsUpTo(cs, i - 1), SymbolsAt(cs, i, 256));
    }
  }

  /** huffval[]: the symbols sorted by (unlimited) code size. */
  method ListSymbols(codesize: array<nat>, huffval: array<byte>)
    requires codesize.Length == ALPHABET && huffval.Length == 256
    modifies huffval
    ensures SymbolsUpTo(codesize[..], MAX_CLEN) <= huffval[..]
  {
    hide SymbolsUpTo, SymbolsAt, CountBelow, CountLength;
    ghost var cs := codesize[..];
    var p := 0;
    ListStart(cs);
    for i := 1 to MAX_CLEN + 1
      invariant p == |SymbolsUpTo(cs, i - 1)| <= 256
      invariant huffval[..p] == SymbolsUpTo(cs, i - 1)
      invariant codesize[..] == cs
    {
      ListNoneYet(cs, i);
      for j := 0 to 256
        invariant p == |SymbolsUpTo(cs, i - 1) + SymbolsAt(cs, i, j)| <= 256
        invariant huffval[..p] == SymbolsUpTo(cs, i - 1) + SymbolsAt(cs, i, j)
        invariant codesize[..] == cs
      {
        ListNext(cs, i, j);
        assert codesize[j] == cs[j];
        if codesize[j] == i {
          ghost var before := huffval[..p];
          huffval[p] := j;
          assert huffval[..p + 1] == before + [j];
          p := p + 1;
        }
      }
      ListLevelDone(cs, i);
    }
    assert huffval[..p] <= huffval[..];
  }

  lemma ListStart(cs: seq<nat>)
    requires |cs| == ALPHABET
    ensures SymbolsUpTo(cs, 0) == []
  {}

  lemma ListNoneYet(cs: seq<nat>, i: nat)
    requires |cs| == ALPHABET
    ensures SymbolsAt(cs, i, 0) == []
  {}

  lemma ListNext(cs: seq<nat>, i: nat, j: nat)
    requires |cs| == ALPHABET && i > 0 && j < 256
    ensures var r, s := SymbolsUpTo(cs, i - 1), SymbolsAt(cs, i, j);
            && SymbolsAt(cs, i, j + 1) == s + (if cs[j] == i then [j] else [])
            && r + SymbolsAt(cs, i, j + 1) == (r + s) + (if cs[j] == i then [j] else [])
            && |r + SymbolsAt(cs, i, j + 1)| <= 256
  {
    CountBelowStep(cs, i, 256);
    CountLengthGrows(cs, i, j + 1, 256);
  }

  lemma {:induction false} CountLengthGrows(cs: seq<nat>, i: nat, j: nat, n: nat)
    requires j <= n <= |cs|
    ensures CountLength(cs, i, j) <= CountLength(cs, i, n)
    decreases n
  {
    if j < n {
      CountLengthGrows(cs, i, j, n - 1);
    }
  }

  lemma ListLevelDone(cs: seq<nat>, i: nat)
    requires |cs| == ALPHABET && i > 0
    ensures SymbolsUpTo(cs, i) == SymbolsUpTo(cs, i - 1) + SymbolsAt(cs, i, 256)
  {}

  // ----- the finished table is legal -----

  lemma {:induction false} CodesFillLevels(bits: Counts, l: nat)
    requires 1 <= l <= 16 && bits[0] == 0
    ensures FirstCode(bits, l) + bits[l] == LevelUnits(bits, l, l)
    ensures Offset(bits, l + 1) == LevelTotal(bits, l)
  {
    NextLevel(bits, l);
    if l > 1 {
      CodesFillLevels(bits, l - 1);
    } else {
      assert LevelUnits(bits, 0, 0) == 0;
      assert Offset(bits, 2) == Offset(bits, 1) + bits[1];
    }
  }

  lemma {:induction false} SlackAtEveryLevel(bits: Counts, l: nat, m: nat)
    requires l <= m <= 16 && LevelUnits(bits, m, m) < Pow2(m)
    ensures LevelUnits(bits, l, l) < Pow2(l)
    decreases m
  {
    if l < m {
      NextLevel(bits, m);
      SlackAtEveryLevel(bits, l, m - 1);
    }
  }

  /** Kraft slack at level 16 makes the counts legal: no code is all ones. */
  lemma SlackIsLegal(bits: Counts)
    requires bits[0] == 0 && LevelUnits(bits, 16, 16) < Pow2(16) && LevelTotal(bits, 16) <= 256
    ensures LegalCounts(bits) && Offset(bits, 17) == LevelTotal(bits, 16)
  {
    CodesFillLevels(bits, 16);
    forall l | 1 <= l <= 16
      ensures FirstCode(bits, l) + bits[l] < Pow2(l)
    {
      CodesFillLevels(bits, l);
      SlackAtEveryLevel(bits, l, 16);
    }
  }

  lemma {:induction false} SameLevels(a: seq<byte>, b: seq<byte>, scale: nat, m: nat)
    requires m < |a| && m < |b| && m <= scale && forall k :: 0 <= k <= m ==> a[k] == b[k]
    ensures LevelUnits(a, scale, m) == LevelUnits(b, scale, m) && LevelTotal(a, m) == LevelTotal(b, m)
  {
    if m > 0 {
      SameLevels(a, b, scale, m - 1);
    }
  }

  /** What the result means: exactly the counted symbols are listed, once each, with legal codes. */
  ghost predicate TableFor(freq: seq<nat>, t: Table) {
    && |freq| >= 256 && LegalCounts(t.bits)
    && (forall s: byte :: s in t.huffval[..Offset(t.bits, 17)] <==> freq[s] > 0)
    && (forall p, q :: 0 <= p < q < Offset(t.bits, 17) ==> t.huffval[p] != t.huffval[q])
  }

  /** Such a table passes the checks of jpeg_make_c_derived_tbl for any class it may be used in. */
  lemma TableAccepted(freq: seq<nat>, t: Table, isDC: bool)
    requires TableFor(freq, t)
    requires forall s: byte :: freq[s] > 0 ==> s <= MaxSymbol(isDC)
    ensures Legal(t, isDC)
  {
    forall p | 0 <= p < Offset(t.bits, 17)
      ensures t.huffval[p] <= MaxSymbol(isDC)
    {
      var s: byte := t.huffval[p];
      assert s == t.huffval[..Offset(t.bits, 17)][p];
      assert freq[s] > 0;
    }
  }

  /** Every live symbol is coded and no other: for sizes from a full tree with two or more leaves. */
  lemma CodedIffLive(w0: seq<nat>, cs: seq<nat>, t: Tree)
    requires Optimal(w0, cs, t) && w0[256] > 0 && exists s: byte :: w0[s] > 0
    ensures forall i :: 0 <= i < ALPHABET ==> (w0[i] > 0 <==> cs[i] > 0)
  {
    var s: byte :| w0[s] > 0;
    assert s in Leaves(t) && 256 in Leaves(t);
    assert t.Node?;
    forall i | 0 <= i < ALPHABET && w0[i] > 0
      ensures cs[i] > 0
    {
      DeepLeaves(t, cs, 0, i);
    }
  }

  lemma {:induction false} CodedCount(w0: seq<nat>, cs: seq<nat>, n: nat)
    requires n <= |w0| == |cs| && forall i :: 0 <= i < n ==> (w0[i] > 0 <==> cs[i] > 0)
    ensures CountCoded(cs, n) == LiveCount(w0, n)
  {
    if n > 0 {
      CodedCount(w0, cs, n - 1);
    }
  }

  lemma {:induction false} CountBelowAll(cs: seq<nat>, j: nat)
    requires j <= 256 <= |cs| && forall i :: 0 <= i < j ==> cs[i] <= MAX_CLEN
    ensures CountBelow(cs, MAX_CLEN, j) == CountCoded(cs, j)
  {
    if j > 0 {
      CountBelowAll(cs, j - 1);
    }
  }

  /** After counting: the lengths of the full tree make a full level table. */
  lemma CountedIsFull(w0: seq<nat>, cs: seq<nat>, t: Tree, bits: seq<byte>)
    requires Optimal(w0, cs, t) && Counted(cs, bits, ALPHABET)
    requires forall i :: 0 <= i < ALPHABET ==> (w0[i] > 0 <==> cs[i] > 0)
    requires CountCoded(cs, ALPHABET) <= 255
    ensures FullTo(bits, MAX_CLEN, CountCoded(cs, ALPHABET))
  {
    hide Units, LevelUnits, LevelTotal, Pow2, CountCoded, CountLength;
    CountedUnits(w0, cs, bits, ALPHABET);
    assert forall i :: 0 <= i < ALPHABET && w0[i] > 0 ==> cs[i] <= MAX_CLEN;
    assert Units(w0, cs, MAX_CLEN, ALPHABET) == Pow2(MAX_CLEN);
  }

  lemma AssembledTable(w0: seq<nat>, cs: seq<nat>, bits: seq<byte>, huffval: seq<byte>)
    requires |w0| == |cs| == ALPHABET && |bits| == LEVELS && |huffval| == 256
    requires forall i :: 0 <= i < ALPHABET ==> cs[i] <= MAX_CLEN && (w0[i] > 0 <==> cs[i] > 0)
    requires w0[256] > 0
    requires bits[0] == 0 && LevelUnits(bits, 16, 16) < Pow2(16)
    requires LevelTotal(bits, 16) == CountCoded(cs, ALPHABET) - 1 <= 254
    requires SymbolsUpTo(cs, MAX_CLEN) <= huffval
    ensures TableFor(w0, RawTable(bits[..17], huffval))
  {
    hide LevelUnits, LevelTotal, SymbolsUpTo, Pow2;
    var b: Counts := bits[..17];
    SameLevels(bits, b, 16, 16);
    SlackIsLegal(b);
    CountBelowAll(cs, 256);
    SymbolsUpToHas(cs, MAX_CLEN);
    var n := Offset(b, 17);
    OneMoreCoded(cs);
    assert n == |SymbolsUpTo(cs, MAX_CLEN)|;
    assert huffval[..n] == SymbolsUpTo(cs, MAX_CLEN);
    ListedTable(w0, cs, RawTable(b, huffval), n);
  }

  lemma OneMoreCoded(cs: seq<nat>)
    requires |cs| == ALPHABET && cs[256] > 0
    ensures CountCoded(cs, ALPHABET) == CountCoded(cs, 256) + 1
  {}

  lemma ListedTable(w0: seq<nat>, cs: seq<nat>, t: Table, n: nat)
    requires |w0| == |cs| == ALPHABET && LegalCounts(t.bits) && n == Offset(t.bits, 17)
    requires forall i :: 0 <= i < ALPHABET ==> cs[i] <= MAX_CLEN && (w0[i] > 0 <==> cs[i] > 0)
    requires forall s: byte :: s in t.huffval[..n] <==> 1 <= cs[s] <= MAX_CLEN
    requires forall p, q :: 0 <= p < q < n ==> t.huffval[..n][p] != t.huffval[..n][q]
    ensures TableFor(w0, t)
  {
    forall p, q | 0 <= p < q < n
      ensures t.huffval[p] != t.huffval[q]
    {
      assert t.huffval[..n][p] != t.huffval[..n][q];
    }
  }

  // ----- the final lengths -----

  /** The symbols are listed by increasing code size, and by number where sizes agree. */
  ghost predicate Sorted(cs: seq<nat>, s: seq<byte>) {
    |cs| >= 256 && forall p, q :: 0 <= p < q < |s| ==> cs[s[p]] < cs[s[q]] || (cs[s[p]] == cs[s[q]] && s[p] < s[q])
  }

  lemma {:induction false} SymbolsAtSorted(cs: seq<nat>, i: nat, j: nat)
    requires j <= 256 <= |cs|
    ensures Sorted(cs, SymbolsAt(cs, i, j)) && forall p :: 0 <= p < |SymbolsAt(cs, i, j)| ==> cs[SymbolsAt(cs, i, j)[p]] == i && SymbolsAt(cs, i, j)[p] < j
  {
    if j > 0 {
      SymbolsAtSorted(cs, i, j - 1);
    }
  }

  lemma {:induction false} SymbolsUpToSorted(cs: seq<nat>, i: nat)
    requires 256 <= |cs|
    ensures Sorted(cs, SymbolsUpTo(cs, i)) && forall p :: 0 <= p < |SymbolsUpTo(cs, i)| ==> cs[SymbolsUpTo(cs, i)[p]] <= i
  {
    if i > 0 {
      SymbolsUpToSorted(cs, i - 1);
      SymbolsAtSorted(cs, i, 256);
      SortedJoin(cs, SymbolsUpTo(cs, i - 1), SymbolsAt(cs, i, 256), i);
    }
  }

  lemma SortedJoin(cs: seq<nat>, a: seq<byte>, b: seq<byte>, i: nat)
    requires Sorted(cs, a) && Sorted(cs, b)
    requires (forall p :: 0 <= p < |a| ==> cs[a[p]] < i) && forall p :: 0 <= p < |b| ==> cs[b[p]] == i
    ensures Sorted(cs, a + b) && forall p :: 0 <= p < |a + b| ==> cs[(a + b)[p]] <= i
  {}

  /** Symbols beyond those of size m or less have larger sizes. */
  lemma {:induction false} BeyondIsLonger(cs: seq<nat>, m: nat, i: nat, p: nat)
    requires 256 <= |cs| && m <= i && |SymbolsUpTo(cs, m)| <= p < |SymbolsUpTo(cs, i)|
    ensures cs[SymbolsUpTo(cs, i)[p]] > m
    decreases i
  {
    if p < |SymbolsUpTo(cs, i - 1)| {
      BeyondIsLonger(cs, m, i - 1, p);
    } else {
      SymbolsAtSorted(cs, i, 256);
    }
  }

  /** Codes of at most m bits: those of real symbols, and the pseudo-symbol's. */
  lemma {:induction false} TotalIsCount(cs: seq<nat>, bits: seq<byte>, m: nat)
    requires |cs| == ALPHABET && Counted(cs, bits, ALPHABET) && m <= MAX_CLEN
    ensures LevelTotal(bits, m) == CountBelow(cs, m, 256) + (if 1 <= cs[256] <= m then 1 else 0)
  {
    if m == 0 {
      NoneBelow(cs, 256);
    } else {
      TotalIsCount(cs, bits, m - 1);
      CountBelowStep(cs, m, 256);
      assert CountLength(cs, m, ALPHABET) == CountLength(cs, m, 256) + (if cs[256] == m then 1 else 0);
    }
  }

  lemma {:induction false} TotalDropped(a: seq<byte>, top: nat, m: nat)
    requires m < |a| && 1 <= top < |a| && a[top] > 0
    ensures LevelTotal(a[top := a[top] - 1], m) == LevelTotal(a, m) - (if top <= m then 1 else 0)
  {
    if m > 0 {
      TotalDropped(a, top, m - 1);
    }
  }

  lemma {:induction false} TotalIsOffset(bits: Counts, l: nat)
    requires 1 <= l <= 17 && bits[0] == 0
    ensures Offset(bits, l) == LevelTotal(bits, l - 1)
  {
    if l > 1 {
      TotalIsOffset(bits, l - 1);
    } else {
      assert LevelTotal(bits, 0) == 0;
    }
  }

  /** The longest code is the pseudo-symbol's: dropping it leaves just as many codes of each length as real symbols have. */
  lemma OnlyRealLeft(cs: seq<nat>, bits: seq<byte>, final: seq<byte>, m: nat)
    requires |cs| == ALPHABET && Counted(cs, bits, ALPHABET) && LongestDropped(bits, final) && m <= 16
    requires cs[256] > 0 && forall i :: 0 <= i < ALPHABET ==> cs[i] <= cs[256]
    ensures LevelTotal(final, m) == CountBelow(cs, m, 256)
  {
    var top :| 1 <= top < |bits| && bits[top] > 0 && (forall k :: top < k < |bits| ==> bits[k] == 0) && final == bits[top := bits[top] - 1];
    TotalIsCount(cs, bits, m);
    TotalDropped(bits, top, m);
    CountedHas(cs, bits, 256, ALPHABET);
    if cs[256] < top {
      NoneOfLength(cs, top, ALPHABET);
    }
  }

  lemma {:induction false} CountedHas(cs: seq<nat>, bits: seq<byte>, i: nat, n: nat)
    requires n <= |cs| && Counted(cs, bits, n) && i < n && cs[i] > 0
    ensures bits[cs[i]] > 0
  {
    CountHas(cs, i, n);
  }

  lemma {:induction false} CountHas(cs: seq<nat>, i: nat, n: nat)
    requires i < n <= |cs|
    ensures CountLength(cs, cs[i], n) > 0
  {
    if i < n - 1 {
      CountHas(cs, i, n - 1);
    }
  }

  /** Each symbol's code has just the length that is its size. */
  ghost predicate OwnSizes(t: Table, cs: seq<nat>) {
    |cs| >= 256 && forall p: nat, l: nat :: HasLength(t.bits, p, l) && p < 256 ==> l == cs[t.huffval[p]]
  }

  lemma FinalOwnSizes(cs: seq<nat>, bits: seq<byte>, final: seq<byte>, huffval: seq<byte>)
    requires |cs| == ALPHABET && Counted(cs, bits, ALPHABET) && LongestDropped(bits, final)
    requires cs[256] > 0 && forall i :: 0 <= i < ALPHABET ==> cs[i] <= cs[256]
    requires |huffval| == 256 && SymbolsUpTo(cs, MAX_CLEN) <= huffval && LevelTotal(final, 16) <= |SymbolsUpTo(cs, MAX_CLEN)|
    ensures OwnSizes(RawTable(final[..17], huffval), cs)
  {
    hide SymbolsUpTo, LevelTotal, CountLength;
    var t := RawTable(final[..17], huffval);
    forall p: nat, l: nat | HasLength(t.bits, p, l) && p < 256
      ensures l == cs[huffval[p]]
    {
      SameTotals(final, t.bits, l);
      SameTotals(final, t.bits, l + 1);
      OnlyRealLeft(cs, bits, final, l - 1);
      OnlyRealLeft(cs, bits, final, l);
      SameTotals(final, t.bits, 17);
      OffsetMonotone(t.bits, l + 1, 17);
      SizeAt(cs, l, p);
    }
  }

  /** The symbols that follow those of smaller sizes have size l. */
  lemma SizeAt(cs: seq<nat>, l: nat, p: nat)
    requires 256 <= |cs| && 1 <= l <= MAX_CLEN && |SymbolsUpTo(cs, l - 1)| <= p < |SymbolsUpTo(cs, l)|
    ensures p < |SymbolsUpTo(cs, MAX_CLEN)| && cs[SymbolsUpTo(cs, MAX_CLEN)[p]] == l
  {
    hide SymbolsUpTo;
    PrefixUpTo(cs, l, MAX_CLEN);
    SymbolsUpToSorted(cs, l);
    BeyondIsLonger(cs, l - 1, l, p);
    assert SymbolsUpTo(cs, MAX_CLEN)[p] == SymbolsUpTo(cs, l)[p];
  }

  lemma {:induction false} PrefixUpTo(cs: seq<nat>, m: nat, i: nat)
    requires 256 <= |cs| && m <= i
    ensures SymbolsUpTo(cs, m) <= SymbolsUpTo(cs, i)
    decreases i
  {
    if m < i {
      PrefixUpTo(cs, m, i - 1);
    }
  }

  /** The counts of the final table: the sizes, made shorter step by step, and one of the longest dropped. */
  ghost predicate Shortened(cs: seq<nat>, bits: Counts) {
    exists counted, trace, limited, final ::
      |cs| == ALPHABET && Counted(cs, counted, ALPHABET) && Steps(counted, trace, limited) && LongestDropped(limited, final) && |final| == LEVELS
      && bits == final[..17]
  }

  lemma FinalLengths(cs: seq<nat>, counted: seq<byte>, trace: seq<seq<byte>>, limited: seq<byte>, final: seq<byte>, huffval: seq<byte>)
    requires |cs| == ALPHABET && Counted(cs, counted, ALPHABET)
    requires cs[256] > 0 && forall i :: 0 <= i < ALPHABET ==> cs[i] <= cs[256]
    requires Steps(counted, trace, limited) && LongestDropped(limited, final) && |final| == LEVELS && final[0] == 0
    requires |huffval| == 256 && SymbolsUpTo(cs, MAX_CLEN) <= huffval && LevelTotal(final, 16) == CountCoded(cs, ALPHABET) - 1
    ensures var t := RawTable(final[..17], huffval);
            && Offset(t.bits, 17) <= 256 && Sorted(cs, huffval[..Offset(t.bits, 17)]) && Shortened(cs, t.bits)
            && ((forall i :: 0 <= i < ALPHABET ==> cs[i] <= 16) ==> OwnSizes(t, cs))
  {
    hide SymbolsUpTo, LevelTotal, CountCoded, CountLength, Steps, LongestDropped, OwnSizes, Sorted;
    var t := RawTable(final[..17], huffval);
    SameTotals(final, t.bits, 17);
    CountBelowAll(cs, 256);
    OneMoreCoded(cs);
    SymbolsUpToSorted(cs, MAX_CLEN);
    assert huffval[..Offset(t.bits, 17)] == SymbolsUpTo(cs, MAX_CLEN);
    if forall i :: 0 <= i < ALPHABET ==> cs[i] <= 16 {
      forall k | 16 < k < LEVELS
        ensures counted[k] == 0
      {
        NoneOfLength(cs, k, ALPHABET);
      }
      ShortStay(counted, trace, limited);
      FinalOwnSizes(cs, counted, final, huffval);
    }
  }

  lemma {:induction false} NoneOfLength(cs: seq<nat>, k: nat, n: nat)
    requires n <= |cs| && forall i :: 0 <= i < n ==> cs[i] != k
    ensures CountLength(cs, k, n) == 0
  {
    if n > 0 {
      NoneOfLength(cs, k, n - 1);
    }
  }

  lemma SameTotals(final: seq<byte>, bits: Counts, l: nat)
    requires |final| == LEVELS && final[0] == 0 && bits == final[..17] && 1 <= l <= 17
    ensures Offset(bits, l) == LevelTotal(final, l - 1)
  {
    TotalIsOffset(bits, l);
    TotalsAgree(final, bits, l - 1);
  }

  lemma {:induction false} TotalsAgree(a: seq<byte>, b: seq<byte>, m: nat)
    requires m < |a| && m < |b| && forall k :: 0 <= k <= m ==> a[k] == b[k]
    ensures LevelTotal(a, m) == LevelTotal(b, m)
  {
    if m > 0 {
      TotalsAgree(a, b, m - 1);
    }
  }

  /** The table that jpeg_gen_optimal_table makes of these counts. */
  ghost predicate MadeFrom(freq: seq<nat>, t: Table) {
    && |freq| == ALPHABET && TableFor(freq, t)
    && var cs := HuffmanSizes(freq[256 := 1]);
       && Sorted(cs, t.huffval[..Offset(t.bits, 17)]) && Shortened(cs, t.bits)
       && ((forall i :: 0 <= i < |cs| ==> cs[i] <= 16) ==> OwnSizes(t, cs))
  }

  /** jpeg_gen_optimal_table. codesize is returned for the record: before limiting, the lengths
      are optimal for the counts with pseudo-symbol 256 included. */
  method GenOptimalTable(freq: array<nat>, oldVal: seq<byte>)
    returns (r: GenResult, ghost w0: seq<nat>, ghost cs: seq<nat>, ghost t: Tree)
    requires freq.Length == ALPHABET && |oldVal| == 256
    requires 1 <= LiveCount(freq[..], 256) <= MAX_REAL_SYMBOLS
    requires Total(freq[..], 256) + 1 <= 1000000000
    modifies freq
    ensures w0 == old(freq[..])[256 := 1] && Optimal(w0, cs, t) && cs == HuffmanSizes(w0)
    ensures r.ClenOverflow? <==> exists i :: 0 <= i < ALPHABET && cs[i] > 32
    ensures r.Generated? ==> TableFor(old(freq[..]), r.tbl) && Sorted(cs, r.tbl.huffval[..Offset(r.tbl.bits, 17)]) && Shortened(cs, r.tbl.bits)
    ensures r.Generated? && (forall i :: 0 <= i < ALPHABET ==> cs[i] <= 16) ==> OwnSizes(r.tbl, cs)
    ensures r.Generated? ==> MadeFrom(old(freq[..]), r.tbl)
  {
    hide Optimal, Shortened, Sorted, OwnSizes, Steps, LongestDropped, Offset, HuffmanSizes, TableFor, Total, LiveCount, FullTo, Counted, SymbolsUpTo, LevelUnits, LevelTotal, CountCoded, Pow2, LegalCounts;
    WithPseudo(freq[..]);
    freq[256] := 1;
    w0 := freq[..];
    assert w0 == old(freq[..])[256 := 1];
    var codesize := new nat[ALPHABET](i => 0);
    var others := new int[ALPHABET](i => -1);
    t := MergeAll(freq, codesize, others);
    cs := codesize[..];
    CodedAll(w0, cs, t);
    ReservedIsLongest(w0);
    var bits := new byte[LEVELS](i => 0);
    var ok := CountLengths(codesize, bits);
    if !ok {
      assert exists i :: 0 <= i < ALPHABET && cs[i] > MAX_CLEN;
      return ClenOverflow, w0, cs, t;
    }
    CountedIsFull(w0, cs, t, bits[..]);
    CountedSizes(cs, bits[..]);
    ghost var counted := bits[..];
    ghost var trace := LimitLengths(bits, CountCoded(cs, ALPHABET));
    ghost var limited := bits[..];
    RemovePseudoSymbol(bits, CountCoded(cs, ALPHABET));
    var huffval := new byte[256](i requires 0 <= i < 256 => oldVal[i]);
    ListSymbols(codesize, huffval);
    AssembledTable(w0, cs, bits[..], huffval[..]);
    r := Generated(RawTable(bits[..17], huffval[..]));
    FinalLengths(cs, counted, trace, limited, bits[..], huffval[..]);
    SameCounts(old(freq[..]), w0, r.tbl);
  }

  lemma CountedSizes(cs: seq<nat>, bits: seq<byte>)
    requires |cs| == ALPHABET && Counted(cs, bits, ALPHABET)
    ensures forall i :: 0 <= i < ALPHABET ==> cs[i] <= MAX_CLEN
  {}

  lemma SameCounts(freq: seq<nat>, w0: seq<nat>, t: Table)
    requires |freq| == ALPHABET && w0 == freq[256 := 1] && TableFor(w0, t)
    ensures TableFor(freq, t)
  {}

  lemma CodedAll(w0: seq<nat>, cs: seq<nat>, t: Tree)
    requires Optimal(w0, cs, t) && w0[256] > 0 && 2 <= LiveCount(w0, ALPHABET) <= 255
    ensures |cs| == ALPHABET
    ensures forall i :: 0 <= i < ALPHABET ==> (w0[i] > 0 <==> cs[i] > 0)
    ensures 0 < CountCoded(cs, ALPHABET) <= 255
  {
    var s := SomeLive(w0, 256);
    var sym: byte := s;
    CodedIffLive(w0, cs, t);
    CodedCount(w0, cs, ALPHABET);
  }

  lemma WithPseudo(freq: seq<nat>)
    requires |freq| == ALPHABET
    requires 1 <= LiveCount(freq, 256) <= MAX_REAL_SYMBOLS && Total(freq, 256) + 1 <= FREQ_LIMIT
    ensures 2 <= LiveCount(freq[256 := 1], ALPHABET) <= 255
    ensures Total(freq[256 := 1], ALPHABET) <= FREQ_LIMIT
  {
    TotalDiffers(freq, freq[256 := 1], 256, 256);
  }
}
