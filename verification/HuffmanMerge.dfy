/** The merge loop of jpeg_gen_optimal_table: Huffman's algorithm over linked chains. */
module HuffmanMerge {
  import opened Bits
  import opened CodeLengths
  import opened HuffmanForest

  const FREQ_LIMIT := 1000000000

  function Total(w: seq<nat>, n: nat): nat
    requires n <= |w|
  {
    if n == 0 then 0 else Total(w, n - 1) + w[n - 1]
  }

  function LiveCount(w: seq<nat>, n: nat): (k: nat)
    requires n <= |w|
    ensures k <= n
  {
    if n == 0 then 0 else LiveCount(w, n - 1) + (if w[n - 1] > 0 then 1 else 0)
  }

  lemma {:induction false} TotalBounds(w: seq<nat>, i: nat, n: nat)
    requires i < n <= |w|
    ensures w[i] <= Total(w, n)
  {
    if i < n - 1 {
      TotalBounds(w, i, n - 1);
    }
  }

  lemma {:induction false} TotalDiffers(w: seq<nat>, w': seq<nat>, k: nat, n: nat)
    requires k < |w| == |w'| && n <= |w|
    requires forall i :: 0 <= i < |w| && i != k ==> w[i] == w'[i]
    ensures Total(w', n) + (if k < n then w[k] else 0) == Total(w, n) + (if k < n then w'[k] else 0)
    ensures LiveCount(w', n) + (if k < n && w[k] > 0 then 1 else 0) == LiveCount(w, n) + (if k < n && w'[k] > 0 then 1 else 0)
  {
    if n > 0 {
      TotalDiffers(w, w', k, n - 1);
    }
  }

  /** A merge keeps the total and uses up one nonzero frequency. */
  lemma MergeCounts(w: seq<nat>, a: nat, b: nat)
    requires a < |w| && b < |w| && a != b && w[a] > 0 && w[b] > 0
    ensures Total(Merged(w, a, b), |w|) == Total(w, |w|)
    ensures LiveCount(Merged(w, a, b), |w|) == LiveCount(w, |w|) - 1
  {
    TotalDiffers(w, w[a := w[a] + w[b]], a, |w|);
    TotalDiffers(w[a := w[a] + w[b]], Merged(w, a, b), b, |w|);
  }

  /** The smallest nonzero frequency other than skip's among the first n; the larger symbol number on ties. */
  ghost function Picked(w: seq<nat>, skip: int, n: nat): (c: int)
    requires n <= |w|
    ensures -1 <= c < n && (c >= 0 ==> w[c] > 0 && c != skip)
  {
    if n == 0 then -1
    else
      var c := Picked(w, skip, n - 1);
      if w[n - 1] != 0 && w[n - 1] <= (if c < 0 then FREQ_LIMIT else w[c]) && n - 1 != skip then n - 1 else c
  }

  /** The scan for the smallest nonzero frequency. */
  method FindSmallest(freq: array<nat>, skip: int) returns (c: int)
    requires freq.Length == ALPHABET
    ensures c == Picked(freq[..], skip, ALPHABET)
    ensures -1 <= c < ALPHABET
    ensures c < 0 ==> forall i :: 0 <= i < ALPHABET && i != skip && freq[i] > 0 ==> freq[i] > FREQ_LIMIT
    ensures c >= 0 ==> c != skip && freq[c] > 0
    ensures c >= 0 ==> forall i :: 0 <= i < ALPHABET && i != skip && freq[i] > 0 ==>
      freq[c] <= freq[i] && (c < i ==> freq[c] < freq[i])
  {
    c := -1;
    var v := FREQ_LIMIT;
    for i := 0 to ALPHABET
      invariant -1 <= c < i && c == Picked(freq[..], skip, i)
      invariant c < 0 ==> v == FREQ_LIMIT && forall j :: 0 <= j < i && j != skip && freq[j] > 0 ==> freq[j] > v
      invariant c >= 0 ==> c != skip && freq[c] > 0 && v == freq[c] <= FREQ_LIMIT
      invariant c >= 0 ==> forall j :: 0 <= j < i && j != skip && freq[j] > 0 ==> v <= freq[j] && (c < j ==> v < freq[j])
    {
      if freq[i] != 0 && freq[i] <= v && i != skip {
        v, c := freq[i], i;
      }
    }
  }

  /** Walk the chain of c, adding one to every code size; returns the last symbol on it. */
  method BumpChain(codesize: array<nat>, others: array<int>, c: nat, ghost chain: seq<nat>) returns (last: nat)
    requires codesize.Length == ALPHABET == others.Length
    requires |chain| > 0 && chain[0] == c && Linked(chain, others[..]) && Distinct(chain)
    modifies codesize
    ensures last == chain[|chain| - 1] < ALPHABET
    ensures codesize[..] == Bumped(old(codesize[..]), chain)
  {
    last := c;
    ghost var j := 0;
    ghost var before, links := codesize[..], others[..];
    assert chain[0] < ALPHABET;
    codesize[last] := codesize[last] + 1;
    while others[last] >= 0
      invariant 0 <= j < |chain| && last == chain[j] < ALPHABET
      invariant others[..] == links
      invariant forall i :: 0 <= i < ALPHABET ==> codesize[i] == before[i] + (if i in chain[..j + 1] then 1 else 0)
      decreases |chain| - j
    {
      LinkEnds(chain, links, j);
      NotYet(chain, j + 1);
      last := others[last];
      codesize[last] := codesize[last] + 1;
      j := j + 1;
    }
    LinkEnds(chain, links, j);
    assert chain[..j + 1] == chain;
    assert codesize[..] == Bumped(before, chain);
  }

  lemma LinkEnds(chain: seq<nat>, links: seq<int>, j: nat)
    requires Linked(chain, links) && j < |chain|
    ensures chain[j] < |links|
    ensures links[chain[j]] < 0 <==> j + 1 == |chain|
    ensures j + 1 < |chain| ==> links[chain[j]] == chain[j + 1]
  {
    if j + 1 < |chain| {
      assert links[chain[j]] == chain[j + 1];
    }
  }

  lemma NotYet(chain: seq<nat>, j: nat)
    requires Distinct(chain) && j < |chain|
    ensures chain[j] !in chain[..j]
    ensures forall i :: i in chain[..j + 1] <==> i in chain[..j] || i == chain[j]
  {
    assert chain[..j + 1] == chain[..j] + [chain[j]];
  }

  /** What holds between rounds: the forest, and the lower bound met by the code sizes so far. */
  ghost predicate MergeState(w0: seq<nat>, w: seq<nat>, cs: seq<nat>, others: seq<int>, f: Forest) {
    && ForestOk(w0, w, cs, others, f)
    && Reduces(w0, w, Cost(w0, cs))
    && Total(w, ALPHABET) <= FREQ_LIMIT
    && LiveCount(w, ALPHABET) > 0
  }

  lemma MergeStarts(w0: seq<nat>, cs: seq<nat>, others: seq<int>)
    requires |w0| == |cs| == |others| == ALPHABET
    requires forall i :: 0 <= i < ALPHABET ==> cs[i] == 0 && others[i] == -1
    requires Total(w0, ALPHABET) <= FREQ_LIMIT && w0[256] > 0
    ensures MergeState(w0, w0, cs, others, Singletons(w0))
  {
    ForestInitially(w0, cs, others);
    ReducesInitially(w0);
    FreeAtFirst(w0, cs, ALPHABET);
  }

  lemma {:induction false} FreeAtFirst(w0: seq<nat>, cs: seq<nat>, n: nat)
    requires n <= |w0| == |cs| && forall i :: 0 <= i < |cs| ==> cs[i] == 0
    ensures CostUpTo(w0, cs, n) == 0
  {
    if n > 0 {
      FreeAtFirst(w0, cs, n - 1);
    }
  }

  lemma {:induction false} SomeLive(w: seq<nat>, n: nat) returns (i: nat)
    requires n <= |w| && LiveCount(w, n) > 0
    ensures i < n && w[i] > 0
  {
    if w[n - 1] > 0 {
      i := n - 1;
    } else {
      i := SomeLive(w, n - 1);
    }
  }

  lemma AllWithinLimit(w: seq<nat>)
    requires |w| == ALPHABET && Total(w, ALPHABET) <= FREQ_LIMIT
    ensures forall i :: 0 <= i < ALPHABET ==> w[i] <= FREQ_LIMIT
  {
    forall i | 0 <= i < ALPHABET
      ensures w[i] <= FREQ_LIMIT
    {
      TotalBounds(w, i, ALPHABET);
    }
  }

  lemma MergeRound(w0: seq<nat>, w: seq<nat>, cs: seq<nat>, others: seq<int>, f: Forest, a: nat, b: nat)
    requires MergeState(w0, w, cs, others, f) && Lightest(w, a, b)
    ensures a < |f.trees| && b < |f.trees|
    ensures var p, q := Leaves(f.trees[a]), Leaves(f.trees[b]);
            && p[|p| - 1] < |others|
            && MergeState(w0, Merged(w, a, b), Bumped(cs, p + q), others[p[|p| - 1] := b], Joined(f, a, b))
  {
    hide Leaves, Linked, Distinct, Depths, Reduces, Total, LiveCount, OwnersOk;
    ForestJoined(w0, w, cs, others, f, a, b);
    MergeCounts(w, a, b);
    ReducesFurther(w0, w, Cost(w0, cs), a, b);
    var chain := Leaves(f.trees[a]) + Leaves(f.trees[b]);
    CostOfRound(w0, w, cs, others, f, a, b);
    assert LiveCount(Merged(w, a, b), ALPHABET) > 0 by { StillLive(w, a, b); }
  }

  lemma StillLive(w: seq<nat>, a: nat, b: nat)
    requires |w| == ALPHABET && Lightest(w, a, b)
    ensures LiveCount(Merged(w, a, b), ALPHABET) > 0
  {
    LiveHere(Merged(w, a, b), a, ALPHABET);
  }

  lemma {:induction false} LiveHere(w: seq<nat>, i: nat, n: nat)
    requires i < n <= |w| && w[i] > 0
    ensures LiveCount(w, n) > 0
  {
    if i < n - 1 {
      LiveHere(w, i, n - 1);
    }
  }

  lemma CostOfRound(w0: seq<nat>, w: seq<nat>, cs: seq<nat>, others: seq<int>, f: Forest, a: nat, b: nat)
    requires ForestOk(w0, w, cs, others, f) && Lightest(w, a, b)
    ensures Cost(w0, Bumped(cs, Leaves(f.trees[a]) + Leaves(f.trees[b]))) == Cost(w0, cs) + w[a] + w[b]
  {
    hide Linked, Distinct, Depths, Leaves;
    assert TreeOk(f.trees[a], a, cs, others, f.owner) && TreeOk(f.trees[b], b, cs, others, f.owner);
    CostBumped(w0, cs, f.owner, Leaves(f.trees[a]) + Leaves(f.trees[b]), a, b, ALPHABET);
  }

  /** Where the loop stops: a single tree over all live symbols, of minimal total size. */
  ghost predicate Optimal(w0: seq<nat>, cs: seq<nat>, t: Tree) {
    && |w0| == |cs| == ALPHABET
    && Depths(t, cs, 0) && Distinct(Leaves(t))
    && (forall i :: 0 <= i < ALPHABET ==> (i in Leaves(t) <==> w0[i] > 0))
    && (forall i :: 0 <= i < ALPHABET && w0[i] == 0 ==> cs[i] == 0)
    && (forall scale :: (forall i :: 0 <= i < ALPHABET && w0[i] > 0 ==> cs[i] <= scale) ==>
          Units(w0, cs, scale, ALPHABET) == Pow2(scale))
    && (forall l: seq<nat>, scale: nat :: Kraft(w0, l, scale) ==> Cost(w0, cs) <= Cost(w0, l))
  }

  lemma MergeEnds(w0: seq<nat>, w: seq<nat>, cs: seq<nat>, others: seq<int>, f: Forest, c: nat)
    requires MergeState(w0, w, cs, others, f)
    requires c < ALPHABET && w[c] > 0 && forall i :: 0 <= i < ALPHABET && i != c ==> w[i] == 0
    ensures c < |f.trees| && Optimal(w0, cs, f.trees[c])
  {
    hide Leaves, Linked, Distinct, Depths, Reduces, OwnersOk, TreeOk, Total, LiveCount, Units, Pow2, Cost;
    forall scale: nat | forall i :: 0 <= i < ALPHABET && w0[i] > 0 ==> cs[i] <= scale
      ensures Units(w0, cs, scale, ALPHABET) == Pow2(scale)
    {
      FinishedTree(w0, w, cs, others, f, c, scale);
    }
    var high := Max(cs, ALPHABET);
    FinishedTree(w0, w, cs, others, f, c, high);
    forall l: seq<nat>, scale: nat | Kraft(w0, l, scale)
      ensures Cost(w0, cs) <= Cost(w0, l)
    {
      LowerBound(w0, w, Cost(w0, cs), l, scale);
    }
  }

  function Max(s: seq<nat>, n: nat): (m: nat)
    requires n <= |s|
    ensures forall i :: 0 <= i < n ==> s[i] <= m
  {
    if n == 0 then 0 else
    var r := Max(s, n - 1);
    if s[n - 1] > r then s[n - 1] else r
  }

  /** The sizes that merging ends with, from a state of the merge loop. */
  ghost function FinalSizes(w: seq<nat>, cs: seq<nat>, f: Forest): seq<nat>
    requires |w| == |f.trees| == ALPHABET
    decreases LiveCount(w, ALPHABET)
  {
    var a := Picked(w, -1, ALPHABET);
    var b := Picked(w, a, ALPHABET);
    if a < 0 || b < 0 then cs
    else
      MergeCounts(w, a, b);
      FinalSizes(Merged(w, a, b), Bumped(cs, Leaves(f.trees[a]) + Leaves(f.trees[b])), Joined(f, a, b))
  }

  /** The code sizes of Huffman's algorithm, with this program's choice among ties. */
  ghost function HuffmanSizes(w0: seq<nat>): seq<nat>
    requires |w0| == ALPHABET
  {
    FinalSizes(w0, seq(ALPHABET, _ => 0), Singletons(w0))
  }

  lemma SizesStep(w: seq<nat>, cs: seq<nat>, f: Forest)
    requires |w| == |f.trees| == ALPHABET
    ensures var a := Picked(w, -1, ALPHABET); var b := Picked(w, a, ALPHABET);
            FinalSizes(w, cs, f) ==
              if a < 0 || b < 0 then cs
              else FinalSizes(Merged(w, a, b), Bumped(cs, Leaves(f.trees[a]) + Leaves(f.trees[b])), Joined(f, a, b))
  {}

  lemma {:induction false} PickedIs(w: seq<nat>, skip: int, n: nat)
    requires n <= |w| && forall i :: 0 <= i < n ==> w[i] <= FREQ_LIMIT
    ensures var c := Picked(w, skip, n);
            && (c < 0 ==> forall i :: 0 <= i < n && i != skip ==> w[i] == 0)
            && (c >= 0 ==> forall i :: 0 <= i < n && i != skip && w[i] > 0 ==> w[c] <= w[i])
  {
    if n > 0 {
      PickedIs(w, skip, n - 1);
    }
  }

  /** These sizes are optimal, from any state of the merge loop. */
  lemma {:induction false} FinalIsOptimal(w0: seq<nat>, w: seq<nat>, cs: seq<nat>, others: seq<int>, f: Forest) returns (t: Tree)
    requires MergeState(w0, w, cs, others, f)
    ensures |w| == |f.trees| == ALPHABET && Optimal(w0, FinalSizes(w, cs, f), t)
    decreases LiveCount(w, ALPHABET)
  {
    hide MergeState, Optimal, Merged, Bumped, Joined, Leaves, Picked, LiveCount;
    StateSizes(w0, w, cs, others, f);
    PickedIs(w, -1, ALPHABET);
    var a := Picked(w, -1, ALPHABET);
    PickedIs(w, a, ALPHABET);
    var b := Picked(w, a, ALPHABET);
    if b < 0 {
      MergeEnds(w0, w, cs, others, f, a);
      t := f.trees[a];
    } else {
      MergeRound(w0, w, cs, others, f, a, b);
      MergeCounts'(w, a, b);
      var p, q := Leaves(f.trees[a]), Leaves(f.trees[b]);
      t := FinalIsOptimal(w0, Merged(w, a, b), Bumped(cs, p + q), others[p[|p| - 1] := b], Joined(f, a, b));
    }
  }

  lemma StateSizes(w0: seq<nat>, w: seq<nat>, cs: seq<nat>, others: seq<int>, f: Forest)
    requires MergeState(w0, w, cs, others, f)
    ensures |w| == |f.trees| == ALPHABET && (forall i :: 0 <= i < ALPHABET ==> w[i] <= FREQ_LIMIT)
    ensures exists i :: 0 <= i < ALPHABET && w[i] > 0
  {
    hide OwnersOk, TreeOk, Reduces, LiveCount, Total;
    AllWithinLimit(w);
    var i := SomeLive(w, ALPHABET);
  }

  /** Whatever the counts, as long as they are within the limit, these sizes are optimal. */
  lemma SizesAreOptimal(w0: seq<nat>) returns (t: Tree)
    requires |w0| == ALPHABET && w0[256] > 0 && Total(w0, ALPHABET) <= FREQ_LIMIT
    ensures Optimal(w0, HuffmanSizes(w0), t)
  {
    hide MergeState, Optimal, FinalSizes, Total;
    var cs, others: seq<int> := seq(ALPHABET, _ => 0), seq(ALPHABET, _ => -1);
    MergeStarts(w0, cs, others);
    t := FinalIsOptimal(w0, w0, cs, others, Singletons(w0));
  }

  /** Huffman's algorithm. freq is used up; codesize gets an optimal set of code lengths. */
  method MergeAll(freq: array<nat>, codesize: array<nat>, others: array<int>) returns (ghost t: Tree)
    requires freq.Length == codesize.Length == others.Length == ALPHABET && freq != codesize
    requires forall i :: 0 <= i < ALPHABET ==> codesize[i] == 0 && others[i] == -1
    requires freq[256] > 0 && Total(freq[..], ALPHABET) <= FREQ_LIMIT
    modifies freq, codesize, others
    ensures Optimal(old(freq[..]), codesize[..], t)
    ensures codesize[..] == HuffmanSizes(old(freq[..]))
  {
    hide FinalSizes, Picked, MergeState, Optimal, Merged, Bumped, Joined, Leaves, Linked, Distinct, LiveCount, Total, Lightest;
    ghost var w0 := freq[..];
    ghost var f := Singletons(w0);
    MergeStarts(w0, codesize[..], others[..]);
    assert codesize[..] == seq(ALPHABET, _ => 0);
    while true
      invariant MergeState(w0, freq[..], codesize[..], others[..], f) && |f.trees| == ALPHABET
      invariant FinalSizes(freq[..], codesize[..], f) == HuffmanSizes(w0)
      decreases LiveCount(freq[..], ALPHABET)
    {
      var c1, c2 := SelectTwo(freq, w0, codesize[..], others[..], f);
      SizesStep(freq[..], codesize[..], f);
      if c2 < 0 {
        MergeEnds(w0, freq[..], codesize[..], others[..], f, c1);
        t := f.trees[c1];
        return;
      }
      MergeRound(w0, freq[..], codesize[..], others[..], f, c1, c2);
      MergeCounts'(freq[..], c1, c2);
      MergeTwo(freq, codesize, others, c1, c2, w0, f);
      f := Joined(f, c1, c2);
    }
  }

  lemma MergeCounts'(w: seq<nat>, a: nat, b: nat)
    requires |w| == ALPHABET && Lightest(w, a, b)
    ensures LiveCount(Merged(w, a, b), ALPHABET) < LiveCount(w, ALPHABET)
  {
    MergeCounts(w, a, b);
  }

  /** The two selection scans; c2 is negative when everything is in one tree. */
  method SelectTwo(freq: array<nat>, ghost w0: seq<nat>, ghost cs: seq<nat>, ghost others: seq<int>, ghost f: Forest)
    returns (c1: nat, c2: int)
    requires freq.Length == ALPHABET && MergeState(w0, freq[..], cs, others, f)
    ensures c1 < ALPHABET && c2 < ALPHABET && freq[c1] > 0
    ensures c1 == Picked(freq[..], -1, ALPHABET) && c2 == Picked(freq[..], c1, ALPHABET)
    ensures c2 >= 0 ==> Lightest(freq[..], c1, c2)
    ensures c2 < 0 ==> forall i :: 0 <= i < ALPHABET && i != c1 ==> freq[i] == 0
  {
    hide Picked, ForestOk, Reduces, LiveCount, Total;
    AllWithinLimit(freq[..]);
    ghost var live := SomeLive(freq[..], ALPHABET);
    assert freq[live] > 0;
    var first := FindSmallest(freq, -1);
    c1 := first;
    c2 := FindSmallest(freq, c1);
    assert forall i :: 0 <= i < ALPHABET ==> freq[..][i] == freq[i];
  }

  /** Merging the trees of c1 and c2 in the three arrays. */
  method MergeTwo(freq: array<nat>, codesize: array<nat>, others: array<int>, c1: nat, c2: nat,
                  ghost w0: seq<nat>, ghost f: Forest)
    requires freq.Length == codesize.Length == others.Length == ALPHABET && freq != codesize
    requires MergeState(w0, freq[..], codesize[..], others[..], f)
    requires Lightest(freq[..], c1, c2) && c1 < |f.trees| && c2 < |f.trees|
    modifies freq, codesize, others
    ensures freq[..] == Merged(old(freq[..]), c1, c2)
    ensures codesize[..] == Bumped(old(codesize[..]), Leaves(f.trees[c1]) + Leaves(f.trees[c2]))
    ensures var p := Leaves(f.trees[c1]);
            p[|p| - 1] < ALPHABET && others[..] == old(others[..])[p[|p| - 1] := c2]
  {
    hide Reduces, Total, LiveCount, Leaves, Linked, Distinct, Depths, Bumped, OwnersOk;
    ghost var p, q := Leaves(f.trees[c1]), Leaves(f.trees[c2]);
    ChainsApart(w0, freq[..], codesize[..], others[..], f, c1, c2);
    freq[c1] := freq[c1] + freq[c2];
    freq[c2] := 0;
    assert freq[..] == Merged(old(freq[..]), c1, c2);
    var last := BumpChain(codesize, others, c1, p);
    LinkedKept(q, others[..], last, c2);
    others[last] := c2;
    assert others[..] == old(others[..])[last := c2];
    var _ := BumpChain(codesize, others, c2, q);
    BumpBoth(old(codesize[..]), p, q);
  }

  lemma ChainsApart(w0: seq<nat>, w: seq<nat>, cs: seq<nat>, others: seq<int>, f: Forest, a: nat, b: nat)
    requires MergeState(w0, w, cs, others, f) && Lightest(w, a, b) && a < |f.trees| && b < |f.trees|
    ensures var p, q := Leaves(f.trees[a]), Leaves(f.trees[b]);
            && p[0] == a && Linked(p, others) && Distinct(p)
            && q[0] == b && Linked(q, others) && Distinct(q)
            && p[|p| - 1] !in q && (forall i :: i in p ==> i !in q)
  {
    hide Linked, Distinct, Depths, Leaves, Reduces;
    assert TreeOk(f.trees[a], a, cs, others, f.owner) && TreeOk(f.trees[b], b, cs, others, f.owner);
    var p := Leaves(f.trees[a]);
    assert p[|p| - 1] in p;
    forall i | i in p
      ensures i !in Leaves(f.trees[b])
    {
      assert f.owner[i] == a;
    }
  }

  lemma BumpBoth(cs: seq<nat>, p: seq<nat>, q: seq<nat>)
    requires forall i :: i in p ==> i !in q
    ensures Bumped(Bumped(cs, p), q) == Bumped(cs, p + q)
  {}
}
