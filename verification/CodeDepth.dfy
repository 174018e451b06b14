/** How deep an optimal code can be: a code of length D needs a total count of at least the Fibonacci
    number F(D + 2), so that JERR_HUFF_CLEN_OVERFLOW has a bound the caller can check. */
module CodeDepth {
  import opened Bits
  import opened Arithmetic
  import opened CodeLengths
  import opened HuffmanForest
  import opened HuffmanMerge

  function Fib(n: nat): nat {
    if n < 2 then n else Fib(n - 1) + Fib(n - 2)
  }

  /** The joint weight of a tree's leaves. */
  function Weight(t: Tree, w: seq<nat>): nat {
    match t
    case Leaf(x) => if x < |w| then w[x] else 0
    case Node(l, r) => Weight(l, w) + Weight(r, w)
  }

  ghost predicate AllLive(t: Tree, w: seq<nat>) {
    forall i :: i in Leaves(t) ==> i < |w| && w[i] > 0
  }

  lemma HalvesLive(t: Tree, w: seq<nat>)
    requires t.Node? && AllLive(t, w) && Distinct(Leaves(t))
    ensures AllLive(t.left, w) && AllLive(t.right, w) && Distinct(Leaves(t.left)) && Distinct(Leaves(t.right))
    ensures forall i :: i in Leaves(t.left) ==> i !in Leaves(t.right)
  {
    SplitLeaves(Leaves(t.left), Leaves(t.right));
  }

  // ----- lengthening the codes of a subtree -----

  lemma {:induction false} CostGrows(w: seq<nat>, l: seq<nat>, chain: seq<nat>, n: nat)
    requires n <= |w| == |l|
    ensures CostUpTo(w, Bumped(l, chain), n) == CostUpTo(w, l, n) + Total(Restrict(w, chain), n)
  {
    if n > 0 {
      CostGrows(w, l, chain, n - 1);
      assert w[n - 1] * (l[n - 1] + 1) == w[n - 1] * l[n - 1] + w[n - 1];
    }
  }

  /** What a chain uses of the code space is twice what it uses when its codes are one bit longer. */
  lemma {:induction false} UnitsShrink(w: seq<nat>, l: seq<nat>, chain: seq<nat>, scale: nat, n: nat)
    requires n <= |w| == |l| && forall i :: 0 <= i < |w| && w[i] > 0 ==> l[i] < scale
    ensures Units(w, l, scale, n)
         == Units(w, Bumped(l, chain), scale, n) + Units(Restrict(w, chain), Bumped(l, chain), scale, n)
  {
    if n > 0 {
      UnitsShrink(w, l, chain, scale, n - 1);
      var i := n - 1;
      assert w[i] > 0 ==> Pow2(scale - l[i]) == 2 * Pow2(scale - (l[i] + 1));
    }
  }

  lemma {:induction false} TotalSplit(w: seq<nat>, p: seq<nat>, q: seq<nat>, n: nat)
    requires n <= |w| && forall i :: i in p ==> i !in q
    ensures Total(Restrict(w, p + q), n) == Total(Restrict(w, p), n) + Total(Restrict(w, q), n)
  {
    if n > 0 {
      TotalSplit(w, p, q, n - 1);
    }
  }

  lemma {:induction false} TotalOne(w: seq<nat>, x: nat, n: nat)
    requires n <= |w| && x < |w|
    ensures Total(Restrict(w, [x]), n) == if x < n then w[x] else 0
  {
    if n > 0 {
      TotalOne(w, x, n - 1);
    }
  }

  /** A tree's weight, summed by symbol. */
  lemma {:induction false} WeightByIndex(t: Tree, w: seq<nat>)
    requires AllLive(t, w) && Distinct(Leaves(t))
    ensures Weight(t, w) == Total(Restrict(w, Leaves(t)), |w|)
  {
    match t
    case Leaf(x) =>
      assert x in Leaves(t);
      TotalOne(w, x, |w|);
    case Node(l, r) =>
      HalvesLive(t, w);
      WeightByIndex(l, w);
      WeightByIndex(r, w);
      TotalSplit(w, Leaves(l), Leaves(r), |w|);
  }

  lemma {:induction false} RestrictSmaller(w: seq<nat>, on: seq<nat>, n: nat)
    requires n <= |w|
    ensures Total(Restrict(w, on), n) <= Total(w, n)
  {
    if n > 0 {
      RestrictSmaller(w, on, n - 1);
    }
  }

  /** Exchanging two subtrees that are one level apart keeps the code space full; so the upper one is not lighter. */
  lemma UpperNotLighter(w: seq<nat>, cs: seq<nat>, whole: Tree, up: Tree, down: Tree, d: nat)
    requires Optimal(w, cs, whole)
    requires Depths(up, cs, d) && Depths(down, cs, d + 1)
    requires AllLive(up, w) && AllLive(down, w) && Distinct(Leaves(up)) && Distinct(Leaves(down))
    requires forall i :: i in Leaves(up) ==> i !in Leaves(down)
    ensures Weight(down, w) <= Weight(up, w)
  {
    hide Optimal, Depths, AllLive, Distinct, Leaves, CostUpTo, Units, Total, Weight;
    OptimalSizes(w, cs, whole);
    var low := Lowered(cs, Leaves(down));
    LoweredBack(cs, down, d + 1);
    var cs' := Bumped(low, Leaves(up));
    var scale := Max(cs, |cs|) + 2;
    ExchangedUnits(w, cs, low, up, down, d, scale);
    CostGrows(w, low, Leaves(down), |w|);
    CostGrows(w, low, Leaves(up), |w|);
    WeightByIndex(up, w);
    WeightByIndex(down, w);
    StillCheapest(w, cs, whole, cs', scale);
  }

  lemma OptimalSizes(w: seq<nat>, cs: seq<nat>, t: Tree)
    requires Optimal(w, cs, t)
    ensures |w| == |cs| == ALPHABET
  {}

  /** The codes of a chain one bit shorter. */
  function Lowered(cs: seq<nat>, chain: seq<nat>): (r: seq<nat>)
    ensures |r| == |cs|
  {
    seq(|cs|, i requires 0 <= i < |cs| => if i in chain && cs[i] > 0 then cs[i] - 1 else cs[i])
  }

  lemma {:induction false} LeavesBelow(t: Tree, cs: seq<nat>, d: nat, i: nat)
    requires Depths(t, cs, d) && i in Leaves(t)
    ensures i < |cs| && cs[i] >= d
  {
    if t.Node? {
      if i in Leaves(t.left) {
        LeavesBelow(t.left, cs, d + 1, i);
      } else {
        LeavesBelow(t.right, cs, d + 1, i);
      }
    }
  }

  lemma LoweredBack(cs: seq<nat>, down: Tree, d: nat)
    requires Depths(down, cs, d) && d > 0
    ensures Bumped(Lowered(cs, Leaves(down)), Leaves(down)) == cs
  {
    hide Depths, Leaves;
    forall i | 0 <= i < |cs| && i in Leaves(down)
      ensures cs[i] > 0
    {
      LeavesBelow(down, cs, d, i);
    }
  }

  lemma {:induction false} DepthsLowered(t: Tree, cs: seq<nat>, chain: seq<nat>, d: nat)
    requires Depths(t, cs, d) && forall i :: i in Leaves(t) ==> i !in chain
    ensures Depths(t, Lowered(cs, chain), d)
  {
    if t.Node? {
      DepthsLowered(t.left, cs, chain, d + 1);
      DepthsLowered(t.right, cs, chain, d + 1);
    }
  }

  /** A tree's share of the code space, summed by symbol. */
  lemma TreeUnits(t: Tree, w: seq<nat>, cs: seq<nat>, d: nat, scale: nat)
    requires |w| == |cs| && Depths(t, cs, d) && AllLive(t, w) && Distinct(Leaves(t))
    requires forall i :: 0 <= i < |cs| ==> cs[i] <= scale
    ensures d <= scale && Units(Restrict(w, Leaves(t)), cs, scale, |w|) == Pow2(scale - d)
  {
    TreeIsFull(t, cs, d, scale);
    LeafUnitsByIndex(t, w, cs, scale);
  }

  lemma ExchangedUnits(w: seq<nat>, cs: seq<nat>, low: seq<nat>, up: Tree, down: Tree, d: nat, scale: nat)
    requires |w| == |cs| && low == Lowered(cs, Leaves(down)) && forall i :: 0 <= i < |cs| ==> cs[i] + 2 <= scale
    requires Depths(up, cs, d) && Depths(down, cs, d + 1)
    requires AllLive(up, w) && AllLive(down, w) && Distinct(Leaves(up)) && Distinct(Leaves(down))
    requires forall i :: i in Leaves(up) ==> i !in Leaves(down)
    ensures Units(w, Bumped(low, Leaves(up)), scale, |w|) == Units(w, cs, scale, |w|)
  {
    hide Depths, AllLive, Distinct, Leaves, Units, Pow2;
    var cs' := Bumped(low, Leaves(up));
    LoweredBack(cs, down, d + 1);
    UnitsShrink(w, low, Leaves(down), scale, |w|);
    UnitsShrink(w, low, Leaves(up), scale, |w|);
    TreeUnits(down, w, cs, d + 1, scale);
    DepthsLowered(up, cs, Leaves(down), d);
    DepthsBumped(up, low, Leaves(up), d);
    TreeUnits(up, w, cs', d + 1, scale);
  }

  lemma StillCheapest(w: seq<nat>, cs: seq<nat>, whole: Tree, cs': seq<nat>, scale: nat)
    requires Optimal(w, cs, whole) && |cs'| == |w| && Units(w, cs', scale, |w|) == Units(w, cs, scale, |w|)
    requires forall i :: 0 <= i < |w| ==> cs[i] <= scale && cs'[i] <= scale
    ensures Cost(w, cs) <= Cost(w, cs')
  {
    hide Depths, Distinct, Leaves, Units, Pow2, Cost;
    assert Kraft(w, cs', scale);
  }

  // ----- the Fibonacci bound -----

  lemma {:induction false} WeightLive(t: Tree, w: seq<nat>)
    requires AllLive(t, w) && Distinct(Leaves(t))
    ensures Weight(t, w) > 0
  {
    match t
    case Leaf(x) => assert x in Leaves(t);
    case Node(l, r) =>
      HalvesLive(t, w);
      WeightLive(l, w);
  }

  /** A subtree at depth d of an optimal code, with a leaf at depth D, weighs at least F(D - d + 2). */
  lemma {:induction false} DeepIsHeavy(w: seq<nat>, cs: seq<nat>, whole: Tree, t: Tree, d: nat, i: nat)
    requires Optimal(w, cs, whole) && Depths(t, cs, d) && AllLive(t, w) && Distinct(Leaves(t)) && i in Leaves(t)
    ensures i < |cs| && d <= cs[i] && Weight(t, w) >= Fib(cs[i] - d + 2)
    decreases t, 0
  {
    hide Optimal;
    LeavesBelow(t, cs, d, i);
    WeightLive(t, w);
    match t
    case Leaf(x) =>
    case Node(l, r) =>
      HalvesLive(t, w);
      if i in Leaves(l) {
        DeepSide(w, cs, whole, l, r, d, i);
      } else {
        DeepSide(w, cs, whole, r, l, d, i);
      }
  }

  /** The same for a node one of whose subtrees is `deep`. */
  lemma {:induction false} DeepSide(w: seq<nat>, cs: seq<nat>, whole: Tree, deep: Tree, other: Tree, d: nat, i: nat)
    requires Optimal(w, cs, whole) && Depths(deep, cs, d + 1) && Depths(other, cs, d + 1) && i in Leaves(deep)
    requires AllLive(deep, w) && AllLive(other, w) && Distinct(Leaves(deep)) && Distinct(Leaves(other))
    requires forall j :: j in Leaves(other) ==> j !in Leaves(deep)
    ensures i < |cs| && d <= cs[i] && Weight(deep, w) + Weight(other, w) >= Fib(cs[i] - d + 2)
    decreases deep, 1
  {
    hide Optimal;
    DeepIsHeavy(w, cs, whole, deep, d + 1, i);
    WeightLive(other, w);
    match deep
    case Leaf(x) =>
    case Node(l, r) =>
      HalvesLive(deep, w);
      var next := if i in Leaves(l) then l else r;
      DeepIsHeavy(w, cs, whole, next, d + 2, i);
      UpperNotLighter(w, cs, whole, other, next, d + 1);
  }

  /** An optimal code with a code of length D is for counts that add up to F(D + 2) or more. */
  lemma LongNeedsMany(w: seq<nat>, cs: seq<nat>, t: Tree, i: nat)
    requires Optimal(w, cs, t) && i < ALPHABET && w[i] > 0
    ensures |cs| == |w| == ALPHABET && Total(w, ALPHABET) >= Fib(cs[i] + 2)
  {
    forall j | j in Leaves(t)
      ensures j < |w| && w[j] > 0
    {
      LeavesBelow(t, cs, 0, j);
    }
    hide Optimal, Leaves;
    DeepIsHeavy(w, cs, t, t, 0, i);
    WeightByIndex(t, w);
    RestrictSmaller(w, Leaves(t), ALPHABET);
  }

  /** F(35), the least total for which a code of 33 bits can be optimal. */
  const SHALLOW_TOTAL := 9227465

  lemma FibValue()
    ensures Fib(35) == SHALLOW_TOTAL
  {
    FibJump(0);
    FibJump(5);
    FibJump(10);
    FibJump(15);
    FibJump(20);
    FibJump(25);
    FibJump(30);
  }

  lemma FibJump(n: nat)
    ensures Fib(n + 5) == 5 * Fib(n + 1) + 3 * Fib(n) && Fib(n + 6) == 8 * Fib(n + 1) + 5 * Fib(n)
  {
    assert Fib(n + 2) == Fib(n + 1) + Fib(n) && Fib(n + 3) == Fib(n + 2) + Fib(n + 1);
    assert Fib(n + 4) == Fib(n + 3) + Fib(n + 2) && Fib(n + 5) == Fib(n + 4) + Fib(n + 3);
    assert Fib(n + 6) == Fib(n + 5) + Fib(n + 4);
  }

  lemma {:induction false} FibGrows(m: nat, n: nat)
    requires m <= n
    ensures Fib(m) <= Fib(n)
    decreases n - m
  {
    if m < n {
      FibGrows(m, n - 1);
    }
  }

  /** Counts that add up to less have no optimal code of more than 32 bits. */
  lemma ShortWhenFew(w: seq<nat>, cs: seq<nat>, t: Tree, i: nat)
    requires Optimal(w, cs, t) && i < ALPHABET && Total(w, ALPHABET) < SHALLOW_TOTAL
    ensures |cs| == |w| == ALPHABET && cs[i] <= 32
  {
    hide Fib, Total;
    if w[i] > 0 {
      LongNeedsMany(w, cs, t, i);
      FibValue();
      if cs[i] > 32 {
        FibGrows(35, cs[i] + 2);
      }
    }
  }
}
