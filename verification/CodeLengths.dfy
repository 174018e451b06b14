/** Code-length assignments: Kraft sums, weighted cost, and the exchange argument that
    makes merging the two lightest symbols optimal. */
module CodeLengths {
  import opened Bits
  import opened Arithmetic

  /** A symbol's share of the code space, in units of 2^-scale; weightless symbols have no code. */
  function Share(w: seq<nat>, l: seq<nat>, scale: nat, i: nat): nat
    requires i < |w| == |l|
  {
    if w[i] > 0 && l[i] <= scale then Pow2(scale - l[i]) else 0
  }

  function Units(w: seq<nat>, l: seq<nat>, scale: nat, n: nat): nat
    requires n <= |w| == |l|
  {
    if n == 0 then 0 else Units(w, l, scale, n - 1) + Share(w, l, scale, n - 1)
  }

  function Term(w: seq<nat>, l: seq<nat>, i: nat): nat
    requires i < |w| == |l|
  {
    w[i] * l[i]
  }

  /** Total coded size of the first n symbols. */
  function CostUpTo(w: seq<nat>, l: seq<nat>, n: nat): nat
    requires n <= |w| == |l|
  {
    if n == 0 then 0 else CostUpTo(w, l, n - 1) + Term(w, l, n - 1)
  }

  function Cost(w: seq<nat>, l: seq<nat>): nat
    requires |w| == |l|
  {
    CostUpTo(w, l, |w|)
  }

  /** The Kraft inequality for the live symbols: sum of 2^-l[i] at most 1. */
  ghost predicate Kraft(w: seq<nat>, l: seq<nat>, scale: nat) {
    && |w| == |l|
    && (forall i :: 0 <= i < |w| && w[i] > 0 ==> l[i] <= scale)
    && Units(w, l, scale, |w|) <= Pow2(scale)
  }

  lemma {:induction false} UnitsDiffer(w: seq<nat>, l: seq<nat>, w': seq<nat>, l': seq<nat>, scale: nat, k: nat, n: nat)
    requires k < |w| == |l| == |w'| == |l'| && n <= |w|
    requires forall i :: 0 <= i < |w| && i != k ==> w[i] == w'[i] && l[i] == l'[i]
    ensures Units(w', l', scale, n) + (if k < n then Share(w, l, scale, k) else 0)
         == Units(w, l, scale, n) + (if k < n then Share(w', l', scale, k) else 0)
  {
    if n > 0 {
      UnitsDiffer(w, l, w', l', scale, k, n - 1);
      assert n - 1 != k ==> Share(w, l, scale, n - 1) == Share(w', l', scale, n - 1);
    }
  }

  lemma {:induction false} CostDiffers(w: seq<nat>, l: seq<nat>, w': seq<nat>, l': seq<nat>, k: nat, n: nat)
    requires k < |w| == |l| == |w'| == |l'| && n <= |w|
    requires forall i :: 0 <= i < |w| && i != k ==> w[i] == w'[i] && l[i] == l'[i]
    ensures CostUpTo(w', l', n) + (if k < n then Term(w, l, k) else 0)
         == CostUpTo(w, l, n) + (if k < n then Term(w', l', k) else 0)
  {
    if n > 0 {
      CostDiffers(w, l, w', l', k, n - 1);
      assert n - 1 != k ==> Term(w, l, n - 1) == Term(w', l', n - 1);
    }
  }

  /** The same sum at a coarser scale, when no length needs the finer one. */
  lemma {:induction false} Rescale(w: seq<nat>, l: seq<nat>, fine: nat, coarse: nat, n: nat)
    requires n <= |w| == |l| && coarse <= fine
    requires forall i :: 0 <= i < |w| && w[i] > 0 ==> l[i] <= coarse
    ensures Units(w, l, fine, n) == Units(w, l, coarse, n) * Pow2(fine - coarse)
  {
    if n > 0 {
      Rescale(w, l, fine, coarse, n - 1);
      var i := n - 1;
      if w[i] > 0 {
        Pow2Add(coarse - l[i], fine - coarse);
      }
      assert Share(w, l, fine, i) == Share(w, l, coarse, i) * Pow2(fine - coarse);
      Distribute(Units(w, l, coarse, i), Share(w, l, coarse, i), Pow2(fine - coarse));
    }
  }

  /** Exchanging the lengths of two live symbols. */
  function Swap(l: seq<nat>, p: nat, q: nat): (l': seq<nat>)
    requires p < |l| && q < |l|
    ensures |l'| == |l|
  {
    l[p := l[q]][q := l[p]]
  }

  /** Giving the lighter of two symbols the longer code never costs more. */
  lemma SwapImproves(w: seq<nat>, l: seq<nat>, scale: nat, p: nat, q: nat)
    requires Kraft(w, l, scale) && p < |w| && q < |w|
    requires 0 < w[p] <= w[q] && l[p] <= l[q]
    ensures Kraft(w, Swap(l, p, q), scale) && Cost(w, Swap(l, p, q)) <= Cost(w, l)
  {
    if p != q {
      var mid, l' := l[p := l[q]], Swap(l, p, q);
      UnitsDiffer(w, l, w, mid, scale, p, |w|);
      UnitsDiffer(w, mid, w, l', scale, q, |w|);
      CostDiffers(w, l, w, mid, p, |w|);
      CostDiffers(w, mid, w, l', q, |w|);
      Exchange(w[p], w[q], l[p], l[q]);
    } else {
      assert Swap(l, p, q) == l;
    }
  }

  lemma Exchange(a: nat, b: nat, x: nat, y: nat)
    requires a <= b && x <= y
    ensures a * y + b * x <= a * x + b * y
  {
    assert (b - a) * (y - x) >= 0;
    Distribute(b - a, a, y - x);
  }

  /** a and b are the two lightest live symbols. */
  ghost predicate Lightest(w: seq<nat>, a: nat, b: nat) {
    && a < |w| && b < |w| && a != b && 0 < w[a] <= w[b]
    && forall i :: 0 <= i < |w| && w[i] > 0 && i != a ==> w[b] <= w[i]
  }

  /** a live symbol other than `skip` with the longest code. */
  lemma {:induction false} Longest(w: seq<nat>, l: seq<nat>, skip: int, start: nat, n: nat) returns (p: nat)
    requires n <= |w| == |l| && start < |w| && w[start] > 0 && start != skip
    ensures p < |w| && w[p] > 0 && p != skip && l[start] <= l[p]
    ensures forall i :: 0 <= i < n && w[i] > 0 && i != skip ==> l[i] <= l[p]
  {
    if n == 0 {
      p := start;
    } else {
      p := Longest(w, l, skip, start, n - 1);
      if w[n - 1] > 0 && n - 1 != skip && l[p] < l[n - 1] {
        p := n - 1;
      }
    }
  }

  /** Some assignment at least as good gives a and b the longest codes, in this order. */
  lemma LightestLongest(w: seq<nat>, l: seq<nat>, scale: nat, a: nat, b: nat) returns (l': seq<nat>)
    requires Kraft(w, l, scale) && Lightest(w, a, b)
    ensures Kraft(w, l', scale) && Cost(w, l') <= Cost(w, l)
    ensures l'[b] <= l'[a]
    ensures forall i :: 0 <= i < |w| && w[i] > 0 && i != a ==> l'[i] <= l'[b]
  {
    hide Units, Cost, CostUpTo, Pow2;
    var p := Longest(w, l, -1, a, |w|);
    SwapImproves(w, l, scale, a, p);
    var l1 := Swap(l, a, p);
    assert forall i :: 0 <= i < |w| && w[i] > 0 ==> l1[i] <= l1[a];
    var q := Longest(w, l1, a, b, |w|);
    SwapImproves(w, l1, scale, b, q);
    l' := Swap(l1, b, q);
  }

  function Merged(w: seq<nat>, a: nat, b: nat): (w': seq<nat>)
    requires a < |w| && b < |w|
    ensures |w'| == |w|
  {
    w[a := w[a] + w[b]][b := 0]
  }

  /** Merging a and b: their parent takes a code one bit shorter than b's. */
  lemma MergeLengths(w: seq<nat>, l: seq<nat>, scale: nat, a: nat, b: nat)
    requires Kraft(w, l, scale) && Lightest(w, a, b)
    requires l[b] <= l[a]
    requires forall i :: 0 <= i < |w| && w[i] > 0 && i != a ==> l[i] <= l[b]
    ensures l[b] > 0
    ensures Kraft(Merged(w, a, b), l[a := l[b] - 1], l[b])
    ensures Cost(Merged(w, a, b), l[a := l[b] - 1]) + w[a] + w[b] <= Cost(w, l)
  {
    hide Cost, CostUpTo, Pow2, Units;
    var L, n := l[b], |w|;
    var rest := w[a := 0];
    UnitsWithout(w, l, scale, a);
    CoarseRoom(rest, l, scale, L, b);
    MergedRoom(w, l, a, b);
    MergedCost(w, l, a, b);
  }

  lemma UnitsWithout(w: seq<nat>, l: seq<nat>, scale: nat, a: nat)
    requires Kraft(w, l, scale) && a < |w| && w[a] > 0
    ensures Units(w[a := 0], l, scale, |w|) < Pow2(scale)
  {
    UnitsDiffer(w, l, w[a := 0], l, scale, a, |w|);
  }

  /** Strictly less than all code space, with every length at most L, leaves one unit of 2^-L. */
  lemma CoarseRoom(w: seq<nat>, l: seq<nat>, scale: nat, L: nat, b: nat)
    requires |w| == |l| && b < |w| && w[b] > 0 && l[b] == L <= scale
    requires forall i :: 0 <= i < |w| && w[i] > 0 ==> l[i] <= L
    requires Units(w, l, scale, |w|) < Pow2(scale)
    ensures Units(w, l, L, |w|) + 1 <= Pow2(L)
  {
    Rescale(w, l, scale, L, |w|);
    Pow2Add(L, scale - L);
    CancelLess(Units(w, l, L, |w|), Pow2(L), Pow2(scale - L));
  }

  lemma MergedRoom(w: seq<nat>, l: seq<nat>, a: nat, b: nat)
    requires |w| == |l| && Lightest(w, a, b)
    requires forall i :: 0 <= i < |w| && w[i] > 0 && i != a ==> l[i] <= l[b]
    requires Units(w[a := 0], l, l[b], |w|) + 1 <= Pow2(l[b])
    ensures l[b] > 0
    ensures Kraft(Merged(w, a, b), l[a := l[b] - 1], l[b])
  {
    var L, n := l[b], |w|;
    var rest, bare := w[a := 0], w[a := 0][b := 0];
    UnitsDiffer(rest, l, bare, l, L, b, n);
    assert Share(rest, l, L, b) == 1;
    assert Units(bare, l, L, n) + 2 <= Pow2(L);
    assert L > 0;
    var w', l' := Merged(w, a, b), l[a := L - 1];
    UnitsDiffer(bare, l, w', l', L, a, n);
    assert Share(w', l', L, a) == Pow2(1) == 2;
  }

  lemma MergedCost(w: seq<nat>, l: seq<nat>, a: nat, b: nat)
    requires |w| == |l| && a < |w| && b < |w| && a != b
    requires 0 < l[b] <= l[a]
    ensures Cost(Merged(w, a, b), l[a := l[b] - 1]) + w[a] + w[b] <= Cost(w, l)
  {
    var n := |w|;
    var bare := w[a := 0][b := 0];
    var half := w[a := 0];
    CostDiffers(w, l, half, l, a, n);
    CostDiffers(half, l, bare, l, b, n);
    CostDiffers(bare, l, Merged(w, a, b), l[a := l[b] - 1], a, n);
    Telescoped(w[a], w[b], l[a], l[b]);
  }

  lemma Telescoped(x: nat, y: nat, p: nat, q: nat)
    requires 0 < q <= p
    ensures (x + y) * (q - 1) + x + y <= x * p + y * q
  {
    Distribute(x, y, q - 1);
    assert x * (p - q) >= 0;
  }

  /** Whatever is feasible for w0 costs at least c more than something feasible for w. */
  ghost predicate Reduces(w0: seq<nat>, w: seq<nat>, c: nat) {
    |w0| == |w| &&
    forall l0: seq<nat>, s0: nat :: Kraft(w0, l0, s0) ==>
      exists l: seq<nat>, s: nat :: Kraft(w, l, s) && Cost(w, l) + c <= Cost(w0, l0)
  }

  lemma ReducesInitially(w: seq<nat>)
    ensures Reduces(w, w, 0)
  {}

  /** Each merge of the two lightest adds exactly their weight to the lower bound. */
  lemma ReducesFurther(w0: seq<nat>, w: seq<nat>, c: nat, a: nat, b: nat)
    requires Reduces(w0, w, c) && Lightest(w, a, b)
    ensures Reduces(w0, Merged(w, a, b), c + w[a] + w[b])
  {
    var w' := Merged(w, a, b);
    forall l0: seq<nat>, s0: nat | Kraft(w0, l0, s0)
      ensures exists l: seq<nat>, s: nat :: Kraft(w', l, s) && Cost(w', l) + (c + w[a] + w[b]) <= Cost(w0, l0)
    {
      hide Cost, Units, Pow2;
      var l: seq<nat>, s: nat :| Kraft(w, l, s) && Cost(w, l) + c <= Cost(w0, l0);
      var l' := LightestLongest(w, l, s, a, b);
      MergeLengths(w, l', s, a, b);
    }
  }

  /** The lower bound reached: no Kraft assignment for w0 costs less than c. */
  lemma LowerBound(w0: seq<nat>, w: seq<nat>, c: nat, l0: seq<nat>, s0: nat)
    requires Reduces(w0, w, c) && Kraft(w0, l0, s0)
    ensures c <= Cost(w0, l0)
  {
    var l: seq<nat>, s: nat :| Kraft(w, l, s) && Cost(w, l) + c <= Cost(w0, l0);
  }
}
