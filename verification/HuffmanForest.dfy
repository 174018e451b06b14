/** The forest that the merge loop keeps in its linked chains: one tree per nonzero
    frequency, whose leaves are the chain and whose leaf depths are the code sizes. */
module HuffmanForest {
  import opened Bits
  import opened CodeLengths

  const ALPHABET := 257       // 256 real symbols and the pseudo-symbol 256

  datatype Tree = Leaf(sym: nat) | Node(left: Tree, right: Tree)

  function Leaves(t: Tree): (s: seq<nat>)
    ensures |s| > 0
  {
    match t
    case Leaf(x) => [x]
    case Node(l, r) => Leaves(l) + Leaves(r)
  }

  /** Every leaf's code size is its depth in the tree, counted from d. */
  ghost predicate Depths(t: Tree, cs: seq<nat>, d: nat) {
    match t
    case Leaf(x) => x < |cs| && cs[x] == d
    case Node(l, r) => Depths(l, cs, d + 1) && Depths(r, cs, d + 1)
  }

  ghost predicate Distinct(s: seq<nat>) {
    forall i, j :: 0 <= i < j < |s| ==> s[i] != s[j]
  }

  /** The others[] array links the chain in order and ends it with -1. */
  ghost predicate Linked(chain: seq<nat>, others: seq<int>) {
    && (forall j :: 0 <= j < |chain| ==> chain[j] < |others|)
    && (forall j :: 0 <= j < |chain| - 1 ==> others[chain[j]] == chain[j + 1])
    && (chain != [] ==> others[chain[|chain| - 1]] == -1)
  }

  /** owner[i] is the chain that symbol i is on, -1 when it has no weight. */
  datatype Forest = Forest(owner: seq<int>, trees: seq<Tree>)

  function WeightOf(w0: seq<nat>, owner: seq<int>, c: int, n: nat): nat
    requires n <= |w0| == |owner|
  {
    if n == 0 then 0 else WeightOf(w0, owner, c, n - 1) + (if owner[n - 1] == c then w0[n - 1] else 0)
  }

  /** The chain and tree of root c. */
  ghost predicate TreeOk(t: Tree, c: nat, cs: seq<nat>, others: seq<int>, owner: seq<int>) {
    && Leaves(t)[0] == c && Distinct(Leaves(t)) && Linked(Leaves(t), others) && Depths(t, cs, 0)
    && (forall i :: 0 <= i < |owner| ==> (owner[i] == c <==> i in Leaves(t)))
    && (forall i :: i in Leaves(t) ==> i < |owner|)
  }

  ghost predicate Sizes(w0: seq<nat>, w: seq<nat>, cs: seq<nat>, others: seq<int>, f: Forest) {
    |w0| == |w| == |cs| == |others| == |f.owner| == |f.trees| == ALPHABET
  }

  ghost predicate OwnersOk(w0: seq<nat>, w: seq<nat>, owner: seq<int>) {
    && |w0| == |w| == |owner| == ALPHABET
    && (forall i :: 0 <= i < ALPHABET ==> (w0[i] > 0 <==> owner[i] >= 0))
    && (forall i :: 0 <= i < ALPHABET && owner[i] >= 0 ==> owner[i] < ALPHABET && w[owner[i]] > 0)
    && (forall c :: 0 <= c < ALPHABET && w[c] > 0 ==> owner[c] == c && w[c] == WeightOf(w0, owner, c, ALPHABET))
  }

  /** The chains are acyclic, disjoint, one per nonzero frequency, and partition the live symbols. */
  ghost predicate ForestOk(w0: seq<nat>, w: seq<nat>, cs: seq<nat>, others: seq<int>, f: Forest) {
    && Sizes(w0, w, cs, others, f)
    && OwnersOk(w0, w, f.owner)
    && (forall c :: 0 <= c < ALPHABET && w[c] > 0 ==> TreeOk(f.trees[c], c, cs, others, f.owner))
    && (forall i :: 0 <= i < ALPHABET && w0[i] == 0 ==> cs[i] == 0)
  }

  function Singletons(w0: seq<nat>): Forest {
    Forest(seq(|w0|, i requires 0 <= i < |w0| => if w0[i] > 0 then i else -1), seq(|w0|, (i: nat) => Leaf(i)))
  }

  lemma {:induction false} OwnWeight(w0: seq<nat>, c: nat, n: nat)
    requires n <= |w0| && c < |w0|
    ensures w0[c] > 0 ==> WeightOf(w0, Singletons(w0).owner, c, n) == if c < n then w0[c] else 0
  {
    if n > 0 {
      OwnWeight(w0, c, n - 1);
    }
  }

  lemma ForestInitially(w0: seq<nat>, cs: seq<nat>, others: seq<int>)
    requires |w0| == |cs| == |others| == ALPHABET
    requires forall i :: 0 <= i < ALPHABET ==> cs[i] == 0 && others[i] == -1
    ensures ForestOk(w0, w0, cs, others, Singletons(w0))
  {
    forall c | 0 <= c < ALPHABET && w0[c] > 0
      ensures w0[c] == WeightOf(w0, Singletons(w0).owner, c, ALPHABET)
    {
      OwnWeight(w0, c, ALPHABET);
    }
  }

  // ----- one merge -----

  function Bumped(cs: seq<nat>, chain: seq<nat>): (r: seq<nat>)
    ensures |r| == |cs|
  {
    seq(|cs|, i requires 0 <= i < |cs| => if i in chain then cs[i] + 1 else cs[i])
  }

  function Joined(f: Forest, a: nat, b: nat): (f': Forest)
    requires a < |f.trees| && b < |f.trees|
    ensures |f'.trees| == |f.trees|
  {
    Forest(seq(|f.owner|, i requires 0 <= i < |f.owner| => if f.owner[i] == b then a else f.owner[i]),
           f.trees[a := Node(f.trees[a], f.trees[b])])
  }

  lemma {:induction false} DepthsBumped(t: Tree, cs: seq<nat>, chain: seq<nat>, d: nat)
    requires Depths(t, cs, d) && forall i :: i in Leaves(t) ==> i in chain
    ensures Depths(t, Bumped(cs, chain), d + 1)
  {
    if t.Node? {
      DepthsBumped(t.left, cs, chain, d + 1);
      DepthsBumped(t.right, cs, chain, d + 1);
    }
  }

  lemma {:induction false} DepthsKept(t: Tree, cs: seq<nat>, chain: seq<nat>, d: nat)
    requires Depths(t, cs, d) && forall i :: i in Leaves(t) ==> i !in chain
    ensures Depths(t, Bumped(cs, chain), d)
  {
    if t.Node? {
      DepthsKept(t.left, cs, chain, d + 1);
      DepthsKept(t.right, cs, chain, d + 1);
    }
  }

  lemma {:induction false} WeightJoined(w0: seq<nat>, owner: seq<int>, owner': seq<int>, a: nat, b: nat, c: nat, n: nat)
    requires n <= |w0| == |owner| == |owner'| && a != b
    requires forall i :: 0 <= i < |owner| ==> owner'[i] == if owner[i] == b then a else owner[i]
    ensures WeightOf(w0, owner', a, n) == WeightOf(w0, owner, a, n) + WeightOf(w0, owner, b, n)
    ensures c != a && c != b ==> WeightOf(w0, owner', c, n) == WeightOf(w0, owner, c, n)
  {
    if n > 0 {
      WeightJoined(w0, owner, owner', a, b, c, n - 1);
    }
  }

  lemma OwnersJoined(w0: seq<nat>, w: seq<nat>, f: Forest, a: nat, b: nat)
    requires OwnersOk(w0, w, f.owner) && |f.trees| == ALPHABET
    requires a < ALPHABET && b < ALPHABET && a != b && w[a] > 0 && w[b] > 0
    ensures OwnersOk(w0, Merged(w, a, b), Joined(f, a, b).owner)
  {
    var w', owner' := Merged(w, a, b), Joined(f, a, b).owner;
    forall c | 0 <= c < ALPHABET && w'[c] > 0
      ensures owner'[c] == c && w'[c] == WeightOf(w0, owner', c, ALPHABET)
    {
      WeightJoined(w0, f.owner, owner', a, b, c, ALPHABET);
    }
  }

  lemma LinkedJoined(p: seq<nat>, q: seq<nat>, others: seq<int>)
    requires |p| > 0 && |q| > 0 && Linked(p, others) && Linked(q, others)
    requires Distinct(p) && Distinct(q) && forall i :: i in p ==> i !in q
    ensures Linked(p + q, others[p[|p| - 1] := q[0]]) && Distinct(p + q)
  {
    var last, others', r := p[|p| - 1], others[p[|p| - 1] := q[0]], p + q;
    forall j | 0 <= j < |q|
      ensures q[j] != last
    {
      assert last in p && q[j] in q;
    }
    forall j | 0 <= j < |r| - 1
      ensures r[j] < |others| && others'[r[j]] == r[j + 1]
    {
      if j >= |p| {
        assert r[j] == q[j - |p|] && r[j + 1] == q[j - |p| + 1];
      } else if j < |p| - 1 {
        assert r[j] == p[j] != last && r[j + 1] == p[j + 1];
      } else {
        assert r[j] == last && r[j + 1] == q[0];
      }
    }
    assert r[|r| - 1] == q[|q| - 1];
    assert Linked(r, others');
    forall i, j | 0 <= i < j < |p + q|
      ensures (p + q)[i] != (p + q)[j]
    {
      if i < |p| <= j {
        assert p[i] in p && q[j - |p|] in q;
      }
    }
  }

  /** A chain that does not contain k is not affected by relinking k. */
  lemma LinkedKept(p: seq<nat>, others: seq<int>, k: nat, v: int)
    requires Linked(p, others) && k < |others| && k !in p
    ensures Linked(p, others[k := v])
  {}

  lemma JoinedTree(f: Forest, cs: seq<nat>, others: seq<int>, a: nat, b: nat)
    requires |f.owner| == |f.trees| && a < |f.trees| && b < |f.trees| && a != b
    requires TreeOk(f.trees[a], a, cs, others, f.owner) && TreeOk(f.trees[b], b, cs, others, f.owner)
    ensures var p, q := Leaves(f.trees[a]), Leaves(f.trees[b]);
            && p[|p| - 1] < |others|
            && TreeOk(Node(f.trees[a], f.trees[b]), a, Bumped(cs, p + q), others[p[|p| - 1] := b], Joined(f, a, b).owner)
  {
    var s, t := f.trees[a], f.trees[b];
    var p, q := Leaves(s), Leaves(t);
    forall i | i in p
      ensures i !in q
    {
      assert f.owner[i] == a;
    }
    LinkedJoined(p, q, others);
    DepthsBumped(s, cs, p + q, 0);
    DepthsBumped(t, cs, p + q, 0);
  }

  lemma OtherTree(f: Forest, cs: seq<nat>, others: seq<int>, a: nat, b: nat, c: nat)
    requires |f.owner| == |f.trees| && a < |f.trees| && b < |f.trees| && c < |f.trees| && c != a && c != b
    requires TreeOk(f.trees[a], a, cs, others, f.owner) && TreeOk(f.trees[b], b, cs, others, f.owner)
    requires TreeOk(f.trees[c], c, cs, others, f.owner)
    ensures var p, q := Leaves(f.trees[a]), Leaves(f.trees[b]);
            && p[|p| - 1] < |others|
            && TreeOk(f.trees[c], c, Bumped(cs, p + q), others[p[|p| - 1] := b], Joined(f, a, b).owner)
  {
    var p, q, r := Leaves(f.trees[a]), Leaves(f.trees[b]), Leaves(f.trees[c]);
    forall i | i in r
      ensures i !in p + q
    {
      assert f.owner[i] == c;
    }
    LinkedKept(r, others, p[|p| - 1], b);
    DepthsKept(f.trees[c], cs, p + q, 0);
  }

  /** A round of the merge loop keeps the forest. */
  lemma ForestJoined(w0: seq<nat>, w: seq<nat>, cs: seq<nat>, others: seq<int>, f: Forest, a: nat, b: nat)
    requires ForestOk(w0, w, cs, others, f)
    requires a < ALPHABET && b < ALPHABET && a != b && w[a] > 0 && w[b] > 0
    ensures var p, q := Leaves(f.trees[a]), Leaves(f.trees[b]);
            && p[|p| - 1] < |others|
            && ForestOk(w0, Merged(w, a, b), Bumped(cs, p + q), others[p[|p| - 1] := b], Joined(f, a, b))
  {
    hide OwnersOk, Leaves, Depths, Linked, Distinct, TreeOk;
    var p, q := Leaves(f.trees[a]), Leaves(f.trees[b]);
    var w', cs', f' := Merged(w, a, b), Bumped(cs, p + q), Joined(f, a, b);
    OwnersJoined(w0, w, f, a, b);
    JoinedTree(f, cs, others, a, b);
    forall c | 0 <= c < ALPHABET && w'[c] > 0
      ensures TreeOk(f'.trees[c], c, cs', others[p[|p| - 1] := b], f'.owner)
    {
      if c != a {
        OtherTree(f, cs, others, a, b, c);
      }
    }
    LiveOnly(w0, w, cs, others, f, a, b);
  }

  lemma LiveOnly(w0: seq<nat>, w: seq<nat>, cs: seq<nat>, others: seq<int>, f: Forest, a: nat, b: nat)
    requires ForestOk(w0, w, cs, others, f)
    requires a < ALPHABET && b < ALPHABET && w[a] > 0 && w[b] > 0
    ensures forall i :: 0 <= i < ALPHABET && w0[i] == 0 ==> i !in Leaves(f.trees[a]) + Leaves(f.trees[b])
  {
    hide Leaves, Depths, Linked, Distinct;
    assert TreeOk(f.trees[a], a, cs, others, f.owner) && TreeOk(f.trees[b], b, cs, others, f.owner);
  }

  /** Lengthening the codes of chains a and b by one adds their weights to the total size. */
  lemma {:induction false} CostBumped(w0: seq<nat>, cs: seq<nat>, owner: seq<int>, chain: seq<nat>, a: nat, b: nat, n: nat)
    requires n <= |w0| == |cs| == |owner| && a != b
    requires forall i :: 0 <= i < |owner| ==> (i in chain <==> owner[i] == a || owner[i] == b)
    ensures CostUpTo(w0, Bumped(cs, chain), n)
         == CostUpTo(w0, cs, n) + WeightOf(w0, owner, a, n) + WeightOf(w0, owner, b, n)
  {
    if n > 0 {
      CostBumped(w0, cs, owner, chain, a, b, n - 1);
      var i := n - 1;
      assert w0[i] * (cs[i] + 1) == w0[i] * cs[i] + w0[i];
    }
  }

  // ----- the finished tree -----

  /** A leaf list's share of the code space. */
  function LeafUnits(t: Tree, cs: seq<nat>, scale: nat): nat {
    match t
    case Leaf(x) => if x < |cs| && cs[x] <= scale then Pow2(scale - cs[x]) else 0
    case Node(l, r) => LeafUnits(l, cs, scale) + LeafUnits(r, cs, scale)
  }

  lemma {:induction false} DepthAtLeast(t: Tree, cs: seq<nat>, d: nat)
    requires Depths(t, cs, d)
    ensures Leaves(t)[0] < |cs| && d <= cs[Leaves(t)[0]]
  {
    if t.Node? {
      DepthAtLeast(t.left, cs, d + 1);
    }
  }

  /** A full binary tree uses up the code space of its root exactly. */
  lemma {:induction false} TreeIsFull(t: Tree, cs: seq<nat>, d: nat, scale: nat)
    requires Depths(t, cs, d)
    requires forall i :: i in Leaves(t) ==> i < |cs| && cs[i] <= scale
    ensures d <= scale && LeafUnits(t, cs, scale) == Pow2(scale - d)
  {
    DepthAtLeast(t, cs, d);
    assert Leaves(t)[0] in Leaves(t);
    if t.Node? {
      assert Leaves(t) == Leaves(t.left) + Leaves(t.right);
      forall i | i in Leaves(t.left) || i in Leaves(t.right)
        ensures i < |cs| && cs[i] <= scale
      {
        assert i in Leaves(t);
      }
      TreeIsFull(t.left, cs, d + 1, scale);
      TreeIsFull(t.right, cs, d + 1, scale);
    }
  }

  function Restrict(w: seq<nat>, on: seq<nat>): (r: seq<nat>)
    ensures |r| == |w|
  {
    seq(|w|, i requires 0 <= i < |w| => if i in on then w[i] else 0)
  }

  lemma {:induction false} RestrictSplit(w: seq<nat>, l: seq<nat>, scale: nat, p: seq<nat>, q: seq<nat>, n: nat)
    requires n <= |w| == |l| && forall i :: i in p ==> i !in q
    ensures Units(Restrict(w, p + q), l, scale, n) == Units(Restrict(w, p), l, scale, n) + Units(Restrict(w, q), l, scale, n)
  {
    if n > 0 {
      RestrictSplit(w, l, scale, p, q, n - 1);
    }
  }

  lemma {:induction false} RestrictOne(w: seq<nat>, l: seq<nat>, scale: nat, x: nat, n: nat)
    requires n <= |w| == |l| && x < |w|
    ensures Units(Restrict(w, [x]), l, scale, n) == if x < n then Share(w, l, scale, x) else 0
  {
    if n > 0 {
      RestrictOne(w, l, scale, x, n - 1);
    }
  }

  lemma {:induction false} LeafUnitsByIndex(t: Tree, w: seq<nat>, cs: seq<nat>, scale: nat)
    requires |w| == |cs| && Distinct(Leaves(t)) && forall i :: i in Leaves(t) ==> i < |w| && w[i] > 0
    ensures LeafUnits(t, cs, scale) == Units(Restrict(w, Leaves(t)), cs, scale, |w|)
  {
    match t
    case Leaf(x) =>
      assert x in Leaves(t);
      RestrictOne(w, cs, scale, x, |w|);
    case Node(l, r) =>
      SplitLeaves(Leaves(l), Leaves(r));
      LeafUnitsByIndex(l, w, cs, scale);
      LeafUnitsByIndex(r, w, cs, scale);
      RestrictSplit(w, cs, scale, Leaves(l), Leaves(r), |w|);
  }

  lemma SplitLeaves(p: seq<nat>, q: seq<nat>)
    requires Distinct(p + q)
    ensures Distinct(p) && Distinct(q) && (forall i :: i in p ==> i !in q)
    ensures forall i :: i in p || i in q ==> i in p + q
  {
    forall i, j | 0 <= i < j < |p|
      ensures p[i] != p[j]
    {
      assert (p + q)[i] == p[i] && (p + q)[j] == p[j];
    }
    forall i, j | 0 <= i < j < |q|
      ensures q[i] != q[j]
    {
      assert (p + q)[|p| + i] == q[i] && (p + q)[|p| + j] == q[j];
    }
    forall i, j | 0 <= i < |p| && 0 <= j < |q|
      ensures p[i] != q[j]
    {
      assert (p + q)[i] == p[i] && (p + q)[|p| + j] == q[j];
    }
  }

  /** When one root c is left, its tree holds all live symbols and fills the code space. */
  lemma FinishedTree(w0: seq<nat>, w: seq<nat>, cs: seq<nat>, others: seq<int>, f: Forest, c: nat, scale: nat)
    requires ForestOk(w0, w, cs, others, f)
    requires c < ALPHABET && w[c] > 0 && forall i :: 0 <= i < ALPHABET && i != c ==> w[i] == 0
    requires forall i :: 0 <= i < ALPHABET && w0[i] > 0 ==> cs[i] <= scale
    ensures forall i :: 0 <= i < ALPHABET ==> (i in Leaves(f.trees[c]) <==> w0[i] > 0)
    ensures Depths(f.trees[c], cs, 0) && Distinct(Leaves(f.trees[c]))
    ensures Units(w0, cs, scale, ALPHABET) == Pow2(scale)
  {
    hide Leaves, Depths, Linked, Units, Pow2;
    var t := f.trees[c];
    assert TreeOk(t, c, cs, others, f.owner);
    TreeIsFull(t, cs, 0, scale);
    LeafUnitsByIndex(t, w0, cs, scale);
    assert Restrict(w0, Leaves(t)) == w0;
  }

  /** With at least two live symbols, every live symbol has a code of at least one bit. */
  lemma {:induction false} DeepLeaves(t: Tree, cs: seq<nat>, d: nat, i: nat)
    requires Depths(t, cs, d) && i in Leaves(t) && (d > 0 || t.Node?)
    ensures i < |cs| && cs[i] > 0
  {
    match t
    case Leaf(x) =>
    case Node(l, r) =>
      if i in Leaves(l) {
        DeepLeaves(l, cs, d + 1, i);
      } else {
        DeepLeaves(r, cs, d + 1, i);
      }
  }
}
