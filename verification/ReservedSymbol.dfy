/** The pseudo-symbol 256, counted once: with this program's choice among ties its code is one of the longest,
    so that the code it gives up is no real symbol's. */
module ReservedSymbol {
  import opened CodeLengths
  import opened HuffmanForest
  import opened HuffmanMerge

  const RESERVED := 256

  /** The chain that symbol 256 is on, and what keeps it the deepest: no code is longer than its code; a chain as deep
      is at least as heavy, and heavier once the chain is no longer 256's own; and no two others weigh less together. */
  ghost predicate Deepest(w: seq<nat>, cs: seq<nat>, owner: seq<int>) {
    && |w| == |cs| == |owner| == ALPHABET
    && (forall i :: 0 <= i < ALPHABET && owner[i] >= 0 ==> owner[i] < ALPHABET && w[owner[i]] > 0)
    && owner[RESERVED] >= 0
    && var root := owner[RESERVED];
       && (forall i :: 0 <= i < ALPHABET && owner[i] >= 0 ==> cs[i] <= cs[RESERVED])
       && (forall i :: 0 <= i < ALPHABET && owner[i] >= 0 && owner[i] != root && cs[i] == cs[RESERVED] ==> Heavier(w, owner[i], root))
       && (forall x, y :: 0 <= x < ALPHABET && 0 <= y < ALPHABET && x != y && x != root && y != root && w[x] > 0 && w[y] > 0 ==>
             Apart(w, cs, owner, x, y, root))
  }

  ghost predicate Heavier(w: seq<nat>, x: int, root: int)
    requires 0 <= x < |w| && 0 <= root < |w|
  {
    w[x] >= w[root] && (root != RESERVED ==> w[x] > w[root])
  }

  /** Chains x and y together weigh as much as the root's; when they weigh no more, they are two levels less deep. */
  ghost predicate Apart(w: seq<nat>, cs: seq<nat>, owner: seq<int>, x: int, y: int, root: int)
    requires |w| == |cs| == |owner| == ALPHABET && 0 <= x < |w| && 0 <= y < |w| && 0 <= root < |w|
  {
    && w[x] + w[y] >= w[root]
    && (root != RESERVED && w[x] + w[y] == w[root] ==>
          forall i :: 0 <= i < ALPHABET && (owner[i] == x || owner[i] == y) ==> cs[i] + 1 < cs[RESERVED])
  }

  /** The first and the second choice of a round. */
  ghost predicate Chosen(w: seq<nat>, a: nat, b: nat) {
    && |w| == ALPHABET && a < ALPHABET && b < ALPHABET && a != b && w[a] > 0 && w[b] > 0
    && (forall i :: 0 <= i < ALPHABET && w[i] > 0 ==> w[a] <= w[i] && (i > a ==> w[a] < w[i]))
    && (forall i :: 0 <= i < ALPHABET && w[i] > 0 && i != a ==> w[b] <= w[i] && (i > b ==> w[b] < w[i]))
  }

  /** The larger symbol number wins a tie. */
  lemma {:induction false} PickedLast(w: seq<nat>, skip: int, n: nat)
    requires n <= |w| && forall i :: 0 <= i < n ==> w[i] <= FREQ_LIMIT
    ensures var c := Picked(w, skip, n);
            && (c < 0 ==> forall i :: 0 <= i < n && i != skip ==> w[i] == 0)
            && (c >= 0 ==> forall i :: 0 <= i < n && i != skip && w[i] > 0 ==> w[c] <= w[i] && (i > c ==> w[c] < w[i]))
  {
    if n > 0 {
      PickedLast(w, skip, n - 1);
    }
  }

  lemma DeepestInitially(w0: seq<nat>)
    requires |w0| == ALPHABET && w0[RESERVED] == 1
    ensures Deepest(w0, seq(ALPHABET, _ => 0), Singletons(w0).owner)
  {}

  /** Chains a and b become one, and their codes longer. */
  ghost predicate OneRound(w: seq<nat>, cs: seq<nat>, owner: seq<int>, a: nat, b: nat, cs': seq<nat>, owner': seq<int>) {
    && |w| == |cs| == |owner| == |cs'| == |owner'| == ALPHABET && a < ALPHABET && b < ALPHABET
    && (forall i :: 0 <= i < ALPHABET ==> cs'[i] == if owner[i] == a || owner[i] == b then cs[i] + 1 else cs[i])
    && (forall i :: 0 <= i < ALPHABET ==> owner'[i] == if owner[i] == b then a as int else owner[i])
  }

  /** Two other chains are merged: they were lighter and so less deep. */
  lemma OthersMerged(w: seq<nat>, cs: seq<nat>, owner: seq<int>, a: nat, b: nat, cs': seq<nat>, owner': seq<int>)
    requires Deepest(w, cs, owner) && Chosen(w, a, b) && OneRound(w, cs, owner, a, b, cs', owner')
    requires owner[RESERVED] != a && owner[RESERVED] != b
    ensures Deepest(Merged(w, a, b), cs', owner')
  {
    var root, w' := owner[RESERVED], Merged(w, a, b);
    assert Apart(w, cs, owner, a, b, root);
    forall i | 0 <= i < ALPHABET && (owner[i] == a || owner[i] == b)
      ensures cs[i] < cs[RESERVED]
    {
      assert w[owner[i]] <= w[root];
    }
    forall x, y | 0 <= x < ALPHABET && 0 <= y < ALPHABET && x != y && x != root && y != root && w'[x] > 0 && w'[y] > 0
      ensures Apart(w', cs', owner', x, y, root)
    {
      if x != a && y != a {
        assert Apart(w, cs, owner, x, y, root);
      }
    }
  }

  /** The chain of 256 is merged with another: it is deeper than all others now. */
  lemma ReservedMerged(w: seq<nat>, cs: seq<nat>, owner: seq<int>, a: nat, b: nat, cs': seq<nat>, owner': seq<int>)
    requires Deepest(w, cs, owner) && Chosen(w, a, b) && OneRound(w, cs, owner, a, b, cs', owner')
    requires owner[RESERVED] == a || owner[RESERVED] == b
    ensures Deepest(Merged(w, a, b), cs', owner')
  {
    var root, w' := owner[RESERVED], Merged(w, a, b);
    forall x, y | 0 <= x < ALPHABET && 0 <= y < ALPHABET && x != y && x != a && y != a && w'[x] > 0 && w'[y] > 0
      ensures Apart(w', cs', owner', x, y, a)
    {
      assert w[b] <= w[x] && w[b] <= w[y] && w[a] <= w[b];
      if a != RESERVED && w[x] + w[y] == w'[a] {
        forall i | 0 <= i < ALPHABET && (owner'[i] == x || owner'[i] == y)
          ensures cs'[i] + 1 < cs'[RESERVED]
        {
          assert w[owner[i]] == w[root];
        }
      }
    }
  }

  lemma {:induction false} StaysDeepest(w0: seq<nat>, w: seq<nat>, cs: seq<nat>, others: seq<int>, f: Forest)
    requires MergeState(w0, w, cs, others, f) && Deepest(w, cs, f.owner)
    ensures |w| == |f.trees| == ALPHABET && |FinalSizes(w, cs, f)| == ALPHABET
    ensures forall i :: 0 <= i < ALPHABET ==> FinalSizes(w, cs, f)[i] <= FinalSizes(w, cs, f)[RESERVED]
    decreases LiveCount(w, ALPHABET)
  {
    hide MergeState, Merged, Bumped, Joined, Leaves, Picked, LiveCount, Deepest, Chosen;
    StateSizes(w0, w, cs, others, f);
    PickedLast(w, -1, ALPHABET);
    var a := Picked(w, -1, ALPHABET);
    PickedLast(w, a, ALPHABET);
    var b := Picked(w, a, ALPHABET);
    if b < 0 {
      NoneLonger(w0, w, cs, others, f);
    } else {
      PickedChosen(w, a, b);
      var p, q := Leaves(f.trees[a]), Leaves(f.trees[b]);
      RoundOf(w0, w, cs, others, f, a, b);
      if f.owner[RESERVED] == a || f.owner[RESERVED] == b {
        ReservedMerged(w, cs, f.owner, a, b, Bumped(cs, p + q), Joined(f, a, b).owner);
      } else {
        OthersMerged(w, cs, f.owner, a, b, Bumped(cs, p + q), Joined(f, a, b).owner);
      }
      MergeRound(w0, w, cs, others, f, a, b);
      MergeCounts'(w, a, b);
      StaysDeepest(w0, Merged(w, a, b), Bumped(cs, p + q), others[p[|p| - 1] := b], Joined(f, a, b));
    }
  }

  lemma PickedChosen(w: seq<nat>, a: nat, b: nat)
    requires |w| == ALPHABET && a == Picked(w, -1, ALPHABET) && b == Picked(w, a, ALPHABET)
    requires forall i :: 0 <= i < ALPHABET ==> w[i] <= FREQ_LIMIT
    ensures Chosen(w, a, b) && Lightest(w, a, b)
  {
    hide Picked;
    PickedLast(w, -1, ALPHABET);
    PickedLast(w, a, ALPHABET);
  }

  /** Symbols without a count have no code, and all others are on a chain. */
  lemma NoneLonger(w0: seq<nat>, w: seq<nat>, cs: seq<nat>, others: seq<int>, f: Forest)
    requires MergeState(w0, w, cs, others, f) && Deepest(w, cs, f.owner)
    ensures |cs| == ALPHABET && forall i :: 0 <= i < ALPHABET ==> cs[i] <= cs[RESERVED]
  {
    hide TreeOk, Reduces, Total, LiveCount;
  }

  lemma RoundOf(w0: seq<nat>, w: seq<nat>, cs: seq<nat>, others: seq<int>, f: Forest, a: nat, b: nat)
    requires MergeState(w0, w, cs, others, f) && Chosen(w, a, b)
    ensures |f.trees| == ALPHABET
    ensures var p, q := Leaves(f.trees[a]), Leaves(f.trees[b]);
            OneRound(w, cs, f.owner, a, b, Bumped(cs, p + q), Joined(f, a, b).owner)
  {
    hide Leaves, Linked, Distinct, Depths, Reduces, Total, LiveCount;
    assert TreeOk(f.trees[a], a, cs, others, f.owner) && TreeOk(f.trees[b], b, cs, others, f.owner);
  }

  /** No symbol's code is longer than that of the pseudo-symbol 256, whatever the counts. */
  lemma ReservedIsLongest(w0: seq<nat>)
    requires |w0| == ALPHABET && w0[RESERVED] == 1 && Total(w0, ALPHABET) <= FREQ_LIMIT
    ensures |HuffmanSizes(w0)| == ALPHABET && forall i :: 0 <= i < ALPHABET ==> HuffmanSizes(w0)[i] <= HuffmanSizes(w0)[RESERVED]
  {
    hide MergeState, Deepest, FinalSizes, Total;
    var cs, others: seq<int> := seq(ALPHABET, _ => 0), seq(ALPHABET, _ => -1);
    MergeStarts(w0, cs, others);
    DeepestInitially(w0);
    StaysDeepest(w0, w0, cs, others, Singletons(w0));
  }
}
