/** From the image to the file and back: the scans that the coefficient controller hands to the entropy
    coder for an accepted script give a decoder the image's blocks as far as the script sends them. */
module ScanImage {
  import opened Arithmetic
  import opened Coefficients
  import opened Geometry
  import opened McuLayout
  import opened ProgressiveImage
  import opened ScanVisits

  // ----- what lies at the places visited -----

  /** The padded component's block at a place. */
  function BlockOf(k: Layout, q: Ref): Block
    requires k.Ok()
  {
    if q.c < |k.im.comps| then Padded(k.planes[q.c], k.im.comps[q.c], q.b.row, q.b.col) else Dummy(0)
  }

  function Blocks(k: Layout, refs: seq<Ref>): (b: seq<Block>)
    requires k.Ok()
    ensures |b| == |refs|
  {
    seq(|refs|, j requires 0 <= j < |refs| => BlockOf(k, refs[j]))
  }

  function AllBlocks(k: Layout, visits: Visits): (m: seq<seq<Block>>)
    requires k.Ok()
    ensures |m| == |visits|
  {
    seq(|visits|, i requires 0 <= i < |visits| => Blocks(k, visits[i]))
  }

  lemma BlocksConcat(k: Layout, a: seq<Ref>, b: seq<Ref>)
    requires k.Ok()
    ensures Blocks(k, a + b) == Blocks(k, a) + Blocks(k, b)
  {
    hide BlockOf;
  }

  lemma AllBlocksConcat(k: Layout, a: Visits, b: Visits)
    requires k.Ok()
    ensures AllBlocks(k, a + b) == AllBlocks(k, a) + AllBlocks(k, b)
  {
    hide Blocks;
  }

  lemma {:induction false} RowBlocksAre(k: Layout, ci: nat, row: nat, col: nat, w: nat)
    requires k.Ok() && ci < |k.im.comps|
    ensures RowBlocks(k.planes[ci], k.im.comps[ci], row, col, w) == Blocks(k, RowRefs(ci, row, col, w))
  {
    hide Padded;
    if w > 0 {
      RowBlocksAre(k, ci, row, col, w - 1);
      BlocksConcat(k, RowRefs(ci, row, col, w - 1), [Ref(ci, Spot(row, col + (w - 1)))]);
    }
  }

  lemma {:induction false} CompBlocksAre(k: Layout, ci: nat, row: nat, col: nat, w: nat, m: nat)
    requires k.Ok() && ci < |k.im.comps|
    ensures CompBlocks(k.planes[ci], k.im.comps[ci], row, col, w, m) == Blocks(k, CompRefs(ci, row, col, w, m))
  {
    hide RowBlocks, RowRefs, Blocks;
    if m > 0 {
      CompBlocksAre(k, ci, row, col, w, m - 1);
      RowBlocksAre(k, ci, row + (m - 1), col, w);
      BlocksConcat(k, CompRefs(ci, row, col, w, m - 1), RowRefs(ci, row + (m - 1), col, w));
    } else {
      assert Blocks(k, []) == [];
    }
  }

  /** The row of MCUs at which iMCU row r starts. */
  function FirstRow(k: Layout, r: nat): nat
    requires k.Ok()
  {
    if k.Interleaved() then r else r * k.Comp(0).v
  }

  lemma SameTop(k: Layout, r: nat, y: nat, i: nat)
    requires k.Ok() && y < k.Rows(r) && i < |k.which|
    ensures (FirstRow(k, r) + y) * k.H(i) == r * k.Comp(i).v + y
  {
    hide LastOf;
  }

  lemma {:induction false} McuBlocksAre(k: Layout, r: nat, y: nat, x: nat, n: nat)
    requires k.Ok() && y < k.Rows(r) && n <= |k.which|
    ensures k.McuPart(r, y, x, n) == Blocks(k, McuRefs(k, FirstRow(k, r) + y, x, n))
  {
    hide CompBlocks, CompRefs, Blocks, Layout.Rows, FirstRow, Layout.H, Layout.W;
    if n == 0 {
      assert Blocks(k, []) == [];
    } else {
      var my := FirstRow(k, r) + y;
      McuBlocksAre(k, r, y, x, n - 1);
      SameTop(k, r, y, n - 1);
      CompBlocksAre(k, k.which[n - 1], my * k.H(n - 1), x * k.W(n - 1), k.W(n - 1), k.H(n - 1));
      BlocksConcat(k, McuRefs(k, my, x, n - 1), CompRefs(k.which[n - 1], my * k.H(n - 1), x * k.W(n - 1), k.W(n - 1), k.H(n - 1)));
    }
  }

  lemma AllBlocksSingle(k: Layout, refs: seq<Ref>)
    requires k.Ok()
    ensures AllBlocks(k, [refs]) == [Blocks(k, refs)] && AllBlocks(k, []) == []
  {
    hide Blocks;
  }

  lemma {:induction false} RowMcusAre(k: Layout, r: nat, y: nat, n: nat)
    requires k.Ok() && y < k.Rows(r)
    ensures k.RowMcus(r, y, n) == AllBlocks(k, VisitRow(k, FirstRow(k, r) + y, n))
  {
    hide Layout.McuPart, McuRefs, Blocks, AllBlocks, Layout.Rows, FirstRow;
    AllBlocksSingle(k, []);
    if n > 0 {
      var my := FirstRow(k, r) + y;
      var refs := McuRefs(k, my, n - 1, |k.which|);
      RowMcusAre(k, r, y, n - 1);
      McuBlocksAre(k, r, y, n - 1, |k.which|);
      AllBlocksConcat(k, VisitRow(k, my, n - 1), [refs]);
      AllBlocksSingle(k, refs);
    }
  }

  lemma RowsAddUp(k: Layout, r: nat)
    requires k.Ok() && r < k.im.totalRows
    ensures FirstRow(k, r) + k.Rows(r) == if r + 1 < k.im.totalRows then FirstRow(k, r + 1) else Down(k)
  {
    hide LastOf, CeilDiv;
    var c := k.Comp(0);
    assert k.im.ComponentOk(c);
    McusHoldBlocks(k.im, c);
    Distribute(r, 1, c.v);
  }

  /** The MCUs accepted so far hold the blocks at the places visited so far. */
  lemma {:induction false} RowsSoFar(k: Layout, r: nat, y: nat)
    requires k.Ok() && r < k.im.totalRows && y <= k.Rows(r)
    ensures k.Before(r) + k.IRowMcus(r, y) == AllBlocks(k, VisitRows(k, FirstRow(k, r) + y))
    decreases r, y
  {
    hide Layout.RowMcus, VisitRow, AllBlocks, Layout.Rows, FirstRow, Layout.Across;
    if y > 0 {
      var my := FirstRow(k, r) + (y - 1);
      RowsSoFar(k, r, y - 1);
      RowMcusAre(k, r, y - 1, k.Across());
      AllBlocksConcat(k, VisitRows(k, my), VisitRow(k, my, k.Across()));
      AppendRow(k.Before(r), k.IRowMcus(r, y - 1), k.RowMcus(r, y - 1, k.Across()));
    } else if r > 0 {
      RowsSoFar(k, r - 1, k.Rows(r - 1));
      RowsAddUp(k, r - 1);
      assert k.Before(r) + [] == k.Before(r);
    } else {
      AllBlocksSingle(k, []);
      FirstIsZero(k);
    }
  }

  lemma AppendRow(a: seq<seq<Block>>, b: seq<seq<Block>>, c: seq<seq<Block>>)
    ensures a + (b + c) == a + b + c
  {}

  lemma FirstIsZero(k: Layout)
    requires k.Ok()
    ensures FirstRow(k, 0) == 0
  {}

  lemma HasRows(k: Layout)
    requires k.Ok()
    ensures k.im.totalRows >= 1
  {
    hide LastOf, CeilDiv;
    assert k.im.ComponentOk(k.Comp(0));
    McusHoldBlocks(k.im, k.Comp(0));
  }

  /** A whole pass hands over the blocks at the scan's places, in the order of the visits. */
  lemma PassVisitsAll(k: Layout)
    requires k.Ok()
    ensures k.Before(k.im.totalRows) == AllBlocks(k, LayoutVisits(k))
  {
    hide Layout.Rows, FirstRow, Down, VisitRows, AllBlocks, Layout.IRowMcus;
    HasRows(k);
    var r := k.im.totalRows - 1;
    RowsSoFar(k, r, k.Rows(r));
    RowsAddUp(k, r);
  }
}
