/** Which blocks make up each MCU, dummy blocks at the right and bottom edges included, and the order
    in which a scan's MCUs are presented. */
module McuLayout {
  import opened Arithmetic
  import opened Coefficients
  import opened Geometry

  /** A component's real blocks, row by row. */
  type Plane = seq<seq<Block>>

  /** A dummy block: all AC values zero. */
  function Dummy(dc: int): Block {
    seq(DCTSIZE2, k => if k == 0 then dc else 0)
  }

  ghost predicate PlaneOk(p: Plane, c: Component) {
    && c.h > 0 && c.v > 0 && c.widthInBlocks > 0 && |p| == c.heightInBlocks > 0
    && forall r :: 0 <= r < |p| ==> |p[r]| == c.widthInBlocks
  }

  /** The block at any position of the padded component: beyond the right edge the DC of the last real
      block in the row; below the bottom edge the DC of the last block of the MCU one row up. */
  function Padded(p: Plane, c: Component, row: nat, col: nat): Block
    requires PlaneOk(p, c)
    decreases row
  {
    if row < c.heightInBlocks then
      if col < c.widthInBlocks then p[row][col] else Dummy(p[row][c.widthInBlocks - 1][0])
    else Dummy(Padded(p, c, row - 1, (col / c.h) * c.h + (c.h - 1))[0])
  }

  /** w neighbouring blocks of a row. */
  function RowBlocks(p: Plane, c: Component, row: nat, col: nat, w: nat): (b: seq<Block>)
    requires PlaneOk(p, c)
    ensures |b| == w
  {
    if w == 0 then [] else RowBlocks(p, c, row, col, w - 1) + [Padded(p, c, row, col + (w - 1))]
  }

  /** m rows of w blocks each. */
  function CompBlocks(p: Plane, c: Component, row: nat, col: nat, w: nat, m: nat): (b: seq<Block>)
    requires PlaneOk(p, c)
  {
    if m == 0 then [] else CompBlocks(p, c, row, col, w, m - 1) + RowBlocks(p, c, row + (m - 1), col, w)
  }

  /** A scan over some components of an image whose blocks are given. */
  datatype Layout = Layout(im: Image, planes: seq<Plane>, which: seq<nat>) {
    ghost predicate Ok() {
      && im.Ok() && |planes| == |im.comps|
      && (forall ci :: 0 <= ci < |planes| ==> PlaneOk(planes[ci], im.comps[ci]))
      && |which| > 0 && forall i :: 0 <= i < |which| ==> which[i] < |im.comps|
    }

    function Interleaved(): bool { |which| > 1 }

    function Comp(i: nat): Component
      requires i < |which| && which[i] < |im.comps|
    {
      im.comps[which[i]]
    }

    /** MCU dimensions in blocks. */
    function W(i: nat): nat
      requires i < |which| && which[i] < |im.comps|
    {
      if Interleaved() then Comp(i).h else 1
    }

    function H(i: nat): nat
      requires i < |which| && which[i] < |im.comps|
    {
      if Interleaved() then Comp(i).v else 1
    }

    /** Where, in blocks, component i's part of iMCU row r starts. */
    function Top(i: nat, r: nat): nat
      requires i < |which| && which[i] < |im.comps|
    {
      r * Comp(i).v
    }

    /** Where component i's part of the MCU in column x starts. */
    function Left(i: nat, x: nat): nat
      requires i < |which| && which[i] < |im.comps|
    {
      x * W(i)
    }

    /** MCUs in a row of the scan. */
    function Across(): nat
      requires im.maxH > 0 && |which| > 0 && which[0] < |im.comps|
    {
      if Interleaved() then im.McusAcross() else Comp(0).widthInBlocks
    }

    /** MCU rows in iMCU row r. */
    function Rows(r: nat): nat
      requires |which| > 0 && which[0] < |im.comps| && Comp(0).v > 0
    {
      if Interleaved() then 1 else if r + 1 < im.totalRows then Comp(0).v else LastOf(Comp(0).heightInBlocks, Comp(0).v)
    }

    /** The first n components' blocks of the MCU in column x of MCU row y of iMCU row r. */
    function McuPart(r: nat, y: nat, x: nat, n: nat): seq<Block>
      requires Ok() && n <= |which|
    {
      if n == 0 then []
      else
        McuPart(r, y, x, n - 1)
        + CompBlocks(planes[which[n - 1]], Comp(n - 1), r * Comp(n - 1).v + y, x * W(n - 1), W(n - 1), H(n - 1))
    }

    function Mcu(r: nat, y: nat, x: nat): seq<Block>
      requires Ok()
    {
      McuPart(r, y, x, |which|)
    }

    function RowMcus(r: nat, y: nat, n: nat): seq<seq<Block>>
      requires Ok()
    {
      if n == 0 then [] else RowMcus(r, y, n - 1) + [Mcu(r, y, n - 1)]
    }

    /** The first m MCU rows of iMCU row r. */
    function IRowMcus(r: nat, m: nat): seq<seq<Block>>
      requires Ok()
    {
      if m == 0 then [] else IRowMcus(r, m - 1) + RowMcus(r, m - 1, Across())
    }

    function Before(r: nat): seq<seq<Block>>
      requires Ok()
    {
      if r == 0 then [] else Before(r - 1) + IRowMcus(r - 1, Rows(r - 1))
    }

    /** All MCUs before a position of the scan, in order. */
    function Done(r: nat, y: nat, x: nat): seq<seq<Block>>
      requires Ok()
    {
      Before(r) + IRowMcus(r, y) + RowMcus(r, y, x)
    }
  }

  lemma DoneNextCol(k: Layout, r: nat, y: nat, x: nat)
    requires k.Ok()
    ensures k.Done(r, y, x + 1) == k.Done(r, y, x) + [k.Mcu(r, y, x)]
  {
    hide Layout.Mcu, Layout.Before, Layout.IRowMcus;
    assert k.Before(r) + k.IRowMcus(r, y) + (k.RowMcus(r, y, x) + [k.Mcu(r, y, x)])
        == k.Before(r) + k.IRowMcus(r, y) + k.RowMcus(r, y, x) + [k.Mcu(r, y, x)];
  }

  lemma DoneNextRow(k: Layout, r: nat, y: nat)
    requires k.Ok()
    ensures k.Done(r, y, k.Across()) == k.Done(r, y + 1, 0)
  {
    hide Layout.Before, Layout.Across;
    var a, b, c := k.Before(r), k.IRowMcus(r, y), k.RowMcus(r, y, k.Across());
    assert k.Done(r, y, k.Across()) == a + b + c;
    assert k.IRowMcus(r, y + 1) == b + c;
    assert k.RowMcus(r, y + 1, 0) == [];
    Reassoc(a, b, c);
  }

  lemma Reassoc(a: seq<seq<Block>>, b: seq<seq<Block>>, c: seq<seq<Block>>)
    ensures a + b + c == a + (b + c) + []
  {}

  lemma DoneNextIRow(k: Layout, r: nat)
    requires k.Ok()
    ensures k.Done(r, k.Rows(r), 0) == k.Done(r + 1, 0, 0) == k.Before(r + 1)
  {
    hide Layout.Rows;
    assert k.RowMcus(r, k.Rows(r), 0) == [] && k.IRowMcus(r + 1, 0) == [] && k.RowMcus(r + 1, 0, 0) == [];
    var a, b := k.Before(r), k.IRowMcus(r, k.Rows(r));
    assert a + b + [] == a + b;
    assert (a + b) + [] + [] == a + b;
  }

  // ----- where real blocks end -----

  /** The test for a real row in compress_data. */
  lemma RealRow(k: Layout, i: nat, r: nat, y: nat, yindex: nat)
    requires k.Ok() && i < |k.which| && r < k.im.totalRows && y < k.Rows(r) && yindex < k.H(i)
    ensures var c := k.Comp(i);
            && (r * c.v + y + yindex < c.heightInBlocks <==> r + 1 < k.im.totalRows || y + yindex < LastOf(c.heightInBlocks, c.v))
            && (yindex == 0 ==> r * c.v + y < c.heightInBlocks)
            && y + yindex < c.v
  {
    hide CeilDiv, LastOf;
    var c := k.Comp(i);
    assert k.im.ComponentOk(c);
    McusHoldBlocks(k.im, c);
    LastOfIs(c.heightInBlocks, c.v);
    hide Layout.Rows, Layout.H, Image.ComponentOk;
    OffsetsFit(k, i, r, y, yindex);
    RealRowNumbers(r, k.im.totalRows, c.v, c.heightInBlocks, LastOf(c.heightInBlocks, c.v), y, yindex);
  }

  lemma OffsetsFit(k: Layout, i: nat, r: nat, y: nat, yindex: nat)
    requires k.Ok() && i < |k.which| && r < k.im.totalRows && y < k.Rows(r) && yindex < k.H(i)
    ensures k.Comp(i).v > 0 && y + yindex < k.Comp(i).v
    ensures yindex == 0 ==> r + 1 < k.im.totalRows || y < LastOf(k.Comp(i).heightInBlocks, k.Comp(i).v)
  {
    hide CeilDiv, LastOf;
    var c := k.Comp(i);
    assert k.im.ComponentOk(c);
    McusHoldBlocks(k.im, c);
    LastOfIs(c.heightInBlocks, c.v);
  }

  lemma RealRowNumbers(r: nat, total: nat, v: nat, hb: nat, last: nat, y: nat, yindex: nat)
    requires r < total && v > 0 && 1 <= last <= v && (total - 1) * v + last == hb && y + yindex < v
    ensures r * v + y + yindex < hb <==> r + 1 < total || y + yindex < last
  {
    if r + 1 < total {
      MulLess(r, total - 1, v);
    }
  }

  /** The number of real columns of an MCU that compress_data computes. */
  lemma RealCols(k: Layout, i: nat, x: nat)
    requires k.Ok() && i < |k.which| && x < k.Across()
    ensures var c := k.Comp(i);
            var n := if x + 1 < k.Across() then k.W(i) else if k.Interleaved() then LastOf(c.widthInBlocks, c.h) else 1;
            && 1 <= n <= k.W(i) && x * k.W(i) + n <= c.widthInBlocks
            && (n < k.W(i) ==> x * k.W(i) + n == c.widthInBlocks)
  {
    hide CeilDiv, LastOf;
    var c := k.Comp(i);
    assert k.im.ComponentOk(c);
    McusHoldBlocks(k.im, c);
    if k.Interleaved() && x + 1 < k.Across() {
      MulLess(x, k.im.McusAcross() - 1, c.h);
    }
    LastOfIs(c.widthInBlocks, c.h);
  }

  /** Real blocks side by side. */
  lemma {:induction false} RealBlocks(p: Plane, c: Component, row: nat, col: nat, n: nat)
    requires PlaneOk(p, c) && row < c.heightInBlocks && col + n <= c.widthInBlocks
    ensures RowBlocks(p, c, row, col, n) == p[row][col..col + n]
  {
    if n > 0 {
      RealBlocks(p, c, row, col, n - 1);
      assert p[row][col..col + n] == p[row][col..col + (n - 1)] + [p[row][col + (n - 1)]];
    }
  }

  /** One more dummy block at the right edge: its DC is that of the block before it. */
  lemma NextRightDummy(p: Plane, c: Component, row: nat, col: nat, w: nat)
    requires PlaneOk(p, c) && row < c.heightInBlocks && w > 0 && col + w >= c.widthInBlocks
    ensures RowBlocks(p, c, row, col, w + 1) == RowBlocks(p, c, row, col, w) + [Dummy(RowBlocks(p, c, row, col, w)[w - 1][0])]
  {
    assert RowBlocks(p, c, row, col, w)[w - 1] == Padded(p, c, row, col + (w - 1));
  }

  /** One more dummy block at the bottom: its DC is that of the last block of the MCU's row above. */
  lemma NextBottomDummy(p: Plane, c: Component, row: nat, x: nat, w: nat)
    requires PlaneOk(p, c) && row >= c.heightInBlocks && w < c.h
    ensures RowBlocks(p, c, row, x * c.h, w + 1)
         == RowBlocks(p, c, row, x * c.h, w) + [Dummy(Padded(p, c, row - 1, x * c.h + (c.h - 1))[0])]
  {
    hide Dummy;
    DivModUnique(x * c.h + w, c.h, x, w);
  }

  lemma LastOfRow(p: Plane, c: Component, row: nat, col: nat, w: nat, m: nat)
    requires PlaneOk(p, c) && w > 0 && m > 0
    ensures var b := CompBlocks(p, c, row, col, w, m); |b| > 0 && b[|b| - 1] == Padded(p, c, row + (m - 1), col + (w - 1))
  {
    hide Padded;
  }

  // ----- the size of an MCU -----

  /** Blocks of the first n components in an MCU. */
  function McuSize(k: Layout, n: nat): nat
    requires k.Ok() && n <= |k.which|
  {
    if n == 0 then 0 else McuSize(k, n - 1) + k.H(n - 1) * k.W(n - 1)
  }

  lemma {:induction false} CompSize(p: Plane, c: Component, row: nat, col: nat, w: nat, m: nat)
    requires PlaneOk(p, c)
    ensures |CompBlocks(p, c, row, col, w, m)| == m * w
  {
    if m > 0 {
      CompSize(p, c, row, col, w, m - 1);
      Distribute(m - 1, 1, w);
    }
  }

  /** All MCUs of a scan have the same number of blocks. */
  lemma {:induction false} McuHasSize(k: Layout, r: nat, y: nat, x: nat, n: nat)
    requires k.Ok() && n <= |k.which|
    ensures |k.McuPart(r, y, x, n)| == McuSize(k, n)
  {
    hide CompBlocks, Layout.H, Layout.W;
    if n > 0 {
      McuHasSize(k, r, y, x, n - 1);
      CompSize(k.planes[k.which[n - 1]], k.Comp(n - 1), r * k.Comp(n - 1).v + y, x * k.W(n - 1), k.W(n - 1), k.H(n - 1));
    }
  }

  // ----- the order of the blocks in an MCU -----

  lemma {:induction false} CompAt(p: Plane, c: Component, row: nat, col: nat, w: nat, m: nat, y: nat, x: nat)
    requires PlaneOk(p, c) && y < m && x < w
    ensures y * w + x < |CompBlocks(p, c, row, col, w, m)| && CompBlocks(p, c, row, col, w, m)[y * w + x] == Padded(p, c, row + y, col + x)
  {
    hide Padded;
    CompSize(p, c, row, col, w, m);
    CompSize(p, c, row, col, w, m - 1);
    MulLess(y, m, w);
    if y < m - 1 {
      CompAt(p, c, row, col, w, m - 1, y, x);
    } else {
      RowBlockAt(p, c, row + y, col, w, x);
    }
  }

  lemma {:induction false} RowBlockAt(p: Plane, c: Component, row: nat, col: nat, w: nat, x: nat)
    requires PlaneOk(p, c) && x < w
    ensures RowBlocks(p, c, row, col, w)[x] == Padded(p, c, row, col + x)
  {
    hide Padded;
    if x < w - 1 {
      RowBlockAt(p, c, row, col, w - 1, x);
    }
  }

  /** Section A.2.3 of T.81: component after component, each component's blocks row by row. */
  lemma {:induction false} McuAt(k: Layout, r: nat, y: nat, x: nat, n: nat, i: nat, down: nat, right: nat)
    requires k.Ok() && i < n <= |k.which| && down < k.H(i) && right < k.W(i)
    ensures var at := McuSize(k, i) + down * k.W(i) + right;
            && at < |k.McuPart(r, y, x, n)|
            && k.McuPart(r, y, x, n)[at] == Padded(k.planes[k.which[i]], k.Comp(i), r * k.Comp(i).v + y + down, x * k.W(i) + right)
  {
    hide CompBlocks, Padded, Layout.H, Layout.W, Image.Ok, PlaneOk, CeilDiv, LastOf;
    if i < n - 1 {
      McuAt(k, r, y, x, n - 1, i, down, right);
    } else {
      var row, col, w := r * k.Comp(i).v + y, x * k.W(i), k.W(i);
      var part := CompBlocks(k.planes[k.which[i]], k.Comp(i), row, col, w, k.H(i));
      McuHasSize(k, r, y, x, i);
      CompAt(k.planes[k.which[i]], k.Comp(i), row, col, w, k.H(i), down, right);
      assert k.McuPart(r, y, x, n) == k.McuPart(r, y, x, i) + part;
      assert (k.McuPart(r, y, x, i) + part)[McuSize(k, i) + (down * w + right)] == part[down * w + right];
    }
  }

  /** The blocks of an MCU that the image does not have: no AC values, and the DC of the block before, so that they
      cost as little as possible. In a single-component scan there are none. */
  lemma DummiesRepeat(k: Layout, r: nat, y: nat, x: nat, i: nat, down: nat, right: nat)
    requires k.Ok() && i < |k.which| && r < k.im.totalRows && y < k.Rows(r) && x < k.Across() && down < k.H(i) && right < k.W(i)
    ensures var c, at := k.Comp(i), McuSize(k, i) + down * k.W(i) + right;
            at < |k.Mcu(r, y, x)|
            && (r * c.v + y + down >= c.heightInBlocks || x * k.W(i) + right >= c.widthInBlocks ==>
                  && |k.which| > 1 && down + right > 0 && k.Mcu(r, y, x)[at][0] == k.Mcu(r, y, x)[at - 1][0]
                  && forall a :: 1 <= a < 64 ==> k.Mcu(r, y, x)[at][a] == 0)
  {
    hide CeilDiv, LastOf, Padded, Dummy, CompBlocks, Layout.McuPart, Layout.Rows, Layout.Across, McuSize;
    var c := k.Comp(i);
    McuAt(k, r, y, x, |k.which|, i, down, right);
    if r * c.v + y + down >= c.heightInBlocks || x * k.W(i) + right >= c.widthInBlocks {
      OnlyInterleaved(k, i, r, y, x);
      DummyRepeats(k.planes[k.which[i]], c, r * c.v + y, x, down, right);
      if right > 0 {
        McuAt(k, r, y, x, |k.which|, i, down, right - 1);
      } else {
        Distribute(down - 1, 1, k.W(i));
        McuAt(k, r, y, x, |k.which|, i, down - 1, k.W(i) - 1);
      }
    }
  }

  /** The first block of a component in an MCU is real, and the only one in a scan of one component. */
  lemma OnlyInterleaved(k: Layout, i: nat, r: nat, y: nat, x: nat)
    requires k.Ok() && i < |k.which| && r < k.im.totalRows && y < k.Rows(r) && x < k.Across()
    ensures r * k.Comp(i).v + y < k.Comp(i).heightInBlocks && x * k.W(i) < k.Comp(i).widthInBlocks
    ensures |k.which| == 1 ==> k.W(i) == k.H(i) == 1
  {
    hide CeilDiv, LastOf, Layout.Rows, Layout.Across;
    RealRow(k, i, r, y, 0);
    RealCols(k, i, x);
  }

  lemma DummyRepeats(p: Plane, c: Component, row: nat, x: nat, down: nat, right: nat)
    requires PlaneOk(p, c) && row < c.heightInBlocks && x * c.h < c.widthInBlocks && right < c.h
    requires row + down >= c.heightInBlocks || x * c.h + right >= c.widthInBlocks
    ensures down + right > 0
    ensures var b := Padded(p, c, row + down, x * c.h + right);
            && (forall a :: 1 <= a < 64 ==> b[a] == 0)
            && b[0] == (if right > 0 then Padded(p, c, row + down, x * c.h + (right - 1)) else Padded(p, c, row + (down - 1), x * c.h + (c.h - 1)))[0]
  {
    DivModUnique(x * c.h + right, c.h, x, right);
    if right > 0 {
      DivModUnique(x * c.h + (right - 1), c.h, x, right - 1);
    }
  }

  // ----- positions lie within the scan -----

  lemma {:induction false} RowPrefix(k: Layout, r: nat, y: nat, x: nat, n: nat)
    requires k.Ok() && x <= n
    ensures k.RowMcus(r, y, x) <= k.RowMcus(r, y, n)
    decreases n - x
  {
    hide Layout.Mcu;
    if x < n {
      RowPrefix(k, r, y, x, n - 1);
    }
  }

  lemma {:induction false} IRowPrefix(k: Layout, r: nat, y: nat, m: nat)
    requires k.Ok() && y <= m
    ensures k.IRowMcus(r, y) <= k.IRowMcus(r, m)
    decreases m - y
  {
    hide Layout.RowMcus, Layout.Across;
    if y < m {
      IRowPrefix(k, r, y, m - 1);
    }
  }

  lemma {:induction false} BeforePrefix(k: Layout, r: nat, n: nat)
    requires k.Ok() && r <= n
    ensures k.Before(r) <= k.Before(n)
    decreases n - r
  {
    hide Layout.IRowMcus, Layout.Rows;
    if r < n {
      BeforePrefix(k, r, n - 1);
    }
  }

  /** The MCUs before a position, and the one there, begin the scan. */
  lemma DonePrefix(k: Layout, r: nat, y: nat, x: nat)
    requires k.Ok() && r < k.im.totalRows && y < k.Rows(r) && x < k.Across()
    ensures k.Done(r, y, x) + [k.Mcu(r, y, x)] <= k.Before(k.im.totalRows)
  {
    hide Layout.Mcu, Layout.Rows, Layout.Across, LastOf, CeilDiv;
    DoneNextCol(k, r, y, x);
    RowPrefix(k, r, y, x + 1, k.Across());
    IRowPrefix(k, r, y + 1, k.Rows(r));
    BeforePrefix(k, r + 1, k.im.totalRows);
    PrefixJoined(k.Before(r), k.IRowMcus(r, y), k.RowMcus(r, y, x + 1), k.RowMcus(r, y, k.Across()), k.IRowMcus(r, k.Rows(r)));
  }

  lemma PrefixJoined(a: seq<seq<Block>>, b: seq<seq<Block>>, c: seq<seq<Block>>, c': seq<seq<Block>>, d: seq<seq<Block>>)
    requires c <= c' && b + c' <= d
    ensures a + b + c <= a + d
  {
    assert b + c <= b + c' by {
      assert forall i :: 0 <= i < |b + c| ==> (b + c)[i] == (b + c')[i];
    }
    assert a + b + c == a + (b + c);
    assert forall i :: 0 <= i < |a + (b + c)| ==> (a + (b + c))[i] == (a + d)[i];
  }
}
