/** Where the blocks of a scan's MCUs lie in the image: each place is visited once, every real block is
    among them, and what is found there is what the coefficient controller hands to the entropy coder. */
module ScanVisits {
  import opened Arithmetic
  import opened Coefficients
  import opened Geometry
  import opened McuLayout
  import opened ProgressiveImage

  // ----- the places of an MCU -----

  function RowRefs(ci: nat, row: nat, col: nat, w: nat): (refs: seq<Ref>)
    ensures |refs| == w && forall j :: 0 <= j < w ==> refs[j] == Ref(ci, Spot(row, col + j))
  {
    if w == 0 then [] else RowRefs(ci, row, col, w - 1) + [Ref(ci, Spot(row, col + (w - 1)))]
  }

  function CompRefs(ci: nat, row: nat, col: nat, w: nat, m: nat): (refs: seq<Ref>)
    ensures |refs| == m * w && forall j :: 0 <= j < |refs| ==> refs[j].c == ci
  {
    if m == 0 then [] else CompRefs(ci, row, col, w, m - 1) + RowRefs(ci, row + (m - 1), col, w)
  }

  function McuRefs(k: Layout, my: nat, mx: nat, n: nat): seq<Ref>
    requires k.Ok() && n <= |k.which|
  {
    if n == 0 then []
    else McuRefs(k, my, mx, n - 1) + CompRefs(k.which[n - 1], my * k.H(n - 1), mx * k.W(n - 1), k.W(n - 1), k.H(n - 1))
  }

  /** The first n MCUs of a row of MCUs. */
  function VisitRow(k: Layout, my: nat, n: nat): Visits
    requires k.Ok()
  {
    if n == 0 then [] else VisitRow(k, my, n - 1) + [McuRefs(k, my, n - 1, |k.which|)]
  }

  /** The first m rows of MCUs. */
  function VisitRows(k: Layout, m: nat): Visits
    requires k.Ok()
  {
    if m == 0 then [] else VisitRows(k, m - 1) + VisitRow(k, m - 1, k.Across())
  }

  /** Rows of MCUs in the scan. */
  function Down(k: Layout): nat
    requires k.Ok()
  {
    if k.Interleaved() then k.im.totalRows else k.Comp(0).heightInBlocks
  }

  function LayoutVisits(k: Layout): Visits
    requires k.Ok()
  {
    VisitRows(k, Down(k))
  }

  // ----- in which order -----

  lemma {:induction false} CompRefAt(ci: nat, row: nat, col: nat, w: nat, m: nat, y: nat, x: nat)
    requires y < m && x < w
    ensures y * w + x < m * w && CompRefs(ci, row, col, w, m)[y * w + x] == Ref(ci, Spot(row + y, col + x))
  {
    MulLess(y, m, w);
    Distribute(m - 1, 1, w);
    if y < m - 1 {
      CompRefAt(ci, row, col, w, m - 1, y, x);
    }
  }

  lemma {:induction false} McuRefsSize(k: Layout, my: nat, mx: nat, n: nat)
    requires k.Ok() && n <= |k.which|
    ensures |McuRefs(k, my, mx, n)| == McuSize(k, n)
  {
    hide Layout.H, Layout.W;
    if n > 0 {
      McuRefsSize(k, my, mx, n - 1);
    }
  }

  lemma {:induction false} McuRefAt(k: Layout, my: nat, mx: nat, n: nat, i: nat, y: nat, x: nat)
    requires k.Ok() && i < n <= |k.which| && y < k.H(i) && x < k.W(i)
    ensures var at := McuSize(k, i) + y * k.W(i) + x;
            at < |McuRefs(k, my, mx, n)| && McuRefs(k, my, mx, n)[at] == Ref(k.which[i], Spot(my * k.H(i) + y, mx * k.W(i) + x))
  {
    hide Layout.H, Layout.W, CompRefs, Image.Ok, PlaneOk, CeilDiv, LastOf;
    if i < n - 1 {
      McuRefAt(k, my, mx, n - 1, i, y, x);
    } else {
      var row, col, w := my * k.H(i), mx * k.W(i), k.W(i);
      var part := CompRefs(k.which[i], row, col, w, k.H(i));
      McuRefsSize(k, my, mx, i);
      CompRefAt(k.which[i], row, col, w, k.H(i), y, x);
      assert McuRefs(k, my, mx, n) == McuRefs(k, my, mx, i) + part;
      assert (McuRefs(k, my, mx, i) + part)[McuSize(k, i) + (y * w + x)] == part[y * w + x];
    }
  }

  lemma {:induction false} RowVisitAt(k: Layout, my: nat, n: nat, mx: nat)
    requires k.Ok() && mx < n
    ensures |VisitRow(k, my, n)| == n && VisitRow(k, my, n)[mx] == McuRefs(k, my, mx, |k.which|)
  {
    hide McuRefs;
    if mx < n - 1 {
      RowVisitAt(k, my, n - 1, mx);
    } else if n > 1 {
      RowVisitAt(k, my, n - 1, 0);
    }
  }

  lemma {:induction false} RowsVisitAt(k: Layout, m: nat, my: nat, mx: nat)
    requires k.Ok() && mx < k.Across()
    ensures |VisitRows(k, m)| == m * k.Across()
    ensures my < m ==> my * k.Across() + mx < |VisitRows(k, m)| && VisitRows(k, m)[my * k.Across() + mx] == McuRefs(k, my, mx, |k.which|)
  {
    hide McuRefs, VisitRow, Layout.Across;
    if m > 0 {
      RowsVisitAt(k, m - 1, my, mx);
      RowVisitAt(k, m - 1, k.Across(), mx);
      Distribute(m - 1, 1, k.Across());
      if my < m - 1 {
        MulLess(my, m - 1, k.Across());
      }
    }
  }

  /** The order of section A.2 of T.81. MCUs run from left to right and from top to bottom; within an MCU the components
      follow each other, each with its blocks row by row: h by v of them in an interleaved scan, and one in a scan of
      one component, where the MCUs are the component's own blocks. */
  lemma VisitedInOrder(k: Layout, my: nat, mx: nat, i: nat, y: nat, x: nat)
    requires k.Ok() && i < |k.which|
    requires var c := k.im.comps[k.which[i]];
             if |k.which| > 1 then my < k.im.totalRows && mx < CeilDiv(k.im.width, k.im.maxH * 8) && y < c.v && x < c.h
             else my < c.heightInBlocks && mx < c.widthInBlocks && y == x == 0
    ensures var c := k.im.comps[k.which[i]];
            var (h, v, across) := if |k.which| > 1 then (c.h, c.v, CeilDiv(k.im.width, k.im.maxH * 8)) else (1, 1, c.widthInBlocks);
            && my * across + mx < |LayoutVisits(k)| && McuSize(k, i) + y * h + x < |LayoutVisits(k)[my * across + mx]|
            && LayoutVisits(k)[my * across + mx][McuSize(k, i) + y * h + x] == Ref(k.which[i], Spot(my * v + y, mx * h + x))
  {
    hide McuRefs, McuSize, VisitRows, CeilDiv;
    RowsVisitAt(k, Down(k), my, mx);
    McuRefAt(k, my, mx, |k.which|, i, y, x);
  }

  // ----- which places are visited -----

  predicate InBox(q: Ref, ci: nat, row: nat, col: nat, w: nat, m: nat) {
    q.c == ci && row <= q.b.row < row + m && col <= q.b.col < col + w
  }

  lemma InRowRefs(q: Ref, ci: nat, row: nat, col: nat, w: nat)
    ensures q in RowRefs(ci, row, col, w) <==> InBox(q, ci, row, col, w, 1)
  {
    if InBox(q, ci, row, col, w, 1) {
      assert RowRefs(ci, row, col, w)[q.b.col - col] == q;
    }
  }

  lemma {:induction false} InCompRefs(q: Ref, ci: nat, row: nat, col: nat, w: nat, m: nat)
    ensures q in CompRefs(ci, row, col, w, m) <==> InBox(q, ci, row, col, w, m)
  {
    if m > 0 {
      InCompRefs(q, ci, row, col, w, m - 1);
      InRowRefs(q, ci, row + (m - 1), col, w);
    }
  }

  ghost predicate InMcu(k: Layout, my: nat, mx: nat, n: nat, q: Ref)
    requires k.Ok() && n <= |k.which|
  {
    exists i :: 0 <= i < n && InBox(q, k.which[i], my * k.H(i), mx * k.W(i), k.W(i), k.H(i))
  }

  lemma {:induction false} InMcuRefs(k: Layout, my: nat, mx: nat, n: nat, q: Ref)
    requires k.Ok() && n <= |k.which|
    ensures q in McuRefs(k, my, mx, n) <==> InMcu(k, my, mx, n, q)
  {
    hide Layout.H, Layout.W, InBox, CompRefs;
    if n > 0 {
      InMcuRefs(k, my, mx, n - 1, q);
      InCompRefs(q, k.which[n - 1], my * k.H(n - 1), mx * k.W(n - 1), k.W(n - 1), k.H(n - 1));
    }
  }

  /** In the first n MCUs of a row of MCUs. */
  ghost predicate InRow(k: Layout, my: nat, n: nat, q: Ref)
    requires k.Ok()
  {
    exists i :: 0 <= i < |k.which| && InBox(q, k.which[i], my * k.H(i), 0, n * k.W(i), k.H(i))
  }

  /** In the first m rows of MCUs. */
  ghost predicate InRows(k: Layout, m: nat, q: Ref)
    requires k.Ok()
  {
    exists i :: 0 <= i < |k.which| && InBox(q, k.which[i], 0, 0, k.Across() * k.W(i), m * k.H(i))
  }

  lemma BoxGrowsRight(q: Ref, ci: nat, row: nat, n: nat, w: nat, m: nat)
    requires n > 0
    ensures InBox(q, ci, row, 0, n * w, m) <==> InBox(q, ci, row, 0, (n - 1) * w, m) || InBox(q, ci, row, (n - 1) * w, w, m)
  {
    Distribute(n - 1, 1, w);
  }

  lemma BoxGrowsDown(q: Ref, ci: nat, w: nat, m: nat, h: nat)
    requires m > 0
    ensures InBox(q, ci, 0, 0, w, m * h) <==> InBox(q, ci, 0, 0, w, (m - 1) * h) || InBox(q, ci, (m - 1) * h, 0, w, h)
  {
    Distribute(m - 1, 1, h);
  }

  lemma RowGrows(k: Layout, my: nat, n: nat, q: Ref)
    requires k.Ok() && n > 0
    ensures InRow(k, my, n, q) <==> InRow(k, my, n - 1, q) || InMcu(k, my, n - 1, |k.which|, q)
  {
    hide Layout.H, Layout.W, InBox;
    forall i | 0 <= i < |k.which|
      ensures InBox(q, k.which[i], my * k.H(i), 0, n * k.W(i), k.H(i))
         <==> InBox(q, k.which[i], my * k.H(i), 0, (n - 1) * k.W(i), k.H(i)) || InBox(q, k.which[i], my * k.H(i), (n - 1) * k.W(i), k.W(i), k.H(i))
    {
      BoxGrowsRight(q, k.which[i], my * k.H(i), n, k.W(i), k.H(i));
    }
  }

  lemma RowsGrow(k: Layout, m: nat, q: Ref)
    requires k.Ok() && m > 0
    ensures InRows(k, m, q) <==> InRows(k, m - 1, q) || InRow(k, m - 1, k.Across(), q)
  {
    hide Layout.H, Layout.W, Layout.Across, InBox;
    forall i | 0 <= i < |k.which|
      ensures InBox(q, k.which[i], 0, 0, k.Across() * k.W(i), m * k.H(i))
         <==> InBox(q, k.which[i], 0, 0, k.Across() * k.W(i), (m - 1) * k.H(i))
              || InBox(q, k.which[i], (m - 1) * k.H(i), 0, k.Across() * k.W(i), k.H(i))
    {
      BoxGrowsDown(q, k.which[i], k.Across() * k.W(i), m, k.H(i));
    }
  }

  lemma NothingInEmpty(k: Layout, my: nat, q: Ref)
    requires k.Ok()
    ensures !InRow(k, my, 0, q) && !InRows(k, 0, q)
  {
    hide Layout.H, Layout.W, Layout.Across;
  }

  lemma VisitedConcat(a: Visits, b: Visits, q: Ref)
    ensures Visited(a + b, q) <==> Visited(a, q) || Visited(b, q)
  {
    if Visited(a, q) {
      var i, j :| 0 <= i < |a| && 0 <= j < |a[i]| && a[i][j] == q;
      assert (a + b)[i][j] == q;
    }
    if Visited(b, q) {
      var i, j :| 0 <= i < |b| && 0 <= j < |b[i]| && b[i][j] == q;
      assert (a + b)[|a| + i][j] == q;
    }
    if Visited(a + b, q) {
      var i, j :| 0 <= i < |a + b| && 0 <= j < |(a + b)[i]| && (a + b)[i][j] == q;
      assert if i < |a| then a[i][j] == q else b[i - |a|][j] == q;
    }
  }

  lemma VisitedSingle(m: seq<Ref>, q: Ref)
    ensures Visited([m], q) <==> q in m
  {
    if q in m {
      var j :| 0 <= j < |m| && m[j] == q;
      assert [m][0][j] == q;
    }
  }

  lemma {:induction false} VisitedRow(k: Layout, my: nat, n: nat, q: Ref)
    requires k.Ok()
    ensures Visited(VisitRow(k, my, n), q) <==> InRow(k, my, n, q)
  {
    hide InRow, InMcu, McuRefs, Visited;
    if n == 0 {
      NothingInEmpty(k, my, q);
      NothingVisited(q);
    } else {
      var m := McuRefs(k, my, n - 1, |k.which|);
      VisitedRow(k, my, n - 1, q);
      RowGrows(k, my, n, q);
      InMcuRefs(k, my, n - 1, |k.which|, q);
      VisitedConcat(VisitRow(k, my, n - 1), [m], q);
      VisitedSingle(m, q);
    }
  }

  lemma NothingVisited(q: Ref)
    ensures !Visited([], q)
  {}

  /** The places visited by the first m rows of MCUs, dummies included. */
  lemma {:induction false} VisitedRows(k: Layout, m: nat, q: Ref)
    requires k.Ok()
    ensures Visited(VisitRows(k, m), q) <==> InRows(k, m, q)
  {
    hide InRow, InRows, VisitRow, Visited, Layout.Across;
    if m == 0 {
      NothingInEmpty(k, 0, q);
      NothingVisited(q);
    } else {
      VisitedRows(k, m - 1, q);
      RowsGrow(k, m, q);
      VisitedRow(k, m - 1, k.Across(), q);
      VisitedConcat(VisitRows(k, m - 1), VisitRow(k, m - 1, k.Across()), q);
    }
  }

  // ----- no place is visited twice -----

  ghost predicate Distinct(k: Layout) {
    forall i, j :: 0 <= i < j < |k.which| ==> k.which[i] != k.which[j]
  }

  ghost predicate NoRepeats(refs: seq<Ref>) {
    forall i, j :: 0 <= i < j < |refs| ==> refs[i] != refs[j]
  }

  lemma NoRepeatsConcat(a: seq<Ref>, b: seq<Ref>)
    requires NoRepeats(a) && NoRepeats(b) && forall q :: q in a ==> q !in b
    ensures NoRepeats(a + b)
  {
    var s := a + b;
    forall i, j | 0 <= i < j < |s|
      ensures s[i] != s[j]
    {
      assert s[i] == (if i < |a| then a[i] else b[i - |a|]) && s[j] == if j < |a| then a[j] else b[j - |a|];
      assert i < |a| ==> s[i] in a;
    }
  }

  lemma NothingRepeats()
    ensures NoRepeats([]) && EachOnce([])
  {}

  lemma {:induction false} CompRefsOnce(ci: nat, row: nat, col: nat, w: nat, m: nat)
    ensures NoRepeats(CompRefs(ci, row, col, w, m))
  {
    if m > 0 {
      var a, b := CompRefs(ci, row, col, w, m - 1), RowRefs(ci, row + (m - 1), col, w);
      CompRefsOnce(ci, row, col, w, m - 1);
      forall q | q in a
        ensures q !in b
      {
        InCompRefs(q, ci, row, col, w, m - 1);
      }
      NoRepeatsConcat(a, b);
    }
  }

  lemma {:induction false} McuRefsOnce(k: Layout, my: nat, mx: nat, n: nat)
    requires k.Ok() && Distinct(k) && n <= |k.which|
    ensures NoRepeats(McuRefs(k, my, mx, n))
  {
    hide Layout.H, Layout.W, CompRefs, NoRepeats;
    if n == 0 {
      NothingRepeats();
    } else {
      var a, b := McuRefs(k, my, mx, n - 1), CompRefs(k.which[n - 1], my * k.H(n - 1), mx * k.W(n - 1), k.W(n - 1), k.H(n - 1));
      McuRefsOnce(k, my, mx, n - 1);
      CompRefsOnce(k.which[n - 1], my * k.H(n - 1), mx * k.W(n - 1), k.W(n - 1), k.H(n - 1));
      forall q | q in a
        ensures q !in b
      {
        InMcuRefs(k, my, mx, n - 1, q);
      }
      NoRepeatsConcat(a, b);
    }
  }

  lemma EachOnceConcat(a: Visits, b: Visits)
    requires EachOnce(a) && EachOnce(b) && forall q :: Visited(a, q) ==> !Visited(b, q)
    ensures EachOnce(a + b)
  {
    var v := a + b;
    forall i, l, j, m | 0 <= i < |v| && 0 <= l < |v[i]| && 0 <= j < |v| && 0 <= m < |v[j]| && v[i][l] == v[j][m]
      ensures i == j && l == m
    {
      var q := v[i][l];
      assert v[i] == (if i < |a| then a[i] else b[i - |a|]) && v[j] == if j < |a| then a[j] else b[j - |a|];
      assert i < |a| ==> Visited(a, q);
      assert j < |a| ==> Visited(a, q);
      if i >= |a| {
        assert b[i - |a|][l] == q;
        assert Visited(b, q);
      }
      if j >= |a| {
        assert b[j - |a|][m] == q;
        assert Visited(b, q);
      }
    }
  }

  lemma EachOnceSingle(m: seq<Ref>)
    requires NoRepeats(m)
    ensures EachOnce([m])
  {}

  lemma {:induction false} VisitRowOnce(k: Layout, my: nat, n: nat)
    requires k.Ok() && Distinct(k)
    ensures EachOnce(VisitRow(k, my, n))
  {
    hide Visited, EachOnce, McuRefs, InRow, InMcu, NoRepeats;
    if n == 0 {
      NothingRepeats();
    } else {
      var m := McuRefs(k, my, n - 1, |k.which|);
      VisitRowOnce(k, my, n - 1);
      McuRefsOnce(k, my, n - 1, |k.which|);
      EachOnceSingle(m);
      forall q | Visited(VisitRow(k, my, n - 1), q)
        ensures !Visited([m], q)
      {
        VisitedRow(k, my, n - 1, q);
        VisitedSingle(m, q);
        InMcuRefs(k, my, n - 1, |k.which|, q);
        RowMeetsNoMcu(k, my, n - 1, q);
      }
      EachOnceConcat(VisitRow(k, my, n - 1), [m]);
    }
  }

  lemma RowMeetsNoMcu(k: Layout, my: nat, n: nat, q: Ref)
    requires k.Ok() && Distinct(k)
    ensures !(InRow(k, my, n, q) && InMcu(k, my, n, |k.which|, q))
  {
    hide Layout.H, Layout.W;
  }

  /** No place is visited twice. */
  lemma {:induction false} VisitRowsOnce(k: Layout, m: nat)
    requires k.Ok() && Distinct(k)
    ensures EachOnce(VisitRows(k, m))
  {
    hide Visited, EachOnce, VisitRow, InRow, InRows, Layout.Across;
    if m == 0 {
      NothingRepeats();
    } else {
      VisitRowsOnce(k, m - 1);
      VisitRowOnce(k, m - 1, k.Across());
      var a, b := VisitRows(k, m - 1), VisitRow(k, m - 1, k.Across());
      forall q | Visited(a, q)
        ensures !Visited(b, q)
      {
        VisitedRows(k, m - 1, q);
        VisitedRow(k, m - 1, k.Across(), q);
        RowsMeetNoRow(k, m - 1, q);
      }
      EachOnceConcat(a, b);
    }
  }

  lemma RowsMeetNoRow(k: Layout, m: nat, q: Ref)
    requires k.Ok() && Distinct(k)
    ensures !(InRows(k, m, q) && InRow(k, m, k.Across(), q))
  {
    hide Layout.H, Layout.W, Layout.Across;
  }

  // ----- the order of the visits depends on the frame alone -----

  lemma {:induction false} SameRefs(k: Layout, k': Layout, my: nat, mx: nat, n: nat)
    requires k.Ok() && k'.Ok() && k.im == k'.im && k.which == k'.which && n <= |k.which|
    ensures McuRefs(k, my, mx, n) == McuRefs(k', my, mx, n)
  {
    hide CompRefs;
    if n > 0 {
      SameRefs(k, k', my, mx, n - 1);
      assert k.W(n - 1) == k'.W(n - 1) && k.H(n - 1) == k'.H(n - 1);
    }
  }

  lemma {:induction false} SameRow(k: Layout, k': Layout, my: nat, n: nat)
    requires k.Ok() && k'.Ok() && k.im == k'.im && k.which == k'.which
    ensures VisitRow(k, my, n) == VisitRow(k', my, n)
  {
    hide McuRefs;
    if n > 0 {
      SameRow(k, k', my, n - 1);
      SameRefs(k, k', my, n - 1, |k.which|);
    }
  }

  lemma {:induction false} SameRows(k: Layout, k': Layout, m: nat)
    requires k.Ok() && k'.Ok() && k.im == k'.im && k.which == k'.which
    ensures VisitRows(k, m) == VisitRows(k', m)
  {
    hide VisitRow;
    if m > 0 {
      assert k.Across() == k'.Across();
      SameRows(k, k', m - 1);
      SameRow(k, k', m - 1, k.Across());
    }
  }

  lemma SameVisits(k: Layout, k': Layout)
    requires k.Ok() && k'.Ok() && k.im == k'.im && k.which == k'.which
    ensures LayoutVisits(k) == LayoutVisits(k')
  {
    SameRows(k, k', Down(k));
  }
}
