/** Restart intervals given in MCU rows: restarts fall at the ends of rows and nowhere else. */
module RestartRows {
  import opened Arithmetic
  import opened ByteStuffing
  import opened EntropyOps
  import opened ScanCoding
  import opened RestartCoding
  import opened EncodingPass
  import G = Geometry

  /** After n MCUs: how many are left in the interval. A restart is never due before the first one. */
  lemma {:induction false} TogoAfter(scan: Scan, mcus: seq<Mcu>)
    requires scan.Wf() && McusFit(scan, mcus) && scan.restart > 0
    ensures var n := |mcus|;
            PassAfter(scan, mcus).togo == if n == 0 then scan.restart else scan.restart - 1 - (n - 1) % scan.restart
  {
    hide StepCoder, CoderOk, FreshCoder;
    if |mcus| == 1 {
      assert mcus[..0] == [];
      SmallMod(0, scan.restart);
    } else if |mcus| > 1 {
      TogoAfter(scan, mcus[..|mcus| - 1]);
      OneMore(|mcus| - 2, scan.restart);
    }
  }

  lemma OneMore(n: nat, d: nat)
    requires d > 0
    ensures (n + 1) % d == if n % d == d - 1 then 0 else n % d + 1
  {
    DivMod(n, d);
    NextIn(n / d, n % d, d);
  }

  lemma NextIn(q: nat, r: nat, d: nat)
    requires r < d
    ensures (q * d + r + 1) % d == if r == d - 1 then 0 else r + 1
  {
    if r == d - 1 {
      Distribute(q, 1, d);
      DivModUnique(q * d + r + 1, d, q + 1, 0);
    } else {
      DivModUnique(q * d + r + 1, d, q, r + 1);
    }
  }

  /** Within a scan, a restart comes before every MCU whose number is a multiple of the interval, the first excepted. */
  lemma RestartWhere(scan: Scan, book: Codebook, base: seq<byte>, mcus: seq<Mcu>)
    requires scan.Wf() && McusFit(scan, mcus) && scan.restart > 0
    ensures StateOk(scan, StartState(scan, base))
    ensures RestartDue(scan, EncodeAll(scan, book, StartState(scan, base), mcus)) <==> |mcus| > 0 && |mcus| % scan.restart == 0
  {
    hide EncodeAll, PassAfter, CoderOk;
    StartOk(scan, base);
    PassIsState(scan, book, base, mcus);
    TogoAfter(scan, mcus);
    if |mcus| > 0 {
      OneMore(|mcus| - 1, scan.restart);
    }
  }

  /** The number of the next restart marker: restarts are counted modulo 8. */
  lemma {:induction false} NumAfter(scan: Scan, book: Codebook, base: seq<byte>, mcus: seq<Mcu>)
    requires scan.Wf() && McusFit(scan, mcus) && scan.restart > 0
    ensures StateOk(scan, StartState(scan, base))
    ensures var n := |mcus|;
            EncodeAll(scan, book, StartState(scan, base), mcus).num == if n == 0 then 0 else ((n - 1) / scan.restart) % 8
    decreases |mcus|
  {
    hide CoderOk, FreshCoder, Closed, NextCoder, McuOps;
    StartOk(scan, base);
    if |mcus| > 0 {
      var front := mcus[..|mcus| - 1];
      NumAfter(scan, book, base, front);
      RestartWhere(scan, book, base, front);
      if |front| == 0 {
        DivModUnique(0, scan.restart, 0, 0);
      } else {
        NextNumber(|front|, scan.restart);
      }
    }
  }

  lemma NextNumber(n: nat, d: nat)
    requires d > 0 && n > 0
    ensures (n / d) % 8 == if n % d == 0 then ((n - 1) / d % 8 + 1) % 8 else (n - 1) / d % 8
  {
    DivMod(n, d);
    OneLess(n, n / d, n % d, d);
  }

  lemma OneLess(n: nat, q: nat, r: nat, d: nat)
    requires r < d && n > 0 && n == q * d + r
    ensures q == if r == 0 then (n - 1) / d + 1 else (n - 1) / d
  {
    if r == 0 {
      Distribute(q - 1, 1, d);
      DivModUnique(n - 1, d, q - 1, d - 1);
    } else {
      DivModUnique(n - 1, d, q, r - 1);
    }
  }

  /** The interval is closed, and the k-th restart of the scan is announced by the marker RSTm, m being k - 1 modulo 8. */
  lemma MarkerWritten(scan: Scan, book: Codebook, base: seq<byte>, mcus: seq<Mcu>, mcu: Mcu, k: nat)
    requires scan.Wf() && McusFit(scan, mcus) && McuFits(scan, mcu) && scan.restart > 0 && k > 0 && |mcus| == k * scan.restart
    ensures StateOk(scan, StartState(scan, base))
    ensures var s := EncodeAll(scan, book, StartState(scan, base), mcus);
            EncodeStep(scan, book, s, mcu).base == Closed(scan, book, s) + [0xFF, 0xD0 + (k - 1) % 8]
  {
    hide CoderOk, FreshCoder, Closed, NextCoder, McuOps, EncodeAll;
    StartOk(scan, base);
    G.MulLessEq(1, k, scan.restart);
    DivModUnique(|mcus|, scan.restart, k, 0);
    RestartWhere(scan, book, base, mcus);
    NumAfter(scan, book, base, mcus);
    Distribute(k - 1, 1, scan.restart);
    DivModUnique(|mcus| - 1, scan.restart, k - 1, scan.restart - 1);
  }

  /** MCUs numbered by row and column: a restart comes before the first MCU of every inRows-th row, unless the
      interval had to be cut to what 16 bits can hold. */
  lemma RestartsEndRows(scan: Scan, book: Codebook, base: seq<byte>, mcus: seq<Mcu>, inRows: int, perRow: nat, interval: nat, row: nat, col: nat)
    requires scan.Wf() && McusFit(scan, mcus) && scan.restart == G.RestartInterval(inRows, perRow, interval)
    requires inRows > 0 && inRows * perRow <= 65535 && col < perRow && |mcus| == row * perRow + col
    ensures StateOk(scan, StartState(scan, base))
    ensures RestartDue(scan, EncodeAll(scan, book, StartState(scan, base), mcus)) <==> row > 0 && row % inRows == 0 && col == 0
  {
    hide RestartDue, EncodeAll, StateOk;
    G.MulLessEq(1, inRows, perRow);
    RestartWhere(scan, book, base, mcus);
    WholeRows(row, col, inRows, perRow);
  }

  lemma WholeRows(row: nat, col: nat, inRows: nat, perRow: nat)
    requires inRows > 0 && col < perRow && inRows * perRow > 0
    ensures (row * perRow + col) % (inRows * perRow) == 0 <==> row % inRows == 0 && col == 0
    ensures row * perRow + col == 0 <==> row == 0 && col == 0
  {
    var a, b := row / inRows, row % inRows;
    DivMod(row, inRows);
    Distribute(a * inRows, b, perRow);
    Assoc(a, inRows, perRow);
    MulLess(b, inRows, perRow);
    assert row * perRow + col == a * (inRows * perRow) + (b * perRow + col);
    DivModUnique(row * perRow + col, inRows * perRow, a, b * perRow + col);
    if b > 0 {
      G.MulLessEq(1, b, perRow);
    }
    if row > 0 {
      G.MulLessEq(1, row, perRow);
    }
  }
}
