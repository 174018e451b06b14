/** Image geometry: sampling factors, sizes in blocks and MCUs, and how they fit together. */
module Geometry {
  import opened Arithmetic

  const DCTSIZE := 8
  const MAX_SAMP_FACTOR := 4
  const MAX_COMPONENTS := 10
  const MAX_COMPS_IN_SCAN := 4
  const JPEG_MAX_DIMENSION := 65500
  const C_MAX_BLOCKS_IN_MCU := 10
  const BITS_IN_JSAMPLE := 8

  /** jdiv_round_up */
  function CeilDiv(a: nat, b: nat): nat
    requires b > 0
  {
    (a + b - 1) / b
  }

  lemma CeilDivBounds(a: nat, b: nat)
    requires b > 0
    ensures CeilDiv(a, b) * b >= a && (a > 0 ==> CeilDiv(a, b) >= 1 && (CeilDiv(a, b) - 1) * b < a) && (a == 0 ==> CeilDiv(a, b) == 0)
  {
    var q := CeilDiv(a, b);
    DivMod(a + b - 1, b);
    assert q * b + (a + b - 1) % b == a + b - 1;
    if a == 0 {
      SmallMod(b - 1, b);
      DivModUnique(b - 1, b, 0, b - 1);
    } else {
      assert (q - 1) * b == q * b - b;
    }
  }

  lemma CeilDivUnique(a: nat, b: nat, q: nat)
    requires b > 0 && a > 0 && q >= 1 && (q - 1) * b < a <= q * b
    ensures CeilDiv(a, b) == q
  {
    var p := CeilDiv(a, b);
    CeilDivBounds(a, b);
    if p < q {
      MulLessEq(p, q - 1, b);
    } else if p > q {
      MulLessEq(q, p - 1, b);
    }
  }

  lemma MulLessEq(x: nat, y: nat, b: nat)
    requires x <= y
    ensures x * b <= y * b
  {}

  /** Rounding up to blocks and then to MCUs is rounding up to MCUs at once. */
  lemma NestedCeiling(a: nat, h: nat, b: nat)
    requires a > 0 && h > 0 && b > 0
    ensures CeilDiv(a * h, b) >= 1 && CeilDiv(CeilDiv(a * h, b), h) == CeilDiv(a, b)
  {
    var m, w := CeilDiv(a, b), CeilDiv(a * h, b);
    assert a * h > 0;
    CeilDivBounds(a, b);
    CeilDivBounds(a * h, b);
    NestedBounds(a, h, b, m, w);
    CeilDivUnique(w, h, m);
  }

  lemma NestedBounds(a: nat, h: nat, b: nat, m: nat, w: nat)
    requires h > 0 && b > 0 && m >= 1 && w >= 1
    requires (m - 1) * b < a <= m * b && (w - 1) * b < a * h <= w * b
    ensures (m - 1) * h < w <= m * h
  {
    assert ((m - 1) * h) * b < w * b by {
      Assoc(m - 1, h, b);
      Assoc(m - 1, b, h);
      MulLess((m - 1) * b, a, h);
    }
    CancelLess((m - 1) * h, w, b);
    assert (w - 1) * b < (m * h) * b by {
      MulLessEq(a, m * b, h);
      Assoc(m, b, h);
      Assoc(m, h, b);
    }
    CancelLess(w - 1, m * h, b);
  }

  /** How many of m places the last of the groups of m is left with. */
  function LastOf(n: nat, m: nat): nat
    requires m > 0
  {
    if n % m == 0 then m else n % m
  }

  lemma LastOfIs(n: nat, m: nat)
    requires m > 0 && n > 0
    ensures CeilDiv(n, m) >= 1 && 1 <= LastOf(n, m) <= m && (CeilDiv(n, m) - 1) * m + LastOf(n, m) == n
  {
    var q := CeilDiv(n, m);
    CeilDivBounds(n, m);
    var r := n - (q - 1) * m;
    assert q * m == (q - 1) * m + m;
    if r == m {
      DivModUnique(n, m, q, 0);
    } else {
      DivModUnique(n, m, q - 1, r);
    }
  }

  // ----- initial_setup -----

  /** A component: sampling factors, and its size in blocks. */
  datatype Component = Component(h: nat, v: nat, widthInBlocks: nat, heightInBlocks: nat)

  datatype Image = Image(width: nat, height: nat, maxH: nat, maxV: nat, comps: seq<Component>, totalRows: nat) {
    /** Everything that initial_setup establishes. */
    ghost predicate Ok() {
      && width > 0 && height > 0 && 1 <= maxH <= MAX_SAMP_FACTOR && 1 <= maxV <= MAX_SAMP_FACTOR
      && 0 < |comps| <= MAX_COMPONENTS
      && totalRows == CeilDiv(height, maxV * DCTSIZE)
      && forall ci :: 0 <= ci < |comps| ==> ComponentOk(comps[ci])
    }

    ghost predicate ComponentOk(c: Component)
      requires maxH > 0 && maxV > 0
    {
      && 1 <= c.h <= maxH && 1 <= c.v <= maxV
      && c.widthInBlocks == CeilDiv(width * c.h, maxH * DCTSIZE) && c.heightInBlocks == CeilDiv(height * c.v, maxV * DCTSIZE)
    }

    /** MCUs across the image in a fully interleaved scan. */
    function McusAcross(): nat
      requires maxH > 0
    {
      CeilDiv(width, maxH * DCTSIZE)
    }
  }

  /** The size in MCUs is the size in blocks rounded up to the component's sampling factors. */
  lemma McusHoldBlocks(im: Image, c: Component)
    requires im.Ok() && im.ComponentOk(c)
    ensures c.widthInBlocks >= 1 && c.heightInBlocks >= 1
    ensures im.McusAcross() == CeilDiv(c.widthInBlocks, c.h) >= 1 && im.totalRows == CeilDiv(c.heightInBlocks, c.v) >= 1
    ensures (im.McusAcross() - 1) * c.h + LastOf(c.widthInBlocks, c.h) == c.widthInBlocks
    ensures (im.totalRows - 1) * c.v + LastOf(c.heightInBlocks, c.v) == c.heightInBlocks
  {
    hide CeilDiv, LastOf;
    NestedCeiling(im.width, c.h, im.maxH * DCTSIZE);
    NestedCeiling(im.height, c.v, im.maxV * DCTSIZE);
    LastOfIs(c.widthInBlocks, c.h);
    LastOfIs(c.heightInBlocks, c.v);
  }

  datatype SetupError = EmptyImage | ImageTooBig | WidthOverflow | BadPrecision | TooManyComponents | BadSampling | BadMcuSize
  datatype SetupResult = Ready(im: Image) | Bad(error: SetupError)

  predicate GoodFactor(f: (int, int)) {
    1 <= f.0 <= 4 && 1 <= f.1 <= 4
  }

  function ComponentFor(width: nat, height: nat, maxH: nat, maxV: nat, f: (int, int)): Component
    requires maxH > 0 && maxV > 0 && GoodFactor(f)
  {
    Component(f.0, f.1, CeilDiv(width * f.0, maxH * DCTSIZE), CeilDiv(height * f.1, maxV * DCTSIZE))
  }

  /** The first loop: the largest sampling factors, if all are valid. */
  method MaxFactors(factors: seq<(int, int)>) returns (ok: bool, maxH: nat, maxV: nat)
    ensures ok <==> forall ci :: 0 <= ci < |factors| ==> GoodFactor(factors[ci])
    ensures ok ==> 1 <= maxH <= MAX_SAMP_FACTOR && 1 <= maxV <= MAX_SAMP_FACTOR
    ensures ok ==> forall ci :: 0 <= ci < |factors| ==> factors[ci].0 <= maxH && factors[ci].1 <= maxV
    ensures ok && |factors| > 0 ==> (exists ci :: 0 <= ci < |factors| && factors[ci].0 == maxH) && (exists ci :: 0 <= ci < |factors| && factors[ci].1 == maxV)
  {
    maxH, maxV := 1, 1;
    ghost var wh: nat, wv: nat := 0, 0;
    var ci := 0;
    while ci < |factors|
      invariant ci <= |factors| && 1 <= maxH <= MAX_SAMP_FACTOR && 1 <= maxV <= MAX_SAMP_FACTOR
      invariant forall i :: 0 <= i < ci ==> GoodFactor(factors[i]) && factors[i].0 <= maxH && factors[i].1 <= maxV
      invariant ci == 0 ==> maxH == maxV == 1
      invariant ci > 0 ==> wh < ci && factors[wh].0 == maxH && wv < ci && factors[wv].1 == maxV
    {
      var f := factors[ci];
      if f.0 <= 0 || f.0 > MAX_SAMP_FACTOR || f.1 <= 0 || f.1 > MAX_SAMP_FACTOR {
        return false, maxH, maxV;
      }
      wh := if ci == 0 || f.0 > maxH then ci else wh;
      wv := if ci == 0 || f.1 > maxV then ci else wv;
      maxH := if f.0 > maxH then f.0 else maxH;
      maxV := if f.1 > maxV then f.1 else maxV;
      ci := ci + 1;
    }
    ok := true;
  }

  /** initial_setup, for a JDIMENSION of `dimensionLimit` values. */
  method InitialSetup(width: nat, height: nat, inputComponents: nat, dataPrecision: int, factors: seq<(int, int)>, dimensionLimit: nat)
    returns (r: SetupResult)
    ensures r.Ready? <==> 1 <= width <= 65500 && 1 <= height <= 65500 && inputComponents > 0
                          && width * inputComponents < dimensionLimit && dataPrecision == 8 && 1 <= |factors| <= 10
                          && forall ci :: 0 <= ci < |factors| ==> GoodFactor(factors[ci])
    ensures r.Ready? ==> r.im.Ok() && r.im.width == width && r.im.height == height && |r.im.comps| == |factors|
    ensures r.Ready? ==> (exists ci :: 0 <= ci < |factors| && factors[ci].0 == r.im.maxH) && (exists ci :: 0 <= ci < |factors| && factors[ci].1 == r.im.maxV)
    ensures r.Ready? ==> r.im.totalRows == CeilDiv(height, r.im.maxV * 8)
    ensures r.Ready? ==> forall ci :: 0 <= ci < |factors| ==>
              && r.im.comps[ci].h == factors[ci].0 <= r.im.maxH && r.im.comps[ci].v == factors[ci].1 <= r.im.maxV
              && r.im.comps[ci].widthInBlocks == CeilDiv(width * factors[ci].0, r.im.maxH * 8)
              && r.im.comps[ci].heightInBlocks == CeilDiv(height * factors[ci].1, r.im.maxV * 8)
  {
    hide CeilDiv;
    if height <= 0 || width <= 0 || |factors| <= 0 || inputComponents <= 0 {
      return Bad(EmptyImage);
    }
    if height > JPEG_MAX_DIMENSION || width > JPEG_MAX_DIMENSION {
      return Bad(ImageTooBig);
    }
    if width * inputComponents >= dimensionLimit {
      return Bad(WidthOverflow);
    }
    if dataPrecision != BITS_IN_JSAMPLE {
      return Bad(BadPrecision);
    }
    if |factors| > MAX_COMPONENTS {
      return Bad(TooManyComponents);
    }
    var ok, maxH, maxV := MaxFactors(factors);
    if !ok {
      return Bad(BadSampling);
    }
    var comps: seq<Component> := [];
    var ci := 0;
    while ci < |factors|
      invariant ci <= |factors| && |comps| == ci
      invariant forall i :: 0 <= i < ci ==> comps[i] == ComponentFor(width, height, maxH, maxV, factors[i])
    {
      comps := comps + [ComponentFor(width, height, maxH, maxV, factors[ci])];
      ci := ci + 1;
    }
    r := Ready(Image(width, height, maxH, maxV, comps, CeilDiv(height, maxV * DCTSIZE)));
  }

  // ----- per_scan_setup -----

  /** A scan's MCU structure. mcuWidth and mcuHeight are per component of the scan. */
  datatype ScanShape = ScanShape(mcusPerRow: nat, mcuWidth: seq<nat>, mcuHeight: seq<nat>, lastColWidth: seq<nat>, lastRowHeight: seq<nat>,
                                 membership: seq<nat>)

  datatype ShapeResult = Shaped(shape: ScanShape) | Misshapen(error: SetupError)

  /** Blocks of the first n components in one interleaved MCU. */
  function McuBlocks(comps: seq<Component>, n: nat): nat
    requires n <= |comps|
  {
    if n == 0 then 0 else McuBlocks(comps, n - 1) + comps[n - 1].h * comps[n - 1].v
  }

  /** The component each block of an interleaved MCU belongs to. */
  function Members(comps: seq<Component>, n: nat): (m: seq<nat>)
    requires n <= |comps|
    ensures |m| == McuBlocks(comps, n) && forall i :: 0 <= i < |m| ==> m[i] < n
  {
    if n == 0 then [] else Members(comps, n - 1) + seq(comps[n - 1].h * comps[n - 1].v, _ => n - 1)
  }

  /** The shape of a scan over these components. */
  function ShapeOf(im: Image, comps: seq<Component>): ScanShape
    requires im.maxH > 0 && |comps| > 0 && forall ci :: 0 <= ci < |comps| ==> comps[ci].h > 0 && comps[ci].v > 0
  {
    if |comps| == 1 then ScanShape(comps[0].widthInBlocks, [1], [1], [1], [LastOf(comps[0].heightInBlocks, comps[0].v)], [0])
    else ScanShape(im.McusAcross(),
                   seq(|comps|, ci requires 0 <= ci < |comps| => comps[ci].h),
                   seq(|comps|, ci requires 0 <= ci < |comps| => comps[ci].v),
                   seq(|comps|, ci requires 0 <= ci < |comps| => LastOf(comps[ci].widthInBlocks, comps[ci].h)),
                   seq(|comps|, ci requires 0 <= ci < |comps| => LastOf(comps[ci].heightInBlocks, comps[ci].v)),
                   Members(comps, |comps|))
  }

  /** The prefix of a growing MCU is within bounds when the whole is. */
  lemma {:induction false} McuBlocksGrow(comps: seq<Component>, m: nat, n: nat)
    requires m <= n <= |comps|
    ensures McuBlocks(comps, m) <= McuBlocks(comps, n)
    decreases n - m
  {
    if m < n {
      McuBlocksGrow(comps, m, n - 1);
      assert comps[n - 1].h * comps[n - 1].v >= 0;
    }
  }

  /** The loop that lists a component's blocks in the MCU. */
  method AppendMembers(before: seq<nat>, ci: nat, count: nat) returns (membership: seq<nat>)
    ensures membership == before + seq(count, _ => ci)
  {
    membership := before;
    var mcublks := count;
    while mcublks > 0
      invariant 0 <= mcublks <= count && membership == before + seq(count - mcublks, _ => ci)
    {
      membership := membership + [ci];
      mcublks := mcublks - 1;
    }
  }

  /** per_scan_setup for an interleaved scan: refuses MCUs of more than 10 blocks. */
  method InterleavedSetup(im: Image, comps: seq<Component>) returns (r: ShapeResult)
    requires 1 < |comps| <= MAX_COMPS_IN_SCAN
    requires im.maxH > 0 && forall ci :: 0 <= ci < |comps| ==> comps[ci].h > 0 && comps[ci].v > 0
    ensures r.Shaped? <==> McuBlocks(comps, |comps|) <= C_MAX_BLOCKS_IN_MCU
    ensures r.Shaped? ==> r.shape == ShapeOf(im, comps)
  {
    hide CeilDiv, LastOf;
    var mcuWidth, mcuHeight, lastCol, lastRow, membership := [], [], [], [], [];
    var ci := 0;
    while ci < |comps|
      invariant ci <= |comps| && |mcuWidth| == |mcuHeight| == |lastCol| == |lastRow| == ci
      invariant forall i :: 0 <= i < ci ==> mcuWidth[i] == comps[i].h && mcuHeight[i] == comps[i].v
      invariant forall i :: 0 <= i < ci ==> lastCol[i] == LastOf(comps[i].widthInBlocks, comps[i].h)
      invariant forall i :: 0 <= i < ci ==> lastRow[i] == LastOf(comps[i].heightInBlocks, comps[i].v)
      invariant membership == Members(comps, ci) && |membership| <= C_MAX_BLOCKS_IN_MCU
    {
      var c := comps[ci];
      var width := LastBlocks(c.widthInBlocks, c.h);
      var height := LastBlocks(c.heightInBlocks, c.v);
      lastCol, lastRow := lastCol + [width], lastRow + [height];
      mcuWidth, mcuHeight := mcuWidth + [c.h], mcuHeight + [c.v];
      var mcublks := c.h * c.v;
      if |membership| + mcublks > C_MAX_BLOCKS_IN_MCU {
        McuBlocksGrow(comps, ci + 1, |comps|);
        return Misshapen(BadMcuSize);
      }
      membership := AppendMembers(membership, ci, mcublks);
      ci := ci + 1;
    }
    r := Shaped(ScanShape(im.McusAcross(), mcuWidth, mcuHeight, lastCol, lastRow, membership));
  }

  /** The blocks of the last MCU of a row or column that are not dummies. */
  method LastBlocks(total: nat, each: nat) returns (tmp: nat)
    requires each > 0
    ensures tmp == LastOf(total, each)
  {
    tmp := total % each;
    if tmp == 0 {
      tmp := each;
    }
  }

  /** An interval given in MCU rows is converted, and limited to what 16 bits can hold. */
  function RestartInterval(inRows: int, mcusPerRow: nat, interval: nat): nat {
    if inRows > 0 then (if inRows * mcusPerRow <= 65535 then inRows * mcusPerRow else 65535) else interval
  }

  /** per_scan_setup. */
  method PerScanSetup(im: Image, comps: seq<Component>, restartInRows: int, restartInterval: nat) returns (r: ShapeResult, restart: nat)
    requires im.maxH > 0 && forall ci :: 0 <= ci < |comps| ==> comps[ci].h > 0 && comps[ci].v > 0
    ensures r.Shaped? <==> |comps| == 1 || (1 < |comps| <= 4 && McuBlocks(comps, |comps|) <= 10)
    ensures r.Shaped? ==> r.shape == ShapeOf(im, comps)
    ensures r.Shaped? ==> restart == RestartInterval(restartInRows, r.shape.mcusPerRow, restartInterval)
  {
    hide CeilDiv;
    restart := restartInterval;
    if |comps| == 1 {
      var tmp := LastBlocks(comps[0].heightInBlocks, comps[0].v);
      r := Shaped(ScanShape(comps[0].widthInBlocks, [1], [1], [1], [tmp], [0]));
    } else {
      if |comps| <= 0 || |comps| > MAX_COMPS_IN_SCAN {
        return Misshapen(TooManyComponents), restart;
      }
      r := InterleavedSetup(im, comps);
      if r.Misshapen? {
        return;
      }
    }
    if restartInRows > 0 {
      var nominal := restartInRows * r.shape.mcusPerRow;
      restart := if nominal < 65535 then nominal else 65535;
    }
  }
}
