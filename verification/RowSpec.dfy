/** What the preprocessor should make of an image's scanlines: row groups, and iMCU-row strips padded
    at the bottom. Colour conversion and downsampling are given functions. */
module RowSpec {
  import opened Arithmetic
  import opened Geometry

  type Row = seq<int>

  /** A scanline after colour conversion: one row for each component. */
  type Converted = seq<Row>

  /** A row group after downsampling: for each component v_samp_factor rows. */
  type Group = seq<seq<Row>>

  type Strip = seq<Group>

  datatype Source = Source(rows: seq<Row>, maxV: nat, convert: Row -> Converted, downsample: seq<Converted> -> Group) {
    predicate Ok() { |rows| > 0 && 1 <= maxV <= MAX_SAMP_FACTOR }

    function Height(): nat { |rows| }

    /** Scanline i, or the last one for positions below the image. */
    function RowAt(i: nat): Converted
      requires |rows| > 0
    {
      convert(rows[if i < |rows| then i else |rows| - 1])
    }

    /** The converted rows from i on. */
    function RowsFrom(i: nat, n: nat): (c: seq<Converted>)
      requires |rows| > 0
      ensures |c| == n
    {
      seq(n, j requires 0 <= j < n => RowAt(i + j))
    }

    function Groups(): nat
      requires maxV > 0
    {
      CeilDiv(|rows|, maxV)
    }

    function GroupAt(g: nat): Group
      requires |rows| > 0
    {
      downsample(RowsFrom(g * maxV, maxV))
    }

    /** Group g of the padded image: below the bottom, copies of each component's last row. */
    function PaddedGroup(g: nat): Group
      requires Ok()
    {
      if g < Groups() then GroupAt(g) else LastRows(GroupAt(Groups() - 1))
    }

    function IMcuRows(): nat
      requires maxV > 0
    {
      CeilDiv(|rows|, maxV * DCTSIZE)
    }

    /** The first n groups of strip r. */
    function StripPart(r: nat, n: nat): (s: Strip)
      requires Ok()
      ensures |s| == n
    {
      seq(n, j requires 0 <= j < n => PaddedGroup(r * DCTSIZE + j))
    }

    function StripAt(r: nat): Strip
      requires Ok()
    {
      StripPart(r, DCTSIZE)
    }
  }

  /** Each component's last row, as often as the component has rows in a group. */
  function LastRows(g: Group): Group {
    seq(|g|, i requires 0 <= i < |g| => if |g[i]| == 0 then [] else seq(|g[i]|, _ => g[i][|g[i]| - 1]))
  }

  /** Below the bottom of the image every row of a component repeats the last of the image's own rows; the groups
      have as many rows as the last one there. */
  lemma BottomRows(s: Source, r: nat, j: nat)
    requires s.Ok() && j < 8
    ensures |s.StripAt(r)| == 8
    ensures r * 8 + j < s.Groups() ==> s.StripAt(r)[j] == s.GroupAt(r * 8 + j)
    ensures r * 8 + j >= s.Groups() ==>
              var (padding, last) := (s.StripAt(r)[j], s.GroupAt(s.Groups() - 1));
              && |padding| == |last|
              && forall i :: 0 <= i < |last| ==>
                   && |padding[i]| == |last[i]|
                   && forall q :: 0 <= q < |last[i]| ==> padding[i][q] == last[i][|last[i]| - 1]
  {
    hide CeilDiv, Source.GroupAt;
    Counts(s);
    assert s.StripAt(r)[j] == s.PaddedGroup(r * 8 + j);
  }

  /** How many strips and groups there are, and where the last ones are. */
  lemma Counts(s: Source)
    requires s.Ok()
    ensures s.Groups() >= 1 && s.IMcuRows() >= 1 && s.IMcuRows() == CeilDiv(s.Groups(), DCTSIZE)
    ensures (s.Groups() - 1) * s.maxV < s.Height() <= s.Groups() * s.maxV
    ensures (s.IMcuRows() - 1) * DCTSIZE < s.Groups() <= s.IMcuRows() * DCTSIZE
  {
    hide CeilDiv;
    CeilDivBounds(s.Height(), s.maxV);
    var g, t := s.Groups(), CeilDiv(s.Groups(), DCTSIZE);
    CeilDivBounds(g, DCTSIZE);
    RowsOfStrips(s.Height(), s.maxV, g, t);
    CeilDivUnique(s.Height(), s.maxV * DCTSIZE, t);
  }

  lemma RowsOfStrips(height: nat, maxV: nat, g: nat, t: nat)
    requires maxV > 0 && g >= 1 && t >= 1 && (g - 1) * maxV < height <= g * maxV && (t - 1) * DCTSIZE < g <= t * DCTSIZE
    ensures (t - 1) * (maxV * DCTSIZE) < height <= t * (maxV * DCTSIZE)
  {
    Assoc(t - 1, DCTSIZE, maxV);
    Assoc(t, DCTSIZE, maxV);
    MulLessEq((t - 1) * DCTSIZE, g - 1, maxV);
    MulLessEq(g, t * DCTSIZE, maxV);
  }
}
