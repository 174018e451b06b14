/** The recommended progressive script passes validation for every number of components, and after
    it every coefficient of every component has been sent down to its last bit. */
module ProgressionLegal {
  import opened Coefficients
  import opened Geometry
  import opened ScanScript
  import opened SimpleProgression

  /** The first p scans are acceptable and lead to this table. */
  ghost predicate Reaches(script: seq<ScanInfo>, n: nat, p: nat, sent: Sent) {
    && p <= |script| && |sent| == n
    && StepsOk(NothingSent(n), script[..p]) && AfterAll(NothingSent(n), script[..p]) == sent
  }

  /** The row after bits down to al have been sent for a band. */
  function Fill(row: Row, ss: int, se: int, al: int): Row {
    seq(DCTSIZE2, k requires 0 <= k < DCTSIZE2 => if ss <= k <= se then al else row[k])
  }

  /** DC, the low band 1..5 and the high band 6..63 as far as they have been sent. */
  function Bands(dc: int, low: int, high: int): Row {
    seq(DCTSIZE2, k => if k == 0 then dc else if k <= 5 then low else high)
  }

  ghost predicate Next(row: Row, ss: int, se: int, ah: int, al: int) {
    && 0 <= ss <= se < DCTSIZE2 && 0 <= ah <= MAX_AH_AL && 0 <= al <= MAX_AH_AL && (ss == 0 ==> se == 0)
    && (ss != 0 ==> row[0] >= 0)
    && forall k :: ss <= k <= se ==> if row[k] < 0 then ah == 0 else ah == row[k] && al == ah - 1
  }

  lemma StartReaches(script: seq<ScanInfo>, n: nat)
    ensures Reaches(script, n, 0, seq(n, _ => Bands(-1, -1, -1)))
  {
    var none: Row := seq(DCTSIZE2, _ => -1);
    assert none == Bands(-1, -1, -1);
    assert NothingSent(n) == seq(n, _ => Bands(-1, -1, -1));
  }

  /** One scan of one component. */
  lemma AddOne(script: seq<ScanInfo>, n: nat, p: nat, sent: Sent, c: nat, ss: int, se: int, ah: int, al: int)
    requires Reaches(script, n, p, sent) && p < |script| && c < n
    requires PlanOf(script[p]) == Plan([c], ss, se, ah, al) && Next(sent[c], ss, se, ah, al)
    ensures Reaches(script, n, p + 1, sent[c := Fill(sent[c], ss, se, al)])
  {
    hide StepsOk, AfterAll;
    var s := script[p];
    OneComp(s, c);
    StepsNext(NothingSent(n), script, p);
    assert After(sent, s) == sent[c := Fill(sent[c], ss, se, al)];
  }

  lemma OneComp(s: ScanInfo, c: int)
    requires s.Comps() == [c]
    ensures s.compsInScan == 1 && s.componentIndex[0] == c
  {
    assert s.Comps()[0] == c;
  }

  function Mixed(row: Row, row': Row, m: nat, n: nat): Sent {
    seq(n, c => if c < m then row' else row)
  }

  /** One scan for each of the first m components, all at the same stage. */
  lemma {:induction false} AddEach(script: seq<ScanInfo>, n: nat, p: nat, row: Row, m: nat, ss: int, se: int, ah: int, al: int)
    requires m <= n && p + n <= |script| && Reaches(script, n, p, Mixed(row, row, 0, n)) && Next(row, ss, se, ah, al)
    requires forall c :: 0 <= c < n ==> PlanOf(script[p + c]) == Plan([c], ss, se, ah, al)
    ensures Reaches(script, n, p + m, Mixed(row, Fill(row, ss, se, al), m, n))
  {
    hide Reaches, Next, Fill;
    if m == 0 {
      assert Mixed(row, row, 0, n) == Mixed(row, Fill(row, ss, se, al), 0, n);
    } else {
      AddEach(script, n, p, row, m - 1, ss, se, ah, al);
      var sent := Mixed(row, Fill(row, ss, se, al), m - 1, n);
      AddOne(script, n, p + (m - 1), sent, m - 1, ss, se, ah, al);
      assert sent[m - 1 := Fill(row, ss, se, al)] == Mixed(row, Fill(row, ss, se, al), m, n);
    }
  }

  lemma AllMixed(row: Row, row': Row, n: nat)
    ensures Mixed(row, row', n, n) == Mixed(row', row', 0, n)
  {}

  /** A whole group of scans. */
  lemma AddGroup(script: seq<ScanInfo>, n: nat, p: nat, row: Row, ss: int, se: int, ah: int, al: int)
    requires p + n <= |script| && Reaches(script, n, p, Mixed(row, row, 0, n)) && Next(row, ss, se, ah, al)
    requires forall c :: 0 <= c < n ==> PlanOf(script[p + c]) == Plan([c], ss, se, ah, al)
    ensures Reaches(script, n, p + n, Mixed(Fill(row, ss, se, al), Fill(row, ss, se, al), 0, n))
  {
    hide Reaches, Next, Fill, Mixed;
    AddEach(script, n, p, row, n, ss, se, ah, al);
    AllMixed(row, Fill(row, ss, se, al), n);
  }

  /** The DC scans: one for all components when they fit, else one for each. */
  lemma AddDc(script: seq<ScanInfo>, n: nat, p: nat, sent: Sent, last: int, ah: int, al: int)
    requires 0 < n <= MAX_COMPS_IN_SCAN && p < |script| && Reaches(script, n, p, sent)
    requires PlanOf(script[p]) == Plan(Numbers(n), 0, 0, ah, al)
    requires forall c :: 0 <= c < n ==> sent[c][0] == last && Next(sent[c], 0, 0, ah, al)
    ensures Reaches(script, n, p + 1, seq(n, c requires 0 <= c < n => Fill(sent[c], 0, 0, al)))
  {
    hide StepsOk, AfterAll;
    var s := script[p];
    StepsNext(NothingSent(n), script, p);
    FirstComps(s, n);
    assert After(sent, s) == seq(n, c requires 0 <= c < n => Fill(sent[c], 0, 0, al));
  }

  lemma FirstComps(s: ScanInfo, n: nat)
    requires 0 < n && s.Comps() == Numbers(n)
    ensures GoodComps(s, n) && forall c :: 0 <= c < n ==> c in s.Comps()
  {
    forall c | 0 <= c < n
      ensures c in s.Comps()
    {
      assert s.Comps()[c] == c;
    }
  }

  lemma AddDcGroup(script: seq<ScanInfo>, n: nat, p: nat, row: Row, ah: int, al: int)
    requires 0 < n && p + |DcPlans(n, ah, al)| <= |script| && Reaches(script, n, p, Mixed(row, row, 0, n)) && Next(row, 0, 0, ah, al)
    requires forall i :: 0 <= i < |DcPlans(n, ah, al)| ==> PlanOf(script[p + i]) == DcPlans(n, ah, al)[i]
    ensures Reaches(script, n, p + |DcPlans(n, ah, al)|, Mixed(Fill(row, 0, 0, al), Fill(row, 0, 0, al), 0, n))
  {
    hide Reaches, Next, Fill;
    if n <= MAX_COMPS_IN_SCAN {
      assert DcPlans(n, ah, al)[0] == Plan(Numbers(n), 0, 0, ah, al);
      assert PlanOf(script[p + 0]) == Plan(Numbers(n), 0, 0, ah, al);
      AddDc(script, n, p, Mixed(row, row, 0, n), row[0], ah, al);
      assert seq(n, c requires 0 <= c < n => Fill(Mixed(row, row, 0, n)[c], 0, 0, al)) == Mixed(Fill(row, 0, 0, al), Fill(row, 0, 0, al), 0, n);
    } else {
      forall c | 0 <= c < n
        ensures PlanOf(script[p + c]) == Plan([c], 0, 0, ah, al)
      {
        assert DcPlans(n, ah, al)[c] == Plan([c], 0, 0, ah, al);
      }
      AddGroup(script, n, p, row, 0, 0, ah, al);
    }
  }

  lemma FillBands(dc: int, low: int, high: int, al: int)
    ensures Fill(Bands(dc, low, high), 0, 0, al) == Bands(al, low, high)
    ensures Fill(Bands(dc, low, high), 1, 5, al) == Bands(dc, al, high)
    ensures Fill(Bands(dc, low, high), 6, 63, al) == Bands(dc, low, al)
    ensures Fill(Bands(dc, low, high), 1, 63, al) == Bands(dc, al, al)
  {}

  /** The entries of the script from p on are these plans. */
  ghost predicate PlannedAt(script: seq<ScanInfo>, p: nat, plans: seq<Plan>) {
    p + |plans| <= |script| && forall i :: 0 <= i < |plans| ==> PlanOf(script[p + i]) == plans[i]
  }

  lemma PlannedSplit(script: seq<ScanInfo>, p: nat, a: seq<Plan>, b: seq<Plan>)
    requires PlannedAt(script, p, a + b)
    ensures PlannedAt(script, p, a) && PlannedAt(script, p + |a|, b)
  {
    forall i | 0 <= i < |a|
      ensures PlanOf(script[p + i]) == a[i]
    {
      assert (a + b)[i] == a[i];
    }
    forall i | 0 <= i < |b|
      ensures PlanOf(script[p + |a| + i]) == b[i]
    {
      assert (a + b)[|a| + i] == b[i];
    }
  }

  function Whole(n: nat, row: Row): Sent {
    Mixed(row, row, 0, n)
  }

  lemma EachStage(script: seq<ScanInfo>, n: nat, p: nat, row: Row, ss: int, se: int, ah: int, al: int)
    requires Reaches(script, n, p, Whole(n, row)) && Next(row, ss, se, ah, al) && PlannedAt(script, p, Each(n, ss, se, ah, al))
    ensures Reaches(script, n, p + n, Whole(n, Fill(row, ss, se, al)))
  {
    hide Reaches, Next, Fill, Mixed;
    forall c | 0 <= c < n
      ensures PlanOf(script[p + c]) == Plan([c], ss, se, ah, al)
    {
      assert Each(n, ss, se, ah, al)[c] == Plan([c], ss, se, ah, al);
    }
    AddGroup(script, n, p, row, ss, se, ah, al);
  }

  lemma DcStage(script: seq<ScanInfo>, n: nat, p: nat, row: Row, ah: int, al: int)
    requires 0 < n && Reaches(script, n, p, Whole(n, row)) && Next(row, 0, 0, ah, al) && PlannedAt(script, p, DcPlans(n, ah, al))
    ensures Reaches(script, n, p + |DcPlans(n, ah, al)|, Whole(n, Fill(row, 0, 0, al)))
  {
    hide Reaches, Next, Fill, Mixed, DcPlans;
    AddDcGroup(script, n, p, row, ah, al);
  }

  lemma GeneralSplit(script: seq<ScanInfo>, n: nat)
    requires PlannedAt(script, 0, GeneralPlans(n))
    ensures var d := |DcPlans(n, 0, 1)|;
            && |DcPlans(n, 1, 0)| == d
            && PlannedAt(script, 0, DcPlans(n, 0, 1)) && PlannedAt(script, d, Each(n, 1, 5, 0, 2))
            && PlannedAt(script, d + n, Each(n, 6, 63, 0, 2)) && PlannedAt(script, d + n + n, Each(n, 1, 63, 2, 1))
            && PlannedAt(script, d + n + n + n, DcPlans(n, 1, 0)) && PlannedAt(script, d + n + n + n + d, Each(n, 1, 63, 1, 0))
  {
    hide DcPlans, Each, PlannedAt;
    SameSize(n);
    var a := DcPlans(n, 0, 1);
    var b := a + Each(n, 1, 5, 0, 2);
    var c := b + Each(n, 6, 63, 0, 2);
    var d := c + Each(n, 1, 63, 2, 1);
    var e := d + DcPlans(n, 1, 0);
    PlannedSplit(script, 0, e, Each(n, 1, 63, 1, 0));
    PlannedSplit(script, 0, d, DcPlans(n, 1, 0));
    PlannedSplit(script, 0, c, Each(n, 1, 63, 2, 1));
    PlannedSplit(script, 0, b, Each(n, 6, 63, 0, 2));
    PlannedSplit(script, 0, a, Each(n, 1, 5, 0, 2));
  }

  lemma NextDc(dc: int, low: int, high: int, ah: int, al: int)
    requires (dc == -1 && ah == 0 && 0 <= al <= MAX_AH_AL) || (0 < dc == ah <= MAX_AH_AL && al == ah - 1)
    ensures Next(Bands(dc, low, high), 0, 0, ah, al)
  {}

  lemma NextAc(dc: int, low: int, high: int, ss: int, se: int, ah: int, al: int)
    requires dc >= 0 && 0 < ss <= se < DCTSIZE2 && 0 <= al <= MAX_AH_AL && 0 <= ah <= MAX_AH_AL
    requires ss <= 5 ==> if low < 0 then ah == 0 else ah == low && al == ah - 1
    requires se > 5 ==> if high < 0 then ah == 0 else ah == high && al == ah - 1
    ensures Next(Bands(dc, low, high), ss, se, ah, al)
  {}

  /** The general script, stage by stage. */
  lemma GeneralReaches(script: seq<ScanInfo>, n: nat)
    requires 0 < n && PlannedAt(script, 0, GeneralPlans(n))
    ensures Reaches(script, n, |GeneralPlans(n)|, Whole(n, Bands(0, 0, 0)))
  {
    hide Reaches, Next, Fill, Bands, Mixed, DcPlans, Each, PlannedAt, GeneralPlans;
    GeneralSplit(script, n);
    var d := |DcPlans(n, 0, 1)|;
    StartWhole(script, n);
    NextDc(-1, -1, -1, 0, 1);
    DcStage(script, n, 0, Bands(-1, -1, -1), 0, 1);
    FillBands(-1, -1, -1, 1);
    NextAc(1, -1, -1, 1, 5, 0, 2);
    EachStage(script, n, d, Bands(1, -1, -1), 1, 5, 0, 2);
    FillBands(1, -1, -1, 2);
    NextAc(1, 2, -1, 6, 63, 0, 2);
    EachStage(script, n, d + n, Bands(1, 2, -1), 6, 63, 0, 2);
    FillBands(1, 2, -1, 2);
    NextAc(1, 2, 2, 1, 63, 2, 1);
    EachStage(script, n, d + n + n, Bands(1, 2, 2), 1, 63, 2, 1);
    FillBands(1, 2, 2, 1);
    NextDc(1, 1, 1, 1, 0);
    DcStage(script, n, d + n + n + n, Bands(1, 1, 1), 1, 0);
    FillBands(1, 1, 1, 0);
    NextAc(0, 1, 1, 1, 63, 1, 0);
    EachStage(script, n, d + n + n + n + d, Bands(0, 1, 1), 1, 63, 1, 0);
    FillBands(0, 1, 1, 0);
    GeneralSize(n);
  }

  lemma StartWhole(script: seq<ScanInfo>, n: nat)
    ensures Reaches(script, n, 0, Whole(n, Bands(-1, -1, -1)))
  {
    hide Reaches, Bands;
    StartReaches(script, n);
    assert seq(n, _ => Bands(-1, -1, -1)) == Whole(n, Bands(-1, -1, -1));
  }

  lemma GeneralSize(n: nat)
    ensures |GeneralPlans(n)| == |DcPlans(n, 0, 1)| + n + n + n + |DcPlans(n, 0, 1)| + n
  {
    SameSize(n);
    hide DcPlans, Each;
  }

  // ----- the custom script for YCbCr -----

  function Three(a: Row, b: Row, c: Row): Sent {
    [a, b, c]
  }

  /** An AC scan of component c, whose row becomes next. */
  lemma ColorOne(script: seq<ScanInfo>, p: nat, x: Row, y: Row, z: Row, c: nat, dc: int, low: int, high: int,
                 ss: int, se: int, ah: int, al: int, next: Row)
    requires Reaches(script, 3, p, Three(x, y, z)) && p < |script| && c < 3
    requires (if c == 0 then x else if c == 1 then y else z) == Bands(dc, low, high)
    requires PlanOf(script[p]) == Plan([c], ss, se, ah, al) && next == Fill(Bands(dc, low, high), ss, se, al)
    requires dc >= 0 && 0 < ss <= se < DCTSIZE2 && 0 <= al <= MAX_AH_AL && 0 <= ah <= MAX_AH_AL
    requires ss <= 5 ==> if low < 0 then ah == 0 else ah == low && al == ah - 1
    requires se > 5 ==> if high < 0 then ah == 0 else ah == high && al == ah - 1
    ensures Reaches(script, 3, p + 1, Three(if c == 0 then next else x, if c == 1 then next else y, if c == 2 then next else z))
  {
    hide Reaches, Next, Fill, Bands;
    NextAc(dc, low, high, ss, se, ah, al);
    AddOne(script, 3, p, Three(x, y, z), c, ss, se, ah, al);
    assert Three(x, y, z)[c := next] == Three(if c == 0 then next else x, if c == 1 then next else y, if c == 2 then next else z);
  }

  /** The DC scan that finishes all three components, whatever their AC state. */
  lemma ColorDc(script: seq<ScanInfo>, p: nat, x: int)
    requires Reaches(script, 3, p, Three(Bands(1, x, x), Bands(1, x, x), Bands(1, x, x))) && p < |script|
    requires PlanOf(script[p]) == Plan(Numbers(3), 0, 0, 1, 0)
    ensures Reaches(script, 3, p + 1, Three(Bands(0, x, x), Bands(0, x, x), Bands(0, x, x)))
  {
    hide Reaches, Fill, Bands, Next;
    var sent := Three(Bands(1, x, x), Bands(1, x, x), Bands(1, x, x));
    NextDc(1, x, x, 1, 0);
    FillBands(1, x, x, 0);
    DcIs(1, x, x);
    AddDc(script, 3, p, sent, 1, 1, 0);
    assert seq(3, c requires 0 <= c < 3 => Fill(sent[c], 0, 0, 0)) == Three(Bands(0, x, x), Bands(0, x, x), Bands(0, x, x));
  }

  lemma DcIs(dc: int, low: int, high: int)
    ensures Bands(dc, low, high)[0] == dc
  {}

  lemma ColorStart(script: seq<ScanInfo>)
    requires |script| > 0 && PlanOf(script[0]) == Plan(Numbers(3), 0, 0, 0, 1)
    ensures Reaches(script, 3, 1, Three(Bands(1, -1, -1), Bands(1, -1, -1), Bands(1, -1, -1)))
  {
    hide Reaches, Fill, Bands, Next;
    StartReaches(script, 3);
    var sent: Sent := seq(3, _ => Bands(-1, -1, -1));
    NextDc(-1, -1, -1, 0, 1);
    FillBands(-1, -1, -1, 1);
    DcIs(-1, -1, -1);
    AddDc(script, 3, 0, sent, -1, 0, 1);
    assert seq(3, c requires 0 <= c < 3 => Fill(sent[c], 0, 0, 1)) == Three(Bands(1, -1, -1), Bands(1, -1, -1), Bands(1, -1, -1));
  }

  lemma ColorFirstHalf(script: seq<ScanInfo>)
    requires PlannedAt(script, 0, ColorPlans())
    ensures |script| >= 10 && Reaches(script, 3, 6, Three(Bands(1, 1, 1), Bands(1, 1, 1), Bands(1, 1, 1)))
  {
    ColorEntries(script);
    hide Reaches, Fill, Bands, Next, PlannedAt, ColorPlans, Three, PlanOf, Numbers;
    ColorStart(script);
    var dc, one, low, both := Bands(1, -1, -1), Bands(1, 1, 1), Bands(1, 2, -1), Bands(1, 2, 2);
    FillBands(1, -1, -1, 2);
    ColorOne(script, 1, dc, dc, dc, 0, 1, -1, -1, 1, 5, 0, 2, low);
    FillBands(1, -1, -1, 1);
    ColorOne(script, 2, low, dc, dc, 2, 1, -1, -1, 1, 63, 0, 1, one);
    ColorOne(script, 3, low, dc, one, 1, 1, -1, -1, 1, 63, 0, 1, one);
    FillBands(1, 2, -1, 2);
    ColorOne(script, 4, low, one, one, 0, 1, 2, -1, 6, 63, 0, 2, both);
    FillBands(1, 2, 2, 1);
    ColorOne(script, 5, both, one, one, 0, 1, 2, 2, 1, 63, 2, 1, one);
  }

  lemma ColorPlansAre()
    ensures ColorPlans() == [Plan(Numbers(3), 0, 0, 0, 1), Plan([0], 1, 5, 0, 2), Plan([2], 1, 63, 0, 1), Plan([1], 1, 63, 0, 1),
                             Plan([0], 6, 63, 0, 2), Plan([0], 1, 63, 2, 1), Plan(Numbers(3), 0, 0, 1, 0), Plan([2], 1, 63, 1, 0),
                             Plan([1], 1, 63, 1, 0), Plan([0], 1, 63, 1, 0)]
  {
    hide Numbers;
  }

  lemma ColorEntries(script: seq<ScanInfo>)
    requires PlannedAt(script, 0, ColorPlans())
    ensures |script| >= 10
    ensures PlanOf(script[0]) == Plan(Numbers(3), 0, 0, 0, 1) && PlanOf(script[1]) == Plan([0], 1, 5, 0, 2)
    ensures PlanOf(script[2]) == Plan([2], 1, 63, 0, 1) && PlanOf(script[3]) == Plan([1], 1, 63, 0, 1)
    ensures PlanOf(script[4]) == Plan([0], 6, 63, 0, 2) && PlanOf(script[5]) == Plan([0], 1, 63, 2, 1)
    ensures PlanOf(script[6]) == Plan(Numbers(3), 0, 0, 1, 0) && PlanOf(script[7]) == Plan([2], 1, 63, 1, 0)
    ensures PlanOf(script[8]) == Plan([1], 1, 63, 1, 0) && PlanOf(script[9]) == Plan([0], 1, 63, 1, 0)
  {
    hide ColorPlans, Numbers, PlanOf;
    ColorPlansAre();
    assert forall i :: 0 <= i < 10 ==> PlanOf(script[0 + i]) == ColorPlans()[i];
    assert PlanOf(script[0 + 0]) == ColorPlans()[0] && PlanOf(script[0 + 1]) == ColorPlans()[1] && PlanOf(script[0 + 2]) == ColorPlans()[2];
    assert PlanOf(script[0 + 3]) == ColorPlans()[3] && PlanOf(script[0 + 4]) == ColorPlans()[4] && PlanOf(script[0 + 5]) == ColorPlans()[5];
    assert PlanOf(script[0 + 6]) == ColorPlans()[6] && PlanOf(script[0 + 7]) == ColorPlans()[7];
    assert PlanOf(script[0 + 8]) == ColorPlans()[8] && PlanOf(script[0 + 9]) == ColorPlans()[9];
  }

  /** The custom script, scan by scan. */
  lemma ColorReaches(script: seq<ScanInfo>)
    requires PlannedAt(script, 0, ColorPlans())
    ensures Reaches(script, 3, 10, Whole(3, Bands(0, 0, 0)))
  {
    ColorEntries(script);
    ColorFirstHalf(script);
    hide Reaches, Fill, Bands, Next, PlannedAt, ColorPlans, PlanOf, Numbers;
    ColorDc(script, 6, 1);
    var one, zero := Bands(0, 1, 1), Bands(0, 0, 0);
    FillBands(0, 1, 1, 0);
    ColorOne(script, 7, one, one, one, 2, 0, 1, 1, 1, 63, 1, 0, zero);
    ColorOne(script, 8, one, one, zero, 1, 0, 1, 1, 1, 63, 1, 0, zero);
    ColorOne(script, 9, one, zero, zero, 0, 0, 1, 1, 1, 63, 1, 0, zero);
    assert Three(zero, zero, zero) == Whole(3, zero);
  }

  // ----- the result -----

  /** For any number of components: the recommended script is accepted, as progressive, and afterwards
      every coefficient of every component has final Al = 0. */
  lemma RecommendedIsComplete(script: seq<ScanInfo>, n: nat, ycc: bool)
    requires n > 0 && |script| == |Plans(n, ycc)| && PlannedAt(script, 0, Plans(n, ycc))
    ensures script != [] && IsProgressive(script) && ProgressiveLegal(script, n)
    ensures forall c, k :: 0 <= c < n && 0 <= k < DCTSIZE2 ==> AfterAll(NothingSent(n), script)[c][k] == 0
  {
    hide Bands, StepsOk, AfterAll, PlannedAt;
    if n == 3 && ycc {
      ColorSize();
      ColorReaches(script);
    } else {
      GeneralReaches(script, n);
    }
    assert script[..|script|] == script;
    FirstIsDc(script, n, ycc);
    AllZero();
  }

  lemma AllZero()
    ensures forall k :: 0 <= k < DCTSIZE2 ==> Bands(0, 0, 0)[k] == 0
  {}

  lemma FirstIsDc(script: seq<ScanInfo>, n: nat, ycc: bool)
    requires n > 0 && PlannedAt(script, 0, Plans(n, ycc))
    ensures script != [] && script[0].ss == 0 && script[0].se == 0
  {
    var p := Plans(n, ycc);
    if n == 3 && ycc {
      assert p[0] == DcPlans(3, 0, 1)[0];
    } else {
      GeneralFirst(n);
    }
    assert PlanOf(script[0 + 0]) == p[0];
  }

  lemma GeneralFirst(n: nat)
    requires n > 0
    ensures |GeneralPlans(n)| > 0 && GeneralPlans(n)[0] == DcPlans(n, 0, 1)[0] && DcPlans(n, 0, 1)[0].ss == 0 == DcPlans(n, 0, 1)[0].se
  {
    hide Each;
    if n > MAX_COMPS_IN_SCAN {
      assert DcPlans(n, 0, 1) == Each(n, 0, 0, 0, 1);
      EachFirst(n);
    }
  }

  lemma EachFirst(n: nat)
    requires n > 0
    ensures Each(n, 0, 0, 0, 1)[0].ss == 0 == Each(n, 0, 0, 0, 1)[0].se
  {}
}
