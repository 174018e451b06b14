/** The recommended progressive script: how it is generated, that it fills exactly the space
    computed for it, that it is always accepted, and that it sends every bit of every coefficient. */
module SimpleProgression {
  import opened Coefficients
  import opened Geometry
  import opened ScanScript

  /** What matters of a script entry. */
  datatype Plan = Plan(comps: seq<int>, ss: int, se: int, ah: int, al: int)

  function PlanOf(s: ScanInfo): Plan {
    Plan(s.Comps(), s.ss, s.se, s.ah, s.al)
  }

  function Numbers(n: nat): (s: seq<int>)
    ensures |s| == n && forall i :: 0 <= i < n ==> s[i] == i
  {
    seq(n, i => i)
  }

  /** One scan for each component. */
  function Each(n: nat, ss: int, se: int, ah: int, al: int): (p: seq<Plan>)
    ensures |p| == n
  {
    seq(n, c => Plan([c], ss, se, ah, al))
  }

  function DcPlans(n: nat, ah: int, al: int): seq<Plan> {
    if n <= MAX_COMPS_IN_SCAN then [Plan(Numbers(n), 0, 0, ah, al)] else Each(n, 0, 0, ah, al)
  }

  function GeneralPlans(n: nat): seq<Plan> {
    DcPlans(n, 0, 1) + Each(n, 1, 5, 0, 2) + Each(n, 6, 63, 0, 2) + Each(n, 1, 63, 2, 1) + DcPlans(n, 1, 0) + Each(n, 1, 63, 1, 0)
  }

  function ColorPlans(): seq<Plan> {
    DcPlans(3, 0, 1)
    + [Plan([0], 1, 5, 0, 2), Plan([2], 1, 63, 0, 1), Plan([1], 1, 63, 0, 1), Plan([0], 6, 63, 0, 2), Plan([0], 1, 63, 2, 1)]
    + DcPlans(3, 1, 0)
    + [Plan([2], 1, 63, 1, 0), Plan([1], 1, 63, 1, 0), Plan([0], 1, 63, 1, 0)]
  }

  /** The entries of space below p are these. */
  ghost predicate Filled(space: array<ScanInfo>, p: nat, plans: seq<Plan>)
    reads space
  {
    p <= space.Length && p == |plans| && forall i :: 0 <= i < |plans| ==> PlanOf(space[i]) == plans[i]
  }

  method FillAScan(space: array<ScanInfo>, scanptr: nat, ci: int, ss: int, se: int, ah: int, al: int, ghost done: seq<Plan>) returns (next: nat)
    requires Filled(space, scanptr, done) && scanptr < space.Length
    modifies space
    ensures next == scanptr + 1 && Filled(space, next, done + [Plan([ci], ss, se, ah, al)])
  {
    var s := space[scanptr];
    space[scanptr] := s.(compsInScan := 1, componentIndex := s.componentIndex[0 := ci], ss := ss, se := se, ah := ah, al := al);
    next := scanptr + 1;
  }

  method FillScans(space: array<ScanInfo>, scanptr: nat, ncomps: nat, ss: int, se: int, ah: int, al: int, ghost done: seq<Plan>) returns (next: nat)
    requires Filled(space, scanptr, done) && scanptr + ncomps <= space.Length
    modifies space
    ensures next == scanptr + ncomps && Filled(space, next, done + Each(ncomps, ss, se, ah, al))
  {
    next := scanptr;
    var ci := 0;
    while ci < ncomps
      invariant ci <= ncomps && next == scanptr + ci
      invariant forall i :: 0 <= i < ci ==> PlanOf(space[scanptr + i]) == Plan([i], ss, se, ah, al)
      invariant forall i :: 0 <= i < scanptr ==> PlanOf(space[i]) == done[i]
    {
      var s := space[next];
      space[next] := s.(compsInScan := 1, componentIndex := s.componentIndex[0 := ci], ss := ss, se := se, ah := ah, al := al);
      next := next + 1;
      ci := ci + 1;
    }
    forall i | scanptr <= i < next
      ensures PlanOf(space[i]) == (done + Each(ncomps, ss, se, ah, al))[i]
    {
      assert PlanOf(space[scanptr + (i - scanptr)]) == Plan([i - scanptr], ss, se, ah, al);
    }
  }

  method FillDcScans(space: array<ScanInfo>, scanptr: nat, ncomps: nat, ah: int, al: int, ghost done: seq<Plan>) returns (next: nat)
    requires Filled(space, scanptr, done) && scanptr + |DcPlans(ncomps, ah, al)| <= space.Length
    modifies space
    ensures next == scanptr + |DcPlans(ncomps, ah, al)| && Filled(space, next, done + DcPlans(ncomps, ah, al))
  {
    if ncomps <= MAX_COMPS_IN_SCAN {
      var s := space[scanptr];
      var index := s.componentIndex;
      var ci := 0;
      while ci < ncomps
        invariant ci <= ncomps && |index| == MAX_COMPS_IN_SCAN
        invariant forall i :: 0 <= i < ci ==> index[i] == i
      {
        index := index[ci := ci];
        ci := ci + 1;
      }
      space[scanptr] := s.(compsInScan := ncomps, componentIndex := index, ss := 0, se := 0, ah := ah, al := al);
      assert index[..ncomps] == Numbers(ncomps);
      next := scanptr + 1;
    } else {
      next := FillScans(space, scanptr, ncomps, 0, 0, ah, al, done);
    }
  }

  /** The scans to be generated: a custom script for YCbCr images of three components, else the general one. */
  function Plans(n: nat, ycc: bool): seq<Plan> {
    if n == 3 && ycc then ColorPlans() else GeneralPlans(n)
  }

  method FillColor(space: array<ScanInfo>) returns (next: nat)
    requires space.Length >= 10
    modifies space
    ensures next == 10 && Filled(space, next, ColorPlans())
  {
    ghost var d := DcPlans(3, 0, 1);
    assert [] + d == d;
    next := FillDcScans(space, 0, 3, 0, 1, []);
    next := FillAScan(space, next, 0, 1, 5, 0, 2, d);
    next := FillAScan(space, next, 2, 1, 63, 0, 1, d + [Plan([0], 1, 5, 0, 2)]);
    d := d + [Plan([0], 1, 5, 0, 2)] + [Plan([2], 1, 63, 0, 1)];
    next := FillAScan(space, next, 1, 1, 63, 0, 1, d);
    next := FillAScan(space, next, 0, 6, 63, 0, 2, d + [Plan([1], 1, 63, 0, 1)]);
    d := d + [Plan([1], 1, 63, 0, 1)] + [Plan([0], 6, 63, 0, 2)];
    next := FillAScan(space, next, 0, 1, 63, 2, 1, d);
    d := d + [Plan([0], 1, 63, 2, 1)];
    next := FillDcScans(space, next, 3, 1, 0, d);
    d := d + DcPlans(3, 1, 0);
    next := FillAScan(space, next, 2, 1, 63, 1, 0, d);
    next := FillAScan(space, next, 1, 1, 63, 1, 0, d + [Plan([2], 1, 63, 1, 0)]);
    d := d + [Plan([2], 1, 63, 1, 0)] + [Plan([1], 1, 63, 1, 0)];
    next := FillAScan(space, next, 0, 1, 63, 1, 0, d);
    assert d + [Plan([0], 1, 63, 1, 0)] == ColorPlans();
  }

  method FillGeneral(space: array<ScanInfo>, n: nat) returns (next: nat)
    requires space.Length >= |GeneralPlans(n)|
    modifies space
    ensures next == |GeneralPlans(n)| && Filled(space, next, GeneralPlans(n))
  {
    hide DcPlans, Each;
    ghost var d := DcPlans(n, 0, 1);
    assert [] + d == d;
    SameSize(n);
    next := FillDcScans(space, 0, n, 0, 1, []);
    next := FillScans(space, next, n, 1, 5, 0, 2, d);
    d := d + Each(n, 1, 5, 0, 2);
    next := FillScans(space, next, n, 6, 63, 0, 2, d);
    d := d + Each(n, 6, 63, 0, 2);
    next := FillScans(space, next, n, 1, 63, 2, 1, d);
    d := d + Each(n, 1, 63, 2, 1);
    next := FillDcScans(space, next, n, 1, 0, d);
    d := d + DcPlans(n, 1, 0);
    next := FillScans(space, next, n, 1, 63, 1, 0, d);
  }

  lemma SameSize(n: nat)
    ensures |DcPlans(n, 0, 1)| == |DcPlans(n, 1, 0)| == if n > MAX_COMPS_IN_SCAN then n else 1
  {}

  /** jpeg_simple_progression: `space` is the script space kept from earlier calls, if any. */
  method SimpleProgression(ncomps: nat, ycc: bool, space: array?<ScanInfo>) returns (script: array<ScanInfo>, nscans: nat)
    modifies space
    ensures nscans == if ncomps == 3 && ycc then 10 else if ncomps > 4 then 6 * ncomps else 2 + 4 * ncomps
    ensures nscans == |Plans(ncomps, ycc)| && Filled(script, nscans, Plans(ncomps, ycc))
    ensures script == space || fresh(script)
  {
    hide DcPlans, Each;
    SameSize(ncomps);
    ColorSize();
    if ncomps == 3 && ycc {
      nscans := 10;
    } else if ncomps > MAX_COMPS_IN_SCAN {
      nscans := 6 * ncomps;
    } else {
      nscans := 2 + 4 * ncomps;
    }
    if space == null || space.Length < nscans {
      script := new ScanInfo[if nscans > 10 then nscans else 10];
    } else {
      script := space;
    }
    var scanptr;
    if ncomps == 3 && ycc {
      scanptr := FillColor(script);
    } else {
      scanptr := FillGeneral(script, ncomps);
    }
    assert scanptr == nscans;
  }

  lemma ColorSize()
    ensures |ColorPlans()| == 10
  {}
}
