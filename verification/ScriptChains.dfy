/** What an accepted progressive script guarantees: for every coefficient its scans form a chain
    from the first scan down, so that every bit plane is sent at most once. */
module ScriptChains {
  import opened Coefficients
  import opened Geometry
  import opened ScanScript

  /** The last of the first n scans that sends coefficient k of component c; -1 if there is none. */
  function LastScan(script: seq<ScanInfo>, n: nat, c: int, k: int): (i: int)
    requires n <= |script|
    ensures -1 <= i < n
    ensures i >= 0 ==> Covers(script[i], c, k)
    ensures forall j :: i < j < n ==> !Covers(script[j], c, k)
  {
    if n == 0 then -1 else if Covers(script[n - 1], c, k) then n - 1 else LastScan(script, n - 1, c, k)
  }

  /** The table that validate_script keeps says which scan was last. */
  lemma {:induction false} SentIsLast(script: seq<ScanInfo>, n: nat, m: nat, c: nat, k: nat)
    requires n <= |script| && c < m && k < DCTSIZE2
    ensures AfterAll(NothingSent(m), script[..n])[c][k] == (var i := LastScan(script, n, c, k); if i < 0 then -1 else script[i].al)
  {
    hide StepsOk;
    if n > 0 {
      StepsNext(NothingSent(m), script, n - 1);
      SentIsLast(script, n - 1, m, c, k);
    }
  }

  /** Scan j is in order: its components and band are proper; an AC scan comes after a DC scan of its one
      component; every coefficient is sent for the first time with Ah = 0, or goes on one bit below the last time. */
  ghost predicate InOrder(script: seq<ScanInfo>, m: nat, j: nat)
    requires j < |script|
  {
    && GoodComps(script[j], m) && GoodBand(script[j])
    && (script[j].ss != 0 ==> forall c :: c in script[j].Comps() ==> LastScan(script, j, c, 0) >= 0)
    && forall c, k :: Covers(script[j], c, k) ==>
         var i := LastScan(script, j, c, k);
         if i < 0 then script[j].ah == 0 else script[j].ah == script[i].al && script[j].al == script[j].ah - 1
  }

  lemma StepIsInOrder(script: seq<ScanInfo>, m: nat, j: nat)
    requires j < |script| && forall i :: 0 <= i < j ==> InOrder(script, m, i)
    ensures StepOk(AfterAll(NothingSent(m), script[..j]), script[j]) <==> InOrder(script, m, j)
  {
    hide AfterAll, LastScan;
    var sent, s := AfterAll(NothingSent(m), script[..j]), script[j];
    if GoodComps(s, m) && GoodBand(s) {
      forall c, k | 0 <= c < m && 0 <= k < DCTSIZE2
        ensures sent[c][k] == (var i := LastScan(script, j, c, k); if i < 0 then -1 else script[i].al)
      {
        SentIsLast(script, j, m, c, k);
      }
      ComponentsInRange(s, m);
      if StepOk(sent, s) {
        forall c, k | Covers(s, c, k)
          ensures var i := LastScan(script, j, c, k);
                  if i < 0 then s.ah == 0 else s.ah == script[i].al && s.al == s.ah - 1
        {
          assert ComponentOk(s, sent[c]);
          var i := LastScan(script, j, c, k);
          assert i >= 0 ==> InOrder(script, m, i);
        }
      }
      if InOrder(script, m, j) {
        forall c | 0 <= c < |sent| && c in s.Comps()
          ensures ComponentOk(s, sent[c])
        {
          InOrderComponent(script, m, j, c, sent[c]);
        }
      }
    }
  }

  lemma ComponentsInRange(s: ScanInfo, m: nat)
    requires GoodComps(s, m)
    ensures forall c :: c in s.Comps() ==> 0 <= c < m
  {}

  lemma InOrderComponent(script: seq<ScanInfo>, m: nat, j: nat, c: nat, row: Row)
    requires j < |script| && InOrder(script, m, j) && c in script[j].Comps()
    requires forall i :: 0 <= i < j ==> InOrder(script, m, i)
    requires forall k :: 0 <= k < DCTSIZE2 ==> row[k] == (var i := LastScan(script, j, c, k); if i < 0 then -1 else script[i].al)
    ensures ComponentOk(script[j], row)
  {
    hide LastScan;
    var s := script[j];
    forall k | s.ss <= k <= s.se && 0 <= k < DCTSIZE2
      ensures Continues(s, row[k])
    {
      assert Covers(s, c, k);
      var i := LastScan(script, j, c, k);
      if i >= 0 {
        assert InOrder(script, m, i);
      }
    }
    if s.ss != 0 {
      var i := LastScan(script, j, c, 0);
      assert InOrder(script, m, i);
    }
  }

  /** validate_script's bookkeeping amounts to this: every scan is in order. */
  lemma {:induction false} StepsAreInOrder(script: seq<ScanInfo>, m: nat, n: nat)
    requires n <= |script|
    ensures StepsOk(NothingSent(m), script[..n]) <==> forall j :: 0 <= j < n ==> InOrder(script, m, j)
  {
    hide StepsOk, StepOk, InOrder;
    if n == 0 {
      NoSteps(m, script);
    } else {
      StepsAreInOrder(script, m, n - 1);
      StepsNext(NothingSent(m), script, n - 1);
      if forall j :: 0 <= j < n - 1 ==> InOrder(script, m, j) {
        StepIsInOrder(script, m, n - 1);
      }
    }
  }

  lemma NoSteps(m: nat, script: seq<ScanInfo>)
    ensures StepsOk(NothingSent(m), script[..0])
  {}

  /** Accepted progressive scripts are exactly those in order that send DC for every component. */
  lemma AcceptedIffChained(script: seq<ScanInfo>, m: nat)
    ensures ProgressiveLegal(script, m) <==>
              (forall j :: 0 <= j < |script| ==> InOrder(script, m, j)) && DcScanned(script, m)
  {
    hide StepsOk, InOrder, LastScan, AllDc, AfterAll;
    StepsAreInOrder(script, m, |script|);
    assert script[..|script|] == script;
    if forall j :: 0 <= j < |script| ==> InOrder(script, m, j) {
      AllDcMeans(script, m);
    }
  }

  ghost predicate DcScanned(script: seq<ScanInfo>, m: nat) {
    forall c :: 0 <= c < m ==> LastScan(script, |script|, c, 0) >= 0
  }

  lemma DcIsScanned(script: seq<ScanInfo>, m: nat, c: nat)
    requires c < m && forall j :: 0 <= j < |script| ==> InOrder(script, m, j)
    ensures AfterAll(NothingSent(m), script)[c][0] >= 0 <==> LastScan(script, |script|, c, 0) >= 0
  {
    hide LastScan, InOrder, AfterAll;
    assert script[..|script|] == script;
    SentIsLast(script, |script|, m, c, 0);
    if LastScan(script, |script|, c, 0) >= 0 {
      AlNonnegative(script, m, LastScan(script, |script|, c, 0));
    }
  }

  lemma AllDcMeans(script: seq<ScanInfo>, m: nat)
    requires forall j :: 0 <= j < |script| ==> InOrder(script, m, j)
    ensures AllDc(AfterAll(NothingSent(m), script)) <==> DcScanned(script, m)
  {
    hide LastScan, InOrder, AfterAll;
    var sent := AfterAll(NothingSent(m), script);
    if AllDc(sent) {
      forall c | 0 <= c < m
        ensures LastScan(script, |script|, c, 0) >= 0
      {
        DcIsScanned(script, m, c);
        assert sent[c][0] >= 0;
      }
    }
    if DcScanned(script, m) {
      forall c | 0 <= c < |sent|
        ensures sent[c][0] >= 0
      {
        DcIsScanned(script, m, c);
        assert LastScan(script, |script|, c, 0) >= 0;
      }
    }
  }

  lemma AlNonnegative(script: seq<ScanInfo>, m: nat, j: nat)
    requires j < |script| && InOrder(script, m, j)
    ensures script[j].al >= 0
  {}

  // ----- bit planes -----

  /** The scan conveys bit b of the coefficients it covers: a first scan all bits from Al up, a refinement just Al. */
  predicate SendsPlane(s: ScanInfo, b: nat) {
    if s.ah == 0 then b >= s.al else b == s.al
  }

  /** Later scans of a coefficient are at lower bits, and are refinements. */
  lemma {:induction false} LaterIsLower(script: seq<ScanInfo>, m: nat, i: nat, j: nat, c: int, k: int)
    requires i < j < |script| && forall l :: 0 <= l <= j ==> InOrder(script, m, l)
    requires Covers(script[i], c, k) && Covers(script[j], c, k)
    ensures script[j].al < script[i].al && script[j].ah > 0
    decreases j
  {
    hide LastScan;
    assert InOrder(script, m, j);
    var l := LastScan(script, j, c, k);
    assert InOrder(script, m, l);
    if l != i {
      LaterIsLower(script, m, i, l, c, k);
    }
  }

  /** No bit of any coefficient is sent twice. */
  lemma PlaneSentOnce(script: seq<ScanInfo>, m: nat, i: nat, j: nat, c: int, k: int, b: nat)
    requires ProgressiveLegal(script, m) && i < j < |script|
    requires Covers(script[i], c, k) && Covers(script[j], c, k) && SendsPlane(script[j], b)
    ensures !SendsPlane(script[i], b)
  {
    hide ProgressiveLegal, LastScan;
    AcceptedIffChained(script, m);
    LaterIsLower(script, m, i, j, c, k);
    assert InOrder(script, m, j);
  }

  /** Every bit from the final Al up is sent by some scan, and no other bit is. */
  lemma {:induction false} PlanesSent(script: seq<ScanInfo>, m: nat, n: nat, c: int, k: int, b: nat) returns (i: int)
    requires n <= |script| && forall l :: 0 <= l < n ==> InOrder(script, m, l)
    ensures -1 <= i < n && (i >= 0 ==> Covers(script[i], c, k) && SendsPlane(script[i], b))
    ensures i >= 0 <==> LastScan(script, n, c, k) >= 0 && b >= script[LastScan(script, n, c, k)].al
    decreases n
  {
    hide LastScan;
    var j := LastScan(script, n, c, k);
    if j < 0 {
      i := -1;
    } else {
      assert InOrder(script, m, j);
      if script[j].ah == 0 || b <= script[j].al {
        i := if b >= script[j].al then j else -1;
      } else {
        i := PlanesSent(script, m, j, c, k, b);
      }
    }
  }

  // ----- dispatch -----

  /** The test of Ah by which start_pass_phuff selects a routine is right: Ah is 0 exactly when none of the
      scan's coefficients has been sent; otherwise all were, last at bit Ah = Al + 1. */
  lemma DispatchIsSound(script: seq<ScanInfo>, m: nat, j: nat, c: int, k: int)
    requires ProgressiveLegal(script, m) && j < |script| && Covers(script[j], c, k)
    ensures script[j].ah == 0 <==> LastScan(script, j, c, k) < 0
    ensures script[j].ah != 0 ==> script[LastScan(script, j, c, k)].al == script[j].ah == script[j].al + 1
  {
    hide ProgressiveLegal, LastScan;
    AcceptedIffChained(script, m);
    assert InOrder(script, m, j);
  }
}
