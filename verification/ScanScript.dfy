/** Multi-scan scripts: what validate_script accepts, and what accepted scripts guarantee. */
module ScanScript {
  import opened Coefficients
  import opened Geometry

  const MAX_AH_AL := 10

  /** An entry of the script. Only the first compsInScan component indexes count. */
  datatype RawScan = ScanInfo(compsInScan: int, componentIndex: seq<int>, ss: int, se: int, ah: int, al: int) {
    function Comps(): (cs: seq<int>)
      requires |componentIndex| == MAX_COMPS_IN_SCAN
    {
      if 0 <= compsInScan <= MAX_COMPS_IN_SCAN then componentIndex[..compsInScan] else []
    }
  }
  type ScanInfo = s: RawScan | |s.componentIndex| == MAX_COMPS_IN_SCAN
    witness ScanInfo(0, [0, 0, 0, 0], 0, 0, 0, 0)

  datatype ScriptError = BadScanScript(scan: nat) | BadProgScript(scan: nat) | ComponentCount | MissingData
  datatype Verdict = Accepted(progressive: bool) | Refused(error: ScriptError)

  // ----- the meaning of a script -----

  /** For each component and coefficient, the Al of the last scan that sent it; -1 before the first. */
  type Row = r: seq<int> | |r| == DCTSIZE2 witness seq(DCTSIZE2, _ => -1)
  type Sent = seq<Row>

  function NothingSent(n: nat): Sent {
    seq(n, _ => seq(DCTSIZE2, _ => -1))
  }

  /** The scan sends coefficient k of component c. */
  predicate Covers(s: ScanInfo, c: int, k: int) {
    c in s.Comps() && s.ss <= k <= s.se
  }

  function RowAfter(row: Row, s: ScanInfo): Row {
    seq(DCTSIZE2, k requires 0 <= k < DCTSIZE2 => if s.ss <= k <= s.se then s.al else row[k])
  }

  function After(sent: Sent, s: ScanInfo): Sent {
    seq(|sent|, c requires 0 <= c < |sent| => if c in s.Comps() then RowAfter(sent[c], s) else sent[c])
  }

  function AfterAll(sent: Sent, script: seq<ScanInfo>): (r: Sent)
    ensures |r| == |sent|
  {
    if script == [] then sent else After(AfterAll(sent, script[..|script| - 1]), script[|script| - 1])
  }

  /** One to four components, in increasing order. */
  ghost predicate GoodComps(s: ScanInfo, n: nat) {
    && 1 <= s.compsInScan <= 4
    && (forall i :: 0 <= i < s.compsInScan ==> 0 <= s.componentIndex[i] < n)
    && (forall i, j :: 0 <= i < j < s.compsInScan ==> s.componentIndex[i] < s.componentIndex[j])
  }

  /** A band of a progressive scan: DC alone, or AC of one component. */
  predicate GoodBand(s: ScanInfo) {
    && 0 <= s.ss <= s.se <= 63 && 0 <= s.ah <= 10 && 0 <= s.al <= 10
    && (if s.ss == 0 then s.se == 0 else s.compsInScan == 1)
  }

  /** A first scan has Ah = 0; a later one continues with the bit below the last one sent. */
  predicate Continues(s: ScanInfo, last: int) {
    if last < 0 then s.ah == 0 else s.ah == last && s.al == s.ah - 1
  }

  ghost predicate ComponentOk(s: ScanInfo, row: Row) {
    && (s.ss != 0 ==> row[0] >= 0)
    && forall k :: s.ss <= k <= s.se && 0 <= k < DCTSIZE2 ==> Continues(s, row[k])
  }

  /** A progressive scan is acceptable when these bits have been sent. */
  ghost predicate StepOk(sent: Sent, s: ScanInfo) {
    && GoodComps(s, |sent|) && GoodBand(s)
    && forall c :: 0 <= c < |sent| && c in s.Comps() ==> ComponentOk(s, sent[c])
  }

  ghost predicate StepsOk(sent: Sent, script: seq<ScanInfo>) {
    script == []
    || (StepsOk(sent, script[..|script| - 1]) && StepOk(AfterAll(sent, script[..|script| - 1]), script[|script| - 1]))
  }

  /** Every component has had a DC scan. */
  ghost predicate AllDc(sent: Sent) {
    forall c :: 0 <= c < |sent| ==> sent[c][0] >= 0
  }

  ghost predicate ProgressiveLegal(script: seq<ScanInfo>, n: nat) {
    StepsOk(NothingSent(n), script) && AllDc(AfterAll(NothingSent(n), script))
  }

  /** Sequential scripts: full bands, and each component in exactly one scan. */
  predicate FullBand(s: ScanInfo) {
    s.ss == 0 && s.se == 63 && s.ah == 0 && s.al == 0
  }

  ghost predicate SequentialScan(script: seq<ScanInfo>, n: nat, i: nat)
    requires i < |script|
  {
    && GoodComps(script[i], n) && FullBand(script[i])
    && forall j, c :: 0 <= j < i && c in script[i].Comps() ==> c !in script[j].Comps()
  }

  predicate SentIn(script: seq<ScanInfo>, c: int) {
    exists i :: 0 <= i < |script| && c in script[i].Comps()
  }

  ghost predicate SequentialLegal(script: seq<ScanInfo>, n: nat) {
    && (forall i :: 0 <= i < |script| ==> SequentialScan(script, n, i))
    && (forall c :: 0 <= c < n ==> SentIn(script, c))
  }

  /** The first entry decides which kind of script it is. */
  predicate IsProgressive(script: seq<ScanInfo>)
    requires script != []
  {
    script[0].ss != 0 || script[0].se != 63
  }

  ghost predicate LegalScript(script: seq<ScanInfo>, n: nat) {
    script != [] && if IsProgressive(script) then ProgressiveLegal(script, n) else SequentialLegal(script, n)
  }

  // ----- validate_script -----

  method CheckComponents(s: ScanInfo, n: nat, scanno: nat) returns (v: Verdict)
    ensures v.Accepted? <==> GoodComps(s, n)
    ensures v.Refused? ==> v.error == ComponentCount || v.error == BadScanScript(scanno)
  {
    if s.compsInScan <= 0 || s.compsInScan > MAX_COMPS_IN_SCAN {
      return Refused(ComponentCount);
    }
    var ci := 0;
    while ci < s.compsInScan
      invariant 0 <= ci <= s.compsInScan
      invariant forall i :: 0 <= i < ci ==> 0 <= s.componentIndex[i] < n
      invariant forall i, j :: 0 <= i < j < ci ==> s.componentIndex[i] < s.componentIndex[j]
    {
      var thisi := s.componentIndex[ci];
      if thisi < 0 || thisi >= n {
        return Refused(BadScanScript(scanno));
      }
      if ci > 0 && thisi <= s.componentIndex[ci - 1] {
        return Refused(BadScanScript(scanno));
      }
      ci := ci + 1;
    }
    v := Accepted(true);
  }

  /** What the array last_bitpos holds. */
  ghost predicate Records(a: array2<int>, sent: Sent)
    reads a
  {
    && a.Length0 == |sent| && a.Length1 == DCTSIZE2
    && forall c, k :: 0 <= c < |sent| && 0 <= k < DCTSIZE2 ==> a[c, k] == sent[c][k]
  }

  /** The inner loop over the coefficients of one component. */
  method CheckComponent(s: ScanInfo, a: array2<int>, c: nat, scanno: nat, ghost sent: Sent) returns (v: Verdict)
    requires Records(a, sent) && c < |sent| && GoodBand(s)
    modifies a
    ensures v.Accepted? <==> ComponentOk(s, sent[c])
    ensures v.Accepted? ==> Records(a, sent[c := RowAfter(sent[c], s)])
    ensures v.Refused? ==> v.error == BadProgScript(scanno)
  {
    if s.ss != 0 && a[c, 0] < 0 {
      return Refused(BadProgScript(scanno));
    }
    var coefi := s.ss;
    while coefi <= s.se
      invariant s.ss <= coefi <= s.se + 1
      invariant forall k :: s.ss <= k < coefi ==> Continues(s, sent[c][k])
      invariant forall k :: 0 <= k < DCTSIZE2 ==> a[c, k] == if s.ss <= k < coefi then s.al else sent[c][k]
      invariant forall d, k :: 0 <= d < |sent| && d != c && 0 <= k < DCTSIZE2 ==> a[d, k] == sent[d][k]
    {
      if a[c, coefi] < 0 {
        if s.ah != 0 {
          return Refused(BadProgScript(scanno));
        }
      } else {
        if s.ah != a[c, coefi] || s.al != s.ah - 1 {
          return Refused(BadProgScript(scanno));
        }
      }
      a[c, coefi] := s.al;
      coefi := coefi + 1;
    }
    v := Accepted(true);
  }

  /** The rows of the first m components of the scan are up to date. */
  function AfterFirst(sent: Sent, s: ScanInfo, m: nat): (r: Sent)
    requires m <= |s.Comps()|
    ensures |r| == |sent|
  {
    seq(|sent|, c requires 0 <= c < |sent| => if c in s.Comps()[..m] then RowAfter(sent[c], s) else sent[c])
  }

  lemma AfterFirstNext(sent: Sent, s: ScanInfo, m: nat)
    requires m < |s.Comps()| && GoodComps(s, |sent|)
    ensures var c := s.Comps()[m];
            && 0 <= c < |sent| && AfterFirst(sent, s, m)[c] == sent[c]
            && AfterFirst(sent, s, m)[c := RowAfter(sent[c], s)] == AfterFirst(sent, s, m + 1)
  {
    var c := s.Comps()[m];
    assert s.Comps()[..m + 1] == s.Comps()[..m] + [c];
    assert c !in s.Comps()[..m];
  }

  lemma AfterFirstAll(sent: Sent, s: ScanInfo)
    ensures AfterFirst(sent, s, 0) == sent && AfterFirst(sent, s, |s.Comps()|) == After(sent, s)
  {
    assert s.Comps()[..|s.Comps()|] == s.Comps();
  }

  /** One scan of a progressive script. */
  method CheckProgressive(s: ScanInfo, a: array2<int>, scanno: nat, ghost sent: Sent) returns (v: Verdict)
    requires Records(a, sent) && GoodComps(s, |sent|)
    modifies a
    ensures v.Accepted? <==> StepOk(sent, s)
    ensures v.Accepted? ==> Records(a, After(sent, s))
    ensures v.Refused? ==> v.error == BadProgScript(scanno)
  {
    hide RowAfter, ComponentOk, Records, After, AfterFirst;
    var ss, se, ah, al := s.ss, s.se, s.ah, s.al;
    if ss < 0 || ss >= DCTSIZE2 || se < ss || se >= DCTSIZE2 || ah < 0 || ah > MAX_AH_AL || al < 0 || al > MAX_AH_AL {
      return Refused(BadProgScript(scanno));
    }
    if ss == 0 {
      if se != 0 {
        return Refused(BadProgScript(scanno));
      }
    } else {
      if s.compsInScan != 1 {
        return Refused(BadProgScript(scanno));
      }
    }
    AfterFirstAll(sent, s);
    var ci := 0;
    while ci < s.compsInScan
      invariant 0 <= ci <= s.compsInScan
      invariant Records(a, AfterFirst(sent, s, ci))
      invariant forall i :: 0 <= i < ci ==> ComponentOk(s, sent[s.componentIndex[i]])
    {
      AfterFirstNext(sent, s, ci);
      v := CheckComponent(s, a, s.componentIndex[ci], scanno, AfterFirst(sent, s, ci));
      if v.Refused? {
        return;
      }
      ci := ci + 1;
    }
    EachComponent(sent, s);
    v := Accepted(true);
  }

  lemma EachComponent(sent: Sent, s: ScanInfo)
    requires GoodComps(s, |sent|) && GoodBand(s)
    requires forall i :: 0 <= i < s.compsInScan ==> ComponentOk(s, sent[s.componentIndex[i]])
    ensures StepOk(sent, s)
  {
    hide ComponentOk;
    forall c | 0 <= c < |sent| && c in s.Comps()
      ensures ComponentOk(s, sent[c])
    {
      var i :| 0 <= i < s.compsInScan && s.componentIndex[i] == c;
    }
  }

  /** What the array component_sent holds. */
  ghost predicate Flags(a: array<bool>, script: seq<ScanInfo>)
    reads a
  {
    forall c :: 0 <= c < a.Length ==> (a[c] <==> SentIn(script, c))
  }

  ghost predicate FlagsFirst(a: array<bool>, script: seq<ScanInfo>, first: seq<int>)
    reads a
  {
    forall c :: 0 <= c < a.Length ==> (a[c] <==> SentIn(script, c) || c in first)
  }

  /** One scan of a sequential script; done is the script so far. */
  method CheckSequential(s: ScanInfo, a: array<bool>, scanno: nat, ghost done: seq<ScanInfo>) returns (v: Verdict)
    requires Flags(a, done) && GoodComps(s, a.Length)
    modifies a
    ensures v.Accepted? <==> FullBand(s) && forall c :: 0 <= c < a.Length && c in s.Comps() ==> !SentIn(done, c)
    ensures v.Accepted? ==> FlagsFirst(a, done, s.Comps())
    ensures v.Refused? ==> v.error == BadProgScript(scanno) || v.error == BadScanScript(scanno)
  {
    hide SentIn;
    if s.ss != 0 || s.se != DCTSIZE2 - 1 || s.ah != 0 || s.al != 0 {
      return Refused(BadProgScript(scanno));
    }
    var comps := s.Comps();
    var ci := 0;
    while ci < s.compsInScan
      invariant 0 <= ci <= s.compsInScan && FlagsFirst(a, done, comps[..ci])
      invariant forall i :: 0 <= i < ci ==> !SentIn(done, comps[i])
    {
      var thisi := s.componentIndex[ci];
      assert comps[..ci + 1] == comps[..ci] + [thisi] && thisi !in comps[..ci];
      if a[thisi] {
        assert comps[ci] in comps;
        return Refused(BadScanScript(scanno));
      }
      a[thisi] := true;
      ci := ci + 1;
    }
    assert comps[..ci] == comps;
    v := Accepted(false);
  }

  lemma SentInNext(script: seq<ScanInfo>, i: nat, c: int)
    requires i < |script|
    ensures SentIn(script[..i + 1], c) <==> SentIn(script[..i], c) || c in script[i].Comps()
  {
    if SentIn(script[..i + 1], c) {
      var j :| 0 <= j < i + 1 && c in script[..i + 1][j].Comps();
      assert j < i ==> c in script[..i][j].Comps();
    }
    if SentIn(script[..i], c) {
      var j :| 0 <= j < i && c in script[..i][j].Comps();
      assert c in script[..i + 1][j].Comps();
    }
    if c in script[i].Comps() {
      assert c in script[..i + 1][i].Comps();
    }
  }

  lemma FlagsNext(a: array<bool>, script: seq<ScanInfo>, i: nat)
    requires i < |script| && FlagsFirst(a, script[..i], script[i].Comps())
    ensures Flags(a, script[..i + 1])
  {
    hide SentIn;
    forall c | 0 <= c < a.Length
      ensures a[c] <==> SentIn(script[..i + 1], c)
    {
      SentInNext(script, i, c);
    }
  }

  lemma SequentialScanIs(script: seq<ScanInfo>, n: nat, i: nat)
    requires i < |script| && GoodComps(script[i], n)
    ensures SequentialScan(script, n, i) <==>
              FullBand(script[i]) && forall c :: 0 <= c < n && c in script[i].Comps() ==> !SentIn(script[..i], c)
  {
    if FullBand(script[i]) && forall c :: 0 <= c < n && c in script[i].Comps() ==> !SentIn(script[..i], c) {
      forall j, c | 0 <= j < i && c in script[i].Comps()
        ensures c !in script[j].Comps()
      {
        assert script[..i][j] == script[j];
      }
    }
  }

  /** The sequential half of validate_script. */
  method ValidateSequential(script: seq<ScanInfo>, n: nat) returns (v: Verdict)
    ensures v.Accepted? <==> SequentialLegal(script, n)
    ensures v.Accepted? ==> !v.progressive
    ensures v.Refused? ==> (v.error.MissingData? <==> forall i :: 0 <= i < |script| ==> SequentialScan(script, n, i))
  {
    hide SentIn, SequentialScan, FlagsFirst, GoodComps, FullBand;
    var componentSent := new bool[n](i => false);
    NoFlags(componentSent, script);
    var scanno := 0;
    while scanno < |script|
      invariant scanno <= |script| && Flags(componentSent, script[..scanno])
      invariant forall i :: 0 <= i < scanno ==> SequentialScan(script, n, i)
    {
      v := CheckComponents(script[scanno], n, scanno + 1);
      SequentialHasComps(script, n, scanno);
      if v.Refused? {
        return;
      }
      SequentialScanIs(script, n, scanno);
      v := CheckSequential(script[scanno], componentSent, scanno + 1, script[..scanno]);
      if v.Refused? {
        return;
      }
      FlagsNext(componentSent, script, scanno);
      scanno := scanno + 1;
    }
    assert script[..scanno] == script;
    var ci := 0;
    while ci < n
      invariant 0 <= ci <= n && forall c :: 0 <= c < ci ==> SentIn(script, c)
    {
      if !componentSent[ci] {
        return Refused(MissingData);
      }
      ci := ci + 1;
    }
    v := Accepted(false);
  }

  lemma SequentialHasComps(script: seq<ScanInfo>, n: nat, i: nat)
    requires i < |script|
    ensures SequentialScan(script, n, i) ==> GoodComps(script[i], n)
  {}

  lemma NoFlags(a: array<bool>, script: seq<ScanInfo>)
    requires forall c :: 0 <= c < a.Length ==> !a[c]
    ensures Flags(a, script[..0])
  {}

  lemma StepsNext(sent: Sent, script: seq<ScanInfo>, i: nat)
    requires i < |script|
    ensures StepsOk(sent, script[..i + 1]) <==> StepsOk(sent, script[..i]) && StepOk(AfterAll(sent, script[..i]), script[i])
    ensures AfterAll(sent, script[..i + 1]) == After(AfterAll(sent, script[..i]), script[i])
  {
    hide StepOk, After;
    assert script[..i + 1][..i] == script[..i];
  }

  /** A script that goes wrong at one scan is wrong. */
  lemma {:induction false} StepsPrefix(sent: Sent, script: seq<ScanInfo>, i: nat)
    requires i <= |script| && StepsOk(sent, script)
    ensures StepsOk(sent, script[..i])
    decreases |script| - i
  {
    hide StepOk, StepsOk;
    if i == |script| {
      assert script[..i] == script;
    } else {
      StepsPrefix(sent, script, i + 1);
      StepsNext(sent, script, i);
    }
  }

  lemma WrongStep(sent: Sent, script: seq<ScanInfo>, i: nat)
    requires i < |script| && !StepOk(AfterAll(sent, script[..i]), script[i])
    ensures !StepsOk(sent, script)
  {
    hide StepOk, StepsOk;
    if StepsOk(sent, script) {
      StepsPrefix(sent, script, i + 1);
      StepsNext(sent, script, i);
    }
  }

  /** The progressive half of validate_script. */
  method ValidateProgressive(script: seq<ScanInfo>, n: nat) returns (v: Verdict)
    ensures v.Accepted? <==> ProgressiveLegal(script, n)
    ensures v.Accepted? ==> v.progressive
    ensures v.Refused? ==> (v.error.MissingData? <==> StepsOk(NothingSent(n), script))
  {
    hide StepOk, StepsOk, After, AfterAll, GoodComps;
    var lastBitpos := new int[n, DCTSIZE2]((c, k) => -1);
    ghost var none := NothingSent(n);
    NothingYet(lastBitpos, n, script);
    var scanno := 0;
    while scanno < |script|
      invariant scanno <= |script| && StepsOk(none, script[..scanno])
      invariant Records(lastBitpos, AfterAll(none, script[..scanno]))
    {
      ghost var sent := AfterAll(none, script[..scanno]);
      StepHasComps(sent, script[scanno]);
      StepsNext(none, script, scanno);
      v := CheckComponents(script[scanno], n, scanno + 1);
      if v.Refused? {
        WrongStep(none, script, scanno);
        return;
      }
      v := CheckProgressive(script[scanno], lastBitpos, scanno + 1, sent);
      if v.Refused? {
        WrongStep(none, script, scanno);
        return;
      }
      scanno := scanno + 1;
    }
    assert script[..scanno] == script;
    var ci := 0;
    while ci < n
      invariant 0 <= ci <= n && forall c :: 0 <= c < ci ==> AfterAll(none, script)[c][0] >= 0
    {
      if lastBitpos[ci, 0] < 0 {
        return Refused(MissingData);
      }
      ci := ci + 1;
    }
    v := Accepted(true);
  }

  lemma StepHasComps(sent: Sent, s: ScanInfo)
    ensures StepOk(sent, s) ==> GoodComps(s, |sent|)
  {}

  lemma NothingYet(a: array2<int>, n: nat, script: seq<ScanInfo>)
    requires a.Length0 == n && a.Length1 == DCTSIZE2
    requires forall c, k :: 0 <= c < n && 0 <= k < DCTSIZE2 ==> a[c, k] == -1
    ensures StepsOk(NothingSent(n), script[..0]) && Records(a, AfterAll(NothingSent(n), script[..0]))
  {}

  /** validate_script: accepts exactly the legal scripts. */
  method ValidateScript(script: seq<ScanInfo>, numComponents: nat) returns (v: Verdict)
    ensures v.Accepted? <==> LegalScript(script, numComponents)
    ensures v.Accepted? ==> (v.progressive <==> IsProgressive(script))
    ensures script == [] ==> v == Refused(BadScanScript(0))
  {
    hide ProgressiveLegal, SequentialLegal;
    if |script| <= 0 {
      return Refused(BadScanScript(0));
    }
    if script[0].ss != 0 || script[0].se != DCTSIZE2 - 1 {
      v := ValidateProgressive(script, numComponents);
    } else {
      v := ValidateSequential(script, numComponents);
    }
  }
}
