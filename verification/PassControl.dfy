/** The master controller: which passes are made over the data, in which order, and when headers
    are written. Scans are known to it only by their position and by whether they refine DC. */
module PassControl {
  datatype PassType = MainPass | HuffOptPass | OutputPass

  /** How the coefficient controller is to run. */
  datatype BufferMode = PassThru | SaveAndPass | CrankDest

  /** What the master has done, as the other modules see it. `scan` is the scan whose parameters are selected. */
  datatype Event = Start(scan: int, gather: bool, mode: BufferMode) | FrameHeader | ScanHeader(scan: int)
                 | Finish(scan: int, gather: bool) | EndOfImage

  /** What the master looks at in a script entry. */
  datatype Entry = Entry(ss: int, ah: int) {
    /** A DC refinement scan needs no Huffman table. */
    predicate RefinesDc() { ss == 0 && ah != 0 }
  }

  // ----- the intended course of events -----

  function FirstMode(scans: seq<Entry>, optimize: bool): BufferMode {
    if optimize || |scans| > 1 then SaveAndPass else PassThru
  }

  /** Statistics for a scan, if it is optimised: scan 0 always, later ones unless they refine DC. */
  function GatherPart(scans: seq<Entry>, optimize: bool, s: nat): seq<Event>
    requires s < |scans|
  {
    if optimize && (s == 0 || !scans[s].RefinesDc())
    then [Start(s, true, if s == 0 then FirstMode(scans, optimize) else CrankDest), Finish(s, true)]
    else []
  }

  function OutputPart(scans: seq<Entry>, optimize: bool, s: nat): seq<Event> {
    [Start(s, false, if s == 0 && !optimize then FirstMode(scans, optimize) else CrankDest)]
    + (if s == 0 then [FrameHeader] else []) + [ScanHeader(s), Finish(s, false)]
  }

  function Course(scans: seq<Entry>, optimize: bool, n: nat): seq<Event>
    requires n <= |scans|
  {
    if n == 0 then [] else Course(scans, optimize, n - 1) + GatherPart(scans, optimize, n - 1) + OutputPart(scans, optimize, n - 1)
  }

  // ----- the controller -----

  class Master {
    const scans: seq<Entry>
    const optimize: bool
    var passType: PassType
    var passNumber: nat
    var totalPasses: nat
    var scanNumber: nat
    var isLastPass: bool
    var callPassStartup: bool
    var selected: int                 // the scan whose parameters are set up; -1 before the first
    ghost var log: seq<Event>

    /** jinit_c_master_control; progressive scripts force optimisation. */
    constructor (scans: seq<Entry>, optimizeCoding: bool, progressive: bool)
      requires scans != []
      ensures Between(0) && log == [] && this.scans == scans && optimize == (optimizeCoding || progressive)
    {
      this.scans, this.optimize := scans, optimizeCoding || progressive;
      passType, scanNumber, passNumber := MainPass, 0, 0;
      totalPasses := if optimizeCoding || progressive then |scans| * 2 else |scans|;
      isLastPass, callPassStartup, selected, log := false, false, -1, [];
    }

    ghost predicate Valid()
      reads this
    {
      scans != [] && totalPasses == if optimize then 2 * |scans| else |scans|
    }

    /** Before prepare_for_pass, with n passes completed as counted by pass_number. Under optimisation
        pass_number = 2 * scan_number, plus one when the next pass outputs that scan. */
    ghost predicate Between(n: nat)
      reads this
    {
      && Valid() && passNumber == n && !callPassStartup && n <= totalPasses
      && (passType.MainPass? <==> n == 0)
      && (if optimize then n == 2 * scanNumber + (if passType.OutputPass? then 1 else 0) else n == scanNumber && !passType.HuffOptPass?)
      && scanNumber <= |scans|
      && (optimize && passType.OutputPass? ==> selected == scanNumber)
      && log == Course(scans, optimize, scanNumber)
                + (if optimize && passType.OutputPass? then GatherPart(scans, optimize, scanNumber) else [])
    }

    method SelectScan()
      modifies this`selected
      ensures selected == scanNumber
    {
      selected := scanNumber;
    }

    /** The output pass's start: headers go out at once. */
    method StartOutput()
      requires scanNumber < |scans| && (optimize ==> selected == scanNumber)
      modifies this`selected, this`callPassStartup, this`log
      ensures selected == scanNumber && !callPassStartup
      ensures log == old(log) + [Start(scanNumber, false, CrankDest)] + (if scanNumber == 0 then [FrameHeader] else []) + [ScanHeader(scanNumber)]
    {
      if !optimize {
        SelectScan();
      }
      log := log + [Start(selected, false, CrankDest)];
      if scanNumber == 0 {
        log := log + [FrameHeader];
      }
      log := log + [ScanHeader(selected)];
      callPassStartup := false;
    }

    /** In a pass: which kind, and what has been logged. */
    ghost predicate During(gather: bool)
      reads this
    {
      && Valid() && scanNumber < |scans| && selected == scanNumber && passNumber < totalPasses
      && (isLastPass <==> passNumber == totalPasses - 1)
      && (if optimize then passNumber == 2 * scanNumber + (if gather then 0 else 1) else passNumber == scanNumber && !gather)
      && (match passType
          case MainPass => scanNumber == 0 && gather == optimize
          case HuffOptPass => optimize && gather && scanNumber > 0 && !scans[scanNumber].RefinesDc()
          case OutputPass => !gather && (scanNumber == 0 ==> optimize))
      && (callPassStartup <==> passType.MainPass? && !optimize && log == Started(gather))
      && (log == Started(gather) || (!gather && log == Headed()))
      && (!callPassStartup && !gather ==> log == Headed())
    }

    ghost function Started(gather: bool): seq<Event>
      requires scanNumber < |scans|
      reads this
    {
      Course(scans, optimize, scanNumber)
      + (if gather then [] else GatherPart(scans, optimize, scanNumber))
      + [Start(scanNumber, gather, if scanNumber == 0 && passType.MainPass? then FirstMode(scans, optimize) else CrankDest)]
    }

    ghost function Headed(): seq<Event>
      requires scanNumber < |scans|
      reads this
    {
      Started(false) + (if scanNumber == 0 then [FrameHeader] else []) + [ScanHeader(scanNumber)]
    }

    /** prepare_for_pass */
    method PrepareForPass() returns (ghost gather: bool)
      requires Between(passNumber) && passNumber < totalPasses
      modifies this
      ensures During(gather) && scanNumber == old(scanNumber)
      ensures gather || passNumber == old(passNumber) || passNumber == old(passNumber) + 1
      ensures passNumber >= old(passNumber) && totalPasses == old(totalPasses)
      ensures gather == (if old(passType).MainPass? then optimize else old(passType).HuffOptPass? && (scans[scanNumber].ss != 0 || scans[scanNumber].ah == 0))
      ensures log == old(log)
                     + [Start(scanNumber, gather, if !old(passType).MainPass? then CrankDest else if optimize || |scans| > 1 then SaveAndPass else PassThru)]
                     + (if gather || old(passType).MainPass? then [] else if scanNumber == 0 then [FrameHeader, ScanHeader(0)] else [ScanHeader(scanNumber)])
    {
      hide Course;
      gather := false;
      match passType {
        case MainPass =>
          SelectScan();
          log := log + [Start(selected, optimize, if totalPasses > 1 then SaveAndPass else PassThru)];
          callPassStartup := !optimize;
          gather := optimize;
        case HuffOptPass =>
          SelectScan();
          if scans[selected].ss != 0 || scans[selected].ah == 0 {
            log := log + [Start(selected, true, CrankDest)];
            callPassStartup := false;
            gather := true;
          } else {
            passType := OutputPass;
            passNumber := passNumber + 1;
            StartOutput();
          }
        case OutputPass =>
          StartOutput();
      }
      isLastPass := passNumber == totalPasses - 1;
    }

    /** pass_startup, at the first jpeg_write_scanlines call. */
    method PassStartup()
      requires During(false) && callPassStartup
      modifies this`callPassStartup, this`log
      ensures During(false) && !callPassStartup
    {
      callPassStartup := false;
      log := log + [FrameHeader];
      log := log + [ScanHeader(selected)];
    }

    /** finish_pass_master */
    method FinishPass(ghost gather: bool)
      requires During(gather) && !callPassStartup
      modifies this
      ensures Between(old(passNumber) + 1) && isLastPass == old(isLastPass) && totalPasses == old(totalPasses)
      ensures isLastPass ==> scanNumber == |scans|
    {
      hide Course;
      CourseMore(scans, optimize, scanNumber);
      PassLogged(gather);
      log := log + [Finish(selected, gather)];
      match passType {
        case MainPass =>
          passType := OutputPass;
          if !optimize {
            scanNumber := scanNumber + 1;
          }
        case HuffOptPass =>
          passType := OutputPass;
        case OutputPass =>
          if optimize {
            passType := HuffOptPass;
          }
          scanNumber := scanNumber + 1;
      }
      passNumber := passNumber + 1;
    }

    /** What a pass adds to the course of events. */
    lemma PassLogged(gather: bool)
      requires During(gather) && !callPassStartup
      ensures gather ==> optimize && log + [Finish(scanNumber, true)] == Course(scans, optimize, scanNumber) + GatherPart(scans, optimize, scanNumber)
      ensures !gather ==> log + [Finish(scanNumber, false)] == Course(scans, optimize, scanNumber + 1)
    {
      hide Course;
      CourseMore(scans, optimize, scanNumber);
      var c, g := Course(scans, optimize, scanNumber), GatherPart(scans, optimize, scanNumber);
      var start := Start(scanNumber, gather, if scanNumber == 0 && passType.MainPass? then FirstMode(scans, optimize) else CrankDest);
      if gather {
        assert c + [] + [start] + [Finish(scanNumber, true)] == c + [start, Finish(scanNumber, true)];
      } else {
        var f := if scanNumber == 0 then [FrameHeader] else [];
        Joined(c, g, [start], f, ScanHeader(scanNumber), Finish(scanNumber, false));
      }
    }

    static lemma Joined(c: seq<Event>, g: seq<Event>, a: seq<Event>, f: seq<Event>, x: Event, y: Event)
      ensures c + g + a + f + [x] + [y] == c + g + (a + f + [x, y])
    {}

    static lemma CourseMore(scans: seq<Entry>, optimize: bool, s: nat)
      requires s < |scans|
      ensures Course(scans, optimize, s + 1) == Course(scans, optimize, s) + GatherPart(scans, optimize, s) + OutputPart(scans, optimize, s)
    {}

    /** A whole compression: jpeg_start_compress prepares the first pass, the first jpeg_write_scanlines call runs
        the start-up hook, and jpeg_finish_compress ends the pass and performs the remaining ones. */
    method Compress()
      requires Between(0) && log == []
      modifies this
      ensures log == Course(scans, optimize, |scans|) + [EndOfImage] && ModesInOrder(log)
    {
      hide Course, GatherPart, OutputPart, ModesInOrder;
      ghost var gather := PrepareForPass();
      if callPassStartup {
        PassStartup();
      }
      FinishPass(gather);
      while !isLastPass
        invariant Between(passNumber) && passNumber > 0 && totalPasses == old(totalPasses)
        invariant isLastPass ==> scanNumber == |scans|
        invariant !isLastPass ==> passNumber < totalPasses
        decreases totalPasses - passNumber
      {
        gather := PrepareForPass();
        FinishPass(gather);
      }
      assert log == Course(scans, optimize, |scans|) + [];
      assert log == Course(scans, optimize, |scans|);
      BuffersAreFilled(scans, optimize);
      EndKeepsOrder(log);
      log := log + [EndOfImage];
    }
  }

  // ----- what the course of events amounts to -----

  /** The scans that are output, in order. */
  function Outputs(log: seq<Event>): seq<int> {
    if log == [] then []
    else
      var e := log[|log| - 1];
      Outputs(log[..|log| - 1]) + (if e.Start? && !e.gather then [e.scan] else [])
  }

  function FrameHeaders(log: seq<Event>): nat {
    if log == [] then 0 else FrameHeaders(log[..|log| - 1]) + (if log[|log| - 1].FrameHeader? then 1 else 0)
  }

  lemma {:induction false} OutputsConcat(a: seq<Event>, b: seq<Event>)
    ensures Outputs(a + b) == Outputs(a) + Outputs(b) && FrameHeaders(a + b) == FrameHeaders(a) + FrameHeaders(b)
  {
    if b == [] {
      assert a + b == a;
    } else {
      var n := |b| - 1;
      OutputsConcat(a, b[..n]);
      assert (a + b)[..|a + b| - 1] == a + b[..n];
      assert Outputs(a) + (Outputs(b[..n]) + (if b[n].Start? && !b[n].gather then [b[n].scan] else []))
          == Outputs(a) + Outputs(b[..n]) + (if b[n].Start? && !b[n].gather then [b[n].scan] else []);
    }
  }

  lemma PartsOutput(scans: seq<Entry>, optimize: bool, s: nat)
    requires s < |scans|
    ensures Outputs(GatherPart(scans, optimize, s)) == [] && FrameHeaders(GatherPart(scans, optimize, s)) == 0
    ensures Outputs(OutputPart(scans, optimize, s)) == [s] && FrameHeaders(OutputPart(scans, optimize, s)) == if s == 0 then 1 else 0
  {
    var g := GatherPart(scans, optimize, s);
    if g != [] {
      TwoEvents(g[0], g[1]);
    }
    var a := Start(s, false, if s == 0 && !optimize then FirstMode(scans, optimize) else CrankDest);
    var f := if s == 0 then [FrameHeader] else [];
    TwoEvents(ScanHeader(s), Finish(s, false));
    OneEvent(a);
    OneEvent(FrameHeader);
    assert Outputs([]) == [] && FrameHeaders([]) == 0;
    OutputsConcat([a], f);
    OutputsConcat([a] + f, [ScanHeader(s), Finish(s, false)]);
  }

  lemma OneEvent(e: Event)
    ensures Outputs([e]) == (if e.Start? && !e.gather then [e.scan] else [])
    ensures FrameHeaders([e]) == if e.FrameHeader? then 1 else 0
  {
    assert [e][..0] == [];
  }

  lemma TwoEvents(a: Event, b: Event)
    ensures Outputs([a, b]) == Outputs([a]) + Outputs([b]) && FrameHeaders([a, b]) == FrameHeaders([a]) + FrameHeaders([b])
    ensures Outputs([a]) == (if a.Start? && !a.gather then [a.scan] else []) && FrameHeaders([a]) == if a.FrameHeader? then 1 else 0
    ensures Outputs([b]) == (if b.Start? && !b.gather then [b.scan] else []) && FrameHeaders([b]) == if b.FrameHeader? then 1 else 0
  {
    assert [a, b] == [a] + [b];
    OutputsConcat([a], [b]);
    OneEvent(a);
    OneEvent(b);
  }

  /** Scans 0, 1, 2 and so on are output once each and in order; there is one frame header. */
  lemma {:induction false} EachScanOnce(scans: seq<Entry>, optimize: bool, n: nat)
    requires n <= |scans|
    ensures Outputs(Course(scans, optimize, n)) == seq(n, i => i)
    ensures FrameHeaders(Course(scans, optimize, n)) == if n > 0 then 1 else 0
  {
    hide GatherPart, OutputPart, Outputs, FrameHeaders;
    if n == 0 {
      NoEvents();
    } else {
      var c, g, o := Course(scans, optimize, n - 1), GatherPart(scans, optimize, n - 1), OutputPart(scans, optimize, n - 1);
      EachScanOnce(scans, optimize, n - 1);
      PartsOutput(scans, optimize, n - 1);
      OutputsConcat(c, g);
      OutputsConcat(c + g, o);
      assert seq(n, i => i) == seq(n - 1, i => i) + [n - 1];
    }
  }

  lemma NoEvents()
    ensures Outputs([]) == [] && FrameHeaders([]) == 0
  {}

  /** The pass starting at log[i] is one of the first n scans'. If it gathers statistics, that scan is optimised, is not
      a DC refinement, and is output next; if it outputs such a scan, the statistics have just been gathered. */
  ghost predicate InOrder(scans: seq<Entry>, optimize: bool, n: nat, log: seq<Event>, i: nat)
    requires n <= |scans| && i < |log| && log[i].Start?
  {
    var s := log[i].scan;
    && 0 <= s < n
    && var refinesDc := s > 0 && scans[s].ss == 0 && scans[s].ah != 0;
       && (log[i].gather ==> optimize && !refinesDc && i + 2 < |log| && log[i + 1] == Finish(s, true)
                             && log[i + 2].Start? && log[i + 2].scan == s && !log[i + 2].gather)
       && (!log[i].gather && optimize && !refinesDc ==> i >= 2 && log[i - 1] == Finish(s, true))
  }

  /** An optimised scan other than a DC refinement has its statistics gathered right before its output;
      otherwise there is no statistics pass for it. */
  lemma {:induction false} GatheredFirst(scans: seq<Entry>, optimize: bool, n: nat, i: nat)
    requires n <= |scans| && i < |Course(scans, optimize, n)|
    requires Course(scans, optimize, n)[i].Start?
    ensures InOrder(scans, optimize, n, Course(scans, optimize, n), i)
  {
    hide GatherPart, OutputPart, InOrder;
    var c := Course(scans, optimize, n - 1);
    var p := GatherPart(scans, optimize, n - 1) + OutputPart(scans, optimize, n - 1);
    assert Course(scans, optimize, n) == c + p;
    if i < |c| {
      GatheredFirst(scans, optimize, n - 1, i);
      StaysInOrder(scans, optimize, n, c, p, i);
    } else {
      LastInOrder(scans, optimize, n, c, i);
    }
  }

  lemma StaysInOrder(scans: seq<Entry>, optimize: bool, n: nat, c: seq<Event>, p: seq<Event>, i: nat)
    requires 0 < n <= |scans| && i < |c| && c[i].Start? && InOrder(scans, optimize, n - 1, c, i)
    ensures InOrder(scans, optimize, n, c + p, i)
  {
    hide Entry.RefinesDc;
    assert forall k :: 0 <= k < |c| ==> (c + p)[k] == c[k];
  }

  lemma LastInOrder(scans: seq<Entry>, optimize: bool, n: nat, c: seq<Event>, i: nat)
    requires 0 < n <= |scans|
    requires var log := c + (GatherPart(scans, optimize, n - 1) + OutputPart(scans, optimize, n - 1));
             |c| <= i < |log| && log[i].Start?
    ensures InOrder(scans, optimize, n, c + (GatherPart(scans, optimize, n - 1) + OutputPart(scans, optimize, n - 1)), i)
  {
    hide GatherPart, OutputPart;
    var p := GatherPart(scans, optimize, n - 1) + OutputPart(scans, optimize, n - 1);
    var log := c + p;
    assert forall k :: 0 <= k < |p| ==> log[|c| + k] == p[k];
    PartStarts(scans, optimize, n - 1, i - |c|);
    assert log[|c| + 0] == p[0] && log[|c| + 1] == p[1];
    assert |p| > 2 ==> log[|c| + 2] == p[2];
  }

  /** Where passes start among the events of one scan. */
  lemma PartStarts(scans: seq<Entry>, optimize: bool, s: nat, j: nat)
    requires s < |scans|
    ensures |GatherPart(scans, optimize, s) + OutputPart(scans, optimize, s)| >= 2
    ensures var p := GatherPart(scans, optimize, s) + OutputPart(scans, optimize, s);
            var gathered := optimize && (s == 0 || !scans[s].RefinesDc());
            j < |p| && p[j].Start? ==>
              (p[j].scan == s && j == (if p[j].gather || !gathered then 0 else 2) && (p[j].gather ==> gathered)
               && (gathered ==> |p| > 2 && p[1] == Finish(s, true) && p[2].Start? && p[2].scan == s && !p[2].gather))
  {}

  // ----- buffer modes -----

  /** A pass over the whole-image buffers comes after the pass that fills them, which is the first; when the image
      is not buffered, its one pass is the only one. */
  ghost predicate ModesInOrder(log: seq<Event>) {
    && (forall i :: 0 <= i < |log| && log[i].Start? && log[i].mode == CrankDest ==> exists j :: 0 <= j < i && log[j].Start? && log[j].mode == SaveAndPass)
    && (forall i, j :: 0 <= i < |log| && 0 <= j < |log| && log[i].Start? && log[i].mode == PassThru && log[j].Start? ==> i == j)
    && (forall i, j :: 0 <= i < |log| && 0 <= j < i && log[i].Start? && log[j].Start? ==> log[i].mode != SaveAndPass)
  }

  lemma EndKeepsOrder(log: seq<Event>)
    requires ModesInOrder(log)
    ensures ModesInOrder(log + [EndOfImage])
  {
    var l := log + [EndOfImage];
    assert forall k :: 0 <= k < |log| ==> l[k] == log[k];
  }

  /** The passes after the first scan's all work from the buffers. */
  lemma {:induction false} LaterCrank(scans: seq<Entry>, optimize: bool, n: nat, i: nat)
    requires 0 < n <= |scans| && i < |Course(scans, optimize, n)| && Course(scans, optimize, n)[i].Start?
    ensures i == 0 || Course(scans, optimize, n)[i].mode == CrankDest
    decreases n
  {
    hide GatherPart, OutputPart;
    var log, c := Course(scans, optimize, n), Course(scans, optimize, n - 1);
    var p := GatherPart(scans, optimize, n - 1) + OutputPart(scans, optimize, n - 1);
    assert log == c + p;
    if i < |c| {
      assert log[i] == c[i];
      LaterCrank(scans, optimize, n - 1, i);
    } else {
      assert log[i] == p[i - |c|];
      PartModes(scans, optimize, n - 1, i - |c|);
    }
  }

  lemma PartModes(scans: seq<Entry>, optimize: bool, s: nat, j: nat)
    requires s < |scans|
    ensures var p := GatherPart(scans, optimize, s) + OutputPart(scans, optimize, s);
            j < |p| && p[j].Start? ==> (s == 0 && j == 0) || p[j].mode == CrankDest
  {}

  /** The first event starts the first pass. */
  lemma {:induction false} CourseStarts(scans: seq<Entry>, optimize: bool, n: nat)
    requires 0 < n <= |scans|
    ensures var log := Course(scans, optimize, n);
            |log| > 0 && log[0] == Start(0, optimize, if optimize || |scans| > 1 then SaveAndPass else PassThru)
  {
    if n > 1 {
      CourseStarts(scans, optimize, n - 1);
    }
  }

  lemma OnePass(scans: seq<Entry>)
    requires |scans| == 1
    ensures var log := Course(scans, false, 1); |log| == 4 && !log[1].Start? && !log[2].Start? && !log[3].Start?
  {
    assert Course(scans, false, 0) == [];
  }

  /** No pass reads buffers that were not filled. */
  lemma BuffersAreFilled(scans: seq<Entry>, optimize: bool)
    requires scans != []
    ensures ModesInOrder(Course(scans, optimize, |scans|))
  {
    hide Course;
    var log := Course(scans, optimize, |scans|);
    CourseStarts(scans, optimize, |scans|);
    forall i | 0 <= i < |log| && log[i].Start?
      ensures i == 0 || log[i].mode == CrankDest
    {
      LaterCrank(scans, optimize, |scans|, i);
    }
    if log[0].mode == PassThru {
      OnePass(scans);
    }
  }

  /** The frame header comes before the first scan header. */
  lemma {:induction false} FrameFirst(scans: seq<Entry>, optimize: bool, n: nat, i: nat)
    requires n <= |scans| && i < |Course(scans, optimize, n)| && Course(scans, optimize, n)[i].ScanHeader?
    ensures FrameHeader in Course(scans, optimize, n)[..i]
  {
    var log, c := Course(scans, optimize, n), Course(scans, optimize, n - 1);
    if i < |c| {
      FrameFirst(scans, optimize, n - 1, i);
      assert log[..i] == c[..i];
    } else if n > 1 {
      FrameInCourse(scans, optimize, n - 1);
      assert log[..i] == c + log[..i][|c|..];
    } else {
      var g, o := GatherPart(scans, optimize, 0), OutputPart(scans, optimize, 0);
      assert o[1] == FrameHeader;
      assert log[|g| + 1] == o[1];
      assert log[..i][|g| + 1] == FrameHeader;
    }
  }

  lemma {:induction false} FrameInCourse(scans: seq<Entry>, optimize: bool, n: nat)
    requires 0 < n <= |scans|
    ensures FrameHeader in Course(scans, optimize, n)
  {
    var c, g, o := Course(scans, optimize, n - 1), GatherPart(scans, optimize, n - 1), OutputPart(scans, optimize, n - 1);
    if n > 1 {
      FrameInCourse(scans, optimize, n - 1);
    } else {
      assert o[1] == FrameHeader;
    }
  }
}
