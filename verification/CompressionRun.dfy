/** The passes that the master controller makes, run on the coefficient controller: the modes it chooses
    are those in which the whole-image buffers are filled before they are read. */
module CompressionRun {
  import opened Coefficients
  import opened Geometry
  import opened McuLayout
  import opened CoefController
  import M = PassControl

  function ModeOf(m: M.BufferMode): Mode {
    match m
    case PassThru => PassThru
    case SaveAndPass => SaveAndPass
    case CrankDest => CrankDest
  }

  /** The virtual arrays as requested: a row for each row of the padded component. */
  function Requested(im: Image): (a: seq<seq<seq<Block>>>)
    ensures |a| == |im.comps| && forall ci :: 0 <= ci < |a| ==> |a[ci]| == im.totalRows * im.comps[ci].v
  {
    seq(|im.comps|, ci requires 0 <= ci < |im.comps| => seq(im.totalRows * im.comps[ci].v, _ => []))
  }

  /** The arrays have the right size. */
  ghost predicate Sized(im: Image, a: seq<seq<seq<Block>>>) {
    |a| == |im.comps| && forall ci :: 0 <= ci < |a| ==> |a[ci]| == im.totalRows * im.comps[ci].v
  }

  /** They hold the whole padded image. */
  ghost predicate Filled(k: Layout, a: seq<seq<seq<Block>>>)
    requires k.Ok()
  {
    Sized(k.im, a) && forall ci :: 0 <= ci < |k.im.comps| ==> Controller.RowsAre(k, a[ci], ci, k.im.totalRows * k.im.comps[ci].v)
  }

  /** What is filled for one scan is filled for all. */
  lemma FilledForAll(k: Layout, k': Layout, a: seq<seq<seq<Block>>>)
    requires k.Ok() && k'.Ok() && k.im == k'.im && k.planes == k'.planes && Filled(k, a)
    ensures Filled(k', a)
  {
    hide RowBlocks, CeilDiv;
    forall ci | 0 <= ci < |k.im.comps|
      ensures Controller.RowsAre(k', a[ci], ci, k.im.totalRows * k.im.comps[ci].v)
    {
      assert Controller.RowsAre(k, a[ci], ci, k.im.totalRows * k.im.comps[ci].v);
    }
  }

  /** The scans' components make proper layouts of the image. */
  ghost predicate Ready(im: Image, planes: seq<Plane>, scans: seq<M.Entry>, which: seq<seq<nat>>) {
    |which| == |scans| > 0 && forall s :: 0 <= s < |scans| ==> Layout(im, planes, which[s]).Ok()
  }

  /** The coder never refuses more than m calls. */
  ghost predicate AtMost(takes: nat -> bool, m: nat) {
    forall n: nat :: Refusals(takes, n) <= m
  }

  lemma FewRefused(sink: McuSink, m: nat)
    requires sink.Valid() && sink.huff == null && AtMost(sink.takes, m)
    ensures !sink.failed && sink.Refused() <= m
  {}

  /** One pass in the mode that the master chose, with a coder of its own; a is what the arrays hold. */
  method OnePass(k: Layout, mode: Mode, a: seq<seq<seq<Block>>>, takes: nat -> bool, patience: nat, ghost m: nat) returns (done: bool, a': seq<seq<seq<Block>>>, ghost handed: seq<seq<Block>>)
    requires k.Ok() && Sized(k.im, a) && (mode.CrankDest? ==> Filled(k, a))
    ensures done ==> handed == k.Before(k.im.totalRows) && Sized(k.im, a')
    ensures if mode.SaveAndPass? then done ==> Filled(k, a') else a' == a
    ensures AtMost(takes, m) && patience >= k.im.totalRows + m ==> done
  {
    hide Layout.Before, LastOf, CeilDiv, McuSize, AtMost, McuSink.Valid;
    var sink := new McuSink(takes);
    var c := new Controller(k, sink, a);
    Saves(c, 0);
    Saves(c, k.im.totalRows);
    done := c.RunPass(mode, patience);
    a', handed := c.wholeImage, sink.accepted;
    if AtMost(takes, m) {
      FewRefused(sink, m);
    }
    Saves(c, k.im.totalRows);
    assert [] + k.Before(k.im.totalRows) == k.Before(k.im.totalRows);
  }

  lemma Saves(c: Controller, r: nat)
    requires c.k.Ok() && (r == 0 || r == c.k.im.totalRows)
    ensures r > 0 ==> (c.Saved(r) <==> Filled(c.k, c.wholeImage))
    ensures r == 0 ==> (c.Saved(0) <==> Sized(c.k.im, c.wholeImage))
  {
    hide CeilDiv;
  }

  /** The passes among the first i events: each has handed over its scan's MCUs. */
  ghost predicate AllHanded(im: Image, planes: seq<Plane>, which: seq<seq<nat>>, log: seq<M.Event>, i: nat, handed: seq<seq<seq<Block>>>)
  {
    && i <= |log| && |handed| == i
    && forall j :: 0 <= j < i && log[j].Start? ==>
         && 0 <= log[j].scan < |which| && Layout(im, planes, which[log[j].scan]).Ok()
         && handed[j] == Layout(im, planes, which[log[j].scan]).Before(im.totalRows)
  }

  ghost predicate SavedBefore(log: seq<M.Event>, i: nat)
    requires i <= |log|
  {
    exists j :: 0 <= j < i && log[j].Start? && log[j].mode == M.SaveAndPass
  }

  /** All passes of a compression, in the master's order and in the modes it chooses. Every pass that works from
      the whole-image buffers finds them filled, and hands over the MCUs of its scan; coders(i) says what the coder
      of the pass started by event i answers. They get through when no coder refuses more often than the calls allow. */
  method RunPasses(im: Image, planes: seq<Plane>, scans: seq<M.Entry>, which: seq<seq<nat>>, optimize: bool, coders: nat -> nat -> bool, patience: nat, ghost m: nat)
    returns (done: bool, ghost handed: seq<seq<seq<Block>>>)
    requires Ready(im, planes, scans, which)
    ensures done ==> AllHanded(im, planes, which, M.Course(scans, optimize, |scans|), |M.Course(scans, optimize, |scans|)|, handed)
    ensures (forall i: nat :: AtMost(coders(i), m)) && patience >= im.totalRows + m ==> done
  {
    hide AtMost, Layout.Before, Layout.Ok, Filled, AllHanded, SavedBefore, M.Course;
    var log := M.Course(scans, optimize, |scans|);
    M.BuffersAreFilled(scans, optimize);
    var a := Requested(im);
    handed, done := [], true;
    ghost var k0 := Layout(im, planes, which[0]);
    var i := 0;
    NothingHanded(im, planes, which, log);
    while i < |log|
      invariant i <= |log| && |handed| == i && Sized(im, a) && AllHanded(im, planes, which, log, i, handed)
      invariant SavedBefore(log, i) ==> Filled(k0, a)
    {
      if log[i].Start? {
        StartsInRange(scans, optimize, i);
        var k := Layout(im, planes, which[log[i].scan]);
        if ModeOf(log[i].mode).CrankDest? {
          FilledBefore(log, i);
          FilledForAll(k0, k, a);
        }
        ghost var mcus;
        done, a, mcus := OnePass(k, ModeOf(log[i].mode), a, coders(i), patience, m);
        if !done {
          return;
        }
        assert (handed + [mcus])[..i] == handed;
        handed := handed + [mcus];
        OneMoreHanded(im, planes, which, log, i, handed);
        SavedNow(log, i);
        if ModeOf(log[i].mode).SaveAndPass? {
          FilledForAll(k, k0, a);
        }
      } else {
        assert (handed + [[]])[..i] == handed;
        handed := handed + [[]];
        OneMoreHanded(im, planes, which, log, i, handed);
        SavedNow(log, i);
      }
      i := i + 1;
    }
  }

  lemma NothingHanded(im: Image, planes: seq<Plane>, which: seq<seq<nat>>, log: seq<M.Event>)
    ensures AllHanded(im, planes, which, log, 0, []) && !SavedBefore(log, 0)
  {}

  lemma StartsInRange(scans: seq<M.Entry>, optimize: bool, i: nat)
    requires i < |M.Course(scans, optimize, |scans|)| && M.Course(scans, optimize, |scans|)[i].Start?
    ensures 0 <= M.Course(scans, optimize, |scans|)[i].scan < |scans|
  {
    hide M.Course;
    M.GatheredFirst(scans, optimize, |scans|, i);
  }

  lemma FilledBefore(log: seq<M.Event>, i: nat)
    requires M.ModesInOrder(log) && i < |log| && log[i].Start? && log[i].mode == M.CrankDest
    ensures SavedBefore(log, i)
  {}

  lemma SavedNow(log: seq<M.Event>, i: nat)
    requires i < |log|
    ensures SavedBefore(log, i + 1) <==> SavedBefore(log, i) || (log[i].Start? && log[i].mode == M.SaveAndPass)
  {}

  lemma OneMoreHanded(im: Image, planes: seq<Plane>, which: seq<seq<nat>>, log: seq<M.Event>, i: nat, handed: seq<seq<seq<Block>>>)
    requires i < |log| && |handed| == i + 1 && AllHanded(im, planes, which, log, i, handed[..i])
    requires log[i].Start? ==> 0 <= log[i].scan < |which| && Layout(im, planes, which[log[i].scan]).Ok()
                               && handed[i] == Layout(im, planes, which[log[i].scan]).Before(im.totalRows)
    ensures AllHanded(im, planes, which, log, i + 1, handed)
  {
    hide Layout.Before, Layout.Ok;
    assert forall j :: 0 <= j < i ==> handed[..i][j] == handed[j];
  }
}
