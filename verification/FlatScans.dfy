/** AC scans without new values: flat regions of the image cost one EOB run, however many blocks they have. */
module FlatScans {
  import opened Bits
  import opened Coefficients
  import opened EntropyOps
  import opened BandCoding
  import opened EobRuns
  import opened ScanCoding
  import opened RestartCoding

  /** The bands of a scan's MCUs, which in an AC scan are single blocks. */
  function McuBands(scan: Scan, mcus: seq<Mcu>): (bands: seq<BandOps>)
    requires scan.Wf() && scan.IsAC() && McusFit(scan, mcus)
    ensures |bands| == |mcus|
  {
    seq(|mcus|, i requires 0 <= i < |mcus| => AcBand(scan, mcus[i][0]))
  }

  lemma {:induction false} RestIsSegment(scan: Scan, c: Coder, togo: nat, mcus: seq<Mcu>)
    requires scan.Wf() && scan.IsAC() && scan.restart == 0 && CoderOk(scan, c) && McusFit(scan, mcus)
    ensures c.pend.run < MAX_EOBRUN && RestOps(scan, c, togo, mcus) == SegmentOps(scan.AcId(0), McuBands(scan, mcus), c.pend)
    decreases |mcus|
  {
    hide BandEmits, FlushOps, AcBand;
    if mcus != [] {
      RestIsSegment(scan, StepCoder(scan, c, togo, mcus[0]), StepTogo(scan, togo), mcus[1..]);
      assert McuBands(scan, mcus)[1..] == McuBands(scan, mcus[1..]);
    }
  }

  /** The block has no value that becomes nonzero in this scan. */
  predicate Flat(scan: Scan, z: Block) {
    forall k :: scan.ss <= k <= scan.se && k < DCTSIZE2 ==>
      if scan.kind.AcRefine? then Shr(Abs(z[k]), scan.al) != 1 else Shr(Abs(z[k]), scan.al) == 0
  }

  lemma FlatIsDeferred(scan: Scan, z: Block)
    requires scan.Wf() && scan.IsAC() && Flat(scan, z)
    ensures Deferred(AcBand(scan, z)) && (scan.kind.AcFirst? ==> AcBand(scan, z).br == [])
  {
    hide Band, Shr;
    var its := ItemsOf(scan.kind.AcRefine?, z, scan.al);
    BandMeans(scan.AcId(0), its, scan.ss, scan.se + 1);
    if scan.kind.AcFirst? {
      NoCorrections(its, scan.ss, scan.se + 1);
    }
  }

  lemma {:induction false} NoCorrections(its: Items, lo: nat, hi: nat)
    requires lo <= hi <= DCTSIZE2 && forall k :: lo <= k < hi ==> !its[k].Corr?
    ensures CorrBits(its, lo, hi) == []
    decreases hi - lo
  {
    if lo < hi {
      NoCorrections(its, lo + 1, hi);
    }
  }

  lemma AllDeferred(scan: Scan, mcus: seq<Mcu>)
    requires scan.Wf() && scan.IsAC() && McusFit(scan, mcus) && forall i :: 0 <= i < |mcus| ==> Flat(scan, mcus[i][0])
    ensures forall i :: 0 <= i < |mcus| ==> Deferred(McuBands(scan, mcus)[i]) && (scan.kind.AcFirst? ==> McuBands(scan, mcus)[i].br == [])
  {
    hide AcBand, Flat;
    forall i | 0 <= i < |mcus|
      ensures Deferred(McuBands(scan, mcus)[i]) && (scan.kind.AcFirst? ==> McuBands(scan, mcus)[i].br == [])
    {
      FlatIsDeferred(scan, mcus[i][0]);
    }
  }

  /** Up to 0x7FFE flat blocks, with up to 937 correction bits in all, are a single run: one EOBn, then the
      correction bits of all blocks in order. */
  lemma FlatScanIsOneRun(scan: Scan, mcus: seq<Mcu>)
    requires scan.Wf() && scan.IsAC() && scan.restart == 0 && McusFit(scan, mcus) && forall i :: 0 <= i < |mcus| ==> Flat(scan, mcus[i][0])
    requires 0 < |mcus| <= 0x7FFE && |AllCorrections(McuBands(scan, mcus))| <= 937
    ensures OneRun(scan.AcId(0), |mcus|, AllCorrections(McuBands(scan, mcus)), ScanOps(scan, mcus))
  {
    hide SegmentOps, OneRun, RestOps, AcBand, Flat, AllCorrections;
    FreshOk(scan);
    RestIsSegment(scan, FreshCoder(scan), scan.restart, mcus);
    AllDeferred(scan, mcus);
    DeferredIsOneRun(scan.AcId(0), McuBands(scan, mcus));
  }

  /** In a first scan any number of flat blocks takes one EOBn symbol for each 0x7FFF of them, and one for the rest. */
  lemma FlatFirstScan(scan: Scan, mcus: seq<Mcu>)
    requires scan.Wf() && scan.kind.AcFirst? && scan.restart == 0 && McusFit(scan, mcus) && forall i :: 0 <= i < |mcus| ==> Flat(scan, mcus[i][0])
    ensures EobCount(ScanOps(scan, mcus)) == |mcus| / 0x7FFF + (if |mcus| % 0x7FFF > 0 then 1 else 0)
  {
    hide SegmentOps, EobCount, RestOps, AcBand, Flat;
    FreshOk(scan);
    RestIsSegment(scan, FreshCoder(scan), scan.restart, mcus);
    AllDeferred(scan, mcus);
    RunsCounted(scan.AcId(0), McuBands(scan, mcus), 0);
  }
}
