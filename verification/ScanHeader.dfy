/** A decoder's view of a scan: what it makes of the scan header, given the frame. */
module ScanHeader {
  import opened Bits
  import opened ByteStuffing
  import opened HuffmanTable
  import opened Coefficients
  import opened EntropyOps
  import opened ScanCoding
  import opened RestartCoding

  // ----- table numbers that do not matter -----

  /** The scans differ at most in table numbers, and band limits, that their decoders do not look at. */
  ghost predicate Alike(a: Scan, b: Scan) {
    && a.kind == b.kind && a.membership == b.membership && a.restart == b.restart
    && |a.dcTbl| == |b.dcTbl| && |a.acTbl| == |b.acTbl|
    && (!a.kind.Sequential? ==> a.ss == b.ss && a.se == b.se && a.al == b.al)
    && (a.kind.Sequential? || a.kind.DcFirst? ==> a.dcTbl == b.dcTbl)
    && (a.kind.Sequential? || a.IsAC() ==> a.acTbl == b.acTbl)
  }

  lemma AlikeWf(a: Scan, b: Scan, hists: seq<Mcu>)
    requires Alike(a, b) && a.Wf()
    ensures b.Wf() && FreshDecoder(a) == FreshDecoder(b) && (McusFit(a, hists) <==> McusFit(b, hists))
  {}

  lemma AlikeBlock(tabs: Tables, a: Scan, b: Scan, ci: nat, h: Block, bits: seq<bool>, last: int)
    requires Alike(a, b) && a.Wf() && !a.IsAC() && ci < |a.dcTbl| == |a.acTbl|
    ensures DecodeBlock(tabs, a, ci, h, bits, last) == DecodeBlock(tabs, b, ci, h, bits, last)
  {
    hide DecodeSequential, DecodeDc, Pow2;
  }

  lemma {:induction false} AlikeBlocks(tabs: Tables, a: Scan, b: Scan, hs: Mcu, k: nat, bits: seq<bool>, lastDc: seq<int>)
    requires Alike(a, b) && a.Wf() && !a.IsAC() && |lastDc| == |a.dcTbl| && k <= |hs| == |a.membership|
    ensures DecodeBlocks(tabs, a, hs, k, bits, lastDc) == DecodeBlocks(tabs, b, hs, k, bits, lastDc)
    decreases |hs| - k
  {
    hide DecodeBlock;
    if k < |hs| {
      var ci := a.membership[k];
      AlikeBlock(tabs, a, b, ci, hs[k], bits, lastDc[ci]);
      var r := DecodeBlock(tabs, a, ci, hs[k], bits, lastDc[ci]);
      if r.BlockDone? {
        AlikeBlocks(tabs, a, b, hs, k + 1, r.rest, lastDc[ci := r.last]);
      }
    }
  }

  lemma AlikeMcu(tabs: Tables, a: Scan, b: Scan, hs: Mcu, bits: seq<bool>, d: Decoder)
    requires Alike(a, b) && a.Wf() && |d.lastDc| == |a.dcTbl| && McuFits(a, hs)
    ensures DecodeMcu(tabs, a, hs, bits, d) == DecodeMcu(tabs, b, hs, bits, d)
  {
    hide DecodeBlocks;
    if !a.IsAC() {
      AlikeBlocks(tabs, a, b, hs, 0, bits, d.lastDc);
    }
  }

  lemma {:induction false} AlikeInterval(tabs: Tables, a: Scan, b: Scan, hists: seq<Mcu>, bits: seq<bool>, d: Decoder)
    requires Alike(a, b) && a.Wf() && |d.lastDc| == |a.dcTbl| && McusFit(a, hists) && McusFit(b, hists)
    ensures DecodeInterval(tabs, a, hists, bits, d) == DecodeInterval(tabs, b, hists, bits, d)
    decreases |hists|
  {
    hide DecodeMcu;
    if hists != [] {
      AlikeMcu(tabs, a, b, hists[0], bits, d);
      var r := DecodeMcu(tabs, a, hists[0], bits, d);
      if r.McuDone? && |r.d.lastDc| == |a.dcTbl| {
        AlikeInterval(tabs, a, b, hists[1..], r.rest, r.d);
      }
    }
  }

  /** Such scans are decoded alike. */
  lemma {:induction false} AlikeScan(tabs: Tables, a: Scan, b: Scan, hists: seq<Mcu>, bytes: seq<byte>, num: RestartNum)
    requires Alike(a, b) && a.Wf() && b.Wf() && McusFit(a, hists) && McusFit(b, hists)
    ensures DecodeScan(tabs, a, hists, bytes, num) == DecodeScan(tabs, b, hists, bytes, num)
    decreases |hists|
  {
    hide DecodeInterval, ReadSegment, IsPadding;
    AlikeWf(a, b, hists);
    var seg := ReadSegment(bytes);
    if a.restart == 0 || |hists| <= a.restart {
      AlikeInterval(tabs, a, b, hists, seg.bits, FreshDecoder(a));
    } else {
      AlikeInterval(tabs, a, b, hists[..a.restart], seg.bits, FreshDecoder(a));
      if RestartMarker(num) <= seg.tail {
        AlikeScan(tabs, a, b, hists[a.restart..], seg.tail[2..], (num + 1) % 8);
      }
    }
  }
}
