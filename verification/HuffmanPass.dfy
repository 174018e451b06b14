/** A whole output pass of the sequential encoder behind the coefficient controller: what ends up in the
    destination does not depend on what it refused on the way. */
module HuffmanPass {
  import opened Coefficients
  import opened Geometry
  import opened McuLayout
  import opened ByteStuffing
  import opened BitWriter
  import opened EntropyOps
  import opened ScanCoding
  import opened RestartCoding
  import opened EncodingPass
  import opened HuffEncoder
  import opened CoefController

  /** The scan's MCUs as the encoder sees them. */
  function ScanMcus(k: Layout): seq<Mcu>
    requires k.Ok()
  {
    ZigzagAll(k.Before(k.im.totalRows))
  }

  /** The pass, with room made in the destination after each refusal, and then its end. If it gets through,
      exactly the scan's bytes have been appended to what was in the stream, whatever was refused on the way.
      It gets through when it is given as many calls as there are iMCU rows and refusals, and aborts only over
      a scan some of whose codes are missing. */
  method OutputPass(c: Controller, mode: Mode, patience: nat) returns (done: bool, s: Status)
    requires c.Valid() && c.sink.huff != null && !c.sink.failed && c.sink.accepted == c.base == []
    requires c.iMcuRowNum == 0 && c.mcuVertOffset == 0 && c.mcuCtr == 0
    requires (mode.SaveAndPass? ==> c.Saved(0)) && (mode.CrankDest? ==> c.Saved(c.k.im.totalRows))
    modifies c, c.sink.Repr()
    ensures done <==> !c.sink.failed && c.sink.Refused() - old(c.sink.Refused()) <= patience - c.k.im.totalRows
    ensures c.sink.failed ==> c.sink.scan.Wf() && (McusFit(c.sink.scan, ScanMcus(c.k)) ==> !Emittable(ScanOps(c.sink.scan, ScanMcus(c.k)), c.sink.book))
    ensures done ==> c.sink.scan.Wf() && McusFit(c.sink.scan, ScanMcus(c.k)) && Emittable(ScanOps(c.sink.scan, ScanMcus(c.k)), c.sink.book)
    ensures done && c.sink.huff.dest.empties ==> s.Done?
    ensures done && s.Done? ==>
              c.sink.huff.dest.Committed() == c.sink.start + ScanBytes(c.sink.scan, c.sink.book, ScanMcus(c.k))
    ensures done && !s.Done? ==> s == Fatal(CantSuspend)
  {
    hide Controller.Saved, Layout.Before, Encoder.Valid, McusFit, Stuck, ScanBytes, ScanOps, Emittable, StateOk, LastOf, CeilDiv, McuSize;
    s := Done;
    done := c.RunPass(mode, patience);
    if done {
      assert [] + c.k.Before(c.k.im.totalRows) == c.k.Before(c.k.im.totalRows);
      s := c.sink.huff.FinishPassHuff();
    } else if c.sink.failed {
      StuckInScan(c);
    }
  }

  /** When the encoder aborted, the scan needs a code that does not exist. */
  lemma StuckInScan(c: Controller)
    requires c.Valid() && c.sink.failed && c.base == []
    ensures c.sink.scan.Wf() && (McusFit(c.sink.scan, ScanMcus(c.k)) ==> !Emittable(ScanOps(c.sink.scan, ScanMcus(c.k)), c.sink.book))
  {
    hide McuSink.Valid, ScanOps, Emittable, McusFit, Layout.Before, ZigzagAll, ZigzagMcu, McuSize, LastOf, CeilDiv;
    var mcus, begun := c.k.Before(c.k.im.totalRows), c.sink.accepted + [c.sink.last];
    assert [] + mcus == mcus;
    ZigzagOneMore(c.sink.accepted, c.sink.last);
    ZigzagPrefix(begun, mcus);
    WhyFailed(c.sink);
    if McusFit(c.sink.scan, ScanMcus(c.k)) {
      StuckScan(c.sink.scan, c.sink.book, ZigzagAll(begun), ScanMcus(c.k));
    }
  }

  lemma WhyFailed(sink: McuSink)
    requires sink.Valid() && sink.failed
    ensures Stuck(sink.scan, sink.book, ZigzagAll(sink.accepted) + [ZigzagMcu(sink.last)])
  {
    hide Stuck, Encoder.Valid, ZigzagAll, ZigzagMcu;
  }

  lemma ZigzagPrefix(a: seq<seq<Block>>, b: seq<seq<Block>>)
    requires a <= b
    ensures ZigzagAll(a) <= ZigzagAll(b)
  {
    hide ZigzagMcu;
    assert forall i :: 0 <= i < |a| ==> ZigzagAll(a)[i] == ZigzagAll(b)[i];
  }
}
