/** Packing of a bit string into bytes with a zero byte stuffed after every 0xFF,
    and the reading side: section F.2.2.5 of T.81. */
module ByteStuffing {
  import opened Bits

  type byte = b: int | 0 <= b < 256

  function Stuffed(b: byte): (s: seq<byte>) {
    if b == 0xFF then [0xFF, 0x00] else [b]
  }

  function ByteOf(bs: seq<bool>): byte
    requires |bs| == 8
  {
    FromBitsBound(bs);
    assert Pow2(8) == 256;
    FromBits(bs)
  }

  /** The whole bytes of bs, stuffed. */
  function PackBytes(bs: seq<bool>): seq<byte> {
    if |bs| < 8 then [] else Stuffed(ByteOf(bs[..8])) + PackBytes(bs[8..])
  }

  /** The bits of bs left over after its whole bytes. */
  function PackRest(bs: seq<bool>): (r: seq<bool>)
    ensures |r| < 8
  {
    if |bs| < 8 then bs else PackRest(bs[8..])
  }

  lemma {:induction false} PackConcat(a: seq<bool>, b: seq<bool>)
    ensures PackBytes(a + b) == PackBytes(a) + PackBytes(PackRest(a) + b)
    ensures PackRest(a + b) == PackRest(PackRest(a) + b)
    decreases |a|
  {
    if |a| >= 8 {
      PackConcat(a[8..], b);
      assert (a + b)[..8] == a[..8];
      assert (a + b)[8..] == a[8..] + b;
    }
  }

  lemma {:induction false} PackRestLength(bs: seq<bool>)
    ensures |PackRest(bs)| == |bs| % 8
    decreases |bs|
  {
    if |bs| >= 8 {
      PackRestLength(bs[8..]);
    }
  }

  /** Fill the last partial byte with ones. */
  function Pad(bs: seq<bool>): (r: seq<bool>)
    ensures |r| % 8 == 0 && bs <= r
  {
    if |bs| % 8 == 0 then bs else bs + seq(8 - |bs| % 8, _ => true)
  }

  /** Data bits up to the first marker (or the end), and what follows. */
  datatype Segment = Segment(bits: seq<bool>, tail: seq<byte>)

  function ReadSegment(bytes: seq<byte>): Segment {
    if bytes == [] then Segment([], [])
    else if bytes[0] == 0xFF then
      if |bytes| >= 2 && bytes[1] == 0 then
        var s := ReadSegment(bytes[2..]);
        Segment(ToBits(0xFF, 8) + s.bits, s.tail)
      else Segment([], bytes)
    else
      var s := ReadSegment(bytes[1..]);
      Segment(ToBits(bytes[0], 8) + s.bits, s.tail)
  }

  /** A place where entropy-coded data may stop: the end, or a marker. */
  predicate AtMarker(tail: seq<byte>) {
    tail == [] || (|tail| >= 2 && tail[0] == 0xFF && tail[1] != 0)
  }

  /** Reading back stuffed bytes gives the bits, and stops exactly at the marker. */
  lemma {:induction false} ReadPacked(bs: seq<bool>, tail: seq<byte>)
    requires |bs| % 8 == 0
    requires AtMarker(tail)
    ensures ReadSegment(PackBytes(bs) + tail) == Segment(bs, tail)
    decreases |bs|
  {
    if bs == [] {
      assert PackBytes(bs) + tail == tail;
    } else {
      var b := ByteOf(bs[..8]);
      var more := PackBytes(bs[8..]) + tail;
      ReadPacked(bs[8..], tail);
      ToFromBits(bs[..8]);
      assert bs == bs[..8] + bs[8..];
      assert PackBytes(bs) + tail == Stuffed(b) + more;
      ReadStuffed(b, more);
    }
  }

  /** Reading one data byte. */
  lemma ReadStuffed(b: byte, more: seq<byte>)
    ensures ReadSegment(Stuffed(b) + more) == Segment(ToBits(b, 8) + ReadSegment(more).bits, ReadSegment(more).tail)
  {
    hide ToBits;
    if b == 0xFF {
      assert (Stuffed(b) + more)[2..] == more;
    } else {
      assert (Stuffed(b) + more)[1..] == more;
    }
  }

  /** Every 0xFF data byte is followed by 0x00, so no marker can appear in the data. */
  predicate NoMarker(bytes: seq<byte>) {
    forall i :: 0 <= i < |bytes| && bytes[i] == 0xFF ==> i + 1 < |bytes| && bytes[i + 1] == 0
  }

  lemma {:induction false} PackedHasNoMarker(bs: seq<bool>)
    ensures NoMarker(PackBytes(bs))
    decreases |bs|
  {
    if |bs| >= 8 {
      PackedHasNoMarker(bs[8..]);
      var head, more := Stuffed(ByteOf(bs[..8])), PackBytes(bs[8..]);
      var all := head + more;
      forall i | 0 <= i < |all| && all[i] == 0xFF
        ensures i + 1 < |all| && all[i + 1] == 0
      {
        if i >= |head| {
          assert all[i] == more[i - |head|];
          assert all[i + 1] == more[i + 1 - |head|];
        }
      }
    }
  }
}
