/** The data destination, the bit accumulator and its byte output. */
module BitWriter {
  import opened Bits
  import opened ByteStuffing
  import opened Arithmetic

  /** Fatal error exits; they never return to the caller. */
  datatype Error = BadDctCoef | HuffMissingCode | CantSuspend

  /** How an output routine ends. Only Done carries on with the next statement. */
  datatype Status = Done | Suspended | Fatal(error: Error) {
    predicate IsFailure() { !Done? }
    function PropagateFailure(): Status
      requires IsFailure()
    {
      this
    }
  }

  const WINDOW := 24       // bits of put_buffer in use
  const INT32_SPAN := 0x1_0000_0000

  /** A byte sink. `buffer` is what lies before next_output_byte. A sink either always
      empties its buffer on request, or always refuses (and so suspends the encoder). */
  class Destination {
    const empties: bool
    const capacity: nat
    var flushed: seq<byte>
    var buffer: seq<byte>
    var free: nat

    constructor (empties: bool, capacity: nat)
      requires capacity > 0
      ensures Valid() && Committed() == [] && free == capacity
      ensures this.empties == empties && this.capacity == capacity
    {
      this.empties, this.capacity := empties, capacity;
      flushed, buffer, free := [], [], capacity;
    }

    ghost predicate Valid()
      reads this
    {
      0 < free && 0 < capacity
    }

    /** Everything written up to next_output_byte. */
    ghost function Committed(): seq<byte>
      reads this
    {
      flushed + buffer
    }

    /** empty_output_buffer: `tentative` is what the encoder stored past next_output_byte. */
    method EmptyOutputBuffer(tentative: seq<byte>) returns (ok: bool)
      requires 0 < capacity
      modifies this
      ensures ok == empties
      ensures ok ==> Valid() && Committed() == old(Committed()) + tentative
      ensures !ok ==> unchanged(this)
    {
      ok := empties;
      if ok {
        flushed := flushed + (buffer + tentative);
        buffer, free := [], capacity;
        assert flushed + buffer == old(flushed + buffer) + tentative;
      }
    }

    /** The caller makes more room in a suspending sink between calls. */
    method MakeRoom(n: nat)
      modifies this
      ensures Committed() == old(Committed()) && free == old(free) + n
    {
      free := free + n;
    }
  }

  /** What the accumulator must contain when `bits` have been put since it was last empty. */
  ghost predicate WindowHolds(putBuffer: nat, putBits: nat, bits: seq<bool>) {
    && putBits == |PackRest(bits)|
    && putBuffer % Pow2(WINDOW) == FromBits(PackRest(bits)) * Pow2(WINDOW - putBits)
  }

  /** The value of a bitwise OR. */
  function Or(a: nat, b: nat): nat
    decreases a + b
  {
    if a == 0 && b == 0 then 0
    else 2 * Or(a / 2, b / 2) + (if a % 2 == 1 || b % 2 == 1 then 1 else 0)
  }

  /** Numbers without a bit in common: OR is addition. */
  lemma {:induction false} OrDisjoint(a: nat, b: nat, k: nat)
    requires a < Pow2(k) && b % Pow2(k) == 0
    ensures Or(a, b) == a + b
    decreases a + b
  {
    if a == 0 && b == 0 {
    } else if k == 0 {
      assert Pow2(0) == 1;
      if b > 0 {
        OrDisjoint(0, b / 2, 0);
      }
    } else {
      var q := b / Pow2(k);
      assert b == Pow2(k) * q;
      assert b == 2 * (Pow2(k - 1) * q);
      assert b / 2 == Pow2(k - 1) * q;
      assert (b / 2) % Pow2(k - 1) == 0 by { MultipleOf(Pow2(k - 1), q); }
      OrDisjoint(a / 2, b / 2, k - 1);
    }
  }

  /** Merging `size` new bits below the pending ones. */
  lemma MergeBits(putBuffer: nat, pending: seq<bool>, code: nat, size: nat)
    requires |pending| < 8 && 1 <= size <= 16 && code < Pow2(size)
    requires putBuffer % Pow2(WINDOW) == FromBits(pending) * Pow2(WINDOW - |pending|)
    ensures var n := |pending| + size;
            var merged := Or(code * Pow2(WINDOW - n), putBuffer);
            merged % Pow2(WINDOW) == FromBits(pending + ToBits(code, size)) * Pow2(WINDOW - n)
  {
    hide Pow2, FromBits, ToBits, Or;
    var n := |pending| + size;
    var low, gap := Pow2(WINDOW - n), Pow2(WINDOW - |pending|);
    Pow2Add(size, WINDOW - n);
    Pow2Add(|pending|, WINDOW - |pending|);
    FromBitsBound(pending);
    FromBitsConcat(pending, ToBits(code, size));
    FromToBits(code, size);
    MulLess(code, Pow2(size), low);
    AlignedMultiple(putBuffer, FromBits(pending), Pow2(|pending|), gap);
    OrDisjoint(code * low, putBuffer, WINDOW - |pending|);
    MergeNumbers(putBuffer, FromBits(pending), Pow2(|pending|), code, Pow2(size), low);
  }

  lemma AlignedMultiple(putBuffer: nat, p: nat, top: nat, gap: nat)
    requires 0 < top && 0 < gap
    requires putBuffer % (top * gap) == p * gap
    ensures putBuffer == ((putBuffer / (top * gap)) * top + p) * gap
    ensures putBuffer % gap == 0
  {
    var stale := putBuffer / (top * gap);
    DivMod(putBuffer, top * gap);
    Assoc(stale, top, gap);
    Distribute(stale * top, p, gap);
    MultipleOf(gap, stale * top + p);
  }

  /** The arithmetic of MergeBits: p pending below the window's top, room for z codes above low. */
  lemma MergeNumbers(putBuffer: nat, p: nat, top: nat, code: nat, z: nat, low: nat)
    requires 0 < top && 0 < z && 0 < low && p < top && code < z
    requires putBuffer % (top * (z * low)) == p * (z * low)
    ensures (code * low + putBuffer) % (top * (z * low)) == (p * z + code) * low
  {
    var span, stale := top * (z * low), putBuffer / (top * (z * low));
    DivMod(putBuffer, span);
    var v := p * z + code;
    Assoc(p, z, low);
    Distribute(p * z, code, low);
    MulLess(p, top, z);
    assert v < top * z;
    Assoc(top, z, low);
    MulLess(v, top * z, low);
    DivModUnique(code * low + putBuffer, span, stale, v * low);
  }

  /** The top byte of a 24-bit window holding `held`, and what stays below it. */
  lemma SplitTopByte(held: seq<bool>)
    requires 8 <= |held| <= WINDOW
    ensures var low, more := Pow2(WINDOW - |held|), FromBits(held[8..]);
            && FromBits(held) * low == FromBits(held[..8]) * 0x10000 + more * low
            && more * low < 0x10000
            && FromBits(held[8..]) * Pow2(WINDOW - |held[8..]|) == more * low * 0x100
  {
    hide Pow2, FromBits;
    var n := |held|;
    var low := Pow2(WINDOW - n);
    var top, more := FromBits(held[..8]), FromBits(held[8..]);
    assert held == held[..8] + held[8..];
    FromBitsConcat(held[..8], held[8..]);
    FromBitsBound(held[8..]);
    BytePowers();
    Pow2Add(n - 8, WINDOW - n);
    Pow2Add(8, WINDOW - n);
    SplitNumbers(top, more, Pow2(n - 8), low);
  }

  lemma BytePowers()
    ensures Pow2(7) == 0x80 && Pow2(8) == 0x100 && Pow2(16) == 0x10000 && Pow2(WINDOW) == 0x100_0000
  {
    assert Pow2(7) == 0x80;
    assert Pow2(8) == 0x100;
    Pow2Add(8, 8);
    Pow2Add(16, 8);
  }

  lemma SplitNumbers(top: nat, more: nat, span: nat, low: nat)
    requires more < span && low > 0 && span * low == 0x10000
    ensures (top * span + more) * low == top * 0x10000 + more * low
    ensures more * low < 0x10000 && more * (0x100 * low) == more * low * 0x100
  {
    Assoc(top, span, low);
    Distribute(top * span, more, low);
    MulLess(more, span, low);
    Assoc(more, low, 0x100);
  }

  /** Taking the top byte of the window and shifting it out. */
  lemma ShiftOutByte(buf: nat, held: seq<bool>)
    requires 8 <= |held| <= WINDOW
    requires buf % Pow2(WINDOW) == FromBits(held) * Pow2(WINDOW - |held|)
    ensures (buf / 0x10000) % 0x100 == ByteOf(held[..8])
    ensures ((buf * 0x100) % INT32_SPAN) % Pow2(WINDOW) == FromBits(held[8..]) * Pow2(WINDOW - |held[8..]|)
  {
    hide Pow2, FromBits;
    SplitTopByte(held);
    FromBitsBound(held[..8]);
    BytePowers();
    TopByte(buf, FromBits(held[..8]), FromBits(held[8..]) * Pow2(WINDOW - |held|));
  }

  lemma TopByte(buf: nat, top: nat, more: nat)
    requires buf % 0x100_0000 == top * 0x10000 + more
    requires top < 0x100 && more < 0x10000
    ensures (buf / 0x10000) % 0x100 == top
    ensures ((buf * 0x100) % INT32_SPAN) % 0x100_0000 == more * 0x100
  {
    var q := buf / 0x100_0000;
    DivModUnique(buf, 0x10000, q * 0x100 + top, more);
    DivModUnique(q * 0x100 + top, 0x100, q, top);
    DivModUnique(buf * 0x100, INT32_SPAN, q, top * 0x100_0000 + more * 0x100);
    DivModUnique(top * 0x100_0000 + more * 0x100, 0x100_0000, top, more * 0x100);
  }

  /** The working copy of the output state that the entropy coders write through. */
  class Writer {
    const dest: Destination
    var tentative: seq<byte>       // bytes stored past dest.next_output_byte
    var free: nat
    var putBuffer: nat
    var putBits: nat
    ghost var base: seq<byte>      // all bytes up to the last time the accumulator was reset
    ghost var bits: seq<bool>      // all bits put since then

    constructor (dest: Destination, putBuffer: nat, putBits: nat, ghost base: seq<byte>, ghost bits: seq<bool>)
      requires dest.Valid()
      requires WindowHolds(putBuffer, putBits, bits)
      requires dest.Committed() == base + PackBytes(bits)
      ensures Valid() && Writing(base, bits)
      ensures this.dest == dest && Room() == |dest.Committed()| + dest.free
      ensures tentative == []
    {
      this.dest := dest;
      tentative, free := [], dest.free;
      this.putBuffer, this.putBits, this.base, this.bits := putBuffer, putBits, base, bits;
      new;
      assert dest.Committed() + tentative == dest.Committed();
    }

    ghost predicate Valid()
      reads this, dest
    {
      && 0 < free && 0 < dest.capacity
      && WindowHolds(putBuffer, putBits, bits)
      && Stream() == base + PackBytes(bits)
    }

    ghost function Stream(): seq<byte>
      reads this, dest
    {
      dest.Committed() + tentative
    }

    ghost predicate Writing(base': seq<byte>, bits': seq<bool>)
      reads this
    {
      base == base' && bits == bits'
    }

    /** The stream length a suspending sink can hold. */
    ghost function Room(): nat
      reads this, dest
    {
      |Stream()| + free
    }

    /** emit_byte. The stored byte is always part of the stream; a refusal comes after it. */
    method EmitByte(val: byte) returns (s: Status)
      requires 0 < free && 0 < dest.capacity
      modifies this, dest
      ensures s.Done? || s.Suspended?
      ensures s.Done? <==> dest.empties || |old(Stream())| + 1 < old(Room())
      ensures s.Done? ==> Stream() == old(Stream()) + [val] && 0 < free
      ensures !dest.empties ==> unchanged(dest)
      ensures !dest.empties && s.Done? ==> Room() == old(Room())
      ensures Writing(old(base), old(bits)) && putBuffer == old(putBuffer) && putBits == old(putBits)
    {
      tentative := tentative + [val];
      free := free - 1;
      assert dest.Committed() + tentative == old(Stream()) + [val];
      if free == 0 {
        var ok := dest.EmptyOutputBuffer(tentative);
        if !ok {
          return Suspended;
        }
        tentative, free := [], dest.free;
        assert dest.Committed() + tentative == old(Stream()) + [val];
      }
      return Done;
    }

    /** Would the stream, with `more` bits put, still leave a suspending sink a free byte? */
    ghost predicate Fits(more: seq<bool>)
      reads this, dest
    {
      dest.empties || |base + PackBytes(bits + more)| < Room()
    }

    /** A data byte, with the zero byte that must follow 0xFF. */
    method EmitDataByte(val: byte) returns (s: Status)
      requires 0 < free && 0 < dest.capacity
      modifies this, dest
      ensures s.Done? || s.Suspended?
      ensures s.Done? <==> dest.empties || |old(Stream()) + Stuffed(val)| < old(Room())
      ensures s.Done? ==> Stream() == old(Stream()) + Stuffed(val) && 0 < free
      ensures !dest.empties ==> unchanged(dest)
      ensures !dest.empties && s.Done? ==> Room() == old(Room())
      ensures Writing(old(base), old(bits)) && putBuffer == old(putBuffer) && putBits == old(putBits)
    {
      var stuff := val == 0xFF;
      :- EmitByte(val);
      if stuff {
        assert old(Stream()) + [val] + [0] == old(Stream()) + Stuffed(val);
        :- EmitByte(0);
      }
      return Done;
    }

    /** emit_bits. */
    method EmitBits(code: int, size: nat) returns (s: Status)
      requires Valid() && size <= 16
      modifies this, dest
      ensures s.Fatal? <==> size == 0
      ensures s.Fatal? ==> s.error == HuffMissingCode
      ensures s.Done? ==> Valid() && Writing(old(base), old(bits) + ToBits(code % Pow2(size), size))
      ensures size > 0 ==> (s.Done? <==> old(Fits(ToBits(code % Pow2(size), size))))
      ensures !dest.empties ==> unchanged(dest)
      ensures !dest.empties && s.Done? ==> Room() == old(Room())
    {
      hide Pow2, FromBits, Or, ToBits, ByteOf, PackBytes, PackRest, Stuffed;
      if size == 0 {
        return Fatal(HuffMissingCode);
      }
      var value := code % Pow2(size);
      ghost var held := PackRest(bits) + ToBits(value, size);
      Total(base, bits, ToBits(value, size));
      MergeBits(putBuffer, PackRest(bits), value, size);
      var n := putBits + size;
      var buf: nat := Or(value * Pow2(WINDOW - n), putBuffer);
      ghost var all := Stream() + PackBytes(held);
      ghost var last := PackRest(held);
      while n >= 8
        invariant 0 < free && n == |held| <= WINDOW
        invariant buf % Pow2(WINDOW) == FromBits(held) * Pow2(WINDOW - n)
        invariant Stream() + PackBytes(held) == all
        invariant PackRest(held) == last
        invariant Writing(old(base), old(bits))
        invariant !dest.empties ==> unchanged(dest) && Room() == old(Room())
      {
        ShiftOutByte(buf, held);
        PackStep(held);
        var c: byte := (buf / 0x10000) % 0x100;
        assert Stream() + (Stuffed(c) + PackBytes(held[8..])) == Stream() + Stuffed(c) + PackBytes(held[8..]);
        :- EmitDataByte(c);
        buf := (buf * 0x100) % INT32_SPAN;
        n := n - 8;
        held := held[8..];
      }
      putBuffer, putBits := buf, n;
      bits := bits + ToBits(value, size);
      PackEnd(held);
      assert Stream() + [] == Stream();
      return Done;
    }

    static lemma Total(base: seq<byte>, bits: seq<bool>, more: seq<bool>)
      ensures base + PackBytes(bits + more) == (base + PackBytes(bits)) + PackBytes(PackRest(bits) + more)
      ensures PackRest(bits + more) == PackRest(PackRest(bits) + more)
    {
      PackConcat(bits, more);
    }

    /** flush_bits: pad the last byte with ones and empty the accumulator. */
    method FlushBits() returns (s: Status)
      requires Valid()
      modifies this, dest
      ensures !s.Fatal?
      ensures s.Done? ==> Valid() && Writing(old(base) + PackBytes(Pad(old(bits))), [])
      ensures !dest.empties ==> unchanged(dest)
      ensures !dest.empties && s.Done? ==> Room() == old(Room())
      ensures s.Done? <==> dest.empties || |old(base) + PackBytes(Pad(old(bits)))| < old(Room())
    {
      hide Pow2, FromBits, ToBits, Pad, PackRest;
      PadIsFlush(bits);
      :- EmitBits(0x7F, 7);
      putBuffer, putBits := 0, 0;
      base, bits := base + PackBytes(bits), [];
      EmptyWindow();
      assert Stream() == base + [];
      return Done;
    }

    static lemma PackStep(held: seq<bool>)
      requires |held| >= 8
      ensures PackBytes(held) == Stuffed(ByteOf(held[..8])) + PackBytes(held[8..])
      ensures PackRest(held) == PackRest(held[8..])
    {}

    static lemma PackEnd(held: seq<bool>)
      requires |held| < 8
      ensures PackBytes(held) == [] && PackRest(held) == held
    {}

    static lemma EmptyWindow()
      ensures WindowHolds(0, 0, []) && PackBytes([]) == []
    {}

    /** Seven one-bits complete exactly the bytes that padding completes. */
    static lemma PadIsFlush(bits: seq<bool>)
      ensures ToBits(0x7F % Pow2(7), 7) == seq(7, _ => true)
      ensures PackBytes(bits + seq(7, _ => true)) == PackBytes(Pad(bits))
    {
      var ones := seq(7, _ => true);
      ToBitsOnes();
      var pending := PackRest(bits);
      PackRestLength(bits);
      PackConcat(bits, ones);
      if |pending| == 0 {
        assert PackBytes(pending + ones) == [];
        assert Pad(bits) == bits;
      } else {
        var fill := seq(8 - |pending|, _ => true);
        assert Pad(bits) == bits + fill;
        PackConcat(bits, fill);
        assert (pending + ones)[..8] == pending + fill == (pending + fill)[..8];
      }
    }

    static lemma ToBitsOnes()
      ensures 0x7F % Pow2(7) == 0x7F && ToBits(0x7F, 7) == seq(7, _ => true)
    {
      assert Pow2(7) == 128;
      assert ToBits(0x7F, 7) == ToBits(0x3F, 6) + [true];
      assert ToBits(0x3F, 6) == ToBits(0x1F, 5) + [true];
      assert ToBits(0x1F, 5) == ToBits(0xF, 4) + [true];
      assert ToBits(0xF, 4) == ToBits(0x7, 3) + [true];
    }

    /** The two bytes of a marker, with the accumulator empty. */
    method EmitMarker(code: byte) returns (s: Status)
      requires Valid() && bits == []
      modifies this, dest
      ensures !s.Fatal?
      ensures s.Done? ==> Valid() && Writing(old(base) + [0xFF, code], [])
      ensures !dest.empties ==> unchanged(dest)
      ensures !dest.empties && s.Done? ==> Room() == old(Room())
      ensures s.Done? <==> dest.empties || |old(base) + [0xFF, code]| < old(Room())
    {
      hide WindowHolds;
      NothingPacked();
      assert Stream() == base + [] == base;
      :- EmitByte(0xFF);
      :- EmitByte(code);
      assert base + [0xFF] + [code] == base + [0xFF, code];
      base := base + [0xFF, code];
      assert Stream() == base + [];
      return Done;
    }

    static lemma NothingPacked()
      ensures PackBytes([]) == []
    {}

    /** Between MCUs: the destination has everything put so far. */
    ghost predicate Idle()
      reads this, dest
    {
      dest.Valid() && WindowHolds(putBuffer, putBits, bits) && dest.Committed() == base + PackBytes(bits)
    }

    /** Taking up the destination's pointers at the start of an MCU. */
    method Load()
      requires Idle()
      modifies this`tentative, this`free
      ensures Valid() && Room() == |dest.Committed()| + dest.free
    {
      tentative, free := [], dest.free;
      assert dest.Committed() + [] == dest.Committed();
    }

    /** An empty accumulator at the start of a pass. */
    method Reset()
      requires dest.Valid()
      modifies this`putBuffer, this`putBits, this`base, this`bits
      ensures Idle() && Writing(dest.Committed(), [])
    {
      putBuffer, putBits := 0, 0;
      base, bits := dest.Committed(), [];
      EmptyWindow();
      assert dest.Committed() + [] == dest.Committed();
    }

    /** Writing back the working state at the end of an MCU. */
    method Commit()
      requires Valid()
      modifies this, dest
      ensures Valid() && Idle() && tentative == []
      ensures dest.Committed() == old(Stream()) && dest.free == free == old(free)
      ensures Stream() == old(Stream())
      ensures Writing(old(base), old(bits)) && putBuffer == old(putBuffer) && putBits == old(putBits)
    {
      dest.buffer, dest.free := dest.buffer + tentative, free;
      tentative := [];
      assert dest.flushed + (old(dest.buffer) + old(tentative)) + [] == old(Stream());
    }
  }
}
