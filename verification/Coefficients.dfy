/** Quantised coefficients: zigzag order, point transforms, and the magnitude coding of
    sections F.1.2.1 and F.2.2.1 of T.81. */
module Coefficients {
  import opened Bits

  const DCTSIZE2 := 64
  const MAX_COEF_BITS := 10

  type Index = i: nat | i < DCTSIZE2
  type Block = b: seq<int> | |b| == DCTSIZE2 witness seq(DCTSIZE2, _ => 0)

  /** jpeg_natural_order: position in the block of the k-th coefficient in zigzag order. */
  function NaturalOrder(k: Index): Index {
    if k < 8 then [0, 1, 8, 16, 9, 2, 3, 10][k]
    else if k < 16 then [17, 24, 32, 25, 18, 11, 4, 5][k - 8]
    else if k < 24 then [12, 19, 26, 33, 40, 48, 41, 34][k - 16]
    else if k < 32 then [27, 20, 13, 6, 7, 14, 21, 28][k - 24]
    else if k < 40 then [35, 42, 49, 56, 57, 50, 43, 36][k - 32]
    else if k < 48 then [29, 22, 15, 23, 30, 37, 44, 51][k - 40]
    else if k < 56 then [58, 59, 52, 45, 38, 31, 39, 46][k - 48]
    else [53, 60, 61, 54, 47, 55, 62, 63][k - 56]
  }

  /** The zigzag position of the n-th element of a block. */
  function ZigzagOrder(n: Index): Index {
    match n
    case 0 => 0 case 1 => 1 case 2 => 5 case 3 => 6 case 4 => 14 case 5 => 15 case 6 => 27 case 7 => 28
    case 8 => 2 case 9 => 4 case 10 => 7 case 11 => 13 case 12 => 16 case 13 => 26 case 14 => 29 case 15 => 42
    case 16 => 3 case 17 => 8 case 18 => 12 case 19 => 17 case 20 => 25 case 21 => 30 case 22 => 41 case 23 => 43
    case 24 => 9 case 25 => 11 case 26 => 18 case 27 => 24 case 28 => 31 case 29 => 40 case 30 => 44 case 31 => 53
    case 32 => 10 case 33 => 19 case 34 => 23 case 35 => 32 case 36 => 39 case 37 => 45 case 38 => 52 case 39 => 54
    case 40 => 20 case 41 => 22 case 42 => 33 case 43 => 38 case 44 => 46 case 45 => 51 case 46 => 55 case 47 => 60
    case 48 => 21 case 49 => 34 case 50 => 37 case 51 => 47 case 52 => 50 case 53 => 56 case 54 => 59 case 55 => 61
    case 56 => 35 case 57 => 36 case 58 => 48 case 59 => 49 case 60 => 57 case 61 => 58 case 62 => 62 case _ => 63
  }

  lemma OrdersInverse0(n: Index)
    requires 0 <= n < 16
    ensures NaturalOrder(ZigzagOrder(n)) == n
  {
    match n
    case 0 => case 1 => case 2 => case 3 => case 4 => case 5 => case 6 => case 7 => case 8 => case 9 => case 10 => case 11 => case 12 => case 13 => case 14 => case _ =>
  }

  lemma OrdersInverse16(n: Index)
    requires 16 <= n < 32
    ensures NaturalOrder(ZigzagOrder(n)) == n
  {
    match n
    case 16 => case 17 => case 18 => case 19 => case 20 => case 21 => case 22 => case 23 => case 24 => case 25 => case 26 => case 27 => case 28 => case 29 => case 30 => case _ =>
  }

  lemma OrdersInverse32(n: Index)
    requires 32 <= n < 40
    ensures NaturalOrder(ZigzagOrder(n)) == n
  {
    match n
    case 32 => case 33 => case 34 => case 35 => case 36 => case 37 => case 38 => case _ =>
  }

  lemma OrdersInverse40(n: Index)
    requires 40 <= n < 48
    ensures NaturalOrder(ZigzagOrder(n)) == n
  {
    match n
    case 40 => case 41 => case 42 => case 43 => case 44 => case 45 => case 46 => case _ =>
  }

  lemma OrdersInverse48(n: Index)
    requires 48 <= n < 56
    ensures NaturalOrder(ZigzagOrder(n)) == n
  {
    match n
    case 48 => case 49 => case 50 => case 51 => case 52 => case 53 => case 54 => case _ =>
  }

  lemma OrdersInverse56(n: Index)
    requires 56 <= n < 64
    ensures NaturalOrder(ZigzagOrder(n)) == n
  {
    match n
    case 56 => case 57 => case 58 => case 59 => case 60 => case 61 => case 62 => case _ =>
  }

  /** The two orders are inverse permutations. */
  lemma OrdersInverse(n: Index)
    ensures NaturalOrder(ZigzagOrder(n)) == n
  {
    hide NaturalOrder, ZigzagOrder;
    if n < 16 {
      OrdersInverse0(n);
    } else if n < 32 {
      OrdersInverse16(n);
    } else if n < 40 {
      OrdersInverse32(n);
    } else if n < 48 {
      OrdersInverse40(n);
    } else if n < 56 {
      OrdersInverse48(n);
    } else {
      OrdersInverse56(n);
    }
  }

  // ----- the zigzag walk -----

  /** The step of the walk over an 8x8 block from row r, column c: along the diagonals, downwards to the left on
      odd ones and upwards to the right on even ones, turning at the edges. */
  function NextOnWalk(r: nat, c: nat): (nat, nat) {
    if (r + c) % 2 == 1 then (if r == 7 then (7, c + 1) else if c == 0 then (r + 1, 0) else (r + 1, c - 1))
    else (if c == 7 then (r + 1, 7) else if r == 0 then (0, c + 1) else (r - 1, c + 1))
  }

  predicate Walks(k: nat)
    requires k < 63
  {
    var n, n' := NaturalOrder(k), NaturalOrder(k + 1);
    (n' / 8, n' % 8) == NextOnWalk(n / 8, n % 8)
  }

  lemma Walk0()
    ensures Walks(0) && Walks(1) && Walks(2) && Walks(3) && Walks(4) && Walks(5) && Walks(6) && Walks(7)
  {}

  lemma Walk8()
    ensures Walks(8) && Walks(9) && Walks(10) && Walks(11) && Walks(12) && Walks(13) && Walks(14) && Walks(15)
  {}

  lemma Walk16()
    ensures Walks(16) && Walks(17) && Walks(18) && Walks(19) && Walks(20) && Walks(21) && Walks(22) && Walks(23)
  {}

  lemma Walk24()
    ensures Walks(24) && Walks(25) && Walks(26) && Walks(27) && Walks(28) && Walks(29) && Walks(30) && Walks(31)
  {}

  lemma Walk32()
    ensures Walks(32) && Walks(33) && Walks(34) && Walks(35) && Walks(36) && Walks(37) && Walks(38) && Walks(39)
  {}

  lemma Walk40()
    ensures Walks(40) && Walks(41) && Walks(42) && Walks(43) && Walks(44) && Walks(45) && Walks(46) && Walks(47)
  {}

  lemma Walk48()
    ensures Walks(48) && Walks(49) && Walks(50) && Walks(51) && Walks(52) && Walks(53) && Walks(54) && Walks(55)
  {}

  lemma Walk56()
    ensures Walks(56) && Walks(57) && Walks(58) && Walks(59) && Walks(60) && Walks(61) && Walks(62)
  {}

  /** The natural order is the zigzag walk, from the DC coefficient in the corner. */
  lemma ZigzagWalk(k: nat)
    requires k < 63
    ensures NaturalOrder(0) == 0
    ensures var n, n' := NaturalOrder(k), NaturalOrder(k + 1); (n' / 8, n' % 8) == NextOnWalk(n / 8, n % 8)
  {
    hide NaturalOrder, NextOnWalk;
    EachWalks(k);
    StartsAtDc();
  }

  lemma EachWalks(k: nat)
    requires k < 63
    ensures Walks(k)
  {
    hide Walks;
    Walk0();
    Walk8();
    Walk16();
    Walk24();
    Walk32();
    Walk40();
    Walk48();
    Walk56();
  }

  lemma StartsAtDc()
    ensures NaturalOrder(0) == 0
  {}

  /** A block's coefficients in zigzag order, and back. */
  function Zigzag(b: Block): Block {
    seq(DCTSIZE2, k requires 0 <= k < DCTSIZE2 => b[NaturalOrder(k)])
  }

  function Dezigzag(z: Block): Block {
    seq(DCTSIZE2, n requires 0 <= n < DCTSIZE2 => z[ZigzagOrder(n)])
  }

  lemma ZigzagRoundTrip(b: Block)
    ensures Dezigzag(Zigzag(b)) == b
  {
    hide NaturalOrder, ZigzagOrder;
    forall n: Index
      ensures Dezigzag(Zigzag(b))[n] == b[n]
    {
      OrdersInverse(n);
    }
  }

  // ----- point transforms -----

  /** Arithmetic right shift: floor(x / 2^n). */
  function Asr(x: int, n: nat): int
    decreases n
  {
    if n == 0 then x else Asr(x / 2, n - 1)
  }

  lemma {:induction false} AsrStep(x: int, n: nat)
    ensures Asr(x, n + 1) == Asr(x, n) / 2
    decreases n
  {
    if n > 0 {
      AsrStep(x / 2, n - 1);
    }
  }

  lemma {:induction false} AsrIsFloor(x: int, n: nat)
    ensures Asr(x, n) * Pow2(n) <= x < Asr(x, n) * Pow2(n) + Pow2(n)
    decreases n
  {
    if n > 0 {
      AsrIsFloor(x / 2, n - 1);
      var q := Asr(x, n);
      assert q * Pow2(n) == 2 * (q * Pow2(n - 1));
    }
  }

  function Abs(x: int): nat {
    if x < 0 then -x else x
  }

  function WithSign(x: int, a: nat): int {
    if x < 0 then -(a as int) else a
  }

  /** What a decoder holds for a DC or AC coefficient x that is known down to bit al. */
  function DcKnown(x: int, al: nat): int {
    Asr(x, al) * Pow2(al)
  }

  function AcKnown(x: int, al: nat): int {
    WithSign(x, Shr(Abs(x), al)) * Pow2(al)
  }

  // ----- magnitude coding -----

  /** The bits appended after a magnitude category: x, or x - 1 when negative, in n bits. */
  function Appended(x: int): int {
    if x < 0 then x - 1 else x
  }

  /** EXTEND of Figure F.12. */
  function Extend(v: nat, n: nat): int {
    if n == 0 then 0
    else if v < Pow2(n - 1) then v - Pow2(n) + 1
    else v
  }

  lemma ExtendInvertsAppended(x: int)
    ensures var n := BitLength(Abs(x));
            && Appended(x) % Pow2(n) < Pow2(n)
            && Extend(Appended(x) % Pow2(n), n) == x
  {
    var n := BitLength(Abs(x));
    var p := Pow2(n);
    if x > 0 {
      WrapMod(x, p, 0);
    } else if x < 0 {
      assert p == 2 * Pow2(n - 1);
      WrapMod(x - 1 + p, p, -1);
    } else {
      assert p == 1;
    }
  }

  lemma WrapMod(r: nat, p: nat, q: int)
    requires r < p && -1 <= q <= 0
    ensures (r + q * p) % p == r
  {}
}
