/** Bit strings, most significant bit first, and the numbers they stand for. */
module Bits {

  function Pow2(n: nat): (p: nat)
    ensures p > 0
  {
    if n == 0 then 1 else 2 * Pow2(n - 1)
  }

  lemma {:induction false} Pow2Add(m: nat, n: nat)
    ensures Pow2(m + n) == Pow2(m) * Pow2(n)
  {
    if m > 0 {
      Pow2Add(m - 1, n);
      assert Pow2(m + n) == 2 * (Pow2(m - 1) * Pow2(n));
    }
  }

  lemma {:induction false} Pow2Monotone(m: nat, n: nat)
    requires m <= n
    ensures Pow2(m) <= Pow2(n)
    decreases n
  {
    if m < n {
      Pow2Monotone(m, n - 1);
    }
  }

  /** The value of a bit string. */
  function FromBits(bs: seq<bool>): nat {
    if bs == [] then 0 else 2 * FromBits(bs[..|bs| - 1]) + (if bs[|bs| - 1] then 1 else 0)
  }

  /** The low n bits of v. */
  function ToBits(v: nat, n: nat): (bs: seq<bool>)
    ensures |bs| == n
  {
    if n == 0 then [] else ToBits(v / 2, n - 1) + [v % 2 == 1]
  }

  lemma {:induction false} FromBitsBound(bs: seq<bool>)
    ensures FromBits(bs) < Pow2(|bs|)
  {
    if bs != [] {
      FromBitsBound(bs[..|bs| - 1]);
    }
  }

  lemma {:induction false} FromToBits(v: nat, n: nat)
    requires v < Pow2(n)
    ensures FromBits(ToBits(v, n)) == v
  {
    if n > 0 {
      FromToBits(v / 2, n - 1);
      assert ToBits(v, n)[..n - 1] == ToBits(v / 2, n - 1);
    }
  }

  lemma {:induction false} ToFromBits(bs: seq<bool>)
    ensures ToBits(FromBits(bs), |bs|) == bs
  {
    if bs != [] {
      var init := bs[..|bs| - 1];
      ToFromBits(init);
      assert bs == init + [bs[|bs| - 1]];
    }
  }

  lemma {:induction false} FromBitsConcat(a: seq<bool>, b: seq<bool>)
    ensures FromBits(a + b) == FromBits(a) * Pow2(|b|) + FromBits(b)
  {
    if b == [] {
      assert a + b == a;
    } else {
      var init := b[..|b| - 1];
      FromBitsConcat(a, init);
      assert (a + b)[..|a + b| - 1] == a + init;
      assert (a + b)[|a + b| - 1] == b[|b| - 1];
      assert FromBits(a) * Pow2(|b|) == 2 * (FromBits(a) * Pow2(|init|));
    }
  }

  /** Right shift. */
  function Shr(v: nat, k: nat): nat {
    if k == 0 then v else Shr(v / 2, k - 1)
  }

  lemma {:induction false} ShrStep(v: nat, k: nat)
    ensures Shr(v, k + 1) == Shr(v, k) / 2
  {
    if k > 0 {
      ShrStep(v / 2, k - 1);
    }
  }

  lemma {:induction false} ShrAtLeast(v: nat, low: nat, k: nat)
    ensures low * Pow2(k) <= v <==> low <= Shr(v, k)
  {
    if k > 0 {
      ShrAtLeast(v / 2, low, k - 1);
      assert low * Pow2(k) == 2 * (low * Pow2(k - 1));
    }
  }

  /** The first bit of a number's representation. */
  lemma {:induction false} ToBitsFirst(v: nat, n: nat)
    requires n > 0
    ensures ToBits(v, n) == [Shr(v, n - 1) % 2 == 1] + ToBits(v, n - 1)
  {
    if n > 1 {
      ToBitsFirst(v / 2, n - 1);
    }
  }

  /** Number of bits in the magnitude, as counted by the encoder's shift loops. */
  function BitLength(v: nat): (n: nat)
    ensures v < Pow2(n)
    ensures v > 0 ==> n > 0 && Pow2(n - 1) <= v
    ensures v == 0 ==> n == 0
  {
    if v == 0 then 0 else 1 + BitLength(v / 2)
  }

  lemma BitLengthAtMost(v: nat, n: nat)
    ensures BitLength(v) <= n <==> v < Pow2(n)
  {
    var m := BitLength(v);
    if m <= n {
      Pow2Monotone(m, n);
    } else {
      Pow2Monotone(n, m - 1);
    }
  }

  /** Take the next n bits as a number. */
  datatype Received = Short | Received(value: nat, rest: seq<bool>)

  function Receive(bs: seq<bool>, n: nat): Received {
    if |bs| < n then Short else Received(FromBits(bs[..n]), bs[n..])
  }

  lemma ReceiveSent(v: nat, n: nat, rest: seq<bool>)
    requires v < Pow2(n)
    ensures Receive(ToBits(v, n) + rest, n) == Received(v, rest)
  {
    FromToBits(v, n);
    assert (ToBits(v, n) + rest)[..n] == ToBits(v, n);
    assert (ToBits(v, n) + rest)[n..] == rest;
  }
}
