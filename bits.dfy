/**
 * Bit strings as the source stores them: Python tuples of the ints 0 and 1,
 * most significant bit first, converted with int("".join(...), 2) and
 * produced with bin(n)[2:].zfill(width).
 */
module Bits {

  /** A binary digit (a Python int that is 0 or 1). */
  type Bit = x: int | 0 <= x <= 1

  function Pow2(k: nat): (r: nat)
    ensures r >= 1
  {
    if k == 0 then 1 else 2 * Pow2(k - 1)
  }

  /** The value of a bit string read most significant bit first. */
  function ToNat(bs: seq<Bit>): nat
  {
    if bs == [] then 0 else 2 * ToNat(bs[..|bs| - 1]) + bs[|bs| - 1]
  }

  /** The digits of bin(n)[2:]: no leading zero, and "0" for zero. */
  function Binary(n: nat): (r: seq<Bit>)
    ensures 1 <= |r|
    ensures |r| > 1 ==> r[0] == 1
  {
    if n < 2 then [n] else Binary(n / 2) + [n % 2]
  }

  function Zeros(k: nat): (r: seq<Bit>)
    ensures |r| == k
    ensures forall i :: 0 <= i < k ==> r[i] == 0
  {
    if k == 0 then [] else Zeros(k - 1) + [0]
  }

  /** s.zfill(width) on a string of binary digits: pad with leading zeros. */
  function ZFill(bs: seq<Bit>, width: nat): (r: seq<Bit>)
    ensures |r| == if |bs| >= width then |bs| else width
    ensures ToNat(r) == ToNat(bs)
  {
    if |bs| >= width then bs
    else
      LeadingZeros(width - |bs|, bs);
      Zeros(width - |bs|) + bs
  }

  lemma {:induction false} AppendBit(bs: seq<Bit>, b: Bit)
    ensures ToNat(bs + [b]) == 2 * ToNat(bs) + b
  {
    assert (bs + [b])[..|bs|] == bs;
  }

  lemma {:induction false} ZerosValue(k: nat)
    ensures ToNat(Zeros(k)) == 0
  {
    if k > 0 {
      ZerosValue(k - 1);
      AppendBit(Zeros(k - 1), 0);
    }
  }

  /** Leading zeros do not change the value of a bit string. */
  lemma {:induction false} LeadingZeros(k: nat, bs: seq<Bit>)
    ensures ToNat(Zeros(k) + bs) == ToNat(bs)
    decreases |bs|
  {
    if bs == [] {
      assert Zeros(k) + bs == Zeros(k);
      ZerosValue(k);
    } else {
      var init, last := bs[..|bs| - 1], bs[|bs| - 1];
      assert bs == init + [last];
      assert Zeros(k) + bs == (Zeros(k) + init) + [last];
      LeadingZeros(k, init);
      AppendBit(Zeros(k) + init, last);
      AppendBit(init, last);
    }
  }

  /** Reading back the digits of bin(n) gives n. */
  lemma {:induction false} BinaryValue(n: nat)
    ensures ToNat(Binary(n)) == n
  {
    if n >= 2 {
      BinaryValue(n / 2);
      AppendBit(Binary(n / 2), n % 2);
    }
  }

  /** A number below 2^w has at most w binary digits. */
  lemma {:induction false} BinaryLength(n: nat, w: nat)
    requires 1 <= w && n < Pow2(w)
    ensures |Binary(n)| <= w
  {
    if n >= 2 {
      BinaryLength(n / 2, w - 1);
    }
  }

  /** A string of w bits denotes a number below 2^w. */
  lemma {:induction false} ToNatBound(bs: seq<Bit>)
    ensures ToNat(bs) < Pow2(|bs|)
    decreases |bs|
  {
    if bs != [] {
      ToNatBound(bs[..|bs| - 1]);
    }
  }

  /** One more bit doubles the value of a prefix and adds the bit. */
  lemma ToNatPrefix(bs: seq<Bit>, k: nat)
    requires k < |bs|
    ensures ToNat(bs[..k + 1]) == 2 * ToNat(bs[..k]) + bs[k]
  {
    assert bs[..k + 1][..k] == bs[..k];
  }

  /** The value of a six-bit string, digit by digit. */
  lemma SixBits(bs: seq<Bit>)
    requires |bs| == 6
    ensures ToNat(bs) == 32 * (bs[0] as int) + 16 * (bs[1] as int) + 8 * (bs[2] as int) + 4 * (bs[3] as int) + 2 * (bs[4] as int) + bs[5]
  {
    var v1 := ToNat(bs[..1]);
    assert v1 == bs[0] by {
      ToNatPrefix(bs, 0);
      assert bs[..0] == [];
    }
    var v2 := ToNat(bs[..2]);
    assert v2 == 2 * v1 + bs[1] by {
      ToNatPrefix(bs, 1);
    }
    var v3 := ToNat(bs[..3]);
    assert v3 == 2 * v2 + bs[2] by {
      ToNatPrefix(bs, 2);
    }
    var v4 := ToNat(bs[..4]);
    assert v4 == 2 * v3 + bs[3] by {
      ToNatPrefix(bs, 3);
    }
    var v5 := ToNat(bs[..5]);
    assert v5 == 2 * v4 + bs[4] by {
      ToNatPrefix(bs, 4);
    }
    assert ToNat(bs) == 2 * v5 + bs[5] by {
      ToNatPrefix(bs, 5);
      assert bs[..6] == bs;
    }
  }

  /** Two bit strings of one length with one value are the same string. */
  lemma {:induction false} ToNatInjective(x: seq<Bit>, y: seq<Bit>)
    requires |x| == |y| && ToNat(x) == ToNat(y)
    ensures x == y
    decreases |x|
  {
    if x != [] {
      var n := |x| - 1;
      LastBit(x);
      LastBit(y);
      ToNatInjective(x[..n], y[..n]);
      assert x == x[..n] + [x[n]] && y == y[..n] + [y[n]];
    }
  }

  /** The last bit of a string is its value's remainder by 2, and the rest its quotient. */
  lemma LastBit(bs: seq<Bit>)
    requires bs != []
    ensures bs[|bs| - 1] == ToNat(bs) % 2
    ensures ToNat(bs[..|bs| - 1]) == ToNat(bs) / 2
  {
    var q, b := ToNat(bs[..|bs| - 1]), bs[|bs| - 1];
    assert ToNat(bs) == 2 * q + b;
    HalveDouble(q, b);
  }

  /** Appending a bit doubles the value: 2q + b leaves remainder b and quotient q. */
  lemma HalveDouble(q: nat, b: Bit)
    ensures (2 * q + b) % 2 == b && (2 * q + b) / 2 == q
  {
  }

  /**
   * Python's ^ on two non-negative ints: zero exactly on equal operands,
   * and never above their sum.
   */
  function NatXor(a: nat, b: nat): (r: nat)
    ensures r == 0 <==> a == b
    ensures r <= a + b
    decreases a + b
  {
    if a == 0 && b == 0 then 0
    else
      NatXorDigit(a, b, NatXor(a / 2, b / 2));
      2 * NatXor(a / 2, b / 2) + (a + b) % 2
  }

  /** One binary digit on top of the exclusive or of the halves keeps NatXor's contract. */
  lemma NatXorDigit(a: nat, b: nat, h: nat)
    requires h == 0 <==> a / 2 == b / 2
    requires h <= a / 2 + b / 2
    ensures 2 * h + (a + b) % 2 == 0 <==> a == b
    ensures 2 * h + (a + b) % 2 <= a + b
  {
    SumParity(a, b);
  }

  /** Exclusive or does not depend on the order of its operands. */
  lemma {:induction false} NatXorCommutes(a: nat, b: nat)
    ensures NatXor(a, b) == NatXor(b, a)
    decreases a + b
  {
    if a != 0 || b != 0 {
      NatXorCommutes(a / 2, b / 2);
    }
  }

  /** Bit k of NatXor(a, b) is the sum of bit k of a and bit k of b, mod 2. */
  lemma {:induction false} NatXorBit(a: nat, b: nat, k: nat)
    ensures (NatXor(a, b) / Pow2(k)) % 2 == ((a / Pow2(k)) % 2 + (b / Pow2(k)) % 2) % 2
    decreases k
  {
    if k == 0 {
      NatXorHalf(a, b);
      DivideByOne(NatXor(a, b), a, b);
    } else {
      NatXorHalf(a, b);
      NatXorBit(a / 2, b / 2, k - 1);
      HalveFirst(NatXor(a, b), k);
      HalveFirst(a, k);
      HalveFirst(b, k);
      SumOfHalves(NatXor(a, b), a, b, NatXor(a / 2, b / 2), a / 2, b / 2, k);
    }
  }

  /** Bit 0 is the last bit: dividing by 2^0 changes nothing. */
  lemma DivideByOne(x: nat, a: nat, b: nat)
    requires x % 2 == (a % 2 + b % 2) % 2
    ensures (x / Pow2(0)) % 2 == ((a / Pow2(0)) % 2 + (b / Pow2(0)) % 2) % 2
  {
    assert Pow2(0) == 1;
  }

  /** A bit-k sum carries over from the halves, whose bit k - 1 is bit k of the wholes. */
  lemma SumOfHalves(x: nat, a: nat, b: nat, x': nat, a': nat, b': nat, k: nat)
    requires k >= 1
    requires x / Pow2(k) == x' / Pow2(k - 1)
    requires a / Pow2(k) == a' / Pow2(k - 1) && b / Pow2(k) == b' / Pow2(k - 1)
    requires (x' / Pow2(k - 1)) % 2 == ((a' / Pow2(k - 1)) % 2 + (b' / Pow2(k - 1)) % 2) % 2
    ensures (x / Pow2(k)) % 2 == ((a / Pow2(k)) % 2 + (b / Pow2(k)) % 2) % 2
  {
  }

  /** The last bit of NatXor(a, b) is the sum of the last bits, and the rest is NatXor of the rest. */
  lemma NatXorHalf(a: nat, b: nat)
    ensures NatXor(a, b) % 2 == (a % 2 + b % 2) % 2
    ensures NatXor(a, b) / 2 == NatXor(a / 2, b / 2)
  {
    if a != 0 || b != 0 {
      var q, c := NatXor(a / 2, b / 2), (a + b) % 2;
      assert NatXor(a, b) == 2 * q + c;
      HalveDouble(q, c);
      SumParity(a, b);
    }
  }

  /** The last bit of a sum is the sum of the last bits, mod 2. */
  lemma SumParity(a: nat, b: nat)
    ensures (a + b) % 2 == (a % 2 + b % 2) % 2
  {
    assert a + b == 2 * (a / 2 + b / 2) + (a % 2 + b % 2);
  }

  /**
   * Bit k of -1 - n, in two's complement, is bit k of n inverted: -1 - n
   * is n with every bit flipped.
   */
  lemma Complement(n: nat, k: nat)
    ensures ((-1 - n) / Pow2(k)) % 2 == 1 - (n / Pow2(k)) % 2
  {
    var m := Pow2(k);
    var q, r := n / m, n % m;
    assert -1 - n == (-1 - q) * m + (m - 1 - r);
    DivUnique(-1 - n, m, -1 - q, m - 1 - r);
    OddComplement(q);
  }

  /** -1 - q and q differ in their last bit. */
  lemma OddComplement(q: int)
    ensures (-1 - q) % 2 == 1 - q % 2
  {
  }

  /** Dividing by 2^k is halving, then dividing by 2^(k-1). */
  lemma HalveFirst(x: nat, k: nat)
    requires k >= 1
    ensures x / Pow2(k) == (x / 2) / Pow2(k - 1)
  {
    var m := Pow2(k - 1);
    var q, r := (x / 2) / m, (x / 2) % m;
    assert x == q * (2 * m) + (2 * r + x % 2);
    DivUnique(x, 2 * m, q, 2 * r + x % 2);
  }

  /** The quotient of Euclidean division is the only q with x = q * d + s and 0 <= s < d. */
  lemma DivUnique(x: int, d: int, q: int, s: int)
    requires d > 0 && x == q * d + s && 0 <= s < d
    ensures x / d == q
  {
    var t := q - x / d;
    assert t * d == x % d - s;
    if t >= 1 {
      AtLeastOnce(t, d);
    } else if t <= -1 {
      AtLeastOnce(-t, d);
    }
  }

  /** n copies of d, for n >= 1 and d >= 0, make at least d. */
  lemma {:induction false} AtLeastOnce(n: int, d: int)
    requires n >= 1 && d >= 0
    ensures n * d >= d
    decreases n
  {
    if n > 1 {
      AtLeastOnce(n - 1, d);
      assert n * d == (n - 1) * d + d;
    }
  }

  /** Exclusive or of numbers below 2^k stays below 2^k. */
  lemma {:induction false} NatXorBound(a: nat, b: nat, k: nat)
    requires a < Pow2(k) && b < Pow2(k)
    ensures NatXor(a, b) < Pow2(k)
    decreases a + b
  {
    if a != 0 || b != 0 {
      assert k >= 1;
      NatXorBound(a / 2, b / 2, k - 1);
    }
  }
}
