/** Bitwise exclusive or and bit counting on natural numbers of any width. */
module Bits {
  import opened Bytes

  /** n << k. */
  function Shl(n: nat, k: nat): nat {
    if k == 0 then n else 2 * Shl(n, k - 1)
  }

  function Pow2(k: nat): (p: nat)
    ensures p > 0
  {
    if k == 0 then 1 else 2 * Pow2(k - 1)
  }

  lemma {:induction false} ShlByte(n: nat)
    ensures Shl(n, 8) == 256 * n
  {
    assert Shl(n, 2) == 2 * Shl(n, 1) && Shl(n, 1) == 2 * n;
    assert Shl(n, 6) == 4 * Shl(n, 4) && Shl(n, 4) == 4 * Shl(n, 2);
  }

  function LowBit(a: nat, b: nat): nat {
    if a % 2 == b % 2 then 0 else 1
  }

  function Xor(a: nat, b: nat): nat
    decreases a
  {
    if a == 0 then b else 2 * Xor(a / 2, b / 2) + LowBit(a, b)
  }

  /** The defining equation, with no case for zero. */
  lemma {:induction false} XorUnfold(a: nat, b: nat)
    ensures Xor(a, b) == 2 * Xor(a / 2, b / 2) + LowBit(a, b)
  {}

  /** Halving drops the low bit of both operands. */
  lemma {:induction false} XorHalves(a: nat, b: nat)
    ensures Xor(a, b) / 2 == Xor(a / 2, b / 2)
    ensures Xor(a, b) % 2 == LowBit(a, b)
  {
    XorUnfold(a, b);
  }

  lemma {:induction false} XorZero(a: nat)
    ensures Xor(a, 0) == a
  {
    if a != 0 { XorZero(a / 2); }
  }

  lemma {:induction false} XorSelf(a: nat)
    ensures Xor(a, a) == 0
  {
    if a != 0 { XorSelf(a / 2); }
  }

  lemma {:induction false} XorComm(a: nat, b: nat)
    ensures Xor(a, b) == Xor(b, a)
    decreases a + b
  {
    if a == 0 {
      XorZero(b);
    } else if b == 0 {
      XorZero(a);
    } else {
      XorComm(a / 2, b / 2);
    }
  }

  lemma {:induction false} XorAssoc(a: nat, b: nat, c: nat)
    ensures Xor(Xor(a, b), c) == Xor(a, Xor(b, c))
  {
    if a != 0 {
      XorAssoc(a / 2, b / 2, c / 2);
      XorHalves(a, b);
      XorHalves(b, c);
      SameHalves(Xor(Xor(a, b), c), Xor(a, Xor(b, c))) by {
        XorHalves(Xor(a, b), c);
        XorHalves(a, Xor(b, c));
      }
    }
  }

  lemma {:induction false} SameHalves(a: nat, b: nat)
    requires a / 2 == b / 2 && a % 2 == b % 2
    ensures a == b
  {}

  lemma {:induction false} XorCancel(a: nat, b: nat)
    ensures Xor(Xor(a, b), b) == a
  {
    XorAssoc(a, b, b);
    XorSelf(b);
    XorZero(a);
  }

  lemma {:induction false} XorIsZero(a: nat, b: nat)
    ensures Xor(a, b) == 0 <==> a == b
  {
    XorSelf(a);
    XorCancel(a, b);
  }

  /** (a ^ b) ^ (c ^ d) == (a ^ c) ^ (b ^ d). */
  lemma {:induction false} XorShuffle(a: nat, b: nat, c: nat, d: nat)
    ensures Xor(Xor(a, b), Xor(c, d)) == Xor(Xor(a, c), Xor(b, d))
  {
    XorAssoc(a, b, Xor(c, d));
    XorAssoc(b, c, d);
    XorComm(b, c);
    XorAssoc(c, b, d);
    XorAssoc(a, c, Xor(b, d));
  }

  lemma {:induction false} XorBound(a: nat, b: nat, k: nat)
    requires a < Pow2(k) && b < Pow2(k)
    ensures Xor(a, b) < Pow2(k)
  {
    if k > 0 {
      XorBound(a / 2, b / 2, k - 1);
      XorUnfold(a, b);
    }
  }

  /** Shifting both operands left shifts the result. */
  lemma {:induction false} XorShift(a: nat, b: nat, k: nat)
    ensures Xor(Shl(a, k), Shl(b, k)) == Shl(Xor(a, b), k)
  {
    if k > 0 {
      XorShift(a, b, k - 1);
      XorDouble(Shl(a, k - 1), Shl(b, k - 1));
    }
  }

  lemma {:induction false} XorDouble(a: nat, b: nat)
    ensures Xor(2 * a, 2 * b) == 2 * Xor(a, b)
  {
    assert (2 * a) / 2 == a && (2 * b) / 2 == b && LowBit(2 * a, 2 * b) == 0;
    XorUnfold(2 * a, 2 * b);
  }

  /** The low bit of an even operand has no say. */
  lemma {:induction false} XorEven(a: nat, b: nat)
    ensures Xor(a, 2 * b) == 2 * Xor(a / 2, b) + a % 2
  {
    assert (2 * b) / 2 == b && LowBit(a, 2 * b) == a % 2;
    XorUnfold(a, 2 * b);
  }

  /** Operands that occupy different bits are added. */
  lemma {:induction false} XorDisjoint(low: nat, high: nat, k: nat)
    requires low < Pow2(k)
    ensures Xor(low, Shl(high, k)) == low + Shl(high, k)
  {
    if k > 0 {
      var half := Shl(high, k - 1);
      XorDisjoint(low / 2, high, k - 1);
      XorEven(low, half);
      assert Shl(high, k) == 2 * half;
    }
  }

  /** The number of 1-bits. */
  function Ones(n: nat): nat {
    if n == 0 then 0 else n % 2 + Ones(n / 2)
  }

  /** Whether the number of 1-bits is odd. */
  predicate OddOnes(n: nat) {
    n != 0 && (n % 2 == 1) != OddOnes(n / 2)
  }

  lemma {:induction false} OddOnesCount(n: nat)
    ensures OddOnes(n) <==> Ones(n) % 2 == 1
  {
    if n != 0 {
      OddOnesCount(n / 2);
    }
  }

  lemma {:induction false} OddOnesUnfold(n: nat)
    ensures OddOnes(n) <==> (n % 2 == 1) != OddOnes(n / 2)
  {}

  lemma {:induction false} OddOnesXor(a: nat, b: nat)
    ensures OddOnes(Xor(a, b)) <==> OddOnes(a) != OddOnes(b)
    decreases a
  {
    if a != 0 {
      OddOnesXor(a / 2, b / 2);
      XorHalves(a, b);
      OddOnesUnfold(Xor(a, b));
      OddOnesUnfold(b);
    }
  }

  lemma {:induction false} OddOnesShift(n: nat, k: nat)
    ensures OddOnes(Shl(n, k)) == OddOnes(n)
  {
    if k > 0 {
      OddOnesShift(n, k - 1);
      OddOnesUnfold(Shl(n, k));
    }
  }

  function XorByte(a: byte, b: byte): byte {
    XorBound(a, b, 8);
    Xor(a, b)
  }

  /** Bytewise exclusive or. */
  function XorBytes(a: bytes, b: bytes): (c: bytes)
    requires |a| == |b|
    ensures |c| == |a|
  {
    seq(|a|, i requires 0 <= i < |a| => XorByte(a[i], b[i]))
  }

  lemma {:induction false} XorBytesCancel(a: bytes, b: bytes)
    requires |a| == |b|
    ensures XorBytes(XorBytes(a, b), b) == a
    ensures XorBytes(XorBytes(b, a), b) == a
  {
    forall i | 0 <= i < |a|
      ensures XorByte(XorByte(a[i], b[i]), b[i]) == a[i]
      ensures XorByte(XorByte(b[i], a[i]), b[i]) == a[i]
    {
      XorCancel(a[i], b[i]);
      XorComm(a[i], b[i]);
    }
  }

  /** The octets as one integer, the first octet the least significant. */
  function LittleEndian(data: bytes): nat {
    if data == [] then 0 else data[0] + 256 * LittleEndian(data[1..])
  }

  /** Appending high octets to a low one is an exclusive or. */
  lemma {:induction false} XorLowByte(low: byte, high: nat)
    ensures Xor(low, Shl(high, 8)) == low + 256 * high
  {
    assert Pow2(4) == 16;
    XorDisjoint(low, high, 8);
    ShlByte(high);
  }

  /** Exclusive or of integers is exclusive or of octets. */
  lemma {:induction false} LittleEndianXor(a: bytes, b: bytes)
    requires |a| == |b|
    ensures LittleEndian(XorBytes(a, b)) == Xor(LittleEndian(a), LittleEndian(b))
  {
    if a != [] {
      LittleEndianXor(a[1..], b[1..]);
      assert XorBytes(a, b)[1..] == XorBytes(a[1..], b[1..]);
      XorOfParts(a[0], b[0], LittleEndian(a[1..]), LittleEndian(b[1..]));
    }
  }

  lemma {:induction false} XorOfParts(a: byte, b: byte, p: nat, q: nat)
    ensures Xor(a + 256 * p, b + 256 * q) == XorByte(a, b) + 256 * Xor(p, q)
  {
    XorLowByte(a, p);
    XorLowByte(b, q);
    XorOfShifted(a, b, p, q, 8);
    XorLowByte(XorByte(a, b), Xor(p, q));
  }

  lemma {:induction false} XorOfShifted(a: nat, b: nat, p: nat, q: nat, k: nat)
    ensures Xor(Xor(a, Shl(p, k)), Xor(b, Shl(q, k))) == Xor(Xor(a, b), Shl(Xor(p, q), k))
  {
    XorShuffle(a, Shl(p, k), b, Shl(q, k));
    XorShift(p, q, k);
  }

  /** The number of 1-bits in an octet string. */
  function OnesIn(data: bytes): nat {
    if data == [] then 0 else Ones(data[0]) + OnesIn(data[1..])
  }

  lemma {:induction false} OddOnesLittleEndian(data: bytes)
    ensures OddOnes(LittleEndian(data)) <==> OnesIn(data) % 2 == 1
  {
    if data != [] {
      OddOnesLittleEndian(data[1..]);
      OddOnesOfParts(data[0], LittleEndian(data[1..]));
      OddOnesCount(data[0]);
      OddSum(Ones(data[0]), OnesIn(data[1..]));
    }
  }

  lemma {:induction false} OddSum(m: nat, n: nat)
    ensures (m + n) % 2 == 1 <==> (m % 2 == 1) != (n % 2 == 1)
  {}

  lemma {:induction false} OddOnesOfParts(low: byte, high: nat)
    ensures OddOnes(low + 256 * high) <==> OddOnes(low) != OddOnes(high)
  {
    XorLowByte(low, high);
    OddOnesXor(low, Shl(high, 8));
    OddOnesShift(high, 8);
  }
}
