/** Which checksum it is: the remainder of dividing the message, read as a polynomial over two elements, by the
    generator of CRC-16/MODBUS. The coefficients are those of integers, lowest first, in the reflected order of that
    checksum. */
module Division {
  import opened Bytes
  import opened Bits
  import opened Crc

  /** x^16 + x^15 + x^2 + 1, lowest coefficient first and one place up. */
  const GENERATOR: nat := 0x1_4003

  /** The product without carries. */
  function Clmul(a: nat, b: nat): nat {
    if a == 0 then 0 else Xor(if a % 2 == 1 then b else 0, 2 * Clmul(a / 2, b))
  }

  lemma {:induction false} ClmulUnfold(a: nat, b: nat)
    ensures Clmul(a, b) == Xor(if a % 2 == 1 then b else 0, 2 * Clmul(a / 2, b))
  {
    if a == 0 {
      assert Clmul(a / 2, b) == 0;
    }
  }

  lemma {:induction false} ClmulLow(quotient: nat, low: nat, b: nat)
    requires low < 2
    ensures Clmul(2 * quotient + low, b) == Xor(if low == 1 then b else 0, 2 * Clmul(quotient, b))
  {
    var a := 2 * quotient + low;
    assert a / 2 == quotient && a % 2 == low;
    ClmulUnfold(a, b);
  }

  /** Multiplication distributes over exclusive or. */
  lemma {:induction false} ClmulXor(a: nat, c: nat, b: nat)
    ensures Clmul(Xor(a, c), b) == Xor(Clmul(a, b), Clmul(c, b))
    decreases a + c
  {
    if a == 0 {
    } else if c == 0 {
      XorZero(a);
      XorZero(Clmul(a, b));
    } else {
      ClmulXor(a / 2, c / 2, b);
      XorHalves(a, c);
      ClmulUnfold(a, b);
      ClmulUnfold(c, b);
      ClmulUnfold(Xor(a, c), b);
      ClmulHalves(a % 2, c % 2, b, Clmul(a / 2, b), Clmul(c / 2, b));
    }
  }

  /** The lowest terms and the others, combined. */
  lemma {:induction false} ClmulHalves(i: nat, j: nat, b: nat, p: nat, q: nat)
    requires i < 2 && j < 2
    ensures Xor(Xor(if i == 1 then b else 0, 2 * p), Xor(if j == 1 then b else 0, 2 * q))
         == Xor(if i != j then b else 0, 2 * Xor(p, q))
  {
    var x, y := if i == 1 then b else 0, if j == 1 then b else 0;
    XorShuffle(x, 2 * p, y, 2 * q);
    XorDouble(p, q);
    XorSelf(b);
    XorZero(b);
  }

  // ----- the remainder -----

  /** One turn, seen from above: a multiple of the generator is added so that the lowest term vanishes. */
  lemma {:induction false} StepDivides(crc: nat)
    ensures 2 * Step(crc) == Xor(crc, if crc % 2 == 1 then GENERATOR else 0)
  {
    var half := crc / 2;
    XorZero(crc);
    if crc % 2 == 1 {
      XorDouble(half, 0xA001);
      XorOdd(half, 0xA001);
      assert 2 * half + 1 == crc;
    }
  }

  /** Two odd operands lose their lowest bit. */
  lemma {:induction false} XorOdd(p: nat, q: nat)
    ensures Xor(2 * p + 1, 2 * q + 1) == 2 * Xor(p, q)
  {
    assert (2 * p + 1) / 2 == p && (2 * q + 1) / 2 == q;
    assert LowBit(2 * p + 1, 2 * q + 1) == 0;
    XorUnfold(2 * p + 1, 2 * q + 1);
  }

  lemma {:induction false} TurnDivides(crc: nat, quotient: nat)
    ensures 2 * Xor(Step(crc), Clmul(quotient, GENERATOR)) == Xor(crc, Clmul(2 * quotient + crc % 2, GENERATOR))
  {
    StepDivides(crc);
    OneTurn(crc, Step(crc), quotient, GENERATOR);
  }

  lemma {:induction false} OneTurn(crc: nat, step: nat, quotient: nat, b: nat)
    requires 2 * step == Xor(crc, if crc % 2 == 1 then b else 0)
    ensures 2 * Xor(step, Clmul(quotient, b)) == Xor(crc, Clmul(2 * quotient + crc % 2, b))
  {
    var product := Clmul(quotient, b);
    XorDouble(step, product);
    XorAssoc(crc, if crc % 2 == 1 then b else 0, 2 * product);
    ClmulLow(quotient, crc % 2, b);
  }

  /** One term for each turn: whether a multiple was added. */
  function Quotient(crc: nat, n: nat): nat
    decreases n
  {
    if n == 0 then 0 else 2 * Quotient(Step(crc), n - 1) + crc % 2
  }

  lemma {:induction false} QuotientBound(crc: nat, n: nat)
    ensures Quotient(crc, n) < Pow2(n)
    decreases n
  {
    if n > 0 {
      QuotientBound(Step(crc), n - 1);
    }
  }

  lemma {:induction false} StepsDivide(crc: nat, n: nat)
    ensures Shl(Steps(crc, n), n) == Xor(crc, Clmul(Quotient(crc, n), GENERATOR))
    decreases n
  {
    if n == 0 {
      XorZero(crc);
    } else {
      StepsDivide(Step(crc), n - 1);
      TurnDivides(crc, Quotient(Step(crc), n - 1));
    }
  }

  // ----- only one remainder -----

  /** A multiple of an odd generator by less than 2^n is not divisible by 2^n, but for zero. */
  lemma {:induction false} MultipleOfOdd(quotient: nat, b: nat, high: nat, n: nat)
    requires b % 2 == 1 && quotient < Pow2(n) && Clmul(quotient, b) == Shl(high, n)
    ensures quotient == 0
    decreases n
  {
    if n > 0 {
      var rest := Clmul(quotient / 2, b);
      ClmulUnfold(quotient, b);
      LowTerm(quotient, b, rest);
      assert Clmul(quotient, b) == 2 * Shl(high, n - 1);
      assert quotient % 2 == 0;
      assert Xor(0, 2 * rest) == 2 * rest;
      MultipleOfOdd(quotient / 2, b, high, n - 1);
    }
  }

  lemma {:induction false} LowTerm(a: nat, b: nat, rest: nat)
    requires b % 2 == 1
    ensures Xor(if a % 2 == 1 then b else 0, 2 * rest) % 2 == a % 2
  {
    XorHalves(if a % 2 == 1 then b else 0, 2 * rest);
  }

  /** In the place after a message of n bits, a word differs from the message by a multiple of the generator. */
  ghost predicate Remainder(message: nat, n: nat, r: nat) {
    r < 0x1_0000 && exists q: nat :: q < Pow2(n) && Shl(r, n) == Xor(message, Clmul(q, GENERATOR))
  }

  lemma {:induction false} OneRemainder(message: nat, n: nat, r: nat, t: nat)
    requires Remainder(message, n, r) && Remainder(message, n, t)
    ensures r == t
  {
    var p: nat :| p < Pow2(n) && Shl(r, n) == Xor(message, Clmul(p, GENERATOR));
    var q: nat :| q < Pow2(n) && Shl(t, n) == Xor(message, Clmul(q, GENERATOR));
    Differences(message, Clmul(p, GENERATOR), Clmul(q, GENERATOR));
    ClmulXor(p, q, GENERATOR);
    XorShift(r, t, n);
    XorBound(p, q, n);
    MultipleOfOdd(Xor(p, q), GENERATOR, Xor(r, t), n);
    ShlIsZero(Xor(r, t), n);
    XorIsZero(r, t);
  }

  lemma {:induction false} Differences(m: nat, a: nat, b: nat)
    ensures Xor(Xor(m, a), Xor(m, b)) == Xor(a, b)
  {
    XorShuffle(m, a, m, b);
    XorSelf(m);
  }

  lemma {:induction false} ShlIsZero(a: nat, n: nat)
    requires Shl(a, n) == 0
    ensures a == 0
  {
    if n > 0 {
      ShlIsZero(a, n - 1);
    }
  }

  /** The checksum of every message is the remainder of dividing it, its first sixteen bits inverted, by the generator
      of CRC-16/MODBUS; and no other word is. */
  lemma {:induction false} CrcExactly(data: bytes, r: nat)
    ensures r == Crc.Crc(data) <==>
              && r < 0x1_0000
              && exists q: nat :: q < Pow2(8 * |data|) &&
                   Shl(r, 8 * |data|) == Xor(Xor(LittleEndian(data), 0xFFFF), Clmul(q, 0x1_4003))
  {
    var n, message, crc := 8 * |data|, Xor(LittleEndian(data), 0xFFFF), Crc.Crc(data);
    CrcIsDivision(data);
    XorComm(INITIAL, LittleEndian(data));
    CrcFromWord(INITIAL, data);
    StepsDivide(message, n);
    QuotientBound(message, n);
    assert Remainder(message, n, crc);
    if Remainder(message, n, r) {
      OneRemainder(message, n, r, crc);
    }
  }
}
