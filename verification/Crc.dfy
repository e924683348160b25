/** CRC-16/MODBUS as crypto.py computes it, and what it detects. */
module Crc {
  import opened Bytes
  import opened Bits

  const INITIAL: nat := 0xFFFF
  const POLYNOMIAL: nat := 0xA001

  /** One turn of the inner loop. */
  function Step(crc: nat): nat {
    if crc % 2 == 1 then Xor(crc / 2, POLYNOMIAL) else crc / 2
  }

  function Steps(crc: nat, n: nat): nat
    decreases n, crc
  {
    if n == 0 then crc else Steps(Step(crc), n - 1)
  }

  /** The register after octet by octet processing. */
  function CrcFrom(crc: nat, data: bytes): nat
    decreases |data|
  {
    if data == [] then crc else CrcFrom(Steps(Xor(crc, data[0]), 8), data[1..])
  }

  function Crc(data: bytes): nat {
    CrcFrom(INITIAL, data)
  }

  method Crc16(data: bytes) returns (crc: nat)
    ensures crc == Crc(data) && crc < 0x1_0000
  {
    crc := INITIAL;
    for i := 0 to |data|
      invariant CrcFrom(crc, data[i..]) == Crc(data)
      invariant crc < 0x1_0000
    {
      ghost var before := crc;
      crc := Xor(crc, data[i]);
      WordXor(before, data[i]);
      ghost var target := Steps(crc, 8);
      for turn := 0 to 8
        invariant Steps(crc, 8 - turn) == target
        invariant crc < 0x1_0000
      {
        StepWord(crc);
        ghost var stepped := Step(crc);
        assert Steps(stepped, 8 - turn - 1) == target;
        var carry := crc % 2;
        crc := crc / 2;
        if carry != 0 {
          crc := Xor(crc, POLYNOMIAL);
        }
        assert crc == stepped;
      }
      assert data[i..][1..] == data[i + 1..];
    }
  }

  lemma {:induction false} WordSize()
    ensures Pow2(16) == 0x1_0000
  {
    assert Pow2(4) == 16 && Pow2(8) == 16 * Pow2(4) && Pow2(12) == 16 * Pow2(8);
  }

  lemma {:induction false} WordXor(a: nat, b: nat)
    requires a < 0x1_0000 && b < 0x1_0000
    ensures Xor(a, b) < 0x1_0000
  {
    WordSize();
    XorBound(a, b, 16);
  }

  /** The register stays a word, and no nonzero word is ever shifted to zero. */
  lemma {:induction false} StepWord(crc: nat)
    requires crc < 0x1_0000
    ensures Step(crc) < 0x1_0000
    ensures Step(crc) == 0 ==> crc == 0
  {
    WordXor(crc / 2, POLYNOMIAL);
    XorIsZero(crc / 2, POLYNOMIAL);
  }

  lemma {:induction false} StepsWord(crc: nat, n: nat)
    requires crc < 0x1_0000
    ensures Steps(crc, n) < 0x1_0000
    ensures Steps(crc, n) == 0 <==> crc == 0
    decreases n
  {
    if n > 0 {
      StepWord(crc);
      StepsWord(Step(crc), n - 1);
    }
  }

  lemma {:induction false} CrcFromWord(crc: nat, data: bytes)
    requires crc < 0x1_0000
    ensures CrcFrom(crc, data) < 0x1_0000
    decreases |data|
  {
    if data != [] {
      WordXor(crc, data[0]);
      StepsWord(Xor(crc, data[0]), 8);
      CrcFromWord(Steps(Xor(crc, data[0]), 8), data[1..]);
    }
  }

  /** The shift step is linear over exclusive or. */
  lemma {:induction false} StepLinear(a: nat, b: nat)
    ensures Step(Xor(a, b)) == Xor(Step(a), Step(b))
  {
    XorHalves(a, b);
    var p, q := a / 2, b / 2;
    XorAssoc(p, q, POLYNOMIAL);
    XorAssoc(p, POLYNOMIAL, q);
    XorComm(q, POLYNOMIAL);
    XorShuffle(p, POLYNOMIAL, q, POLYNOMIAL);
    XorSelf(POLYNOMIAL);
    XorZero(Xor(p, q));
  }

  lemma {:induction false} StepsLinear(a: nat, b: nat, n: nat)
    ensures Steps(Xor(a, b), n) == Xor(Steps(a, n), Steps(b, n))
    decreases n
  {
    if n > 0 {
      StepLinear(a, b);
      StepsLinear(Step(a), Step(b), n - 1);
    }
  }

  lemma {:induction false} StepsAdd(crc: nat, m: nat, n: nat)
    ensures Steps(crc, m + n) == Steps(Steps(crc, m), n)
    decreases m
  {
    if m > 0 {
      StepsAdd(Step(crc), m - 1, n);
    }
  }

  /** Trailing zero bits are shifted out unharmed. */
  lemma {:induction false} StepsShift(high: nat, n: nat)
    ensures Steps(Shl(high, n), n) == high
  {
    if n > 0 {
      StepsShift(high, n - 1);
      assert Step(Shl(high, n)) == Shl(high, n - 1);
    }
  }

  /** Bits that enter n turns later may be merged in n places higher now. */
  lemma {:induction false} StepsMerge(crc: nat, high: nat, n: nat, m: nat)
    ensures Steps(Xor(crc, Shl(high, n)), n + m) == Steps(Xor(Steps(crc, n), high), m)
  {
    StepsAdd(Xor(crc, Shl(high, n)), n, m);
    StepsLinear(crc, Shl(high, n), n);
    StepsShift(high, n);
  }

  /** The low octet and the higher ones enter side by side. */
  lemma {:induction false} OctetsMerge(crc: nat, data: bytes)
    requires data != []
    ensures Xor(crc, LittleEndian(data)) == Xor(Xor(crc, data[0]), Shl(LittleEndian(data[1..]), 8))
  {
    var low, high := data[0], LittleEndian(data[1..]);
    XorAssoc(crc, low, Shl(high, 8));
    XorLowByte(low, high);
    assert LittleEndian(data) == low + 256 * high;
  }

  /** The octet loop is one polynomial division of the whole message, read as a single integer. */
  lemma {:induction false} CrcFromIsDivision(crc: nat, data: bytes)
    ensures CrcFrom(crc, data) == Steps(Xor(crc, LittleEndian(data)), 8 * |data|)
    decreases |data|
  {
    if data == [] {
      XorZero(crc);
    } else {
      var low, high := data[0], LittleEndian(data[1..]);
      var next := Steps(Xor(crc, low), 8);
      CrcFromIsDivision(next, data[1..]);
      StepsMerge(Xor(crc, low), high, 8, 8 * |data[1..]|);
      OctetsMerge(crc, data);
    }
  }

  lemma {:induction false} CrcIsDivision(data: bytes)
    ensures Crc(data) == Steps(Xor(INITIAL, LittleEndian(data)), 8 * |data|)
  {
    CrcFromIsDivision(INITIAL, data);
  }

  /** The difference of two checksums depends on the difference of the messages alone. */
  lemma {:induction false} CrcDifference(a: bytes, b: bytes)
    requires |a| == |b|
    ensures Xor(Crc(a), Crc(b)) == Steps(LittleEndian(XorBytes(a, b)), 8 * |a|)
  {
    var n, p, q := 8 * |a|, LittleEndian(a), LittleEndian(b);
    CrcIsDivision(a);
    CrcIsDivision(b);
    StepsLinear(Xor(INITIAL, p), Xor(INITIAL, q), n);
    XorShuffle(INITIAL, p, INITIAL, q);
    XorSelf(INITIAL);
    LittleEndianXor(a, b);
  }

  /** The checksum is affine: it commutes with the exclusive or of three messages. */
  lemma {:induction false} CrcAffine(a: bytes, b: bytes, c: bytes)
    requires |a| == |b| == |c|
    ensures Crc(XorBytes(XorBytes(a, b), c)) == Xor(Xor(Crc(a), Crc(b)), Crc(c))
  {
    var ab := XorBytes(a, b);
    var abc := XorBytes(ab, c);
    CrcDifference(a, b);
    CrcDifference(abc, c);
    XorBytesCancel(ab, c);
    XorCancel(Crc(abc), Crc(c));
  }

  /** Which alterations go unnoticed: exactly those whose difference the generator divides. */
  lemma {:induction false} Undetected(a: bytes, b: bytes)
    requires |a| == |b|
    ensures Crc(a) == Crc(b) <==> Steps(LittleEndian(XorBytes(a, b)), 8 * |a|) == 0
  {
    CrcDifference(a, b);
    XorIsZero(Crc(a), Crc(b));
  }

  lemma {:induction false} BurstSurvives(burst: nat, offset: nat, n: nat)
    requires 0 < burst < 0x1_0000
    ensures Steps(Shl(burst, offset), n) != 0
  {
    if offset <= n {
      StepsAdd(Shl(burst, offset), offset, n - offset);
      StepsShift(burst, offset);
      StepsWord(burst, n - offset);
    } else {
      ShlAdd(burst, offset - n, n);
      StepsShift(Shl(burst, offset - n), n);
      ShlPositive(burst, offset - n);
    }
  }

  /** Any nonzero difference confined to sixteen consecutive bits changes the checksum. */
  lemma {:induction false} BurstDetected(a: bytes, b: bytes, burst: nat, offset: nat)
    requires |a| == |b|
    requires LittleEndian(XorBytes(a, b)) == Shl(burst, offset) && 0 < burst < 0x1_0000
    ensures Crc(a) != Crc(b)
  {
    Undetected(a, b);
    BurstSurvives(burst, offset, 8 * |a|);
  }

  lemma {:induction false} ShlAdd(n: nat, j: nat, k: nat)
    ensures Shl(n, j + k) == Shl(Shl(n, j), k)
    decreases k
  {
    if k > 0 {
      ShlAdd(n, j, k - 1);
    }
  }

  lemma {:induction false} ShlPositive(n: nat, k: nat)
    requires n > 0
    ensures Shl(n, k) > 0
  {
    if k > 0 {
      ShlPositive(n, k - 1);
    }
  }

  /** n >> k. */
  function Shr(n: nat, k: nat): nat {
    if k == 0 then n else Shr(n / 2, k - 1)
  }

  /** Whether the k lowest bits agree. */
  predicate SameLow(a: nat, b: nat, k: nat) {
    k == 0 || (a % 2 == b % 2 && SameLow(a / 2, b / 2, k - 1))
  }

  /** The messages differ at most in sixteen consecutive bits, the first of them bit k of octet i
      (bits counted from the least significant, the order in which the checksum takes them). */
  ghost predicate DifferInBurst(a: bytes, b: bytes, i: nat, k: nat) {
    && |a| == |b| && k < 8 && i < |a|
    && (forall j :: 0 <= j < |a| && !(i <= j < i + 3) ==> a[j] == b[j])
    && SameLow(a[i], b[i], k)
    && (i + 2 < |a| ==> Shr(a[i + 2], k) == Shr(b[i + 2], k))
  }

  /** Every alteration inside sixteen consecutive bits is noticed; with k == 0, every alteration of one
      octet or of two adjacent octets. */
  lemma {:induction false} BurstOctetsDetected(a: bytes, b: bytes, i: nat, k: nat)
    requires DifferInBurst(a, b, i, k)
    ensures Crc(a) == Crc(b) <==> a == b
  {
    if a != b {
      var d := XorBytes(a, b);
      forall j | 0 <= j < |d| && !(i <= j < i + 3)
        ensures d[j] == 0
      {
        XorSelf(a[j]);
      }
      LittleEndianWindow(d, i);
      var w := Window(d, i);
      BurstAligned(a, b, i, k);
      var burst := Shr(w, k);
      ShlAdd(burst, k, 8 * i);
      if burst == 0 {
        assert LittleEndian(d) == 0 by { ShlZero(k + 8 * i); }
        LittleEndianXor(a, b);
        XorIsZero(LittleEndian(a), LittleEndian(b));
        LittleEndianInjective(a, b);
        assert false;
      }
      BurstDetected(a, b, burst, k + 8 * i);
    }
  }

  function Octet(d: bytes, i: nat): byte {
    if i < |d| then d[i] else 0
  }

  /** Three octets from i on, as one integer. */
  function Window(d: bytes, i: nat): nat {
    Octet(d, i) + 256 * Octet(d, i + 1) as nat + 65536 * Octet(d, i + 2) as nat
  }

  lemma {:induction false} ShlZero(k: nat)
    ensures Shl(0, k) == 0
  {
    if k > 0 {
      ShlZero(k - 1);
    }
  }

  lemma {:induction false} LittleEndianZeros(d: bytes)
    requires forall j :: 0 <= j < |d| ==> d[j] == 0
    ensures LittleEndian(d) == 0
  {
    if d != [] {
      LittleEndianZeros(d[1..]);
    }
  }

  lemma {:induction false} LittleEndianInjective(a: bytes, b: bytes)
    requires |a| == |b| && LittleEndian(a) == LittleEndian(b)
    ensures a == b
  {
    if a != [] {
      LittleEndianInjective(a[1..], b[1..]);
      assert a == [a[0]] + a[1..] && b == [b[0]] + b[1..];
    }
  }

  lemma {:induction false} LittleEndianWindow(d: bytes, i: nat)
    requires forall j :: 0 <= j < |d| && !(i <= j < i + 3) ==> d[j] == 0
    requires i < |d|
    ensures LittleEndian(d) == Shl(Window(d, i), 8 * i)
    decreases i
  {
    if i > 0 {
      var rest := d[1..];
      forall j | 0 <= j < |rest| && !(i - 1 <= j < i + 2)
        ensures rest[j] == 0
      {
        assert rest[j] == d[j + 1];
      }
      LittleEndianWindow(rest, i - 1);
      assert Window(d, i) == Window(rest, i - 1);
      ShlAdd(Window(d, i), 8 * (i - 1), 8);
      ShlByte(Shl(Window(d, i), 8 * (i - 1)));
    } else {
      LittleEndianHead(d);
    }
  }

  lemma {:induction false} LittleEndianHead(d: bytes)
    requires forall j :: 3 <= j < |d| ==> d[j] == 0
    ensures LittleEndian(d) == Window(d, 0)
  {
    if |d| > 0 {
      var one := d[1..];
      if |d| > 1 {
        var two := one[1..];
        assert two == d[2..];
        assert LittleEndian(d) == d[0] + 256 * LittleEndian(one);
        assert LittleEndian(one) == d[1] + 256 * LittleEndian(two);
        if |d| > 2 {
          assert two[1..] == d[3..] && two[0] == d[2];
          LittleEndianZeros(d[3..]);
        }
      }
    }
  }

  /** The window of the difference is a word shifted left by k. */
  lemma {:induction false} BurstAligned(a: bytes, b: bytes, i: nat, k: nat)
    requires DifferInBurst(a, b, i, k)
    ensures var w := Window(XorBytes(a, b), i);
            w == Shl(Shr(w, k), k) && Shr(w, k) < 0x1_0000
  {
    var d := XorBytes(a, b);
    var w := Window(d, i);
    SameLowXor(a[i], b[i], k);
    var high := Octet(d, i + 1) as nat + 256 * Octet(d, i + 2) as nat;
    SameLowAdd(d[i], high, 8, k);
    ShlByte(high);
    ShrShl(w, k);
    if i + 2 < |a| {
      ShrXor(a[i + 2], b[i + 2], k);
      XorSelf(Shr(a[i + 2], k));
    } else {
      ShrOfZero(k);
    }
    ShrWindow(Octet(d, i) + 256 * Octet(d, i + 1) as nat, Octet(d, i + 2), k);
  }

  lemma {:induction false} ShrOfZero(k: nat)
    ensures Shr(0, k) == 0
  {
    if k > 0 {
      ShrOfZero(k - 1);
    }
  }

  lemma {:induction false} SameLowXor(a: nat, b: nat, k: nat)
    requires SameLow(a, b, k)
    ensures SameLow(Xor(a, b), 0, k)
  {
    if k > 0 {
      XorHalves(a, b);
      SameLowXor(a / 2, b / 2, k - 1);
    }
  }

  lemma {:induction false} XorSameLow(a: nat, b: nat, k: nat)
    requires SameLow(Xor(a, b), 0, k)
    ensures SameLow(a, b, k)
  {
    if k > 0 {
      XorHalves(a, b);
      XorSameLow(a / 2, b / 2, k - 1);
    }
  }

  lemma {:induction false} SameLowAdd(low: nat, high: nat, j: nat, k: nat)
    requires SameLow(low, 0, k) && k <= j
    ensures SameLow(low + Shl(high, j), 0, k)
  {
    if k > 0 {
      SameLowAdd(low / 2, high, j - 1, k - 1);
      assert (low + Shl(high, j)) / 2 == low / 2 + Shl(high, j - 1);
    }
  }

  lemma {:induction false} ShrShl(n: nat, k: nat)
    requires SameLow(n, 0, k)
    ensures n == Shl(Shr(n, k), k)
  {
    if k > 0 {
      ShrShl(n / 2, k - 1);
    }
  }

  lemma {:induction false} ShrXor(a: nat, b: nat, k: nat)
    ensures Shr(Xor(a, b), k) == Xor(Shr(a, k), Shr(b, k))
  {
    if k > 0 {
      XorHalves(a, b);
      ShrXor(a / 2, b / 2, k - 1);
    }
  }

  /** A third octet with nothing above bit k leaves the shifted window a word. */
  lemma {:induction false} ShrWindow(low: nat, high: nat, k: nat)
    requires low < 0x1_0000 && Shr(high, k) == 0
    ensures Shr(low + 65536 * high, k) < 0x1_0000
    decreases k
  {
    if k > 0 {
      var half := low / 2 + 32768 * (high % 2);
      ShrWindow(half, high / 2, k - 1);
      assert (low + 65536 * high) / 2 == half + 65536 * (high / 2);
    }
  }

  lemma {:induction false} MaskParity(k: nat)
    ensures OddOnes(Pow2(k) - 1) <==> k % 2 == 1
  {
    if k > 0 {
      MaskParity(k - 1);
      OddOnesUnfold(Pow2(k) - 1);
      assert (Pow2(k) - 1) / 2 == Pow2(k - 1) - 1;
    }
  }

  lemma {:induction false} ConstantParity()
    ensures OddOnes(POLYNOMIAL) && !OddOnes(INITIAL)
  {
    WordSize();
    MaskParity(16);
    // POLYNOMIAL == 2 * (0x5 << 12) + 1
    OddOnesUnfold(POLYNOMIAL);
    assert Shl(5, 12) == 0x5000 by { ShlByte(5); ShlAdd(5, 8, 4); assert Shl(0x500, 2) == 0x1400; }
    OddOnesShift(5, 12);
    assert !OddOnes(5) by { OddOnesUnfold(5); OddOnesUnfold(2); }
  }

  /** A shift that drops a 1-bit brings an odd number back, so the parity of the register never changes. */
  lemma {:induction false} StepParity(crc: nat)
    ensures OddOnes(Step(crc)) == OddOnes(crc)
  {
    ConstantParity();
    OddOnesXor(crc / 2, POLYNOMIAL);
    OddOnesUnfold(crc);
  }

  lemma {:induction false} StepsParity(crc: nat, n: nat)
    ensures OddOnes(Steps(crc, n)) == OddOnes(crc)
    decreases n
  {
    if n > 0 {
      StepParity(crc);
      StepsParity(Step(crc), n - 1);
    }
  }

  /** The parity of the checksum is the parity of the message, at every length. */
  lemma {:induction false} CrcParity(data: bytes)
    ensures Ones(Crc(data)) % 2 == OnesIn(data) % 2
  {
    CrcIsDivision(data);
    StepsParity(Xor(INITIAL, LittleEndian(data)), 8 * |data|);
    OddOnesXor(INITIAL, LittleEndian(data));
    ConstantParity();
    OddOnesLittleEndian(data);
    OddOnesCount(Crc(data));
  }

  /** Any odd number of flipped bits, however spread, changes the checksum. */
  lemma {:induction false} OddFlipsDetected(a: bytes, b: bytes)
    requires |a| == |b| && OnesIn(XorBytes(a, b)) % 2 == 1
    ensures Crc(a) != Crc(b)
  {
    CrcParity(a);
    CrcParity(b);
    OddOnesLittleEndian(a);
    OddOnesLittleEndian(b);
    OddOnesLittleEndian(XorBytes(a, b));
    LittleEndianXor(a, b);
    OddOnesXor(LittleEndian(a), LittleEndian(b));
  }
}
