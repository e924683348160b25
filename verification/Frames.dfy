/** One frame: its header, its checksum and its trip through the cipher (protocol/frame.py). */
module Frames {
  import opened Bytes
  import opened Bits
  import opened Cbc
  import Crc

  const FRAME_HEADER_LENGTH := 12
  const CRC_LENGTH := 2
  const VECTOR_END := 1 + BLOCK_SIZE
  const MINIMUM_PAYLOAD_LENGTH := VECTOR_END + BLOCK_SIZE

  datatype Frame = Frame(sequenceNumber: nat, responseTo: nat, code: nat, data: bytes) {
    /** Whether `struct` can pack the header. */
    predicate InRange() {
      sequenceNumber < 0x1_0000_0000 && responseTo < 0x1_0000_0000 && code < 0x1_0000 && |data| < 0x1_0000
    }

    function Header(): (h: bytes)
      requires InRange()
      ensures |h| == FRAME_HEADER_LENGTH
    {
      PackU32(sequenceNumber) + PackU32(responseTo) + PackU16(code) + PackU16(|data|)
    }

    /** What the checksum covers. */
    function Body(): (b: bytes)
      requires InRange()
      ensures |b| == FRAME_HEADER_LENGTH + |data|
    {
      Header() + data
    }
  }

  function Zeros(n: nat): (z: bytes)
    ensures |z| == n
  {
    seq(n, i => 0)
  }

  function Padding(n: nat): (p: nat)
    ensures p < BLOCK_SIZE && (n + p) % BLOCK_SIZE == 0
  {
    (BLOCK_SIZE - n % BLOCK_SIZE) % BLOCK_SIZE
  }

  function Checksum(body: bytes): (b: bytes)
    ensures |b| == CRC_LENGTH
  {
    Crc.CrcFromWord(Crc.INITIAL, body);
    PackU16(Crc.Crc(body))
  }

  /** Zeros up to the next whole block. */
  function Padded(text: bytes): (p: bytes)
    ensures Aligned(p) && text <= p && |p| < |text| + BLOCK_SIZE
  {
    text + Zeros(Padding(|text|))
  }

  function Plaintext(frame: Frame): (p: bytes)
    requires frame.InRange()
    ensures Aligned(p)
  {
    Padded(frame.Body() + Checksum(frame.Body()))
  }

  function Encode(cipher: Cipher, frame: Frame, key: bytes, flag: nat, vector: bytes): Result<bytes>
    requires |vector| == BLOCK_SIZE
  {
    if frame.InRange() && flag < 256
    then Ok([flag] + vector + Encrypt(cipher, key, vector, Plaintext(frame)))
    else Err(StructError)
  }

  method EncodeFrame(cipher: Cipher, frame: Frame, key: bytes, flag: nat, vector: bytes)
    returns (r: Result<bytes>)
    requires |vector| == BLOCK_SIZE
    ensures r == Encode(cipher, frame, key, flag, vector)
  {
    if !frame.InRange() {
      return Err(StructError);
    }
    var plaintext := frame.Header();
    plaintext := plaintext + frame.data;
    var crc := Crc.Crc16(plaintext);
    plaintext := plaintext + PackU16(crc);
    plaintext := Padded(plaintext);
    if flag >= 256 {
      return Err(StructError);
    }
    return Ok([flag] + vector + Encrypt(cipher, key, vector, plaintext));
  }

  function SecurityFlagOf(payload: bytes): Result<byte> {
    if payload == [] then Err(EmptyPayload) else Ok(payload[0])
  }

  /** The checksum test, skipped when fewer than two octets follow the data. */
  predicate CrcAcceptable(plaintext: bytes, end: nat)
    requires end <= |plaintext|
  {
    |plaintext| < end + CRC_LENGTH ||
    UnpackU16(plaintext[end..end + CRC_LENGTH]) == Crc.Crc(plaintext[..end])
  }

  /** What is read once the payload is deciphered. */
  function Parse(plaintext: bytes): Result<Frame>
    requires |plaintext| >= FRAME_HEADER_LENGTH
  {
    var length := UnpackU16(plaintext[10..12]);
    var end := FRAME_HEADER_LENGTH + length;
    if |plaintext| < end then Err(DataTruncated)
    else if !CrcAcceptable(plaintext, end) then Err(CrcMismatch)
    else Ok(Frame(UnpackU32(plaintext[0..4]), UnpackU32(plaintext[4..8]), UnpackU16(plaintext[8..10]),
                  plaintext[FRAME_HEADER_LENGTH..end]))
  }

  function Decode(cipher: Cipher, payload: bytes, key: bytes): Result<Frame> {
    if |payload| < MINIMUM_PAYLOAD_LENGTH then Err(PayloadTooShort)
    else
      var ciphertext := payload[VECTOR_END..];
      if !Aligned(ciphertext) then Err(NotWholeBlocks)
      else Parse(Decrypt(cipher, key, payload[1..VECTOR_END], ciphertext))
  }

  /** A plaintext that carries a frame: its header, its data, then either fewer than two octets or its checksum. */
  ghost predicate Carries(plaintext: bytes, frame: Frame) {
    && frame.InRange()
    && frame.Body() <= plaintext
    && var rest := plaintext[|frame.Body()|..];
       |rest| < CRC_LENGTH || rest[..CRC_LENGTH] == Checksum(frame.Body())
  }

  /** Parsing accepts exactly the plaintexts that carry a frame, and reads that frame. */
  lemma {:induction false} ParseExact(plaintext: bytes, frame: Frame)
    requires |plaintext| >= FRAME_HEADER_LENGTH
    ensures Parse(plaintext) == Ok(frame) <==> Carries(plaintext, frame)
  {
    if Parse(plaintext) == Ok(frame) {
      ParseSound(plaintext);
    }
    if Carries(plaintext, frame) {
      ParseComplete(plaintext, frame);
    }
  }

  lemma {:induction false} ParseSound(plaintext: bytes)
    requires |plaintext| >= FRAME_HEADER_LENGTH && Parse(plaintext).Ok?
    ensures Carries(plaintext, Parse(plaintext).value)
  {
    var frame := Parse(plaintext).value;
    PackUnpackU32(plaintext[0..4]);
    PackUnpackU32(plaintext[4..8]);
    PackUnpackU16(plaintext[8..10]);
    PackUnpackU16(plaintext[10..12]);
    var end := FRAME_HEADER_LENGTH + |frame.data|;
    assert frame.Header() == plaintext[..12] by {
      assert plaintext[..12] == plaintext[0..4] + plaintext[4..8] + plaintext[8..10] + plaintext[10..12];
    }
    assert frame.Body() == plaintext[..end];
    if |plaintext| >= end + CRC_LENGTH {
      var declared := plaintext[end..end + CRC_LENGTH];
      PackUnpackU16(declared);
      assert plaintext[end..][..CRC_LENGTH] == declared;
    }
  }

  lemma {:induction false} ParseComplete(plaintext: bytes, frame: Frame)
    requires |plaintext| >= FRAME_HEADER_LENGTH && Carries(plaintext, frame)
    ensures Parse(plaintext) == Ok(frame)
  {
    var end := |frame.Body()|;
    HeaderFields(frame);
    assert plaintext[..end] == frame.Body();
    assert plaintext[0..4] == frame.Header()[0..4] && plaintext[4..8] == frame.Header()[4..8];
    assert plaintext[8..10] == frame.Header()[8..10] && plaintext[10..12] == frame.Header()[10..12];
    assert plaintext[FRAME_HEADER_LENGTH..end] == frame.data;
    if |plaintext| >= end + CRC_LENGTH {
      assert plaintext[end..end + CRC_LENGTH] == plaintext[end..][..CRC_LENGTH];
      Crc.CrcFromWord(Crc.INITIAL, frame.Body());
      U16RoundTrip(Crc.Crc(frame.Body()));
    }
  }

  lemma {:induction false} HeaderFields(frame: Frame)
    requires frame.InRange()
    ensures var h := frame.Header();
            && UnpackU32(h[0..4]) == frame.sequenceNumber && UnpackU32(h[4..8]) == frame.responseTo
            && UnpackU16(h[8..10]) == frame.code && UnpackU16(h[10..12]) == |frame.data|
  {
    var h := frame.Header();
    assert h[0..4] == PackU32(frame.sequenceNumber) && h[4..8] == PackU32(frame.responseTo);
    assert h[8..10] == PackU16(frame.code);
    assert h[10..12] == PackU16(|frame.data|) by {
      assert h[10] == PackU16(|frame.data|)[0] && h[11] == PackU16(|frame.data|)[1];
    }
    U32RoundTrip(frame.sequenceNumber);
    U32RoundTrip(frame.responseTo);
    U16RoundTrip(frame.code);
    U16RoundTrip(|frame.data|);
  }

  lemma {:induction false} PlaintextCarries(frame: Frame)
    requires frame.InRange()
    ensures Carries(Plaintext(frame), frame)
  {
    var body, check, p := frame.Body(), Checksum(frame.Body()), Plaintext(frame);
    assert body + check <= p;
    assert p[|body|..][..CRC_LENGTH] == check;
  }

  /** What an encoded frame looks like from outside. */
  lemma {:induction false} EncodedShape(cipher: Cipher, frame: Frame, key: bytes, flag: byte, vector: bytes)
    requires |vector| == BLOCK_SIZE && frame.InRange()
    ensures var payload := Encode(cipher, frame, key, flag, vector).value;
            && SecurityFlagOf(payload) == Ok(flag)
            && payload[1..VECTOR_END] == vector
            && payload[VECTOR_END..] == Encrypt(cipher, key, vector, Plaintext(frame))
            && MINIMUM_PAYLOAD_LENGTH <= |payload| <= VECTOR_END + |frame.data| + 29
  {
    var payload := Encode(cipher, frame, key, flag, vector).value;
    var ciphertext := Encrypt(cipher, key, vector, Plaintext(frame));
    PlaintextLength(frame);
    Framed(flag, vector, ciphertext);
    assert payload == [flag] + vector + ciphertext;
  }

  lemma {:induction false} PlaintextLength(frame: Frame)
    requires frame.InRange()
    ensures BLOCK_SIZE <= |Plaintext(frame)| < |frame.data| + 30
  {
    PaddedLength(frame.Body() + Checksum(frame.Body()));
  }

  lemma {:induction false} PaddedLength(text: bytes)
    requires text != []
    ensures BLOCK_SIZE <= |Padded(text)| < |text| + BLOCK_SIZE
  {
    assert |Padded(text)| > 0 && |Padded(text)| % BLOCK_SIZE == 0;
  }

  lemma {:induction false} Framed(flag: byte, vector: bytes, ciphertext: bytes)
    requires |vector| == BLOCK_SIZE
    ensures var payload := [flag] + vector + ciphertext;
            |payload| == VECTOR_END + |ciphertext| && payload[0] == flag
            && payload[1..VECTOR_END] == vector && payload[VECTOR_END..] == ciphertext
  {}

  /** Octet by octet: four of the number, four of the number quoted, two of the code, two of the length, the data, two
      of the checksum of all these, each field the most significant octet first, and zeros up to the next multiple of
      sixteen. */
  lemma {:induction false} PlaintextLayout(frame: Frame)
    requires frame.InRange()
    ensures var p, n, crc := Plaintext(frame), |frame.data|, Crc.Crc(Plaintext(frame)[..12 + |frame.data|]);
            && |p| % 16 == 0 && n + 14 <= |p| < n + 30
            && p[0..4] == Octets32(frame.sequenceNumber) && p[4..8] == Octets32(frame.responseTo)
            && p[8..10] == [frame.code / 0x100, frame.code % 0x100] && p[10..12] == [n / 0x100, n % 0x100]
            && p[12..12 + n] == frame.data
            && crc < 0x1_0000 && p[12 + n..14 + n] == [crc / 0x100, crc % 0x100]
            && forall i :: 14 + n <= i < |p| ==> p[i] == 0
  {
    var p, n, h := Plaintext(frame), |frame.data|, frame.Header();
    var checked := frame.Body() + Checksum(frame.Body());
    U32Octets(frame.sequenceNumber);
    U32Octets(frame.responseTo);
    HeaderParts(frame);
    PlaintextParts(frame);
    Crc.CrcFromWord(Crc.INITIAL, frame.Body());
  }

  function Octets32(n: nat): bytes
    requires n < 0x1_0000_0000
  {
    [n / 0x100_0000, n / 0x1_0000 % 0x100, n / 0x100 % 0x100, n % 0x100]
  }

  lemma {:induction false} HeaderParts(frame: Frame)
    requires frame.InRange()
    ensures var h := frame.Header();
            && h[0..4] == PackU32(frame.sequenceNumber) && h[4..8] == PackU32(frame.responseTo)
            && h[8..10] == PackU16(frame.code) && h[10..12] == PackU16(|frame.data|)
  {
    var h := frame.Header();
    assert h[10] == PackU16(|frame.data|)[0] && h[11] == PackU16(|frame.data|)[1];
  }

  lemma {:induction false} PlaintextParts(frame: Frame)
    requires frame.InRange()
    ensures var p, n := Plaintext(frame), |frame.data|;
            && n + 14 <= |p| < n + 30
            && p[..12] == frame.Header() && p[12..12 + n] == frame.data && p[..12 + n] == frame.Body()
            && p[12 + n..14 + n] == Checksum(frame.Body())
            && (forall i :: 14 + n <= i < |p| ==> p[i] == 0)
            && (forall i, j :: 0 <= i <= j <= 12 ==> p[i..j] == frame.Header()[i..j])
  {
    var p, n, h := Plaintext(frame), |frame.data|, frame.Header();
    var body, check := frame.Body(), Checksum(frame.Body());
    assert p == body + check + Zeros(Padding(|body + check|));
    assert p[..12] == h;
    forall i, j | 0 <= i <= j <= 12
      ensures p[i..j] == h[i..j]
    {
      assert p[..12][i..j] == p[i..j];
    }
  }

  /** Encoding succeeds exactly on the frames whose fields fit the header, and decoding gives the frame back. */
  lemma {:induction false} RoundTrip(cipher: Cipher, frame: Frame, key: bytes, flag: nat, vector: bytes)
    requires |vector| == BLOCK_SIZE
    ensures var r := Encode(cipher, frame, key, flag, vector);
            && (r.Ok? <==> && frame.sequenceNumber < 0x1_0000_0000 && frame.responseTo < 0x1_0000_0000
                           && frame.code < 0x1_0000 && |frame.data| < 0x1_0000 && flag < 0x100)
            && (r.Err? ==> r.error == StructError)
            && (r.Ok? ==>
                  && SecurityFlagOf(r.value) == Ok(flag)
                  && Decode(cipher, r.value, key) == Ok(frame)
                  && MINIMUM_PAYLOAD_LENGTH <= |r.value| <= VECTOR_END + |frame.data| + 29)
  {
    if frame.InRange() && flag < 256 {
      EncodedShape(cipher, frame, key, flag, vector);
      DecryptEncrypt(cipher, key, vector, Plaintext(frame));
      PlaintextCarries(frame);
      ParseComplete(Plaintext(frame), frame);
    }
  }

  /** Decoding accepts exactly the payloads of whole blocks whose deciphered text carries a frame. */
  lemma {:induction false} DecodeExact(cipher: Cipher, payload: bytes, key: bytes, frame: Frame)
    ensures Decode(cipher, payload, key) == Ok(frame) <==>
            && |payload| >= MINIMUM_PAYLOAD_LENGTH && Aligned(payload[VECTOR_END..])
            && Carries(Decrypt(cipher, key, payload[1..VECTOR_END], payload[VECTOR_END..]), frame)
  {
    if |payload| >= MINIMUM_PAYLOAD_LENGTH && Aligned(payload[VECTOR_END..]) {
      ParseExact(Decrypt(cipher, key, payload[1..VECTOR_END], payload[VECTOR_END..]), frame);
    }
  }

  /** Two plaintexts of one length, alike outside the body and in the length field; the first carries a frame
      with its checksum present. */
  ghost predicate Altered(sent: bytes, received: bytes, frame: Frame) {
    && |sent| == |received| && Carries(sent, frame)
    && var end := |frame.Body()|;
       && end + CRC_LENGTH <= |sent|
       && sent[end..] == received[end..]
       && sent[10..12] == received[10..12]
  }

  lemma {:induction false} AlterationRejected(sent: bytes, received: bytes, frame: Frame)
    requires Altered(sent, received, frame)
    requires Crc.Crc(sent[..|frame.Body()|]) != Crc.Crc(received[..|frame.Body()|])
    ensures Parse(received) == Err(CrcMismatch)
  {
    var end := |frame.Body()|;
    ParseComplete(sent, frame);
    assert sent[10..12] == sent[..end][10..12];
    HeaderFields(frame);
    assert sent[..end] == frame.Body();
    assert frame.Body()[10..12] == frame.Header()[10..12];
    assert sent[end..end + CRC_LENGTH] == sent[end..][..CRC_LENGTH];
    assert received[end..end + CRC_LENGTH] == received[end..][..CRC_LENGTH];
    Crc.CrcFromWord(Crc.INITIAL, frame.Body());
    U16RoundTrip(Crc.Crc(frame.Body()));
  }

  lemma {:induction false} EqualParts(a: bytes, b: bytes, n: nat)
    requires |a| == |b| && n <= |a|
    ensures a == b <==> a[..n] == b[..n] && a[n..] == b[n..]
  {
    assert a == a[..n] + a[n..] && b == b[..n] + b[n..];
  }

  /** Damage to header or data inside sixteen consecutive bits is always rejected. */
  lemma {:induction false} BurstRejected(sent: bytes, received: bytes, frame: Frame, i: nat, k: nat)
    requires Altered(sent, received, frame)
    requires Crc.DifferInBurst(sent[..|frame.Body()|], received[..|frame.Body()|], i, k)
    ensures Parse(received) == if received == sent then Ok(frame) else Err(CrcMismatch)
  {
    var end := |frame.Body()|;
    if received == sent {
      ParseComplete(sent, frame);
    } else {
      EqualParts(sent, received, end);
      Crc.BurstOctetsDetected(sent[..end], received[..end], i, k);
      AlterationRejected(sent, received, frame);
    }
  }

  /** Damage to header or data that flips an odd number of bits is always rejected. */
  lemma {:induction false} OddFlipsRejected(sent: bytes, received: bytes, frame: Frame)
    requires Altered(sent, received, frame)
    requires OnesIn(XorBytes(sent[..|frame.Body()|], received[..|frame.Body()|])) % 2 == 1
    ensures Parse(received) == Err(CrcMismatch)
  {
    Crc.OddFlipsDetected(sent[..|frame.Body()|], received[..|frame.Body()|]);
    AlterationRejected(sent, received, frame);
  }

  /** On the wire: a payload whose initialization vector was damaged inside sixteen consecutive bits of its first ten
      octets is rejected, whatever the key and the frame. */
  lemma {:induction false} VectorDamageRejected(
      cipher: Cipher, frame: Frame, key: bytes, flag: byte, vector: bytes, damaged: bytes, i: nat, k: nat)
    requires |vector| == |damaged| == BLOCK_SIZE && frame.InRange() && damaged != vector
    requires vector[10..] == damaged[10..] && Crc.DifferInBurst(vector[..10], damaged[..10], i, k)
    ensures var payload := Encode(cipher, frame, key, flag, vector).value;
            Decode(cipher, payload[..1] + damaged + payload[VECTOR_END..], key) == Err(CrcMismatch)
  {
    var payload := Encode(cipher, frame, key, flag, vector).value;
    var ciphertext := Encrypt(cipher, key, vector, Plaintext(frame));
    assert payload[VECTOR_END..] == ciphertext;
    var arrived := payload[..1] + damaged + ciphertext;
    assert arrived[1..VECTOR_END] == damaged && arrived[VECTOR_END..] == ciphertext;
    DecryptEncrypt(cipher, key, vector, Plaintext(frame));
    VectorDamage(cipher, key, vector, damaged, ciphertext);
    var p, q := Plaintext(frame), Decrypt(cipher, key, damaged, ciphertext);
    DamageCopied(p, q, vector, damaged, i, k);
    PlaintextCarries(frame);
    AlteredFirstBlock(p, q, frame, i, k);
    BurstRejected(p, q, frame, i, k);
  }

  /** The damage shows in the plaintext at the same places as in the vector. */
  lemma {:induction false} DamageCopied(p: bytes, q: bytes, vector: bytes, damaged: bytes, i: nat, k: nat)
    requires |p| == |q| && BLOCK_SIZE <= |p| && |vector| == |damaged| == BLOCK_SIZE && damaged != vector
    requires vector[10..] == damaged[10..] && Crc.DifferInBurst(vector[..10], damaged[..10], i, k)
    requires XorBytes(p[..BLOCK_SIZE], q[..BLOCK_SIZE]) == XorBytes(vector, damaged)
    ensures p != q && i < 10
    ensures forall j :: 0 <= j < BLOCK_SIZE && !(i <= j < i + 3 && j < 10) ==> p[j] == q[j]
    ensures Crc.SameLow(p[i], q[i], k)
    ensures i + 2 < 10 ==> Crc.Shr(p[i + 2], k) == Crc.Shr(q[i + 2], k)
  {
    forall j | 0 <= j < BLOCK_SIZE
      ensures Xor(p[j], q[j]) == Xor(vector[j], damaged[j])
    {
      assert XorBytes(p[..BLOCK_SIZE], q[..BLOCK_SIZE])[j] == XorBytes(vector, damaged)[j];
    }
    forall j | 0 <= j < BLOCK_SIZE
      ensures p[j] == q[j] <==> vector[j] == damaged[j]
    {
      XorIsZero(p[j], q[j]);
      XorIsZero(vector[j], damaged[j]);
    }
    forall j | 0 <= j < BLOCK_SIZE && !(i <= j < i + 3 && j < 10)
      ensures vector[j] == damaged[j]
    {
      if j < 10 {
        assert vector[..10][j] == damaged[..10][j];
      } else {
        assert vector[10..][j - 10] == damaged[10..][j - 10];
      }
    }
    Crc.SameLowXor(vector[i], damaged[i], k);
    Crc.XorSameLow(p[i], q[i], k);
    if i + 2 < 10 {
      Crc.ShrXor(vector[i + 2], damaged[i + 2], k);
      Crc.ShrXor(p[i + 2], q[i + 2], k);
      XorIsZero(Crc.Shr(vector[i + 2], k), Crc.Shr(damaged[i + 2], k));
      XorIsZero(Crc.Shr(p[i + 2], k), Crc.Shr(q[i + 2], k));
    }
  }

  lemma {:induction false} AlteredFirstBlock(p: bytes, q: bytes, frame: Frame, i: nat, k: nat)
    requires frame.InRange() && p == Plaintext(frame) && |q| == |p| && i < 10 && k < 8
    requires q[BLOCK_SIZE..] == p[BLOCK_SIZE..]
    requires forall j :: 0 <= j < BLOCK_SIZE && !(i <= j < i + 3 && j < 10) ==> p[j] == q[j]
    requires Crc.SameLow(p[i], q[i], k)
    requires i + 2 < 10 ==> Crc.Shr(p[i + 2], k) == Crc.Shr(q[i + 2], k)
    ensures Altered(p, q, frame)
    ensures Crc.DifferInBurst(p[..|frame.Body()|], q[..|frame.Body()|], i, k)
  {
    var end := |frame.Body()|;
    PlaintextCarries(frame);
    forall j | 0 <= j < |p| && !(i <= j < i + 3 && j < 10)
      ensures p[j] == q[j]
    {
      if j >= BLOCK_SIZE {
        assert p[j] == p[BLOCK_SIZE..][j - BLOCK_SIZE] == q[BLOCK_SIZE..][j - BLOCK_SIZE];
      }
    }
    assert end + CRC_LENGTH <= |p|;
    assert p[end..] == q[end..];
    assert p[10..12] == q[10..12];
  }
}
