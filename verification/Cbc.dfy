/** Cipher block chaining (section 6.2 of NIST SP 800-38A) over an abstract invertible block function. */
module Cbc {
  import opened Bytes
  import opened Bits

  const BLOCK_SIZE := 16

  /** The block function and its inverse; the first argument is the key. */
  datatype BlockFunction = BlockFunction(forward: (bytes, bytes) -> bytes, backward: (bytes, bytes) -> bytes) {
    ghost predicate Invertible() {
      forall key: bytes, block: bytes | |block| == BLOCK_SIZE ::
        && |forward(key, block)| == BLOCK_SIZE && backward(key, forward(key, block)) == block
        && |backward(key, block)| == BLOCK_SIZE && forward(key, backward(key, block)) == block
    }
  }

  type Cipher = f: BlockFunction | f.Invertible()
    witness BlockFunction((key, block) => block, (key, block) => block)

  predicate Aligned(data: bytes) {
    |data| % BLOCK_SIZE == 0
  }

  function Encrypt(cipher: Cipher, key: bytes, vector: bytes, data: bytes): (encrypted: bytes)
    requires |vector| == BLOCK_SIZE && Aligned(data)
    ensures |encrypted| == |data|
    decreases |data|
  {
    if data == [] then []
    else
      var block := cipher.forward(key, XorBytes(data[..BLOCK_SIZE], vector));
      block + Encrypt(cipher, key, block, data[BLOCK_SIZE..])
  }

  function Decrypt(cipher: Cipher, key: bytes, vector: bytes, data: bytes): (plain: bytes)
    requires |vector| == BLOCK_SIZE && Aligned(data)
    ensures |plain| == |data|
    decreases |data|
  {
    if data == [] then []
    else
      var block := data[..BLOCK_SIZE];
      XorBytes(cipher.backward(key, block), vector) + Decrypt(cipher, key, block, data[BLOCK_SIZE..])
  }

  lemma {:induction false} DecryptEncrypt(cipher: Cipher, key: bytes, vector: bytes, data: bytes)
    requires |vector| == BLOCK_SIZE && Aligned(data)
    ensures Decrypt(cipher, key, vector, Encrypt(cipher, key, vector, data)) == data
    decreases |data|
  {
    if data != [] {
      var mixed := XorBytes(data[..BLOCK_SIZE], vector);
      var block := cipher.forward(key, mixed);
      var rest := Encrypt(cipher, key, block, data[BLOCK_SIZE..]);
      DecryptEncrypt(cipher, key, block, data[BLOCK_SIZE..]);
      assert (block + rest)[..BLOCK_SIZE] == block && (block + rest)[BLOCK_SIZE..] == rest;
      XorBytesCancel(data[..BLOCK_SIZE], vector);
      assert data == data[..BLOCK_SIZE] + data[BLOCK_SIZE..];
    }
  }

  lemma {:induction false} EncryptDecrypt(cipher: Cipher, key: bytes, vector: bytes, data: bytes)
    requires |vector| == BLOCK_SIZE && Aligned(data)
    ensures Encrypt(cipher, key, vector, Decrypt(cipher, key, vector, data)) == data
    decreases |data|
  {
    if data != [] {
      var block := data[..BLOCK_SIZE];
      var mixed := cipher.backward(key, block);
      var rest := Decrypt(cipher, key, block, data[BLOCK_SIZE..]);
      EncryptDecrypt(cipher, key, block, data[BLOCK_SIZE..]);
      var plain := XorBytes(mixed, vector) + rest;
      assert plain[..BLOCK_SIZE] == XorBytes(mixed, vector) && plain[BLOCK_SIZE..] == rest;
      XorBytesCancel(mixed, vector);
      assert data == block + data[BLOCK_SIZE..];
    }
  }

  /** Block by block: each block of the text is mixed with the enciphered block before it, the first with the vector,
      and then enciphered. */
  lemma {:induction false} EncryptBlocks(cipher: Cipher, key: bytes, vector: bytes, data: bytes, j: nat)
    requires |vector| == 16 && Aligned(data) && 16 * j + 16 <= |data|
    ensures var encrypted := Encrypt(cipher, key, vector, data);
            var previous := if j == 0 then vector else encrypted[16 * j - 16..16 * j];
            encrypted[16 * j..16 * j + 16] == cipher.forward(key, XorBytes(data[16 * j..16 * j + 16], previous))
    decreases j
  {
    var block := cipher.forward(key, XorBytes(data[..BLOCK_SIZE], vector));
    var rest := Encrypt(cipher, key, block, data[BLOCK_SIZE..]);
    var encrypted := Encrypt(cipher, key, vector, data);
    assert encrypted == block + rest;
    if j == 0 {
      assert encrypted[0..16] == block && data[0..16] == data[..16];
    } else {
      EncryptBlocks(cipher, key, block, data[BLOCK_SIZE..], j - 1);
      assert data[BLOCK_SIZE..][16 * (j - 1)..16 * (j - 1) + 16] == data[16 * j..16 * j + 16];
      assert encrypted[16 * j..16 * j + 16] == rest[16 * (j - 1)..16 * (j - 1) + 16];
      if j == 1 {
        assert encrypted[0..16] == block;
      } else {
        assert encrypted[16 * j - 16..16 * j] == rest[16 * (j - 1) - 16..16 * (j - 1)];
      }
    }
  }

  /** A damaged initialization vector damages the first block of the plaintext at the same bits, and nothing else. */
  lemma {:induction false} VectorDamage(cipher: Cipher, key: bytes, sent: bytes, received: bytes, data: bytes)
    requires |sent| == |received| == BLOCK_SIZE && Aligned(data) && data != []
    ensures var p, q := Decrypt(cipher, key, sent, data), Decrypt(cipher, key, received, data);
            && q[BLOCK_SIZE..] == p[BLOCK_SIZE..]
            && XorBytes(p[..BLOCK_SIZE], q[..BLOCK_SIZE]) == XorBytes(sent, received)
  {
    var block := cipher.backward(key, data[..BLOCK_SIZE]);
    var p, q := Decrypt(cipher, key, sent, data), Decrypt(cipher, key, received, data);
    assert p[..BLOCK_SIZE] == XorBytes(block, sent) && q[..BLOCK_SIZE] == XorBytes(block, received);
    forall i | 0 <= i < BLOCK_SIZE
      ensures XorByte(XorByte(block[i], sent[i]), XorByte(block[i], received[i])) == XorByte(sent[i], received[i])
    {
      XorShuffle(block[i], sent[i], block[i], received[i]);
      XorSelf(block[i]);
    }
  }
}
