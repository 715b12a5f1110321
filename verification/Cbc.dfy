/**
 Content protection of the record layer: PKCS#7-style padding (section 6.3 of
 RFC 5652) followed by CBC, with the IV in front of the ciphertext.
 */
module Cbc {
  import opened Wrappers
  import opened ByteSeqs
  import opened Crypto

  datatype ContentError = BadLength | BadCiphertextLength | BadPadding | IndexOutOfRange

  function PaddingLength(n: nat): (p: Byte)
    ensures 1 <= p <= BLOCK_SIZE
  {
    BLOCK_SIZE - n % BLOCK_SIZE
  }

  function Pad(data: Bytes): (r: Bytes)
    ensures |r| == BLOCK_SIZE * (|data| / BLOCK_SIZE + 1)
    ensures r[..|data|] == data
    ensures PaddingLength(|data|) == |r| - |data|
    ensures forall i :: |data| <= i < |r| ==> r[i] == PaddingLength(|data|)
  {
    data + Repeat(PaddingLength(|data|), PaddingLength(|data|))
  }

  /** CBC chaining after the block `prev`. */
  function CbcEncrypt(lib: Library, key: Bytes, prev: Bytes, plaintext: Bytes): (r: Bytes)
    requires |prev| == BLOCK_SIZE && |plaintext| % BLOCK_SIZE == 0
    ensures |r| == |plaintext|
    decreases |plaintext|
  {
    if plaintext == [] then [] else
      var block := lib.encryptBlock(key, Xor(plaintext[..BLOCK_SIZE], prev));
      block + CbcEncrypt(lib, key, block, plaintext[BLOCK_SIZE..])
  }

  function CbcDecrypt(lib: Library, key: Bytes, prev: Bytes, ciphertext: Bytes): (r: Bytes)
    requires |prev| == BLOCK_SIZE && |ciphertext| % BLOCK_SIZE == 0
    ensures |r| == |ciphertext|
    decreases |ciphertext|
  {
    if ciphertext == [] then [] else
      var block := ciphertext[..BLOCK_SIZE];
      Xor(lib.decryptBlock(key, block), prev) + CbcDecrypt(lib, key, block, ciphertext[BLOCK_SIZE..])
  }

  /** What `encryptContent` produces under `key` with the random `iv`. */
  function Encrypt(lib: Library, key: Bytes, iv: Bytes, data: Bytes): (r: Bytes)
    requires |iv| == BLOCK_SIZE
    ensures |r| == BLOCK_SIZE * (|data| / BLOCK_SIZE + 2)
  {
    iv + CbcEncrypt(lib, key, iv, Pad(data))
  }

  /** Only the last byte of the padding is inspected; an IV with no block behind it is an index panic. */
  function Unpad(plaintext: Bytes): Result<Bytes, ContentError>
    requires |plaintext| % BLOCK_SIZE == 0
  {
    if plaintext == [] then Err(IndexOutOfRange) else
      var padding := plaintext[|plaintext| - 1];
      if padding == 0 || padding > BLOCK_SIZE then Err(BadPadding)
      else Ok(plaintext[..|plaintext| - padding])
  }

  /** What `decryptContent` returns under `key`. */
  function Decrypt(lib: Library, key: Bytes, data: Bytes): Result<Bytes, ContentError>
  {
    if |data| < BLOCK_SIZE then Err(BadLength)
    else if |data[BLOCK_SIZE..]| % BLOCK_SIZE != 0 then Err(BadCiphertextLength)
    else Unpad(CbcDecrypt(lib, key, data[..BLOCK_SIZE], data[BLOCK_SIZE..]))
  }

  lemma {:induction false} CbcRoundTrip(lib: Library, key: Bytes, prev: Bytes, plaintext: Bytes)
    requires |prev| == BLOCK_SIZE && |plaintext| % BLOCK_SIZE == 0
    ensures CbcDecrypt(lib, key, prev, CbcEncrypt(lib, key, prev, plaintext)) == plaintext
    decreases |plaintext|
  {
    if plaintext != [] {
      var head, tail := plaintext[..BLOCK_SIZE], plaintext[BLOCK_SIZE..];
      var block := lib.encryptBlock(key, Xor(head, prev));
      var r := CbcEncrypt(lib, key, prev, plaintext);
      assert r[..BLOCK_SIZE] == block && r[BLOCK_SIZE..] == CbcEncrypt(lib, key, block, tail);
      assert lib.decryptBlock(key, block) == Xor(head, prev);
      XorCancels(head, prev);
      CbcRoundTrip(lib, key, block, tail);
      assert plaintext == head + tail;
    }
  }

  /** Decryption undoes encryption for every message and every IV. */
  lemma RoundTrip(lib: Library, key: Bytes, iv: Bytes, data: Bytes)
    requires |iv| == BLOCK_SIZE
    ensures Decrypt(lib, key, Encrypt(lib, key, iv, data)) == Ok(data)
  {
    var e := Encrypt(lib, key, iv, data);
    assert e[..BLOCK_SIZE] == iv && e[BLOCK_SIZE..] == CbcEncrypt(lib, key, iv, Pad(data));
    CbcRoundTrip(lib, key, iv, Pad(data));
  }

  /** A successful decryption drops between one and sixteen bytes of a non-empty run of whole blocks. */
  lemma DecryptedLength(lib: Library, key: Bytes, data: Bytes)
    requires Decrypt(lib, key, data).Ok?
    ensures 2 * BLOCK_SIZE <= |data| && |data| % BLOCK_SIZE == 0
    ensures |data| - 2 * BLOCK_SIZE <= |Decrypt(lib, key, data).value| < |data| - BLOCK_SIZE
  {
  }

  // Ciphertext and plaintext block by block, without the recursions.

  /** Block `k` of a run of whole blocks. */
  function BlockAt(s: Bytes, k: nat): (r: Bytes)
    requires BLOCK_SIZE * (k + 1) <= |s|
    ensures |r| == BLOCK_SIZE
  {
    s[BLOCK_SIZE * k..BLOCK_SIZE * (k + 1)]
  }

  lemma BlockOfConcat(head: Bytes, tail: Bytes, k: nat)
    requires |head| == BLOCK_SIZE && BLOCK_SIZE * (k + 1) <= |head + tail|
    ensures BlockAt(head + tail, k) == if k == 0 then head else BlockAt(tail, k - 1)
  {
  }

  lemma ChainFirst(lib: Library, key: Bytes, prev: Bytes, head: Bytes, tail: Bytes)
    requires |prev| == BLOCK_SIZE && |head| == BLOCK_SIZE && |tail| % BLOCK_SIZE == 0
    ensures var block := lib.encryptBlock(key, Xor(head, prev));
      |block| == BLOCK_SIZE && CbcEncrypt(lib, key, prev, head + tail) == block + CbcEncrypt(lib, key, block, tail)
  {
    assert (head + tail)[..BLOCK_SIZE] == head && (head + tail)[BLOCK_SIZE..] == tail;
    assert |lib.encryptBlock(key, Xor(head, prev))| == BLOCK_SIZE;
    hide Xor, Lawful;
  }

  lemma {:induction false} ChainedBlock(lib: Library, key: Bytes, prev: Bytes, plaintext: Bytes, k: nat)
    requires |prev| == BLOCK_SIZE && |plaintext| % BLOCK_SIZE == 0 && BLOCK_SIZE * (k + 1) <= |plaintext|
    ensures var c := prev + CbcEncrypt(lib, key, prev, plaintext);
      BlockAt(c, k + 1) == lib.encryptBlock(key, Xor(BlockAt(plaintext, k), BlockAt(c, k)))
    decreases k
  {
    hide CbcEncrypt, Xor, Lawful, BlockAt;
    var head, tail := plaintext[..BLOCK_SIZE], plaintext[BLOCK_SIZE..];
    assert plaintext == head + tail;
    ChainFirst(lib, key, prev, head, tail);
    var block := lib.encryptBlock(key, Xor(head, prev));
    var rest := CbcEncrypt(lib, key, block, tail);
    BlockOfConcat(prev, block + rest, k);
    BlockOfConcat(prev, block + rest, k + 1);
    BlockOfConcat(head, tail, k);
    if k == 0 {
      BlockOfConcat(block, rest, 0);
    } else {
      ChainedBlock(lib, key, block, tail, k - 1);
    }
  }

  /**
   The ciphertext: first the IV, then each padded block, combined with the
   ciphertext block before it and encrypted.
   */
  lemma CiphertextByBlock(lib: Library, key: Bytes, iv: Bytes, data: Bytes, k: nat)
    requires |iv| == BLOCK_SIZE && BLOCK_SIZE * (k + 1) <= |Pad(data)|
    ensures var c := Encrypt(lib, key, iv, data);
      && BlockAt(c, 0) == iv
      && BlockAt(c, k + 1) == lib.encryptBlock(key, Xor(BlockAt(Pad(data), k), BlockAt(c, k)))
  {
    ChainedBlock(lib, key, iv, Pad(data), k);
    hide CbcEncrypt, Xor, Pad;
    BlockOfConcat(iv, CbcEncrypt(lib, key, iv, Pad(data)), 0);
  }

  lemma EncryptedBlockSize(lib: Library, key: Bytes, block: Bytes)
    requires |block| == BLOCK_SIZE
    ensures |lib.encryptBlock(key, block)| == BLOCK_SIZE
  {
  }

  lemma DecryptedBlockSize(lib: Library, key: Bytes, block: Bytes)
    requires |block| == BLOCK_SIZE
    ensures |lib.decryptBlock(key, block)| == BLOCK_SIZE
  {
  }

  lemma UnchainFirst(lib: Library, key: Bytes, prev: Bytes, block: Bytes, tail: Bytes)
    requires |prev| == BLOCK_SIZE && |block| == BLOCK_SIZE && |tail| % BLOCK_SIZE == 0
    ensures |lib.decryptBlock(key, block)| == BLOCK_SIZE
    ensures CbcDecrypt(lib, key, prev, block + tail)
            == Xor(lib.decryptBlock(key, block), prev) + CbcDecrypt(lib, key, block, tail)
  {
    assert (block + tail)[..BLOCK_SIZE] == block && (block + tail)[BLOCK_SIZE..] == tail;
    DecryptedBlockSize(lib, key, block);
    hide Xor, Lawful;
  }

  lemma {:induction false} UnchainedBlock(lib: Library, key: Bytes, prev: Bytes, ciphertext: Bytes, k: nat)
    requires |prev| == BLOCK_SIZE && |ciphertext| % BLOCK_SIZE == 0 && BLOCK_SIZE * (k + 1) <= |ciphertext|
    ensures var c := prev + ciphertext;
      && |lib.decryptBlock(key, BlockAt(c, k + 1))| == BLOCK_SIZE
      && BlockAt(CbcDecrypt(lib, key, prev, ciphertext), k)
         == Xor(lib.decryptBlock(key, BlockAt(c, k + 1)), BlockAt(c, k))
    decreases k
  {
    hide CbcDecrypt, Xor, Lawful, BlockAt;
    var block, tail := ciphertext[..BLOCK_SIZE], ciphertext[BLOCK_SIZE..];
    assert ciphertext == block + tail;
    UnchainFirst(lib, key, prev, block, tail);
    var rest := CbcDecrypt(lib, key, block, tail);
    BlockOfConcat(prev, ciphertext, k);
    BlockOfConcat(prev, ciphertext, k + 1);
    BlockOfConcat(Xor(lib.decryptBlock(key, block), prev), rest, k);
    BlockOfConcat(block, tail, k);
    if k > 0 {
      UnchainedBlock(lib, key, block, tail, k - 1);
      BlockOfConcat(block, tail, k - 1);
    }
  }

  /** The last byte of the last block, decrypted, which is taken for the length of the padding. */
  function LastByte(lib: Library, key: Bytes, data: Bytes): Byte
    requires |data| >= 2 * BLOCK_SIZE && |data| % BLOCK_SIZE == 0
  {
    var k := |data| / BLOCK_SIZE - 2;
    var plain := lib.decryptBlock(key, BlockAt(data, k + 1));
    Xor(plain, BlockAt(data, k))[BLOCK_SIZE - 1]
  }

  lemma PlaintextEnds(lib: Library, key: Bytes, data: Bytes)
    requires |data| >= 2 * BLOCK_SIZE && |data| % BLOCK_SIZE == 0
    ensures var p := CbcDecrypt(lib, key, data[..BLOCK_SIZE], data[BLOCK_SIZE..]);
      p != [] && p[|p| - 1] == LastByte(lib, key, data)
  {
    var k := |data| / BLOCK_SIZE - 2;
    UnchainedBlock(lib, key, data[..BLOCK_SIZE], data[BLOCK_SIZE..], k);
    assert data[..BLOCK_SIZE] + data[BLOCK_SIZE..] == data;
    var p := CbcDecrypt(lib, key, data[..BLOCK_SIZE], data[BLOCK_SIZE..]);
    hide CbcDecrypt, Xor;
    assert p[|p| - 1] == BlockAt(p, k)[BLOCK_SIZE - 1];
  }

  /** Decryption succeeds exactly on whole blocks, at least two, whose last byte is a possible padding length. */
  lemma DecryptsExactlyWhen(lib: Library, key: Bytes, data: Bytes)
    ensures Decrypt(lib, key, data).Ok?
            <==> |data| >= 2 * BLOCK_SIZE && |data| % BLOCK_SIZE == 0 && 1 <= LastByte(lib, key, data) <= BLOCK_SIZE
    ensures Decrypt(lib, key, data).Ok? ==>
              |Decrypt(lib, key, data).value| == |data| - BLOCK_SIZE - LastByte(lib, key, data)
    ensures Decrypt(lib, key, data) == Err(BadLength) <==> |data| < BLOCK_SIZE
    ensures Decrypt(lib, key, data) == Err(BadCiphertextLength) <==> |data| >= BLOCK_SIZE && |data| % BLOCK_SIZE != 0
    ensures Decrypt(lib, key, data) == Err(IndexOutOfRange) <==> |data| == BLOCK_SIZE
  {
    if |data| >= 2 * BLOCK_SIZE && |data| % BLOCK_SIZE == 0 {
      PlaintextEnds(lib, key, data);
    }
    hide CbcDecrypt, LastByte;
  }

  /** Each plaintext byte: its ciphertext block decrypted and combined with the ciphertext block before it. */
  lemma PlaintextByByte(lib: Library, key: Bytes, data: Bytes, i: nat)
    requires Decrypt(lib, key, data).Ok? && i < |Decrypt(lib, key, data).value|
    ensures var k := i / BLOCK_SIZE;
      && BLOCK_SIZE * (k + 2) <= |data|
      && var plain := lib.decryptBlock(key, BlockAt(data, k + 1));
      && |plain| == BLOCK_SIZE
      && Decrypt(lib, key, data).value[i] == Xor(plain, BlockAt(data, k))[i % BLOCK_SIZE]
  {
    var k := i / BLOCK_SIZE;
    DecryptedLength(lib, key, data);
    var p := CbcDecrypt(lib, key, data[..BLOCK_SIZE], data[BLOCK_SIZE..]);
    assert Decrypt(lib, key, data).value[i] == p[i];
    UnchainedBlock(lib, key, data[..BLOCK_SIZE], data[BLOCK_SIZE..], k);
    assert data[..BLOCK_SIZE] + data[BLOCK_SIZE..] == data;
    hide CbcDecrypt, Xor, Decrypt;
    assert p[i] == BlockAt(p, k)[i % BLOCK_SIZE];
  }

  lemma EncryptStep(lib: Library, key: Bytes, prev: Bytes, src: Bytes, k: nat)
    requires |prev| == BLOCK_SIZE && k + BLOCK_SIZE <= |src| && |src| % BLOCK_SIZE == 0 && k % BLOCK_SIZE == 0
    ensures var block := lib.encryptBlock(key, Xor(src[k..k + BLOCK_SIZE], prev));
      CbcEncrypt(lib, key, prev, src[k..]) == block + CbcEncrypt(lib, key, block, src[k + BLOCK_SIZE..])
  {
    assert src[k..][..BLOCK_SIZE] == src[k..k + BLOCK_SIZE] && src[k..][BLOCK_SIZE..] == src[k + BLOCK_SIZE..];
  }

  lemma DecryptStep(lib: Library, key: Bytes, prev: Bytes, src: Bytes, k: nat)
    requires |prev| == BLOCK_SIZE && k + BLOCK_SIZE <= |src| && |src| % BLOCK_SIZE == 0 && k % BLOCK_SIZE == 0
    ensures var block := src[k..k + BLOCK_SIZE];
      CbcDecrypt(lib, key, prev, src[k..])
      == Xor(lib.decryptBlock(key, block), prev) + CbcDecrypt(lib, key, block, src[k + BLOCK_SIZE..])
  {
    assert src[k..][..BLOCK_SIZE] == src[k..k + BLOCK_SIZE] && src[k..][BLOCK_SIZE..] == src[k + BLOCK_SIZE..];
  }

  /** `base` with `part` written over it from `at` on. */
  function Overwrite(base: Bytes, at: nat, part: Bytes): (r: Bytes)
    requires at + |part| <= |base|
    ensures |r| == |base|
  {
    base[..at] + part + base[at + |part|..]
  }

  lemma OverwriteNext(base: Bytes, at: nat, done: Bytes, block: Bytes)
    requires at + |done| + |block| <= |base|
    ensures Overwrite(Overwrite(base, at, done), at + |done|, block) == Overwrite(base, at, done + block)
  {
  }

  lemma OverwriteAll(base: Bytes, done: Bytes)
    requires |done| == |base|
    ensures Overwrite(base, 0, done) == done
  {
  }

  /** `copy(dst[at:], block)`. */
  method StoreBlock(dst: array<Byte>, at: nat, block: Bytes)
    requires at + |block| <= dst.Length
    modifies dst
    ensures dst[..] == Overwrite(old(dst[..]), at, block)
  {
    forall i | 0 <= i < |block| {
      dst[at + i] := block[i];
    }
  }

  /** The first `k` bytes are done, and `prev` is the ciphertext block that the next one is chained to. */
  predicate Encrypted(lib: Library, key: Bytes, iv: Bytes, src: Bytes, k: nat, prev: Bytes, done: Bytes)
    requires |iv| == BLOCK_SIZE && |src| % BLOCK_SIZE == 0
  {
    && k <= |src| && k % BLOCK_SIZE == 0 && |prev| == BLOCK_SIZE && |done| == k
    && CbcEncrypt(lib, key, iv, src) == done + CbcEncrypt(lib, key, prev, src[k..])
  }

  predicate Decrypted(lib: Library, key: Bytes, iv: Bytes, src: Bytes, k: nat, prev: Bytes, done: Bytes)
    requires |iv| == BLOCK_SIZE && |src| % BLOCK_SIZE == 0
  {
    && k <= |src| && k % BLOCK_SIZE == 0 && |prev| == BLOCK_SIZE && |done| == k
    && CbcDecrypt(lib, key, iv, src) == done + CbcDecrypt(lib, key, prev, src[k..])
  }

  lemma EncryptNext(lib: Library, key: Bytes, iv: Bytes, src: Bytes, k: nat, prev: Bytes, done: Bytes)
    requires |iv| == BLOCK_SIZE && |src| % BLOCK_SIZE == 0 && k < |src| && Encrypted(lib, key, iv, src, k, prev, done)
    ensures k + BLOCK_SIZE <= |src| && |prev| == BLOCK_SIZE
    ensures var block := lib.encryptBlock(key, Xor(src[k..k + BLOCK_SIZE], prev));
      |block| == BLOCK_SIZE && Encrypted(lib, key, iv, src, k + BLOCK_SIZE, block, done + block)
  {
    hide CbcEncrypt, Xor, Lawful;
    var block := lib.encryptBlock(key, Xor(src[k..k + BLOCK_SIZE], prev));
    EncryptedBlockSize(lib, key, Xor(src[k..k + BLOCK_SIZE], prev));
    EncryptStep(lib, key, prev, src, k);
    Associative(done, block, CbcEncrypt(lib, key, block, src[k + BLOCK_SIZE..]));
  }

  lemma DecryptNext(lib: Library, key: Bytes, iv: Bytes, src: Bytes, k: nat, prev: Bytes, done: Bytes)
    requires |iv| == BLOCK_SIZE && |src| % BLOCK_SIZE == 0 && k < |src| && Decrypted(lib, key, iv, src, k, prev, done)
    ensures k + BLOCK_SIZE <= |src| && |prev| == BLOCK_SIZE
    ensures var block := src[k..k + BLOCK_SIZE];
      && |lib.decryptBlock(key, block)| == BLOCK_SIZE
      && Decrypted(lib, key, iv, src, k + BLOCK_SIZE, block, done + Xor(lib.decryptBlock(key, block), prev))
  {
    hide CbcDecrypt, Xor, Lawful;
    var block := src[k..k + BLOCK_SIZE];
    DecryptedBlockSize(lib, key, block);
    DecryptStep(lib, key, prev, src, k);
    var plain := Xor(lib.decryptBlock(key, block), prev);
    Associative(done, plain, CbcDecrypt(lib, key, block, src[k + BLOCK_SIZE..]));
  }

  lemma NothingDone(lib: Library, key: Bytes, iv: Bytes, src: Bytes, base: Bytes, at: nat)
    requires |iv| == BLOCK_SIZE && |src| % BLOCK_SIZE == 0 && at <= |base|
    ensures Encrypted(lib, key, iv, src, 0, iv, []) && Decrypted(lib, key, iv, src, 0, iv, [])
    ensures Overwrite(base, at, []) == base
  {
    assert src[0..] == src;
  }

  lemma AllDone(lib: Library, key: Bytes, iv: Bytes, src: Bytes, prev: Bytes, done: Bytes)
    requires |iv| == BLOCK_SIZE && |src| % BLOCK_SIZE == 0
    ensures Encrypted(lib, key, iv, src, |src|, prev, done) ==> done == CbcEncrypt(lib, key, iv, src)
    ensures Decrypted(lib, key, iv, src, |src|, prev, done) ==> done == CbcDecrypt(lib, key, iv, src)
  {
    assert src[|src|..] == [] && done + [] == done;
  }

  /** `CryptBlocks` of the CBC encrypter: fills `dst` from `offset` on, one block after the other. */
  method EncryptBlocks(lib: Library, key: Bytes, iv: Bytes, src: Bytes, dst: array<Byte>, offset: nat)
    requires |iv| == BLOCK_SIZE && |src| % BLOCK_SIZE == 0 && offset + |src| <= dst.Length
    modifies dst
    ensures dst[..] == Overwrite(old(dst[..]), offset, CbcEncrypt(lib, key, iv, src))
  {
    hide CbcEncrypt, Lawful, Overwrite, Xor, Encrypted;
    var prev, k := iv, 0;
    ghost var base, done: Bytes := dst[..], [];
    NothingDone(lib, key, iv, src, base, offset);
    while k < |src|
      invariant k == |done| <= |src| && Encrypted(lib, key, iv, src, k, prev, done)
      invariant dst[..] == Overwrite(base, offset, done)
    {
      EncryptNext(lib, key, iv, src, k, prev, done);
      var block := lib.encryptBlock(key, Xor(src[k..k + BLOCK_SIZE], prev));
      StoreBlock(dst, offset + k, block);
      OverwriteNext(base, offset, done, block);
      done, prev, k := done + block, block, k + BLOCK_SIZE;
    }
    AllDone(lib, key, iv, src, prev, done);
  }

  /** `CryptBlocks` of the CBC decrypter. */
  method DecryptBlocks(lib: Library, key: Bytes, iv: Bytes, src: Bytes, dst: array<Byte>)
    requires |iv| == BLOCK_SIZE && |src| % BLOCK_SIZE == 0 && |src| == dst.Length
    modifies dst
    ensures dst[..] == CbcDecrypt(lib, key, iv, src)
  {
    hide CbcDecrypt, Lawful, Overwrite, Xor, Decrypted;
    var prev, k := iv, 0;
    ghost var base, done: Bytes := dst[..], [];
    NothingDone(lib, key, iv, src, base, 0);
    while k < |src|
      invariant k == |done| <= |src| && Decrypted(lib, key, iv, src, k, prev, done)
      invariant dst[..] == Overwrite(base, 0, done)
    {
      DecryptNext(lib, key, iv, src, k, prev, done);
      var block := src[k..k + BLOCK_SIZE];
      var plain := Xor(lib.decryptBlock(key, block), prev);
      StoreBlock(dst, k, plain);
      OverwriteNext(base, 0, done, plain);
      done, prev, k := done + plain, block, k + BLOCK_SIZE;
    }
    AllDone(lib, key, iv, src, prev, done);
    OverwriteAll(base, done);
  }
}
