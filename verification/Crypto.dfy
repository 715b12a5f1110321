/**
 The cryptographic libraries, as uninterpreted functions.

 Nothing is assumed about them but the functional laws below: the block
 decrypter inverts the encrypter on 16-byte blocks, digests are 32 bytes, RSA
 decryption inverts encryption and verification accepts a genuine signature.
 Secrecy and unforgeability are not stated anywhere.
 */
module Crypto {
  import opened Wrappers
  import opened ByteSeqs

  const BLOCK_SIZE := 16
  const DIGEST_SIZE := 32

  datatype PrivateKey = PrivateKey(secret: Bytes)

  datatype PublicKey = Rsa(modulus: Bytes) | NonRsa

  /** `x509.Certificate`, reduced to its DER content and its public key. */
  datatype Certificate = Certificate(raw: Bytes, publicKey: PublicKey)

  datatype Primitives = Primitives(
    encryptBlock: (Bytes, Bytes) -> Bytes,                      // key, block
    decryptBlock: (Bytes, Bytes) -> Bytes,                      // key, block
    hmac: (Bytes, Bytes) -> Bytes,                              // secret, message
    sha256: Bytes -> Bytes,
    publicOf: PrivateKey -> Bytes,                              // the modulus of a private key
    rsaEncrypt: (Bytes, Bytes, Bytes) -> Option<Bytes>,         // modulus, randomness, message
    rsaDecrypt: (PrivateKey, Bytes) -> Option<Bytes>,
    sign: (PrivateKey, Bytes) -> Option<Bytes>,                 // key, digest
    verify: (Bytes, Bytes, Bytes) -> bool,                      // modulus, digest, signature
    parseCertificate: Bytes -> Option<PublicKey>                // x509.ParseCertificate on DER
  )

  ghost predicate BlockCipherLaws(p: Primitives)
  {
    && (forall k: Bytes, b: Bytes | |b| == BLOCK_SIZE :: |p.encryptBlock(k, b)| == BLOCK_SIZE)
    && (forall k: Bytes, b: Bytes | |b| == BLOCK_SIZE :: |p.decryptBlock(k, b)| == BLOCK_SIZE)
    && (forall k: Bytes, b: Bytes | |b| == BLOCK_SIZE :: p.decryptBlock(k, p.encryptBlock(k, b)) == b)
  }

  ghost predicate DigestLaws(p: Primitives)
  {
    && (forall k: Bytes, m: Bytes :: |p.hmac(k, m)| == DIGEST_SIZE)
    && (forall m: Bytes :: |p.sha256(m)| == DIGEST_SIZE)
  }

  ghost predicate RsaLaws(p: Primitives)
  {
    && (forall k: PrivateKey, r: Bytes, m: Bytes ::
          p.rsaEncrypt(p.publicOf(k), r, m).Some? ==>
            p.rsaDecrypt(k, p.rsaEncrypt(p.publicOf(k), r, m).value) == Some(m))
    && (forall k: PrivateKey, h: Bytes ::
          p.sign(k, h).Some? ==> p.verify(p.publicOf(k), h, p.sign(k, h).value))
  }

  ghost predicate Lawful(p: Primitives)
  {
    BlockCipherLaws(p) && DigestLaws(p) && RsaLaws(p)
  }

  /** Primitives that meet the laws, so that nothing below is vacuous. */
  const TOY := Primitives(
    (k, b) => b,
    (k, b) => b,
    (k, m) => Repeat(0, DIGEST_SIZE),
    m => Repeat(0, DIGEST_SIZE),
    (k: PrivateKey) => k.secret,
    (n, r, m) => Some(m),
    (k, m) => Some(m),
    (k, h) => Some(h),
    (n, h, s) => h == s,
    der => Some(Rsa(der)))

  /** The library as the rest of the project sees it: any primitives that meet the laws. */
  type Library = p: Primitives | Lawful(p) ghost witness TOY
}
