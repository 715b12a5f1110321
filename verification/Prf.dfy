/** The pseudorandom function of section 5 of RFC 5246, as a recursion and as the loop that computes it. */
module Prf {
  import opened ByteSeqs
  import opened Crypto

  /** A(i), with A(0) the seed. */
  function A(lib: Library, secret: Bytes, seed: Bytes, i: nat): Bytes
  {
    if i == 0 then seed else lib.hmac(secret, A(lib, secret, seed, i - 1))
  }

  /** The first `n` terms HMAC(secret, A(1) + seed), HMAC(secret, A(2) + seed), ... concatenated. */
  function PHash(lib: Library, secret: Bytes, seed: Bytes, n: nat): (r: Bytes)
    ensures |r| == n * DIGEST_SIZE
  {
    if n == 0 then [] else
      PHash(lib, secret, seed, n - 1) + lib.hmac(secret, A(lib, secret, seed, n) + seed)
  }

  /** The number of terms needed for `length` bytes. */
  function Terms(length: nat): (n: nat)
    ensures length <= n * DIGEST_SIZE < length + DIGEST_SIZE
  {
    (length + DIGEST_SIZE - 1) / DIGEST_SIZE
  }

  function Output(lib: Library, secret: Bytes, seed: Bytes, length: nat): (r: Bytes)
    ensures |r| == length
  {
    PHash(lib, secret, seed, Terms(length))[..length]
  }

  lemma {:induction false} PHashPrefix(lib: Library, secret: Bytes, seed: Bytes, m: nat, n: nat)
    requires m <= n
    ensures PHash(lib, secret, seed, m) <= PHash(lib, secret, seed, n)
  {
    if m < n {
      PHashPrefix(lib, secret, seed, m, n - 1);
    }
  }

  /** Any number of terms that is large enough yields the same output. */
  lemma OutputIsPrefixOfPHash(lib: Library, secret: Bytes, seed: Bytes, length: nat, n: nat)
    requires length <= n * DIGEST_SIZE
    ensures Output(lib, secret, seed, length) == PHash(lib, secret, seed, n)[..length]
  {
    PHashPrefix(lib, secret, seed, Terms(length), n);
  }

  /** Shorter outputs are prefixes of longer ones. */
  lemma OutputPrefix(lib: Library, secret: Bytes, seed: Bytes, short: nat, long: nat)
    requires short <= long
    ensures Output(lib, secret, seed, short) == Output(lib, secret, seed, long)[..short]
  {
    OutputIsPrefixOfPHash(lib, secret, seed, short, Terms(long));
  }

  /** A(0), A(1), ... as a list: the seed, then each the HMAC of the one before. */
  predicate IsChain(lib: Library, secret: Bytes, seed: Bytes, a: seq<Bytes>)
  {
    a != [] && a[0] == seed && forall i | 0 <= i < |a| - 1 :: a[i + 1] == lib.hmac(secret, a[i])
  }

  /** There are chains of any length. */
  lemma {:induction false} ChainExists(lib: Library, secret: Bytes, seed: Bytes, n: nat) returns (a: seq<Bytes>)
    ensures |a| == n + 1 && IsChain(lib, secret, seed, a)
  {
    if n == 0 {
      a := [seed];
    } else {
      var b := ChainExists(lib, secret, seed, n - 1);
      a := b + [lib.hmac(secret, b[n - 1])];
    }
  }

  lemma {:induction false} ChainIsA(lib: Library, secret: Bytes, seed: Bytes, a: seq<Bytes>, i: nat)
    requires IsChain(lib, secret, seed, a) && i < |a|
    ensures a[i] == A(lib, secret, seed, i)
  {
    if i > 0 {
      ChainIsA(lib, secret, seed, a, i - 1);
      assert a[(i - 1) + 1] == lib.hmac(secret, a[i - 1]);
    }
  }

  lemma {:induction false} PHashAt(lib: Library, secret: Bytes, seed: Bytes, a: seq<Bytes>, n: nat, k: nat)
    requires IsChain(lib, secret, seed, a) && k < n * DIGEST_SIZE && k / DIGEST_SIZE + 1 < |a|
    ensures PHash(lib, secret, seed, n)[k] == lib.hmac(secret, a[k / DIGEST_SIZE + 1] + seed)[k % DIGEST_SIZE]
  {
    hide A, IsChain;
    if k < (n - 1) * DIGEST_SIZE {
      PHashAt(lib, secret, seed, a, n - 1, k);
    } else {
      assert k / DIGEST_SIZE == n - 1;
      ChainIsA(lib, secret, seed, a, n);
    }
  }

  /** Byte `k` of the output is byte `k % 32` of HMAC(secret, A(k / 32 + 1) + seed). */
  predicate IsPHash(lib: Library, secret: Bytes, seed: Bytes, a: seq<Bytes>, r: Bytes)
    requires IsChain(lib, secret, seed, a)
  {
    forall k | 0 <= k < |r| && k / DIGEST_SIZE + 1 < |a| ::
      r[k] == lib.hmac(secret, a[k / DIGEST_SIZE + 1] + seed)[k % DIGEST_SIZE]
  }

  lemma OutputIsPHash(lib: Library, secret: Bytes, seed: Bytes, a: seq<Bytes>, length: nat)
    requires IsChain(lib, secret, seed, a)
    ensures IsPHash(lib, secret, seed, a, Output(lib, secret, seed, length))
  {
    hide PHash, IsChain;
    forall k | 0 <= k < length && k / DIGEST_SIZE + 1 < |a|
      ensures Output(lib, secret, seed, length)[k]
              == lib.hmac(secret, a[k / DIGEST_SIZE + 1] + seed)[k % DIGEST_SIZE]
    {
      PHashAt(lib, secret, seed, a, Terms(length), k);
    }
  }

  /** `prf`: the loop keeps A(i) and appends one digest per iteration, then truncates. */
  method Prf(lib: Library, secret: Bytes, seed: Bytes, outputLength: nat) returns (r: Bytes, ghost iterations: nat)
    ensures r == Output(lib, secret, seed, outputLength)
    ensures |r| == outputLength
    ensures forall a | IsChain(lib, secret, seed, a) :: IsPHash(lib, secret, seed, a, r)
    ensures iterations == Terms(outputLength)
  {
    var output: Bytes := [];
    var a := seed;
    iterations := 0;
    while |output| < outputLength
      invariant a == A(lib, secret, seed, iterations)
      invariant output == PHash(lib, secret, seed, iterations)
      invariant iterations <= Terms(outputLength)
      decreases Terms(outputLength) - iterations
    {
      a := lib.hmac(secret, a);
      output := output + lib.hmac(secret, a + seed);
      iterations := iterations + 1;
    }
    OutputIsPrefixOfPHash(lib, secret, seed, outputLength, iterations);
    r := output[..outputLength];
    forall a | IsChain(lib, secret, seed, a) ensures IsPHash(lib, secret, seed, a, r) {
      OutputIsPHash(lib, secret, seed, a, outputLength);
    }
  }

  // "master secret" and "key expansion"
  const MASTER_SECRET_LABEL: Bytes := [109, 97, 115, 116, 101, 114, 32, 115, 101, 99, 114, 101, 116]
  const KEY_EXPANSION_LABEL: Bytes := [107, 101, 121, 32, 101, 120, 112, 97, 110, 115, 105, 111, 110]

  lemma LabelsAreText()
    ensures |MASTER_SECRET_LABEL| == |"master secret"|
    ensures forall i | 0 <= i < |MASTER_SECRET_LABEL| :: MASTER_SECRET_LABEL[i] == "master secret"[i] as int
    ensures |KEY_EXPANSION_LABEL| == |"key expansion"|
    ensures forall i | 0 <= i < |KEY_EXPANSION_LABEL| :: KEY_EXPANSION_LABEL[i] == "key expansion"[i] as int
  {
  }

  /** `generateMasterSecret`, section 8.1 of RFC 5246. */
  function MasterSecret(lib: Library, clientRandom: Bytes, serverRandom: Bytes, preMaster: Bytes): (r: Bytes)
    ensures |r| == 48
  {
    Output(lib, preMaster, MASTER_SECRET_LABEL + clientRandom + serverRandom, 48)
  }
}
