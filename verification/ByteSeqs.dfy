/** Octet strings, the big-endian length fields of `encoding/binary`, and the xor used by CBC. */
module ByteSeqs {

  type Byte = b: int | 0 <= b < 256

  type Bytes = seq<Byte>

  /** `binary.BigEndian.PutUint16(buf, uint16(n))`: the conversion to uint16 keeps the low 16 bits. */
  function U16(n: nat): (r: Bytes)
    ensures |r| == 2
  {
    [n / 256 % 256, n % 256]
  }

  /** `binary.BigEndian.Uint16(b)`. */
  function FromU16(b: Bytes): (n: nat)
    requires |b| == 2
    ensures n < 65536
  {
    var hi: int, lo: int := b[0], b[1];
    hi * 256 + lo
  }

  /** Three length bytes of which only the lower two are ever filled in. */
  function U24Low(n: nat): (r: Bytes)
    ensures |r| == 3
  {
    [0] + U16(n)
  }

  function FromU24(b: Bytes): nat
    requires |b| == 3
  {
    var top: int, hi: int, lo: int := b[0], b[1], b[2];
    top * 65536 + hi * 256 + lo
  }

  lemma U16Truncates(n: nat)
    ensures FromU16(U16(n)) == n % 65536
    ensures FromU24(U24Low(n)) == n % 65536
  {
    var h := n / 256;
    assert n == h * 256 + n % 256;
    var q := h / 256;
    assert h == q * 256 + h % 256;
    assert n == q * 65536 + (h % 256) * 256 + n % 256;
  }

  /** The two bytes at `i`, most significant first. */
  function WordAt(b: Bytes, i: nat): int
    requires i + 1 < |b|
  {
    var high: int, low: int := b[i], b[i + 1];
    256 * high + low
  }

  /** The length fields by their bytes; three-byte fields start with a zero. */
  lemma LengthBytes(n: nat)
    ensures WordAt(U16(n), 0) == n % 65536
    ensures U24Low(n)[0] == 0 && WordAt(U24Low(n), 1) == n % 65536
  {
    U16Truncates(n);
    assert U24Low(n)[1] == U16(n)[0] && U24Low(n)[2] == U16(n)[1];
  }

  lemma ReadersAreBigEndian(b: Bytes)
    ensures |b| == 2 ==> FromU16(b) == WordAt(b, 0)
    ensures |b| == 3 && b[0] == 0 ==> FromU24(b) == WordAt(b, 1)
  {
  }

  /** Exclusive or of the low `bits` binary digits of `a` and `b`. */
  function XorBits(a: nat, b: nat, bits: nat): (r: nat)
  {
    if bits == 0 then 0 else (a + b) % 2 + 2 * XorBits(a / 2, b / 2, bits - 1)
  }

  function Pow2(n: nat): (r: nat)
    ensures r > 0
  {
    if n == 0 then 1 else 2 * Pow2(n - 1)
  }

  /** Adding the same summand twice restores the parity. */
  lemma ParityCancels(a: nat, b: nat, x: nat)
    requires x % 2 == (a + b) % 2
    ensures (x + b) % 2 == a % 2
  {
  }

  lemma Digits(x: nat, d: nat, y: nat)
    requires x == d + 2 * y && d < 2
    ensures x / 2 == y && x % 2 == d
  {
  }

  lemma HalfIsBelow(a: nat, bits: nat)
    requires bits > 0 && a < Pow2(bits)
    ensures a / 2 < Pow2(bits - 1)
  {
  }

  lemma {:induction false} XorBitsBound(a: nat, b: nat, bits: nat)
    ensures XorBits(a, b, bits) < Pow2(bits)
  {
    if bits > 0 {
      XorBitsBound(a / 2, b / 2, bits - 1);
    }
  }

  lemma {:induction false} XorBitsCancels(a: nat, b: nat, bits: nat)
    requires a < Pow2(bits)
    ensures XorBits(XorBits(a, b, bits), b, bits) == a
  {
    if bits > 0 {
      var d, y := (a + b) % 2, XorBits(a / 2, b / 2, bits - 1);
      var x := XorBits(a, b, bits);
      assert x == d + 2 * y;
      assert XorBits(x, b, bits) == (x + b) % 2 + 2 * XorBits(x / 2, b / 2, bits - 1);
      HalfIsBelow(a, bits);
      hide Pow2, XorBits;
      XorBitsCancels(a / 2, b / 2, bits - 1);
      Digits(x, d, y);
      ParityCancels(a, b, x);
      Digits(a, a % 2, a / 2);
    }
  }

  /** The `k`th binary digit, counted from the lowest. */
  predicate Bit(a: nat, k: nat)
  {
    if k == 0 then a % 2 == 1 else Bit(a / 2, k - 1)
  }

  lemma {:induction false} XorBitsAt(a: nat, b: nat, bits: nat, k: nat)
    requires k < bits
    ensures Bit(XorBits(a, b, bits), k) <==> Bit(a, k) != Bit(b, k)
  {
    var d, y := (a + b) % 2, XorBits(a / 2, b / 2, bits - 1);
    Digits(XorBits(a, b, bits), d, y);
    if k > 0 {
      XorBitsAt(a / 2, b / 2, bits - 1, k - 1);
    }
  }

  function XorByte(a: Byte, b: Byte): (r: Byte)
  {
    assert Pow2(8) == 256 by { assert Pow2(4) == 16; }
    XorBitsBound(a, b, 8);
    XorBits(a, b, 8)
  }

  lemma XorByteCancels(a: Byte, b: Byte)
    ensures XorByte(XorByte(a, b), b) == a
  {
    assert Pow2(8) == 256 by { assert Pow2(4) == 16; }
    XorBitsCancels(a, b, 8);
  }

  function Xor(a: Bytes, b: Bytes): (r: Bytes)
    requires |a| == |b|
    ensures |r| == |a|
  {
    seq(|a|, i requires 0 <= i < |a| => XorByte(a[i], b[i]))
  }

  lemma XorCancels(a: Bytes, b: Bytes)
    requires |a| == |b|
    ensures Xor(Xor(a, b), b) == a
  {
    forall i | 0 <= i < |a| ensures Xor(Xor(a, b), b)[i] == a[i] {
      XorByteCancels(a[i], b[i]);
    }
  }

  /** Bit by bit: set exactly where one of the two is. */
  lemma XorIsBitwise(a: Bytes, b: Bytes, i: nat, k: nat)
    requires |a| == |b| && i < |a| && k < 8
    ensures Bit(Xor(a, b)[i], k) <==> Bit(a[i], k) != Bit(b[i], k)
  {
    XorBitsAt(a[i], b[i], 8, k);
  }

  /** `n` copies of byte `b`, as `bytes.Repeat([]byte{b}, n)`. */
  function Repeat(b: Byte, n: nat): (r: Bytes)
    ensures |r| == n
    ensures forall i :: 0 <= i < n ==> r[i] == b
  {
    seq(n, _ => b)
  }

  lemma Associative<T>(a: seq<T>, b: seq<T>, c: seq<T>)
    ensures a + (b + c) == (a + b) + c
  {
  }
}
