/** The record layer: a five-byte header with a 16-bit length in front of every body. */
module Records {
  import opened Wrappers
  import opened ByteSeqs

  const CHANGE_CIPHER_SPEC: Byte := 0x14
  const HANDSHAKE: Byte := 0x16
  const APPLICATION_DATA: Byte := 0x17

  const MAJOR: Byte := 3
  const MINOR: Byte := 3

  const HEADER_SIZE := 5
  const LENGTH_MODULUS := 65536

  datatype Record = Record(kind: Byte, version: Bytes, data: Bytes)

  datatype ReadError = UnexpectedEof

  /** A record as this implementation writes it. */
  function Plain(kind: Byte, data: Bytes): Record
  {
    Record(kind, [MAJOR, MINOR], data)
  }

  /** A body that the 16-bit length can describe, behind a two-byte version. */
  predicate Fits(r: Record)
  {
    |r.version| == 2 && |r.data| < LENGTH_MODULUS
  }

  /** The bytes of a record; the length field keeps only the low 16 bits of the length. */
  function Encode(r: Record): (s: Bytes)
    ensures |s| == 1 + |r.version| + 2 + |r.data|
  {
    [r.kind] + r.version + U16(|r.data|) + r.data
  }

  /** A written record byte by byte. */
  lemma EncodedBytes(kind: Byte, data: Bytes)
    ensures var s := Encode(Plain(kind, data));
      && |s| == 5 + |data| && s[..3] == [kind, 3, 3] && WordAt(s, 3) == |data| % 65536 && s[5..] == data
  {
    LengthBytes(|data|);
    var s := Encode(Plain(kind, data));
    assert s[3] == U16(|data|)[0] && s[4] == U16(|data|)[1];
  }

  /** `readTLSContent` on the bytes still to come; a short stream is consumed whole by `io.ReadFull`. */
  function Read(s: Bytes): (r: (Result<Record, ReadError>, Bytes))
    ensures r.0.Ok? ==> |r.1| <= |s| - HEADER_SIZE
  {
    if |s| < HEADER_SIZE then (Err(UnexpectedEof), []) else
      var n := FromU16(s[3..5]);
      if |s| < HEADER_SIZE + n then (Err(UnexpectedEof), [])
      else (Ok(Record(s[0], s[1..3], s[HEADER_SIZE..HEADER_SIZE + n])), s[HEADER_SIZE + n..])
  }

  /** The length the reader sees for a body of length `n`. */
  function WireLength(n: nat): (r: nat)
    ensures r <= n && r < LENGTH_MODULUS
    ensures r == n <==> n < LENGTH_MODULUS
  {
    n % LENGTH_MODULUS
  }

  /** What the reader makes of any written body: as much of it as the truncated length says. */
  lemma ReadOfWritten(kind: Byte, data: Bytes, rest: Bytes)
    ensures var n := WireLength(|data|);
      Read(Encode(Plain(kind, data)) + rest) == (Ok(Plain(kind, data[..n])), data[n..] + rest)
  {
    var s := Encode(Plain(kind, data)) + rest;
    var n := WireLength(|data|);
    U16Truncates(|data|);
    assert s[3..5] == U16(|data|);
    assert s[1..3] == [MAJOR, MINOR];
    assert s[HEADER_SIZE..] == data + rest;
    assert s[HEADER_SIZE..HEADER_SIZE + n] == s[HEADER_SIZE..][..n] == data[..n];
    assert s[HEADER_SIZE + n..] == s[HEADER_SIZE..][n..] == data[n..] + rest;
  }

  /** A written record is read back unchanged exactly when its body fits the 16-bit length. */
  lemma FramingIsExact(kind: Byte, data: Bytes, rest: Bytes)
    ensures Read(Encode(Plain(kind, data)) + rest) == (Ok(Plain(kind, data)), rest)
            <==> |data| < LENGTH_MODULUS
  {
    ReadOfWritten(kind, data, rest);
    hide Read, Encode, WireLength;
    if |data| < LENGTH_MODULUS {
      assert data[..|data|] == data && data[|data|..] + rest == rest;
    } else {
      assert |data[..WireLength(|data|)]| != |data|;
    }
  }

  lemma ReadIsEncoded(s: Bytes)
    requires Read(s).0.Ok?
    ensures var (r, rest) := Read(s); Fits(r.value) && s == Encode(r.value) + rest
  {
    var n := FromU16(s[3..5]);
    var h: int, l: int := s[3], s[4];
    assert n == h * 256 + l && U16(n) == [h, l];
    assert s == [s[0]] + s[1..3] + s[3..5] + s[5..5 + n] + s[5 + n..];
  }

  lemma ReadOfEncoded(r: Record, rest: Bytes)
    requires Fits(r)
    ensures Read(Encode(r) + rest) == (Ok(r), rest)
  {
    var s := Encode(r) + rest;
    U16Truncates(|r.data|);
    assert s[1..3] == r.version;
    assert s[3..5] == U16(|r.data|);
    assert s[HEADER_SIZE..] == r.data + rest;
    hide Encode, U16;
    assert s[HEADER_SIZE..HEADER_SIZE + |r.data|] == s[HEADER_SIZE..][..|r.data|] == r.data;
    assert s[HEADER_SIZE + |r.data|..] == s[HEADER_SIZE..][|r.data|..] == rest;
  }

  /** Reading is the exact inverse of encoding, whatever version bytes the peer sends. */
  lemma ReadCharacterised(s: Bytes, r: Record, rest: Bytes)
    ensures Read(s) == (Ok(r), rest) <==> Fits(r) && s == Encode(r) + rest
  {
    hide Read, Encode;
    if Read(s).0.Ok? {
      ReadIsEncoded(s);
    }
    if Fits(r) {
      ReadOfEncoded(r, rest);
    }
  }

  /** The byte stream of a sequence of records. */
  function EncodeAll(rs: seq<Record>): Bytes
  {
    if rs == [] then [] else Encode(rs[0]) + EncodeAll(rs[1..])
  }

  /** Reads `n` records in a row. */
  function ReadMany(s: Bytes, n: nat): (r: Option<(seq<Record>, Bytes)>)
    ensures r.Some? ==> |r.value.0| == n
  {
    if n == 0 then Some(([], s)) else
      match Read(s)
      case (Err(_), _) => None
      case (Ok(r), rest) =>
        match ReadMany(rest, n - 1)
        case None => None
        case Some((rs, end)) => Some(([r] + rs, end))
  }

  lemma {:induction false} EncodeAllAppend(a: seq<Record>, b: seq<Record>)
    ensures EncodeAll(a + b) == EncodeAll(a) + EncodeAll(b)
  {
    if a == [] {
      assert a + b == b;
    } else {
      EncodeAllAppend(a[1..], b);
      assert (a + b)[1..] == a[1..] + b && (a + b)[0] == a[0];
      Associative(Encode(a[0]), EncodeAll(a[1..]), EncodeAll(b));
    }
  }

  lemma {:induction false} ReadManyOfEncoded(rs: seq<Record>, rest: Bytes)
    requires forall r | r in rs :: Fits(r)
    ensures ReadMany(EncodeAll(rs) + rest, |rs|) == Some((rs, rest))
  {
    if rs == [] {
      assert EncodeAll(rs) + rest == rest;
    } else {
      var t := EncodeAll(rs[1..]) + rest;
      Associative(Encode(rs[0]), EncodeAll(rs[1..]), rest);
      ReadCharacterised(EncodeAll(rs) + rest, rs[0], t);
      ReadManyOfEncoded(rs[1..], rest);
      assert rs == [rs[0]] + rs[1..];
    }
  }

  lemma {:induction false} ReadManyIsEncoded(s: Bytes, n: nat)
    requires ReadMany(s, n).Some?
    ensures var (rs, rest) := ReadMany(s, n).value;
      |rs| == n && (forall r | r in rs :: Fits(r)) && s == EncodeAll(rs) + rest
  {
    if n == 0 {
      assert s == [] + s;
    } else {
      var (r, s') := Read(s);
      ReadManyIsEncoded(s', n - 1);
      var (tail, rest) := ReadMany(s', n - 1).value;
      ReadCharacterised(s, r.value, s');
      var rs := [r.value] + tail;
      assert rs[1..] == tail;
      Associative(Encode(r.value), EncodeAll(tail), rest);
    }
  }

  /** A stream decodes to `rs` exactly when it is the encoding of `rs`: no record is split, merged or lost. */
  lemma ReadManyCharacterised(s: Bytes, rs: seq<Record>, rest: Bytes)
    ensures ReadMany(s, |rs|) == Some((rs, rest))
            <==> (forall r | r in rs :: Fits(r)) && s == EncodeAll(rs) + rest
  {
    if ReadMany(s, |rs|) == Some((rs, rest)) {
      ReadManyIsEncoded(s, |rs|);
    }
    if (forall r | r in rs :: Fits(r)) && s == EncodeAll(rs) + rest {
      ReadManyOfEncoded(rs, rest);
    }
  }
}
