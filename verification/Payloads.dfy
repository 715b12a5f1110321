/** Handshake payloads: what each side builds and what the peer parses out of it. */
module Payloads {
  import opened Wrappers
  import opened ByteSeqs
  import opened Crypto
  import Cbc
  import Records

  const CLIENT_HELLO: Byte := 0x01
  const SERVER_HELLO: Byte := 0x02
  const CERTIFICATE: Byte := 0x0b
  const CERTIFICATE_REQUEST: Byte := 0x0d
  const SERVER_HELLO_DONE: Byte := 0x0e
  const CERTIFICATE_VERIFY: Byte := 0x0f
  const CLIENT_KEY_EXCHANGE: Byte := 0x10
  const FINISHED: Byte := 0x14

  const RANDOM_SIZE := 32
  const VERIFY_DATA_SIZE := 12

  /** Everything that can end a handshake early; `Panic` stands for a Go run-time panic. */
  datatype Failure =
    | ConnectionEnded
    | UnexpectedContentType
    | UnexpectedHandshakeType
    | InvalidPayload
    | BadCertificate
    | EncryptionFailed
    | DecryptionFailed
    | SigningFailed
    | VerificationFailed
    | BadPublicKey
    | BadContent(error: Cbc.ContentError)
    | InvalidFinished
    | Panic

  /** The four-byte handshake header: a type and a 24-bit length whose top byte stays zero. */
  function Message(kind: Byte, body: Bytes): (r: Bytes)
    ensures |r| == 4 + |body| && r[0] == kind && r[4..] == body
  {
    [kind] + U24Low(|body|) + body
  }

  /** Version, random, empty session id, one cipher suite, null compression. */
  function HelloPayload(kind: Byte, random: Bytes): Bytes
  {
    Message(kind, [Records.MAJOR, Records.MINOR] + random + [0x00] + [0x00, 0x02, 0x00, 0x2f] + [0x01, 0x00])
  }

  function CertificatePayload(raw: Bytes): Bytes
  {
    Message(CERTIFICATE, U24Low(|raw| + 3) + U24Low(|raw|) + raw)
  }

  function KeyExchangePayload(encryptedPreMaster: Bytes): Bytes
  {
    Message(CLIENT_KEY_EXCHANGE, U16(|encryptedPreMaster|) + encryptedPreMaster)
  }

  function CertificateVerifyPayload(signature: Bytes): Bytes
  {
    Message(CERTIFICATE_VERIFY, U16(|signature|) + signature)
  }

  /** Both sides hash the master secret and the history, with no label to tell them apart. */
  function FinishedPayload(lib: Library, masterSecret: Bytes, history: Bytes): Bytes
  {
    Message(FINISHED, lib.sha256(masterSecret + history)[..VERIFY_DATA_SIZE])
  }

  const CERTIFICATE_REQUEST_PAYLOAD: Bytes := [CERTIFICATE_REQUEST, 0, 0, 0]
  const SERVER_HELLO_DONE_PAYLOAD: Bytes := [SERVER_HELLO_DONE, 0, 0, 0]
  const CHANGE_CIPHER_SPEC_PAYLOAD: Bytes := [1]

  // The messages byte by byte, including the fields that no reader looks at.

  lemma MessageBytes(kind: Byte, body: Bytes)
    ensures var p := Message(kind, body);
      && p[0] == kind && p[1] == 0 && WordAt(p, 2) == |body| % 65536 && p[4..] == body
      && FromU24(p[1..4]) == |body| % 65536
  {
    LengthBytes(|body|);
    U16Truncates(|body|);
    var p, length := Message(kind, body), U24Low(|body|);
    assert p[1] == length[0] && p[2] == length[1] && p[3] == length[2];
    assert p[1..4] == length;
  }

  lemma HelloBytes(kind: Byte, random: Bytes)
    requires |random| == RANDOM_SIZE
    ensures HelloPayload(kind, random) == [kind, 0, 0, 41, 3, 3] + random + [0, 0, 2, 0, 0x2f, 1, 0]
  {
    assert U24Low(41) == [0, 0, 41];
  }

  lemma CertificateBytes(raw: Bytes)
    ensures var p := CertificatePayload(raw);
      && |p| == 10 + |raw| && p[0] == 0x0b && p[1] == p[4] == p[7] == 0
      && WordAt(p, 2) == (|raw| + 6) % 65536
      && WordAt(p, 5) == (|raw| + 3) % 65536
      && WordAt(p, 8) == |raw| % 65536
      && p[10..] == raw
  {
    var chain, length := U24Low(|raw| + 3), U24Low(|raw|);
    var body := chain + length + raw;
    MessageBytes(CERTIFICATE, body);
    LengthBytes(|raw| + 3);
    LengthBytes(|raw|);
    hide U24Low, Message;
    var p := Message(CERTIFICATE, body);
    assert forall i | 0 <= i < |body| :: p[4 + i] == p[4..][i];
    assert body[0] == chain[0] && body[1] == chain[1] && body[2] == chain[2];
    assert body[3] == length[0] && body[4] == length[1] && body[5] == length[2];
    assert p[10..] == p[4..][6..];
  }

  lemma SizedBytes(kind: Byte, secret: Bytes)
    ensures var p := Message(kind, U16(|secret|) + secret);
      && |p| == 6 + |secret| && p[0] == kind && p[1] == 0
      && WordAt(p, 2) == (|secret| + 2) % 65536
      && WordAt(p, 4) == |secret| % 65536
      && p[6..] == secret
  {
    var size := U16(|secret|);
    MessageBytes(kind, size + secret);
    LengthBytes(|secret|);
    hide U16, Message;
    var p := Message(kind, size + secret);
    assert p[4] == p[4..][0] == size[0] && p[5] == p[4..][1] == size[1];
    assert p[6..] == p[4..][2..];
  }

  lemma KeyExchangeBytes(secret: Bytes)
    ensures var p := KeyExchangePayload(secret);
      && |p| == 6 + |secret| && p[0] == 0x10 && p[1] == 0
      && WordAt(p, 2) == (|secret| + 2) % 65536
      && WordAt(p, 4) == |secret| % 65536
      && p[6..] == secret
  {
    SizedBytes(CLIENT_KEY_EXCHANGE, secret);
  }

  lemma CertificateVerifyBytes(signature: Bytes)
    ensures var p := CertificateVerifyPayload(signature);
      && |p| == 6 + |signature| && p[0] == 0x0f && p[1] == 0
      && WordAt(p, 2) == (|signature| + 2) % 65536
      && WordAt(p, 4) == |signature| % 65536
      && p[6..] == signature
  {
    SizedBytes(CERTIFICATE_VERIFY, signature);
  }

  lemma FinishedBytes(lib: Library, masterSecret: Bytes, history: Bytes)
    ensures FinishedPayload(lib, masterSecret, history) == [0x14, 0, 0, 12] + lib.sha256(masterSecret + history)[..12]
  {
    assert U24Low(12) == [0, 0, 12];
  }

  /** A message of the given type that says how long it is. */
  predicate Headed(p: Bytes, kind: Byte)
  {
    4 <= |p| && p[0] == kind && FromU24(p[1..4]) + 4 == |p|
  }

  lemma HelloIsHeaded(kind: Byte, random: Bytes)
    requires |random| == RANDOM_SIZE
    ensures Headed(HelloPayload(kind, random), kind)
  {
    var p := HelloPayload(kind, random);
    HelloBytes(kind, random);
    assert p[1] == 0 && p[2] == 0 && p[3] == 41;
    hide HelloPayload;
    assert p[1..4] == [0, 0, 41];
  }

  lemma WordIsHeaded(p: Bytes, kind: Byte)
    requires 4 <= |p| && p[0] == kind && p[1] == 0 && WordAt(p, 2) + 4 == |p|
    ensures Headed(p, kind)
  {
    ReadersAreBigEndian(p[1..4]);
  }

  lemma LongerAreHeaded(raw: Bytes)
    ensures |raw| <= MAX_CERTIFICATE ==> Headed(CertificatePayload(raw), 0x0b)
    ensures |raw| <= MAX_SECRET ==> Headed(KeyExchangePayload(raw), 0x10) && Headed(CertificateVerifyPayload(raw), 0x0f)
  {
    hide CertificatePayload, KeyExchangePayload, CertificateVerifyPayload, WordAt, Headed;
    CertificateBytes(raw);
    KeyExchangeBytes(raw);
    CertificateVerifyBytes(raw);
    if |raw| <= MAX_CERTIFICATE {
      WordIsHeaded(CertificatePayload(raw), 0x0b);
    }
    if |raw| <= MAX_SECRET {
      WordIsHeaded(KeyExchangePayload(raw), 0x10);
      WordIsHeaded(CertificateVerifyPayload(raw), 0x0f);
    }
  }

  lemma FixedAreHeaded()
    ensures Headed(CERTIFICATE_REQUEST_PAYLOAD, 0x0d) && Headed(SERVER_HELLO_DONE_PAYLOAD, 0x0e)
  {
    assert CERTIFICATE_REQUEST_PAYLOAD[1..4] == [0, 0, 0] && SERVER_HELLO_DONE_PAYLOAD[1..4] == [0, 0, 0];
  }

  /** `onClientHello` and `onServerHello`. */
  function RandomOf(data: Bytes): Result<Bytes, Failure>
  {
    if |data| < 6 + RANDOM_SIZE then Err(Panic) else Ok(data[6..6 + RANDOM_SIZE])
  }

  /** `readCertificateFromBuffer`. */
  function CertificateOf(lib: Library, data: Bytes): Result<Certificate, Failure>
  {
    if |data| < 4 then Err(Panic)
    else if |data| < 10 then Err(InvalidPayload)
    else
      var n := FromU24(data[7..10]);
      if |data| < 10 + n then Err(Panic) else
        match lib.parseCertificate(data[10..10 + n])
        case None => Err(BadCertificate)
        case Some(key) => Ok(Certificate(data[10..10 + n], key))
  }

  /** `onClientKeyExchange` up to the decryption; the inner length is never read. */
  function EncryptedPreMasterOf(data: Bytes): Result<Bytes, Failure>
  {
    if |data| < 4 then Err(Panic)
    else if |data| < 6 then Err(InvalidPayload)
    else Ok(data[6..])
  }

  /** `onCertificateVerify` up to the verification. */
  function SignatureOf(data: Bytes): Result<Bytes, Failure>
  {
    if |data| < 4 then Err(Panic)
    else if |data| < 6 then Err(InvalidPayload)
    else
      var n := FromU16(data[4..6]);
      if |data| < 6 + n then Err(InvalidPayload) else Ok(data[6..6 + n])
  }

  // What the parsers make of any bytes, byte by byte.

  lemma RandomRead(data: Bytes, random: Bytes)
    ensures RandomOf(data) == Ok(random) <==> |data| >= 38 && random == data[6..38]
    ensures RandomOf(data).Err? ==> RandomOf(data) == Err(Panic)
  {
  }

  /** The first of the three length fields is not looked at. */
  lemma CertificateRead(lib: Library, data: Bytes, cert: Certificate)
    requires |data| >= 10
    ensures var n := 65536 * data[7] + WordAt(data, 8);
      && (CertificateOf(lib, data) == Ok(cert)
          <==> 10 + n <= |data| && cert.raw == data[10..10 + n]
               && lib.parseCertificate(cert.raw) == Some(cert.publicKey))
      && (CertificateOf(lib, data) == Err(Panic) <==> |data| < 10 + n)
      && (CertificateOf(lib, data) == Err(BadCertificate)
          <==> 10 + n <= |data| && lib.parseCertificate(data[10..10 + n]).None?)
  {
    var top: int := data[7];
    assert FromU24(data[7..10]) == 65536 * top + WordAt(data, 8);
    hide FromU24;
  }

  lemma ShortAreRejected(lib: Library, data: Bytes)
    ensures CertificateOf(lib, data) == Err(InvalidPayload) <==> 4 <= |data| < 10
    ensures EncryptedPreMasterOf(data) == Err(InvalidPayload) <==> 4 <= |data| < 6
    ensures |data| < 4 <==> EncryptedPreMasterOf(data) == Err(Panic)
    ensures |data| < 4 <==> SignatureOf(data) == Err(Panic)
    ensures |data| < 4 ==> CertificateOf(lib, data) == Err(Panic)
  {
  }

  /** Everything behind the length field, whatever it says. */
  lemma PreMasterRead(data: Bytes, secret: Bytes)
    ensures EncryptedPreMasterOf(data) == Ok(secret) <==> |data| >= 6 && secret == data[6..]
  {
  }

  /** As much as the length field says, if there is as much. */
  lemma SignatureRead(data: Bytes, signature: Bytes)
    ensures SignatureOf(data) == Ok(signature)
            <==> |data| >= 6 && 6 + WordAt(data, 4) <= |data| && signature == data[6..6 + WordAt(data, 4)]
    ensures SignatureOf(data) == Err(InvalidPayload)
            <==> |data| >= 4 && (|data| < 6 || |data| < 6 + WordAt(data, 4))
  {
    if |data| >= 6 {
      ReadersAreBigEndian(data[4..6]);
    }
    hide FromU16;
  }

  /** The body the peer's `readTLSContent` returns for a payload written to an empty connection. */
  function Received(payload: Bytes): Bytes
  {
    match Records.Read(Records.Encode(Records.Plain(Records.HANDSHAKE, payload))).0
    case Ok(r) => r.data
    case Err(_) => []
  }

  lemma ReceivedIsTruncated(payload: Bytes)
    ensures Received(payload) == payload[..Records.WireLength(|payload|)]
    ensures |payload| < Records.LENGTH_MODULUS ==> Received(payload) == payload
  {
    var s := Records.Encode(Records.Plain(Records.HANDSHAKE, payload));
    Records.ReadOfWritten(Records.HANDSHAKE, payload, []);
    assert s + [] == s;
  }

  lemma RandomTransfer(kind: Byte, random: Bytes)
    requires |random| == RANDOM_SIZE
    ensures |HelloPayload(kind, random)| == 45
    ensures RandomOf(Received(HelloPayload(kind, random))) == Ok(random)
  {
    ReceivedIsTruncated(HelloPayload(kind, random));
    assert HelloPayload(kind, random)[6..38] == random;
  }

  const MAX_CERTIFICATE := 65525
  const MAX_SECRET := 65529

  lemma CertificateLayout(raw: Bytes)
    ensures var p := CertificatePayload(raw);
      |p| == 10 + |raw| && p[7..10] == U24Low(|raw|) && p[10..] == raw
  {
    hide U24Low;
    var p, chain, length := CertificatePayload(raw), U24Low(|raw| + 3), U24Low(|raw|);
    assert p[4..] == chain + length + raw;
    hide CertificatePayload;
    assert p[7..10] == p[4..][3..6];
    assert p[10..] == p[4..][6..];
  }

  lemma CertificateParses(lib: Library, cert: Certificate)
    requires lib.parseCertificate(cert.raw) == Some(cert.publicKey) && |cert.raw| < 65536
    ensures CertificateOf(lib, CertificatePayload(cert.raw)) == Ok(cert)
  {
    hide CertificatePayload, U24Low, FromU24;
    CertificateLayout(cert.raw);
    U16Truncates(|cert.raw|);
    var p := CertificatePayload(cert.raw);
    assert p[10..10 + |cert.raw|] == p[10..];
  }

  /** A certificate crosses the 24-bit, 16-bit and record length fields unchanged exactly up to 65525 bytes. */
  lemma CertificateTransfer(lib: Library, cert: Certificate)
    requires lib.parseCertificate(cert.raw) == Some(cert.publicKey)
    ensures CertificateOf(lib, Received(CertificatePayload(cert.raw))) == Ok(cert)
            <==> |cert.raw| <= MAX_CERTIFICATE
  {
    ReceivedIsTruncated(CertificatePayload(cert.raw));
    hide Received;
    if |cert.raw| <= MAX_CERTIFICATE {
      CertificateParses(lib, cert);
    }
  }

  /** An encrypted pre-master secret is recovered exactly up to 65529 bytes. */
  lemma KeyExchangeTransfer(secret: Bytes)
    ensures EncryptedPreMasterOf(Received(KeyExchangePayload(secret))) == Ok(secret)
            <==> |secret| <= MAX_SECRET
  {
    var p := KeyExchangePayload(secret);
    ReceivedIsTruncated(p);
    hide Received;
    assert p[6..] == p[4..][2..] == secret;
  }

  lemma SignatureIsShorter(data: Bytes)
    ensures SignatureOf(data).Ok? ==> |SignatureOf(data).value| + 6 <= |data|
  {
  }

  lemma SignatureParses(signature: Bytes)
    requires |signature| < 65536
    ensures SignatureOf(CertificateVerifyPayload(signature)) == Ok(signature)
  {
    var p, length := CertificateVerifyPayload(signature), U16(|signature|);
    U16Truncates(|signature|);
    assert p[4..] == length + signature;
    hide U16, CertificateVerifyPayload;
    assert p[4..6] == p[4..][..2] == length;
    assert p[6..6 + |signature|] == p[4..][2..] == signature;
  }

  /** A signature is recovered exactly up to 65529 bytes, although its own length is read this time. */
  lemma SignatureTransfer(signature: Bytes)
    ensures SignatureOf(Received(CertificateVerifyPayload(signature))) == Ok(signature)
            <==> |signature| <= MAX_SECRET
  {
    var p := CertificateVerifyPayload(signature);
    assert |p| == 6 + |signature|;
    ReceivedIsTruncated(p);
    SignatureIsShorter(Received(p));
    hide Received, SignatureOf;
    if |signature| <= MAX_SECRET {
      SignatureParses(signature);
    } else {
      assert |Received(p)| < |p|;
    }
  }
}
