/** The transcript an honest client and an honest server agree on, and each side's state after every message. */
module HonestRun {
  import opened Wrappers
  import opened ByteSeqs
  import opened Crypto
  import opened Payloads
  import opened Endpoint
  import C = ClientMachine
  import S = ServerMachine
  import Cbc
  import Prf
  import Records

  datatype Config = Config(
    clientCertificate: Certificate, clientKey: PrivateKey, clientCoins: C.Coins,
    serverCertificate: Certificate, serverKey: PrivateKey, serverCoins: S.Coins)

  /** The twelve records of a handshake, in order; the first eight are plaintext handshake messages. */
  const LENGTH := 12
  const PLAIN := 8

  predicate ClientSends(k: nat)
  {
    k == 0 || 5 <= k <= 9
  }

  function OrEmpty(b: Option<Bytes>): Bytes
  {
    match b
    case None => []
    case Some(v) => v
  }

  function EncryptedPreMaster(lib: Library, cfg: Config): Option<Bytes>
  {
    lib.rsaEncrypt(lib.publicOf(cfg.serverKey), cfg.clientCoins.padding, C.PreMasterSecret(cfg.clientCoins))
  }

  function Signature(lib: Library, cfg: Config): Option<Bytes>
  {
    lib.sign(cfg.clientKey, lib.sha256(History(lib, cfg, 7)))
  }

  function Payload(lib: Library, cfg: Config, k: nat): Bytes
    requires k < PLAIN
    decreases k, 1
  {
    match k
    case 0 => HelloPayload(CLIENT_HELLO, cfg.clientCoins.random)
    case 1 => HelloPayload(SERVER_HELLO, cfg.serverCoins.random)
    case 2 => CertificatePayload(cfg.serverCertificate.raw)
    case 3 => CERTIFICATE_REQUEST_PAYLOAD
    case 4 => SERVER_HELLO_DONE_PAYLOAD
    case 5 => CertificatePayload(cfg.clientCertificate.raw)
    case 6 => KeyExchangePayload(OrEmpty(EncryptedPreMaster(lib, cfg)))
    case _ => CertificateVerifyPayload(OrEmpty(lib.sign(cfg.clientKey, lib.sha256(History(lib, cfg, k)))))
  }

  /** The concatenated payloads of the first `k` plaintext messages. */
  function History(lib: Library, cfg: Config, k: nat): Bytes
    requires k <= PLAIN
    decreases k, 0
  {
    if k == 0 then [] else History(lib, cfg, k - 1) + Payload(lib, cfg, k - 1)
  }

  function Master(lib: Library, cfg: Config): Bytes
  {
    Prf.MasterSecret(lib, cfg.clientCoins.random, cfg.serverCoins.random, C.PreMasterSecret(cfg.clientCoins))
  }

  function SharedBlock(lib: Library, cfg: Config): (r: Bytes)
    ensures |r| == KEY_BLOCK_SIZE
  {
    Prf.Output(lib, Master(lib, cfg),
               Prf.KEY_EXPANSION_LABEL + cfg.serverCoins.random + cfg.clientCoins.random, KEY_BLOCK_SIZE)
  }

  function Keys(lib: Library, cfg: Config, isServer: bool): KeyMaterial
  {
    var b := SharedBlock(lib, cfg);
    KeyMaterial(b[0..20], b[20..40], b[40..56], b[56..72], b[72..88], b[88..104],
                if isServer then b[56..72] else b[40..56],
                if isServer then b[40..56] else b[56..72])
  }

  function FinishedBody(lib: Library, cfg: Config, isServer: bool): Bytes
  {
    Cbc.Encrypt(lib, Keys(lib, cfg, isServer).encryptKey,
                if isServer then cfg.serverCoins.iv else cfg.clientCoins.iv,
                FinishedPayload(lib, Master(lib, cfg), History(lib, cfg, PLAIN)))
  }

  /** The `k`th record of the handshake. */
  function RecordAt(lib: Library, cfg: Config, k: nat): Records.Record
    requires k < LENGTH
  {
    if k < PLAIN then Records.Plain(Records.HANDSHAKE, Payload(lib, cfg, k))
    else if k == 8 || k == 10 then Records.Plain(Records.CHANGE_CIPHER_SPEC, CHANGE_CIPHER_SPEC_PAYLOAD)
    else Records.Plain(Records.HANDSHAKE, FinishedBody(lib, cfg, k == 11))
  }

  /**
   An honest pair: certificates that parse to themselves and belong to the
   private keys, RSA operations that succeed, and payloads within the framing bounds.
   */
  ghost predicate Honest(lib: Library, cfg: Config)
  {
    && lib.parseCertificate(cfg.clientCertificate.raw) == Some(cfg.clientCertificate.publicKey)
    && lib.parseCertificate(cfg.serverCertificate.raw) == Some(cfg.serverCertificate.publicKey)
    && cfg.clientCertificate.publicKey == Rsa(lib.publicOf(cfg.clientKey))
    && cfg.serverCertificate.publicKey == Rsa(lib.publicOf(cfg.serverKey))
    && |cfg.clientCertificate.raw| <= MAX_CERTIFICATE
    && |cfg.serverCertificate.raw| <= MAX_CERTIFICATE
    && EncryptedPreMaster(lib, cfg).Some? && |EncryptedPreMaster(lib, cfg).value| <= MAX_SECRET
    && Signature(lib, cfg).Some? && |Signature(lib, cfg).value| <= MAX_SECRET
  }

  function Min(a: nat, b: nat): nat
  {
    if a < b then a else b
  }

  function ClientPcAt(i: nat): C.Pc
  {
    match i
    case 0 => C.SendingHello
    case 1 | 2 | 3 | 4 => C.ReceivingServerMessages
    case 5 => C.SendingCertificate
    case 6 => C.SendingKeyExchange
    case 7 => C.SendingCertificateVerify
    case 8 => C.SendingChangeCipherSpec
    case 9 => C.SendingFinished
    case 10 => C.ReceivingChangeCipherSpec
    case 11 => C.ReceivingFinished
    case _ => C.Done
  }

  /** The client after the first `i` records, sent or received. */
  function ClientAt(lib: Library, cfg: Config, i: nat): C.Client
    requires i <= LENGTH
  {
    C.Client(
      ClientPcAt(i),
      State(
        cfg.clientCertificate,
        cfg.clientKey,
        if i < 3 then None else Some(cfg.serverCertificate),
        if i < 1 then [] else cfg.clientCoins.random,
        if i < 2 then [] else cfg.serverCoins.random,
        if i < 9 then [] else Master(lib, cfg),
        if i < 9 then None else Some(Keys(lib, cfg, false)),
        History(lib, cfg, Min(i, PLAIN))),
      if i < 7 then [] else C.PreMasterSecret(cfg.clientCoins))
  }

  function ServerPcAt(j: nat): S.Pc
  {
    match j
    case 0 => S.ReceivingHello
    case 1 => S.SendingHello
    case 2 => S.SendingCertificate
    case 3 => S.SendingCertificateRequest
    case 4 => S.SendingHelloDone
    case 5 => S.ReceivingCertificate
    case 6 => S.ReceivingKeyExchange
    case 7 => S.ReceivingCertificateVerify
    case 8 => S.ReceivingChangeCipherSpec
    case 9 => S.ReceivingFinished
    case 10 => S.SendingChangeCipherSpec
    case 11 => S.SendingFinished
    case _ => S.Done
  }

  /** The server after the first `j` records. */
  function ServerAt(lib: Library, cfg: Config, j: nat): S.Server
    requires j <= LENGTH
  {
    S.Server(
      ServerPcAt(j),
      State(
        cfg.serverCertificate,
        cfg.serverKey,
        if j < 6 then None else Some(cfg.clientCertificate),
        if j < 1 then [] else cfg.clientCoins.random,
        if j < 2 then [] else cfg.serverCoins.random,
        if j < 8 then [] else Master(lib, cfg),
        if j < 8 then None else Some(Keys(lib, cfg, true)),
        History(lib, cfg, Min(j, PLAIN))),
      if j < 7 then [] else C.PreMasterSecret(cfg.clientCoins))
  }

  /** The client waits exactly for the records the server sends. */
  lemma ClientControl(lib: Library, cfg: Config, i: nat)
    requires i <= LENGTH
    ensures var pc := ClientAt(lib, cfg, i).pc;
      && (C.Halted(pc) <==> i == LENGTH) && !pc.Failed?
      && (C.Receives(pc) <==> i < LENGTH && !ClientSends(i))
      && (pc.ReceivingFinished? <==> i == 11)
    ensures ClientAt(lib, cfg, i).st.history == History(lib, cfg, Min(i, PLAIN))
  {
    hide History, Master, Keys;
  }

  /** The server waits exactly for the records the client sends. */
  lemma ServerControl(lib: Library, cfg: Config, j: nat)
    requires j <= LENGTH
    ensures var pc := ServerAt(lib, cfg, j).pc;
      && (S.Halted(pc) <==> j == LENGTH) && !pc.Failed?
      && (S.Receives(pc) <==> j < LENGTH && ClientSends(j))
      && (pc.ReceivingFinished? <==> j == 9)
    ensures ServerAt(lib, cfg, j).st.history == History(lib, cfg, Min(j, PLAIN))
  {
    hide History, Master, Keys;
  }

  lemma PayloadFits(lib: Library, cfg: Config, k: nat)
    requires Honest(lib, cfg) && k < PLAIN
    ensures |Payload(lib, cfg, k)| < Records.LENGTH_MODULUS
  {
    hide History, C.PreMasterSecret;
    if k == 0 {
      RandomTransfer(CLIENT_HELLO, cfg.clientCoins.random);
    } else if k == 1 {
      RandomTransfer(SERVER_HELLO, cfg.serverCoins.random);
    }
  }

  lemma RecordFits(lib: Library, cfg: Config, k: nat)
    requires Honest(lib, cfg) && k < LENGTH
    ensures Records.Fits(RecordAt(lib, cfg, k))
  {
    hide History, Payload, Master, Keys, Cbc.Encrypt;
    if k < PLAIN {
      PayloadFits(lib, cfg, k);
    }
  }

  /** What is left of the incoming bytes once record `k` has been read off the front. */
  lemma ReadRecord(lib: Library, cfg: Config, k: nat, rest: Bytes)
    requires Honest(lib, cfg) && k < LENGTH
    ensures Records.Read(Records.Encode(RecordAt(lib, cfg, k)) + rest) == (Ok(RecordAt(lib, cfg, k)), rest)
  {
    RecordFits(lib, cfg, k);
    hide RecordAt;
    Records.ReadCharacterised(Records.Encode(RecordAt(lib, cfg, k)) + rest, RecordAt(lib, cfg, k), rest);
  }

  /** Every plaintext message starts with its type and says how long it is. */
  lemma PayloadIsHeaded(lib: Library, cfg: Config, k: nat)
    requires Honest(lib, cfg) && k < PLAIN
    ensures Headed(Payload(lib, cfg, k), [0x01, 0x02, 0x0b, 0x0d, 0x0e, 0x0b, 0x10, 0x0f][k])
  {
    hide History, C.PreMasterSecret, HelloPayload, CertificatePayload, KeyExchangePayload, CertificateVerifyPayload,
        Headed;
    match k
    case 0 => HelloIsHeaded(CLIENT_HELLO, cfg.clientCoins.random);
    case 1 => HelloIsHeaded(SERVER_HELLO, cfg.serverCoins.random);
    case 2 => LongerAreHeaded(cfg.serverCertificate.raw);
    case 3 => FixedAreHeaded();
    case 4 => FixedAreHeaded();
    case 5 => LongerAreHeaded(cfg.clientCertificate.raw);
    case 6 => LongerAreHeaded(EncryptedPreMaster(lib, cfg).value);
    case 7 => LongerAreHeaded(Signature(lib, cfg).value);
  }

  lemma FinishedSize(lib: Library, cfg: Config, isServer: bool)
    ensures |FinishedBody(lib, cfg, isServer)| == 48
  {
    hide Master, History, Keys, FinishedPayload;
    FinishedBytes(lib, Master(lib, cfg), History(lib, cfg, PLAIN));
    hide Cbc.Encrypt;
  }

  /** Every record of the handshake on the wire. */
  lemma RecordBytes(lib: Library, cfg: Config, k: nat)
    requires Honest(lib, cfg) && k < LENGTH
    ensures var r, s := RecordAt(lib, cfg, k), Records.Encode(RecordAt(lib, cfg, k));
      && |s| == 5 + |r.data| && s[..3] == [if k == 8 || k == 10 then 0x14 else 0x16, 3, 3]
      && WordAt(s, 3) == |r.data| && s[5..] == r.data
      && (k == 8 || k == 10 ==> r.data == [1])
      && (k == 9 || k == 11 ==> |r.data| == 48)
  {
    hide Payload, Records.Encode, FinishedBody, Honest, WordAt;
    RecordFits(lib, cfg, k);
    FinishedSize(lib, cfg, k == 11);
    var r := RecordAt(lib, cfg, k);
    Records.EncodedBytes(r.kind, r.data);
  }

  /** The other side decrypts each Finished record to the same Finished payload. */
  lemma FinishedDecrypts(lib: Library, cfg: Config, isServer: bool)
    ensures Cbc.Decrypt(lib, Keys(lib, cfg, !isServer).decryptKey, FinishedBody(lib, cfg, isServer))
            == Ok([0x14, 0, 0, 12] + lib.sha256(Master(lib, cfg) + History(lib, cfg, PLAIN))[..12])
    ensures Cbc.Decrypt(lib, Keys(lib, cfg, !isServer).decryptKey, FinishedBody(lib, cfg, isServer))
            == Ok(FinishedPayload(lib, Master(lib, cfg), History(lib, cfg, PLAIN)))
  {
    hide History, Master, FinishedPayload;
    FinishedBytes(lib, Master(lib, cfg), History(lib, cfg, PLAIN));
    Cbc.RoundTrip(lib, Keys(lib, cfg, isServer).encryptKey,
                  if isServer then cfg.serverCoins.iv else cfg.clientCoins.iv,
                  FinishedPayload(lib, Master(lib, cfg), History(lib, cfg, PLAIN)));
  }

  /** Either side derives the shared secrets from the two randoms and the pre-master secret. */
  lemma DerivationAgrees(lib: Library, cfg: Config, st: State, isServer: bool)
    requires st.clientRandom == cfg.clientCoins.random && st.serverRandom == cfg.serverCoins.random
    ensures DeriveSecrets(lib, st, C.PreMasterSecret(cfg.clientCoins), isServer)
            == st.(masterSecret := Master(lib, cfg), keys := Some(Keys(lib, cfg, isServer)))
  {
    assert Prf.MasterSecret(lib, st.clientRandom, st.serverRandom, C.PreMasterSecret(cfg.clientCoins))
        == Master(lib, cfg);
  }

  /** The wire once record `k` has been written to it. */
  function Sent(lib: Library, cfg: Config, k: nat, w: Wire): Wire
    requires k < LENGTH
  {
    w.(outgoing := w.outgoing + Records.Encode(RecordAt(lib, cfg, k)))
  }

  /** A wire whose next record is number `k`. */
  function Arrived(lib: Library, cfg: Config, k: nat, rest: Wire): Wire
    requires k < LENGTH
  {
    rest.(incoming := Records.Encode(RecordAt(lib, cfg, k)) + rest.incoming)
  }

  lemma ClientSendsHello(lib: Library, cfg: Config, i: nat, w: Wire)
    requires Honest(lib, cfg) && i == 0
    ensures C.SendHello(cfg.clientCoins, ClientAt(lib, cfg, i), w) == (ClientAt(lib, cfg, i + 1), Sent(lib, cfg, i, w))
  {
    hide Records.Encode, Master, Keys, HelloPayload;
    assert History(lib, cfg, i + 1) == [] + Payload(lib, cfg, i);
  }

  lemma ClientSendsCertificate(lib: Library, cfg: Config, i: nat, w: Wire)
    requires Honest(lib, cfg) && i == 5
    ensures C.SendCertificate(ClientAt(lib, cfg, i), w) == (ClientAt(lib, cfg, i + 1), Sent(lib, cfg, i, w))
  {
    hide Records.Encode, Master, Keys, CertificatePayload;
  }

  lemma ClientSendsKeyExchange(lib: Library, cfg: Config, i: nat, w: Wire)
    requires Honest(lib, cfg) && i == 6
    ensures C.SendKeyExchange(lib, cfg.clientCoins, ClientAt(lib, cfg, i), w)
            == (ClientAt(lib, cfg, i + 1), Sent(lib, cfg, i, w))
  {
    hide Records.Encode, Master, Keys, KeyExchangePayload, C.PreMasterSecret;
  }

  lemma ClientSendsCertificateVerify(lib: Library, cfg: Config, i: nat, w: Wire)
    requires Honest(lib, cfg) && i == 7
    ensures C.SendCertificateVerify(lib, ClientAt(lib, cfg, i), w) == (ClientAt(lib, cfg, i + 1), Sent(lib, cfg, i, w))
  {
    hide Records.Encode, Master, Keys, CertificateVerifyPayload;
  }

  lemma ClientSendsChangeCipherSpec(lib: Library, cfg: Config, i: nat, w: Wire)
    requires Honest(lib, cfg) && i == 8
    ensures C.SendChangeCipherSpec(lib, ClientAt(lib, cfg, i), w) == (ClientAt(lib, cfg, i + 1), Sent(lib, cfg, i, w))
  {
    hide Records.Encode, Master, Keys, History, Payload, DeriveSecrets;
    DerivationAgrees(lib, cfg, ClientAt(lib, cfg, i).st, false);
  }

  lemma ClientSendsFinished(lib: Library, cfg: Config, i: nat, w: Wire)
    requires Honest(lib, cfg) && i == 9
    ensures C.SendFinishedRecord(lib, cfg.clientCoins, ClientAt(lib, cfg, i), w)
            == (ClientAt(lib, cfg, i + 1), Sent(lib, cfg, i, w))
  {
    hide Records.Encode, Master, Keys, History, Payload, FinishedPayload, Cbc.Encrypt;
  }

  lemma ClientReceivesHello(lib: Library, cfg: Config, i: nat, rest: Wire)
    requires Honest(lib, cfg) && i == 1
    ensures C.ReceiveServerMessage(lib, ClientAt(lib, cfg, i), Arrived(lib, cfg, i, rest))
            == (ClientAt(lib, cfg, i + 1), rest)
  {
    hide Records.Encode, Records.Read, Master, Keys;
    ReadRecord(lib, cfg, i, rest.incoming);
    RandomTransfer(SERVER_HELLO, cfg.serverCoins.random);
    ReceivedIsTruncated(Payload(lib, cfg, i));
    assert Payload(lib, cfg, i)[0] == SERVER_HELLO;
    hide HelloPayload, RandomOf;
  }

  lemma ClientReceivesCertificate(lib: Library, cfg: Config, i: nat, rest: Wire)
    requires Honest(lib, cfg) && i == 2
    ensures C.ReceiveServerMessage(lib, ClientAt(lib, cfg, i), Arrived(lib, cfg, i, rest))
            == (ClientAt(lib, cfg, i + 1), rest)
  {
    hide Records.Encode, Records.Read, Master, Keys;
    ReadRecord(lib, cfg, i, rest.incoming);
    CertificateParses(lib, cfg.serverCertificate);
    assert Payload(lib, cfg, i)[0] == CERTIFICATE;
    hide CertificatePayload, CertificateOf;
  }

  lemma ClientReceivesRequest(lib: Library, cfg: Config, i: nat, rest: Wire)
    requires Honest(lib, cfg) && i == 3
    ensures C.ReceiveServerMessage(lib, ClientAt(lib, cfg, i), Arrived(lib, cfg, i, rest))
            == (ClientAt(lib, cfg, i + 1), rest)
  {
    hide Records.Encode, Records.Read, Master, Keys, RandomOf, CertificateOf;
    ReadRecord(lib, cfg, i, rest.incoming);
  }

  lemma ClientReceivesDone(lib: Library, cfg: Config, i: nat, rest: Wire)
    requires Honest(lib, cfg) && i == 4
    ensures C.ReceiveServerMessage(lib, ClientAt(lib, cfg, i), Arrived(lib, cfg, i, rest))
            == (ClientAt(lib, cfg, i + 1), rest)
  {
    hide Records.Encode, Records.Read, Master, Keys, RandomOf, CertificateOf;
    ReadRecord(lib, cfg, i, rest.incoming);
  }

  lemma ClientReceivesChangeCipherSpec(lib: Library, cfg: Config, i: nat, rest: Wire)
    requires Honest(lib, cfg) && i == 10
    ensures C.ReceiveChangeCipherSpec(ClientAt(lib, cfg, i), Arrived(lib, cfg, i, rest))
            == (ClientAt(lib, cfg, i + 1), rest)
  {
    hide Records.Encode, Records.Read, Master, Keys, History, Payload;
    ReadRecord(lib, cfg, i, rest.incoming);
  }

  lemma ClientReceivesFinished(lib: Library, cfg: Config, i: nat, rest: Wire)
    requires Honest(lib, cfg) && i == 11
    ensures C.ReceiveFinishedRecord(lib, ClientAt(lib, cfg, i), Arrived(lib, cfg, i, rest))
            == (ClientAt(lib, cfg, i + 1), rest)
  {
    hide Records.Encode, Records.Read, Master, Keys, History, Payload, FinishedBody, Cbc.Decrypt;
    ReadRecord(lib, cfg, i, rest.incoming);
    FinishedDecrypts(lib, cfg, true);
  }

  lemma ServerSendsHello(lib: Library, cfg: Config, j: nat, w: Wire)
    requires Honest(lib, cfg) && j == 1
    ensures S.SendHello(cfg.serverCoins, ServerAt(lib, cfg, j), w) == (ServerAt(lib, cfg, j + 1), Sent(lib, cfg, j, w))
  {
    hide Records.Encode, Master, Keys, HelloPayload;
  }

  lemma ServerSendsCertificate(lib: Library, cfg: Config, j: nat, w: Wire)
    requires Honest(lib, cfg) && j == 2
    ensures S.SendCertificate(ServerAt(lib, cfg, j), w) == (ServerAt(lib, cfg, j + 1), Sent(lib, cfg, j, w))
  {
    hide Records.Encode, Master, Keys, CertificatePayload;
  }

  lemma ServerSendsRequest(lib: Library, cfg: Config, j: nat, w: Wire)
    requires Honest(lib, cfg) && j == 3
    ensures S.SendCertificateRequest(ServerAt(lib, cfg, j), w) == (ServerAt(lib, cfg, j + 1), Sent(lib, cfg, j, w))
  {
    hide Records.Encode, Master, Keys;
  }

  lemma ServerSendsDone(lib: Library, cfg: Config, j: nat, w: Wire)
    requires Honest(lib, cfg) && j == 4
    ensures S.SendHelloDone(ServerAt(lib, cfg, j), w) == (ServerAt(lib, cfg, j + 1), Sent(lib, cfg, j, w))
  {
    hide Records.Encode, Master, Keys;
  }

  lemma ServerSendsChangeCipherSpec(lib: Library, cfg: Config, j: nat, w: Wire)
    requires Honest(lib, cfg) && j == 10
    ensures S.SendChangeCipherSpec(ServerAt(lib, cfg, j), w) == (ServerAt(lib, cfg, j + 1), Sent(lib, cfg, j, w))
  {
    hide Records.Encode, Master, Keys, History, Payload;
  }

  lemma ServerSendsFinished(lib: Library, cfg: Config, j: nat, w: Wire)
    requires Honest(lib, cfg) && j == 11
    ensures S.SendFinishedRecord(lib, cfg.serverCoins, ServerAt(lib, cfg, j), w)
            == (ServerAt(lib, cfg, j + 1), Sent(lib, cfg, j, w))
  {
    hide Records.Encode, Master, Keys, History, Payload, FinishedPayload, Cbc.Encrypt;
  }

  lemma ServerReceivesHello(lib: Library, cfg: Config, j: nat, rest: Wire)
    requires Honest(lib, cfg) && j == 0
    ensures S.ReceiveHello(ServerAt(lib, cfg, j), Arrived(lib, cfg, j, rest)) == (ServerAt(lib, cfg, j + 1), rest)
  {
    hide Records.Encode, Records.Read, Master, Keys;
    ReadRecord(lib, cfg, j, rest.incoming);
    RandomTransfer(CLIENT_HELLO, cfg.clientCoins.random);
    ReceivedIsTruncated(Payload(lib, cfg, j));
    assert Payload(lib, cfg, j)[0] == CLIENT_HELLO;
    hide HelloPayload, RandomOf;
    assert History(lib, cfg, j + 1) == [] + Payload(lib, cfg, j);
  }

  lemma ServerReceivesCertificate(lib: Library, cfg: Config, j: nat, rest: Wire)
    requires Honest(lib, cfg) && j == 5
    ensures S.ReceiveCertificate(lib, ServerAt(lib, cfg, j), Arrived(lib, cfg, j, rest))
            == (ServerAt(lib, cfg, j + 1), rest)
  {
    hide Records.Encode, Records.Read, Master, Keys;
    ReadRecord(lib, cfg, j, rest.incoming);
    CertificateParses(lib, cfg.clientCertificate);
    assert Payload(lib, cfg, j)[0] == CERTIFICATE;
    hide CertificatePayload, CertificateOf;
  }

  lemma ServerReceivesKeyExchange(lib: Library, cfg: Config, j: nat, rest: Wire)
    requires Honest(lib, cfg) && j == 6
    ensures S.ReceiveKeyExchange(lib, ServerAt(lib, cfg, j), Arrived(lib, cfg, j, rest))
            == (ServerAt(lib, cfg, j + 1), rest)
  {
    hide Records.Encode, Records.Read, Master, Keys, C.PreMasterSecret;
    ReadRecord(lib, cfg, j, rest.incoming);
    var secret := EncryptedPreMaster(lib, cfg).value;
    KeyExchangeTransfer(secret);
    ReceivedIsTruncated(KeyExchangePayload(secret));
    assert Payload(lib, cfg, j)[0] == CLIENT_KEY_EXCHANGE;
    hide KeyExchangePayload, EncryptedPreMasterOf;
  }

  /** The transcript the server checks is the one the client signed. */
  lemma ServerReceivesVerify(lib: Library, cfg: Config, j: nat, rest: Wire)
    requires Honest(lib, cfg) && j == 7
    ensures S.ReceiveCertificateVerify(lib, ServerAt(lib, cfg, j), Arrived(lib, cfg, j, rest))
            == (ServerAt(lib, cfg, j + 1), rest)
  {
    hide Records.Encode, Records.Read, Master, Keys, DeriveSecrets;
    ReadRecord(lib, cfg, j, rest.incoming);
    var signature := Signature(lib, cfg).value;
    SignatureTransfer(signature);
    ReceivedIsTruncated(CertificateVerifyPayload(signature));
    assert Payload(lib, cfg, j)[0] == CERTIFICATE_VERIFY;
    hide CertificateVerifyPayload, SignatureOf;
    DerivationAgrees(lib, cfg, Append(ServerAt(lib, cfg, j).st, Payload(lib, cfg, j)), true);
  }

  lemma ServerReceivesChangeCipherSpec(lib: Library, cfg: Config, j: nat, rest: Wire)
    requires Honest(lib, cfg) && j == 8
    ensures S.ReceiveChangeCipherSpec(ServerAt(lib, cfg, j), Arrived(lib, cfg, j, rest))
            == (ServerAt(lib, cfg, j + 1), rest)
  {
    hide Records.Encode, Records.Read, Master, Keys, History, Payload;
    ReadRecord(lib, cfg, j, rest.incoming);
  }

  lemma ServerReceivesFinished(lib: Library, cfg: Config, j: nat, rest: Wire)
    requires Honest(lib, cfg) && j == 9
    ensures S.ReceiveFinishedRecord(lib, ServerAt(lib, cfg, j), Arrived(lib, cfg, j, rest))
            == (ServerAt(lib, cfg, j + 1), rest)
  {
    hide Records.Encode, Records.Read, Master, Keys, History, Payload, FinishedBody, Cbc.Decrypt;
    ReadRecord(lib, cfg, j, rest.incoming);
    FinishedDecrypts(lib, cfg, false);
  }

  /** Where the client sends, one step of its controller writes exactly record `i`. */
  lemma ClientSendStep(lib: Library, cfg: Config, i: nat, w: Wire)
    requires Honest(lib, cfg) && i < LENGTH && ClientSends(i)
    ensures C.Step(lib, cfg.clientCoins, ClientAt(lib, cfg, i), w) == (ClientAt(lib, cfg, i + 1), Sent(lib, cfg, i, w))
  {
    hide History, Master, Keys, Sent, Arrived, C.SendHello, C.ReceiveServerMessage, C.SendCertificate,
        C.SendKeyExchange,
         C.SendCertificateVerify, C.SendChangeCipherSpec, C.SendFinishedRecord, C.ReceiveChangeCipherSpec,
         C.ReceiveFinishedRecord;
    match i
    case 0 => ClientSendsHello(lib, cfg, i, w);
    case 5 => ClientSendsCertificate(lib, cfg, i, w);
    case 6 => ClientSendsKeyExchange(lib, cfg, i, w);
    case 7 => ClientSendsCertificateVerify(lib, cfg, i, w);
    case 8 => ClientSendsChangeCipherSpec(lib, cfg, i, w);
    case 9 => ClientSendsFinished(lib, cfg, i, w);
  }

  /** Where the client receives, one step of its controller accepts record `i` and leaves the rest unread. */
  lemma ClientReceiveStep(lib: Library, cfg: Config, i: nat, rest: Wire)
    requires Honest(lib, cfg) && i < LENGTH && !ClientSends(i)
    ensures C.Step(lib, cfg.clientCoins, ClientAt(lib, cfg, i), Arrived(lib, cfg, i, rest))
            == (ClientAt(lib, cfg, i + 1), rest)
  {
    hide History, Master, Keys, Sent, Arrived, C.SendHello, C.ReceiveServerMessage, C.SendCertificate,
        C.SendKeyExchange,
         C.SendCertificateVerify, C.SendChangeCipherSpec, C.SendFinishedRecord, C.ReceiveChangeCipherSpec,
         C.ReceiveFinishedRecord;
    match i
    case 1 => ClientReceivesHello(lib, cfg, i, rest);
    case 2 => ClientReceivesCertificate(lib, cfg, i, rest);
    case 3 => ClientReceivesRequest(lib, cfg, i, rest);
    case 4 => ClientReceivesDone(lib, cfg, i, rest);
    case 10 => ClientReceivesChangeCipherSpec(lib, cfg, i, rest);
    case 11 => ClientReceivesFinished(lib, cfg, i, rest);
  }

  /** Where the server sends, one step of its controller writes exactly record `j`. */
  lemma ServerSendStep(lib: Library, cfg: Config, j: nat, w: Wire)
    requires Honest(lib, cfg) && j < LENGTH && !ClientSends(j)
    ensures S.Step(lib, cfg.serverCoins, ServerAt(lib, cfg, j), w) == (ServerAt(lib, cfg, j + 1), Sent(lib, cfg, j, w))
  {
    hide History, Master, Keys, Sent, Arrived, S.ReceiveHello, S.SendHello, S.SendCertificate, S.SendCertificateRequest,
         S.SendHelloDone, S.ReceiveCertificate, S.ReceiveKeyExchange, S.ReceiveCertificateVerify,
         S.ReceiveChangeCipherSpec, S.ReceiveFinishedRecord, S.SendChangeCipherSpec, S.SendFinishedRecord;
    match j
    case 1 => ServerSendsHello(lib, cfg, j, w);
    case 2 => ServerSendsCertificate(lib, cfg, j, w);
    case 3 => ServerSendsRequest(lib, cfg, j, w);
    case 4 => ServerSendsDone(lib, cfg, j, w);
    case 10 => ServerSendsChangeCipherSpec(lib, cfg, j, w);
    case 11 => ServerSendsFinished(lib, cfg, j, w);
  }

  /** Where the server receives, one step of its controller accepts record `j` and leaves the rest unread. */
  lemma ServerReceiveStep(lib: Library, cfg: Config, j: nat, rest: Wire)
    requires Honest(lib, cfg) && j < LENGTH && ClientSends(j)
    ensures S.Step(lib, cfg.serverCoins, ServerAt(lib, cfg, j), Arrived(lib, cfg, j, rest))
            == (ServerAt(lib, cfg, j + 1), rest)
  {
    hide History, Master, Keys, Sent, Arrived, S.ReceiveHello, S.SendHello, S.SendCertificate, S.SendCertificateRequest,
         S.SendHelloDone, S.ReceiveCertificate, S.ReceiveKeyExchange, S.ReceiveCertificateVerify,
         S.ReceiveChangeCipherSpec, S.ReceiveFinishedRecord, S.SendChangeCipherSpec, S.SendFinishedRecord;
    match j
    case 0 => ServerReceivesHello(lib, cfg, j, rest);
    case 5 => ServerReceivesCertificate(lib, cfg, j, rest);
    case 6 => ServerReceivesKeyExchange(lib, cfg, j, rest);
    case 7 => ServerReceivesVerify(lib, cfg, j, rest);
    case 8 => ServerReceivesChangeCipherSpec(lib, cfg, j, rest);
    case 9 => ServerReceivesFinished(lib, cfg, j, rest);
  }
}
