/** The client's handshake controller, one record at a time. */
module ClientMachine {
  import opened Wrappers
  import opened ByteSeqs
  import opened Crypto
  import opened Payloads
  import opened Endpoint
  import Records

  datatype Pc =
    | SendingHello
    | ReceivingServerMessages
    | SendingCertificate
    | SendingKeyExchange
    | SendingCertificateVerify
    | SendingChangeCipherSpec
    | SendingFinished
    | ReceivingChangeCipherSpec
    | ReceivingFinished
    | Done
    | Failed(failure: Failure)

  /** The random bytes the client draws during one handshake. */
  datatype Coins = Coins(random: Random, preMaster: PreMasterRandom, padding: Bytes, iv: Block)

  datatype Client = Client(pc: Pc, st: State, preMaster: Bytes)

  function Start(certificate: Certificate, privateKey: PrivateKey): Client
  {
    Client(SendingHello, NewConnection(certificate, privateKey), [])
  }

  /** The 48-byte pre-master secret: the protocol version, then 46 random bytes. */
  function PreMasterSecret(coins: Coins): (r: Bytes)
    ensures |r| == 48 && r[0] == 3 && r[1] == 3 && r[2..] == coins.preMaster
  {
    [Records.MAJOR, Records.MINOR] + coins.preMaster
  }

  function Fail(s: Client, st: State, e: Failure): Client
  {
    s.(pc := Failed(e), st := st)
  }

  /** Writes a plaintext handshake payload and appends it to the history. */
  function SendPlain(s: Client, payload: Bytes, next: Pc, w: Wire): (Client, Wire)
  {
    (s.(pc := next, st := Append(s.st, payload)), Send(w, Records.HANDSHAKE, payload))
  }

  /** The effect of one message of the server's flight; the history grows before anything is parsed. */
  function OnServerMessage(lib: Library, st: State, data: Bytes): (State, Option<Failure>)
  {
    var st' := Append(st, data);
    if data == [] then (st', Some(Panic))
    else if data[0] == SERVER_HELLO then
      match RandomOf(data)
      case Ok(random) => (st'.(serverRandom := random), None)
      case Err(e) => (st', Some(e))
    else if data[0] == CERTIFICATE then
      match CertificateOf(lib, data)
      case Ok(cert) => (st'.(remote := Some(cert)), None)
      case Err(e) => (st', Some(e))
    else if data[0] == CERTIFICATE_REQUEST || data[0] == SERVER_HELLO_DONE then (st', None)
    else (st', Some(UnexpectedHandshakeType))
  }

  function SendHello(coins: Coins, s: Client, w: Wire): (Client, Wire)
  {
    var (s', w') := SendPlain(s, HelloPayload(CLIENT_HELLO, coins.random), ReceivingServerMessages, w);
    (s'.(st := s'.st.(clientRandom := coins.random)), w')
  }

  /** One turn of the receive loop. */
  function ReceiveServerMessage(lib: Library, s: Client, w: Wire): (Client, Wire)
  {
    match ReceiveKind(w, Records.HANDSHAKE)
    case (Err(e), w') => (Fail(s, s.st, e), w')
    case (Ok(data), w') =>
      match OnServerMessage(lib, s.st, data)
      case (st, Some(e)) => (Fail(s, st, e), w')
      case (st, None) =>
        (s.(pc := if data[0] == SERVER_HELLO_DONE then SendingCertificate else s.pc, st := st), w')
  }

  function SendCertificate(s: Client, w: Wire): (Client, Wire)
  {
    SendPlain(s, CertificatePayload(s.st.certificate.raw), SendingKeyExchange, w)
  }

  /** The peer's key must be an RSA key: any other certificate, or none, is a failed type assertion. */
  function SendKeyExchange(lib: Library, coins: Coins, s: Client, w: Wire): (Client, Wire)
  {
    if s.st.remote.None? || s.st.remote.value.publicKey.NonRsa? then (Fail(s, s.st, Panic), w) else
      match lib.rsaEncrypt(s.st.remote.value.publicKey.modulus, coins.padding, PreMasterSecret(coins))
      case None => (Fail(s, s.st, EncryptionFailed), w)
      case Some(encrypted) =>
        SendPlain(s.(preMaster := PreMasterSecret(coins)), KeyExchangePayload(encrypted),
                  SendingCertificateVerify, w)
  }

  function SendCertificateVerify(lib: Library, s: Client, w: Wire): (Client, Wire)
  {
    match lib.sign(s.st.privateKey, lib.sha256(s.st.history))
    case None => (Fail(s, s.st, SigningFailed), w)
    case Some(signature) => SendPlain(s, CertificateVerifyPayload(signature), SendingChangeCipherSpec, w)
  }

  /** The keys are derived just before ChangeCipherSpec goes out. */
  function SendChangeCipherSpec(lib: Library, s: Client, w: Wire): (Client, Wire)
  {
    (s.(pc := SendingFinished, st := DeriveSecrets(lib, s.st, s.preMaster, false)),
     Send(w, Records.CHANGE_CIPHER_SPEC, CHANGE_CIPHER_SPEC_PAYLOAD))
  }

  function SendFinishedRecord(lib: Library, coins: Coins, s: Client, w: Wire): (Client, Wire)
  {
    match SendFinished(lib, s.st, coins.iv, w)
    case (Some(e), w') => (Fail(s, s.st, e), w')
    case (None, w') => (s.(pc := ReceivingChangeCipherSpec), w')
  }

  function ReceiveChangeCipherSpec(s: Client, w: Wire): (Client, Wire)
  {
    match ReceiveKind(w, Records.CHANGE_CIPHER_SPEC)
    case (Err(e), w') => (Fail(s, s.st, e), w')
    case (Ok(_), w') => (s.(pc := ReceivingFinished), w')
  }

  function ReceiveFinishedRecord(lib: Library, s: Client, w: Wire): (Client, Wire)
  {
    match ReceiveFinished(lib, s.st, w)
    case (Some(e), w') => (Fail(s, s.st, e), w')
    case (None, w') => (s.(pc := Done), w')
  }

  /** One step of the controller: a record sent, or a record received and acted upon. */
  function Step(lib: Library, coins: Coins, s: Client, w: Wire): (r: (Client, Wire))
    ensures !Halted(s.pc) ==>
              || Rank(r.0.pc) < Rank(s.pc)
              || (r.0.pc == s.pc && |r.1.incoming| < |w.incoming|)
  {
    match s.pc
    case SendingHello => SendHello(coins, s, w)
    case ReceivingServerMessages => ReceiveServerMessage(lib, s, w)
    case SendingCertificate => SendCertificate(s, w)
    case SendingKeyExchange => SendKeyExchange(lib, coins, s, w)
    case SendingCertificateVerify => SendCertificateVerify(lib, s, w)
    case SendingChangeCipherSpec => SendChangeCipherSpec(lib, s, w)
    case SendingFinished => SendFinishedRecord(lib, coins, s, w)
    case ReceivingChangeCipherSpec => ReceiveChangeCipherSpec(s, w)
    case ReceivingFinished => ReceiveFinishedRecord(lib, s, w)
    case Done => (s, w)
    case Failed(_) => (s, w)
  }

  predicate Halted(pc: Pc)
  {
    pc.Done? || pc.Failed?
  }

  /** The next step waits for a record. */
  predicate Receives(pc: Pc)
  {
    pc.ReceivingServerMessages? || pc.ReceivingChangeCipherSpec? || pc.ReceivingFinished?
  }

  function Rank(pc: Pc): nat
  {
    match pc
    case SendingHello => 9
    case ReceivingServerMessages => 8
    case SendingCertificate => 7
    case SendingKeyExchange => 6
    case SendingCertificateVerify => 5
    case SendingChangeCipherSpec => 4
    case SendingFinished => 3
    case ReceivingChangeCipherSpec => 2
    case ReceivingFinished => 1
    case Done => 0
    case Failed(_) => 0
  }

  /** The whole controller against the bytes its peer will ever send. */
  function Run(lib: Library, coins: Coins, s: Client, w: Wire): (r: (Client, Wire))
    ensures Halted(r.0.pc)
    decreases Rank(s.pc), |w.incoming|
  {
    if Halted(s.pc) then (s, w) else
      var (s', w') := Step(lib, coins, s, w);
      Run(lib, coins, s', w')
  }
}
