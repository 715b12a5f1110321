/** The server's handshake controller, one record at a time. */
module ServerMachine {
  import opened Wrappers
  import opened ByteSeqs
  import opened Crypto
  import opened Payloads
  import opened Endpoint
  import Records

  datatype Pc =
    | ReceivingHello
    | SendingHello
    | SendingCertificate
    | SendingCertificateRequest
    | SendingHelloDone
    | ReceivingCertificate
    | ReceivingKeyExchange
    | ReceivingCertificateVerify
    | ReceivingChangeCipherSpec
    | ReceivingFinished
    | SendingChangeCipherSpec
    | SendingFinished
    | Done
    | Failed(failure: Failure)

  datatype Coins = Coins(random: Random, iv: Block)

  datatype Server = Server(pc: Pc, st: State, preMaster: Bytes)

  function Start(certificate: Certificate, privateKey: PrivateKey): Server
  {
    Server(ReceivingHello, NewConnection(certificate, privateKey), [])
  }

  function Fail(s: Server, st: State, e: Failure): Server
  {
    s.(pc := Failed(e), st := st)
  }

  function SendPlain(s: Server, payload: Bytes, next: Pc, w: Wire): (Server, Wire)
  {
    (s.(pc := next, st := Append(s.st, payload)), Send(w, Records.HANDSHAKE, payload))
  }

  /** `onCertificateVerify`: the signature is checked over the history without the message that carries it. */
  function VerifyClient(lib: Library, st: State, data: Bytes): Option<Failure>
  {
    match SignatureOf(data)
    case Err(e) => Some(e)
    case Ok(signature) =>
      if st.remote.None? then Some(Panic)
      else if st.remote.value.publicKey.NonRsa? then Some(BadPublicKey)
      else if lib.verify(st.remote.value.publicKey.modulus, lib.sha256(st.history), signature) then None
      else Some(VerificationFailed)
  }

  /** `onClientKeyExchange`. */
  function PreMasterOf(lib: Library, st: State, data: Bytes): Result<Bytes, Failure>
  {
    match EncryptedPreMasterOf(data)
    case Err(e) => Err(e)
    case Ok(encrypted) =>
      match lib.rsaDecrypt(st.privateKey, encrypted)
      case None => Err(DecryptionFailed)
      case Some(preMaster) => Ok(preMaster)
  }

  function ReceiveHello(s: Server, w: Wire): (Server, Wire)
  {
    match ReceiveHandshake(w, CLIENT_HELLO)
    case (Err(e), w') => (Fail(s, s.st, e), w')
    case (Ok(data), w') =>
      var st := Append(s.st, data);
      match RandomOf(data)
      case Err(e) => (Fail(s, st, e), w')
      case Ok(random) => (s.(pc := SendingHello, st := st.(clientRandom := random)), w')
  }

  function SendHello(coins: Coins, s: Server, w: Wire): (Server, Wire)
  {
    var (s', w') := SendPlain(s, HelloPayload(SERVER_HELLO, coins.random), SendingCertificate, w);
    (s'.(st := s'.st.(serverRandom := coins.random)), w')
  }

  function SendCertificate(s: Server, w: Wire): (Server, Wire)
  {
    SendPlain(s, CertificatePayload(s.st.certificate.raw), SendingCertificateRequest, w)
  }

  function SendCertificateRequest(s: Server, w: Wire): (Server, Wire)
  {
    SendPlain(s, CERTIFICATE_REQUEST_PAYLOAD, SendingHelloDone, w)
  }

  function SendHelloDone(s: Server, w: Wire): (Server, Wire)
  {
    SendPlain(s, SERVER_HELLO_DONE_PAYLOAD, ReceivingCertificate, w)
  }

  function ReceiveCertificate(lib: Library, s: Server, w: Wire): (Server, Wire)
  {
    match ReceiveHandshake(w, CERTIFICATE)
    case (Err(e), w') => (Fail(s, s.st, e), w')
    case (Ok(data), w') =>
      var st := Append(s.st, data);
      match CertificateOf(lib, data)
      case Err(e) => (Fail(s, st, e), w')
      case Ok(cert) => (s.(pc := ReceivingKeyExchange, st := st.(remote := Some(cert))), w')
  }

  function ReceiveKeyExchange(lib: Library, s: Server, w: Wire): (Server, Wire)
  {
    match ReceiveHandshake(w, CLIENT_KEY_EXCHANGE)
    case (Err(e), w') => (Fail(s, s.st, e), w')
    case (Ok(data), w') =>
      var st := Append(s.st, data);
      match PreMasterOf(lib, st, data)
      case Err(e) => (Fail(s, st, e), w')
      case Ok(preMaster) => (Server(ReceivingCertificateVerify, st, preMaster), w')
  }

  /** Only a verified message enters the history; the keys are derived right after it. */
  function ReceiveCertificateVerify(lib: Library, s: Server, w: Wire): (Server, Wire)
  {
    match ReceiveHandshake(w, CERTIFICATE_VERIFY)
    case (Err(e), w') => (Fail(s, s.st, e), w')
    case (Ok(data), w') =>
      match VerifyClient(lib, s.st, data)
      case Some(e) => (Fail(s, s.st, e), w')
      case None =>
        (s.(pc := ReceivingChangeCipherSpec,
            st := DeriveSecrets(lib, Append(s.st, data), s.preMaster, true)), w')
  }

  function ReceiveChangeCipherSpec(s: Server, w: Wire): (Server, Wire)
  {
    match ReceiveKind(w, Records.CHANGE_CIPHER_SPEC)
    case (Err(e), w') => (Fail(s, s.st, e), w')
    case (Ok(_), w') => (s.(pc := ReceivingFinished), w')
  }

  function ReceiveFinishedRecord(lib: Library, s: Server, w: Wire): (Server, Wire)
  {
    match ReceiveFinished(lib, s.st, w)
    case (Some(e), w') => (Fail(s, s.st, e), w')
    case (None, w') => (s.(pc := SendingChangeCipherSpec), w')
  }

  function SendChangeCipherSpec(s: Server, w: Wire): (Server, Wire)
  {
    (s.(pc := SendingFinished), Send(w, Records.CHANGE_CIPHER_SPEC, CHANGE_CIPHER_SPEC_PAYLOAD))
  }

  function SendFinishedRecord(lib: Library, coins: Coins, s: Server, w: Wire): (Server, Wire)
  {
    match SendFinished(lib, s.st, coins.iv, w)
    case (Some(e), w') => (Fail(s, s.st, e), w')
    case (None, w') => (s.(pc := Done), w')
  }

  /** One step of the controller: a record sent, or a record received and acted upon. */
  function Step(lib: Library, coins: Coins, s: Server, w: Wire): (r: (Server, Wire))
    ensures !Halted(s.pc) ==> Rank(r.0.pc) < Rank(s.pc)
  {
    match s.pc
    case ReceivingHello => ReceiveHello(s, w)
    case SendingHello => SendHello(coins, s, w)
    case SendingCertificate => SendCertificate(s, w)
    case SendingCertificateRequest => SendCertificateRequest(s, w)
    case SendingHelloDone => SendHelloDone(s, w)
    case ReceivingCertificate => ReceiveCertificate(lib, s, w)
    case ReceivingKeyExchange => ReceiveKeyExchange(lib, s, w)
    case ReceivingCertificateVerify => ReceiveCertificateVerify(lib, s, w)
    case ReceivingChangeCipherSpec => ReceiveChangeCipherSpec(s, w)
    case ReceivingFinished => ReceiveFinishedRecord(lib, s, w)
    case SendingChangeCipherSpec => SendChangeCipherSpec(s, w)
    case SendingFinished => SendFinishedRecord(lib, coins, s, w)
    case Done => (s, w)
    case Failed(_) => (s, w)
  }

  predicate Halted(pc: Pc)
  {
    pc.Done? || pc.Failed?
  }

  predicate Receives(pc: Pc)
  {
    || pc.ReceivingHello? || pc.ReceivingCertificate? || pc.ReceivingKeyExchange?
    || pc.ReceivingCertificateVerify? || pc.ReceivingChangeCipherSpec? || pc.ReceivingFinished?
  }

  function Rank(pc: Pc): nat
  {
    match pc
    case ReceivingHello => 12
    case SendingHello => 11
    case SendingCertificate => 10
    case SendingCertificateRequest => 9
    case SendingHelloDone => 8
    case ReceivingCertificate => 7
    case ReceivingKeyExchange => 6
    case ReceivingCertificateVerify => 5
    case ReceivingChangeCipherSpec => 4
    case ReceivingFinished => 3
    case SendingChangeCipherSpec => 2
    case SendingFinished => 1
    case Done => 0
    case Failed(_) => 0
  }

  /** The whole controller against the bytes its peer will ever send. */
  function Run(lib: Library, coins: Coins, s: Server, w: Wire): (r: (Server, Wire))
    ensures Halted(r.0.pc)
    decreases Rank(s.pc)
  {
    if Halted(s.pc) then (s, w) else
      var (s', w') := Step(lib, coins, s, w);
      Run(lib, coins, s', w')
  }
}
