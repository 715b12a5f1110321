/** The connection object: both handshake controllers and the protected data phase, on mutable state. */
module TlsConnection {
  import opened Wrappers
  import opened ByteSeqs
  import opened Crypto
  import opened Payloads
  import opened Endpoint
  import C = ClientMachine
  import S = ServerMachine
  import ArbitraryPeer
  import Cbc
  import Connection
  import Prf
  import Records
  import SecureChannel

  class TLSConnection {
    const lib: Library
    const conn: Connection.Conn

    // SecurityParameters
    const certificate: Certificate
    const privateKey: PrivateKey
    var remote: Option<Certificate>
    var clientRandom: Bytes
    var serverRandom: Bytes
    var masterSecret: Bytes

    var keys: Option<KeyMaterial>
    var history: Bytes

    constructor (lib: Library, conn: Connection.Conn, certificate: Certificate, privateKey: PrivateKey)
      ensures this.lib == lib && this.conn == conn && View() == NewConnection(certificate, privateKey)
    {
      this.lib, this.conn, this.certificate, this.privateKey := lib, conn, certificate, privateKey;
      remote, clientRandom, serverRandom, masterSecret, keys, history := None, [], [], [], None, [];
    }

    ghost function View(): State
      reads this
    {
      State(certificate, privateKey, remote, clientRandom, serverRandom, masterSecret, keys, history)
    }

    /** The controller states this object is in when its local variables say `pc` and `preMaster`. */
    ghost function AsClient(pc: C.Pc, preMaster: Bytes): C.Client
      reads this
    {
      C.Client(pc, View(), preMaster)
    }

    ghost function AsServer(pc: S.Pc, preMaster: Bytes): S.Server
      reads this
    {
      S.Server(pc, View(), preMaster)
    }

    // The record layer.

    method WriteTLSContent(contentType: Byte, data: Bytes)
      modifies conn
      ensures conn.View() == Send(old(conn.View()), contentType, data)
    {
      var length := new Byte[2];
      Connection.PutUint16(length, |data|);
      conn.Write([contentType] + [Records.MAJOR, Records.MINOR] + length[..] + data);
    }

    method ReadTLSContent() returns (r: Result<Records.Record, Records.ReadError>)
      modifies conn
      ensures (r, conn.incoming) == Records.Read(old(conn.incoming))
      ensures conn.outgoing == old(conn.outgoing)
    {
      ghost var s := conn.incoming;
      var header := new Byte[Records.HEADER_SIZE];
      var ok := conn.ReadFull(header);
      if !ok {
        return Err(Records.UnexpectedEof);
      }
      assert header[3..5] == s[3..5] && header[1..3] == s[1..3];
      var payloadLength := FromU16(header[3..5]);
      var data := new Byte[payloadLength];
      ok := conn.ReadFull(data);
      if !ok {
        return Err(Records.UnexpectedEof);
      }
      assert s[5..][..payloadLength] == s[5..5 + payloadLength];
      r := Ok(Records.Record(header[0], header[1..3], data[..]));
    }

    method EncryptContent(data: Bytes, iv: Block) returns (r: Bytes)
      requires keys.Some?
      ensures r == Cbc.Encrypt(lib, keys.value.encryptKey, iv, data)
    {
      var padding := BLOCK_SIZE - |data| % BLOCK_SIZE;
      var plaintext := data + Repeat(padding, padding);
      var ciphertext := new Byte[BLOCK_SIZE + |plaintext|];
      Cbc.StoreBlock(ciphertext, 0, iv);
      Cbc.EncryptBlocks(lib, keys.value.encryptKey, iv, plaintext, ciphertext, BLOCK_SIZE);
      r := ciphertext[..];
    }

    /** An empty plaintext is indexed all the same, which panics. */
    method DecryptContent(data: Bytes) returns (r: Result<Bytes, Failure>)
      ensures r == Endpoint.DecryptContent(lib, View(), data)
    {
      if keys.None? {
        return Err(Panic);
      }
      if |data| < BLOCK_SIZE {
        return Err(BadContent(Cbc.BadLength));
      }
      var iv, ciphertext := data[..BLOCK_SIZE], data[BLOCK_SIZE..];
      if |ciphertext| % BLOCK_SIZE != 0 {
        return Err(BadContent(Cbc.BadCiphertextLength));
      }
      var plaintext := new Byte[|ciphertext|];
      Cbc.DecryptBlocks(lib, keys.value.decryptKey, iv, ciphertext, plaintext);
      if plaintext.Length == 0 {
        return Err(Panic);
      }
      var paddingLen := plaintext[plaintext.Length - 1];
      if paddingLen == 0 || paddingLen > BLOCK_SIZE {
        return Err(BadContent(Cbc.BadPadding));
      }
      r := Ok(plaintext[..plaintext.Length - paddingLen]);
    }

    /** Writes a plaintext handshake payload and appends it to the history. */
    method SendPlain(payload: Bytes)
      modifies this`history, conn
      ensures View() == Append(old(View()), payload)
      ensures conn.View() == Send(old(conn.View()), Records.HANDSHAKE, payload)
    {
      WriteTLSContent(Records.HANDSHAKE, payload);
      history := history + payload;
    }

    method GenerateMasterSecret(preMaster: Bytes)
      modifies this`masterSecret
      ensures View() == old(View()).(masterSecret := Prf.MasterSecret(lib, clientRandom, serverRandom, preMaster))
    {
      var seed := Prf.MASTER_SECRET_LABEL + clientRandom + serverRandom;
      ghost var iterations;
      masterSecret, iterations := Prf.Prf(lib, preMaster, seed, 48);
    }

    method ClientGenerateKeys()
      modifies this`keys
      ensures View() == Endpoint.ClientGenerateKeys(lib, old(View()))
    {
      var seed := Prf.KEY_EXPANSION_LABEL + serverRandom + clientRandom;
      var b, iterations := Prf.Prf(lib, masterSecret, seed, KEY_BLOCK_SIZE);
      keys := Some(KeyMaterial(b[0..20], b[20..40], b[40..56], b[56..72], b[72..88], b[88..104],
                               b[40..56], b[56..72]));
    }

    method ServerGenerateKeys()
      modifies this`keys
      ensures View() == Endpoint.ServerGenerateKeys(lib, old(View()))
    {
      var seed := Prf.KEY_EXPANSION_LABEL + serverRandom + clientRandom;
      var b, iterations := Prf.Prf(lib, masterSecret, seed, KEY_BLOCK_SIZE);
      keys := Some(KeyMaterial(b[0..20], b[20..40], b[40..56], b[56..72], b[72..88], b[88..104],
                               b[56..72], b[40..56]));
    }

    /** Master secret, then that side's keys. */
    method GenerateSecrets(preMaster: Bytes, isServer: bool)
      modifies this`masterSecret, this`keys
      ensures View() == DeriveSecrets(lib, old(View()), preMaster, isServer)
    {
      GenerateMasterSecret(preMaster);
      if isServer {
        ServerGenerateKeys();
      } else {
        ClientGenerateKeys();
      }
    }

    /** `Finished`, encrypted under the current keys; without keys there is no cipher to call. */
    method SendFinishedRecord(iv: Block) returns (err: Option<Failure>)
      modifies conn
      ensures (err, conn.View()) == SendFinished(lib, View(), iv, old(conn.View()))
    {
      if keys.None? {
        return Some(Panic);
      }
      var body := EncryptContent(FinishedPayload(lib, masterSecret, history), iv);
      WriteTLSContent(Records.HANDSHAKE, body);
      err := None;
    }

    method ReceiveChangeCipherSpecRecord() returns (err: Option<Failure>)
      modifies conn
      ensures var (r, w) := ReceiveKind(old(conn.View()), Records.CHANGE_CIPHER_SPEC);
        conn.View() == w && err == (if r.Ok? then None else Some(r.error))
    {
      var ct := ReadTLSContent();
      if ct.Err? {
        return Some(ConnectionEnded);
      }
      err := if ct.value.kind != Records.CHANGE_CIPHER_SPEC then Some(UnexpectedContentType) else None;
    }

    /** Decrypts first and looks at the content type afterwards. */
    method ReceiveFinishedRecord() returns (err: Option<Failure>)
      modifies conn
      ensures (err, conn.View()) == ReceiveFinished(lib, View(), old(conn.View()))
    {
      var ct := ReadTLSContent();
      if ct.Err? {
        return Some(ConnectionEnded);
      }
      var plaintext := DecryptContent(ct.value.data);
      if plaintext.Err? {
        return Some(plaintext.error);
      }
      if ct.value.kind != Records.HANDSHAKE {
        return Some(InvalidFinished);
      }
      if plaintext.value == [] {
        return Some(Panic);
      }
      err := if plaintext.value[0] != FINISHED then Some(InvalidFinished) else None;
    }

    // The client's controller.

    method SendClientHello(coins: C.Coins)
      modifies this`clientRandom, this`history, conn
      ensures (AsClient(C.ReceivingServerMessages, []), conn.View())
              == C.SendHello(coins, old(AsClient(C.SendingHello, [])), old(conn.View()))
    {
      clientRandom := coins.random;
      SendPlain(HelloPayload(CLIENT_HELLO, coins.random));
    }

    method ReceiveServerMessages() returns (err: Option<Failure>)
      modifies this`history, this`serverRandom, this`remote, conn
      ensures (AsClient(ClientAfter(err, C.SendingCertificate), []), conn.View())
              == ArbitraryPeer.ReceiveFlight(lib, old(AsClient(C.ReceivingServerMessages, [])), old(conn.View()))
    {
      hide Records.Read;
      while true
        invariant ArbitraryPeer.ReceiveFlight(lib, AsClient(C.ReceivingServerMessages, []), conn.View())
                  == ArbitraryPeer.ReceiveFlight(lib, old(AsClient(C.ReceivingServerMessages, [])), old(conn.View()))
        decreases |conn.incoming|
      {
        var ct := ReadTLSContent();
        if ct.Err? {
          return Some(ConnectionEnded);
        }
        if ct.value.kind != Records.HANDSHAKE {
          return Some(UnexpectedContentType);
        }
        var data := ct.value.data;
        history := history + data;
        if data == [] {
          return Some(Panic);
        }
        var handshakeType := data[0];
        if handshakeType == SERVER_HELLO {
          var random := RandomOf(data);
          if random.Err? {
            return Some(random.error);
          }
          serverRandom := random.value;
        } else if handshakeType == CERTIFICATE {
          var cert := CertificateOf(lib, data);
          if cert.Err? {
            return Some(cert.error);
          }
          remote := Some(cert.value);
        } else if handshakeType == CERTIFICATE_REQUEST || handshakeType == SERVER_HELLO_DONE {
        } else {
          return Some(UnexpectedHandshakeType);
        }
        if handshakeType == SERVER_HELLO_DONE {
          return None;
        }
      }
    }

    method SendClientCertificate()
      modifies this`history, conn
      ensures (AsClient(C.SendingKeyExchange, []), conn.View())
              == C.SendCertificate(old(AsClient(C.SendingCertificate, [])), old(conn.View()))
    {
      SendPlain(CertificatePayload(certificate.raw));
    }

    method SendClientKeyExchange(coins: C.Coins) returns (err: Option<Failure>, preMaster: Bytes)
      modifies this`history, conn
      ensures (AsClient(ClientAfter(err, C.SendingCertificateVerify), preMaster), conn.View())
              == C.SendKeyExchange(lib, coins, old(AsClient(C.SendingKeyExchange, [])), old(conn.View()))
    {
      if remote.None? || remote.value.publicKey.NonRsa? {
        return Some(Panic), [];
      }
      preMaster := [Records.MAJOR, Records.MINOR] + coins.preMaster;
      var encrypted := lib.rsaEncrypt(remote.value.publicKey.modulus, coins.padding, preMaster);
      if encrypted.None? {
        return Some(EncryptionFailed), [];
      }
      SendPlain(KeyExchangePayload(encrypted.value));
      err := None;
    }

    method SendCertificateVerify(ghost preMaster: Bytes) returns (err: Option<Failure>)
      modifies this`history, conn
      ensures (AsClient(ClientAfter(err, C.SendingChangeCipherSpec), preMaster), conn.View())
              == C.SendCertificateVerify(lib, old(AsClient(C.SendingCertificateVerify, preMaster)), old(conn.View()))
    {
      var signature := lib.sign(privateKey, lib.sha256(history));
      if signature.None? {
        return Some(SigningFailed);
      }
      SendPlain(CertificateVerifyPayload(signature.value));
      err := None;
    }

    /** `HandshakeClientController`: does what the client's step machine does on the same bytes, to the end. */
    method HandshakeClientController(coins: C.Coins) returns (err: Option<Failure>)
      modifies this, conn
      ensures var (s, w) := C.Run(lib, coins, old(AsClient(C.SendingHello, [])), old(conn.View()));
        s.pc == ClientAfter(err, C.Done) && s.st == View() && w == conn.View()
    {
      hide C.Run, C.SendHello, C.SendCertificate, C.SendKeyExchange, C.SendCertificateVerify,
          ArbitraryPeer.ReceiveFlight;
      hide DeriveSecrets, SendFinished, ReceiveFinished, ReceiveKind, C.ReceiveServerMessage;
      ArbitraryPeer.UnfoldClient(lib, coins, AsClient(C.SendingHello, []), conn.View());
      SendClientHello(coins);
      ArbitraryPeer.RunIsFlightFirst(lib, coins, AsClient(C.ReceivingServerMessages, []), conn.View());
      err := ReceiveServerMessages();
      ArbitraryPeer.UnfoldClient(lib, coins, AsClient(ClientAfter(err, C.SendingCertificate), []), conn.View());
      if err.Some? {
        return;
      }
      SendClientCertificate();
      ArbitraryPeer.UnfoldClient(lib, coins, AsClient(C.SendingKeyExchange, []), conn.View());
      var preMaster;
      err, preMaster := SendClientKeyExchange(coins);
      ArbitraryPeer.UnfoldClient(lib, coins, AsClient(ClientAfter(err, C.SendingCertificateVerify), preMaster),
          conn.View());
      if err.Some? {
        return;
      }
      err := SendCertificateVerify(preMaster);
      ArbitraryPeer.UnfoldClient(lib, coins, AsClient(ClientAfter(err, C.SendingChangeCipherSpec), preMaster),
          conn.View());
      if err.Some? {
        return;
      }
      GenerateSecrets(preMaster, false);
      err := FinishHandshake(coins, preMaster);
    }

    /** ChangeCipherSpec and Finished out, ChangeCipherSpec and Finished in. */
    method FinishHandshake(coins: C.Coins, ghost preMaster: Bytes) returns (err: Option<Failure>)
      modifies conn
      ensures var w := Send(old(conn.View()), Records.CHANGE_CIPHER_SPEC, CHANGE_CIPHER_SPEC_PAYLOAD);
        (AsClient(ClientAfter(err, C.Done), preMaster), conn.View())
        == C.Run(lib, coins, AsClient(C.SendingFinished, preMaster), w)
    {
      hide C.Run, SendFinished, ReceiveFinished, ReceiveKind;
      WriteTLSContent(Records.CHANGE_CIPHER_SPEC, CHANGE_CIPHER_SPEC_PAYLOAD);
      ArbitraryPeer.UnfoldClient(lib, coins, AsClient(C.SendingFinished, preMaster), conn.View());
      err := SendFinishedRecord(coins.iv);
      ArbitraryPeer.UnfoldClient(lib, coins, AsClient(ClientAfter(err, C.ReceivingChangeCipherSpec), preMaster),
          conn.View());
      if err.Some? {
        return;
      }
      err := ReceiveChangeCipherSpecRecord();
      ArbitraryPeer.UnfoldClient(lib, coins, AsClient(ClientAfter(err, C.ReceivingFinished), preMaster), conn.View());
      if err.Some? {
        return;
      }
      err := ReceiveFinishedRecord();
      ArbitraryPeer.UnfoldClient(lib, coins, AsClient(ClientAfter(err, C.Done), preMaster), conn.View());
    }

    // The server's controller.

    /** One plaintext handshake message of the expected type. */
    method ReceiveHandshakeMessage(messageType: Byte) returns (r: Result<Bytes, Failure>)
      modifies conn
      ensures (r, conn.View()) == ReceiveHandshake(old(conn.View()), messageType)
    {
      var ct := ReadTLSContent();
      if ct.Err? {
        return Err(ConnectionEnded);
      }
      if ct.value.kind != Records.HANDSHAKE {
        return Err(UnexpectedContentType);
      }
      var data := ct.value.data;
      if data == [] {
        return Err(Panic);
      }
      r := if data[0] != messageType then Err(UnexpectedHandshakeType) else Ok(data);
    }

    method ReceiveClientHello() returns (err: Option<Failure>)
      modifies this`history, this`clientRandom, conn
      ensures (AsServer(ServerAfter(err, S.SendingHello), []), conn.View())
              == S.ReceiveHello(old(AsServer(S.ReceivingHello, [])), old(conn.View()))
    {
      var data := ReceiveHandshakeMessage(CLIENT_HELLO);
      if data.Err? {
        return Some(data.error);
      }
      history := history + data.value;
      var random := RandomOf(data.value);
      if random.Err? {
        return Some(random.error);
      }
      clientRandom := random.value;
      err := None;
    }

    method SendServerHello(coins: S.Coins)
      modifies this`serverRandom, this`history, conn
      ensures (AsServer(S.SendingCertificate, []), conn.View())
              == S.SendHello(coins, old(AsServer(S.SendingHello, [])), old(conn.View()))
    {
      serverRandom := coins.random;
      SendPlain(HelloPayload(SERVER_HELLO, coins.random));
    }

    /** ServerHello, Certificate, CertificateRequest, ServerHelloDone. */
    method SendServerMessages(coins: S.Coins)
      modifies this`serverRandom, this`history, conn
      ensures var (s1, w1) := S.SendHello(coins, old(AsServer(S.SendingHello, [])), old(conn.View()));
        var (s2, w2) := S.SendCertificate(s1, w1);
        var (s3, w3) := S.SendCertificateRequest(s2, w2);
        (AsServer(S.ReceivingCertificate, []), conn.View()) == S.SendHelloDone(s3, w3)
    {
      hide S.SendHello;
      SendServerHello(coins);
      SendPlain(CertificatePayload(certificate.raw));
      SendPlain(CERTIFICATE_REQUEST_PAYLOAD);
      SendPlain(SERVER_HELLO_DONE_PAYLOAD);
    }

    method ReceiveClientCertificate() returns (err: Option<Failure>)
      modifies this`history, this`remote, conn
      ensures (AsServer(ServerAfter(err, S.ReceivingKeyExchange), []), conn.View())
              == S.ReceiveCertificate(lib, old(AsServer(S.ReceivingCertificate, [])), old(conn.View()))
    {
      var data := ReceiveHandshakeMessage(CERTIFICATE);
      if data.Err? {
        return Some(data.error);
      }
      history := history + data.value;
      var cert := CertificateOf(lib, data.value);
      if cert.Err? {
        return Some(cert.error);
      }
      remote := Some(cert.value);
      err := None;
    }

    method ReceiveClientKeyExchange() returns (err: Option<Failure>, preMaster: Bytes)
      modifies this`history, conn
      ensures (AsServer(ServerAfter(err, S.ReceivingCertificateVerify), preMaster), conn.View())
              == S.ReceiveKeyExchange(lib, old(AsServer(S.ReceivingKeyExchange, [])), old(conn.View()))
    {
      var data := ReceiveHandshakeMessage(CLIENT_KEY_EXCHANGE);
      if data.Err? {
        return Some(data.error), [];
      }
      history := history + data.value;
      var encrypted := EncryptedPreMasterOf(data.value);
      if encrypted.Err? {
        return Some(encrypted.error), [];
      }
      var decrypted := lib.rsaDecrypt(privateKey, encrypted.value);
      if decrypted.None? {
        return Some(DecryptionFailed), [];
      }
      err, preMaster := None, decrypted.value;
    }

    /** `onCertificateVerify`. */
    method OnCertificateVerify(data: Bytes) returns (err: Option<Failure>)
      ensures err == S.VerifyClient(lib, View(), data)
    {
      var signature := SignatureOf(data);
      if signature.Err? {
        return Some(signature.error);
      }
      if remote.None? {
        return Some(Panic);
      }
      if remote.value.publicKey.NonRsa? {
        return Some(BadPublicKey);
      }
      var ok := lib.verify(remote.value.publicKey.modulus, lib.sha256(history), signature.value);
      err := if ok then None else Some(VerificationFailed);
    }

    method ReceiveCertificateVerify(preMaster: Bytes) returns (err: Option<Failure>)
      modifies this`history, this`masterSecret, this`keys, conn
      ensures (AsServer(ServerAfter(err, S.ReceivingChangeCipherSpec), preMaster), conn.View())
              == S.ReceiveCertificateVerify(lib, old(AsServer(S.ReceivingCertificateVerify, preMaster)),
                  old(conn.View()))
    {
      var data := ReceiveHandshakeMessage(CERTIFICATE_VERIFY);
      if data.Err? {
        return Some(data.error);
      }
      err := OnCertificateVerify(data.value);
      if err.Some? {
        return;
      }
      history := history + data.value;
      GenerateSecrets(preMaster, true);
    }

    method ReceiveClientChangeCipherSpecAndFinished(ghost coins: S.Coins, ghost preMaster: Bytes)
      returns (err: Option<Failure>)
      modifies conn
      ensures S.Run(lib, coins, AsServer(ServerAfter(err, S.SendingChangeCipherSpec), preMaster), conn.View())
              == S.Run(lib, coins, AsServer(S.ReceivingChangeCipherSpec, preMaster), old(conn.View()))
    {
      hide S.Run, ReceiveKind, ReceiveFinished;
      ArbitraryPeer.Unfold(lib, coins, AsServer(S.ReceivingChangeCipherSpec, preMaster), conn.View());
      err := ReceiveChangeCipherSpecRecord();
      if err.Some? {
        return;
      }
      ArbitraryPeer.Unfold(lib, coins, AsServer(S.ReceivingFinished, preMaster), conn.View());
      err := ReceiveFinishedRecord();
    }

    method SendChangeCipherSpecAndFinished(coins: S.Coins, ghost preMaster: Bytes) returns (err: Option<Failure>)
      modifies conn
      ensures (AsServer(ServerAfter(err, S.Done), preMaster), conn.View())
              == S.Run(lib, coins, AsServer(S.SendingChangeCipherSpec, preMaster), old(conn.View()))
    {
      hide S.Run, SendFinished;
      ArbitraryPeer.Unfold(lib, coins, AsServer(S.SendingChangeCipherSpec, preMaster), conn.View());
      WriteTLSContent(Records.CHANGE_CIPHER_SPEC, CHANGE_CIPHER_SPEC_PAYLOAD);
      ArbitraryPeer.Unfold(lib, coins, AsServer(S.SendingFinished, preMaster), conn.View());
      err := SendFinishedRecord(coins.iv);
    }

    /** `HandshakeServerController`: does what the server's step machine does on the same bytes, to the end. */
    method HandshakeServerController(coins: S.Coins) returns (err: Option<Failure>)
      modifies this, conn
      ensures var (s, w) := S.Run(lib, coins, old(AsServer(S.ReceivingHello, [])), old(conn.View()));
        s.pc == ServerAfter(err, S.Done) && s.st == View() && w == conn.View()
    {
      hide S.Run, S.ReceiveHello, S.SendHello, S.SendCertificate, S.SendCertificateRequest, S.SendHelloDone,
           S.ReceiveCertificate, S.ReceiveKeyExchange, S.ReceiveCertificateVerify;
      ArbitraryPeer.Unfold(lib, coins, AsServer(S.ReceivingHello, []), conn.View());
      err := ReceiveClientHello();
      if err.Some? {
        return;
      }
      ArbitraryPeer.FlightSteps(lib, coins, AsServer(S.SendingHello, []), conn.View());
      SendServerMessages(coins);
      ArbitraryPeer.Unfold(lib, coins, AsServer(S.ReceivingCertificate, []), conn.View());
      err := ReceiveClientCertificate();
      if err.Some? {
        return;
      }
      ArbitraryPeer.Unfold(lib, coins, AsServer(S.ReceivingKeyExchange, []), conn.View());
      var preMaster;
      err, preMaster := ReceiveClientKeyExchange();
      if err.Some? {
        return;
      }
      ArbitraryPeer.Unfold(lib, coins, AsServer(S.ReceivingCertificateVerify, preMaster), conn.View());
      err := ReceiveCertificateVerify(preMaster);
      if err.Some? {
        return;
      }
      err := ReceiveClientChangeCipherSpecAndFinished(coins, preMaster);
      if err.Some? {
        ArbitraryPeer.Stops(lib, coins, AsServer(S.Failed(err.value), preMaster), conn.View());
        return;
      }
      err := SendChangeCipherSpecAndFinished(coins, preMaster);
    }

    // The data phase.

    /** Encrypts into one application-data record; before the handshake there is no cipher to call. */
    method Write(data: Bytes, iv: Block) returns (n: nat, err: Option<Failure>)
      modifies conn
      ensures keys.None? ==> err == Some(Panic) && n == 0 && conn.View() == old(conn.View())
      ensures keys.Some? ==> err == None && n == |data|
                             && conn.incoming == old(conn.incoming)
                             && conn.outgoing == old(conn.outgoing) + SecureChannel.Written(lib, View(), iv, data)
    {
      if keys.None? {
        return 0, Some(Panic);
      }
      var body := EncryptContent(data, iv);
      WriteTLSContent(Records.APPLICATION_DATA, body);
      n, err := |data|, None;
    }

    /**
     Reads one record into the caller's buffer. The count on success is the
     buffer's length, whatever was decrypted; a longer plaintext loses its tail.
     */
    method Read(data: array<Byte>) returns (n: nat, err: Option<Failure>)
      modifies conn, data
      ensures var (r, rest) := SecureChannel.Receive(lib, View(), old(conn.incoming));
        && conn.View() == Wire(rest, old(conn.outgoing))
        && (r.Err? ==> err == Some(r.error) && n == 0 && data[..] == old(data[..]))
        && (r.Ok? ==>
              var m := if |r.value| < data.Length then |r.value| else data.Length;
              err == None && n == data.Length && data[..] == r.value[..m] + old(data[..])[m..])
    {
      var ct := ReadTLSContent();
      if ct.Err? {
        return 0, Some(ConnectionEnded);
      }
      var decrypted := DecryptContent(ct.value.data);
      if decrypted.Err? {
        return 0, Some(decrypted.error);
      }
      var plaintext := decrypted.value;
      forall i | 0 <= i < |plaintext| && i < data.Length {
        data[i] := plaintext[i];
      }
      n, err := data.Length, None;
    }
  }

  function ClientAfter(err: Option<Failure>, next: C.Pc): C.Pc
  {
    match err
    case None => next
    case Some(e) => C.Failed(e)
  }

  function ServerAfter(err: Option<Failure>, next: S.Pc): S.Pc
  {
    match err
    case None => next
    case Some(e) => S.Failed(e)
  }
}
