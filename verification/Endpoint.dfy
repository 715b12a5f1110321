/** The state of one TLS connection and the steps that client and server have in common. */
module Endpoint {
  import opened Wrappers
  import opened ByteSeqs
  import opened Crypto
  import opened Payloads
  import Cbc
  import Prf
  import Records

  type Block = b: Bytes | |b| == BLOCK_SIZE witness Repeat(0, BLOCK_SIZE)
  type Random = b: Bytes | |b| == RANDOM_SIZE witness Repeat(0, RANDOM_SIZE)
  type PreMasterRandom = b: Bytes | |b| == 46 witness Repeat(0, 46)

  const KEY_BLOCK_SIZE := 128

  datatype KeyMaterial = KeyMaterial(
    clientMac: Bytes, serverMac: Bytes, clientKey: Bytes, serverKey: Bytes, clientIv: Bytes, serverIv: Bytes,
    encryptKey: Bytes, decryptKey: Bytes)

  /** `SecurityParameters`, `KeyMaterialBlock` and `msgHistory` of one connection. */
  datatype State = State(
    certificate: Certificate,
    privateKey: PrivateKey,
    remote: Option<Certificate>,
    clientRandom: Bytes,
    serverRandom: Bytes,
    masterSecret: Bytes,
    keys: Option<KeyMaterial>,
    history: Bytes)

  /** What `NewTLSConn` builds. */
  function NewConnection(certificate: Certificate, privateKey: PrivateKey): State
  {
    State(certificate, privateKey, None, [], [], [], None, [])
  }

  /** The two directions of a connection: bytes still to be read and bytes written so far. */
  datatype Wire = Wire(incoming: Bytes, outgoing: Bytes)

  function Send(w: Wire, kind: Byte, data: Bytes): Wire
  {
    w.(outgoing := w.outgoing + Records.Encode(Records.Plain(kind, data)))
  }

  function Append(st: State, payload: Bytes): State
  {
    st.(history := st.history + payload)
  }

  /** `ClientGenerateKeys`, section 6.3 of RFC 5246: the client encrypts with its own write key. */
  function ClientGenerateKeys(lib: Library, st: State): State
  {
    var seed := Prf.KEY_EXPANSION_LABEL + st.serverRandom + st.clientRandom;
    var b := Prf.Output(lib, st.masterSecret, seed, KEY_BLOCK_SIZE);
    st.(keys := Some(KeyMaterial(b[0..20], b[20..40], b[40..56], b[56..72], b[72..88], b[88..104],
                                 b[40..56], b[56..72])))
  }

  /** `ServerGenerateKeys`: the server encrypts with the other write key. */
  function ServerGenerateKeys(lib: Library, st: State): State
  {
    var seed := Prf.KEY_EXPANSION_LABEL + st.serverRandom + st.clientRandom;
    var b := Prf.Output(lib, st.masterSecret, seed, KEY_BLOCK_SIZE);
    st.(keys := Some(KeyMaterial(b[0..20], b[20..40], b[40..56], b[56..72], b[72..88], b[88..104],
                                 b[56..72], b[40..56])))
  }

  /** Master secret first, then that side's keys. */
  function DeriveSecrets(lib: Library, st: State, preMaster: Bytes, isServer: bool): State
  {
    var st' := st.(masterSecret := Prf.MasterSecret(lib, st.clientRandom, st.serverRandom, preMaster));
    if isServer then ServerGenerateKeys(lib, st') else ClientGenerateKeys(lib, st')
  }

  /** Reads one record and checks its content type. */
  function ReceiveKind(w: Wire, kind: Byte): (Result<Bytes, Failure>, Wire)
  {
    match Records.Read(w.incoming)
    case (Err(_), rest) => (Err(ConnectionEnded), w.(incoming := rest))
    case (Ok(r), rest) =>
      (if r.kind == kind then Ok(r.data) else Err(UnexpectedContentType), w.(incoming := rest))
  }

  /** Reads one plaintext handshake message of the given type. */
  function ReceiveHandshake(w: Wire, messageType: Byte): (Result<Bytes, Failure>, Wire)
  {
    match ReceiveKind(w, Records.HANDSHAKE)
    case (Err(e), w') => (Err(e), w')
    case (Ok(data), w') =>
      (if data == [] then Err(Panic)
       else if data[0] != messageType then Err(UnexpectedHandshakeType)
       else Ok(data), w')
  }

  /** `decryptContent`, where an index out of range is a panic and so are keys that do not exist yet. */
  function DecryptContent(lib: Library, st: State, data: Bytes): Result<Bytes, Failure>
  {
    if st.keys.None? then Err(Panic) else
      match Cbc.Decrypt(lib, st.keys.value.decryptKey, data)
      case Ok(plaintext) => Ok(plaintext)
      case Err(e) => Err(if e.IndexOutOfRange? then Panic else BadContent(e))
  }

  /** Reads the encrypted Finished; the body is decrypted before the content type is looked at. */
  function ReceiveFinished(lib: Library, st: State, w: Wire): (Option<Failure>, Wire)
  {
    match Records.Read(w.incoming)
    case (Err(_), rest) => (Some(ConnectionEnded), w.(incoming := rest))
    case (Ok(r), rest) =>
      (match DecryptContent(lib, st, r.data)
       case Err(e) => Some(e)
       case Ok(plaintext) =>
         if r.kind != Records.HANDSHAKE then Some(InvalidFinished)
         else if plaintext == [] then Some(Panic)
         else if plaintext[0] != FINISHED then Some(InvalidFinished)
         else None,
       w.(incoming := rest))
  }

  /** Which failure a plaintext handshake message meets, in the order the source looks. */
  lemma HandshakeOutcome(w: Wire, messageType: Byte)
    ensures var (r, e) := (Records.Read(w.incoming).0, ReceiveHandshake(w, messageType).0);
      && (e == Err(ConnectionEnded) <==> r.Err?)
      && (e == Err(UnexpectedContentType) <==> r.Ok? && r.value.kind != 0x16)
      && (e == Err(Panic) <==> r.Ok? && r.value.kind == 0x16 && |r.value.data| == 0)
      && (e == Err(UnexpectedHandshakeType)
          <==> r.Ok? && r.value.kind == 0x16 && |r.value.data| > 0 && r.value.data[0] != messageType)
      && (e.Ok? ==> r.Ok? && e.value == r.value.data)
  {
    hide Records.Read;
  }

  /** Which failure Finished meets: the decryption comes first, then the content type, then the type byte. */
  lemma FinishedOutcome(lib: Library, st: State, w: Wire)
    ensures var (r, e) := (Records.Read(w.incoming).0, ReceiveFinished(lib, st, w).0);
      && (e == Some(ConnectionEnded) <==> r.Err?)
      && (r.Ok? && st.keys.None? ==> e == Some(Panic))
      && (r.Ok? && st.keys.Some? ==>
            var p := Cbc.Decrypt(lib, st.keys.value.decryptKey, r.value.data);
            && (e.None? <==> p.Ok? && r.value.kind == 0x16 && p.value != [] && p.value[0] == 0x14)
            && (e == Some(InvalidFinished)
                <==> p.Ok? && (r.value.kind != 0x16 || (p.value != [] && p.value[0] != 0x14)))
            && (e == Some(Panic)
                <==> p == Err(Cbc.IndexOutOfRange) || (p == Ok([]) && r.value.kind == 0x16)))
  {
    hide Records.Read, Cbc.Decrypt;
  }

  /** Encrypts and writes Finished over the current history. */
  function SendFinished(lib: Library, st: State, iv: Block, w: Wire): (Option<Failure>, Wire)
  {
    if st.keys.None? then (Some(Panic), w) else
      var payload := FinishedPayload(lib, st.masterSecret, st.history);
      (None, Send(w, Records.HANDSHAKE, Cbc.Encrypt(lib, st.keys.value.encryptKey, iv, payload)))
  }
}
