# A chat system with a hand-written TLS layer, verified

The repository is a small chat system. Clients register with a central server, which places every chat room on the
server that suits its two members best and moves rooms as delays change. Chat servers broadcast what a member sends to
its room. Underneath lies a TLS 1.2 style library written from scratch: records, CBC encryption, the pseudorandom
function, and a client and a server handshake controller.

This project models the parts of it where correctness is not visible in one function, and proves what they promise.

## How the model is built

**The TLS endpoints.** Every message and record is also described byte by byte, apart from the functions that build
it. `ByteSeqs`, `Crypto`, `Cbc`, `Prf`, `Records` and `Payloads` are the byte layers. The
cryptographic library is a record of uninterpreted functions (`Crypto.Primitives`) with four laws and nothing more:
the block cipher maps 16-byte blocks to 16-byte blocks and its decrypter inverts the encrypter, digests are 32 bytes
long, RSA decryption inverts encryption, and verification accepts a genuine signature. `Crypto.TOY` meets the laws and
`Completion.HonestPairExists` shows that an honest pair exists.

`Endpoint`, `ClientMachine` and `ServerMachine` are the two controllers as step machines over a byte stream, one step a
record. `HonestRun`, `TwoParty` and `Completion` run the two against each other as a concurrent system: a program
counter per side, a byte FIFO per direction, every interleaving. An honest pair (`HonestRun.Honest`) has certificates
that parse to themselves and belong to the private keys, RSA operations that succeed, and certificates, secrets and
signatures within the exact framing bounds below. There a step moves a record and updates the state at once;
`Interleaving` splits it in two, as in the source, and shows what the difference amounts to.

`ArbitraryPeer` and `ArbitraryServer` drop the honest peer and say for every byte stream when a controller succeeds and
in what state. `Connection` and `TlsConnection` are the classes as the source has them, with mutable fields, buffers
that are filled in place and the two controllers as methods; each controller is proved to do what its step machine does,
on every input. `SecureChannel` is the data phase.

**Placement and rerouting.** `Placement` holds the one-pass minimax selection; sums of latencies are float32 sums,
rounded to nearest with overflow to infinity (`Float32`). `Store` keeps the chat rooms as the source does: a backing
array and a length, removals that shift the tail within that array, an append that writes into spare capacity.
`Matchmaking` holds the sweep, which captures the array and the length once and reads each element when its turn comes,
while the reroutes write to the same array. `Slices` states that on arrays with stale slots, for any rooms. A list is
well-formed when the users of every room that can be placed are in no other room; then the sweep comes down to one over
a list of rooms (`Rooms`). `Convergence` proves what one sweep keeps and how fast repeated sweeps place every room,
`Halving` and `Conservation` exactly when sweeps halve the misplaced rooms and when they keep every room. `Registry` is
the IP-to-username map.

**Chat.** `ChatRooms` is the room broadcast under one mutex and `LineSplitter` the client's incremental splitting of
the stream; `ChatRooms.MemberSeesRoom` joins the two.

A Go run-time panic (a slice or index out of range, a nil pointer, a failed type assertion) is the outcome `Panic`,
not a precondition, so the controllers are total on every byte stream.

`dafny verify dfyconfig.toml` checks the whole project (Dafny 4.11).

## Where the code and its documentation differ

The model follows the code in each of these.

- The comments refer to RFC 5246, but the padding is that of section 6.3 of RFC 5652 (1 to 16 bytes, each holding their
  number) instead of section 6.2.3.2 of RFC 5246, and a record carries no MAC. The MAC keys and IVs of the key block
  are derived and never used.
- Only the last padding byte is looked at when decrypting.
- Finished never enters the message history, its verify data is not derived by the PRF, carries no label (so both sides
  send the same payload) and is never compared.
- The length in front of the encrypted pre-master secret is written and never read; the one in front of a signature is.
- A handshake header has a 24-bit length of which only 16 bits are ever filled in, and readers ignore it.
- `TLSConnection.Read` reports the size of the caller's buffer, loses what does not fit and ignores the content type.
- The comment on the placement function mentions ties at random among servers of equal worst latency; the code breaks
  those ties by combined latency first.
- The comments on the background analysis speak of ten seconds and of missing heartbeats; the code sweeps every four
  seconds and looks at delays only.
- `RemoveChatInstancesForUser` removes one room at most.
- A declined match falls through to the creation of the room.
- A chat client ends what it sends with a newline and the server adds another, so each typed message reaches the
  members as two, the second one empty (`ChatRooms.TypedMessageArrivesTwice`).

## Properties that hold only under a condition

- Messages, certificates, encrypted secrets and signatures survive their length fields exactly up to 65503, 65525,
  65529 and 65529 bytes: `SecureChannel.MessageTransfer`, `Payloads.CertificateTransfer`,
  `Payloads.KeyExchangeTransfer` and `Payloads.SignatureTransfer` are equivalences.
- For given pairs of users, every sweep over rooms of these pairs halves the misplaced rooms if and only if every pair
  has a unique best server or at most one pair can be placed at all (`Halving.HalvesExactlyWhen`).
  `Convergence.TieExample` is a concrete list on which a sweep with tied optima places nothing. With ties the rooms are
  still all placed, after as many sweeps as there are rooms (`Convergence.TiedOptimaConverge`).
- For given pairs of users, one room a pair, every sweep keeps every room if and only if no pair that can be placed
  shares a user with another pair (`Conservation.ConservesExactlyWhen`). Room creation does not rule that out. A single
  reroute keeps every room if and only if the first user is in no earlier room and the second in no other
  (`Convergence.RerouteConservesExactlyWhen`). Otherwise there is one room less: it loses the rooms it takes out, except
  the one it is about, and doubles that one if it took out two others (`Convergence.RerouteLosesAndDoubles`,
  `Convergence.RerouteDoubles`).
- The server chosen is Pareto-optimal in exact arithmetic (`Placement.OptimalIsPareto`), but not always in float32: a
  client reports the largest float32 for a server it has not reached, next to which 5 and 100 are the same, and the
  dominated server is a candidate too (`Placement.UnreachedServersTie`). It fails exactly when one client is equally far
  from two servers, the other is nearer to one of them but the float32 sum absorbs the difference, and no common server
  is better than the slower of the two (`Placement.OptimalIsParetoExactlyWhen`). For whole delays up to 2^23 it never
  fails (`Placement.WholeDelaysArePareto`). Without the tie-break it fails in more cases
  (`Placement.MinimaxAloneIsDominated`).
- Between using the connection and updating its history a side lags by one payload (`Interleaving.HistoriesLag`). The
  histories as they are agree, up to what is in flight, if and only if neither side lags, or both lag and nothing is in
  flight (`Interleaving.HistoriesAgreeExactlyWhen`); with the payload added they always do
  (`Interleaving.FineTranscriptAgreement`).
- A chat line arrives as one message exactly when neither name nor message holds a newline
  (`ChatRooms.LineIsOneMessage`).

## Model

| member | source | states |
|---|---|---|
| `Cbc.Pad` | TLS/tls/internal-tls-api.go:59-61 | padding leaves the message in front, adds between 1 and 16 bytes and reaches the next multiple of 16, a whole block if the length already was one; every added byte holds how many were added |
| `Cbc.CbcRoundTrip` | TLS/tls/internal-tls-api.go:70-71 | chained block by block from any initial block, decryption undoes encryption |
| `Cbc.RoundTrip` | TLS/tls/internal-tls-api.go:58-94 | `decryptContent` recovers what `encryptContent` was given, for every message and every IV |
| `Cbc.DecryptedLength` | TLS/tls/internal-tls-api.go:76-93 | whatever decrypts at all has at least two whole blocks, and loses the IV and 1 to 16 bytes of padding |
| `Cbc.CiphertextByBlock` | TLS/tls/internal-tls-api.go:63-71 | the ciphertext starts with the IV, and each further block is the padded block xor the ciphertext block before it, encrypted; stated block by block, without the recursion |
| `Cbc.PlaintextByByte` | TLS/tls/internal-tls-api.go:81-93 | each decrypted byte is that of its ciphertext block, decrypted, xor the ciphertext block before it |
| `Cbc.DecryptsExactlyWhen` | TLS/tls/internal-tls-api.go:76-93 | decryption succeeds if and only if there are at least two whole blocks and the last byte of the last one, decrypted, is from 1 to 16; it then drops that many bytes; and which input gets which error |
| `ByteSeqs.XorIsBitwise` | TLS/tls/internal-tls-api.go:70-71 | each bit of the xor is set exactly where one of the two is |
| `ByteSeqs.LengthBytes` | TLS/tls/client-handlers.go:72 | a length field holds the low 16 bits, the more significant byte first, behind a zero where it has three bytes |
| `Cbc.EncryptBlocks` | TLS/tls/internal-tls-api.go:68-71 | filling the ciphertext buffer in place behind the IV stores exactly the CBC encryption and touches nothing else |
| `Cbc.DecryptBlocks` | TLS/tls/internal-tls-api.go:85-87 | filling the plaintext buffer in place stores exactly the CBC decryption |
| `Prf.PHashPrefix` | TLS/tls/crypto-utils.go:84-91 | more terms of P_hash only extend fewer |
| `Prf.Prf` | TLS/tls/crypto-utils.go:95-113 | for every chain of HMACs that starts with the seed, byte k of the result is byte k modulo 32 of HMAC(secret, A(k/32+1) + seed), as in section 5 of RFC 5246; the loop runs once for every digest needed |
| `Prf.OutputIsPrefixOfPHash` | TLS/tls/crypto-utils.go:98-112 | any number of terms that is large enough gives the same output, so rounding up to whole digests is harmless |
| `Prf.OutputPrefix` | TLS/tls/crypto-utils.go:95-113 | a shorter output is a prefix of a longer one |
| `Prf.OutputIsPHash` | TLS/tls/crypto-utils.go:84-91 | the recursive definition, byte by byte, is the concatenation of HMAC(secret, A(i) + seed) over the HMAC chain |
| `Prf.LabelsAreText` | TLS/tls/crypto-utils.go:124 | the two labels are the texts of the source, character by character |
| `Records.ReadOfWritten` | TLS/tls/internal-tls-api.go:17-53 | a written body of any length is read back as far as its truncated 16-bit length says, the rest staying on the stream |
| `Records.EncodedBytes` | TLS/tls/internal-tls-api.go:19-27 | a record byte by byte: content type, version 3.3, the length modulo 65536 with its more significant byte first, the body |
| `Records.FramingIsExact` | TLS/tls/internal-tls-api.go:17-53 | a written record is read back unchanged if and only if its body has fewer than 65536 bytes |
| `Records.ReadCharacterised` | TLS/tls/internal-tls-api.go:32-53 | a read yields a record and a rest if and only if the stream is that record's encoding followed by that rest, whatever the version bytes |
| `Records.ReadManyCharacterised` | TLS/tls/internal-tls-api.go:17-53 | a stream decodes to a list of records if and only if it is their concatenated encoding: framing neither splits, merges nor loses a record |
| `Payloads.RandomTransfer` | TLS/tls/client-handlers.go:23-48 | a hello built, framed, read and parsed yields the random it was built from |
| `Payloads.CertificateTransfer` | TLS/tls/crypto-utils.go:68-80 | a certificate crosses the 24-bit, 16-bit and record length fields and is parsed to itself if and only if it has at most 65525 bytes |
| `Payloads.KeyExchangeTransfer` | TLS/tls/tls-server-fsm.go:371-376 | the encrypted pre-master secret arrives unchanged if and only if it has at most 65529 bytes |
| `Payloads.SignatureTransfer` | TLS/tls/tls-server-fsm.go:338-347 | the signature arrives unchanged if and only if it has at most 65529 bytes |
| `Payloads.MessageBytes` | TLS/tls/client-handlers.go:43-47 | every handshake message starts with its type, a zero and its length modulo 65536 |
| `Payloads.HelloBytes` | TLS/tls/client-handlers.go:24-47 | a hello byte by byte: length 41, version 3.3, the random, no session id, one cipher suite 00 2F, null compression |
| `Payloads.CertificateBytes` | TLS/tls/server-handlers.go:75-100 | all three length fields of a certificate message and the certificate behind them |
| `Payloads.KeyExchangeBytes` | TLS/tls/client-handlers.go:106-114 | both length fields, of which the inner one is never read, and the encrypted secret behind them |
| `Payloads.CertificateVerifyBytes` | TLS/tls/client-handlers.go:135-144 | both length fields and the signature behind them |
| `Payloads.FinishedBytes` | TLS/tls/client-handlers.go:151-163 | 14 00 00 0C, then the first twelve bytes of SHA-256 over the master secret followed by the history |
| `Payloads.RandomRead` | TLS/tls/tls-server-fsm.go:385-388 | on any bytes, the random is bytes 6 to 38, and less than 38 bytes panic |
| `Payloads.CertificateRead` | TLS/tls/crypto-utils.go:68-80 | on any bytes, the certificate is what the third length field says and it parses; a length beyond the end panics, the other two fields are not looked at |
| `Payloads.PreMasterRead` | TLS/tls/tls-server-fsm.go:371-376 | on any bytes, the encrypted secret is everything from byte 6 on, whatever its length field says |
| `Payloads.SignatureRead` | TLS/tls/tls-server-fsm.go:338-347 | on any bytes, the signature is as much as its length field says, and an error if there is less |
| `Payloads.ShortAreRejected` | TLS/tls/tls-server-fsm.go:339-342 | which parser answers an error and which panics on messages too short for their fields |
| `Endpoint.HandshakeOutcome` | TLS/tls/tls-server-fsm.go:83-97 | on any stream, which failure a plaintext message meets first: end of stream, content type, empty body, message type |
| `Endpoint.FinishedOutcome` | TLS/tls/tls-server-fsm.go:283-296 | on any stream, which failure Finished meets first: it is decrypted before its content type is looked at |
| `ClientMachine.PreMasterSecret` | TLS/tls/client-handlers.go:96-99 | 48 bytes, the version 3.3 and then the random ones |
| `ClientMachine.Step` | TLS/tls/tls-client-fsm.go:32-121 | every step of the client lowers its rank, or stays in the receive loop having consumed input |
| `ServerMachine.Step` | TLS/tls/tls-server-fsm.go:39-80 | every step of the server lowers its rank |
| `ClientMachine.Run` | TLS/tls/tls-client-fsm.go:32-81 | the client's controller terminates in success or failure on any finite input |
| `ServerMachine.Run` | TLS/tls/tls-server-fsm.go:39-80 | the server's controller terminates in success or failure on any finite input |
| `HonestRun.FinishedDecrypts` | TLS/tls/tls-server-fsm.go:288-293 | each side's Finished record decrypts at the other to 14 00 00 0C and the first twelve bytes of SHA-256 over the shared master secret and history |
| `HonestRun.DerivationAgrees` | TLS/tls/tls-client-fsm.go:263-285 | both sides derive the same master secret and key block from the two randoms and the pre-master secret, whatever else their states hold |
| `HonestRun.ServerReceivesVerify` | TLS/tls/tls-server-fsm.go:237-265 | the history the server checks the signature against is the one the client signed, and the check succeeds |
| `HonestRun.PayloadIsHeaded` | TLS/tls/server-handlers.go:39-43 | each of the eight plaintext messages of a handshake starts with its type and its exact length |
| `HonestRun.RecordBytes` | TLS/tls/internal-tls-api.go:17-30 | each of the twelve records on the wire: content type, version, exact length and body; one byte for ChangeCipherSpec and 48 for Finished |
| `HonestRun.ClientSendStep` | TLS/tls/tls-client-fsm.go:123-214 | in each of its six sending states the client writes exactly the next record of the handshake, whose bytes are in `HonestRun.RecordBytes` and `HonestRun.PayloadIsHeaded`, and moves to the next state |
| `HonestRun.ClientReceiveStep` | TLS/tls/tls-client-fsm.go:83-121 | in each of its receiving states the client accepts the next record of the handshake, reads no further and takes no error branch |
| `HonestRun.ServerSendStep` | TLS/tls/tls-server-fsm.go:106-180 | in each of its six sending states the server writes exactly the next record |
| `HonestRun.ServerReceiveStep` | TLS/tls/tls-server-fsm.go:183-300 | in each of its receiving states the server accepts the next record, reads no further and takes no error branch |
| `TwoParty.ClientAdvances` | TLS/tls/tls-client-fsm.go:32-81 | in a state where the sides have handled i and j records, the client can move if and only if record i is its own to send or has arrived, and then it handles record i |
| `TwoParty.ServerAdvances` | TLS/tls/tls-server-fsm.go:39-80 | the same for the server and record j |
| `TwoParty.ReachableStates` | TLS/tls/tls-client-fsm.go:32-214 | the inductive invariant: after n steps of any interleaving, both states and both FIFOs are determined by how many records each side has handled, n in all, and a side is ahead only by records it sent |
| `TwoParty.LegalStatesAreReached` | TLS/tls/tls-client-fsm.go:32-214 | conversely, every pair of record counts in which a side is ahead only by records it sent is reached by some interleaving |
| `TwoParty.FlightCarriesHistory` | TLS/tls/tls-server-fsm.go:83-265 | the bytes of a flight, decoded, hold exactly the plaintext handshake payloads by which the two histories differ |
| `TwoParty.TranscriptAgreement` | TLS/tls/tls-client-fsm.go:32-214 | in every state reachable between the steps of the two controllers, at most one direction carries bytes, and the longer history is the shorter one followed by exactly the plaintext handshake payloads in flight, in order |
| `Interleaving.FineReachable` | TLS/tls/tls-server-fsm.go:130-139 | with the use of the connection and the update of the own state as two steps, every reachable state is determined by how many records each side has handled on the connection and in its state, which add up to the steps taken |
| `Interleaving.FineRunsRefine` | TLS/tls/tls-server-fsm.go:130-139 | every reachable state at that grain becomes, once both sides have caught up, the last state of a run of the coarser system |
| `Interleaving.HistoriesAgreeExactlyWhen` | TLS/tls/tls-client-fsm.go:123-132 | in every reachable state at that grain the histories as they are differ by exactly the payloads in flight if and only if neither side lags, or both lag and nothing is in flight |
| `Interleaving.HistoriesLag` | TLS/tls/tls-client-fsm.go:126-130 | a state in which they do not agree: right after the client has written its hello |
| `Interleaving.FineTranscriptAgreement` | TLS/tls/tls-client-fsm.go:123-132 | in every reachable state at that grain, a side lags by the one payload it has written or read and not appended yet, or not at all; with the lags added, the histories differ by exactly the payloads in flight |
| `Interleaving.FineRunsComplete` | TLS/tls/tls-server-fsm.go:39-80 | at that grain, too, no honest run deadlocks or fails, and all complete after exactly 48 steps |
| `Completion.HonestRunsComplete` | TLS/tls/tls-server-fsm.go:39-80 | no interleaving deadlocks, takes an error branch or exceeds 24 steps; a run can be extended until both sides have succeeded, which is after exactly 24 |
| `Completion.KeyAgreement` | TLS/tls/tls-client-fsm.go:248-285 | when both controllers have completed, both sides hold the same history, randoms, master secret and key block, each side's encryption key is the other's decryption key, and the secrets are those of sections 8.1 and 6.3 of RFC 5246 |
| `Completion.ChannelWorks` | TLS/tls/tls.go:44-67 | after any completed honest run, every list of messages that fit crosses unchanged and in order, in either direction |
| `Completion.ClientAlone` | TLS/tls/tls-client-fsm.go:32-81 | run on an honest server's bytes, from any point on, the client's controller completes, consumes all of them and writes exactly its own records |
| `Completion.ServerAlone` | TLS/tls/tls-server-fsm.go:39-80 | the same for the server's controller and an honest client's bytes |
| `Completion.HonestPairExists` | TLS/tls/tls.go:19-42 | the assumptions on an honest pair can be met |
| `ArbitraryPeer.FlightIsAccepted` | TLS/tls/tls-client-fsm.go:83-121 | the receive loop takes in any (ServerHello, parseable Certificate, CertificateRequest)* ServerHelloDone, appends exactly the bodies to the history, keeps the last random and certificate, and leaves what follows unread |
| `ArbitraryPeer.AcceptedIsFlight` | TLS/tls/tls-client-fsm.go:83-121 | whatever bytes arrive, leaving the loop without an error means that such a flight was at their front |
| `ArbitraryPeer.FlightCharacterised` | TLS/tls/tls-client-fsm.go:83-121 | the loop succeeds if and only if the stream starts with such a flight |
| `ArbitraryPeer.ServerCharacterised` | TLS/tls/tls-server-fsm.go:83-335 | for every byte stream the server succeeds if and only if six records can be read that are ClientHello, Certificate, ClientKeyExchange, a CertificateVerify that verifies over the history so far, ChangeCipherSpec and an encrypted Finished; its history is then the received bodies with its own hello flight spliced in after the first, and it has read and written nothing more than that |
| `ArbitraryPeer.FinalFinished` | TLS/tls/server-handlers.go:114-126 | the Finished that a successful server sends decrypts to 14 00 00 0C and the first twelve bytes of SHA-256 over its master secret and history |
| `ArbitraryPeer.SendsFlight` | TLS/tls/tls-server-fsm.go:106-180 | the hello flight is written and appended to the history as four messages in order, reading nothing |
| `ArbitraryServer.ClientCharacterised` | TLS/tls/tls-client-fsm.go:32-246 | for every byte stream the client succeeds if and only if it starts with a well-formed flight whose last certificate has an RSA key that can be encrypted to, the client can sign its history, and a ChangeCipherSpec and a decryptable Finished follow |
| `ArbitraryServer.Conviction` | TLS/tls/tls-client-fsm.go:32-246 | the state, the unread rest and the exact bytes written of every successful client, from the flight it accepted |
| `ArbitraryServer.AnswerFinished` | TLS/tls/client-handlers.go:151-163 | the Finished that the client sends decrypts to 14 00 00 0C and the first twelve bytes of SHA-256 over its master secret and history |
| `ArbitraryServer.FromAnswer` | TLS/tls/tls-client-fsm.go:134-246 | once the server's flight is over, success depends only on the last certificate, the two private operations and the next two records; the five records of the answer are then what is written |
| `Connection.Conn.ReadFull` | TLS/tls/internal-tls-api.go:34-36 | a full buffer is exactly the next bytes of the stream; a short stream is an error and consumed whole |
| `Connection.PutUint16` | TLS/tls/internal-tls-api.go:20-21 | the two bytes written are the big-endian low 16 bits of the length |
| `TlsConnection.TLSConnection.constructor` | TLS/tls/tls.go:32-41 | a new connection has an empty history and no secrets, peer certificate or keys |
| `TlsConnection.TLSConnection.WriteTLSContent` | TLS/tls/internal-tls-api.go:17-30 | appends one encoded record to the stream and leaves the incoming bytes alone |
| `TlsConnection.TLSConnection.ReadTLSContent` | TLS/tls/internal-tls-api.go:32-53 | two buffer fills read the record that `Records.Read` finds, consuming exactly it |
| `TlsConnection.TLSConnection.EncryptContent` | TLS/tls/internal-tls-api.go:58-74 | the ciphertext buffer filled in place holds what `Cbc.Encrypt` specifies |
| `TlsConnection.TLSConnection.DecryptContent` | TLS/tls/internal-tls-api.go:76-94 | returns the specified plaintext or error; an IV with nothing behind it panics |
| `TlsConnection.TLSConnection.GenerateMasterSecret` | TLS/tls/crypto-utils.go:123-128 | the PRF loop yields the 48 bytes of section 8.1 of RFC 5246 and nothing else of the state changes |
| `TlsConnection.TLSConnection.ClientGenerateKeys` | TLS/tls/tls-client-fsm.go:263-285 | the key block is cut as in section 6.3 of RFC 5246, and the client encrypts with the client's write key |
| `TlsConnection.TLSConnection.ServerGenerateKeys` | TLS/tls/tls-server-fsm.go:402-433 | the same cut of the same block, and the server encrypts with the server's write key |
| `TlsConnection.TLSConnection.ReceiveServerMessages` | TLS/tls/tls-client-fsm.go:83-121 | the loop ends in the state, unread bytes and outcome of the recursive receive loop, on every input |
| `TlsConnection.TLSConnection.SendClientKeyExchange` | TLS/tls/tls-client-fsm.go:149-165 | takes the same branch, writes the same record and changes the same state as the step machine |
| `TlsConnection.TLSConnection.SendCertificateVerify` | TLS/tls/tls-client-fsm.go:167-181 | signs the history as it is before the message itself is appended |
| `TlsConnection.TLSConnection.HandshakeClientController` | TLS/tls/tls-client-fsm.go:32-81 | on every input the controller ends with the outcome, state, unread bytes and output of the client's step machine |
| `TlsConnection.TLSConnection.ReceiveClientHello` | TLS/tls/tls-server-fsm.go:83-103 | the message enters the history before its random is looked at |
| `TlsConnection.TLSConnection.SendServerMessages` | TLS/tls/tls-server-fsm.go:106-128 | the four hello messages in order, each written and appended to the history |
| `TlsConnection.TLSConnection.ReceiveClientCertificate` | TLS/tls/tls-server-fsm.go:183-206 | a certificate that does not parse is an error, the message being in the history already |
| `TlsConnection.TLSConnection.ReceiveClientKeyExchange` | TLS/tls/tls-server-fsm.go:209-234 | the decrypted pre-master secret, or the error of the branch taken |
| `TlsConnection.TLSConnection.OnCertificateVerify` | TLS/tls/tls-server-fsm.go:338-368 | the signature is checked against the history without the message that carries it; nothing changes |
| `TlsConnection.TLSConnection.ReceiveCertificateVerify` | TLS/tls/tls-server-fsm.go:237-265 | only a verified message enters the history, and only then are the secrets derived |
| `TlsConnection.TLSConnection.HandshakeServerController` | TLS/tls/tls-server-fsm.go:39-80 | on every input the controller ends with the outcome, state, unread bytes and output of the server's step machine |
| `TlsConnection.TLSConnection.Write` | TLS/tls/tls.go:57-67 | one application-data record with the encrypted message is appended to the stream |
| `TlsConnection.TLSConnection.Read` | TLS/tls/tls.go:44-55 | one record is consumed; the buffer holds as much of the decrypted message as fits and is unchanged behind it; the count is the buffer's length |
| `SecureChannel.MessageTransfer` | TLS/tls/internal-tls-api.go:17-94 | a message arrives as it was sent, taking exactly its own record off the stream, if and only if it has at most 65503 bytes |
| `SecureChannel.WrittenBytes` | TLS/tls/tls.go:57-67 | what `Write` puts on the wire: content type 23, version 3.3, the length of the body modulo 65536, the encrypted message |
| `SecureChannel.MessagesTransfer` | TLS/tls/tls.go:44-67 | any list of messages that fit, encrypted under any IVs and written in order, is read back as that list |
| `Placement.ConsiderServer` | Central/internal/matchmaking/matchmaking.go:171-184 | how the set of best servers changes when one more is considered: it replaces, is ignored or joins, by comparison with any one of them |
| `Placement.CombineLatencies` | Central/internal/matchmaking/matchmaking.go:150-157 | in any order of the map iterations, every common server ends up with its worse latency |
| `Placement.Consider` | Central/internal/matchmaking/matchmaking.go:171-184 | one iteration keeps the list equal to the best of the servers seen so far |
| `Placement.MinimizeLatency` | Central/internal/matchmaking/matchmaking.go:160-185 | in any order of the map iteration, the list holds exactly the common servers that minimise worst, then combined latency, each once |
| `Placement.ComputeOptimalServer` | Central/internal/matchmaking/matchmaking.go:148-199 | an error if and only if there is no common server; otherwise the drawn element of a list of exactly the optimal servers |
| `Float32.RoundGrows` | Central/internal/matchmaking/matchmaking.go:171 | the float32 sum keeps the order of the exact sums |
| `Float32.RepresentableIsExact` | Central/internal/matchmaking/matchmaking.go:171 | 24 significant bits times a power of two from the format's range are not changed |
| `Float32.WholeSumsAreExact` | Central/internal/matchmaking/matchmaking.go:171 | the sum of whole numbers is exact up to 2^24 |
| `Float32.RoundsToNearest` | Central/internal/matchmaking/matchmaking.go:171 | any sum in the normal range is off by at most one part in 2^24 |
| `Float32.LargestAbsorbs` | Central/internal/matchmaking/matchmaking.go:171 | what is added to the largest float32 is lost below half a unit |
| `Float32.LargestOverflows` | Central/internal/matchmaking/matchmaking.go:171 | from half a unit on the sum is infinite |
| `Placement.DominatorsAreTied` | Central/internal/matchmaking/matchmaking.go:171-184 | a server that is as fast as an optimal one for both clients and faster for one is itself a candidate, tied in worst latency and in the float32 sum |
| `Placement.OptimalIsParetoExactlyWhen` | Central/internal/matchmaking/matchmaking.go:159-185 | read off the delay lists: every candidate is Pareto-optimal among all common servers if and only if, for every two servers of which one client is equally far and between which the float32 sum absorbs the other client's difference, some common server is better than the slower one |
| `Placement.DominatedIsAbsorbed` | Central/internal/matchmaking/matchmaking.go:171-184 | an optimal server is dominated by exactly those servers that differ from it in one delay only, by a difference that the sum absorbs and that is not the worst one |
| `Placement.NothingAbsorbedIsPareto` | Central/internal/matchmaking/matchmaking.go:171-184 | where no sum absorbs a difference, every candidate is Pareto-optimal |
| `Placement.OptimalIsPareto` | Central/internal/matchmaking/matchmaking.go:159-185 | if the sums of the candidates are exact, no common server is as fast for both clients and faster for one |
| `Placement.WholeDelaysArePareto` | Central/internal/matchmaking/matchmaking.go:171-184 | for whole delays up to 2^23 no common server is as fast as a candidate for both clients and faster for one |
| `Placement.UnreachedServersTie` | Central/internal/matchmaking/matchmaking.go:171-184 | two servers one client has not reached, at 100 and 5 from the other: both are candidates, although the second dominates the first |
| `Placement.MinimaxAloneIsDominated` | Central/internal/matchmaking/matchmaking.go:173-184 | a server of least worst latency that is dominated and that the tie-break rules out |
| `Placement.OptimalExists` | Central/internal/matchmaking/matchmaking.go:187-189 | there is an optimal server exactly when there is a common one |
| `Placement.OptimalIsSymmetric` | Central/internal/matchmaking/matchmaking.go:148-185 | swapping the clients does not change the candidates |
| `Rooms.TurnShape` | Central/internal/matchmaking/matchmaking.go:320-339 | a turn of the sweep changes nothing and leaves a room that is not misplaced, or rotates the room to the end, onto a best server |
| `Rooms.SeparateRotates` | Central/internal/matchmaking/matchmaking.go:336-338 | if the first user is in no earlier room and the second in no other, remove, remove and insert take the room out of its place and put it at the end, on its new server |
| `Rooms.RerouteRotates` | Central/internal/matchmaking/matchmaking.go:336-338 | if the users of each room that can be placed are in no other room, that is what every reroute does |
| `Rooms.RotationKeepsForm` | Central/internal/matchmaking/matchmaking.go:336-338 | a reroute keeps two users per room, and the users of each room that can be placed in no other room |
| `Convergence.RerouteConservesExactlyWhen` | Central/internal/client/store.go:159-182 | whoever is in how many rooms: a reroute keeps the multiset of rooms if and only if the first user is in no earlier room and the second in no other, and otherwise leaves one room less |
| `Convergence.RerouteBalance` | Central/internal/client/store.go:159-182 | whoever is in how many rooms: a reroute takes out the first room of the first user and the first other room of the second, and puts in the room it is about; the first of them is not behind that room |
| `Convergence.RerouteLosesAndDoubles` | Central/internal/matchmaking/matchmaking.go:336-338 | exactly which rooms a reroute loses, and that it doubles the room it is about exactly when it took out two others, both earlier in the list |
| `Convergence.RerouteDoubles` | Central/internal/matchmaking/matchmaking.go:336-338 | three rooms of which the last shares a user with each of the others: both are gone, and the last is there twice |
| `Convergence.IdentitiesAreListed` | Central/internal/client/store.go:23-28 | what conservation counts: the ids of the rooms with their users, each as often as it is listed |
| `Conservation.ConservesExactlyWhen` | Central/internal/matchmaking/matchmaking.go:320-339 | for pairs of users, one room a pair, every sweep over the array keeps the multiset of rooms if and only if no pair that can be placed shares a user with another pair |
| `Conservation.SharingLoses` | Central/internal/matchmaking/matchmaking.go:336-338 | a pair that can be placed and shares a user with another always has a list and a sweep that loses a room |
| `Convergence.SweepConserves` | Central/internal/matchmaking/matchmaking.go:320-339 | a sweep over a well-formed list keeps the multiset of room ids with their users, and every room is on its old server or on a best one; ties or not |
| `Convergence.WorstLatencyNeverRises` | Central/internal/matchmaking/matchmaking.go:329-338 | the worst latency of a room does not rise if its old server still serves both users |
| `Convergence.SweepHalves` | Central/internal/matchmaking/matchmaking.go:314-339 | with unique optima a sweep at least halves the number of misplaced rooms, although each reroute makes the iteration skip a room |
| `Halving.HalvesExactlyWhen` | Central/internal/matchmaking/matchmaking.go:314-339 | for pairs of users of which those that can be placed share no user with any other, every sweep of every well-formed list of rooms of these pairs halves the misplaced rooms if and only if every pair has a unique best server or at most one pair can be placed |
| `Halving.SoleRoomIsPlaced` | Central/internal/matchmaking/matchmaking.go:320-339 | if only one room can be placed, one sweep places it, ties or not |
| `Halving.TieStalls` | Central/internal/matchmaking/matchmaking.go:195-198 | a pair with tied optima next to another pair that can be placed always has a list and a sweep that does not halve |
| `Convergence.UniqueOptimaConvergeFast` | Central/internal/matchmaking/matchmaking.go:304-339 | fewer than 2^k misplaced rooms are all placed after k sweeps |
| `Convergence.SweepAdvances` | Central/internal/matchmaking/matchmaking.go:320-339 | with ties or without, a sweep moves the last misplaced room at least one place towards the front |
| `Convergence.TiedOptimaConverge` | Central/internal/matchmaking/matchmaking.go:304-339 | with ties or without, as many sweeps as there are rooms place every room, and later ones keep it so |
| `Convergence.SettledRoomsStay` | Central/internal/matchmaking/matchmaking.go:334-339 | with unique optima and nothing misplaced a sweep changes nothing |
| `Convergence.TiesCanStall` | Central/internal/matchmaking/matchmaking.go:195-198 | moving a room between tied servers can make the sweep skip the one misplaced room |
| `Convergence.TieExample` | Central/internal/matchmaking/matchmaking.go:314-339 | a concrete sweep with tied optima that places nothing, so halving needs uniqueness |
| `Matchmaking.MatchmakingServer.BestServerFor` | Central/internal/matchmaking/matchmaking.go:323-333 | a best server exactly when both delay lists exist and share a server |
| `Matchmaking.MatchmakingServer.CreateRoom` | Central/internal/matchmaking/matchmaking.go:277-297 | a room is created exactly when both users can be placed, and is not misplaced |
| `Matchmaking.MatchmakingServer.Reroute` | Central/internal/matchmaking/matchmaking.go:321-339 | the loop body on the shared array is one turn at that slot, live or stale, for any rooms, and never needs a new array |
| `Matchmaking.MatchmakingServer.Sweep` | Central/internal/matchmaking/matchmaking.go:314-339 | the loop over the captured slice, whose elements change under it, is a sweep over the slots with every choice of draws; no room is invented, every room is on its old server or on a best one, and for well-formed lists it is a sweep as `Rooms.Sweeps` defines it |
| `Slices.SlotSweepIsSweep` | Central/internal/client/store.go:184-188 | handing out the array without copying is harmless for well-formed lists: every slot the iteration meets is then the room at that position of the present list |
| `Slices.SweepInventsNothing` | Central/internal/matchmaking/matchmaking.go:314-339 | whoever is in how many rooms, a sweep ends with no more rooms than it began with, each of them there before (once or more often), on its old server or on a best one, even when it rerouted from stale slots |
| `Slices.SlotTurnIsTurn` | Central/internal/matchmaking/matchmaking.go:320-339 | for well-formed lists a turn on the slots is a turn on the list and the number of rooms stays the same |
| `Store.InMemoryStore.InsertChatInstance` | Central/internal/client/store.go:127-133 | appends a room, in the same array while there is capacity, leaving every other slot alone, and in a new one otherwise |
| `Store.InMemoryStore.RemoveIndex` | Central/internal/client/store.go:139 | shifting the tail within the array removes exactly the room at the index; the slots behind the new end, the stale copy of the last room included, keep what they held |
| `Store.InMemoryStore.RemoveChatInstance` | Central/internal/client/store.go:134-144 | removes the first room with the id, and reports whether there was one |
| `Store.InMemoryStore.RemoveChatInstancesForUser` | Central/internal/client/store.go:159-182 | removes the first room the user is in and no other |
| `Store.InMemoryStore.Create` | Central/internal/client/store.go:56-68 | refuses a username that is in use, otherwise registers it, replacing what the IP had |
| `Store.InMemoryStore.ReadByUsername` | Central/internal/client/store.go:84-95 | a scan in any order finds an IP that has the username, or there is none |
| `Store.InMemoryStore.Delete` | Central/internal/client/store.go:98-108 | removes the entry, and reports whether there was one |
| `Registry.StaysInjective` | Central/internal/client/store.go:56-108 | no sequence of registrations, re-registrations and removals ever gives a username to two IPs |
| `Registry.ReadFindsLastRegistration` | Central/internal/client/store.go:56-108 | after any history `Read` answers the username of the last registration of that IP that was not refused, unless the IP was removed after it |
| `Registry.LookupIsInverse` | Central/internal/client/store.go:71-95 | after any such sequence the lookup by username does not depend on the map order and is the exact inverse of the lookup by IP |
| `LineSplitter.MessagesCharacterised` | Client/client/client.go:147-161 | messages and remainder are the one way to write the stream as delimiter-free pieces, each message followed by the delimiter |
| `LineSplitter.MessagesContinue` | Client/client/client.go:134-137 | splitting the remainder together with what arrives next continues where the split had stopped |
| `LineSplitter.ChunkingIsIrrelevant` | Client/client/client.go:129-141 | however the stream is cut into reads, the same messages come out and the same remainder is kept |
| `LineSplitter.SplitMessages` | Client/client/client.go:147-161 | the one-pass loop with its two indices computes that decomposition |
| `LineSplitter.ChatReader.OnRead` | Client/client/client.go:129-140 | one read passes on the messages it completes and keeps the rest |
| `LineSplitter.ChatReader.OnReads` | Client/client/client.go:102-141 | a whole session of reads passes on the messages of the chunked stream |
| `ChatRooms.DeliverReachesEachOnce` | Server/internal/chat/chat.go:109-117 | a broadcast adds its line once to each member and to nobody else |
| `ChatRooms.RunsAreConsistent` | Server/internal/chat/chat.go:75-96 | over every run, each connection is listed once, in the room it announced and in no other |
| `ChatRooms.DeliveryIsRoomLog` | Server/internal/chat/chat.go:75-118 | over every run of joins and sends, what a connection has received is exactly its room's broadcast log from its join position on |
| `ChatRooms.MembersAgree` | Server/internal/chat/chat.go:99-118 | two members of a room see the same lines in the same order from the later join on |
| `ChatRooms.ChatManager.Join` | Server/internal/chat/chat.go:75-78 | the connection becomes the last member of its room, and the members of every other room stay the same |
| `ChatRooms.ChatManager.BroadcastMessage` | Server/internal/chat/chat.go:99-118 | the loop writes the line to the room's connections in order |
| `ChatRooms.ChatManager.Handle` | Server/internal/chat/chat.go:75-96 | the methods carry out the events of a run as the state machine does |
| `ChatRooms.MemberSeesRoom` | Client/client/client.go:129-161 | end to end: however TCP cuts the stream, a member's client passes on exactly the lines of its room's log from its join on, with nothing left over |
| `ChatRooms.LineIsOneMessage` | Server/internal/chat/chat.go:110 | a line comes through as one message if and only if neither name nor message holds a newline |
| `ChatRooms.TypedMessageArrivesTwice` | Client/client/client.go:50 | what a client sends itself, newline included, arrives as the message and an empty one |

## Left out

- Sockets, listeners, dialling, the HTTP routes, JSON, configuration and PEM files, logging, the terminal interface and
  the network emulation script: input and output. A connection is the bytes its peer sends and the bytes written to it.
- The internals of AES, SHA-256, HMAC, RSA and X.509, and every claim of secrecy, authentication or unforgeability. No
  law says that a wrong key or a changed ciphertext is noticed.
- Version, session id, cipher suites and compression of a hello, which are written and never read.
- Random draws (`Coins`, IVs, the index among tied servers) are parameters. Only their lengths are assumed.
- Failing socket writes and failing random number generators; every write succeeds.
- TwoParty.TranscriptAgreement: its states are those between steps that each move one record and update the own state;
  the states in between are those of `Interleaving.FineTranscriptAgreement`.
- In the two-party system a blocking read is one step that is possible once a whole record has arrived or the peer has
  failed; the partial progress of `io.ReadFull` is in `Connection.Conn.ReadFull` only.
- `append(data, padding...)` in `encryptContent` may write into spare capacity behind the caller's slice; the model
  passes messages by value.
- HonestRun.FinishedDecrypts: does not model a comparison of the verify data, because neither side makes one.
- TlsConnection.TLSConnection.EncryptContent: requires keys; without them the source dereferences a nil cipher, which
  the callers in the model report as `Panic`.
- `RemoveChatInstancesForServer` changes the slice it ranges over and skips elements; nothing calls it.
- Matchmaking.MatchmakingServer.Sweep: assumes two users in every room, as room creation puts them there. That the users
  of a room that can be placed are in no other room is assumed by the results on placing and halving, because room
  creation does not enforce it; what happens otherwise is in `Convergence.RerouteLosesAndDoubles` and `Conservation`.
- Matchmaking.MatchmakingServer.CreateRoom: models the creation of the room only; asking the other user is left out,
  because the room is created after a refusal too.
- Store operations are atomic and a sweep runs alone: the races that the source allows by writing under a read lock, and
  rooms inserted during a sweep, are not modelled.
- Telling the two clients of a reroute where to connect, and their reconnection.
- Infinite delays and NaN: a delay is a number within the float32 range, and which numbers of the range are float32
  numbers plays no part. Sums are rounded; an infinite sum is a number above all others.
- The store of chat servers with its heartbeats: time stamps only.
- In the chat server, the parsing of the greeting line, bytes that the buffered reader takes in along with it,
  disconnecting members and failing writes. A connection joins once and its room does not change.
- Strings are sequences of characters; how a read can cut a multi-byte character does not matter to a splitter whose
  delimiter is one byte.
