/** What each controller accepts when nothing is assumed about the bytes its peer sends. */
module ArbitraryPeer {
  import opened Wrappers
  import opened ByteSeqs
  import opened Crypto
  import opened Payloads
  import opened Endpoint
  import C = ClientMachine
  import S = ServerMachine
  import Cbc
  import R = Records

  predicate IsMessage(r: R.Record, kind: Byte)
  {
    r.kind == R.HANDSHAKE && r.data != [] && r.data[0] == kind
  }

  // The client's receive loop.

  /** The loop of `receiveServerMessages`, until it is left or fails. */
  function ReceiveFlight(lib: Library, s: C.Client, w: Wire): (C.Client, Wire)
    decreases |w.incoming|, if s.pc.ReceivingServerMessages? then 1 else 0
  {
    if !s.pc.ReceivingServerMessages? then (s, w) else
      var (s', w') := C.ReceiveServerMessage(lib, s, w);
      ReceiveFlight(lib, s', w')
  }

  /** A message the loop takes in and goes on after. */
  predicate KeepsReceiving(lib: Library, r: R.Record)
  {
    || (IsMessage(r, SERVER_HELLO) && |r.data| >= 6 + RANDOM_SIZE)
    || (IsMessage(r, CERTIFICATE) && CertificateOf(lib, r.data).Ok?)
    || IsMessage(r, CERTIFICATE_REQUEST)
  }

  /** (ServerHello | parseable Certificate | CertificateRequest)* ServerHelloDone */
  predicate IsFlight(lib: Library, rs: seq<R.Record>)
  {
    && rs != []
    && (forall r | r in rs :: R.Fits(r))
    && (forall k | 0 <= k < |rs| - 1 :: KeepsReceiving(lib, rs[k]))
    && IsMessage(rs[|rs| - 1], SERVER_HELLO_DONE)
  }

  function Bodies(rs: seq<R.Record>): Bytes
  {
    if rs == [] then [] else rs[0].data + Bodies(rs[1..])
  }

  /** The random of the last ServerHello, if there is any. */
  function LastRandom(rs: seq<R.Record>, default: Bytes): Bytes
  {
    if rs == [] then default else
      var r := rs[|rs| - 1];
      if IsMessage(r, SERVER_HELLO) && |r.data| >= 6 + RANDOM_SIZE then r.data[6..6 + RANDOM_SIZE]
      else LastRandom(rs[..|rs| - 1], default)
  }

  /** The last certificate, if there is any. */
  function LastCertificate(lib: Library, rs: seq<R.Record>, default: Option<Certificate>): Option<Certificate>
  {
    if rs == [] then default else
      var r := rs[|rs| - 1];
      if IsMessage(r, CERTIFICATE) && CertificateOf(lib, r.data).Ok? then Some(CertificateOf(lib, r.data).value)
      else LastCertificate(lib, rs[..|rs| - 1], default)
  }

  function AfterFlight(lib: Library, st: State, rs: seq<R.Record>): State
  {
    st.(history := st.history + Bodies(rs),
        serverRandom := LastRandom(rs, st.serverRandom),
        remote := LastCertificate(lib, rs, st.remote))
  }

  lemma {:induction false} LastOfCons(lib: Library, r: R.Record, rs: seq<R.Record>, random: Bytes,
      cert: Option<Certificate>)
    ensures LastRandom([r] + rs, random) == LastRandom(rs, LastRandom([r], random))
    ensures LastCertificate(lib, [r] + rs, cert) == LastCertificate(lib, rs, LastCertificate(lib, [r], cert))
    decreases |rs|
  {
    if rs == [] {
      assert [r] + rs == [r];
    } else {
      var init := rs[..|rs| - 1];
      assert ([r] + rs)[..|rs|] == [r] + init;
      LastOfCons(lib, r, init, random, cert);
    }
  }

  lemma AfterOne(lib: Library, st: State, r: R.Record)
    ensures AfterFlight(lib, st, [r]) == st.(
      history := st.history + r.data,
      serverRandom := if IsMessage(r, SERVER_HELLO) && |r.data| >= 6 + RANDOM_SIZE then r.data[6..6 + RANDOM_SIZE]
                      else st.serverRandom,
      remote := if IsMessage(r, CERTIFICATE) && CertificateOf(lib, r.data).Ok?
          then Some(CertificateOf(lib, r.data).value)
                else st.remote)
  {
    var one := [r];
    assert one[|one| - 1] == r && one[..|one| - 1] == [] && one[1..] == [];
    assert Bodies(one) == r.data + [];
    assert LastRandom(one[..|one| - 1], st.serverRandom) == st.serverRandom;
    assert LastCertificate(lib, one[..|one| - 1], st.remote) == st.remote;
  }

  lemma AfterCons(lib: Library, st: State, r: R.Record, rs: seq<R.Record>)
    ensures AfterFlight(lib, st, [r] + rs) == AfterFlight(lib, AfterFlight(lib, st, [r]), rs)
  {
    AfterOne(lib, st, r);
    LastOfCons(lib, r, rs, st.serverRandom, st.remote);
    assert ([r] + rs)[1..] == rs && [r][..0] == [];
    Associative(st.history, r.data, Bodies(rs));
  }

  /** One turn of the loop, by the record that arrives. */
  lemma Turn(lib: Library, s: C.Client, w: Wire)
    requires s.pc.ReceivingServerMessages?
    ensures var (s', w') := C.ReceiveServerMessage(lib, s, w);
      match R.Read(w.incoming)
      case (Err(_), _) => s'.pc.Failed?
      case (Ok(r), rest) =>
        && w' == w.(incoming := rest)
        && (if KeepsReceiving(lib, r) then s' == s.(st := AfterFlight(lib, s.st, [r]))
            else if IsMessage(r, SERVER_HELLO_DONE) then
              s' == s.(pc := C.SendingCertificate, st := AfterFlight(lib, s.st, [r]))
            else s'.pc.Failed?)
  {
    var r := R.Read(w.incoming);
    hide R.Read, CertificateOf;
    if r.0.Ok? {
      AfterOne(lib, s.st, r.0.value);
      hide AfterFlight;
    }
  }

  /** A well-formed flight is accepted, and what follows it is left unread. */
  lemma {:induction false} FlightIsAccepted(lib: Library, s: C.Client, w: Wire, rs: seq<R.Record>, rest: Bytes)
    requires s.pc.ReceivingServerMessages? && IsFlight(lib, rs) && w.incoming == R.EncodeAll(rs) + rest
    ensures ReceiveFlight(lib, s, w)
            == (s.(pc := C.SendingCertificate, st := AfterFlight(lib, s.st, rs)), w.(incoming := rest))
    decreases |rs|
  {
    hide C.ReceiveServerMessage, KeepsReceiving, IsMessage, AfterFlight, R.Read, R.Encode;
    var r, tail := rs[0], rs[1..];
    assert rs == [r] + tail;
    var more := R.EncodeAll(tail) + rest;
    Associative(R.Encode(r), R.EncodeAll(tail), rest);
    R.ReadCharacterised(w.incoming, r, more);
    Turn(lib, s, w);
    var w' := w.(incoming := more);
    if tail == [] {
      assert more == rest && rs == [r];
      NotBoth(lib, r);
      var s' := s.(pc := C.SendingCertificate, st := AfterFlight(lib, s.st, [r]));
      assert ReceiveFlight(lib, s', w') == (s', w');
    } else {
      var s' := s.(st := AfterFlight(lib, s.st, [r]));
      assert KeepsReceiving(lib, rs[0]);
      assert forall k | 0 <= k < |tail| - 1 :: tail[k] == rs[k + 1];
      FlightIsAccepted(lib, s', w', tail, rest);
      AfterCons(lib, s.st, r, tail);
    }
  }

  lemma NotBoth(lib: Library, r: R.Record)
    ensures !(KeepsReceiving(lib, r) && IsMessage(r, SERVER_HELLO_DONE))
  {
  }

  /** Whatever bytes arrive, leaving the loop means that a well-formed flight was at their front. */
  lemma {:induction false} AcceptedIsFlight(lib: Library, s: C.Client, w: Wire) returns (rs: seq<R.Record>)
    requires s.pc.ReceivingServerMessages? && !ReceiveFlight(lib, s, w).0.pc.Failed?
    ensures IsFlight(lib, rs) && w.incoming == R.EncodeAll(rs) + ReceiveFlight(lib, s, w).1.incoming
    decreases |w.incoming|
  {
    hide C.ReceiveServerMessage, KeepsReceiving, IsMessage, AfterFlight, R.Read, R.Encode;
    Turn(lib, s, w);
    var (s', w') := C.ReceiveServerMessage(lib, s, w);
    assert ReceiveFlight(lib, s, w) == ReceiveFlight(lib, s', w');
    var (r, rest) := R.Read(w.incoming);
    R.ReadCharacterised(w.incoming, r.value, rest);
    if KeepsReceiving(lib, r.value) {
      var tail := AcceptedIsFlight(lib, s', w');
      rs := [r.value] + tail;
      assert rs[1..] == tail;
      Associative(R.Encode(r.value), R.EncodeAll(tail), ReceiveFlight(lib, s, w).1.incoming);
    } else {
      rs := [r.value];
      assert R.EncodeAll(rs[1..]) == [];
    }
  }

  /** The loop succeeds exactly on the well-formed flights. */
  lemma FlightCharacterised(lib: Library, s: C.Client, w: Wire)
    requires s.pc.ReceivingServerMessages?
    ensures var (s', w') := ReceiveFlight(lib, s, w);
      s'.pc.SendingCertificate? <==>
        exists rs, rest :: IsFlight(lib, rs) && w.incoming == R.EncodeAll(rs) + rest
          && s'.st == AfterFlight(lib, s.st, rs) && w' == w.(incoming := rest)
  {
    var (s', w') := ReceiveFlight(lib, s, w);
    if s'.pc.SendingCertificate? {
      var rs := AcceptedIsFlight(lib, s, w);
      FlightIsAccepted(lib, s, w, rs, w'.incoming);
    }
    if rs, rest :| IsFlight(lib, rs) && w.incoming == R.EncodeAll(rs) + rest {
      FlightIsAccepted(lib, s, w, rs, rest);
    }
  }

  lemma Stops(lib: Library, coins: S.Coins, s: S.Server, w: Wire)
    requires S.Halted(s.pc)
    ensures S.Run(lib, coins, s, w) == (s, w)
  {
  }

  lemma UnfoldClient(lib: Library, coins: C.Coins, s: C.Client, w: Wire)
    ensures C.Run(lib, coins, s, w)
            == (if C.Halted(s.pc) then (s, w)
                else C.Run(lib, coins, C.Step(lib, coins, s, w).0, C.Step(lib, coins, s, w).1))
  {
    hide C.Step;
  }

  /** The controller runs the receive loop to its end and goes on from there. */
  lemma {:induction false} RunIsFlightFirst(lib: Library, coins: C.Coins, s: C.Client, w: Wire)
    requires s.pc.ReceivingServerMessages?
    ensures var (s', w') := ReceiveFlight(lib, s, w); C.Run(lib, coins, s, w) == C.Run(lib, coins, s', w')
    decreases |w.incoming|
  {
    hide C.ReceiveServerMessage, AfterFlight, KeepsReceiving, IsMessage, R.Read;
    UnfoldClient(lib, coins, s, w);
    Turn(lib, s, w);
    var (s', w') := C.ReceiveServerMessage(lib, s, w);
    assert C.Step(lib, coins, s, w) == (s', w');
    assert ReceiveFlight(lib, s, w) == ReceiveFlight(lib, s', w');
    if s'.pc.ReceivingServerMessages? {
      ReadShrinks(w);
      RunIsFlightFirst(lib, coins, s', w');
    }
  }

  lemma ReadShrinks(w: Wire)
    ensures R.Read(w.incoming).0.Ok? ==> |R.Read(w.incoming).1| < |w.incoming|
  {
  }

  // The server's controller.

  const SCRIPT_LENGTH := 6

  /** The server's own hello flight. */
  function HelloFlight(coins: S.Coins, certificate: Certificate): seq<R.Record>
  {
    [R.Plain(R.HANDSHAKE, HelloPayload(SERVER_HELLO, coins.random)),
     R.Plain(R.HANDSHAKE, CertificatePayload(certificate.raw)),
     R.Plain(R.HANDSHAKE, CERTIFICATE_REQUEST_PAYLOAD),
     R.Plain(R.HANDSHAKE, SERVER_HELLO_DONE_PAYLOAD)]
  }

  /** The server's last two records. */
  function FinalFlight(lib: Library, coins: S.Coins, st: State): seq<R.Record>
    requires st.keys.Some?
  {
    [R.Plain(R.CHANGE_CIPHER_SPEC, CHANGE_CIPHER_SPEC_PAYLOAD),
     R.Plain(R.HANDSHAKE, Cbc.Encrypt(lib, st.keys.value.encryptKey, coins.iv,
                                      FinishedPayload(lib, st.masterSecret, st.history)))]
  }

  /** What its Finished says, once decrypted. */
  lemma FinalFinished(lib: Library, coins: S.Coins, st: State)
    requires st.keys.Some?
    ensures var r := FinalFlight(lib, coins, st)[1];
      r.kind == 0x16
      && Cbc.Decrypt(lib, st.keys.value.encryptKey, r.data)
         == Ok([0x14, 0, 0, 12] + lib.sha256(st.masterSecret + st.history)[..12])
  {
    hide FinishedPayload;
    FinishedBytes(lib, st.masterSecret, st.history);
    Cbc.RoundTrip(lib, st.keys.value.encryptKey, coins.iv, FinishedPayload(lib, st.masterSecret, st.history));
    hide Cbc.Decrypt, Cbc.Encrypt;
  }

  /** The server's state after the client's key exchange: its hello flight is spliced in after the first message. */
  function Introduced(lib: Library, coins: S.Coins, st: State, rs: seq<R.Record>): State
    requires |rs| == SCRIPT_LENGTH && RandomOf(rs[0].data).Ok? && CertificateOf(lib, rs[1].data).Ok?
  {
    st.(history := st.history + rs[0].data + Bodies(HelloFlight(coins, st.certificate)) + rs[1].data + rs[2].data,
        clientRandom := RandomOf(rs[0].data).value,
        serverRandom := coins.random,
        remote := Some(CertificateOf(lib, rs[1].data).value))
  }

  /** The server's state once the client has proved possession of its key. */
  function Established(lib: Library, coins: S.Coins, st: State, rs: seq<R.Record>): (r: State)
    requires |rs| == SCRIPT_LENGTH && RandomOf(rs[0].data).Ok? && CertificateOf(lib, rs[1].data).Ok?
    requires S.PreMasterOf(lib, st, rs[2].data).Ok?
    ensures r.keys.Some?
  {
    DeriveSecrets(lib, Append(Introduced(lib, coins, st, rs), rs[3].data),
                  S.PreMasterOf(lib, st, rs[2].data).value, true)
  }

  predicate FinishedAccepted(lib: Library, st: State, r: R.Record)
    requires st.keys.Some?
  {
    var p := Cbc.Decrypt(lib, st.keys.value.decryptKey, r.data);
    r.kind == R.HANDSHAKE && p.Ok? && p.value != [] && p.value[0] == FINISHED
  }

  /** The six records a client must send, in this order, with a signature over the transcript so far. */
  predicate IsClientScript(lib: Library, coins: S.Coins, st: State, rs: seq<R.Record>)
    requires |rs| == SCRIPT_LENGTH
  {
    && IsMessage(rs[0], CLIENT_HELLO) && RandomOf(rs[0].data).Ok?
    && IsMessage(rs[1], CERTIFICATE) && CertificateOf(lib, rs[1].data).Ok?
    && IsMessage(rs[2], CLIENT_KEY_EXCHANGE) && S.PreMasterOf(lib, st, rs[2].data).Ok?
    && IsMessage(rs[3], CERTIFICATE_VERIFY) && SignatureOf(rs[3].data).Ok?
    && (var key := CertificateOf(lib, rs[1].data).value.publicKey;
        key.Rsa? && lib.verify(key.modulus, lib.sha256(Introduced(lib, coins, st, rs).history),
                               SignatureOf(rs[3].data).value))
    && rs[4].kind == R.CHANGE_CIPHER_SPEC
    && FinishedAccepted(lib, Established(lib, coins, st, rs), rs[5])
  }

  // The script layer by layer, last record first.

  predicate TailFrom8(lib: Library, st: State, rs: seq<R.Record>)
    requires |rs| == 2 && st.keys.Some?
  {
    rs[0].kind == R.CHANGE_CIPHER_SPEC && FinishedAccepted(lib, st, rs[1])
  }

  predicate TailFrom7(lib: Library, st: State, preMaster: Bytes, rs: seq<R.Record>)
    requires |rs| == 3
  {
    && IsMessage(rs[0], CERTIFICATE_VERIFY) && S.VerifyClient(lib, st, rs[0].data).None?
    && TailFrom8(lib, DeriveSecrets(lib, Append(st, rs[0].data), preMaster, true), rs[1..])
  }

  predicate TailFrom6(lib: Library, st: State, rs: seq<R.Record>)
    requires |rs| == 4
  {
    && IsMessage(rs[0], CLIENT_KEY_EXCHANGE) && S.PreMasterOf(lib, st, rs[0].data).Ok?
    && TailFrom7(lib, Append(st, rs[0].data), S.PreMasterOf(lib, st, rs[0].data).value, rs[1..])
  }

  predicate TailFrom5(lib: Library, st: State, rs: seq<R.Record>)
    requires |rs| == 5
  {
    && IsMessage(rs[0], CERTIFICATE) && CertificateOf(lib, rs[0].data).Ok?
    && TailFrom6(lib, Append(st, rs[0].data).(remote := Some(CertificateOf(lib, rs[0].data).value)), rs[1..])
  }

  function End7(lib: Library, st: State, preMaster: Bytes, rs: seq<R.Record>): (r: State)
    requires |rs| == 3
    ensures r.keys.Some?
  {
    DeriveSecrets(lib, Append(st, rs[0].data), preMaster, true)
  }

  function End6(lib: Library, st: State, rs: seq<R.Record>): (r: State)
    requires |rs| == 4 && S.PreMasterOf(lib, st, rs[0].data).Ok?
    ensures r.keys.Some?
  {
    End7(lib, Append(st, rs[0].data), S.PreMasterOf(lib, st, rs[0].data).value, rs[1..])
  }

  function End5(lib: Library, st: State, rs: seq<R.Record>): (r: State)
    requires |rs| == 5 && TailFrom5(lib, st, rs)
    ensures r.keys.Some?
  {
    End6(lib, Append(st, rs[0].data).(remote := Some(CertificateOf(lib, rs[0].data).value)), rs[1..])
  }

  function Reply(lib: Library, coins: S.Coins, st: State): Bytes
    requires st.keys.Some?
  {
    R.EncodeAll(FinalFlight(lib, coins, st))
  }

  lemma Unfold(lib: Library, coins: S.Coins, s: S.Server, w: Wire)
    requires !S.Halted(s.pc)
    ensures var (s', w') := S.Step(lib, coins, s, w);
      S.Run(lib, coins, s, w) == S.Run(lib, coins, s', w') && (S.Halted(s'.pc) ==> S.Run(lib, coins, s, w) == (s', w'))
  {
    hide S.Step;
  }

  /** Receiving a handshake message is reading one record and checking what it is. */
  lemma HandshakeIsMessage(w: Wire, kind: Byte)
    ensures var (r, rest) := R.Read(w.incoming);
      ReceiveHandshake(w, kind).1 == w.(incoming := rest)
      && (ReceiveHandshake(w, kind).0.Ok? <==> r.Ok? && IsMessage(r.value, kind))
      && (ReceiveHandshake(w, kind).0.Ok? ==> ReceiveHandshake(w, kind).0.value == r.value.data)
  {
    hide R.Read;
  }

  lemma LayerFinished(lib: Library, coins: S.Coins, s: S.Server, w: Wire)
    requires s.pc.ReceivingFinished? && s.st.keys.Some?
    ensures var (s', w') := S.Run(lib, coins, s, w);
      var (r, rest) := R.Read(w.incoming);
      && (s'.pc.Done? <==> r.Ok? && FinishedAccepted(lib, s.st, r.value))
      && (s'.pc.Done? ==> s' == s.(pc := S.Done) && w' == Wire(rest, w.outgoing + Reply(lib, coins, s.st)))
  {
    Unfold(lib, coins, s, w);
    var (s1, w1) := S.Step(lib, coins, s, w);
    hide R.Read, Cbc.Decrypt, Cbc.Encrypt, FinishedPayload, R.Encode;
    var (r, rest) := R.Read(w.incoming);
    if r.Ok? && FinishedAccepted(lib, s.st, r.value) {
      assert s1 == s.(pc := S.SendingChangeCipherSpec) && w1 == w.(incoming := rest);
      SendsReply(lib, coins, s1, w1);
    } else {
      assert s1.pc.Failed?;
    }
  }

  lemma SendsReply(lib: Library, coins: S.Coins, s: S.Server, w: Wire)
    requires s.pc.SendingChangeCipherSpec? && s.st.keys.Some?
    ensures S.Run(lib, coins, s, w)
            == (s.(pc := S.Done), w.(outgoing := w.outgoing + Reply(lib, coins, s.st)))
  {
    Unfold(lib, coins, s, w);
    var (s1, w1) := S.Step(lib, coins, s, w);
    hide Cbc.Encrypt, FinishedPayload, R.Encode;
    Unfold(lib, coins, s1, w1);
    var f := FinalFlight(lib, coins, s.st);
    EncodeTwo(f[0], f[1]);
    assert f == [f[0], f[1]];
    Associative(w.outgoing, R.Encode(f[0]), R.Encode(f[1]));
  }

  lemma EncodeTwo(a: R.Record, b: R.Record)
    ensures R.EncodeAll([a, b]) == R.Encode(a) + R.Encode(b)
  {
    assert [a, b][1..] == [b] && [b][1..] == [];
    assert R.EncodeAll([b]) == R.Encode(b) + [];
  }

  /** Reading one record and then the others. */
  lemma ReadNext(s: Bytes, n: nat)
    requires n > 0
    ensures var (r, rest) := R.Read(s);
      var m, m' := R.ReadMany(s, n), R.ReadMany(rest, n - 1);
      && (m.Some? <==> r.Ok? && m'.Some?)
      && (m.Some? ==> m.value.0[0] == r.value && m.value.0[1..] == m'.value.0 && m.value.1 == m'.value.1)
  {
    hide R.Read;
  }

  lemma Layer8(lib: Library, coins: S.Coins, s: S.Server, w: Wire)
    requires s.pc.ReceivingChangeCipherSpec? && s.st.keys.Some?
    ensures var (s', w') := S.Run(lib, coins, s, w);
      var m := R.ReadMany(w.incoming, 2);
      && (s'.pc.Done? <==> m.Some? && TailFrom8(lib, s.st, m.value.0))
      && (s'.pc.Done? ==> s' == s.(pc := S.Done) && w' == Wire(m.value.1, w.outgoing + Reply(lib, coins, s.st)))
  {
    ReadNext(w.incoming, 2);
    ReadNext(R.Read(w.incoming).1, 1);
    assert R.ReadMany(R.Read(R.Read(w.incoming).1).1, 0) == Some(([], R.Read(R.Read(w.incoming).1).1));
    hide R.Read, R.ReadMany, S.Run, FinishedAccepted, Reply;
    Unfold(lib, coins, s, w);
    var (s1, w1) := S.Step(lib, coins, s, w);
    if s1.pc.ReceivingFinished? {
      LayerFinished(lib, coins, s1, w1);
    }
  }

  lemma Layer7(lib: Library, coins: S.Coins, s: S.Server, w: Wire)
    requires s.pc.ReceivingCertificateVerify?
    ensures var (s', w') := S.Run(lib, coins, s, w);
      var m := R.ReadMany(w.incoming, 3);
      && (s'.pc.Done? <==> m.Some? && TailFrom7(lib, s.st, s.preMaster, m.value.0))
      && (s'.pc.Done? ==>
            var st := End7(lib, s.st, s.preMaster, m.value.0);
            s' == s.(pc := S.Done, st := st) && w' == Wire(m.value.1, w.outgoing + Reply(lib, coins, st)))
  {
    hide ReceiveHandshake, IsMessage, R.Read, R.ReadMany, S.Run, TailFrom8, Reply, S.VerifyClient;
    HandshakeIsMessage(w, CERTIFICATE_VERIFY);
    ReadNext(w.incoming, 3);
    Unfold(lib, coins, s, w);
    var (s1, w1) := S.Step(lib, coins, s, w);
    if s1.pc.ReceivingChangeCipherSpec? {
      Layer8(lib, coins, s1, w1);
      hide DeriveSecrets;
    }
  }

  lemma Layer6(lib: Library, coins: S.Coins, s: S.Server, w: Wire)
    requires s.pc.ReceivingKeyExchange?
    ensures var (s', w') := S.Run(lib, coins, s, w);
      var m := R.ReadMany(w.incoming, 4);
      && (s'.pc.Done? <==> m.Some? && TailFrom6(lib, s.st, m.value.0))
      && (s'.pc.Done? ==>
            var st := End6(lib, s.st, m.value.0);
            s'.st == st && w' == Wire(m.value.1, w.outgoing + Reply(lib, coins, st)))
  {
    hide ReceiveHandshake, IsMessage, R.Read, R.ReadMany, S.Run, TailFrom7, End7, Reply, EncryptedPreMasterOf;
    HandshakeIsMessage(w, CLIENT_KEY_EXCHANGE);
    ReadNext(w.incoming, 4);
    Unfold(lib, coins, s, w);
    var (s1, w1) := S.Step(lib, coins, s, w);
    if s1.pc.ReceivingCertificateVerify? {
      Layer7(lib, coins, s1, w1);
    }
  }

  lemma Layer5(lib: Library, coins: S.Coins, s: S.Server, w: Wire)
    requires s.pc.ReceivingCertificate?
    ensures var (s', w') := S.Run(lib, coins, s, w);
      var m := R.ReadMany(w.incoming, 5);
      && (s'.pc.Done? <==> m.Some? && TailFrom5(lib, s.st, m.value.0))
      && (s'.pc.Done? ==>
            var st := End5(lib, s.st, m.value.0);
            s'.st == st && w' == Wire(m.value.1, w.outgoing + Reply(lib, coins, st)))
  {
    hide ReceiveHandshake, IsMessage, R.Read, R.ReadMany, S.Run, TailFrom6, End6, Reply, CertificateOf;
    HandshakeIsMessage(w, CERTIFICATE);
    ReadNext(w.incoming, 5);
    Unfold(lib, coins, s, w);
    var (s1, w1) := S.Step(lib, coins, s, w);
    if s1.pc.ReceivingKeyExchange? {
      Layer6(lib, coins, s1, w1);
    }
  }

  function AfterHello(coins: S.Coins, st: State, hello: Bytes, random: Bytes): State
  {
    st.(history := st.history + hello + Bodies(HelloFlight(coins, st.certificate)),
        clientRandom := random,
        serverRandom := coins.random)
  }

  lemma FlightBytes(coins: S.Coins, certificate: Certificate, history: Bytes, outgoing: Bytes)
    ensures var f := HelloFlight(coins, certificate);
      && history + Bodies(f) == history + f[0].data + f[1].data + f[2].data + f[3].data
      && outgoing + R.EncodeAll(f) == outgoing + R.Encode(f[0]) + R.Encode(f[1]) + R.Encode(f[2]) + R.Encode(f[3])
  {
    var f := HelloFlight(coins, certificate);
    hide HelloPayload, CertificatePayload, R.Encode;
    assert f[1..][1..] == [f[2], f[3]];
    assert [f[2], f[3]][1..] == [f[3]] && [f[3]][1..] == [];
    EncodeTwo(f[2], f[3]);
    assert Bodies([f[3]]) == f[3].data + [];
    assert Bodies(f[1..]) == f[1].data + (f[2].data + f[3].data);
    assert R.EncodeAll(f[1..]) == R.Encode(f[1]) + (R.Encode(f[2]) + R.Encode(f[3]));
  }

  lemma FlightSteps(lib: Library, coins: S.Coins, s: S.Server, w: Wire)
    requires s.pc.SendingHello?
    ensures var (s1, w1) := S.SendHello(coins, s, w);
      var (s2, w2) := S.SendCertificate(s1, w1);
      var (s3, w3) := S.SendCertificateRequest(s2, w2);
      var (s4, w4) := S.SendHelloDone(s3, w3);
      S.Run(lib, coins, s, w) == S.Run(lib, coins, s4, w4)
  {
    hide HelloPayload, CertificatePayload, R.Encode;
    Unfold(lib, coins, s, w);
    var (s1, w1) := S.Step(lib, coins, s, w);
    Unfold(lib, coins, s1, w1);
    var (s2, w2) := S.Step(lib, coins, s1, w1);
    Unfold(lib, coins, s2, w2);
    var (s3, w3) := S.Step(lib, coins, s2, w2);
    Unfold(lib, coins, s3, w3);
  }

  /** The server's hello flight is four steps that read nothing. */
  lemma SendsFlight(lib: Library, coins: S.Coins, s: S.Server, w: Wire)
    requires s.pc.SendingHello?
    ensures S.Run(lib, coins, s, w)
            == S.Run(lib, coins,
                     s.(pc := S.ReceivingCertificate,
                        st := s.st.(history := s.st.history + Bodies(HelloFlight(coins, s.st.certificate)),
                                    serverRandom := coins.random)),
                     w.(outgoing := w.outgoing + R.EncodeAll(HelloFlight(coins, s.st.certificate))))
  {
    hide HelloPayload, CertificatePayload, R.Encode;
    FlightBytes(coins, s.st.certificate, s.st.history, w.outgoing);
    FlightSteps(lib, coins, s, w);
  }

  /** The layered script is the flat one. */
  lemma ScriptFlattens(lib: Library, coins: S.Coins, st: State, rs: seq<R.Record>)
    requires |rs| == SCRIPT_LENGTH && RandomOf(rs[0].data).Ok?
    ensures var st' := AfterHello(coins, st, rs[0].data, RandomOf(rs[0].data).value);
      && (IsMessage(rs[0], CLIENT_HELLO) && TailFrom5(lib, st', rs[1..]) <==> IsClientScript(lib, coins, st, rs))
      && (IsClientScript(lib, coins, st, rs) ==> End5(lib, st', rs[1..]) == Established(lib, coins, st, rs))
  {
    hide RandomOf, CertificateOf, HelloFlight, FinishedAccepted, DeriveSecrets, IsMessage;
    var t := rs[1..];
    assert t[0] == rs[1] && t[1..][0] == rs[2] && t[1..][1..][0] == rs[3];
    assert t[1..][1..][1..][0] == rs[4] && t[1..][1..][1..][1] == rs[5];
  }

  /**
   The server succeeds exactly when six records can be read off the front of
   whatever its peer sends and they are a client's script; its final history,
   secrets and output then follow from them, and nothing more is read.
   */
  lemma ServerCharacterised(lib: Library, coins: S.Coins, s: S.Server, w: Wire)
    requires s.pc.ReceivingHello?
    ensures var (s', w') := S.Run(lib, coins, s, w);
      var m := R.ReadMany(w.incoming, SCRIPT_LENGTH);
      && (s'.pc.Done? <==> m.Some? && IsClientScript(lib, coins, s.st, m.value.0))
      && (s'.pc.Done? ==>
            var st := Established(lib, coins, s.st, m.value.0);
            && s'.st == st
            && w' == Wire(m.value.1,
                          w.outgoing + R.EncodeAll(HelloFlight(coins, s.st.certificate))
                          + R.EncodeAll(FinalFlight(lib, coins, st))))
  {
    hide ReceiveHandshake, IsMessage, R.Read, R.ReadMany, S.Run, TailFrom5, End5, IsClientScript, Established,
      HelloFlight, FinalFlight, RandomOf;
    HandshakeIsMessage(w, CLIENT_HELLO);
    ReadNext(w.incoming, SCRIPT_LENGTH);
    Unfold(lib, coins, s, w);
    var (s1, w1) := S.Step(lib, coins, s, w);
    var m := R.ReadMany(w.incoming, SCRIPT_LENGTH);
    if s1.pc.SendingHello? {
      SendsFlight(lib, coins, s1, w1);
      var w2 := w1.(outgoing := w1.outgoing + R.EncodeAll(HelloFlight(coins, s.st.certificate)));
      var s2 := s.(pc := S.ReceivingCertificate, st := AfterHello(coins, s.st, R.Read(w.incoming).0.value.data,
          s1.st.clientRandom));
      Layer5(lib, coins, s2, w2);
      if m.Some? {
        ScriptFlattens(lib, coins, s.st, m.value.0);
      }
    } else if m.Some? {
      NotAScript(lib, coins, s.st, m.value.0);
    }
  }

  lemma NotAScript(lib: Library, coins: S.Coins, st: State, rs: seq<R.Record>)
    requires |rs| == SCRIPT_LENGTH && !(IsMessage(rs[0], CLIENT_HELLO) && RandomOf(rs[0].data).Ok?)
    ensures !IsClientScript(lib, coins, st, rs)
  {
  }
}
