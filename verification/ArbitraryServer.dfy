/** When the client's handshake succeeds, whatever bytes its peer sends. */
module ArbitraryServer {
  import opened Wrappers
  import opened ByteSeqs
  import opened Crypto
  import opened Payloads
  import opened Endpoint
  import opened ArbitraryPeer
  import C = ClientMachine
  import Cbc
  import R = Records

  /** The client's state once its hello is sent. */
  function Greeted(coins: C.Coins, st: State): State
  {
    Append(st, HelloPayload(CLIENT_HELLO, coins.random)).(clientRandom := coins.random)
  }

  /** The key exchange that the last received certificate allows, if it allows one. */
  function KeyExchange(lib: Library, coins: C.Coins, st: State): Option<Bytes>
  {
    if st.remote.Some? && st.remote.value.publicKey.Rsa?
    then lib.rsaEncrypt(st.remote.value.publicKey.modulus, coins.padding, C.PreMasterSecret(coins))
    else None
  }

  /** The history that the client signs. */
  function Presented(lib: Library, coins: C.Coins, st: State): State
    requires KeyExchange(lib, coins, st).Some?
  {
    Append(Append(st, CertificatePayload(st.certificate.raw)),
           KeyExchangePayload(KeyExchange(lib, coins, st).value))
  }

  predicate CanAnswer(lib: Library, coins: C.Coins, st: State)
  {
    && KeyExchange(lib, coins, st).Some?
    && lib.sign(st.privateKey, lib.sha256(Presented(lib, coins, st).history)).Some?
  }

  function Signature(lib: Library, coins: C.Coins, st: State): Bytes
    requires CanAnswer(lib, coins, st)
  {
    lib.sign(st.privateKey, lib.sha256(Presented(lib, coins, st).history)).value
  }

  /** The client's state after its whole second flight. */
  function Answered(lib: Library, coins: C.Coins, st: State): (r: State)
    requires CanAnswer(lib, coins, st)
    ensures r.keys.Some?
  {
    DeriveSecrets(lib, Append(Presented(lib, coins, st), CertificateVerifyPayload(Signature(lib, coins, st))),
                  C.PreMasterSecret(coins), false)
  }

  /** The five records of the client's second flight. */
  function Answer(lib: Library, coins: C.Coins, st: State): seq<R.Record>
    requires CanAnswer(lib, coins, st)
  {
    var end := Answered(lib, coins, st);
    [R.Plain(R.HANDSHAKE, CertificatePayload(st.certificate.raw)),
     R.Plain(R.HANDSHAKE, KeyExchangePayload(KeyExchange(lib, coins, st).value)),
     R.Plain(R.HANDSHAKE, CertificateVerifyPayload(Signature(lib, coins, st))),
     R.Plain(R.CHANGE_CIPHER_SPEC, CHANGE_CIPHER_SPEC_PAYLOAD),
     R.Plain(R.HANDSHAKE, Cbc.Encrypt(lib, end.keys.value.encryptKey, coins.iv,
                                      FinishedPayload(lib, end.masterSecret, end.history)))]
  }

  /** What its Finished says, once decrypted. */
  lemma AnswerFinished(lib: Library, coins: C.Coins, st: State)
    requires CanAnswer(lib, coins, st)
    ensures var r, end := Answer(lib, coins, st)[4], Answered(lib, coins, st);
      r.kind == 0x16
      && Cbc.Decrypt(lib, end.keys.value.encryptKey, r.data)
         == Ok([0x14, 0, 0, 12] + lib.sha256(end.masterSecret + end.history)[..12])
  {
    hide FinishedPayload, Answered;
    var end := Answered(lib, coins, st);
    FinishedBytes(lib, end.masterSecret, end.history);
    Cbc.RoundTrip(lib, end.keys.value.encryptKey, coins.iv, FinishedPayload(lib, end.masterSecret, end.history));
    hide Cbc.Decrypt, Cbc.Encrypt;
  }

  lemma Halts(lib: Library, coins: C.Coins, s: C.Client, w: Wire)
    requires C.Halted(s.pc)
    ensures C.Run(lib, coins, s, w) == (s, w)
  {
    UnfoldClient(lib, coins, s, w);
  }

  /** The first half of the second flight: the messages that enter the history. */
  lemma SendsProof(lib: Library, coins: C.Coins, s: C.Client, w: Wire)
    requires s.pc.SendingCertificate?
    ensures var (s', w') := C.Run(lib, coins, s, w);
      if CanAnswer(lib, coins, s.st) then
        var a := Answer(lib, coins, s.st);
        C.Run(lib, coins, s, w)
        == C.Run(lib, coins,
                 C.Client(C.SendingChangeCipherSpec,
                          Append(Presented(lib, coins, s.st), CertificateVerifyPayload(Signature(lib, coins, s.st))),
                          C.PreMasterSecret(coins)),
                 w.(outgoing := w.outgoing + R.Encode(a[0]) + R.Encode(a[1]) + R.Encode(a[2])))
      else s'.pc.Failed?
  {
    hide C.Run, CertificatePayload, KeyExchangePayload, CertificateVerifyPayload, DeriveSecrets, R.Encode, Cbc.Encrypt,
      FinishedPayload, C.PreMasterSecret;
    UnfoldClient(lib, coins, s, w);
    var (s1, w1) := C.Step(lib, coins, s, w);
    UnfoldClient(lib, coins, s1, w1);
    var (s2, w2) := C.Step(lib, coins, s1, w1);
    if s2.pc.Failed? {
      Halts(lib, coins, s2, w2);
    } else {
      UnfoldClient(lib, coins, s2, w2);
      var (s3, w3) := C.Step(lib, coins, s2, w2);
      if s3.pc.Failed? {
        Halts(lib, coins, s3, w3);
      }
    }
  }

  /** The second half: the keys are derived, and Finished goes out encrypted. */
  lemma SendsEnding(lib: Library, coins: C.Coins, s: C.Client, w: Wire)
    requires s.pc.SendingChangeCipherSpec?
    ensures var st := DeriveSecrets(lib, s.st, s.preMaster, false);
      var body := Cbc.Encrypt(lib, st.keys.value.encryptKey, coins.iv,
          FinishedPayload(lib, st.masterSecret, st.history));
      C.Run(lib, coins, s, w)
      == C.Run(lib, coins, s.(pc := C.ReceivingChangeCipherSpec, st := st),
               w.(outgoing := w.outgoing + R.Encode(R.Plain(R.CHANGE_CIPHER_SPEC, CHANGE_CIPHER_SPEC_PAYLOAD))
                              + R.Encode(R.Plain(R.HANDSHAKE, body))))
  {
    hide C.Run, R.Encode, Cbc.Encrypt, FinishedPayload;
    UnfoldClient(lib, coins, s, w);
    var (s1, w1) := C.Step(lib, coins, s, w);
    assert s1.st.keys.Some?;
    hide DeriveSecrets;
    UnfoldClient(lib, coins, s1, w1);
  }

  lemma AnswerBytes(a: seq<R.Record>, outgoing: Bytes)
    requires |a| == 5
    ensures outgoing + R.EncodeAll(a) == outgoing + R.Encode(a[0]) + R.Encode(a[1]) + R.Encode(a[2])
        + R.Encode(a[3]) + R.Encode(a[4])
  {
    hide R.Encode;
    EncodeTwo(a[3], a[4]);
    assert a[1..][1..][1..] == [a[3], a[4]];
    assert a[1..][0] == a[1] && a[1..][1..][0] == a[2];
    assert R.EncodeAll(a[1..][1..]) == R.Encode(a[2]) + (R.Encode(a[3]) + R.Encode(a[4]));
    assert R.EncodeAll(a[1..]) == R.Encode(a[1]) + (R.Encode(a[2]) + (R.Encode(a[3]) + R.Encode(a[4])));
  }

  lemma ReceivesFinished(lib: Library, coins: C.Coins, s: C.Client, w: Wire)
    requires s.pc.ReceivingFinished? && s.st.keys.Some?
    ensures var (s', w') := C.Run(lib, coins, s, w);
      var (r, rest) := R.Read(w.incoming);
      && (s'.pc.Done? <==> r.Ok? && FinishedAccepted(lib, s.st, r.value))
      && (s'.pc.Done? ==> s' == s.(pc := C.Done) && w' == w.(incoming := rest))
  {
    hide C.Run, R.Read, Cbc.Decrypt;
    UnfoldClient(lib, coins, s, w);
    var (s1, w1) := C.Step(lib, coins, s, w);
    Halts(lib, coins, s1, w1);
  }

  /** The client reads ChangeCipherSpec and Finished, and no more. */
  lemma ReceivesEnding(lib: Library, coins: C.Coins, s: C.Client, w: Wire)
    requires s.pc.ReceivingChangeCipherSpec? && s.st.keys.Some?
    ensures var (s', w') := C.Run(lib, coins, s, w);
      var m := R.ReadMany(w.incoming, 2);
      && (s'.pc.Done? <==> m.Some? && TailFrom8(lib, s.st, m.value.0))
      && (s'.pc.Done? ==> s' == s.(pc := C.Done) && w' == w.(incoming := m.value.1))
  {
    ReadNext(w.incoming, 2);
    ReadNext(R.Read(w.incoming).1, 1);
    assert R.ReadMany(R.Read(R.Read(w.incoming).1).1, 0) == Some(([], R.Read(R.Read(w.incoming).1).1));
    hide C.Run, R.Read, R.ReadMany, FinishedAccepted;
    UnfoldClient(lib, coins, s, w);
    var (s1, w1) := C.Step(lib, coins, s, w);
    if s1.pc.ReceivingFinished? {
      ReceivesFinished(lib, coins, s1, w1);
    } else {
      Halts(lib, coins, s1, w1);
    }
  }

  /** What the client still needs after the server's flight: a usable certificate, a signing key and two records. */
  predicate Concludes(lib: Library, coins: C.Coins, st: State, rest: Bytes)
  {
    var m := R.ReadMany(rest, 2);
    CanAnswer(lib, coins, st) && m.Some? && TailFrom8(lib, Answered(lib, coins, st), m.value.0)
  }

  lemma FromAnswer(lib: Library, coins: C.Coins, s: C.Client, w: Wire)
    requires s.pc.SendingCertificate?
    ensures var (s', w') := C.Run(lib, coins, s, w);
      && (s'.pc.Done? <==> Concludes(lib, coins, s.st, w.incoming))
      && (s'.pc.Done? ==>
            && s'.st == Answered(lib, coins, s.st)
            && w' == Wire(R.ReadMany(w.incoming, 2).value.1, w.outgoing + R.EncodeAll(Answer(lib, coins, s.st))))
  {
    hide C.Run, R.Encode, R.EncodeAll, R.ReadMany, TailFrom8, Presented, Signature, FinishedPayload, Cbc.Encrypt,
      KeyExchange, CertificatePayload, KeyExchangePayload, CertificateVerifyPayload, DeriveSecrets, C.PreMasterSecret;
    SendsProof(lib, coins, s, w);
    if CanAnswer(lib, coins, s.st) {
      var a := Answer(lib, coins, s.st);
      var s3 := C.Client(C.SendingChangeCipherSpec,
                         Append(Presented(lib, coins, s.st), CertificateVerifyPayload(Signature(lib, coins, s.st))),
                         C.PreMasterSecret(coins));
      var w3 := w.(outgoing := w.outgoing + R.Encode(a[0]) + R.Encode(a[1]) + R.Encode(a[2]));
      SendsEnding(lib, coins, s3, w3);
      AnswerBytes(a, w.outgoing);
      var s5 := s3.(pc := C.ReceivingChangeCipherSpec, st := Answered(lib, coins, s.st));
      ReceivesEnding(lib, coins, s5, w.(outgoing := w.outgoing + R.EncodeAll(a)));
    }
  }

  /** What the client has read when it succeeds: a well-formed flight, then what lets it conclude. */
  predicate Convinces(lib: Library, coins: C.Coins, st: State, flight: seq<R.Record>, incoming: Bytes, rest: Bytes)
  {
    && IsFlight(lib, flight)
    && incoming == R.EncodeAll(flight) + rest
    && Concludes(lib, coins, AfterFlight(lib, Greeted(coins, st), flight), rest)
  }

  lemma SendsHello(lib: Library, coins: C.Coins, s: C.Client, w: Wire)
    requires s.pc.SendingHello?
    ensures C.Run(lib, coins, s, w)
            == C.Run(lib, coins, s.(pc := C.ReceivingServerMessages, st := Greeted(coins, s.st)),
                     Send(w, R.HANDSHAKE, HelloPayload(CLIENT_HELLO, coins.random)))
  {
    hide C.Run, HelloPayload, R.Encode;
    UnfoldClient(lib, coins, s, w);
  }

  /** What the client ends with, given the flight it accepted. */
  lemma Conviction(lib: Library, coins: C.Coins, s: C.Client, w: Wire, flight: seq<R.Record>, rest: Bytes)
    requires s.pc.SendingHello? && Convinces(lib, coins, s.st, flight, w.incoming, rest)
    ensures var (s', w') := C.Run(lib, coins, s, w);
      var st := AfterFlight(lib, Greeted(coins, s.st), flight);
      && s'.pc.Done? && s'.st == Answered(lib, coins, st)
      && w' == Wire(R.ReadMany(rest, 2).value.1,
                    w.outgoing + R.Encode(R.Plain(R.HANDSHAKE, HelloPayload(CLIENT_HELLO, coins.random)))
                    + R.EncodeAll(Answer(lib, coins, st)))
  {
    hide C.Run, HelloPayload, R.Encode, R.EncodeAll, IsFlight, AfterFlight, ReceiveFlight, Greeted, Answer, Answered,
        R.ReadMany;
    SendsHello(lib, coins, s, w);
    var s1 := s.(pc := C.ReceivingServerMessages, st := Greeted(coins, s.st));
    var w1 := Send(w, R.HANDSHAKE, HelloPayload(CLIENT_HELLO, coins.random));
    RunIsFlightFirst(lib, coins, s1, w1);
    FlightIsAccepted(lib, s1, w1, flight, rest);
    var s2 := s1.(pc := C.SendingCertificate, st := AfterFlight(lib, s1.st, flight));
    FromAnswer(lib, coins, s2, w1.(incoming := rest));
  }

  lemma FailsEarly(lib: Library, coins: C.Coins, s: C.Client, w: Wire)
    requires s.pc.ReceivingServerMessages? && ReceiveFlight(lib, s, w).0.pc.Failed?
    ensures C.Run(lib, coins, s, w).0.pc.Failed?
  {
    hide C.Run, ReceiveFlight;
    RunIsFlightFirst(lib, coins, s, w);
    Halts(lib, coins, ReceiveFlight(lib, s, w).0, ReceiveFlight(lib, s, w).1);
  }

  /**
   The client succeeds exactly when its peer's bytes start with a well-formed
   flight whose last certificate carries an RSA key it can encrypt to, its own
   key can sign the history so far, and ChangeCipherSpec and a decryptable
   Finished follow.
   */
  lemma ClientCharacterised(lib: Library, coins: C.Coins, s: C.Client, w: Wire)
    requires s.pc.SendingHello?
    ensures C.Run(lib, coins, s, w).0.pc.Done?
            <==> exists flight, rest :: Convinces(lib, coins, s.st, flight, w.incoming, rest)
  {
    hide C.Run, HelloPayload, R.Encode, R.EncodeAll, IsFlight, AfterFlight, ReceiveFlight, Greeted, Concludes,
        R.ReadMany;
    if C.Run(lib, coins, s, w).0.pc.Done? {
      SendsHello(lib, coins, s, w);
      var s1 := s.(pc := C.ReceivingServerMessages, st := Greeted(coins, s.st));
      var w1 := Send(w, R.HANDSHAKE, HelloPayload(CLIENT_HELLO, coins.random));
      if ReceiveFlight(lib, s1, w1).0.pc.Failed? {
        FailsEarly(lib, coins, s1, w1);
      } else {
        var flight := AcceptedIsFlight(lib, s1, w1);
        var rest := ReceiveFlight(lib, s1, w1).1.incoming;
        FlightIsAccepted(lib, s1, w1, flight, rest);
        RunIsFlightFirst(lib, coins, s1, w1);
        var s2 := s1.(pc := C.SendingCertificate, st := AfterFlight(lib, s1.st, flight));
        FromAnswer(lib, coins, s2, w1.(incoming := rest));
        assert Convinces(lib, coins, s.st, flight, w.incoming, rest);
      }
    }
    if flight, rest :| Convinces(lib, coins, s.st, flight, w.incoming, rest) {
      Conviction(lib, coins, s, w, flight, rest);
    }
  }
}
