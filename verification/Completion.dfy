/** What every honest handshake ends in: no deadlock, no error branch, twenty-four steps, and the same secrets. */
module Completion {
  import opened Wrappers
  import opened ByteSeqs
  import opened Crypto
  import opened Endpoint
  import opened HonestRun
  import opened TwoParty
  import C = ClientMachine
  import S = ServerMachine
  import ArbitraryPeer
  import Prf
  import Records
  import SecureChannel

  /** The step measure: what both sides still have to do. */
  const TOTAL_STEPS := 2 * LENGTH

  lemma ProgressAt(lib: Library, cfg: Config, i: nat, j: nat)
    requires Honest(lib, cfg) && Legal(i, j)
    ensures var s := StateAt(lib, cfg, i, j);
      && !s.client.pc.Failed? && !s.server.pc.Failed?
      && (Completed(s) <==> i + j == TOTAL_STEPS)
      && (!Completed(s) ==> ClientEnabled(s) || ServerEnabled(s))
  {
    ClientControl(lib, cfg, i);
    ServerControl(lib, cfg, j);
    ClientAdvances(lib, cfg, i, j);
    ServerAdvances(lib, cfg, i, j);
    hide ClientAt, ServerAt, ClientEnabled, ServerEnabled, Flight, Honest;
    if i < LENGTH && !ClientSends(i) && i >= j {
      assert i == j || ClientSends(j);
    }
  }

  /**
   No honest run deadlocks, takes an error branch or goes on for ever: after
   fewer than 24 steps some side can move, and after 24 both have succeeded.
   */
  lemma HonestRunsComplete(lib: Library, cfg: Config, run: seq<System>)
    requires Honest(lib, cfg) && IsRun(lib, cfg, run)
    ensures |run| <= TOTAL_STEPS + 1
    ensures forall n :: 0 <= n < |run| ==> !run[n].client.pc.Failed? && !run[n].server.pc.Failed?
    ensures var last := run[|run| - 1];
      && (Completed(last) <==> |run| == TOTAL_STEPS + 1)
      && (!Completed(last) <==> exists s' :: Next(lib, cfg, last, s'))
  {
    var i, j := ReachableStates(lib, cfg, run, |run| - 1);
    forall n | 0 <= n < |run|
      ensures !run[n].client.pc.Failed? && !run[n].server.pc.Failed?
    {
      var a, b := ReachableStates(lib, cfg, run, n);
      ProgressAt(lib, cfg, a, b);
    }
    ProgressAt(lib, cfg, i, j);
    var last := run[|run| - 1];
    hide IsRun, StateAt, ClientMove, ServerMove, Honest;
    if ClientEnabled(last) {
      assert Next(lib, cfg, last, ClientMove(lib, cfg, last));
    }
    if ServerEnabled(last) {
      assert Next(lib, cfg, last, ServerMove(lib, cfg, last));
    }
  }

  /** The keys on one side are those on the other, with the directions crossed. */
  predicate KeysMatch(client: KeyMaterial, server: KeyMaterial)
  {
    && client.encryptKey == server.decryptKey
    && client.decryptKey == server.encryptKey
    && client == server.(encryptKey := client.encryptKey, decryptKey := client.decryptKey)
  }

  ghost predicate SecretsAgree(c: State, s: State)
  {
    && c.clientRandom == s.clientRandom && c.serverRandom == s.serverRandom
    && c.masterSecret == s.masterSecret
    && c.keys.Some? && s.keys.Some? && KeysMatch(c.keys.value, s.keys.value)
  }

  /** The keys are derived from the two randoms and the pre-master secret as sections 8.1 and 6.3 of RFC 5246 say. */
  ghost predicate ClientSecretsDerived(lib: Library, cfg: Config, st: State)
  {
    && st.clientRandom == cfg.clientCoins.random && st.serverRandom == cfg.serverCoins.random
    && st.masterSecret == Prf.Output(lib, C.PreMasterSecret(cfg.clientCoins),
                                     Prf.MASTER_SECRET_LABEL + st.clientRandom + st.serverRandom, 48)
    && st.keys.Some?
    && var b := Prf.Output(lib, st.masterSecret, Prf.KEY_EXPANSION_LABEL + st.serverRandom + st.clientRandom, 104);
      && |st.keys.value.clientMac| == |st.keys.value.serverMac| == 20
      && |st.keys.value.clientKey| == |st.keys.value.serverKey| == 16
      && |st.keys.value.clientIv| == |st.keys.value.serverIv| == 16
      && b == st.keys.value.clientMac + st.keys.value.serverMac + st.keys.value.clientKey + st.keys.value.serverKey
           + st.keys.value.clientIv + st.keys.value.serverIv
      && st.keys.value.encryptKey == st.keys.value.clientKey && st.keys.value.decryptKey == st.keys.value.serverKey
  }

  /** When both controllers have completed, both sides hold the same history, randoms, master secret and keys. */
  lemma KeyAgreement(lib: Library, cfg: Config, run: seq<System>, n: nat)
    requires Honest(lib, cfg) && IsRun(lib, cfg, run) && n < |run| && Completed(run[n])
    ensures var (c, s) := (run[n].client.st, run[n].server.st);
      && SecretsAgree(c, s) && ClientSecretsDerived(lib, cfg, c)
      && c.history == s.history
      && c.remote == Some(cfg.serverCertificate) && s.remote == Some(cfg.clientCertificate)
    ensures run[n].toServer == [] && run[n].toClient == []
  {
    var i, j := ReachableStates(lib, cfg, run, n);
    ProgressAt(lib, cfg, i, j);
    FinalState(lib, cfg, i, j);
  }

  lemma FinalState(lib: Library, cfg: Config, i: nat, j: nat)
    requires i == LENGTH && j == LENGTH
    ensures var t := StateAt(lib, cfg, i, j); var (c, s) := (t.client.st, t.server.st);
      && SecretsAgree(c, s) && ClientSecretsDerived(lib, cfg, c)
      && c.history == s.history
      && c.remote == Some(cfg.serverCertificate) && s.remote == Some(cfg.clientCertificate)
      && t.toServer == [] && t.toClient == []
  {
    hide History;
    var b := SharedBlock(lib, cfg);
    var seed := Prf.KEY_EXPANSION_LABEL + cfg.serverCoins.random + cfg.clientCoins.random;
    Prf.OutputPrefix(lib, Master(lib, cfg), seed, 104, KEY_BLOCK_SIZE);
    hide Prf.Output;
    assert b[..104] == b[0..20] + b[20..40] + b[40..56] + b[56..72] + b[72..88] + b[88..104];
  }

  /** After a completed handshake every message that fits crosses unchanged, in order, in either direction. */
  lemma ChannelWorks(lib: Library, cfg: Config, run: seq<System>, n: nat,
                     ivs: seq<Block>, messages: seq<Bytes>, rest: Bytes)
    requires Honest(lib, cfg) && IsRun(lib, cfg, run) && n < |run| && Completed(run[n])
    requires |ivs| == |messages| && forall m | m in messages :: |m| <= SecureChannel.MAX_MESSAGE
    ensures var (c, s) := (run[n].client.st, run[n].server.st);
      && c.keys.Some? && s.keys.Some?
      && SecureChannel.ReceiveMany(lib, s, SecureChannel.WrittenAll(lib, c, ivs, messages) + rest, |messages|)
         == Some((messages, rest))
      && SecureChannel.ReceiveMany(lib, c, SecureChannel.WrittenAll(lib, s, ivs, messages) + rest, |messages|)
         == Some((messages, rest))
  {
    KeyAgreement(lib, cfg, run, n);
    hide IsRun, Honest;
    SecureChannel.MessagesTransfer(lib, run[n].client.st, run[n].server.st, ivs, messages, rest);
    SecureChannel.MessagesTransfer(lib, run[n].server.st, run[n].client.st, ivs, messages, rest);
  }

  /** The bytes one side writes from record `k` on. */
  function Written(lib: Library, cfg: Config, k: nat, byClient: bool): Bytes
    requires k <= LENGTH
    decreases LENGTH - k
  {
    if k == LENGTH then []
    else if ClientSends(k) == byClient then Records.Encode(RecordAt(lib, cfg, k)) + Written(lib, cfg, k + 1, byClient)
    else Written(lib, cfg, k + 1, byClient)
  }

  lemma WrittenNext(lib: Library, cfg: Config, k: nat)
    requires k < LENGTH
    ensures var r := Records.Encode(RecordAt(lib, cfg, k));
      && Written(lib, cfg, k, ClientSends(k)) == r + Written(lib, cfg, k + 1, ClientSends(k))
      && Written(lib, cfg, k, !ClientSends(k)) == Written(lib, cfg, k + 1, !ClientSends(k))
  {
    hide RecordAt, Records.Encode;
  }

  /** What one side has written once it has handled record `k`. */
  function Output(lib: Library, cfg: Config, k: nat, outgoing: Bytes, byClient: bool): Bytes
    requires k < LENGTH
  {
    if ClientSends(k) == byClient then outgoing + Records.Encode(RecordAt(lib, cfg, k)) else outgoing
  }

  lemma ClientRunStep(lib: Library, cfg: Config, i: nat, outgoing: Bytes)
    requires Honest(lib, cfg) && i < LENGTH
    ensures C.Run(lib, cfg.clientCoins, ClientAt(lib, cfg, i), Wire(Written(lib, cfg, i, false), outgoing))
            == C.Run(lib, cfg.clientCoins, ClientAt(lib, cfg, i + 1),
                     Wire(Written(lib, cfg, i + 1, false), Output(lib, cfg, i, outgoing, true)))
  {
    var w := Wire(Written(lib, cfg, i, false), outgoing);
    ClientControl(lib, cfg, i);
    ArbitraryPeer.UnfoldClient(lib, cfg.clientCoins, ClientAt(lib, cfg, i), w);
    WrittenNext(lib, cfg, i);
    hide C.Run, C.Step, ClientAt, RecordAt, Records.Encode, Honest, Written;
    if ClientSends(i) {
      ClientSendStep(lib, cfg, i, w);
    } else {
      ClientReceiveStep(lib, cfg, i, Wire(Written(lib, cfg, i + 1, false), outgoing));
    }
  }

  lemma ServerRunStep(lib: Library, cfg: Config, j: nat, outgoing: Bytes)
    requires Honest(lib, cfg) && j < LENGTH
    ensures S.Run(lib, cfg.serverCoins, ServerAt(lib, cfg, j), Wire(Written(lib, cfg, j, true), outgoing))
            == S.Run(lib, cfg.serverCoins, ServerAt(lib, cfg, j + 1),
                     Wire(Written(lib, cfg, j + 1, true), Output(lib, cfg, j, outgoing, false)))
  {
    var w := Wire(Written(lib, cfg, j, true), outgoing);
    ServerControl(lib, cfg, j);
    ArbitraryPeer.Unfold(lib, cfg.serverCoins, ServerAt(lib, cfg, j), w);
    WrittenNext(lib, cfg, j);
    hide S.Run, S.Step, ServerAt, RecordAt, Records.Encode, Honest, Written;
    if ClientSends(j) {
      ServerReceiveStep(lib, cfg, j, Wire(Written(lib, cfg, j + 1, true), outgoing));
    } else {
      ServerSendStep(lib, cfg, j, w);
    }
  }

  /** What is written later comes after what has been written. */
  lemma OutputThenWritten(lib: Library, cfg: Config, k: nat, outgoing: Bytes, byClient: bool)
    requires k < LENGTH
    ensures Output(lib, cfg, k, outgoing, byClient) + Written(lib, cfg, k + 1, byClient)
            == outgoing + Written(lib, cfg, k, byClient)
  {
    WrittenNext(lib, cfg, k);
    hide RecordAt, Records.Encode, Written;
    if ClientSends(k) == byClient {
      Associative(outgoing, Records.Encode(RecordAt(lib, cfg, k)), Written(lib, cfg, k + 1, byClient));
    }
  }

  /** The client's controller, run alone against an honest server's bytes, completes and writes the client's records. */
  lemma {:induction false} ClientAlone(lib: Library, cfg: Config, i: nat, outgoing: Bytes)
    requires Honest(lib, cfg) && i <= LENGTH
    ensures C.Run(lib, cfg.clientCoins, ClientAt(lib, cfg, i), Wire(Written(lib, cfg, i, false), outgoing))
            == (ClientAt(lib, cfg, LENGTH), Wire([], outgoing + Written(lib, cfg, i, true)))
    decreases LENGTH - i
  {
    if i == LENGTH {
      ClientControl(lib, cfg, i);
      ArbitraryPeer.UnfoldClient(lib, cfg.clientCoins, ClientAt(lib, cfg, i), Wire([], outgoing));
      hide C.Run, ClientAt;
      assert outgoing + [] == outgoing;
    } else {
      hide C.Run, ClientAt, Honest, Written, Output;
      ClientRunStep(lib, cfg, i, outgoing);
      ClientAlone(lib, cfg, i + 1, Output(lib, cfg, i, outgoing, true));
      OutputThenWritten(lib, cfg, i, outgoing, true);
    }
  }

  /** The server's controller, run alone against an honest client's bytes. */
  lemma {:induction false} ServerAlone(lib: Library, cfg: Config, j: nat, outgoing: Bytes)
    requires Honest(lib, cfg) && j <= LENGTH
    ensures S.Run(lib, cfg.serverCoins, ServerAt(lib, cfg, j), Wire(Written(lib, cfg, j, true), outgoing))
            == (ServerAt(lib, cfg, LENGTH), Wire([], outgoing + Written(lib, cfg, j, false)))
    decreases LENGTH - j
  {
    if j == LENGTH {
      ServerControl(lib, cfg, j);
      ArbitraryPeer.Stops(lib, cfg.serverCoins, ServerAt(lib, cfg, j), Wire([], outgoing));
      hide S.Run, ServerAt;
      assert outgoing + [] == outgoing;
    } else {
      hide S.Run, ServerAt, Honest, Written, Output;
      ServerRunStep(lib, cfg, j, outgoing);
      ServerAlone(lib, cfg, j + 1, Output(lib, cfg, j, outgoing, false));
      OutputThenWritten(lib, cfg, j, outgoing, false);
    }
  }

  /** Honest pairs exist, so none of this is vacuous. */
  lemma HonestPairExists()
    ensures exists lib: Library, cfg: Config :: Honest(lib, cfg)
  {
    var lib: Library := TOY;
    var key := PrivateKey([7]);
    var cert := Certificate([7], Rsa([7]));
    var cfg := Config(cert, key, C.Coins(Repeat(1, 32), Repeat(2, 46), [], Repeat(3, 16)),
                      cert, key, S.Coins(Repeat(4, 32), Repeat(5, 16)));
    hide History;
    assert Honest(lib, cfg);
  }
}
