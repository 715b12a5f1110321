/**
 Client and server as a concurrent system: two controllers, one byte FIFO per
 direction, and every interleaving of their steps.
 */
module TwoParty {
  import opened Wrappers
  import opened ByteSeqs
  import opened Crypto
  import opened Endpoint
  import opened HonestRun
  import C = ClientMachine
  import S = ServerMachine
  import Records

  datatype System = System(client: C.Client, server: S.Server, toServer: Bytes, toClient: Bytes)

  function Initial(cfg: Config): System
  {
    System(C.Start(cfg.clientCertificate, cfg.clientKey), S.Start(cfg.serverCertificate, cfg.serverKey), [], [])
  }

  /** A blocking read returns once a whole record has arrived or the peer has given up and closed. */
  predicate CanRead(fifo: Bytes, peerClosed: bool)
  {
    Records.Read(fifo).0.Ok? || peerClosed
  }

  predicate ClientEnabled(s: System)
  {
    && !C.Halted(s.client.pc)
    && (C.Receives(s.client.pc) ==> CanRead(s.toClient, s.server.pc.Failed?))
  }

  predicate ServerEnabled(s: System)
  {
    && !S.Halted(s.server.pc)
    && (S.Receives(s.server.pc) ==> CanRead(s.toServer, s.client.pc.Failed?))
  }

  function ClientMove(lib: Library, cfg: Config, s: System): System
  {
    var (c, w) := C.Step(lib, cfg.clientCoins, s.client, Wire(s.toClient, s.toServer));
    System(c, s.server, w.outgoing, w.incoming)
  }

  function ServerMove(lib: Library, cfg: Config, s: System): System
  {
    var (v, w) := S.Step(lib, cfg.serverCoins, s.server, Wire(s.toServer, s.toClient));
    System(s.client, v, w.incoming, w.outgoing)
  }

  /** Either side may take the next step. */
  predicate Next(lib: Library, cfg: Config, s: System, s': System)
  {
    || (ClientEnabled(s) && s' == ClientMove(lib, cfg, s))
    || (ServerEnabled(s) && s' == ServerMove(lib, cfg, s))
  }

  predicate NextAt(lib: Library, cfg: Config, run: seq<System>, n: nat)
    requires n + 1 < |run|
  {
    Next(lib, cfg, run[n], run[n + 1])
  }

  /** Any finite interleaving from the initial state. */
  predicate IsRun(lib: Library, cfg: Config, run: seq<System>)
  {
    && run != []
    && run[0] == Initial(cfg)
    && forall n :: 0 <= n < |run| - 1 ==> NextAt(lib, cfg, run, n)
  }

  predicate Completed(s: System)
  {
    s.client.pc.Done? && s.server.pc.Done?
  }

  /** Records `from` up to but excluding `to`. */
  function Flight(lib: Library, cfg: Config, from: nat, to: nat): (r: seq<Records.Record>)
    requires to <= LENGTH
    ensures |r| == (if from < to then to - from else 0)
    decreases if from < to then to - from else 0
  {
    if from < to then [RecordAt(lib, cfg, from)] + Flight(lib, cfg, from + 1, to) else []
  }

  /** Whichever side is ahead is ahead by records that it sent itself. */
  predicate Legal(i: nat, j: nat)
  {
    && i <= LENGTH && j <= LENGTH
    && (forall k :: j <= k < i ==> ClientSends(k))
    && (forall k :: i <= k < j ==> !ClientSends(k))
  }

  /** The state in which the client has handled `i` records and the server `j`. */
  function StateAt(lib: Library, cfg: Config, i: nat, j: nat): System
    requires i <= LENGTH && j <= LENGTH
  {
    System(ClientAt(lib, cfg, i), ServerAt(lib, cfg, j),
           Records.EncodeAll(Flight(lib, cfg, j, i)), Records.EncodeAll(Flight(lib, cfg, i, j)))
  }

  lemma {:induction false} FlightSnoc(lib: Library, cfg: Config, from: nat, to: nat)
    requires from <= to < LENGTH
    ensures Flight(lib, cfg, from, to + 1) == Flight(lib, cfg, from, to) + [RecordAt(lib, cfg, to)]
    decreases if from < to then to - from else 0
  {
    hide RecordAt;
    if from < to {
      FlightSnoc(lib, cfg, from + 1, to);
    }
  }

  lemma EncodeFlightSnoc(lib: Library, cfg: Config, from: nat, to: nat)
    requires from <= to < LENGTH
    ensures Records.EncodeAll(Flight(lib, cfg, from, to + 1))
            == Records.EncodeAll(Flight(lib, cfg, from, to)) + Records.Encode(RecordAt(lib, cfg, to))
  {
    FlightSnoc(lib, cfg, from, to);
    var last := [RecordAt(lib, cfg, to)];
    Records.EncodeAllAppend(Flight(lib, cfg, from, to), last);
    assert Records.EncodeAll(last[1..]) == [];
  }

  lemma EncodeFlightCons(lib: Library, cfg: Config, from: nat, to: nat)
    requires from < to <= LENGTH
    ensures Records.EncodeAll(Flight(lib, cfg, from, to))
            == Records.Encode(RecordAt(lib, cfg, from)) + Records.EncodeAll(Flight(lib, cfg, from + 1, to))
  {
    var f := Flight(lib, cfg, from, to);
    assert f[0] == RecordAt(lib, cfg, from) && f[1..] == Flight(lib, cfg, from + 1, to);
  }

  /** From a legal state, whatever the client can do is to handle record `i`. */
  lemma ClientAdvances(lib: Library, cfg: Config, i: nat, j: nat)
    requires Honest(lib, cfg) && Legal(i, j)
    ensures ClientEnabled(StateAt(lib, cfg, i, j)) <==> i < LENGTH && (ClientSends(i) || i < j)
    ensures ClientEnabled(StateAt(lib, cfg, i, j)) ==>
              Legal(i + 1, j) && ClientMove(lib, cfg, StateAt(lib, cfg, i, j)) == StateAt(lib, cfg, i + 1, j)
  {
    hide C.Step, ClientAt, ServerAt, RecordAt;
    ClientControl(lib, cfg, i);
    ServerControl(lib, cfg, j);
    var s := StateAt(lib, cfg, i, j);
    if i < LENGTH && ClientSends(i) {
      assert j <= i;
      ClientSendStep(lib, cfg, i, Wire(s.toClient, s.toServer));
      EncodeFlightSnoc(lib, cfg, j, i);
    } else if i < j {
      EncodeFlightCons(lib, cfg, i, j);
      var rest := Records.EncodeAll(Flight(lib, cfg, i + 1, j));
      ReadRecord(lib, cfg, i, rest);
      ClientReceiveStep(lib, cfg, i, Wire(rest, s.toServer));
      assert Flight(lib, cfg, j, i) == [] == Flight(lib, cfg, j, i + 1);
    }
  }

  /** From a legal state, whatever the server can do is to handle record `j`. */
  lemma ServerAdvances(lib: Library, cfg: Config, i: nat, j: nat)
    requires Honest(lib, cfg) && Legal(i, j)
    ensures ServerEnabled(StateAt(lib, cfg, i, j)) <==> j < LENGTH && (!ClientSends(j) || j < i)
    ensures ServerEnabled(StateAt(lib, cfg, i, j)) ==>
              Legal(i, j + 1) && ServerMove(lib, cfg, StateAt(lib, cfg, i, j)) == StateAt(lib, cfg, i, j + 1)
  {
    hide S.Step, ClientAt, ServerAt, RecordAt;
    ClientControl(lib, cfg, i);
    ServerControl(lib, cfg, j);
    var s := StateAt(lib, cfg, i, j);
    if j < LENGTH && !ClientSends(j) {
      assert i <= j;
      ServerSendStep(lib, cfg, j, Wire(s.toServer, s.toClient));
      EncodeFlightSnoc(lib, cfg, i, j);
    } else if j < i {
      EncodeFlightCons(lib, cfg, j, i);
      var rest := Records.EncodeAll(Flight(lib, cfg, j + 1, i));
      ReadRecord(lib, cfg, j, rest);
      ServerReceiveStep(lib, cfg, j, Wire(rest, s.toClient));
      assert Flight(lib, cfg, i, j) == [] == Flight(lib, cfg, i, j + 1);
    }
  }

  lemma InitialState(lib: Library, cfg: Config)
    ensures Initial(cfg) == StateAt(lib, cfg, 0, 0)
  {
    hide Master, Keys;
  }

  lemma AnyStep(lib: Library, cfg: Config, i: nat, j: nat, s': System) returns (i': nat, j': nat)
    requires Honest(lib, cfg) && Legal(i, j) && Next(lib, cfg, StateAt(lib, cfg, i, j), s')
    ensures Legal(i', j') && i' + j' == i + j + 1 && s' == StateAt(lib, cfg, i', j')
  {
    assert i <= LENGTH && j <= LENGTH;
    hide RecordAt, ClientAt, ServerAt, History;
    hide StateAt, ClientMove, ServerMove, ClientEnabled, ServerEnabled, Legal, Honest;
    var s := StateAt(lib, cfg, i, j);
    i', j' := i, j;
    if ClientEnabled(s) && s' == ClientMove(lib, cfg, s) {
      i' := i + 1;
      ClientAdvances(lib, cfg, i, j);
    } else {
      j' := j + 1;
      ServerAdvances(lib, cfg, i, j);
    }
  }

  /**
   The inductive invariant: after `n` steps of any interleaving, the two sides
   have handled `n` records between them and everything else follows from how many each.
   */
  lemma {:induction false} ReachableStates(lib: Library, cfg: Config, run: seq<System>, n: nat) returns (i: nat, j: nat)
    requires Honest(lib, cfg) && IsRun(lib, cfg, run) && n < |run|
    ensures Legal(i, j) && i + j == n && run[n] == StateAt(lib, cfg, i, j)
  {
    hide Initial, StateAt, Next, Honest;
    if n == 0 {
      i, j := 0, 0;
      InitialState(lib, cfg);
    } else {
      i, j := ReachableStates(lib, cfg, run, n - 1);
      assert NextAt(lib, cfg, run, n - 1);
      i, j := AnyStep(lib, cfg, i, j, run[n]);
    }
  }

  lemma RunGrows(lib: Library, cfg: Config, run: seq<System>, s': System)
    requires IsRun(lib, cfg, run) && Next(lib, cfg, run[|run| - 1], s')
    ensures IsRun(lib, cfg, run + [s'])
  {
    hide Next, Initial;
    forall n | 0 <= n < |run| ensures NextAt(lib, cfg, run + [s'], n) {
      if n < |run| - 1 {
        assert NextAt(lib, cfg, run, n);
      }
    }
  }

  /** The move that leads to a legal state, and where it comes from. */
  lemma Predecessor(i: nat, j: nat) returns (i': nat, j': nat)
    requires Legal(i, j) && i + j > 0
    ensures Legal(i', j')
    ensures || (i == i' + 1 && j == j' && (ClientSends(i') || i' < j'))
            || (i == i' && j == j' + 1 && (!ClientSends(j') || j' < i'))
  {
    i', j' := i, j;
    if i > j || (i == j && !ClientSends(i - 1)) {
      i' := i - 1;
    } else {
      j' := j - 1;
    }
  }

  lemma LegalStep(lib: Library, cfg: Config, i: nat, j: nat, i': nat, j': nat)
    requires Honest(lib, cfg) && Legal(i, j) && i' <= LENGTH && j' <= LENGTH
    requires || (i' == i + 1 && j' == j && (ClientSends(i) || i < j))
             || (i' == i && j' == j + 1 && (!ClientSends(j) || j < i))
    ensures Next(lib, cfg, StateAt(lib, cfg, i, j), StateAt(lib, cfg, i', j'))
  {
    assert i <= LENGTH && j <= LENGTH;
    hide StateAt, ClientMove, ServerMove, ClientEnabled, ServerEnabled, Legal, Honest;
    if i' > i {
      ClientAdvances(lib, cfg, i, j);
    } else {
      ServerAdvances(lib, cfg, i, j);
    }
  }

  /** A run of `i + j` steps that ends where the sides have handled `i` and `j` records. */
  predicate Reaches(lib: Library, cfg: Config, run: seq<System>, i: nat, j: nat)
    requires i <= LENGTH && j <= LENGTH
  {
    IsRun(lib, cfg, run) && |run| == i + j + 1 && run[i + j] == StateAt(lib, cfg, i, j)
  }

  lemma ReachesMore(lib: Library, cfg: Config, run: seq<System>, i: nat, j: nat, i': nat, j': nat)
    requires i <= LENGTH && j <= LENGTH && Reaches(lib, cfg, run, i, j)
    requires i' <= LENGTH && j' <= LENGTH && i' + j' == i + j + 1
    requires Next(lib, cfg, StateAt(lib, cfg, i, j), StateAt(lib, cfg, i', j'))
    ensures Reaches(lib, cfg, run + [StateAt(lib, cfg, i', j')], i', j')
  {
    hide IsRun, Next, StateAt;
    RunGrows(lib, cfg, run, StateAt(lib, cfg, i', j'));
  }

  /** The other direction: every legal state is reached by some interleaving. */
  lemma {:induction false} LegalStatesAreReached(lib: Library, cfg: Config, i: nat, j: nat) returns (run: seq<System>)
    requires Honest(lib, cfg) && Legal(i, j)
    ensures i <= LENGTH && j <= LENGTH && Reaches(lib, cfg, run, i, j)
    decreases i + j
  {
    assert i <= LENGTH && j <= LENGTH;
    if i + j == 0 {
      hide Initial, StateAt, Legal, Honest, Next;
      InitialState(lib, cfg);
      run := [Initial(cfg)];
    } else {
      hide StateAt, Next, Reaches, Legal, Honest;
      var i', j' := Predecessor(i, j);
      var earlier := LegalStatesAreReached(lib, cfg, i', j');
      LegalStep(lib, cfg, i', j', i, j);
      ReachesMore(lib, cfg, earlier, i', j', i, j);
      run := earlier + [StateAt(lib, cfg, i, j)];
    }
  }

  /**
   The plaintext handshake payloads in a byte stream, found by decoding it.
   After a ChangeCipherSpec the one handshake record that follows is the encrypted Finished.
   */
  function PlainPayloads(stream: Bytes, isProtected: bool): Bytes
    decreases |stream|
  {
    match Records.Read(stream)
    case (Err(_), _) => []
    case (Ok(r), rest) =>
      if r.kind == Records.CHANGE_CIPHER_SPEC then PlainPayloads(rest, true)
      else if isProtected || r.kind != Records.HANDSHAKE then PlainPayloads(rest, isProtected)
      else r.data + PlainPayloads(rest, isProtected)
  }

  lemma HistoryGrows(lib: Library, cfg: Config, k: nat)
    requires k < LENGTH
    ensures var r, h, h' := RecordAt(lib, cfg, k), History(lib, cfg, Min(k, PLAIN)),
        History(lib, cfg, Min(k + 1, PLAIN));
      if k < PLAIN then r.kind == Records.HANDSHAKE && h' == h + r.data
      else h' == h && (if k == 8 || k == 10 then r.kind == Records.CHANGE_CIPHER_SPEC else r.kind == Records.HANDSHAKE)
  {
    hide Payload, FinishedBody;
  }

  /** A flight of records carries exactly the part of the history between its two ends. */
  lemma {:induction false} FlightCarriesHistory(lib: Library, cfg: Config, from: nat, to: nat, isProtected: bool)
    requires Honest(lib, cfg) && from <= to <= LENGTH
    requires from == 9 || from == 11 ==> isProtected
    requires isProtected ==> PLAIN <= from
    ensures History(lib, cfg, Min(to, PLAIN))
            == History(lib, cfg, Min(from, PLAIN)) + PlainPayloads(Records.EncodeAll(Flight(lib, cfg, from, to)),
                isProtected)
    decreases LENGTH - from
  {
    hide Records.Read, Records.Encode, RecordAt, History;
    var stream := Records.EncodeAll(Flight(lib, cfg, from, to));
    if from == to {
      EmptyStream(isProtected);
      assert History(lib, cfg, Min(to, PLAIN)) == History(lib, cfg, Min(from, PLAIN)) + [];
    } else {
      var rest := Records.EncodeAll(Flight(lib, cfg, from + 1, to));
      EncodeFlightCons(lib, cfg, from, to);
      ReadRecord(lib, cfg, from, rest);
      HistoryGrows(lib, cfg, from);
      var next := isProtected || from == 8 || from == 10;
      FlightCarriesHistory(lib, cfg, from + 1, to, next);
      if from < PLAIN {
        Associative(History(lib, cfg, Min(from, PLAIN)), RecordAt(lib, cfg, from).data, PlainPayloads(rest, next));
      }
    }
  }

  lemma EmptyStream(isProtected: bool)
    ensures PlainPayloads([], isProtected) == []
  {
  }

  ghost predicate Agrees(s: System)
  {
    && (s.toServer == [] || s.toClient == [])
    && (s.toClient == [] ==>
          s.client.st.history
          == s.server.st.history + PlainPayloads(s.toServer, s.server.pc.ReceivingFinished?))
    && (s.toServer == [] ==>
          s.server.st.history
          == s.client.st.history + PlainPayloads(s.toClient, s.client.pc.ReceivingFinished?))
  }

  lemma FlightIsEmpty(lib: Library, cfg: Config, i: nat, j: nat)
    requires i <= LENGTH && j <= LENGTH
    ensures Records.EncodeAll(Flight(lib, cfg, i, j)) == [] <==> j <= i
  {
    hide RecordAt;
  }

  lemma TranscriptAt(lib: Library, cfg: Config, i: nat, j: nat)
    requires Honest(lib, cfg) && Legal(i, j)
    ensures Agrees(StateAt(lib, cfg, i, j))
  {
    hide History, PlainPayloads, RecordAt, ClientAt, ServerAt, Flight, Records.EncodeAll, Honest;
    var s := StateAt(lib, cfg, i, j);
    FlightIsEmpty(lib, cfg, i, j);
    FlightIsEmpty(lib, cfg, j, i);
    ClientControl(lib, cfg, i);
    ServerControl(lib, cfg, j);
    EmptyStream(s.client.pc.ReceivingFinished?);
    EmptyStream(s.server.pc.ReceivingFinished?);
    assert (j < i ==> ClientSends(j)) && (i < j ==> !ClientSends(i));
    hide Legal;
    if j < i {
      FlightCarriesHistory(lib, cfg, j, i, s.server.pc.ReceivingFinished?);
    } else if i < j {
      FlightCarriesHistory(lib, cfg, i, j, s.client.pc.ReceivingFinished?);
    }
  }

  /**
   Transcript agreement. In every reachable state at most one direction carries
   bytes, and the side that is ahead has exactly the plaintext handshake
   payloads in flight more in its history than the other.
   */
  lemma TranscriptAgreement(lib: Library, cfg: Config, run: seq<System>, n: nat)
    requires Honest(lib, cfg) && IsRun(lib, cfg, run) && n < |run|
    ensures Agrees(run[n])
  {
    var i, j := ReachableStates(lib, cfg, run, n);
    TranscriptAt(lib, cfg, i, j);
  }
}
