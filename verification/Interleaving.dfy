/**
 The two controllers at the grain of the source, where using the connection and
 updating the own state are two steps: between them a record is written or read
 already, and the history does not show it yet.
 */
module Interleaving {
  import opened Wrappers
  import opened ByteSeqs
  import opened Crypto
  import opened HonestRun
  import opened Payloads
  import opened TwoParty
  import C = ClientMachine
  import Completion
  import S = ServerMachine

  /** Both sides as they are, and what a side that has just used the connection will be once it has caught up. */
  datatype Fine = Fine(
    client: C.Client, server: S.Server, toServer: Bytes, toClient: Bytes,
    clientNext: Option<C.Client>, serverNext: Option<S.Server>)

  function Start(cfg: Config): Fine
  {
    var s := Initial(cfg);
    Fine(s.client, s.server, s.toServer, s.toClient, None, None)
  }

  /** The sides as they are. */
  function Seen(f: Fine): System
  {
    System(f.client, f.server, f.toServer, f.toClient)
  }

  /** The sides as they will be once they have caught up. */
  function CaughtUp(f: Fine): System
  {
    System(if f.clientNext.Some? then f.clientNext.value else f.client,
           if f.serverNext.Some? then f.serverNext.value else f.server,
           f.toServer, f.toClient)
  }

  predicate ClientUses(lib: Library, cfg: Config, f: Fine, f': Fine)
  {
    && f.clientNext.None? && ClientEnabled(Seen(f))
    && var s := ClientMove(lib, cfg, Seen(f));
      f' == f.(toServer := s.toServer, toClient := s.toClient, clientNext := Some(s.client))
  }

  predicate ClientCatchesUp(f: Fine, f': Fine)
  {
    f.clientNext.Some? && f' == f.(client := f.clientNext.value, clientNext := None)
  }

  predicate ServerUses(lib: Library, cfg: Config, f: Fine, f': Fine)
  {
    && f.serverNext.None? && ServerEnabled(Seen(f))
    && var s := ServerMove(lib, cfg, Seen(f));
      f' == f.(toServer := s.toServer, toClient := s.toClient, serverNext := Some(s.server))
  }

  predicate ServerCatchesUp(f: Fine, f': Fine)
  {
    f.serverNext.Some? && f' == f.(server := f.serverNext.value, serverNext := None)
  }

  predicate FineNext(lib: Library, cfg: Config, f: Fine, f': Fine)
  {
    ClientUses(lib, cfg, f, f') || ClientCatchesUp(f, f') || ServerUses(lib, cfg, f, f') || ServerCatchesUp(f, f')
  }

  predicate FineNextAt(lib: Library, cfg: Config, run: seq<Fine>, n: nat)
    requires n + 1 < |run|
  {
    FineNext(lib, cfg, run[n], run[n + 1])
  }

  predicate IsFineRun(lib: Library, cfg: Config, run: seq<Fine>)
  {
    && run != []
    && run[0] == Start(cfg)
    && forall n :: 0 <= n < |run| - 1 ==> FineNextAt(lib, cfg, run, n)
  }

  /** How many records a side's own state accounts for, when the connection has seen it handle `i`. */
  function Behind<T>(next: Option<T>, i: nat): int
  {
    if next.Some? then i - 1 else i
  }

  /** The state in which client and server have handled `i` and `j` records on the connection. */
  ghost predicate FineStateAt(lib: Library, cfg: Config, i: nat, j: nat, f: Fine)
    requires i <= LENGTH && j <= LENGTH
  {
    && CaughtUp(f) == StateAt(lib, cfg, i, j)
    && Behind(f.clientNext, i) >= 0 && f.client == ClientAt(lib, cfg, Behind(f.clientNext, i))
    && Behind(f.serverNext, j) >= 0 && f.server == ServerAt(lib, cfg, Behind(f.serverNext, j))
  }

  lemma NeverFailed(lib: Library, cfg: Config, i: nat, j: nat, f: Fine)
    requires i <= LENGTH && j <= LENGTH && FineStateAt(lib, cfg, i, j, f)
    ensures !f.client.pc.Failed? && !f.server.pc.Failed?
    ensures !CaughtUp(f).client.pc.Failed? && !CaughtUp(f).server.pc.Failed?
  {
    hide ClientAt, ServerAt, Flight;
    ClientControl(lib, cfg, i);
    ServerControl(lib, cfg, j);
    ClientControl(lib, cfg, Behind(f.clientNext, i));
    ServerControl(lib, cfg, Behind(f.serverNext, j));
  }

  lemma ClientUsesStep(lib: Library, cfg: Config, i: nat, j: nat, f: Fine, f': Fine)
    requires Honest(lib, cfg) && Legal(i, j) && FineStateAt(lib, cfg, i, j, f) && ClientUses(lib, cfg, f, f')
    ensures Legal(i + 1, j) && FineStateAt(lib, cfg, i + 1, j, f')
  {
    hide ClientAt, ServerAt, StateAt, Legal, Honest, C.Step, Flight;
    LegalBounds(i, j);
    NeverFailed(lib, cfg, i, j, f);
    assert CaughtUp(f') == ClientMove(lib, cfg, CaughtUp(f)) && ClientEnabled(CaughtUp(f));
    ClientAdvances(lib, cfg, i, j);
    LegalBounds(i + 1, j);
    hide ClientMove, ClientEnabled;
  }

  lemma ServerUsesStep(lib: Library, cfg: Config, i: nat, j: nat, f: Fine, f': Fine)
    requires Honest(lib, cfg) && Legal(i, j) && FineStateAt(lib, cfg, i, j, f) && ServerUses(lib, cfg, f, f')
    ensures Legal(i, j + 1) && FineStateAt(lib, cfg, i, j + 1, f')
  {
    hide ClientAt, ServerAt, StateAt, Legal, Honest, S.Step, Flight;
    LegalBounds(i, j);
    NeverFailed(lib, cfg, i, j, f);
    assert CaughtUp(f') == ServerMove(lib, cfg, CaughtUp(f)) && ServerEnabled(CaughtUp(f));
    ServerAdvances(lib, cfg, i, j);
    LegalBounds(i, j + 1);
    hide ServerMove, ServerEnabled;
  }

  lemma LegalBounds(i: nat, j: nat)
    requires Legal(i, j)
    ensures i <= LENGTH && j <= LENGTH
  {
  }

  lemma CatchUpStep(lib: Library, cfg: Config, i: nat, j: nat, f: Fine, f': Fine)
    requires i <= LENGTH && j <= LENGTH && FineStateAt(lib, cfg, i, j, f)
    requires ClientCatchesUp(f, f') || ServerCatchesUp(f, f')
    ensures FineStateAt(lib, cfg, i, j, f')
  {
    assert CaughtUp(f') == CaughtUp(f);
    hide ClientAt, ServerAt, Flight;
  }

  lemma FineStep(lib: Library, cfg: Config, i: nat, j: nat, f: Fine, f': Fine) returns (i': nat, j': nat)
    requires Honest(lib, cfg) && Legal(i, j) && FineStateAt(lib, cfg, i, j, f) && FineNext(lib, cfg, f, f')
    ensures Legal(i', j') && FineStateAt(lib, cfg, i', j', f')
    ensures Behind(f'.clientNext, i') + Behind(f'.serverNext, j') + i' + j'
            == Behind(f.clientNext, i) + Behind(f.serverNext, j) + i + j + 1
  {
    hide FineStateAt, ClientEnabled, ServerEnabled, ClientMove, ServerMove, Legal, Honest;
    i', j' := i, j;
    if ClientUses(lib, cfg, f, f') {
      i' := i + 1;
      ClientUsesStep(lib, cfg, i, j, f, f');
    } else if ServerUses(lib, cfg, f, f') {
      j' := j + 1;
      ServerUsesStep(lib, cfg, i, j, f, f');
    } else {
      LegalBounds(i, j);
      CatchUpStep(lib, cfg, i, j, f, f');
    }
  }

  lemma FineStart(lib: Library, cfg: Config)
    ensures Legal(0, 0) && FineStateAt(lib, cfg, 0, 0, Start(cfg))
    ensures Start(cfg).clientNext.None? && Start(cfg).serverNext.None?
  {
    hide Flight, History;
    InitialState(lib, cfg);
    assert CaughtUp(Start(cfg)) == Initial(cfg);
    hide ClientAt, ServerAt;
  }

  /** Every reachable state of the finer system is determined by how many records each side has handled. */
  lemma {:induction false} FineReachable(lib: Library, cfg: Config, run: seq<Fine>, n: nat) returns (i: nat, j: nat)
    requires Honest(lib, cfg) && IsFineRun(lib, cfg, run) && n < |run|
    ensures Legal(i, j) && FineStateAt(lib, cfg, i, j, run[n])
    ensures Behind(run[n].clientNext, i) + Behind(run[n].serverNext, j) + i + j == n
  {
    hide FineNext, Honest, FineStateAt, Legal, Start;
    if n == 0 {
      i, j := 0, 0;
      FineStart(lib, cfg);
    } else {
      i, j := FineReachable(lib, cfg, run, n - 1);
      assert FineNextAt(lib, cfg, run, n - 1);
      hide IsFineRun;
      i, j := FineStep(lib, cfg, i, j, run[n - 1], run[n]);
    }
  }

  /** Once caught up, every reachable state of the finer system is a reachable state of the coarser one. */
  lemma FineRunsRefine(lib: Library, cfg: Config, run: seq<Fine>, n: nat) returns (coarse: seq<System>)
    requires Honest(lib, cfg) && IsFineRun(lib, cfg, run) && n < |run|
    ensures IsRun(lib, cfg, coarse) && coarse[|coarse| - 1] == CaughtUp(run[n])
  {
    hide Honest, IsFineRun, Legal, StateAt, IsRun;
    var i, j := FineReachable(lib, cfg, run, n);
    LegalBounds(i, j);
    coarse := LegalStatesAreReached(lib, cfg, i, j);
  }

  /** What a side will append to its history when it catches up: nothing, or one payload of the handshake. */
  ghost predicate Lags(lib: Library, cfg: Config, history: Bytes, caughtUp: Bytes, lag: Bytes, pending: bool)
  {
    && caughtUp == history + lag
    && (lag == [] || (pending && exists k :: 0 <= k < PLAIN && lag == Payload(lib, cfg, k)))
  }

  lemma LagOf(lib: Library, cfg: Config, i: nat, k: nat, pending: bool) returns (lag: Bytes)
    requires i <= LENGTH && i == if pending then k + 1 else k
    ensures Lags(lib, cfg, History(lib, cfg, Min(k, PLAIN)), History(lib, cfg, Min(i, PLAIN)), lag, pending)
  {
    hide Payload;
    if pending && i <= PLAIN {
      lag := Payload(lib, cfg, k);
      assert Min(k, PLAIN) == k && Min(i, PLAIN) == i;
      assert History(lib, cfg, i) == History(lib, cfg, k) + Payload(lib, cfg, k);
      hide History;
    } else {
      lag := [];
      hide History;
      assert Min(k, PLAIN) == Min(i, PLAIN);
    }
  }

  lemma HistoriesAt(lib: Library, cfg: Config, i: nat, j: nat, f: Fine)
    requires i <= LENGTH && j <= LENGTH && FineStateAt(lib, cfg, i, j, f)
    ensures Behind(f.clientNext, i) >= 0 && Behind(f.serverNext, j) >= 0
    ensures f.client.st.history == History(lib, cfg, Min(Behind(f.clientNext, i), PLAIN))
    ensures f.server.st.history == History(lib, cfg, Min(Behind(f.serverNext, j), PLAIN))
    ensures CaughtUp(f).client.st.history == History(lib, cfg, Min(i, PLAIN))
    ensures CaughtUp(f).server.st.history == History(lib, cfg, Min(j, PLAIN))
  {
    hide ClientAt, ServerAt, Flight, History;
    ClientControl(lib, cfg, i);
    ServerControl(lib, cfg, j);
    ClientControl(lib, cfg, Behind(f.clientNext, i));
    ServerControl(lib, cfg, Behind(f.serverNext, j));
  }

  /**
   Transcript agreement at the finer grain. A side that has written or read a
   plaintext handshake record and not appended it yet lags by that one payload,
   and by nothing otherwise. With the lags added, the histories agree up to what is in flight.
   */
  lemma FineTranscriptAgreement(lib: Library, cfg: Config, run: seq<Fine>, n: nat)
    returns (clientLag: Bytes, serverLag: Bytes)
    requires Honest(lib, cfg) && IsFineRun(lib, cfg, run) && n < |run|
    ensures var (f, s) := (run[n], CaughtUp(run[n]));
      && Lags(lib, cfg, f.client.st.history, s.client.st.history, clientLag, f.clientNext.Some?)
      && Lags(lib, cfg, f.server.st.history, s.server.st.history, serverLag, f.serverNext.Some?)
      && Agrees(s)
  {
    hide Honest, IsFineRun, Agrees, StateAt, History, Legal, Lags;
    var i, j := FineReachable(lib, cfg, run, n);
    var f := run[n];
    LegalBounds(i, j);
    HistoriesAt(lib, cfg, i, j, f);
    clientLag := LagOf(lib, cfg, i, Behind(f.clientNext, i), f.clientNext.Some?);
    serverLag := LagOf(lib, cfg, j, Behind(f.serverNext, j), f.serverNext.Some?);
    TranscriptAt(lib, cfg, i, j);
  }

  // When the histories agree as they are.

  /** The type byte of each plaintext handshake message. */
  function KindAt(k: nat): Byte
    requires k < PLAIN
  {
    match k
    case 0 => CLIENT_HELLO
    case 1 => SERVER_HELLO
    case 2 | 5 => CERTIFICATE
    case 3 => CERTIFICATE_REQUEST
    case 4 => SERVER_HELLO_DONE
    case 6 => CLIENT_KEY_EXCHANGE
    case _ => CERTIFICATE_VERIFY
  }

  lemma PayloadStarts(lib: Library, cfg: Config, k: nat)
    requires k < PLAIN
    ensures Payload(lib, cfg, k) != [] && Payload(lib, cfg, k)[0] == KindAt(k)
  {
    hide History, C.PreMasterSecret, U24Low, U16;
  }

  lemma HistoryNext(lib: Library, cfg: Config, k: nat)
    requires k < PLAIN
    ensures History(lib, cfg, k + 1) == History(lib, cfg, k) + Payload(lib, cfg, k)
  {
    hide Payload;
  }

  lemma StartsHere(h: Bytes, p: Bytes)
    requires p != []
    ensures h <= h + p && |h| < |h + p| && (h + p)[|h|] == p[0]
  {
  }

  lemma StartsKeep(h: Bytes, g: Bytes, p: Bytes)
    requires h <= g && |h| < |g|
    ensures h <= g + p && |h| < |g + p| && (g + p)[|h|] == g[|h|]
  {
  }

  lemma {:induction false} HistoryStarts(lib: Library, cfg: Config, k: nat, n: nat)
    requires k < n <= PLAIN
    ensures var (h, g) := (History(lib, cfg, k), History(lib, cfg, n));
      h <= g && |h| < |g| && g[|h|] == KindAt(k)
    decreases n
  {
    hide History, Payload, KindAt;
    HistoryNext(lib, cfg, n - 1);
    PayloadStarts(lib, cfg, n - 1);
    if k < n - 1 {
      HistoryStarts(lib, cfg, k, n - 1);
      StartsKeep(History(lib, cfg, k), History(lib, cfg, n - 1), Payload(lib, cfg, n - 1));
    } else {
      StartsHere(History(lib, cfg, k), Payload(lib, cfg, k));
    }
  }

  /**
   Two histories that differ by `p` do not differ by `p` one message earlier,
   because neighbouring messages start differently.
   */
  lemma ShiftedDiffers(lib: Library, cfg: Config, x: nat, y: nat, p: Bytes)
    requires 1 <= x < y <= PLAIN && History(lib, cfg, y) == History(lib, cfg, x) + p
    ensures History(lib, cfg, y - 1) != History(lib, cfg, x - 1) + p
  {
    hide History;
    HistoryStarts(lib, cfg, x, y);
    HistoryStarts(lib, cfg, x - 1, y - 1);
    var n := |History(lib, cfg, x - 1)|;
    assert p[0] == KindAt(x) && History(lib, cfg, y - 1)[n] == KindAt(x - 1);
    assert (History(lib, cfg, x - 1) + p)[n] == p[0];
  }

  /** The side that is ahead shows `k` of its `x` messages, the other one `l` of its `y`. */
  lemma ShownAgree(lib: Library, cfg: Config, x: nat, y: nat, k: nat, l: nat, p: Bytes)
    requires y <= x <= PLAIN && k <= x <= k + 1 && l <= y <= l + 1
    requires History(lib, cfg, x) == History(lib, cfg, y) + p
    ensures History(lib, cfg, k) == History(lib, cfg, l) + p
            <==> (k == x && l == y) || (x == y && k < x && l < y)
  {
    hide History;
    if k < x {
      HistoryStarts(lib, cfg, k, x);
    }
    if l < y {
      HistoryStarts(lib, cfg, l, y);
    }
    if k < x && l < y && y < x {
      ShiftedDiffers(lib, cfg, y, x, p);
    }
  }

  /**
   The histories as they are, compared as `Agrees` does. The flight is decoded as
   the side that has caught up would.
   */
  ghost predicate AgreesAsSeen(f: Fine)
  {
    var s := CaughtUp(f);
    && (s.toServer == [] || s.toClient == [])
    && (s.toClient == [] ==>
          f.client.st.history == f.server.st.history + PlainPayloads(s.toServer, s.server.pc.ReceivingFinished?))
    && (s.toServer == [] ==>
          f.server.st.history == f.client.st.history + PlainPayloads(s.toClient, s.client.pc.ReceivingFinished?))
  }

  predicate ClientLags(f: Fine)
  {
    CaughtUp(f).client.st.history != f.client.st.history
  }

  predicate ServerLags(f: Fine)
  {
    CaughtUp(f).server.st.history != f.server.st.history
  }

  lemma LagsWhen(lib: Library, cfg: Config, x: nat, k: nat)
    requires k <= x <= k + 1 && x <= LENGTH
    ensures History(lib, cfg, Min(x, PLAIN)) == History(lib, cfg, Min(k, PLAIN)) <==> Min(k, PLAIN) == Min(x, PLAIN)
  {
    hide History;
    if Min(k, PLAIN) < Min(x, PLAIN) {
      HistoryStarts(lib, cfg, Min(k, PLAIN), Min(x, PLAIN));
    }
  }

  lemma SeenAt(lib: Library, cfg: Config, i: nat, j: nat, f: Fine)
    requires Honest(lib, cfg) && Legal(i, j) && i <= LENGTH && j <= LENGTH && FineStateAt(lib, cfg, i, j, f)
    ensures AgreesAsSeen(f)
            <==> || (!ClientLags(f) && !ServerLags(f))
                 || (ClientLags(f) && ServerLags(f) && f.toServer == f.toClient == [])
  {
    hide StateAt, ClientAt, ServerAt, History, Legal, Honest, PlainPayloads;
    TranscriptAt(lib, cfg, i, j);
    EmptyAt(lib, cfg, i, j);
    HistoriesAt(lib, cfg, i, j, f);
    hide FineStateAt;
    var k, l := Behind(f.clientNext, i), Behind(f.serverNext, j);
    LagsWhen(lib, cfg, i, k);
    LagsWhen(lib, cfg, j, l);
    var x, y := Min(i, PLAIN), Min(j, PLAIN);
    var s := CaughtUp(f);
    if j <= i {
      ShownAgree(lib, cfg, x, y, Min(k, PLAIN), Min(l, PLAIN),
                 PlainPayloads(s.toServer, s.server.pc.ReceivingFinished?));
    }
    if i <= j {
      ShownAgree(lib, cfg, y, x, Min(l, PLAIN), Min(k, PLAIN),
                 PlainPayloads(s.toClient, s.client.pc.ReceivingFinished?));
    }
  }

  lemma EmptyAt(lib: Library, cfg: Config, i: nat, j: nat)
    requires i <= LENGTH && j <= LENGTH
    ensures StateAt(lib, cfg, i, j).toServer == [] <==> i <= j
    ensures StateAt(lib, cfg, i, j).toClient == [] <==> j <= i
  {
    hide ClientAt, ServerAt;
    FlightIsEmpty(lib, cfg, i, j);
    FlightIsEmpty(lib, cfg, j, i);
  }

  /**
   In every reachable state the histories as they are agree, up to what is in
   flight, exactly when neither side lags, or both lag and nothing is in flight.
   */
  lemma HistoriesAgreeExactlyWhen(lib: Library, cfg: Config, run: seq<Fine>, n: nat)
    requires Honest(lib, cfg) && IsFineRun(lib, cfg, run) && n < |run|
    ensures var f := run[n];
      AgreesAsSeen(f)
      <==> || (!ClientLags(f) && !ServerLags(f))
           || (ClientLags(f) && ServerLags(f) && f.toServer == f.toClient == [])
  {
    hide Honest, IsFineRun, AgreesAsSeen, StateAt, Legal, ClientLags, ServerLags;
    var i, j := FineReachable(lib, cfg, run, n);
    LegalBounds(i, j);
    SeenAt(lib, cfg, i, j, run[n]);
  }

  /** They do not always: right after the client has written its hello, it lags. */
  lemma HistoriesLag(lib: Library, cfg: Config, f: Fine)
    requires Honest(lib, cfg) && ClientUses(lib, cfg, Start(cfg), f)
    ensures ClientLags(f) && !ServerLags(f) && !AgreesAsSeen(f)
  {
    var i := 0;
    ClientControl(lib, cfg, i);
    var run := [Start(cfg), f];
    assert FineNextAt(lib, cfg, run, 0);
    hide Payload, C.Step, PlainPayloads, ServerAt;
    InitialState(lib, cfg);
    ClientAdvances(lib, cfg, i, i);
    ClientControl(lib, cfg, i + 1);
    HistoryStarts(lib, cfg, i, i + 1);
    hide AgreesAsSeen;
    HistoriesAgreeExactlyWhen(lib, cfg, run, 1);
  }

  ghost predicate CanMove(lib: Library, cfg: Config, f: Fine)
  {
    exists f' :: FineNext(lib, cfg, f, f')
  }

  /** At this grain, too, no honest run deadlocks or fails; all complete, after twice as many steps. */
  lemma FineRunsComplete(lib: Library, cfg: Config, run: seq<Fine>, n: nat)
    requires Honest(lib, cfg) && IsFineRun(lib, cfg, run) && n < |run|
    ensures n <= 2 * Completion.TOTAL_STEPS
    ensures !run[n].client.pc.Failed? && !run[n].server.pc.Failed?
    ensures Completed(Seen(run[n])) <==> n == 2 * Completion.TOTAL_STEPS
    ensures !Completed(Seen(run[n])) ==> CanMove(lib, cfg, run[n])
  {
    hide *;
    var i, j := FineReachable(lib, cfg, run, n);
    Prospects(lib, cfg, i, j, run[n], n);
  }

  lemma Prospects(lib: Library, cfg: Config, i: nat, j: nat, f: Fine, steps: nat)
    requires Honest(lib, cfg) && Legal(i, j) && FineStateAt(lib, cfg, i, j, f)
    requires Behind(f.clientNext, i) + Behind(f.serverNext, j) + i + j == steps
    ensures steps <= 2 * Completion.TOTAL_STEPS && !f.client.pc.Failed? && !f.server.pc.Failed?
    ensures Completed(Seen(f)) <==> steps == 2 * Completion.TOTAL_STEPS
    ensures !Completed(Seen(f)) ==> CanMove(lib, cfg, f)
  {
    hide Honest, FineStateAt, CanMove, Legal, Seen, CaughtUp, Completed;
    LegalBounds(i, j);
    NeverFailed(lib, cfg, i, j, f);
    ProgressCount(lib, cfg, i, j, f);
    if !Completed(Seen(f)) {
      CanGoOn(lib, cfg, i, j, f);
    }
  }

  lemma ProgressCount(lib: Library, cfg: Config, i: nat, j: nat, f: Fine)
    requires i <= LENGTH && j <= LENGTH && FineStateAt(lib, cfg, i, j, f)
    ensures Completed(Seen(f))
            <==> Behind(f.clientNext, i) + Behind(f.serverNext, j) + i + j == 2 * Completion.TOTAL_STEPS
  {
    hide ClientAt, ServerAt, Flight;
    ClientControl(lib, cfg, Behind(f.clientNext, i));
    ServerControl(lib, cfg, Behind(f.serverNext, j));
  }

  lemma CanGoOn(lib: Library, cfg: Config, i: nat, j: nat, f: Fine)
    requires Honest(lib, cfg) && Legal(i, j) && FineStateAt(lib, cfg, i, j, f) && !Completed(Seen(f))
    ensures CanMove(lib, cfg, f)
  {
    hide ClientAt, ServerAt, Honest, ClientEnabled, ServerEnabled, ClientMove, ServerMove, StateAt, Legal;
    if f.clientNext.Some? {
      var c := f.(client := f.clientNext.value, clientNext := None);
      assert ClientCatchesUp(f, c) && FineNext(lib, cfg, f, c);
    } else if f.serverNext.Some? {
      var v := f.(server := f.serverNext.value, serverNext := None);
      assert ServerCatchesUp(f, v) && FineNext(lib, cfg, f, v);
    } else {
      Completion.ProgressAt(lib, cfg, i, j);
      assert Seen(f) == CaughtUp(f);
      var s, t := ClientMove(lib, cfg, Seen(f)), ServerMove(lib, cfg, Seen(f));
      if ClientEnabled(Seen(f)) {
        var c := f.(toServer := s.toServer, toClient := s.toClient, clientNext := Some(s.client));
        assert ClientUses(lib, cfg, f, c) && FineNext(lib, cfg, f, c);
      } else {
        var v := f.(toServer := t.toServer, toClient := t.toClient, serverNext := Some(t.server));
        assert ServerUses(lib, cfg, f, v) && FineNext(lib, cfg, f, v);
      }
    }
  }
}
