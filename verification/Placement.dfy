/** Choosing the server that serves two clients best. */
module Placement {
  import opened Wrappers
  import Float32

  // math.MaxFloat64, where both minima start
  const MAX_FLOAT64 := 179769313486231570814527423731704356798070567525844996598917476803157260780028538760589558632766878171540458953514382464234321326889464182768467546703537516986049910576551282076245490090389328944075868508455133942304583236903222948165808559332123348274797826204144723168738177180919299881250404026184124858368.0

  /** A measured delay: a finite float32. Nothing depends on which numbers of the range are float32 numbers. */
  type Delay = d: real | -Float32.MAX <= d <= Float32.MAX

  type Delays = map<string, Delay>

  datatype PlacementError = NoServerFound

  function Max(x: real, y: real): real
  {
    if x < y then y else x
  }

  function Common(a: Delays, b: Delays): set<string>
  {
    a.Keys * b.Keys
  }

  function Worst(a: Delays, b: Delays, server: string): real
    requires server in Common(a, b)
  {
    Max(a[server], b[server])
  }

  /** The sum is a float32 sum, and widened only afterwards. */
  function Combined(a: Delays, b: Delays, server: string): real
    requires server in Common(a, b)
  {
    Float32.Add(a[server], b[server])
  }

  /** The worst latency decides; the combined latency breaks ties. */
  predicate Better(a: Delays, b: Delays, s: string, t: string)
    requires s in Common(a, b) && t in Common(a, b)
  {
    || Worst(a, b, s) < Worst(a, b, t)
    || (Worst(a, b, s) == Worst(a, b, t) && Combined(a, b, s) < Combined(a, b, t))
  }

  /** The servers of a set that no other server of the set is better than. */
  ghost function BestOf(a: Delays, b: Delays, servers: set<string>): set<string>
    requires servers <= Common(a, b)
  {
    set s | s in servers && forall t | t in servers :: !Better(a, b, t, s)
  }

  ghost function Optimal(a: Delays, b: Delays): set<string>
  {
    BestOf(a, b, Common(a, b))
  }

  /** How the best servers change when one more is considered. */
  lemma ConsiderServer(a: Delays, b: Delays, servers: set<string>, x: string, best: string)
    requires servers <= Common(a, b) && x in Common(a, b) && x !in servers && best in BestOf(a, b, servers)
    ensures BestOf(a, b, servers + {x})
            == (if Better(a, b, x, best) then {x}
                else if Better(a, b, best, x) then BestOf(a, b, servers)
                else BestOf(a, b, servers) + {x})
  {
    forall s | s in servers && s in BestOf(a, b, servers)
      ensures Worst(a, b, s) == Worst(a, b, best) && Combined(a, b, s) == Combined(a, b, best)
    {
      assert !Better(a, b, best, s) && !Better(a, b, s, best);
    }
    forall s | s in servers && s !in BestOf(a, b, servers)
      ensures s !in BestOf(a, b, servers + {x})
    {
    }
  }

  lemma BestAreMembers(a: Delays, b: Delays, servers: set<string>)
    requires servers <= Common(a, b)
    ensures BestOf(a, b, servers) <= servers
  {
  }

  lemma {:induction false} BestExists(a: Delays, b: Delays, servers: set<string>)
    requires servers != {} && servers <= Common(a, b)
    ensures BestOf(a, b, servers) != {}
    decreases |servers|
  {
    var x :| x in servers;
    var others := servers - {x};
    if others == {} {
      assert servers == {x} && x in BestOf(a, b, servers);
    } else {
      BestExists(a, b, others);
      var best :| best in BestOf(a, b, others);
      ConsiderServer(a, b, others, x, best);
      assert others + {x} == servers;
      assert if Better(a, b, x, best) then x in BestOf(a, b, servers) else best in BestOf(a, b, servers);
    }
  }

  /** There is a best server exactly when the two clients share a server at all. */
  lemma OptimalExists(a: Delays, b: Delays)
    ensures Optimal(a, b) == {} <==> Common(a, b) == {}
  {
    if Common(a, b) != {} {
      BestExists(a, b, Common(a, b));
    }
  }

  /** Swapping the clients changes nothing. */
  lemma OptimalIsSymmetric(a: Delays, b: Delays)
    ensures Optimal(a, b) == Optimal(b, a)
  {
    forall s, t | s in Common(a, b) && t in Common(a, b)
      ensures Better(a, b, s, t) == Better(b, a, s, t)
    {
    }
  }

  /** At least as fast for both clients and faster for one. */
  ghost predicate Dominates(a: Delays, b: Delays, t: string, s: string)
    requires s in Common(a, b) && t in Common(a, b)
  {
    a[t] <= a[s] && b[t] <= b[s] && (a[t] < a[s] || b[t] < b[s])
  }

  /** No common server has a lower worst latency than an optimal one. */
  lemma OptimalIsMinimax(a: Delays, b: Delays, s: string, t: string)
    requires s in Optimal(a, b) && t in Common(a, b)
    ensures Worst(a, b, s) <= Worst(a, b, t)
  {
    assert !Better(a, b, t, s);
  }

  lemma TiedWithOptimal(a: Delays, b: Delays, s: string, t: string)
    requires s in Optimal(a, b) && t in Common(a, b)
    requires Worst(a, b, t) == Worst(a, b, s) && Combined(a, b, t) == Combined(a, b, s)
    ensures t in Optimal(a, b)
  {
    hide Worst, Combined;
    forall u | u in Common(a, b) ensures !Better(a, b, u, t) {
      assert !Better(a, b, u, s);
    }
  }

  /** What dominates an optimal server is tied with it: the float32 sum did not tell them apart. */
  lemma DominatorsAreTied(a: Delays, b: Delays, s: string, t: string)
    requires s in Optimal(a, b) && t in Common(a, b) && Dominates(a, b, t, s)
    ensures Worst(a, b, t) == Worst(a, b, s) && Combined(a, b, t) == Combined(a, b, s) && t in Optimal(a, b)
  {
    var x: real, y: real, v: real, w: real := a[t], b[t], a[s], b[s];
    hide Float32.Round;
    Float32.RoundGrows(x + y, v + w);
    assert !Better(a, b, t, s);
    hide Float32.Add;
    TiedWithOptimal(a, b, s, t);
  }

  ghost predicate AllPareto(a: Delays, b: Delays)
  {
    forall s, t | s in Optimal(a, b) && t in Common(a, b) :: !Dominates(a, b, t, s)
  }

  lemma ParetoAmongTied(a: Delays, b: Delays)
    ensures AllPareto(a, b) <==> forall s, t | s in Optimal(a, b) && t in Optimal(a, b) :: !Dominates(a, b, t, s)
  {
    forall s, t | s in Optimal(a, b) && t in Common(a, b) && Dominates(a, b, t, s) ensures t in Optimal(a, b) {
      DominatorsAreTied(a, b, s, t);
    }
  }

  /** One client is as far from `t` as from `s`; the other is nearer to `t`, and the float32 sum does not show it. */
  predicate Absorbed(a: Delays, b: Delays, t: string, s: string)
    requires s in Common(a, b) && t in Common(a, b)
  {
    && Combined(a, b, t) == Combined(a, b, s)
    && (|| (a[t] == a[s] && b[t] < b[s] <= a[s])
        || (b[t] == b[s] && a[t] < a[s] <= b[s]))
  }

  lemma DominatedIsAbsorbed(a: Delays, b: Delays, s: string, t: string)
    requires s in Optimal(a, b) && t in Common(a, b)
    ensures Dominates(a, b, t, s) <==> Absorbed(a, b, t, s)
  {
    if Dominates(a, b, t, s) {
      DominatorsAreTied(a, b, s, t);
    }
    hide Float32.Add, Optimal;
  }

  /**
   Whether every candidate is Pareto-optimal can be told from the delay lists:
   exactly when for every two servers whose difference the sum absorbs, some
   server is better than the slower one.
   */
  lemma OptimalIsParetoExactlyWhen(a: Delays, b: Delays)
    ensures AllPareto(a, b)
            <==> forall s, t | s in Common(a, b) && t in Common(a, b) && Absorbed(a, b, t, s) ::
                   exists u :: u in Common(a, b) && Better(a, b, u, s)
  {
    hide Absorbed, Dominates, Better;
    forall s, t | s in Common(a, b) && t in Common(a, b) && s in Optimal(a, b)
      ensures Dominates(a, b, t, s) <==> Absorbed(a, b, t, s)
    {
      DominatedIsAbsorbed(a, b, s, t);
    }
  }

  /** In particular if nothing is absorbed. */
  lemma NothingAbsorbedIsPareto(a: Delays, b: Delays)
    requires forall s, t | s in Common(a, b) && t in Common(a, b) :: !Absorbed(a, b, t, s)
    ensures AllPareto(a, b)
  {
    OptimalIsParetoExactlyWhen(a, b);
  }

  /** In exact arithmetic every candidate is Pareto-optimal. */
  lemma OptimalIsPareto(a: Delays, b: Delays)
    requires forall s | s in Optimal(a, b) :: Combined(a, b, s) == a[s] as real + b[s] as real
    ensures AllPareto(a, b)
  {
    forall s, t | s in Optimal(a, b) && t in Common(a, b) ensures !Dominates(a, b, t, s) {
      if Dominates(a, b, t, s) {
        DominatorsAreTied(a, b, s, t);
        hide Float32.Round;
        assert false;
      }
    }
  }

  /** A whole number of milliseconds, up to about two hours. */
  predicate IsWhole(d: Delay)
  {
    var x: real := d;
    x == x.Floor as real && -8388608.0 <= x <= 8388608.0
  }

  /** In particular for whole delays: their float32 sums are exact. */
  lemma WholeDelaysArePareto(a: Delays, b: Delays)
    requires forall s | s in Common(a, b) :: IsWhole(a[s]) && IsWhole(b[s])
    ensures AllPareto(a, b)
  {
    hide Float32.Add;
    forall s | s in Optimal(a, b) ensures Combined(a, b, s) == a[s] as real + b[s] as real {
      var x: real, y: real := a[s], b[s];
      Float32.WholeSumsAreExact(x.Floor, y.Floor);
    }
    OptimalIsPareto(a, b);
  }

  lemma TiesAreOptimal(a: Delays, b: Delays, s: string, t: string)
    requires Common(a, b) == {s, t}
    requires Worst(a, b, s) == Worst(a, b, t) && Combined(a, b, s) == Combined(a, b, t)
    ensures Optimal(a, b) == {s, t}
  {
    hide Common, Worst, Combined;
    assert forall u, v | u in {s, t} && v in {s, t} :: !Better(a, b, u, v);
  }

  /**
   In float32 some are not. A client reports the largest float32 for a server that
   it has not reached; next to that, 5 and 100 make no difference, and the slower server is a candidate too.
   */
  lemma UnreachedServersTie(s: string, t: string) returns (a: Delays, b: Delays)
    requires s != t
    ensures Common(a, b) == {s, t} && Dominates(a, b, t, s)
    ensures Optimal(a, b) == {s, t} && !AllPareto(a, b)
  {
    a, b := map[s := Float32.MAX, t := Float32.MAX], map[s := 100.0, t := 5.0];
    assert Common(a, b) == {s, t} && Dominates(a, b, t, s);
    LargestTies(a, b, s, t);
    hide Worst, Combined, Dominates, Common, Better;
    TiesAreOptimal(a, b, s, t);
    hide Optimal;
  }

  lemma LargestTies(a: Delays, b: Delays, s: string, t: string)
    requires s in Common(a, b) && t in Common(a, b) && a[s] == a[t] == Float32.MAX
    requires b[s] == 100.0 && b[t] == 5.0
    ensures Worst(a, b, s) == Worst(a, b, t) && Combined(a, b, s) == Combined(a, b, t)
  {
    hide Float32.Add;
    Float32.LargestAbsorbs(100.0);
    Float32.LargestAbsorbs(5.0);
  }

  /**
   The tie-break matters: among servers of least worst latency, one can be
   dominated that the code does not choose.
   */
  lemma MinimaxAloneIsDominated(s: string, t: string) returns (a: Delays, b: Delays)
    requires s != t
    ensures Common(a, b) == {s, t} && (forall u | u in Common(a, b) :: Worst(a, b, s) <= Worst(a, b, u))
    ensures Dominates(a, b, t, s) && s !in Optimal(a, b)
  {
    a, b := map[s := Float32.MAX, t := Float32.MAX], map[s := Float32.MAX, t := 5.0];
    hide Float32.Add;
    assert Common(a, b) == {s, t};
    Float32.LargestAbsorbs(5.0);
    Float32.LargestOverflows(Float32.MAX);
    assert Better(a, b, t, s);
  }

  /** A list without repetitions of exactly the elements of a set. */
  ghost predicate Enumerates(xs: seq<string>, s: set<string>)
  {
    && (forall x :: x in xs <==> x in s)
    && (forall i, j :: 0 <= i < j < |xs| ==> xs[i] != xs[j])
  }

  /** The first two loops of `compute_optimal_server`; map iteration visits the keys in no particular order. */
  method CombineLatencies(client1: Delays, client2: Delays) returns (serverLatency: map<string, real>)
    ensures forall s :: s in serverLatency <==> s in client1 || s in client2
    ensures forall s :: s in client1 && s in client2 ==> serverLatency[s] == Max(client1[s], client2[s])
  {
    serverLatency := map[];
    var rest := client1.Keys;
    while rest != {}
      invariant rest <= client1.Keys
      invariant forall s :: s in serverLatency <==> s in client1 && s !in rest
      invariant forall s :: s in serverLatency ==> serverLatency[s] == client1[s]
      decreases rest
    {
      var server :| server in rest;
      rest := rest - {server};
      serverLatency := serverLatency[server := client1[server]];
    }
    rest := client2.Keys;
    while rest != {}
      invariant rest <= client2.Keys
      invariant forall s :: s in serverLatency <==> s in client1 || (s in client2 && s !in rest)
      invariant forall s :: s in client1 && s in rest ==> serverLatency[s] == client1[s]
      invariant forall s :: s in client1 && s in client2 && s !in rest ==>
                  serverLatency[s] == Max(client1[s], client2[s])
      decreases rest
    {
      var server :| server in rest;
      rest := rest - {server};
      var known: real := if server in serverLatency then serverLatency[server] else 0.0;
      serverLatency := serverLatency[server := Max(known, client2[server])];
    }
  }

  lemma EnumerateOne(x: string)
    ensures Enumerates([x], {x})
  {
  }

  lemma EnumerateMore(xs: seq<string>, s: set<string>, x: string)
    requires Enumerates(xs, s) && x !in s
    ensures Enumerates(xs + [x], s + {x})
  {
  }

  /** One server of the last loop: keep, replace or extend the list of servers tied for best. */
  method Consider(client1: Delays, client2: Delays, server: string, latency: real, ghost seen: set<string>,
                  servers: seq<string>, minimumLatency: real, minimumCombined: real)
    returns (servers': seq<string>, minimumLatency': real, minimumCombined': real)
    requires seen <= Common(client1, client2) && server in Common(client1, client2) && server !in seen
    requires latency == Worst(client1, client2, server)
    requires BestSoFar(client1, client2, seen, servers, minimumLatency, minimumCombined)
    ensures BestSoFar(client1, client2, seen + {server}, servers', minimumLatency', minimumCombined')
  {
    hide Float32.Add;
    servers', minimumLatency', minimumCombined' := servers, minimumLatency, minimumCombined;
    var combined := Combined(client1, client2, server);
    if seen == {} {
      assert seen + {server} == {server};
      assert BestOf(client1, client2, {server}) == {server};
    } else {
      assert servers[0] in BestOf(client1, client2, seen);
      ConsiderServer(client1, client2, seen, server, servers[0]);
    }
    hide BestOf;
    assert server !in BestOf(client1, client2, seen) by { BestAreMembers(client1, client2, seen); }
    EnumerateOne(server);
    if server !in servers {
      EnumerateMore(servers, BestOf(client1, client2, seen), server);
    }
    hide Enumerates, Max, Common;
    if latency < minimumLatency {
      minimumLatency', minimumCombined' := latency, combined;
      servers' := [server];
    } else if latency == minimumLatency && combined < minimumCombined {
      minimumCombined' := combined;
      servers' := [server];
    } else if latency == minimumLatency && combined == minimumCombined {
      servers' := servers + [server];
    }
  }

  ghost predicate BestSoFar(a: Delays, b: Delays, seen: set<string>, servers: seq<string>, latency: real,
      combined: real)
    requires seen <= Common(a, b)
  {
    && Enumerates(servers, BestOf(a, b, seen))
    && (seen == {} ==> servers == [] && latency == MAX_FLOAT64)
    && (seen != {} ==> servers != [])
    && (forall s :: s in servers ==> s in seen && Worst(a, b, s) == latency && Combined(a, b, s) == combined)
  }

  /** The last loop: one pass that keeps the servers tied for best so far. */
  method MinimizeLatency(client1: Delays, client2: Delays) returns (servers: seq<string>)
    ensures Enumerates(servers, Optimal(client1, client2))
  {
    var serverLatency := CombineLatencies(client1, client2);
    servers := [];
    var minimumLatency, minimumCombined := MAX_FLOAT64, MAX_FLOAT64;
    ghost var seen: set<string> := {};
    var rest := serverLatency.Keys;
    while rest != {}
      invariant rest <= serverLatency.Keys
      invariant forall s :: s in seen <==> s in client1 && s in client2 && s !in rest
      invariant BestSoFar(client1, client2, seen, servers, minimumLatency, minimumCombined)
      decreases rest
    {
      var server :| server in rest;
      rest := rest - {server};
      if server in client1 && server in client2 {
        servers, minimumLatency, minimumCombined := Consider(
          client1, client2, server, serverLatency[server], seen, servers, minimumLatency, minimumCombined);
        seen := seen + {server};
      }
    }
    assert seen == Common(client1, client2);
  }

  /** `compute_optimal_server`; `draw` is the random number behind `Intn`, `servers` the list it draws from. */
  method ComputeOptimalServer(client1: Delays, client2: Delays, draw: nat)
    returns (r: Result<string, PlacementError>, ghost servers: seq<string>)
    ensures r.Ok? <==> Common(client1, client2) != {}
    ensures Enumerates(servers, Optimal(client1, client2))
    ensures r.Ok? ==> servers != [] && r.value == servers[draw % |servers|] && r.value in Optimal(client1, client2)
  {
    var candidates := MinimizeLatency(client1, client2);
    servers := candidates;
    OptimalExists(client1, client2);
    hide Optimal;
    if |candidates| == 0 {
      return Err(NoServerFound), servers;
    }
    assert candidates[0] in candidates;
    if |candidates| == 1 {
      assert candidates[draw % |candidates|] == candidates[0];
      return Ok(candidates[0]), servers;
    }
    r := Ok(candidates[draw % |candidates|]);
  }
}
