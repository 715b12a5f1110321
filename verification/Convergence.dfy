/** What the rerouting sweep keeps, and how fast repeated sweeps place every room. */
module Convergence {
  import opened Placement
  import opened Rooms
  import ByteSeqs

  // Conservation.

  function Identity(r: ChatInstance): (string, seq<string>)
  {
    (r.roomId, r.users)
  }

  function Identities(rooms: seq<ChatInstance>): multiset<(string, seq<string>)>
  {
    if rooms == [] then multiset{} else multiset{Identity(rooms[0])} + Identities(rooms[1..])
  }

  lemma {:induction false} IdentitiesAppend(a: seq<ChatInstance>, b: seq<ChatInstance>)
    ensures Identities(a + b) == Identities(a) + Identities(b)
  {
    if a == [] {
      assert a + b == b;
    } else {
      assert (a + b)[1..] == a[1..] + b && (a + b)[0] == a[0];
      IdentitiesAppend(a[1..], b);
    }
  }

  /** The rooms by id and users, each as often as it is listed. */
  lemma {:induction false} IdentitiesAreListed(rooms: seq<ChatInstance>)
    ensures Identities(rooms)
            == multiset(seq(|rooms|, i requires 0 <= i < |rooms| => (rooms[i].roomId, rooms[i].users)))
  {
    var all := seq(|rooms|, i requires 0 <= i < |rooms| => (rooms[i].roomId, rooms[i].users));
    if rooms != [] {
      var rest := rooms[1..];
      IdentitiesAreListed(rest);
      assert all == [all[0]] + seq(|rest|, i requires 0 <= i < |rest| => (rest[i].roomId, rest[i].users));
    }
  }

  lemma IdentitiesOfOne(r: ChatInstance)
    ensures Identities([r]) == multiset{Identity(r)}
  {
    assert [r][1..] == [];
  }

  lemma Around(rooms: seq<ChatInstance>, i: nat)
    requires i < |rooms|
    ensures rooms == rooms[..i] + ([rooms[i]] + rooms[i + 1..])
  {
  }

  lemma RotationConserves(rooms: seq<ChatInstance>, i: nat, server: string)
    requires i < |rooms| && |rooms[i].users| == 2
    ensures Identities(RemoveAt(rooms, i) + [MovedTo(rooms[i], server)]) == Identities(rooms)
  {
    var a, x, c, moved := rooms[..i], rooms[i], rooms[i + 1..], MovedTo(rooms[i], server);
    assert Identity(moved) == Identity(x) by { assert moved.users == x.users; }
    Around(rooms, i);
    hide Identities, MovedTo, Identity;
    IdentitiesAppend(a + c, [moved]);
    IdentitiesAppend(a, c);
    IdentitiesAppend(a, [x] + c);
    IdentitiesAppend([x], c);
    IdentitiesOfOne(moved);
    IdentitiesOfOne(x);
  }

  /** The same room, on the server it was on or on a best one for its users. */
  ghost predicate Follows(d: DelayLists, r: ChatInstance, r': ChatInstance)
  {
    && Identity(r') == Identity(r)
    && (|| r'.chatServer == r.chatServer
        || (|r.users| == 2 && Placeable(d, r.users) && r'.chatServer in Best(d, r.users)))
  }

  ghost predicate HasOrigin(d: DelayLists, before: seq<ChatInstance>, r': ChatInstance)
  {
    exists j | 0 <= j < |before| :: Follows(d, before[j], r')
  }

  ghost predicate Settled(d: DelayLists, before: seq<ChatInstance>, after: seq<ChatInstance>)
  {
    forall k | 0 <= k < |after| :: HasOrigin(d, before, after[k])
  }

  lemma Unmoved(d: DelayLists, rooms: seq<ChatInstance>)
    ensures Settled(d, rooms, rooms)
  {
    hide Best, Placeable;
    forall k | 0 <= k < |rooms| ensures HasOrigin(d, rooms, rooms[k]) {
      assert Follows(d, rooms[k], rooms[k]);
    }
  }

  /** Where the room at index `k` of a rotated list comes from. */
  lemma RotatedFollows(d: DelayLists, rooms: seq<ChatInstance>, i: nat, server: string, k: nat)
    requires i < |rooms| && |rooms[i].users| == 2
    requires Placeable(d, rooms[i].users) && server in Best(d, rooms[i].users)
    requires k < |rooms|
    ensures HasOrigin(d, rooms, (RemoveAt(rooms, i) + [MovedTo(rooms[i], server)])[k])
  {
    var j := if k == |rooms| - 1 then i else if k < i then k else k + 1;
    assert MovedTo(rooms[i], server).users == rooms[i].users;
    hide Best, Placeable;
    assert Follows(d, rooms[j], (RemoveAt(rooms, i) + [MovedTo(rooms[i], server)])[k]);
  }

  lemma TurnSettles(d: DelayLists, rooms: seq<ChatInstance>, i: nat, rooms': seq<ChatInstance>)
    requires WellFormed(d, rooms) && Turn(d, rooms, i, rooms')
    ensures Settled(d, rooms, rooms') && Identities(rooms') == Identities(rooms)
  {
    var moved, server := TurnShape(d, rooms, i, rooms');
    hide Turn, WellFormed, Best, Placeable, Identities, HasOrigin, Follows, MovedTo;
    if !moved {
      Unmoved(d, rooms);
    } else {
      RotationConserves(rooms, i, server);
      forall k | 0 <= k < |rooms'| ensures HasOrigin(d, rooms, rooms'[k]) {
        RotatedFollows(d, rooms, i, server, k);
      }
    }
  }

  lemma SettledIsTransitive(d: DelayLists, a: seq<ChatInstance>, b: seq<ChatInstance>, c: seq<ChatInstance>)
    requires Settled(d, a, b) && Settled(d, b, c)
    ensures Settled(d, a, c)
  {
    forall k | 0 <= k < |c| ensures HasOrigin(d, a, c[k]) {
      assert HasOrigin(d, b, c[k]);
      var j :| 0 <= j < |b| && Follows(d, b[j], c[k]);
      assert HasOrigin(d, a, b[j]);
      var m :| 0 <= m < |a| && Follows(d, a[m], b[j]);
      assert Follows(d, a[m], c[k]);
    }
  }

  lemma {:induction false} TraceKeepsForm(d: DelayLists, trace: seq<seq<ChatInstance>>, n: nat)
    requires IsSweep(d, trace) && WellFormed(d, trace[0]) && n < |trace|
    ensures WellFormed(d, trace[n]) && |trace[n]| == |trace[0]|
  {
    hide WellFormed, Turn;
    if n > 0 {
      TraceKeepsForm(d, trace, n - 1);
      assert TurnAt(d, trace, n - 1);
      var _, _ := TurnShape(d, trace[n - 1], n - 1, trace[n]);
    }
  }

  lemma {:induction false} TraceConserves(d: DelayLists, trace: seq<seq<ChatInstance>>, n: nat)
    requires IsSweep(d, trace) && WellFormed(d, trace[0]) && n < |trace|
    ensures WellFormed(d, trace[n]) && |trace[n]| == |trace[0]|
    ensures Identities(trace[n]) == Identities(trace[0]) && Settled(d, trace[0], trace[n])
  {
    hide WellFormed, Turn, Identities, Settled;
    TraceKeepsForm(d, trace, n);
    if n == 0 {
      Unmoved(d, trace[0]);
    } else {
      TraceConserves(d, trace, n - 1);
      assert TurnAt(d, trace, n - 1);
      hide IsSweep;
      TurnSettles(d, trace[n - 1], n - 1, trace[n]);
      SettledIsTransitive(d, trace[0], trace[n - 1], trace[n]);
    }
  }

  /** A sweep neither drops, duplicates nor alters a room, and moves rooms only onto best servers; ties or not. */
  lemma SweepConserves(d: DelayLists, before: seq<ChatInstance>, after: seq<ChatInstance>)
    requires WellFormed(d, before) && Sweeps(d, before, after)
    ensures Identities(after) == Identities(before) && |after| == |before|
    ensures WellFormed(d, after) && Settled(d, before, after)
  {
    var trace :| IsSweep(d, trace) && trace[0] == before && trace[|trace| - 1] == after;
    TraceConserves(d, trace, |trace| - 1);
  }

  lemma {:induction false} IdentitiesCount(rooms: seq<ChatInstance>)
    ensures |Identities(rooms)| == |rooms|
  {
    if rooms != [] {
      IdentitiesCount(rooms[1..]);
    }
  }

  lemma StillThere(rooms: seq<ChatInstance>, p: nat, k: nat, user: string)
    requires p < |rooms| && k < |rooms| && k != p && user in rooms[k].users
    ensures FirstOf(RemoveAt(rooms, p), user) < |rooms| - 1
  {
    assert RemoveAt(rooms, p)[if k < p then k else k - 1] == rooms[k];
  }

  lemma OverlapRemovesTwo(rooms: seq<ChatInstance>, i: nat)
    requires i < |rooms| && |rooms[i].users| == 2 && !Separate(rooms, i)
    ensures |RemoveUser(RemoveUser(rooms, rooms[i].users[0]), rooms[i].users[1])| == |rooms| - 2
  {
    var r := rooms[i];
    assert r.users[0] in r.users && r.users[1] in r.users;
    var p := FirstOf(rooms, r.users[0]);
    var k := if p != i then i else var k :| 0 <= k < |rooms| && k != i && r.users[1] in rooms[k].users; k;
    assert p < |rooms|;
    hide Separate;
    StillThere(rooms, p, k, r.users[1]);
  }

  /**
   Whoever is in how many rooms: a reroute keeps every room exactly when the
   first user is in no earlier room and the second in no other; otherwise a room is lost.
   */
  lemma RerouteConservesExactlyWhen(rooms: seq<ChatInstance>, i: nat, server: string)
    requires i < |rooms| && |rooms[i].users| == 2
    ensures Identities(Rerouted(rooms, rooms[i], server)) == Identities(rooms) <==> Separate(rooms, i)
    ensures |Rerouted(rooms, rooms[i], server)| == if Separate(rooms, i) then |rooms| else |rooms| - 1
  {
    IdentitiesCount(rooms);
    IdentitiesCount(Rerouted(rooms, rooms[i], server));
    if Separate(rooms, i) {
      SeparateRotates(rooms, i, server);
      RotationConserves(rooms, i, server);
    } else {
      OverlapRemovesTwo(rooms, i);
    }
  }

  /** The first room the user is in, leaving out the one at `p`; the number of rooms if there is none. */
  function FirstOther(rooms: seq<ChatInstance>, p: nat, user: string): (q: nat)
    requires p < |rooms|
    ensures q <= |rooms| && q != p
    ensures q < |rooms| ==> user in rooms[q].users
    ensures forall k :: 0 <= k < q && k != p ==> user !in rooms[k].users
  {
    var others := RemoveAt(rooms, p);
    var j := FirstOf(others, user);
    assert forall k :: 0 <= k < |rooms| && k != p ==> rooms[k] == others[if k < p then k else k - 1];
    if j < p then j else j + 1
  }

  lemma RemoveCounts(rooms: seq<ChatInstance>, p: nat)
    requires p < |rooms|
    ensures Identities(RemoveAt(rooms, p)) + multiset{Identity(rooms[p])} == Identities(rooms)
  {
    var a, x, c := rooms[..p], rooms[p], rooms[p + 1..];
    Around(rooms, p);
    IdentitiesOfOne(x);
    hide Identities, Identity;
    IdentitiesAppend(a, [x] + c);
    IdentitiesAppend([x], c);
    IdentitiesAppend(a, c);
  }

  lemma OtherIndex(rooms: seq<ChatInstance>, p: nat, user: string)
    requires p < |rooms|
    ensures var q, others := FirstOther(rooms, p, user), RemoveAt(rooms, p);
      FirstOf(others, user) == (if q < p then q else q - 1)
      && (q < |rooms| ==> others[FirstOf(others, user)] == rooms[q])
  {
    hide FirstOf;
  }

  lemma Cancel<T>(a: multiset<T>, b: multiset<T>, x: multiset<T>)
    requires a + x == b + x
    ensures a == b
  {
    assert a == (a + x) - x && b == (b + x) - x;
  }

  lemma Exchange<T>(a: multiset<T>, x: multiset<T>, y: multiset<T>)
    ensures a + x + y == a + y + x == a + (x + y)
  {
  }

  lemma OneTaken<T>(after: multiset<T>, before: multiset<T>, z: T)
    requires after + multiset{z} + multiset{} == before + multiset{z}
    ensures after == before
  {
    assert after + multiset{z} + multiset{} == after + multiset{z};
    Cancel(after, before, multiset{z});
  }

  lemma TwoTaken<T>(after: multiset<T>, before: multiset<T>, x: T, y: T, z: T)
    requires after + multiset{x} + multiset{y} == before + multiset{z}
    ensures x == z ==> after + multiset{y} == before
    ensures y == z ==> after + multiset{x} == before
    ensures after + multiset{x, y} == before + multiset{z}
  {
    var xs, ys := multiset{x}, multiset{y};
    Exchange(after, xs, ys);
    assert xs + ys == multiset{x, y};
    if x == z {
      Cancel(after + ys, before, xs);
    }
    if y == z {
      Cancel(after + xs, before, ys);
    }
  }

  /** Taking out two rooms, the second as seen from the first. */
  lemma RemoveBalance(rooms: seq<ChatInstance>, user0: string, user1: string)
    requires FirstOf(rooms, user0) < |rooms|
    ensures var p := FirstOf(rooms, user0);
      var q := FirstOther(rooms, p, user1);
      Identities(RemoveUser(RemoveUser(rooms, user0), user1)) + multiset{Identity(rooms[p])}
      + (if q < |rooms| then multiset{Identity(rooms[q])} else multiset{})
      == Identities(rooms)
  {
    var p := FirstOf(rooms, user0);
    var others := RemoveAt(rooms, p);
    OtherIndex(rooms, p, user1);
    RemoveCounts(rooms, p);
    var j := FirstOf(others, user1);
    assert j < |others| <==> FirstOther(rooms, p, user1) < |rooms|;
    assert RemoveUser(rooms, user0) == others;
    hide FirstOf, FirstOther, Identities, Identity, RemoveAt;
    if j < |others| {
      RemoveCounts(others, j);
      Exchange(Identities(RemoveAt(others, j)), multiset{Identity(rooms[p])}, multiset{Identity(others[j])});
    } else {
      assert RemoveUser(others, user1) == others;
      assert Identities(rooms) + multiset{} == Identities(rooms);
    }
  }

  /**
   The balance of a reroute, whoever is in how many rooms. It takes out the first
   room of the first user, then the first other room of the second user if there
   is one, and puts in the room it is about.
   */
  lemma RerouteBalance(rooms: seq<ChatInstance>, i: nat, server: string)
    requires i < |rooms| && |rooms[i].users| == 2
    ensures var p := FirstOf(rooms, rooms[i].users[0]);
      p <= i && var q := FirstOther(rooms, p, rooms[i].users[1]);
      && (p != i ==> q <= i)
      && Identities(Rerouted(rooms, rooms[i], server)) + multiset{Identity(rooms[p])}
         + (if q < |rooms| then multiset{Identity(rooms[q])} else multiset{})
         == Identities(rooms) + multiset{Identity(rooms[i])}
  {
    var r := rooms[i];
    assert r.users[0] in r.users && r.users[1] in r.users;
    hide FirstOf, FirstOther, Identities, RemoveUser;
    RemoveBalance(rooms, r.users[0], r.users[1]);
    var rest, moved := RemoveUser(RemoveUser(rooms, r.users[0]), r.users[1]), MovedTo(r, server);
    assert Identity(moved) == Identity(r) by { assert moved.users == r.users; }
    IdentitiesOfOne(moved);
    IdentitiesAppend(rest, [moved]);
    var p := FirstOf(rooms, r.users[0]);
    var q := FirstOther(rooms, p, r.users[1]);
    var x, z := multiset{Identity(rooms[p])}, multiset{Identity(r)};
    hide Identity, MovedTo;
    var y := if q < |rooms| then multiset{Identity(rooms[q])} else multiset{};
    Exchange(Identities(rest), z, x);
    Exchange(Identities(rest) + x, z, y);
  }

  /**
   A reroute loses the rooms it takes out, except the one it is about; that one
   is there twice if it took out two others.
   */
  lemma RerouteLosesAndDoubles(rooms: seq<ChatInstance>, i: nat, server: string)
    requires i < |rooms| && |rooms[i].users| == 2
    ensures var p := FirstOf(rooms, rooms[i].users[0]);
      p <= i && var q := FirstOther(rooms, p, rooms[i].users[1]);
      var after := Identities(Rerouted(rooms, rooms[i], server));
      && (p == i && q == |rooms| ==> after == Identities(rooms))
      && (p == i && q < |rooms| ==> after + multiset{Identity(rooms[q])} == Identities(rooms))
      && (p < i && q == i ==> after + multiset{Identity(rooms[p])} == Identities(rooms))
      && (p < i && q != i ==>
            && q < i
            && after + multiset{Identity(rooms[p]), Identity(rooms[q])}
               == Identities(rooms) + multiset{Identity(rooms[i])})
  {
    hide Identities, Identity, FirstOther, FirstOf, Rerouted;
    RerouteBalance(rooms, i, server);
    var p := FirstOf(rooms, rooms[i].users[0]);
    var q := FirstOther(rooms, p, rooms[i].users[1]);
    var after, before := Identities(Rerouted(rooms, rooms[i], server)), Identities(rooms);
    if q == |rooms| {
      OneTaken(after, before, Identity(rooms[i]));
    } else {
      TwoTaken(after, before, Identity(rooms[p]), Identity(rooms[q]), Identity(rooms[i]));
    }
  }

  /** Three rooms, of which the last shares a user with each of the others: they go, and it is there twice. */
  lemma RerouteDoubles(x: ChatInstance, y: ChatInstance, z: ChatInstance, server: string)
    requires |z.users| == 2 && z.users[0] in x.users && z.users[1] in y.users && z.users[1] !in x.users
    ensures Rerouted([x, y, z], z, server) == [z, MovedTo(z, server)]
  {
    var rooms, u, v := [x, y, z], z.users[0], z.users[1];
    assert FirstOf(rooms, u) == 0 && RemoveUser(rooms, u) == [y, z];
    assert FirstOf([y, z], v) == 0 && RemoveUser([y, z], v) == [z];
  }

  /** The worst latency of a room never rises, as long as its old server still serves both users. */
  lemma WorstLatencyNeverRises(d: DelayLists, r: ChatInstance, r': ChatInstance)
    requires Follows(d, r, r') && |r.users| == 2 && Placeable(d, r.users)
    requires r.chatServer in Common(d[r.users[0]], d[r.users[1]])
    ensures r'.chatServer in Common(d[r.users[0]], d[r.users[1]])
    ensures Worst(d[r.users[0]], d[r.users[1]], r'.chatServer) <= Worst(d[r.users[0]], d[r.users[1]], r.chatServer)
  {
    if r'.chatServer != r.chatServer {
      OptimalIsMinimax(d[r.users[0]], d[r.users[1]], r'.chatServer, r.chatServer);
    }
  }

  // Convergence.

  ghost function CountMisplaced(d: DelayLists, rooms: seq<ChatInstance>): nat
  {
    if rooms == [] then 0 else (if Misplaced(d, rooms[0]) then 1 else 0) + CountMisplaced(d, rooms[1..])
  }

  lemma {:induction false} CountAppend(d: DelayLists, a: seq<ChatInstance>, b: seq<ChatInstance>)
    ensures CountMisplaced(d, a + b) == CountMisplaced(d, a) + CountMisplaced(d, b)
  {
    if a == [] {
      assert a + b == b;
    } else {
      assert (a + b)[1..] == a[1..] + b && (a + b)[0] == a[0];
      CountAppend(d, a[1..], b);
    }
  }

  lemma CountOfOne(d: DelayLists, r: ChatInstance)
    ensures CountMisplaced(d, [r]) == Weight(d, r)
  {
    assert [r][1..] == [];
  }

  ghost function Weight(d: DelayLists, r: ChatInstance): nat
  {
    if Misplaced(d, r) then 1 else 0
  }

  /** Counting around one index. */
  lemma CountAround(d: DelayLists, rooms: seq<ChatInstance>, i: nat)
    requires i < |rooms|
    ensures CountMisplaced(d, rooms[..i + 1]) == CountMisplaced(d, rooms[..i]) + Weight(d, rooms[i])
    ensures CountMisplaced(d, rooms) == CountMisplaced(d, RemoveAt(rooms, i)) + Weight(d, rooms[i])
  {
    var a, x, c := rooms[..i], rooms[i], rooms[i + 1..];
    assert rooms[..i + 1] == a + [x];
    Around(rooms, i);
    CountOfOne(d, x);
    hide CountMisplaced, Misplaced;
    CountAppend(d, a, [x]);
    CountAppend(d, [x], c);
    CountAppend(d, a, [x] + c);
    CountAppend(d, a, c);
  }

  /** One best server for every room that can be placed. */
  ghost predicate UniqueBest(d: DelayLists, rooms: seq<ChatInstance>)
  {
    forall r | r in rooms :: UniqueBestFor(d, r.users)
  }

  ghost predicate UniqueBestFor(d: DelayLists, users: seq<string>)
  {
    |users| == 2 && Placeable(d, users) ==>
      forall s, t | s in Best(d, users) && t in Best(d, users) :: s == t
  }

  lemma UniquenessCarriesOver(d: DelayLists, before: seq<ChatInstance>, after: seq<ChatInstance>)
    requires UniqueBest(d, before) && Settled(d, before, after)
    ensures UniqueBest(d, after)
  {
    forall r' | r' in after ensures UniqueBestFor(d, r'.users) {
      var k :| 0 <= k < |after| && after[k] == r';
      assert HasOrigin(d, before, after[k]);
      var j :| 0 <= j < |before| && Follows(d, before[j], after[k]);
      assert UniqueBestFor(d, before[j].users);
    }
  }

  lemma RotationCounts(d: DelayLists, rooms: seq<ChatInstance>, i: nat, server: string)
    requires i < |rooms| && |rooms[i].users| == 2 && UniqueBestFor(d, rooms[i].users)
    requires Placeable(d, rooms[i].users) && server in Best(d, rooms[i].users) && server != rooms[i].chatServer
    ensures var rooms' := RemoveAt(rooms, i) + [MovedTo(rooms[i], server)];
      && CountMisplaced(d, rooms') + 1 == CountMisplaced(d, rooms)
      && CountMisplaced(d, rooms'[..i + 1]) <= CountMisplaced(d, rooms[..i]) + 1
  {
    var moved, others := MovedTo(rooms[i], server), RemoveAt(rooms, i);
    var rooms' := others + [moved];
    assert Weight(d, rooms[i]) == 1;
    assert Weight(d, moved) == 0 by { assert moved.users == rooms[i].users; }
    hide CountMisplaced, Misplaced;
    CountAround(d, rooms, i);
    CountAppend(d, others, [moved]);
    CountOfOne(d, moved);
    CountAround(d, rooms', i);
    assert rooms'[..i] == rooms[..i];
  }

  /** The effect of one turn on the two counts the halving argument keeps. */
  lemma TurnCounts(d: DelayLists, rooms: seq<ChatInstance>, i: nat, rooms': seq<ChatInstance>) returns (placed: nat)
    requires WellFormed(d, rooms) && UniqueBest(d, rooms) && Turn(d, rooms, i, rooms')
    ensures |rooms'| == |rooms|
    ensures CountMisplaced(d, rooms') + placed == CountMisplaced(d, rooms)
    ensures CountMisplaced(d, rooms'[..i + 1]) <= CountMisplaced(d, rooms[..i]) + placed
  {
    var moved, server := TurnShape(d, rooms, i, rooms');
    assert UniqueBestFor(d, rooms[i].users);
    hide Turn, WellFormed;
    if !moved {
      placed := 0;
      CountAround(d, rooms, i);
    } else {
      placed := 1;
      RotationCounts(d, rooms, i, server);
    }
  }

  lemma {:induction false} TraceHalves(d: DelayLists, trace: seq<seq<ChatInstance>>, n: nat) returns (placed: nat)
    requires IsSweep(d, trace) && WellFormed(d, trace[0]) && UniqueBest(d, trace[0]) && n < |trace|
    ensures |trace[n]| == |trace[0]|
    ensures CountMisplaced(d, trace[n]) + placed == CountMisplaced(d, trace[0])
    ensures CountMisplaced(d, trace[n][..n]) <= placed
  {
    TraceConserves(d, trace, n);
    if n == 0 {
      placed := 0;
      assert trace[0][..0] == [];
    } else {
      var earlier := TraceHalves(d, trace, n - 1);
      TraceConserves(d, trace, n - 1);
      assert TurnAt(d, trace, n - 1);
      hide IsSweep;
      UniquenessCarriesOver(d, trace[0], trace[n - 1]);
      var now := TurnCounts(d, trace[n - 1], n - 1, trace[n]);
      placed := earlier + now;
    }
  }

  /** With unique optima one sweep at least halves the misplaced rooms, although every reroute skips a room. */
  lemma SweepHalves(d: DelayLists, before: seq<ChatInstance>, after: seq<ChatInstance>)
    requires WellFormed(d, before) && UniqueBest(d, before) && Sweeps(d, before, after)
    ensures 2 * CountMisplaced(d, after) <= CountMisplaced(d, before)
    ensures UniqueBest(d, after)
  {
    var trace :| IsSweep(d, trace) && trace[0] == before && trace[|trace| - 1] == after;
    var n := |trace| - 1;
    var placed := TraceHalves(d, trace, n);
    assert trace[n][..n] == trace[n];
    SweepConserves(d, before, after);
    UniquenessCarriesOver(d, before, after);
  }

  ghost predicate SweepAt(d: DelayLists, states: seq<seq<ChatInstance>>, k: nat)
    requires k + 1 < |states|
  {
    Sweeps(d, states[k], states[k + 1])
  }

  /** Sweeps one after the other with the delays unchanged. */
  ghost predicate IsSweepSequence(d: DelayLists, states: seq<seq<ChatInstance>>)
  {
    states != [] && forall k :: 0 <= k < |states| - 1 ==> SweepAt(d, states, k)
  }

  lemma HalvingScales(c: nat, c': nat, p: nat)
    requires 2 * c' <= c
    ensures c' * (2 * p) <= c * p
  {
    assert c' * (2 * p) == (2 * c') * p;
  }

  lemma {:induction false} SweepsHalveRepeatedly(d: DelayLists, states: seq<seq<ChatInstance>>, k: nat)
    requires IsSweepSequence(d, states) && WellFormed(d, states[0]) && UniqueBest(d, states[0]) && k < |states|
    ensures WellFormed(d, states[k]) && UniqueBest(d, states[k])
    ensures CountMisplaced(d, states[k]) * ByteSeqs.Pow2(k) <= CountMisplaced(d, states[0])
  {
    if k > 0 {
      SweepsHalveRepeatedly(d, states, k - 1);
      assert SweepAt(d, states, k - 1);
      hide Sweeps, WellFormed, UniqueBest, CountMisplaced, IsSweepSequence;
      SweepHalves(d, states[k - 1], states[k]);
      SweepConserves(d, states[k - 1], states[k]);
      HalvingScales(CountMisplaced(d, states[k - 1]), CountMisplaced(d, states[k]), ByteSeqs.Pow2(k - 1));
    }
  }

  lemma ProductGrows(c: nat, p: nat)
    ensures c >= 1 ==> c * p >= p
  {
    assert c * p == (c - 1) * p + p;
  }

  /** Logarithmically many sweeps place every room when optima are unique. */
  lemma UniqueOptimaConvergeFast(d: DelayLists, states: seq<seq<ChatInstance>>, k: nat)
    requires IsSweepSequence(d, states) && WellFormed(d, states[0]) && UniqueBest(d, states[0])
    requires k < |states| && CountMisplaced(d, states[0]) < ByteSeqs.Pow2(k)
    ensures CountMisplaced(d, states[k]) == 0
  {
    SweepsHalveRepeatedly(d, states, k);
    ProductGrows(CountMisplaced(d, states[k]), ByteSeqs.Pow2(k));
  }

  // Convergence when optima are tied: a skipped room moves towards the front, where it cannot be skipped again.

  /** No room from index `bound` on is misplaced. */
  ghost predicate PlacedFrom(d: DelayLists, rooms: seq<ChatInstance>, bound: nat)
  {
    forall k | bound <= k < |rooms| :: !Misplaced(d, rooms[k])
  }

  /** Misplaced rooms the sweep has passed are before `bound - 1`, the others before `bound`. */
  ghost predicate Frontier(d: DelayLists, rooms: seq<ChatInstance>, i: nat, bound: nat)
  {
    && (forall k | 0 <= k < i && k < |rooms| :: Misplaced(d, rooms[k]) ==> k + 1 < bound)
    && PlacedFrom(d, rooms, bound)
  }

  lemma RotationAdvances(d: DelayLists, rooms: seq<ChatInstance>, i: nat, moved: ChatInstance, bound: nat)
    requires i < |rooms| && Frontier(d, rooms, i, bound) && !Misplaced(d, moved)
    ensures Frontier(d, RemoveAt(rooms, i) + [moved], i + 1, bound)
  {
    hide Misplaced;
    var rooms' := RemoveAt(rooms, i) + [moved];
    forall k | 0 <= k < |rooms'| && Misplaced(d, rooms'[k])
      ensures k < bound && (k < i + 1 ==> k + 1 < bound)
    {
      if k < i {
        assert rooms'[k] == rooms[k];
      } else {
        assert rooms'[k] == rooms[k + 1];
      }
    }
  }

  lemma TurnAdvances(d: DelayLists, rooms: seq<ChatInstance>, i: nat, rooms': seq<ChatInstance>, bound: nat)
    requires WellFormed(d, rooms) && Turn(d, rooms, i, rooms') && Frontier(d, rooms, i, bound)
    ensures Frontier(d, rooms', i + 1, bound)
  {
    var moved, server := TurnShape(d, rooms, i, rooms');
    hide Turn, WellFormed;
    if moved {
      var room := MovedTo(rooms[i], server);
      assert !Misplaced(d, room) by { assert room.users == rooms[i].users; }
      RotationAdvances(d, rooms, i, room, bound);
    }
  }

  lemma {:induction false} TraceAdvances(d: DelayLists, trace: seq<seq<ChatInstance>>, n: nat, bound: nat)
    requires IsSweep(d, trace) && WellFormed(d, trace[0]) && PlacedFrom(d, trace[0], bound) && n < |trace|
    ensures Frontier(d, trace[n], n, bound)
  {
    hide Turn, WellFormed, Misplaced, Identities, Settled;
    if n > 0 {
      TraceAdvances(d, trace, n - 1, bound);
      TraceKeepsForm(d, trace, n - 1);
      assert TurnAt(d, trace, n - 1);
      hide Frontier, IsSweep;
      TurnAdvances(d, trace[n - 1], n - 1, trace[n], bound);
    }
  }

  /** Ties or not, a sweep brings the last misplaced room at least one place forward. */
  lemma SweepAdvances(d: DelayLists, before: seq<ChatInstance>, after: seq<ChatInstance>, bound: nat)
    requires WellFormed(d, before) && Sweeps(d, before, after) && PlacedFrom(d, before, bound)
    ensures PlacedFrom(d, after, if bound == 0 then 0 else bound - 1)
  {
    var trace :| IsSweep(d, trace) && trace[0] == before && trace[|trace| - 1] == after;
    TraceAdvances(d, trace, |trace| - 1, bound);
    TraceConserves(d, trace, |trace| - 1);
  }

  lemma {:induction false} SweepsAdvanceRepeatedly(d: DelayLists, states: seq<seq<ChatInstance>>, k: nat)
    requires IsSweepSequence(d, states) && WellFormed(d, states[0]) && k < |states|
    ensures WellFormed(d, states[k])
    ensures PlacedFrom(d, states[k], if k <= |states[0]| then |states[0]| - k else 0)
  {
    if k > 0 {
      SweepsAdvanceRepeatedly(d, states, k - 1);
      assert SweepAt(d, states, k - 1);
      hide Sweeps, WellFormed, PlacedFrom, IsSweepSequence;
      SweepConserves(d, states[k - 1], states[k]);
      SweepAdvances(d, states[k - 1], states[k], if k - 1 <= |states[0]| then |states[0]| - (k - 1) else 0);
    }
  }

  lemma {:induction false} CountZero(d: DelayLists, rooms: seq<ChatInstance>)
    ensures CountMisplaced(d, rooms) == 0 <==> PlacedFrom(d, rooms, 0)
  {
    if rooms != [] {
      CountZero(d, rooms[1..]);
      assert forall k | 1 <= k < |rooms| :: rooms[k] == rooms[1..][k - 1];
      assert forall k | 0 <= k < |rooms[1..]| :: rooms[1..][k] == rooms[k + 1];
    }
  }

  /** With ties, as many sweeps as there are rooms place every room, and it stays that way. */
  lemma TiedOptimaConverge(d: DelayLists, states: seq<seq<ChatInstance>>, k: nat)
    requires IsSweepSequence(d, states) && WellFormed(d, states[0])
    requires |states[0]| <= k < |states|
    ensures CountMisplaced(d, states[k]) == 0
  {
    SweepsAdvanceRepeatedly(d, states, k);
    CountZero(d, states[k]);
  }

  /** With unique optima and nothing misplaced, a sweep changes nothing at all. */
  lemma SettledRoomsStay(d: DelayLists, before: seq<ChatInstance>, after: seq<ChatInstance>)
    requires WellFormed(d, before) && UniqueBest(d, before) && CountMisplaced(d, before) == 0
    requires Sweeps(d, before, after)
    ensures after == before
  {
    var trace :| IsSweep(d, trace) && trace[0] == before && trace[|trace| - 1] == after;
    CountZero(d, before);
    TraceStays(d, trace, |trace| - 1);
  }

  lemma {:induction false} TraceStays(d: DelayLists, trace: seq<seq<ChatInstance>>, n: nat)
    requires IsSweep(d, trace) && WellFormed(d, trace[0]) && UniqueBest(d, trace[0]) && PlacedFrom(d, trace[0], 0)
    requires n < |trace|
    ensures trace[n] == trace[0]
  {
    if n > 0 {
      TraceStays(d, trace, n - 1);
      assert TurnAt(d, trace, n - 1);
      var room := trace[0][n - 1];
      var _, _ := TurnShape(d, trace[0], n - 1, trace[n]);
      assert UniqueBestFor(d, room.users) && !Misplaced(d, room);
    }
  }

  // Uniqueness is needed for halving.

  /**
   Two rooms, the first with tied optima, the second misplaced. If the draw
   moves the first, the second is skipped and the sweep places nothing.
   */
  lemma TiesCanStall(d: DelayLists, x: ChatInstance, y: ChatInstance, server: string)
    requires WellFormed(d, [x, y]) && Placeable(d, x.users) && Placeable(d, y.users)
    requires x.chatServer in Best(d, x.users) && server in Best(d, x.users) && server != x.chatServer
    requires Misplaced(d, y)
    ensures CountMisplaced(d, [x, y]) == 1
    ensures Sweeps(d, [x, y], [y, MovedTo(x, server)]) && CountMisplaced(d, [y, MovedTo(x, server)]) == 1
  {
    var x', rooms := MovedTo(x, server), [x, y];
    var rooms' := [y, x'];
    assert x'.users == x.users;
    assert rooms[1..] == [y] && rooms'[1..] == [x'];
    CountOfOne(d, y);
    CountOfOne(d, x');
    assert CountMisplaced(d, rooms) == 1 && CountMisplaced(d, rooms') == 1;
    RerouteRotates(d, rooms, 0, server);
    assert RemoveAt(rooms, 0) + [x'] == rooms';
    assert Turn(d, rooms, 0, rooms');
    assert Turn(d, rooms', 1, rooms');
    hide Turn, WellFormed, Misplaced, Best, CountMisplaced;
    var trace := [rooms, rooms', rooms'];
    assert TurnAt(d, trace, 0) && TurnAt(d, trace, 1);
    assert IsSweep(d, trace);
  }

  /** Four users, two servers: the sweep leaves as many rooms misplaced as it found. */
  lemma TieExample() returns (d: DelayLists, before: seq<ChatInstance>, after: seq<ChatInstance>)
    ensures WellFormed(d, before) && Sweeps(d, before, after)
    ensures CountMisplaced(d, before) == 1 && CountMisplaced(d, after) == 1
  {
    var even: Delays, skewed: Delays := map["s" := 1.0, "t" := 1.0], map["s" := 1.0, "t" := 2.0];
    d := map["a" := even, "b" := even, "c" := skewed, "e" := skewed];
    var x := ChatInstance("s", ["a", "b"], "x", true);
    var y := ChatInstance("t", ["c", "e"], "y", true);
    before, after := [x, y], [y, MovedTo(x, "t")];
    assert Common(even, even) == {"s", "t"} == Common(skewed, skewed);
    assert "s" in Optimal(even, even) && "t" in Optimal(even, even);
    assert Better(skewed, skewed, "s", "t");
    assert Misplaced(d, y);
    TiesCanStall(d, x, y, "t");
  }
}
