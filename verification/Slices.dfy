/** The rooms as the sweep meets them: a slice over an array whose slots outlive the rooms in them. */
module Slices {
  import opened Rooms
  import opened Convergence

  /** All slots of the array, of which the first `live` hold the present rooms and the others what was left behind. */
  datatype Slice = Slice(slots: seq<ChatInstance>, live: nat) {
    predicate Valid()
    {
      live <= |slots|
    }

    function Live(): seq<ChatInstance>
      requires Valid()
    {
      slots[..live]
    }

    /** `append(s[:i], s[i+1:]...)`: the tail moves down and the last live slot keeps a stale copy. */
    function Without(i: nat): (s: Slice)
      requires Valid() && i < live
      ensures s.Valid() && |s.slots| == |slots| && s.live == live - 1
    {
      Slice(slots[..i] + slots[i + 1..live] + slots[live - 1..], live - 1)
    }

    function WithoutUser(user: string): (s: Slice)
      requires Valid()
      ensures s.Valid() && |s.slots| == |slots| && s.live <= live
    {
      var i := FirstOf(Live(), user);
      if i == live then this else Without(i)
    }

    /** `append` while there is capacity. */
    function With(room: ChatInstance): (s: Slice)
      requires live < |slots|
      ensures s.Valid() && |s.slots| == |slots| && s.live == live + 1
    {
      Slice(slots[live := room], live + 1)
    }

    /** A room that is live makes space for itself. */
    lemma MakesSpace(user: string, i: nat)
      requires Valid() && i < |slots| && user in slots[i].users
      ensures WithoutUser(user).live < |slots|
    {
      if i < live {
        assert Live()[i] == slots[i];
      }
    }

    /** The reroute of the room in slot `i`, whether that slot is live or stale. */
    function Reroute(i: nat, server: string): (s: Slice)
      requires Valid() && i < |slots| && |slots[i].users| == 2
      ensures s.Valid() && |s.slots| == |slots|
    {
      var room := slots[i];
      assert room.users[0] in room.users;
      MakesSpace(room.users[0], i);
      WithoutUser(room.users[0]).WithoutUser(room.users[1]).With(MovedTo(room, server))
    }

    lemma LiveWithout(i: nat)
      requires Valid() && i < live
      ensures Without(i).Live() == RemoveAt(Live(), i)
    {
    }

    lemma LiveWithoutUser(user: string)
      requires Valid()
      ensures WithoutUser(user).Live() == RemoveUser(Live(), user)
    {
    }

    lemma LiveWith(room: ChatInstance)
      requires live < |slots|
      ensures With(room).Live() == Live() + [room]
    {
    }

    /** On the live rooms a reroute is remove, remove and insert. */
    lemma LiveRerouted(i: nat, server: string)
      requires Valid() && i < |slots| && |slots[i].users| == 2
      ensures Reroute(i, server).Live() == Rerouted(Live(), slots[i], server)
    {
      var room := slots[i];
      assert room.users[0] in room.users;
      MakesSpace(room.users[0], i);
      LiveWithoutUser(room.users[0]);
      var s1 := WithoutUser(room.users[0]);
      s1.LiveWithoutUser(room.users[1]);
      hide Live, WithoutUser, With, RemoveUser, MovedTo;
      s1.WithoutUser(room.users[1]).LiveWith(MovedTo(room, server));
    }
  }
  /** One turn of the sweep, whatever is in slot `i` by then. Any best server may be drawn. */
  ghost predicate SlotTurn(d: DelayLists, s: Slice, i: nat, s': Slice)
  {
    s.Valid() && i < |s.slots| && |s.slots[i].users| == 2 &&
    if Placeable(d, s.slots[i].users) then
      exists server :: server in Best(d, s.slots[i].users)
        && s' == if server == s.slots[i].chatServer then s else s.Reroute(i, server)
    else s' == s
  }

  ghost predicate SlotTurnAt(d: DelayLists, trace: seq<Slice>, i: nat)
    requires i + 1 < |trace|
  {
    SlotTurn(d, trace[i], i, trace[i + 1])
  }

  ghost predicate IsSlotTrace(d: DelayLists, trace: seq<Slice>)
  {
    trace != [] && forall i :: 0 <= i < |trace| - 1 ==> SlotTurnAt(d, trace, i)
  }

  /** A whole sweep: one turn for each slot that was live at its start. */
  ghost predicate SlotSweeps(d: DelayLists, before: Slice, after: Slice)
  {
    exists trace :: IsSlotTrace(d, trace)
      && |trace| == before.live + 1 && trace[0] == before && trace[before.live] == after
  }

  lemma SlotTraceGrows(d: DelayLists, trace: seq<Slice>, s': Slice)
    requires IsSlotTrace(d, trace) && SlotTurn(d, trace[|trace| - 1], |trace| - 1, s')
    ensures IsSlotTrace(d, trace + [s'])
  {
    hide SlotTurn;
    forall k | 0 <= k < |trace| ensures SlotTurnAt(d, trace + [s'], k) {
      if k < |trace| - 1 {
        assert SlotTurnAt(d, trace, k);
      }
    }
  }

  // In well-formed lists slots and rooms never come apart.

  lemma SlotTurnIsTurn(d: DelayLists, s: Slice, i: nat, s': Slice)
    requires SlotTurn(d, s, i, s') && i < s.live && WellFormed(d, s.Live())
    ensures s'.Valid() && s'.live == s.live && Turn(d, s.Live(), i, s'.Live())
  {
    assert s.Live()[i] == s.slots[i];
    if Placeable(d, s.slots[i].users) {
      var server :| server in Best(d, s.slots[i].users)
        && s' == if server == s.slots[i].chatServer then s else s.Reroute(i, server);
      s.LiveRerouted(i, server);
      RerouteRotates(d, s.Live(), i, server);
    }
  }

  lemma {:induction false} TraceStaysLive(d: DelayLists, trace: seq<Slice>, n: nat)
      returns (rooms: seq<seq<ChatInstance>>)
    requires IsSlotTrace(d, trace) && n < |trace| && trace[0].Valid() && n <= trace[0].live
    requires WellFormed(d, trace[0].Live())
    ensures trace[n].Valid() && trace[n].live == trace[0].live && WellFormed(d, trace[n].Live())
    ensures |rooms| == n + 1 && rooms[0] == trace[0].Live() && rooms[n] == trace[n].Live()
    ensures forall k :: 0 <= k < n ==> TurnAt(d, rooms, k)
  {
    hide SlotTurn, Turn, WellFormed;
    if n == 0 {
      rooms := [trace[0].Live()];
    } else {
      var earlier := TraceStaysLive(d, trace, n - 1);
      assert SlotTurnAt(d, trace, n - 1);
      SlotTurnIsTurn(d, trace[n - 1], n - 1, trace[n]);
      rooms := earlier + [trace[n].Live()];
      forall k | 0 <= k < n ensures TurnAt(d, rooms, k) {
        if k < n - 1 {
          assert TurnAt(d, earlier, k);
        }
      }
      var _, _ := TurnShape(d, earlier[n - 1], n - 1, trace[n].Live());
    }
  }

  /** The sweep over the array is then a sweep over the list of rooms. */
  lemma SlotSweepIsSweep(d: DelayLists, before: Slice, after: Slice)
    requires before.Valid() && WellFormed(d, before.Live()) && SlotSweeps(d, before, after)
    ensures after.Valid() && after.live == before.live && Sweeps(d, before.Live(), after.Live())
  {
    var trace :| IsSlotTrace(d, trace)
      && |trace| == before.live + 1 && trace[0] == before && trace[before.live] == after;
    var rooms := TraceStaysLive(d, trace, before.live);
    assert IsSweep(d, rooms);
  }

  // Otherwise rooms may be lost or be there twice, but none is invented.

  /** Every slot the sweep can still meet holds a room that was there at its start, on its server or on a best one. */
  ghost predicate Originate(d: DelayLists, rooms: seq<ChatInstance>, s: Slice)
  {
    s.Valid() && s.live <= |rooms| <= |s.slots| && Settled(d, rooms, s.slots[..|rooms|])
  }

  lemma WithoutOriginates(d: DelayLists, rooms: seq<ChatInstance>, s: Slice, user: string)
    requires Originate(d, rooms, s)
    ensures Originate(d, rooms, s.WithoutUser(user))
  {
    hide HasOrigin;
    var s' := s.WithoutUser(user);
    var i := FirstOf(s.Live(), user);
    forall k | 0 <= k < |rooms| ensures HasOrigin(d, rooms, s'.slots[..|rooms|][k]) {
      var j := if i <= k < s.live - 1 then k + 1 else k;
      assert i < s.live ==> s'.slots[k] == s.slots[j];
      assert HasOrigin(d, rooms, s.slots[..|rooms|][j]) && HasOrigin(d, rooms, s.slots[..|rooms|][k]);
    }
  }

  lemma MovedOriginates(d: DelayLists, rooms: seq<ChatInstance>, r: ChatInstance, server: string)
    requires HasOrigin(d, rooms, r) && |r.users| == 2 && Placeable(d, r.users) && server in Best(d, r.users)
    ensures HasOrigin(d, rooms, MovedTo(r, server))
  {
    var j :| 0 <= j < |rooms| && Follows(d, rooms[j], r);
    assert MovedTo(r, server).users == r.users == rooms[j].users;
    hide Best, Placeable;
    assert Follows(d, rooms[j], MovedTo(r, server));
  }

  lemma WithOriginates(d: DelayLists, rooms: seq<ChatInstance>, s: Slice, room: ChatInstance)
    requires Originate(d, rooms, s) && s.live < |rooms| && HasOrigin(d, rooms, room)
    ensures Originate(d, rooms, s.With(room))
  {
    hide HasOrigin;
    forall k | 0 <= k < |rooms| ensures HasOrigin(d, rooms, s.With(room).slots[..|rooms|][k]) {
      assert HasOrigin(d, rooms, s.slots[..|rooms|][k]);
    }
  }

  lemma RerouteOriginates(d: DelayLists, rooms: seq<ChatInstance>, s: Slice, i: nat, server: string)
    requires Originate(d, rooms, s) && i < |rooms| && |s.slots[i].users| == 2
    requires Placeable(d, s.slots[i].users) && server in Best(d, s.slots[i].users)
    ensures Originate(d, rooms, s.Reroute(i, server))
  {
    var r := s.slots[i];
    assert HasOrigin(d, rooms, s.slots[..|rooms|][i]);
    MovedOriginates(d, rooms, r, server);
    hide Best, Placeable, HasOrigin;
    WithoutOriginates(d, rooms, s, r.users[0]);
    var s1 := s.WithoutUser(r.users[0]);
    WithoutOriginates(d, rooms, s1, r.users[1]);
    assert r.users[0] in r.users;
    Slice(s.slots[..|rooms|], s.live).MakesSpace(r.users[0], i);
    WithOriginates(d, rooms, s1.WithoutUser(r.users[1]), MovedTo(r, server));
  }

  lemma {:induction false} TraceOriginates(d: DelayLists, trace: seq<Slice>, n: nat)
    requires IsSlotTrace(d, trace) && n < |trace| && trace[0].Valid() && n <= trace[0].live
    ensures Originate(d, trace[0].Live(), trace[n])
  {
    hide SlotTurn;
    if n == 0 {
      Unmoved(d, trace[0].Live());
    } else {
      hide Originate;
      TraceOriginates(d, trace, n - 1);
      assert SlotTurnAt(d, trace, n - 1);
      TurnOriginates(d, trace[0].Live(), trace[n - 1], n - 1, trace[n]);
    }
  }

  lemma TurnOriginates(d: DelayLists, rooms: seq<ChatInstance>, s: Slice, i: nat, s': Slice)
    requires SlotTurn(d, s, i, s') && i < |rooms| && Originate(d, rooms, s)
    ensures Originate(d, rooms, s')
  {
    if Placeable(d, s.slots[i].users) {
      var server :| server in Best(d, s.slots[i].users)
        && s' == if server == s.slots[i].chatServer then s else s.Reroute(i, server);
      hide Best, Placeable, Originate;
      if s' != s {
        RerouteOriginates(d, rooms, s, i, server);
      }
    }
  }

  /**
   Whoever is in how many rooms, a sweep ends with no more rooms than it began
   with, and each of them was there before, on its old server or on a best one
   now. One that was there once may be there twice.
   */
  lemma SweepInventsNothing(d: DelayLists, before: Slice, after: Slice)
    requires before.Valid() && SlotSweeps(d, before, after)
    ensures after.Valid() && after.live <= before.live && Settled(d, before.Live(), after.Live())
  {
    var trace :| IsSlotTrace(d, trace)
      && |trace| == before.live + 1 && trace[0] == before && trace[before.live] == after;
    TraceOriginates(d, trace, before.live);
    hide HasOrigin, IsSlotTrace;
    forall k | 0 <= k < after.live ensures HasOrigin(d, before.Live(), after.Live()[k]) {
      assert after.slots[..before.live][k] == after.Live()[k];
    }
  }
}
