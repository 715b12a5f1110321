/** The matchmaking server: where a new room goes, and the periodic sweep that reroutes rooms. */
module Matchmaking {
  import opened Wrappers
  import opened Placement
  import opened Rooms
  import opened Convergence
  import opened Slices
  import Store

  class MatchmakingServer {
    const clientStore: Store.InMemoryStore

    constructor (store: Store.InMemoryStore)
      ensures clientStore == store
    {
      clientStore := store;
    }

    /** The best server for two users, if both have delay lists that share one. */
    method BestServerFor(client1: string, client2: string, draw: nat) returns (r: Option<string>)
      ensures r.Some? <==> Placeable(clientStore.delayLists, [client1, client2])
      ensures r.Some? ==> r.value in Best(clientStore.delayLists, [client1, client2])
    {
      var delays1 := clientStore.GetDelayList(client1);
      var delays2 := clientStore.GetDelayList(client2);
      if delays1.None? || delays2.None? {
        return None;
      }
      var server, servers := ComputeOptimalServer(delays1.value, delays2.value, draw);
      r := if server.Err? then None else Some(server.value);
    }

    /** The end of `handleConnection`: the room is created on a best server, whatever the other user answered. */
    method CreateRoom(username: string, requested: string, roomId: string, draw: nat) returns (r: Option<string>)
      requires clientStore.Valid()
      modifies clientStore`backing, clientStore`length, clientStore.backing
      ensures clientStore.Valid()
      ensures r.Some? <==> Placeable(clientStore.delayLists, [username, requested])
      ensures r.None? ==> clientStore.Contents() == old(clientStore.Contents())
      ensures r.Some? ==>
                var room := ChatInstance(r.value, [username, requested], roomId, true);
                clientStore.Contents() == old(clientStore.Contents()) + [room]
                && !Misplaced(clientStore.delayLists, room)
    {
      r := BestServerFor(username, requested, draw);
      if r.Some? {
        clientStore.InsertChatInstance(roomId, r.value, [username, requested]);
      }
    }

    /** The body of the sweep's loop, for what is in slot `i` by then, live or stale. */
    method Reroute(ghost i: nat, instance: ChatInstance, draw: nat)
      requires clientStore.Valid()
      requires i < clientStore.backing.Length && instance == clientStore.backing[i] && |instance.users| == 2
      modifies clientStore`backing, clientStore`length, clientStore.backing
      ensures clientStore.Valid() && clientStore.backing == old(clientStore.backing)
      ensures SlotTurn(clientStore.delayLists, old(clientStore.Slots()), i, clientStore.Slots())
    {
      ghost var s := clientStore.Slots();
      var client1, client2 := instance.users[0], instance.users[1];
      assert instance.users == [client1, client2];
      var server := BestServerFor(client1, client2, draw);
      if server.Some? && server.value != instance.chatServer {
        s.MakesSpace(client1, i);
        hide Best, Placeable;
        var removed1 := clientStore.RemoveChatInstancesForUser(client1);
        var removed2 := clientStore.RemoveChatInstancesForUser(client2);
        clientStore.InsertChatInstance(instance.roomId, server.value, [client1, client2]);
        assert clientStore.Slots() == s.Reroute(i, server.value);
      }
    }

    /**
     One sweep of `backgroundAnalysis`. The slice is captured once and its
     elements are read as they are when their turn comes, while the removals and
     the insertion of every reroute write to the same array.
     */
    method Sweep(draws: nat -> nat)
      requires clientStore.Valid() && InPairs(clientStore.Contents())
      modifies clientStore`backing, clientStore`length, clientStore.backing
      ensures clientStore.Valid() && clientStore.backing == old(clientStore.backing)
      ensures SlotSweeps(clientStore.delayLists, old(clientStore.Slots()), clientStore.Slots())
      ensures Settled(clientStore.delayLists, old(clientStore.Contents()), clientStore.Contents())
      ensures InPairs(clientStore.Contents())
      ensures WellFormed(clientStore.delayLists, old(clientStore.Contents())) ==>
                Sweeps(clientStore.delayLists, old(clientStore.Contents()), clientStore.Contents())
    {
      hide SlotTurn, Sweeps, WellFormed;
      var allChatInstances, n := clientStore.GetAllChatInstances();
      ghost var d, rooms, trace := clientStore.delayLists, clientStore.Contents(), [clientStore.Slots()];
      for i := 0 to n
        invariant clientStore.Valid() && clientStore.backing == allChatInstances
        invariant |trace| == i + 1 && trace[0] == old(clientStore.Slots()) && trace[i] == clientStore.Slots()
        invariant IsSlotTrace(d, trace)
      {
        PairInSlot(d, trace, i);
        Reroute(i, allChatInstances[i], draws(i));
        SlotTraceGrows(d, trace, clientStore.Slots());
        trace := trace + [clientStore.Slots()];
      }
      SweepInventsNothing(d, trace[0], trace[n]);
      SettledKeepsPairs(d, rooms, clientStore.Contents());
      if WellFormed(d, rooms) {
        SlotSweepIsSweep(d, trace[0], trace[n]);
      }
    }
  }

  lemma PairInSlot(d: DelayLists, trace: seq<Slice>, i: nat)
    requires IsSlotTrace(d, trace) && |trace| == i + 1 && trace[0].Valid() && i < trace[0].live
    requires InPairs(trace[0].Live())
    ensures i < |trace[i].slots| && |trace[i].slots[i].users| == 2
  {
    hide SlotTurn, HasOrigin;
    TraceOriginates(d, trace, i);
    var rooms := trace[0].Live();
    SettledKeepsPairs(d, rooms, trace[i].slots[..|rooms|]);
    assert trace[i].slots[..|rooms|][i] in trace[i].slots[..|rooms|];
  }

  lemma SettledKeepsPairs(d: DelayLists, before: seq<ChatInstance>, after: seq<ChatInstance>)
    requires Settled(d, before, after) && InPairs(before)
    ensures InPairs(after)
  {
    hide Best, Placeable;
    forall r | r in after ensures |r.users| == 2 {
      var k :| 0 <= k < |after| && after[k] == r;
      assert HasOrigin(d, before, after[k]);
      var j :| 0 <= j < |before| && Follows(d, before[j], after[k]);
      assert before[j] in before;
    }
  }
}
