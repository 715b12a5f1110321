/** Exactly when sweeps keep every room, for users who may be in several. */
module Conservation {
  import opened Rooms
  import opened Convergence
  import opened Slices
  import Halving
  import Placement

  /** Lists of rooms, one for each of some of the pairs. */
  ghost predicate OnePerPair(ps: set<seq<string>>, rooms: seq<ChatInstance>)
  {
    && (forall r | r in rooms :: r.users in ps)
    && (forall i, j | 0 <= i < |rooms| && 0 <= j < |rooms| && i != j :: rooms[i].users != rooms[j].users)
  }

  ghost predicate AlwaysConserves(d: DelayLists, ps: set<seq<string>>)
  {
    forall before: Slice, after | before.Valid() && OnePerPair(ps, before.Live()) && SlotSweeps(d, before, after) ::
      after.Valid() && Identities(after.Live()) == Identities(before.Live())
  }

  lemma PairsAreWellFormed(d: DelayLists, ps: set<seq<string>>, rooms: seq<ChatInstance>)
    requires Halving.Pairs(d, ps) && OnePerPair(ps, rooms)
    ensures WellFormed(d, rooms)
  {
    hide Placeable;
    forall i, j | 0 <= i < |rooms| && 0 <= j < |rooms| && i != j && PlaceableAt(d, rooms, i)
      ensures Apart(rooms[i], rooms[j])
    {
      assert rooms[i] in rooms && rooms[j] in rooms;
    }
  }

  /** An unmoved room is possible: it cannot be placed, or it is on a best server, which may be drawn. */
  lemma CanStay(d: DelayLists, users: seq<string>) returns (server: string)
    requires |users| == 2
    ensures Placeable(d, users) ==> server in Best(d, users)
  {
    server := "";
    if Placeable(d, users) {
      Placement.OptimalExists(d[users[0]], d[users[1]]);
      server :| server in Best(d, users);
    }
  }

  /** Two rooms, the second to be moved, and a user of its in the first: a room is lost. */
  lemma OverlapLoses(d: DelayLists, x: ChatInstance, y: ChatInstance, server: string)
    returns (before: Slice, after: Slice)
    requires |x.users| == 2 && |y.users| == 2 && !Apart(x, y)
    requires Placeable(d, x.users) && server in Best(d, x.users) && server != x.chatServer
    requires Placeable(d, y.users) ==> y.chatServer in Best(d, y.users)
    ensures before.Valid() && before.Live() == [y, x] && SlotSweeps(d, before, after)
    ensures after.Valid() && Identities(after.Live()) != Identities(before.Live())
  {
    var rooms := [y, x];
    before := Slice(rooms, 2);
    after := before.Reroute(1, server);
    assert before.Live() == rooms;
    before.LiveRerouted(1, server);
    NotSeparate(x, y);
    TwoTurns(d, before, after, server);
    hide SlotTurn, Best, Placeable, Separate, Identities, Rerouted, SlotSweeps;
    RerouteConservesExactlyWhen(rooms, 1, server);
  }

  lemma NotSeparate(x: ChatInstance, y: ChatInstance)
    requires |x.users| == 2 && !Apart(x, y)
    ensures !Separate([y, x], 1)
  {
    var rooms := [y, x];
    var u :| u in x.users && u in y.users;
    assert rooms[1].users[0] == u || rooms[1].users[1] == u;
    assert u in rooms[0].users;
  }

  lemma TwoTurns(d: DelayLists, s: Slice, s': Slice, server: string)
    requires s.live == |s.slots| == 2 && |s.slots[0].users| == 2 && |s.slots[1].users| == 2
    requires Placeable(d, s.slots[0].users) ==> s.slots[0].chatServer in Best(d, s.slots[0].users)
    requires Placeable(d, s.slots[1].users) && server in Best(d, s.slots[1].users) && server != s.slots[1].chatServer
    requires s' == s.Reroute(1, server)
    ensures SlotSweeps(d, s, s')
  {
    hide Best, Placeable;
    assert SlotTurn(d, s, 0, s) && SlotTurn(d, s, 1, s');
    hide SlotTurn;
    var trace := [s, s, s'];
    assert SlotTurnAt(d, trace, 0) && SlotTurnAt(d, trace, 1);
    assert IsSlotTrace(d, trace);
  }

  /** A pair that can be placed and shares a user with another pair: behind that one it loses a room. */
  lemma SharingLoses(d: DelayLists, ps: set<seq<string>>, p: seq<string>, q: seq<string>, user: string)
    requires p in ps && q in ps && p != q && |p| == 2 && |q| == 2
    requires Placeable(d, p) && user in p && user in q
    ensures !AlwaysConserves(d, ps)
  {
    hide Best, Placeable, SlotSweeps, Identities;
    var server := CanStay(d, p);
    var elsewhere := Halving.FreshName(Best(d, p));
    var stays := CanStay(d, q);
    var x, y := ChatInstance(elsewhere, p, "x", true), ChatInstance(stays, q, "y", true);
    assert !Apart(x, y);
    var before, after := OverlapLoses(d, x, y, server);
    assert OnePerPair(ps, [y, x]);
  }

  /**
   Sweeps over rooms of given pairs, one room a pair, always keep every room
   exactly when no pair that can be placed shares a user with another pair.
   */
  lemma ConservesExactlyWhen(d: DelayLists, ps: set<seq<string>>)
    requires forall p | p in ps :: |p| == 2
    ensures AlwaysConserves(d, ps) <==> Halving.Pairs(d, ps)
  {
    hide SlotSweeps, WellFormed, Identities, Placeable, OnePerPair;
    if Halving.Pairs(d, ps) {
      forall before: Slice, after | before.Valid() && OnePerPair(ps, before.Live()) && SlotSweeps(d, before, after)
        ensures after.Valid() && Identities(after.Live()) == Identities(before.Live())
      {
        PairsAreWellFormed(d, ps, before.Live());
        SlotSweepIsSweep(d, before, after);
        SweepConserves(d, before.Live(), after.Live());
      }
    } else {
      var p, q, user :| p in ps && q in ps && Placeable(d, p) && user in p && user in q && p != q;
      SharingLoses(d, ps, p, q, user);
    }
  }
}
