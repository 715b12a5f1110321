/** Exactly when a sweep halves the misplaced rooms. */
module Halving {
  import opened Rooms
  import opened Convergence

  /** Pairs of users, those that can be placed sharing no user with any other. */
  ghost predicate Pairs(d: DelayLists, ps: set<seq<string>>)
  {
    && (forall p | p in ps :: |p| == 2)
    && (forall p, q, u | p in ps && q in ps && Placeable(d, p) && u in p && u in q :: p == q)
  }

  /** A list of rooms that the sweep may meet when the pairs of users in them are among `ps`. */
  ghost predicate RoomsOver(d: DelayLists, ps: set<seq<string>>, rooms: seq<ChatInstance>)
  {
    WellFormed(d, rooms) && forall r | r in rooms :: r.users in ps
  }

  ghost predicate AlwaysHalves(d: DelayLists, ps: set<seq<string>>)
  {
    forall before, after | RoomsOver(d, ps, before) && Sweeps(d, before, after) ::
      2 * CountMisplaced(d, after) <= CountMisplaced(d, before)
  }

  ghost predicate AllUnique(d: DelayLists, ps: set<seq<string>>)
  {
    forall p | p in ps :: UniqueBestFor(d, p)
  }

  ghost predicate AtMostOnePlaceable(d: DelayLists, ps: set<seq<string>>)
  {
    forall p, q | p in ps && q in ps && |p| == 2 && |q| == 2 && Placeable(d, p) && Placeable(d, q) :: p == q
  }

  // A single placeable room is never skipped before it is placed.

  ghost predicate SolePlaceable(d: DelayLists, rooms: seq<ChatInstance>)
  {
    forall i: nat, j: nat | PlaceableAt(d, rooms, i) && PlaceableAt(d, rooms, j) :: i == j
  }

  ghost predicate PlacedBefore(d: DelayLists, rooms: seq<ChatInstance>, i: nat)
  {
    forall k | 0 <= k < i && k < |rooms| :: !Misplaced(d, rooms[k])
  }

  lemma SolesRotation(d: DelayLists, rooms: seq<ChatInstance>, i: nat, server: string)
    requires WellFormed(d, rooms) && SolePlaceable(d, rooms) && PlaceableAt(d, rooms, i)
    requires server in Best(d, rooms[i].users)
    ensures var rooms' := RemoveAt(rooms, i) + [MovedTo(rooms[i], server)];
      SolePlaceable(d, rooms') && PlacedBefore(d, rooms', |rooms|)
  {
    var rooms' := RemoveAt(rooms, i) + [MovedTo(rooms[i], server)];
    assert MovedTo(rooms[i], server).users == rooms[i].users;
    hide Best, Placeable, WellFormed;
    forall k: nat | k < |rooms| - 1 ensures !PlaceableAt(d, rooms', k) {
      var j := if k < i then k else k + 1;
      assert PlaceableAt(d, rooms', k) == PlaceableAt(d, rooms, j);
    }
    forall k | 0 <= k < |rooms'| ensures !Misplaced(d, rooms'[k]) {
      assert Misplaced(d, rooms'[k]) ==> PlaceableAt(d, rooms', k);
    }
  }

  lemma SoleTurn(d: DelayLists, rooms: seq<ChatInstance>, i: nat, rooms': seq<ChatInstance>)
    requires WellFormed(d, rooms) && Turn(d, rooms, i, rooms') && SolePlaceable(d, rooms) && PlacedBefore(d, rooms, i)
    ensures SolePlaceable(d, rooms') && PlacedBefore(d, rooms', i + 1)
  {
    var moved, server := TurnShape(d, rooms, i, rooms');
    hide Turn, WellFormed, SolePlaceable;
    if moved {
      SolesRotation(d, rooms, i, server);
    }
  }

  lemma {:induction false} SoleTrace(d: DelayLists, trace: seq<seq<ChatInstance>>, n: nat)
    requires IsSweep(d, trace) && WellFormed(d, trace[0]) && SolePlaceable(d, trace[0]) && n < |trace|
    ensures SolePlaceable(d, trace[n]) && PlacedBefore(d, trace[n], n)
  {
    hide WellFormed, Turn, SolePlaceable;
    if n > 0 {
      SoleTrace(d, trace, n - 1);
      TraceKeepsForm(d, trace, n - 1);
      assert TurnAt(d, trace, n - 1);
      SoleTurn(d, trace[n - 1], n - 1, trace[n]);
    }
  }

  /** One sweep places the only room that can be placed, ties or not. */
  lemma SoleRoomIsPlaced(d: DelayLists, before: seq<ChatInstance>, after: seq<ChatInstance>)
    requires WellFormed(d, before) && SolePlaceable(d, before) && Sweeps(d, before, after)
    ensures CountMisplaced(d, after) == 0
  {
    var trace :| IsSweep(d, trace) && trace[0] == before && trace[|trace| - 1] == after;
    SoleTrace(d, trace, |trace| - 1);
    TraceKeepsForm(d, trace, |trace| - 1);
    CountZero(d, after);
  }

  lemma OverIsSole(d: DelayLists, ps: set<seq<string>>, rooms: seq<ChatInstance>)
    requires Pairs(d, ps) && RoomsOver(d, ps, rooms) && AtMostOnePlaceable(d, ps)
    ensures SolePlaceable(d, rooms)
  {
    hide Placeable;
    forall i: nat, j: nat | PlaceableAt(d, rooms, i) && j < |rooms| && i != j
      ensures rooms[i].users != rooms[j].users
    {
      assert rooms[i] in rooms && rooms[i].users[0] in rooms[i].users;
      assert Apart(rooms[i], rooms[j]);
    }
    assert forall i: nat | PlaceableAt(d, rooms, i) :: rooms[i] in rooms;
  }

  // A tie next to another pair that can be placed is enough for a sweep that places nothing.

  lemma {:induction false} LengthBound(names: set<string>) returns (n: nat)
    ensures forall s | s in names :: |s| <= n
    decreases names
  {
    n := 0;
    if names != {} {
      var s :| s in names;
      var m := LengthBound(names - {s});
      n := if m < |s| then |s| else m;
    }
  }

  lemma FreshName(names: set<string>) returns (name: string)
    ensures name !in names
  {
    var n := LengthBound(names);
    name := seq(n + 1, _ => 'x');
  }

  lemma TieStalls(d: DelayLists, ps: set<seq<string>>, p: seq<string>, q: seq<string>)
    requires Pairs(d, ps) && p in ps && q in ps && p != q
    requires Placeable(d, p) && Placeable(d, q) && !UniqueBestFor(d, p)
    ensures !AlwaysHalves(d, ps)
  {
    var s, t :| s in Best(d, p) && t in Best(d, p) && s != t;
    var elsewhere := FreshName(Best(d, q));
    var x, y := ChatInstance(s, p, "x", true), ChatInstance(elsewhere, q, "y", true);
    hide Best, Placeable, CountMisplaced, Sweeps;
    assert Misplaced(d, y);
    assert Apart(x, y) && Apart(y, x);
    TiesCanStall(d, x, y, t);
    assert RoomsOver(d, ps, [x, y]);
  }

  /**
   Sweeps over rooms of given pairs of users always halve the misplaced rooms
   exactly when every pair has a unique best server or at most one pair can be placed at all.
   */
  lemma HalvesExactlyWhen(d: DelayLists, ps: set<seq<string>>)
    requires Pairs(d, ps)
    ensures AlwaysHalves(d, ps) <==> AllUnique(d, ps) || AtMostOnePlaceable(d, ps)
  {
    hide Sweeps, WellFormed, CountMisplaced, Placeable;
    if AllUnique(d, ps) || AtMostOnePlaceable(d, ps) {
      forall before, after | RoomsOver(d, ps, before) && Sweeps(d, before, after)
        ensures 2 * CountMisplaced(d, after) <= CountMisplaced(d, before)
      {
        if AllUnique(d, ps) {
          assert UniqueBest(d, before);
          SweepHalves(d, before, after);
        } else {
          OverIsSole(d, ps, before);
          SoleRoomIsPlaced(d, before, after);
        }
      }
    } else {
      var p :| p in ps && !UniqueBestFor(d, p);
      var a, b :| a in ps && b in ps && |a| == 2 && |b| == 2 && Placeable(d, a) && Placeable(d, b) && a != b;
      TieStalls(d, ps, p, if a == p then b else a);
    }
  }
}
