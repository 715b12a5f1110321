/** Chat rooms, the removals the store offers on them, and the rerouting sweep as a relation on lists of rooms. */
module Rooms {
  import opened Placement

  datatype ChatInstance = ChatInstance(chatServer: string, users: seq<string>, roomId: string, active: bool)

  type DelayLists = map<string, Delays>

  /** The index of the first room the user is in, or the number of rooms. */
  function FirstOf(rooms: seq<ChatInstance>, user: string): (i: nat)
    ensures i <= |rooms|
    ensures i < |rooms| ==> user in rooms[i].users
    ensures forall k :: 0 <= k < i ==> user !in rooms[k].users
  {
    if rooms == [] || user in rooms[0].users then 0 else 1 + FirstOf(rooms[1..], user)
  }

  function RemoveAt(rooms: seq<ChatInstance>, i: nat): seq<ChatInstance>
    requires i < |rooms|
  {
    rooms[..i] + rooms[i + 1..]
  }

  /** `RemoveChatInstancesForUser`: despite its name it removes one room at most. */
  function RemoveUser(rooms: seq<ChatInstance>, user: string): seq<ChatInstance>
  {
    var i := FirstOf(rooms, user);
    if i == |rooms| then rooms else RemoveAt(rooms, i)
  }

  predicate Apart(r: ChatInstance, s: ChatInstance)
  {
    forall u | u in r.users :: u !in s.users
  }

  /** What room creation guarantees of every room. */
  predicate InPairs(rooms: seq<ChatInstance>)
  {
    forall r | r in rooms :: |r.users| == 2
  }

  predicate Placeable(d: DelayLists, users: seq<string>)
    requires |users| == 2
  {
    users[0] in d && users[1] in d && Common(d[users[0]], d[users[1]]) != {}
  }

  predicate PlaceableAt(d: DelayLists, rooms: seq<ChatInstance>, i: nat)
  {
    i < |rooms| && |rooms[i].users| == 2 && Placeable(d, rooms[i].users)
  }

  /**
   The users of a room that can be placed are in no other room. Room creation
   does not guarantee that. Rooms that cannot be placed may share users with each other.
   */
  predicate WellFormed(d: DelayLists, rooms: seq<ChatInstance>)
  {
    && InPairs(rooms)
    && forall i, j | 0 <= i < |rooms| && 0 <= j < |rooms| && i != j && PlaceableAt(d, rooms, i) ::
         Apart(rooms[i], rooms[j])
  }

  ghost function Best(d: DelayLists, users: seq<string>): set<string>
    requires |users| == 2 && Placeable(d, users)
  {
    Optimal(d[users[0]], d[users[1]])
  }

  /** Both delay lists exist and share a server, and the room is on none of the best ones. */
  ghost predicate Misplaced(d: DelayLists, r: ChatInstance)
  {
    |r.users| == 2 && Placeable(d, r.users) && r.chatServer !in Best(d, r.users)
  }

  function MovedTo(r: ChatInstance, server: string): ChatInstance
    requires |r.users| == 2
  {
    ChatInstance(server, [r.users[0], r.users[1]], r.roomId, true)
  }

  /** The three store calls of a reroute: remove for one user, remove for the other, insert. */
  function Rerouted(rooms: seq<ChatInstance>, r: ChatInstance, server: string): seq<ChatInstance>
    requires |r.users| == 2
  {
    RemoveUser(RemoveUser(rooms, r.users[0]), r.users[1]) + [MovedTo(r, server)]
  }

  /** The first user is in no earlier room, and the second in no other. */
  predicate Separate(rooms: seq<ChatInstance>, i: nat)
    requires i < |rooms| && |rooms[i].users| == 2
  {
    && (forall k | 0 <= k < i :: rooms[i].users[0] !in rooms[k].users)
    && (forall k | 0 <= k < |rooms| && k != i :: rooms[i].users[1] !in rooms[k].users)
  }

  /** A reroute of a separate room takes it out of its place and puts it at the end. */
  lemma SeparateRotates(rooms: seq<ChatInstance>, i: nat, server: string)
    requires i < |rooms| && |rooms[i].users| == 2 && Separate(rooms, i)
    ensures Rerouted(rooms, rooms[i], server) == RemoveAt(rooms, i) + [MovedTo(rooms[i], server)]
  {
    var r, others := rooms[i], RemoveAt(rooms, i);
    assert r.users[0] in r.users && FirstOf(rooms, r.users[0]) == i;
    forall k | 0 <= k < |others| ensures r.users[1] !in others[k].users {
      assert others[k] == rooms[if k < i then k else k + 1];
    }
    assert FirstOf(others, r.users[1]) == |others|;
  }

  /** In well-formed lists that is what every reroute does. */
  lemma RerouteRotates(d: DelayLists, rooms: seq<ChatInstance>, i: nat, server: string)
    requires WellFormed(d, rooms) && PlaceableAt(d, rooms, i)
    ensures Separate(rooms, i)
    ensures Rerouted(rooms, rooms[i], server) == RemoveAt(rooms, i) + [MovedTo(rooms[i], server)]
  {
    var r := rooms[i];
    assert r.users[0] in r.users && r.users[1] in r.users;
    forall k | 0 <= k < |rooms| && k != i ensures r.users[0] !in rooms[k].users && r.users[1] !in rooms[k].users {
      assert Apart(r, rooms[k]);
    }
    SeparateRotates(rooms, i, server);
  }

  lemma RotationKeepsForm(d: DelayLists, rooms: seq<ChatInstance>, i: nat, server: string)
    requires WellFormed(d, rooms) && i < |rooms|
    ensures WellFormed(d, RemoveAt(rooms, i) + [MovedTo(rooms[i], server)])
  {
    hide Placeable;
    assert rooms[i] in rooms;
    var rooms' := RemoveAt(rooms, i) + [MovedTo(rooms[i], server)];
    var last := |rooms'| - 1;
    forall k | 0 <= k < |rooms'| ensures |rooms'[k].users| == 2 {
    }
    forall a, b | 0 <= a < |rooms'| && 0 <= b < |rooms'| && a != b && PlaceableAt(d, rooms', a)
      ensures Apart(rooms'[a], rooms'[b])
    {
      var a' := if a == last then i else if a < i then a else a + 1;
      var b' := if b == last then i else if b < i then b else b + 1;
      assert rooms[a'].users == rooms'[a].users && rooms[b'].users == rooms'[b].users;
      assert PlaceableAt(d, rooms, a') && Apart(rooms[a'], rooms[b']);
    }
  }

  /**
   One turn of the sweep at index `i`: the room there is left alone if it cannot
   be placed or is on the drawn server, and rerouted otherwise. Any best server may be drawn.
   */
  ghost predicate Turn(d: DelayLists, rooms: seq<ChatInstance>, i: nat, rooms': seq<ChatInstance>)
  {
    i < |rooms| && |rooms[i].users| == 2 &&
    if Placeable(d, rooms[i].users) then
      exists server :: server in Best(d, rooms[i].users)
        && rooms' == if server == rooms[i].chatServer then rooms else Rerouted(rooms, rooms[i], server)
    else rooms' == rooms
  }

  ghost predicate TurnAt(d: DelayLists, trace: seq<seq<ChatInstance>>, i: nat)
    requires i + 1 < |trace|
  {
    Turn(d, trace[i], i, trace[i + 1])
  }

  /** A whole sweep: one turn for every index of the list it started with. */
  ghost predicate IsSweep(d: DelayLists, trace: seq<seq<ChatInstance>>)
  {
    trace != [] && |trace| == |trace[0]| + 1 && forall i :: 0 <= i < |trace| - 1 ==> TurnAt(d, trace, i)
  }

  ghost predicate Sweeps(d: DelayLists, before: seq<ChatInstance>, after: seq<ChatInstance>)
  {
    exists trace :: IsSweep(d, trace) && trace[0] == before && trace[|trace| - 1] == after
  }

  /** A turn either changes nothing or rotates the room at `i` to the end, onto a best server. */
  lemma TurnShape(d: DelayLists, rooms: seq<ChatInstance>, i: nat, rooms': seq<ChatInstance>)
    returns (moved: bool, server: string)
    requires WellFormed(d, rooms) && Turn(d, rooms, i, rooms')
    ensures WellFormed(d, rooms') && |rooms'| == |rooms| && |rooms[i].users| == 2
    ensures !moved ==> rooms' == rooms && !Misplaced(d, rooms[i])
    ensures moved ==> Placeable(d, rooms[i].users) && server in Best(d, rooms[i].users)
                      && server != rooms[i].chatServer && rooms' == RemoveAt(rooms, i) + [MovedTo(rooms[i], server)]
  {
    moved, server := false, rooms[i].chatServer;
    if Placeable(d, rooms[i].users) {
      server :| server in Best(d, rooms[i].users)
        && rooms' == if server == rooms[i].chatServer then rooms else Rerouted(rooms, rooms[i], server);
      moved := server != rooms[i].chatServer;
      RerouteRotates(d, rooms, i, server);
      RotationKeepsForm(d, rooms, i, server);
    }
  }
}
