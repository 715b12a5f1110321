/** The central server's in-memory store, with the chat rooms as a slice over a shared backing array. */
module Store {
  import opened Wrappers
  import opened Placement
  import opened Rooms
  import Registry
  import opened Slices

  predicate IsFirstWithId(rooms: seq<ChatInstance>, roomId: string, i: nat)
  {
    i < |rooms| && rooms[i].roomId == roomId && forall k | 0 <= k < i :: rooms[k].roomId != roomId
  }

  /** The slots once those from `i` on have moved down up to `j`. */
  function Shifted(slots: seq<ChatInstance>, i: nat, j: nat): (r: seq<ChatInstance>)
    requires i <= j < |slots|
    ensures |r| == |slots|
  {
    slots[..i] + slots[i + 1..j + 1] + slots[j..]
  }

  lemma ShiftOne(slots: seq<ChatInstance>, i: nat, j: nat)
    requires i <= j && j + 1 < |slots|
    ensures Shifted(slots, i, j)[j := Shifted(slots, i, j)[j + 1]] == Shifted(slots, i, j + 1)
  {
  }

  lemma ShiftedEnds(slots: seq<ChatInstance>, i: nat, n: nat)
    requires i < n <= |slots|
    ensures Shifted(slots, i, i) == slots
    ensures Slice(slots, n).Without(i) == Slice(Shifted(slots, i, n - 1), n - 1)
  {
  }

  class InMemoryStore {
    var data: map<string, string>
    var delayLists: DelayLists
    // chatInstances: the first `length` elements of `backing`, whose length is the capacity
    var backing: array<ChatInstance>
    var length: nat

    ghost predicate Valid()
      reads this
    {
      length <= backing.Length
    }

    ghost function Contents(): seq<ChatInstance>
      reads this, backing
      requires Valid()
    {
      backing[..length]
    }

    /** The whole array, with what earlier removals left behind. */
    ghost function Slots(): Slice
      reads this, backing
    {
      Slice(backing[..], length)
    }

    constructor ()
      ensures Valid() && fresh(backing) && Contents() == [] && data == map[] && delayLists == map[]
    {
      data, delayLists := map[], map[];
      backing, length := new ChatInstance[0], 0;
    }

    // Registration.

    method Create(ip: string, username: string) returns (ok: bool)
      modifies this`data
      ensures ok == (username !in old(data).Values)
      ensures data == Registry.Apply(old(data), Registry.Create(ip, username))
    {
      var rest := data.Keys;
      while rest != {}
        invariant rest <= data.Keys
        invariant forall k :: k in data && k !in rest ==> data[k] != username
        decreases rest
      {
        var existing :| existing in rest;
        if data[existing] == username {
          return false;
        }
        rest := rest - {existing};
      }
      data := data[ip := username];
      ok := true;
    }

    method Read(ip: string) returns (r: Option<string>)
      ensures r == Registry.Found(data, ip)
    {
      r := if ip in data then Some(data[ip]) else None;
    }

    /** Scans the map in an arbitrary order and returns the first match. */
    method ReadByUsername(username: string) returns (r: Option<string>)
      ensures Registry.FoundBy(data, username, r)
    {
      var rest := data.Keys;
      while rest != {}
        invariant rest <= data.Keys
        invariant forall k :: k in data && k !in rest ==> data[k] != username
        decreases rest
      {
        var ip :| ip in rest;
        if data[ip] == username {
          return Some(ip);
        }
        rest := rest - {ip};
      }
      r := None;
    }

    method Delete(ip: string) returns (ok: bool)
      modifies this`data
      ensures ok == (ip in old(data))
      ensures data == Registry.Apply(old(data), Registry.Delete(ip))
    {
      if ip !in data {
        assert data - {ip} == data;
        return false;
      }
      data := data - {ip};
      ok := true;
    }

    // Delay lists.

    method UpdateDelayList(username: string, delays: Delays)
      modifies this`delayLists
      ensures delayLists == old(delayLists)[username := delays]
    {
      delayLists := delayLists[username := delays];
    }

    method GetDelayList(username: string) returns (r: Option<Delays>)
      ensures r == if username in delayLists then Some(delayLists[username]) else None
    {
      r := if username in delayLists then Some(delayLists[username]) else None;
    }

    // Chat rooms.

    /** `append`: in place while the capacity lasts, into a new and larger array otherwise. */
    method InsertChatInstance(roomId: string, chatServer: string, users: seq<string>)
      requires Valid()
      modifies this`backing, this`length, backing
      ensures Valid() && Contents() == old(Contents()) + [ChatInstance(chatServer, users, roomId, true)]
      ensures if old(length) < old(backing).Length
              then backing == old(backing)
                   && Slots() == old(Slots()).With(ChatInstance(chatServer, users, roomId, true))
                   && forall k :: 0 <= k < backing.Length && k != old(length) ==> backing[k] == old(backing[k])
              else fresh(backing)
    {
      var room := ChatInstance(chatServer, users, roomId, true);
      if length < backing.Length {
        backing[length] := room;
      } else {
        var capacity :| capacity > length;
        var previous := backing;
        backing := new ChatInstance[capacity](i requires 0 <= i reads previous =>
          if i < previous.Length then previous[i] else room);
      }
      length := length + 1;
    }

    /** `append(s[:i], s[i+1:]...)`: shifts the tail down within the same array and leaves the last element stale. */
    method RemoveIndex(i: nat)
      requires Valid() && i < length
      modifies this`length, backing
      ensures Valid() && Slots() == old(Slots()).Without(i)
      ensures length == old(length) - 1 && forall k :: length <= k < backing.Length ==> backing[k] == old(backing[k])
      ensures Contents() == RemoveAt(old(Contents()), i)
    {
      hide Shifted, RemoveAt;
      ghost var before, n := backing[..], length;
      var j := i;
      ShiftedEnds(before, i, n);
      while j + 1 < length
        invariant i <= j < length == n && backing.Length == |before|
        invariant backing[..] == Shifted(before, i, j)
      {
        ShiftOne(before, i, j);
        ghost var now := backing[..];
        backing[j] := backing[j + 1];
        assert backing[..] == now[j := now[j + 1]];
        j := j + 1;
      }
      length := length - 1;
      Slice(before, n).LiveWithout(i);
      assert backing[..length] == Slots().Live() && before[..n] == Slice(before, n).Live();
    }

    /** Removes the first room with that id. */
    method RemoveChatInstance(roomId: string) returns (ok: bool)
      requires Valid()
      modifies this`length, backing
      ensures Valid()
      ensures ok <==> exists i :: IsFirstWithId(old(Contents()), roomId, i)
      ensures !ok ==> Contents() == old(Contents()) && forall r :: r in Contents() ==> r.roomId != roomId
      ensures forall i :: IsFirstWithId(old(Contents()), roomId, i) ==> Contents() == RemoveAt(old(Contents()), i)
    {
      var i := 0;
      while i < length
        invariant i <= length == old(length) && backing[..] == old(backing[..])
        invariant forall k :: 0 <= k < i ==> Contents()[k].roomId != roomId
      {
        if backing[i].roomId == roomId {
          assert IsFirstWithId(Contents(), roomId, i);
          RemoveIndex(i);
          return true;
        }
        i := i + 1;
      }
      ok := false;
    }

    /** Removes the first room the user is in, if any. */
    method RemoveChatInstancesForUser(user: string) returns (ok: bool)
      requires Valid()
      modifies this`length, backing
      ensures Valid() && Contents() == RemoveUser(old(Contents()), user)
      ensures Slots() == old(Slots()).WithoutUser(user)
      ensures ok == (FirstOf(old(Contents()), user) < old(length))
    {
      var i := 0;
      while i < length
        invariant i <= length == old(length) && backing[..] == old(backing[..])
        invariant forall k :: 0 <= k < i ==> user !in backing[k].users
      {
        var hasUser := false;
        var u := 0;
        while u < |backing[i].users|
          invariant u <= |backing[i].users|
          invariant hasUser <==> user in backing[i].users[..u]
        {
          if backing[i].users[u] == user {
            hasUser := true;
            assert user in backing[i].users[..u + 1];
            assert user in backing[i].users;
            break;
          }
          assert backing[i].users[..u + 1] == backing[i].users[..u] + [backing[i].users[u]];
          u := u + 1;
        }
        assert u == |backing[i].users| ==> backing[i].users[..u] == backing[i].users;
        if hasUser {
          assert FirstOf(Contents(), user) == i;
          if i == length - 1 {
            length := i;
            assert Contents() == RemoveAt(old(Contents()), i);
            assert backing[..] == backing[..i] + backing[i + 1..i + 1] + backing[i..];
          } else {
            RemoveIndex(i);
          }
          return true;
        }
        i := i + 1;
      }
      ok := false;
    }

    /** Hands out the rooms without copying them: later removals and insertions show through the result. */
    method GetAllChatInstances() returns (slice: array<ChatInstance>, n: nat)
      requires Valid()
      ensures slice == backing && n == length && slice[..n] == Contents()
    {
      slice, n := backing, length;
    }
  }
}
