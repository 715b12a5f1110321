/** The chat server: connections join rooms and every message is broadcast to its room under one mutex. */
module ChatRooms {
  import opened Wrappers
  import LineSplitter

  type ConnId = nat

  /** `fmt.Sprintf("%s: %s\n", username, message)`. */
  function Line(username: string, message: string): string
  {
    username + ": " + message + "\n"
  }

  /** What is written to a connection so far; nothing for one that was never written to. */
  function WrittenTo(written: map<ConnId, seq<string>>, conn: ConnId): seq<string>
  {
    if conn in written then written[conn] else []
  }

  /** The broadcast loop over a room's connections. */
  function Deliver(written: map<ConnId, seq<string>>, conns: seq<ConnId>, line: string): map<ConnId, seq<string>>
    decreases |conns|
  {
    if conns == [] then written else
      Deliver(written[conns[0] := WrittenTo(written, conns[0]) + [line]], conns[1..], line)
  }

  /** The local variables of one `handleClient` after its greeting. */
  datatype Session = Session(username: string, roomId: string)

  /** The mutex makes joins and broadcasts atomic, so a run of all clients is a sequence of these. */
  datatype Event = Joined(conn: ConnId, session: Session) | Sent(conn: ConnId, message: string)

  datatype ChatState = ChatState(
    clients: map<string, seq<ConnId>>, written: map<ConnId, seq<string>>, sessions: map<ConnId, Session>)

  function Members(clients: map<string, seq<ConnId>>, roomId: string): seq<ConnId>
  {
    if roomId in clients then clients[roomId] else []
  }

  /** A connection joins once, and only joined connections send; empty reads are skipped. */
  predicate Allowed(s: ChatState, e: Event)
  {
    match e
    case Joined(conn, _) => conn !in s.sessions && conn !in s.written
    case Sent(conn, message) => conn in s.sessions && message != ""
  }

  function Apply(s: ChatState, e: Event): ChatState
    requires Allowed(s, e)
  {
    match e
    case Joined(conn, session) =>
      ChatState(s.clients[session.roomId := Members(s.clients, session.roomId) + [conn]],
                s.written, s.sessions[conn := session])
    case Sent(conn, message) =>
      var session := s.sessions[conn];
      s.(written := Deliver(s.written, Members(s.clients, session.roomId), Line(session.username, message)))
  }

  const INITIAL := ChatState(map[], map[], map[])

  /** The state after a run, if every event was allowed when it happened. */
  function After(events: seq<Event>): Option<ChatState>
  {
    if events == [] then Some(INITIAL) else
      match After(events[..|events| - 1])
      case None => None
      case Some(s) => if Allowed(s, events[|events| - 1]) then Some(Apply(s, events[|events| - 1])) else None
  }

  /** The session a connection announced, read off the events alone. */
  function SessionOf(events: seq<Event>, conn: ConnId): Option<Session>
  {
    if events == [] then None else
      match events[|events| - 1]
      case Joined(c, session) => if c == conn then Some(session) else SessionOf(events[..|events| - 1], conn)
      case Sent(_, _) => SessionOf(events[..|events| - 1], conn)
  }

  /** The lines broadcast to a room, in order, read off the events alone. */
  function RoomLog(events: seq<Event>, roomId: string): seq<string>
  {
    if events == [] then [] else
      var before := events[..|events| - 1];
      match events[|events| - 1]
      case Joined(_, _) => RoomLog(before, roomId)
      case Sent(conn, message) =>
        match SessionOf(before, conn)
        case None => RoomLog(before, roomId)
        case Some(session) =>
          if session.roomId == roomId then RoomLog(before, roomId) + [Line(session.username, message)]
          else RoomLog(before, roomId)
  }

  /** How long its room's log was when the connection joined. */
  function JoinPosition(events: seq<Event>, conn: ConnId): nat
  {
    if events == [] then 0 else
      var before := events[..|events| - 1];
      match events[|events| - 1]
      case Joined(c, session) => if c == conn then |RoomLog(before, session.roomId)| else JoinPosition(before, conn)
      case Sent(_, _) => JoinPosition(before, conn)
  }

  /** The connections listed in a room announced that room, and none is listed twice. */
  ghost predicate RoomIsConsistent(s: ChatState, roomId: string)
  {
    var members := Members(s.clients, roomId);
    && (forall c | c in members :: c in s.sessions && s.sessions[c].roomId == roomId)
    && (forall i, j :: 0 <= i < j < |members| ==> members[i] != members[j])
  }

  /** Every connection is listed once, in the room it announced and in no other. */
  ghost predicate Consistent(s: ChatState)
  {
    && (forall roomId :: RoomIsConsistent(s, roomId))
    && (forall conn :: conn in s.sessions ==> conn in Members(s.clients, s.sessions[conn].roomId))
    && (forall conn :: conn in s.written ==> conn in s.sessions)
  }

  lemma {:induction false} DeliverReachesEachOnce(
      written: map<ConnId, seq<string>>, conns: seq<ConnId>, line: string, conn: ConnId)
    requires forall i, j :: 0 <= i < j < |conns| ==> conns[i] != conns[j]
    ensures WrittenTo(Deliver(written, conns, line), conn)
            == WrittenTo(written, conn) + if conn in conns then [line] else []
    ensures conn in Deliver(written, conns, line) <==> conn in written || conn in conns
    decreases |conns|
  {
    if conns != [] {
      var written' := written[conns[0] := WrittenTo(written, conns[0]) + [line]];
      DeliverReachesEachOnce(written', conns[1..], line, conn);
      assert conn in conns <==> conn == conns[0] || conn in conns[1..];
      assert conns[0] !in conns[1..];
    }
  }

  lemma JoinKeepsConsistency(s: ChatState, conn: ConnId, session: Session)
    requires Consistent(s) && Allowed(s, Joined(conn, session))
    ensures Consistent(Apply(s, Joined(conn, session)))
  {
    var s' := Apply(s, Joined(conn, session));
    forall roomId ensures RoomIsConsistent(s', roomId) {
      assert RoomIsConsistent(s, roomId);
      var members := Members(s.clients, roomId);
      if roomId == session.roomId {
        assert conn !in members;
        assert Members(s'.clients, roomId) == members + [conn];
      } else {
        assert Members(s'.clients, roomId) == members;
      }
    }
    forall c | c in s'.sessions ensures c in Members(s'.clients, s'.sessions[c].roomId) {
      if c != conn {
        assert c in Members(s.clients, s.sessions[c].roomId);
      }
    }
  }

  lemma SendKeepsConsistency(s: ChatState, conn: ConnId, message: string)
    requires Consistent(s) && Allowed(s, Sent(conn, message))
    ensures Consistent(Apply(s, Sent(conn, message)))
  {
    var session := s.sessions[conn];
    var s' := Apply(s, Sent(conn, message));
    assert RoomIsConsistent(s, session.roomId);
    forall roomId ensures RoomIsConsistent(s', roomId) {
      assert RoomIsConsistent(s, roomId);
    }
    forall c | c in s'.written ensures c in s'.sessions {
      DeliverReachesEachOnce(s.written, Members(s.clients, session.roomId), Line(session.username, message), c);
    }
  }

  lemma {:induction false} RunsAreConsistent(events: seq<Event>)
    requires After(events).Some?
    ensures Consistent(After(events).value)
    ensures forall conn :: SessionOf(events, conn)
                           == (if conn in After(events).value.sessions then Some(After(events).value.sessions[conn])
                               else None)
  {
    if events != [] {
      var before, e := events[..|events| - 1], events[|events| - 1];
      RunsAreConsistent(before);
      var s := After(before).value;
      match e
      case Joined(conn, session) => JoinKeepsConsistency(s, conn, session);
      case Sent(conn, message) => SendKeepsConsistency(s, conn, message);
    }
  }

  /** A connection that joined has received exactly its room's log from its join position on. */
  ghost predicate ReceivedLog(events: seq<Event>, s: ChatState, conn: ConnId)
  {
    SessionOf(events, conn).Some? ==>
      var log := RoomLog(events, SessionOf(events, conn).value.roomId);
      JoinPosition(events, conn) <= |log| && WrittenTo(s.written, conn) == log[JoinPosition(events, conn)..]
  }

  /** Ordered delivery: over every run, no member misses, reorders or is sent anything but its own room's lines. */
  lemma {:induction false} DeliveryIsRoomLog(events: seq<Event>, conn: ConnId)
    requires After(events).Some?
    ensures ReceivedLog(events, After(events).value, conn)
    ensures SessionOf(events, conn).None? ==> WrittenTo(After(events).value.written, conn) == []
  {
    if events != [] {
      var before, e := events[..|events| - 1], events[|events| - 1];
      DeliveryIsRoomLog(before, conn);
      RunsAreConsistent(before);
      var s := After(before).value;
      if e.Sent? {
        var sender := s.sessions[e.conn];
        var members := Members(s.clients, sender.roomId);
        assert RoomIsConsistent(s, sender.roomId);
        DeliverReachesEachOnce(s.written, members, Line(sender.username, e.message), conn);
        assert conn in members <==> conn in s.sessions && s.sessions[conn].roomId == sender.roomId;
      }
    }
  }

  /** Two members of a room see the same lines in the same order from the later of their joins on. */
  lemma MembersAgree(events: seq<Event>, first: ConnId, second: ConnId)
    requires After(events).Some? && SessionOf(events, first).Some? && SessionOf(events, second).Some?
    requires SessionOf(events, first).value.roomId == SessionOf(events, second).value.roomId
    requires JoinPosition(events, first) <= JoinPosition(events, second)
    ensures var s := After(events).value;
      var gap := JoinPosition(events, second) - JoinPosition(events, first);
      gap <= |WrittenTo(s.written, first)| && WrittenTo(s.written, second) == WrittenTo(s.written, first)[gap..]
  {
    DeliveryIsRoomLog(events, first);
    DeliveryIsRoomLog(events, second);
  }

  /** The chat server's mutable state. */
  class ChatManager {
    var clients: map<string, seq<ConnId>>
    var written: map<ConnId, seq<string>>

    constructor ()
      ensures clients == map[] && written == map[]
    {
      clients, written := map[], map[];
    }

    /** The connection becomes the last member of its room, and no other room changes. */
    method Join(conn: ConnId, roomId: string)
      modifies this`clients
      ensures roomId in clients && Members(clients, roomId) == Members(old(clients), roomId) + [conn]
      ensures forall other :: other != roomId ==>
                (other in clients <==> other in old(clients)) && Members(clients, other) == Members(old(clients), other)
    {
      var members := if roomId in clients then clients[roomId] else [];
      clients := clients[roomId := members + [conn]];
    }

    /** `broadcastMessage`: a room nobody ever joined is not an error. */
    method BroadcastMessage(username: string, roomId: string, message: string)
      modifies this`written
      ensures written == Deliver(old(written), Members(clients, roomId), Line(username, message))
    {
      if roomId !in clients {
        return;
      }
      var clientsInRoom := clients[roomId];
      var line := username + ": " + message + "\n";
      var i := 0;
      while i < |clientsInRoom|
        invariant i <= |clientsInRoom|
        invariant Deliver(old(written), clientsInRoom, line) == Deliver(written, clientsInRoom[i..], line)
      {
        var client := clientsInRoom[i];
        var sofar := if client in written then written[client] else [];
        assert clientsInRoom[i..][1..] == clientsInRoom[i + 1..];
        written := written[client := sofar + [line]];
        i := i + 1;
      }
    }

    /** One event of a run, as `handleClient` carries it out. */
    method Handle(e: Event, ghost sessions: map<ConnId, Session>, session: Session)
      requires Allowed(ChatState(clients, written, sessions), e)
      requires session == if e.Joined? then e.session else sessions[e.conn]
      modifies this
      ensures ChatState(clients, written, if e.Joined? then sessions[e.conn := session] else sessions)
              == Apply(old(ChatState(clients, written, sessions)), e)
    {
      match e
      case Joined(conn, _) =>
        Join(conn, session.roomId);
        assert forall other :: other in clients ==> clients[other] == Members(clients, other);
        assert clients == old(clients)[session.roomId := Members(old(clients), session.roomId) + [conn]];
      case Sent(_, message) => BroadcastMessage(session.username, session.roomId, message);
    }
  }

  // What a member's client makes of it.

  /** The messages a client passes on for each line that was written to it. */
  function Displayed(lines: seq<string>): seq<string>
  {
    if lines == [] then [] else LineSplitter.Messages(lines[0], '\n').0 + Displayed(lines[1..])
  }

  lemma {:induction false} WholeLinesLeaveNothing(lines: seq<string>)
    requires forall l | l in lines :: l != "" && l[|l| - 1] == '\n'
    ensures LineSplitter.Messages(LineSplitter.Concat(lines), '\n') == (Displayed(lines), "")
  {
    if lines != [] {
      var rest := LineSplitter.Messages(lines[0], '\n').1;
      EndsClean(lines[0]);
      WholeLinesLeaveNothing(lines[1..]);
      LineSplitter.MessagesContinue(lines[0], LineSplitter.Concat(lines[1..]), '\n');
      assert rest + LineSplitter.Concat(lines[1..]) == LineSplitter.Concat(lines[1..]);
    }
  }

  lemma LastCharacter(t: string, rest: string)
    ensures rest != "" ==> (t + rest)[|t + rest| - 1] in rest
  {
    if rest != "" {
      assert (t + rest)[|t + rest| - 1] == rest[|rest| - 1];
    }
  }

  lemma EndsClean(line: string)
    requires line != "" && line[|line| - 1] == '\n'
    ensures LineSplitter.Messages(line, '\n').1 == ""
  {
    var (parts, rest) := LineSplitter.Messages(line, '\n');
    LineSplitter.MessagesDecompose(line, '\n');
    LastCharacter(LineSplitter.Terminated(parts, '\n'), rest);
  }

  lemma {:induction false} LogLinesEnd(events: seq<Event>, roomId: string)
    ensures forall l | l in RoomLog(events, roomId) :: l != "" && l[|l| - 1] == '\n'
  {
    if events != [] {
      LogLinesEnd(events[..|events| - 1], roomId);
    }
  }

  /**
   End to end: however TCP cuts the stream, a member's client passes on exactly
   the lines of its room's log from its join on, with nothing left over.
   */
  lemma MemberSeesRoom(events: seq<Event>, conn: ConnId, chunks: seq<string>)
    requires After(events).Some? && SessionOf(events, conn).Some?
    requires LineSplitter.Concat(chunks) == LineSplitter.Concat(WrittenTo(After(events).value.written, conn))
    ensures JoinPosition(events, conn) <= |RoomLog(events, SessionOf(events, conn).value.roomId)|
    ensures LineSplitter.Receive(chunks, "")
            == (Displayed(RoomLog(events, SessionOf(events, conn).value.roomId)[JoinPosition(events, conn)..]), "")
  {
    DeliveryIsRoomLog(events, conn);
    var log := RoomLog(events, SessionOf(events, conn).value.roomId);
    LogLinesEnd(events, SessionOf(events, conn).value.roomId);
    LineSplitter.ChunkingIsIrrelevant(chunks);
    WholeLinesLeaveNothing(log[JoinPosition(events, conn)..]);
  }

  /** A line comes through as itself exactly when neither name nor message holds a newline. */
  lemma LineIsOneMessage(username: string, message: string)
    ensures LineSplitter.Messages(Line(username, message), '\n').0 == [username + ": " + message]
            <==> '\n' !in username && '\n' !in message
  {
    var text := username + ": " + message;
    var line := Line(username, message);
    EndsClean(line);
    LineSplitter.MessagesCharacterised(line, '\n', [text], "");
    assert LineSplitter.Terminated([text][1..], '\n') == "";
    assert line == LineSplitter.Terminated([text], '\n') + "";
    assert '\n' in text <==> '\n' in username || '\n' in message by {
      forall c | c in username || c in message ensures c in text {
        if c in username {
          var i :| 0 <= i < |username| && username[i] == c;
          assert text[i] == c;
        } else {
          var i :| 0 <= i < |message| && message[i] == c;
          assert text[|username| + 2 + i] == c;
        }
      }
    }
  }

  /** What a client itself sends ends in a newline, so its broadcast arrives as the message and an empty one. */
  lemma TypedMessageArrivesTwice(username: string, text: string)
    requires '\n' !in username && '\n' !in text
    ensures LineSplitter.Messages(Line(username, text + "\n"), '\n') == ([username + ": " + text, ""], "")
  {
    var shown := username + ": " + text;
    var parts := [shown, ""];
    assert parts[1..] == [""] && [""][1..] == [];
    assert LineSplitter.Terminated([""], '\n') == "\n";
    assert Line(username, text + "\n") == LineSplitter.Terminated(parts, '\n') + "";
    LineSplitter.DecompositionIsUnique(Line(username, text + "\n"), '\n', parts, "");
  }
}
