/**
 Who is in which room: the four ways a client moves, what it takes to join, and that a room keeps
 its password until the server is restarted.
 */
module Rooms {
  import opened Wrappers
  import opened Bytes
  import opened Accounts
  import opened ServerSpec
  import opened Interleaving
  import opened SessionSafety
  import opened AccountHistory
  import opened StoreAgreement
  import RelayRules

  // ---------------------------------------------------------------- one step

  /** The room the step takes the client to, if it does. */
  ghost function MovesTo(kdf: Kdf, s: State, e: Event, i: Id): Option<bytes>
    requires At(s, i)
  {
    match e
    case JoinRoom(id, room, pwd) =>
      if && id == i && Commands(s, i)
         && (room == MAIN || (room in s.shared.rooms && RoomOpens(kdf, s.shared.rooms[room], pwd)))
      then Some(room) else None
    case LeaveRoom(id) => if id == i && Commands(s, i) then Some(MAIN) else None
    case EnterRoom(id) => if id == i && s.pcs[i].Entering? then Some(s.pcs[i].room) else None
    case _ => None
  }

  ghost predicate Moved(kdf: Kdf, s: State, e: Event, i: Id)
    requires Ordered(s.shared) && At(s, i)
  {
    var t := Step(kdf, s, e);
    At(t, i) ==> t.shared.sessions[i].room == match MovesTo(kdf, s, e, i)
      case Some(room) => room
      case None => s.shared.sessions[i].room
  }

  lemma JoinMoves(kdf: Kdf, s: State, e: Event, i: Id)
    requires Ordered(s.shared) && At(s, i) && e.JoinRoom?
    ensures Moved(kdf, s, e, i)
  {
  }

  lemma LeaveMoves(kdf: Kdf, s: State, e: Event, i: Id)
    requires Ordered(s.shared) && At(s, i) && (e.LeaveRoom? || e.EnterRoom? || e.CreateRoom?)
    ensures Moved(kdf, s, e, i)
  {
  }

  lemma LoginMovesNobody(kdf: Kdf, s: State, e: Event, i: Id)
    requires Ordered(s.shared) && At(s, i) && RelayRules.SetsUp(e)
    ensures Moved(kdf, s, e, i)
  {
    if e.CheckLogin? {
      CheckMovesNobody(kdf, s, e, i);
    } else if e.Register? || e.ReadAccount? || e.Grant? {
      EntryMovesNobody(kdf, s, e, i);
    }
  }

  lemma CheckMovesNobody(kdf: Kdf, s: State, e: Event, i: Id)
    requires Ordered(s.shared) && At(s, i) && e.CheckLogin?
    ensures Moved(kdf, s, e, i)
  {
  }

  lemma EntryMovesNobody(kdf: Kdf, s: State, e: Event, i: Id)
    requires Ordered(s.shared) && At(s, i) && (e.Register? || e.ReadAccount? || e.Grant?)
    ensures Moved(kdf, s, e, i)
  {
  }

  lemma EditsMoveNobody(kdf: Kdf, s: State, e: Event, i: Id)
    requires Ordered(s.shared) && At(s, i)
    requires e.SetProfile? || e.SetPassword? || e.Rename? || e.Ask? || e.Close? || e.Disconnect? || e.Restart?
    ensures Moved(kdf, s, e, i)
  {
  }

  lemma WritesMoveNobody(kdf: Kdf, s: State, e: Event, i: Id)
    requires Ordered(s.shared) && At(s, i) && RelayRules.Speaks(e)
    ensures Moved(kdf, s, e, i)
  {
    if e.Relay? && Waits(s, e.id) { RelaySameButOut(s.shared, e.id, e.kind, e.payload); }
  }

  /** A client is moved by its own accepted join, by leaving, and by entering the room it has created; by
      nothing else, and by nobody else. */
  lemma RoomMovesIff(kdf: Kdf, s: State, e: Event, i: Id)
    requires Ordered(s.shared) && At(s, i) && At(Step(kdf, s, e), i)
    ensures Step(kdf, s, e).shared.sessions[i].room == match MovesTo(kdf, s, e, i)
      case Some(room) => room
      case None => s.shared.sessions[i].room
  {
    if e.JoinRoom? {
      JoinMoves(kdf, s, e, i);
    } else if e.LeaveRoom? || e.EnterRoom? || e.CreateRoom? {
      LeaveMoves(kdf, s, e, i);
    } else if RelayRules.SetsUp(e) {
      LoginMovesNobody(kdf, s, e, i);
    } else if RelayRules.Speaks(e) {
      WritesMoveNobody(kdf, s, e, i);
    } else {
      EditsMoveNobody(kdf, s, e, i);
    }
  }

  /** A room appears when somebody creates one under a free name, and its creator is about to enter it. */
  lemma RoomIsCreatedIff(kdf: Kdf, s: State, id: Id, room: bytes, pwd: bytes, salt: bytes)
    requires Ordered(s.shared)
    ensures var t := Step(kdf, s, Event.CreateRoom(id, room, pwd, salt));
      if Commands(s, id) && room !in s.shared.rooms
      then t.shared.rooms == s.shared.rooms[room := RoomGuard(kdf, pwd, salt)] && t.pcs == s.pcs[id := Entering(room)]
           && t.shared.sessions == s.shared.sessions
      else t == s
  {
  }

  // ---------------------------------------------------------------- rooms keep their password

  ghost predicate KeepsRooms(s: State, t: State)
  {
    forall r :: r in s.shared.rooms ==> r in t.shared.rooms && t.shared.rooms[r] == s.shared.rooms[r]
  }

  lemma RoomStepsKeepRooms(kdf: Kdf, s: State, e: Event)
    requires Ordered(s.shared) && (e.CreateRoom? || e.EnterRoom? || e.JoinRoom? || e.LeaveRoom?)
    ensures KeepsRooms(s, Step(kdf, s, e))
  {
  }

  lemma LoginsKeepRooms(kdf: Kdf, s: State, e: Event)
    requires Ordered(s.shared) && RelayRules.SetsUp(e)
    ensures KeepsRooms(s, Step(kdf, s, e))
  {
  }

  lemma EditsKeepRooms(kdf: Kdf, s: State, e: Event)
    requires Ordered(s.shared)
    requires e.SetProfile? || e.SetPassword? || e.Rename? || e.Ask? || e.Close? || e.Disconnect?
    ensures KeepsRooms(s, Step(kdf, s, e))
  {
  }

  lemma WritesKeepRooms(kdf: Kdf, s: State, e: Event)
    requires Ordered(s.shared) && RelayRules.Speaks(e)
    ensures KeepsRooms(s, Step(kdf, s, e))
  {
    if e.Relay? && Waits(s, e.id) { RelaySameButOut(s.shared, e.id, e.kind, e.payload); }
  }

  lemma StepKeepsRooms(kdf: Kdf, s: State, e: Event)
    requires Ordered(s.shared) && !e.Restart?
    ensures KeepsRooms(s, Step(kdf, s, e))
  {
    if e.CreateRoom? || e.EnterRoom? || e.JoinRoom? || e.LeaveRoom? {
      RoomStepsKeepRooms(kdf, s, e);
    } else if RelayRules.SetsUp(e) {
      LoginsKeepRooms(kdf, s, e);
    } else if RelayRules.Speaks(e) {
      WritesKeepRooms(kdf, s, e);
    } else {
      EditsKeepRooms(kdf, s, e);
    }
  }

  lemma {:induction false} RunKeepsRooms(kdf: Kdf, s: State, events: seq<Event>)
    requires Inv(s) && NoRestart(events)
    ensures KeepsRooms(s, Run(kdf, s, events))
    decreases |events|
  {
    if events != [] {
      StepKeepsInv(kdf, s, events[0]);
      StepKeepsRooms(kdf, s, events[0]);
      assert forall k :: 0 <= k < |events[1..]| ==> events[1..][k] == events[k + 1];
      RunKeepsRooms(kdf, Step(kdf, s, events[0]), events[1..]);
    }
  }

  /** The room has been created with this password. */
  ghost predicate HasPassword(kdf: Kdf, t: State, room: bytes, pwd: bytes, salt: bytes)
  {
    room in t.shared.rooms && t.shared.rooms[room] == RoomGuard(kdf, pwd, salt)
  }

  lemma JoinTakesPassword(kdf: Kdf, t: State, room: bytes, pwd: bytes, salt: bytes, j: Id, attempt: bytes)
    requires Ordered(t.shared) && HasPassword(kdf, t, room, pwd, salt) && COLON !in salt && Commands(t, j)
    ensures var u := Step(kdf, t, Event.JoinRoom(j, room, attempt));
      && At(u, j)
      && u.shared.sessions[j].room ==
           if room == MAIN || pwd == [] || kdf.sha256Hex(salt + attempt) == kdf.sha256Hex(salt + pwd)
           then room else t.shared.sessions[j].room
  {
    RoomOpensToItsPassword(kdf, pwd, salt, attempt);
    JoinMoves(kdf, t, Event.JoinRoom(j, room, attempt), j);
    JoinKeepsClients(kdf, t, j, room, attempt);
  }

  lemma JoinKeepsClients(kdf: Kdf, t: State, j: Id, room: bytes, attempt: bytes)
    requires Ordered(t.shared) && At(t, j)
    ensures At(Step(kdf, t, Event.JoinRoom(j, room, attempt)), j)
  {
  }

  lemma PasswordStays(kdf: Kdf, s: State, id: Id, room: bytes, pwd: bytes, salt: bytes, after: seq<Event>)
    requires Inv(s) && Commands(s, id) && room !in s.shared.rooms && NoRestart(after)
    ensures Inv(Step(kdf, s, Event.CreateRoom(id, room, pwd, salt)))
    ensures var t := Run(kdf, Step(kdf, s, Event.CreateRoom(id, room, pwd, salt)), after);
      Inv(t) && HasPassword(kdf, t, room, pwd, salt)
  {
    var e := Event.CreateRoom(id, room, pwd, salt);
    StepKeepsInv(kdf, s, e);
    RoomIsCreatedIff(kdf, s, id, room, pwd, salt);
    RunKeepsInv(kdf, Step(kdf, s, e), after);
    RunKeepsRooms(kdf, Step(kdf, s, e), after);
  }

  /** A room is created, and then anything happens but a restart: whoever asks to join it is moved there if and
      only if it is the main room, was created without a password, or the attempt has the same salted hash
      as the password it was created with. Otherwise that client stays where it is. */
  lemma CreatedRoomTakesItsPassword(kdf: Kdf, s: State, id: Id, room: bytes, pwd: bytes, salt: bytes,
                                    after: seq<Event>, j: Id, attempt: bytes)
    requires Inv(s) && Commands(s, id) && room !in s.shared.rooms && COLON !in salt && NoRestart(after)
    ensures Inv(Step(kdf, s, Event.CreateRoom(id, room, pwd, salt)))
    ensures var t := Run(kdf, Step(kdf, s, Event.CreateRoom(id, room, pwd, salt)), after);
      Inv(t) && (Commands(t, j) ==>
        var u := Step(kdf, t, Event.JoinRoom(j, room, attempt));
        && At(u, j)
        && u.shared.sessions[j].room ==
             if room == MAIN || pwd == [] || kdf.sha256Hex(salt + attempt) == kdf.sha256Hex(salt + pwd)
             then room else t.shared.sessions[j].room)
  {
    PasswordStays(kdf, s, id, room, pwd, salt, after);
    var t := Run(kdf, Step(kdf, s, Event.CreateRoom(id, room, pwd, salt)), after);
    if Commands(t, j) { JoinTakesPassword(kdf, t, room, pwd, salt, j, attempt); }
  }
}
