/**
 Runs of the server. Every connection has a goroutine whose program counter says which of its
 atomic steps comes next; an event lets one goroutine take one step, and a run is any sequence
 of events, so it covers every interleaving of any number of connections. Between two sections
 under the clients mutex other goroutines may step, and the unsynchronised writes a goroutine
 makes to its own client (authed, activated, key, room) are steps of their own. Between any two
 steps the server may stop and start again.
 */
module Interleaving {
  import opened Wrappers
  import opened Bytes
  import opened Accounts
  import opened Directory
  import opened Answers
  import opened Profile
  import opened ServerSpec

  datatype Pc =
    | Idle                                                        // waiting for the next frame
    | LoggingIn(u: bytes, read: Option<Account>, pwd: bytes)      // account read, not yet checked
    | Granted(byLogin: bool)                                      // credentials accepted, authed not yet set
    | Activating                                                  // authed, activate() entered
    | Taking                                                      // activated, directory not yet read
    | Sending(entries: seq<Entry>)                                // directory read, not yet written
    | Announcing                                                  // own key not yet announced
    | Answering(query: Query, entries: seq<Entry>)                // answer read, not yet written
    | Entering(room: bytes)                                       // room created, not yet entered
    | Closing                                                     // connection closed, only the exit is left

  datatype Event =
    | Connect(id: Id, raw: bytes)
    | Publish(id: Id, payload: bytes)
    | Activate(id: Id)
    | TakeTable(id: Id)
    | SendTable(id: Id)
    | Announce(id: Id)
    | Register(id: Id, p1: bytes, p2: bytes, salt: bytes)
    | ReadAccount(id: Id, u: bytes, pwd: bytes)
    | CheckLogin(id: Id, salt: bytes)
    | Grant(id: Id)
    | SetProfile(id: Id, rest: bytes)
    | Rename(id: Id, nu: bytes)
    | SetPassword(id: Id, oldPwd: bytes, newPwd: bytes, salt: bytes)
    | CreateRoom(id: Id, room: bytes, pwd: bytes, salt: bytes)
    | EnterRoom(id: Id)
    | JoinRoom(id: Id, room: bytes, pwd: bytes)
    | LeaveRoom(id: Id)
    | Ask(id: Id, query: Query)
    | SendAnswer(id: Id)
    | Relay(id: Id, kind: byte, payload: bytes)
    | Reply(to: set<Id>, text: bytes)
    | Close(id: Id)
    | Disconnect(id: Id)
    | Restart

  datatype State = State(shared: Shared, pcs: map<Id, Pc>)

  const MAX_ATTEMPTS := 5

  // ---------------------------------------------------------------- steps

  predicate At(s: State, id: Id)
  {
    id in s.shared.sessions && id in s.pcs
  }

  /** The goroutine of `id` waits for a frame. */
  predicate Waits(s: State, id: Id)
  {
    At(s, id) && s.pcs[id] == Idle
  }

  /** ... and its commands are accepted. */
  predicate Commands(s: State, id: Id)
  {
    Waits(s, id) && s.shared.sessions[id].authed
  }

  function Put(s: State, id: Id, c: Session, pc: Pc): State
  {
    State(s.shared.(sessions := s.shared.sessions[id := c]), s.pcs[id := pc])
  }

  function Goto(s: State, shared: Shared, id: Id, pc: Pc): State
  {
    State(shared, s.pcs[id := pc])
  }

  function DoConnect(s: State, id: Id, raw: bytes): State
  {
    var name := Trim(raw);
    if id in s.shared.sessions || !ValidName(name) then s
    else
      match ServerSpec.Connect(s.shared, id, name)
      case None => s
      case Some(t) => Goto(s, t, id, Idle)
  }

  /** An R frame: the second field is the key. */
  function DoPublish(s: State, id: Id, payload: bytes): State
    requires At(s, id)
  {
    var parts, c := Split(payload, NUL), s.shared.sessions[id];
    if |parts| < 2 then s
    else
      var next :=
        if !c.authed || parts[1] == [] then Idle
        else if !c.activated then Activating
        else if c.key == [] then Taking
        else Idle;
      Put(s, id, c.(key := parts[1]), next)
  }

  /** The decision of a login; a valid legacy account is rewritten first, in a section of its own. */
  function DoCheckLogin(kdf: Kdf, s: State, id: Id, salt: bytes): State
    requires At(s, id) && s.pcs[id].LoggingIn?
  {
    var c, pc := s.shared.sessions[id], s.pcs[id];
    var valid := pc.read.Some? && Verify(kdf, pc.read.value, pc.pwd);
    if !valid then
      Put(s, id, c.(attempts := c.attempts + 1), if c.attempts + 1 >= MAX_ATTEMPTS then Closing else Idle)
    else
      var t := if Legacy(pc.read.value) then Upgrade(kdf, s.shared, pc.u, pc.read.value, pc.pwd, salt) else s.shared;
      Goto(s, t, id, if pc.u == c.name then Granted(true) else Idle)
  }

  function DoGrant(s: State, id: Id): State
    requires At(s, id) && s.pcs[id].Granted?
  {
    var c := s.shared.sessions[id].(authed := true);
    Put(s, id, if s.pcs[id].byLogin then c.(attempts := 0) else c, Activating)
  }

  function RoomGuard(kdf: Kdf, pwd: bytes, salt: bytes): bytes
  {
    if pwd == [] then [] else salt + [COLON] + kdf.sha256Hex(salt + pwd)
  }

  function Lookup(accounts: map<bytes, Account>, u: bytes): Option<Account>
  {
    if u in accounts then Some(accounts[u]) else None
  }

  /** A command that asks about keys; "/pubkey" without a name is none. */
  predicate Asks(q: Query)
  {
    q.KeyOf? ==> Trim(q.name) != []
  }

  function AnswerOf(pc: Pc): Packet
    requires pc.Answering?
  {
    Answer(pc.query, AnswerText(pc.query, pc.entries))
  }

  /** Frames the loop relays. */
  predicate Relayed(kind: byte)
  {
    kind == TYPE_MESSAGE || kind == TYPE_FILE
  }

  function OrElse(t: Option<Shared>, s: State, id: Id, pc: Pc): State
  {
    match t
    case None => s
    case Some(shared) => Goto(s, shared, id, pc)
  }

  function WriteAll(s: Shared, to: set<Id>, text: bytes): Shared
  {
    s.(sessions := map i | i in s.sessions ::
      if i in to then Post(s.sessions[i], Text(text)) else s.sessions[i])
  }

  /** One atomic step; an event whose goroutine is elsewhere does nothing. */
  function Step(kdf: Kdf, s: State, e: Event): State
    requires Ordered(s.shared)
  {
    match e
    case Connect(id, raw) => DoConnect(s, id, raw)
    case Publish(id, payload) => if Waits(s, id) then DoPublish(s, id, payload) else s
    case Activate(id) =>
      if !At(s, id) || s.pcs[id] != Activating then s
      else if s.shared.sessions[id].activated then Put(s, id, s.shared.sessions[id], Idle)
      else Put(s, id, s.shared.sessions[id].(activated := true), Taking)
    case TakeTable(id) =>
      if At(s, id) && s.pcs[id] == Taking
      then Goto(s, s.shared, id, Sending(Entries(s.shared.sessions, s.shared.order, 0))) else s
    case SendTable(id) =>
      if At(s, id) && s.pcs[id].Sending?
      then Goto(s, PostTo(s.shared, id, Text(KeysText(s.pcs[id].entries))), id, Announcing) else s
    case Announce(id) =>
      if At(s, id) && s.pcs[id] == Announcing
      then Goto(s, Broadcast(s.shared, Announcement(s.shared.sessions[id]), Some(id)), id, Idle) else s
    case Register(id, p1, p2, salt) =>
      if !Waits(s, id) then s
      else OrElse(ServerSpec.Register(kdf, s.shared, s.shared.sessions[id].name, p1, p2, salt), s, id, Granted(false))
    case ReadAccount(id, u, pwd) =>
      if Waits(s, id)
      then Goto(s, s.shared, id, LoggingIn(u, Lookup(s.shared.accounts, u), pwd)) else s
    case CheckLogin(id, salt) =>
      if At(s, id) && s.pcs[id].LoggingIn? then DoCheckLogin(kdf, s, id, salt) else s
    case Grant(id) => if At(s, id) && s.pcs[id].Granted? then DoGrant(s, id) else s
    case SetProfile(id, rest) =>
      if Commands(s, id)
      then OrElse(ServerSpec.SetProfile(s.shared, s.shared.sessions[id].name, ParsePairs(rest)), s, id, Idle) else s
    case Rename(id, nu) =>
      if Commands(s, id) then OrElse(ServerSpec.Rename(s.shared, id, nu), s, id, Idle) else s
    case SetPassword(id, oldPwd, newPwd, salt) =>
      if !Commands(s, id) then s
      else
        var name := s.shared.sessions[id].name;
        OrElse(ServerSpec.SetPassword(kdf, s.shared, name, oldPwd, newPwd, salt), s, id, Idle)
    case CreateRoom(id, room, pwd, salt) =>
      if Commands(s, id)
      then OrElse(ServerSpec.CreateRoom(s.shared, room, RoomGuard(kdf, pwd, salt)), s, id, Entering(room)) else s
    case EnterRoom(id) =>
      if At(s, id) && s.pcs[id].Entering?
      then Put(s, id, s.shared.sessions[id].(room := s.pcs[id].room), Idle) else s
    case JoinRoom(id, room, pwd) =>
      if Commands(s, id) then OrElse(ServerSpec.JoinRoom(kdf, s.shared, id, room, pwd), s, id, Idle) else s
    case LeaveRoom(id) =>
      if Commands(s, id) then Put(s, id, s.shared.sessions[id].(room := MAIN), Idle) else s
    case Ask(id, q) =>
      if Commands(s, id) && Asks(q) then Goto(s, s.shared, id, Answering(q, Answered(s.shared, id, q))) else s
    case SendAnswer(id) =>
      if At(s, id) && s.pcs[id].Answering? then Goto(s, PostTo(s.shared, id, AnswerOf(s.pcs[id])), id, Idle) else s
    case Relay(id, kind, payload) =>
      if Waits(s, id) && Relayed(kind) then Goto(s, RelayFrame(s.shared, id, kind, payload), id, Idle) else s
    case Reply(to, text) =>
      if IsDirectoryText(Trim(text)) then s else s.(shared := WriteAll(s.shared, to, text))
    case Close(id) => if Waits(s, id) then Goto(s, s.shared, id, Closing) else s
    case Disconnect(id) =>
      if At(s, id) && (s.pcs[id] == Idle || s.pcs[id] == Closing)
      then State(ServerSpec.Disconnect(s.shared, id), s.pcs - {id}) else s
    case Restart => State(Started(s.shared.file, s.shared.table), map[])
  }

  function Announcement(c: Session): Packet
  {
    Text(NewText(Entry(c.name, c.key)))
  }

  // ---------------------------------------------------------------- the invariant

  /** What holds of one client and its goroutine. */
  ghost predicate SessionOk(t: Shared, c: Session, pc: Pc)
  {
    && ValidName(c.name)
    && (c.authed ==> c.name in t.accounts)
    && (c.activated ==> c.authed)
    && (c.room == MAIN || c.room in t.rooms)
    && c.attempts <= MAX_ATTEMPTS
    && (c.attempts == MAX_ATTEMPTS ==> pc == Closing)
    && match pc
       case Idle => c.authed ==> c.activated
       case LoggingIn(u, read, _) => (c.authed ==> c.activated) && (read.Some? && u == c.name ==> u in t.accounts)
       case Granted(_) => (c.authed ==> c.activated) && c.name in t.accounts
       case Activating => c.authed
       case Entering(room) => c.activated && room in t.rooms
       case Answering(q, entries) => c.activated && Fitting(q, entries)
       case Closing => c.authed ==> c.activated
       case _ => c.activated
  }

  ghost predicate NamesDistinct(t: Shared)
  {
    forall i, j :: i in t.sessions && j in t.sessions && i != j ==> t.sessions[i].name != t.sessions[j].name
  }

  /** accounts.json was written from the accounts of the map. */
  ghost predicate FileWritten(t: Shared)
  {
    t.file == Loaded(t.accounts)
  }

  /** ... and the table holds them. */
  ghost predicate StoresAgree(t: Shared)
  {
    FileWritten(t) && t.table == Rows(t.accounts)
  }

  ghost predicate Inv(s: State)
  {
    && Ordered(s.shared)
    && s.pcs.Keys == s.shared.sessions.Keys
    && NamesDistinct(s.shared)
    && FileWritten(s.shared)
    && (forall i :: i in s.shared.sessions ==> SessionOk(s.shared, s.shared.sessions[i], s.pcs[i]))
  }

  // ---------------------------------------------------------------- helpers

  /** A client is indifferent to other accounts and to further rooms. */
  lemma ElsewhereKeepsSession(s: Shared, t: Shared, c: Session, pc: Pc)
    requires SessionOk(s, c, pc)
    requires s.rooms.Keys <= t.rooms.Keys
    requires c.name in s.accounts ==> c.name in t.accounts
    ensures SessionOk(t, c, pc)
  {
  }

  lemma ChangeKeepsNamesDistinct(s: Shared, id: Id, c: Session, t: Shared)
    requires NamesDistinct(s) && id in s.sessions
    requires t.sessions == s.sessions[id := c]
    requires c.name == s.sessions[id].name || !NameInUse(s, c.name)
    ensures NamesDistinct(t)
  {
  }

  /** A step that rewrites the client of `id` and leaves every other client's account in place. */
  lemma OneClientSteps(s: State, id: Id, c: Session, pc: Pc, t: Shared)
    requires Inv(s) && id in s.shared.sessions
    requires t.order == s.shared.order && t.sessions == s.shared.sessions[id := c]
    requires FileWritten(t) && s.shared.rooms.Keys <= t.rooms.Keys
    requires forall i | i in s.shared.sessions && i != id ::
      s.shared.sessions[i].name in s.shared.accounts ==> s.shared.sessions[i].name in t.accounts
    requires c.name == s.shared.sessions[id].name || !NameInUse(s.shared, c.name)
    requires SessionOk(t, c, pc)
    ensures Inv(Goto(s, t, id, pc))
  {
    var u := Goto(s, t, id, pc);
    ChangeKeepsNamesDistinct(s.shared, id, c, t);
    assert Ordered(t);
    assert u.pcs.Keys == t.sessions.Keys;
    forall i | i in t.sessions ensures SessionOk(t, t.sessions[i], u.pcs[i]) {
      if i != id {
        ElsewhereKeepsSession(s.shared, t, s.shared.sessions[i], s.pcs[i]);
      }
    }
  }

  /** `t` differs from `s` only in what has been written to the connections. */
  ghost predicate SameButOut(s: Shared, t: Shared)
  {
    && t == s.(sessions := t.sessions)
    && t.sessions.Keys == s.sessions.Keys
    && forall i :: i in s.sessions ==> t.sessions[i] == s.sessions[i].(out := t.sessions[i].out)
  }

  lemma PostSameButOut(s: Shared, id: Id, p: Packet)
    ensures SameButOut(s, PostTo(s, id, p))
  {
  }

  lemma BroadcastSameButOut(s: Shared, p: Packet, sender: Option<Id>)
    ensures SameButOut(s, Broadcast(s, p, sender))
  {
  }

  lemma RoomSameButOut(s: Shared, p: Packet, sender: Option<Id>, room: bytes)
    ensures SameButOut(s, BroadcastRoom(s, p, sender, room))
  {
  }

  lemma ReplySameButOut(s: Shared, to: set<Id>, text: bytes)
    ensures SameButOut(s, WriteAll(s, to, text))
  {
  }

  /** A step that writes to connections and moves at most one program counter. */
  lemma OnlyWrites(s: State, t: State)
    requires Inv(s) && SameButOut(s.shared, t.shared) && t.pcs.Keys == s.pcs.Keys
    requires forall i | i in s.shared.sessions ::
      t.pcs[i] == s.pcs[i] || SessionOk(s.shared, s.shared.sessions[i], t.pcs[i])
    ensures Inv(t)
  {
    WritesKeepNames(s.shared, t.shared);
    forall i | i in t.shared.sessions ensures SessionOk(t.shared, t.shared.sessions[i], t.pcs[i]) {
      assert SessionOk(s.shared, s.shared.sessions[i], s.pcs[i]);
      WritesKeepSession(s.shared, t.shared, i, t.pcs[i]);
    }
  }

  lemma WritesKeepNames(s: Shared, t: Shared)
    requires SameButOut(s, t) && NamesDistinct(s)
    ensures NamesDistinct(t)
  {
    forall i, j | i in t.sessions && j in t.sessions && i != j ensures t.sessions[i].name != t.sessions[j].name {
      assert s.sessions[i].name != s.sessions[j].name;
    }
  }

  lemma WritesKeepSession(s: Shared, t: Shared, i: Id, pc: Pc)
    requires SameButOut(s, t) && i in s.sessions && SessionOk(s, s.sessions[i], pc)
    ensures SessionOk(t, t.sessions[i], pc)
  {
  }
}
