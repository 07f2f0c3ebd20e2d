/**
 The session invariant, kept by every step of every connection and by restarts, and hence true
 in every state of every run from every start.
 */
module SessionSafety {
  import opened Wrappers
  import opened Bytes
  import opened Accounts
  import opened Directory
  import opened Answers
  import opened Profile
  import opened ServerSpec
  import opened Interleaving

  lemma ConnectKeepsInv(s: State, id: Id, raw: bytes)
    requires Inv(s)
    ensures Inv(DoConnect(s, id, raw))
  {
    var t := DoConnect(s, id, raw);
    if t != s {
      ConnectKeepsOrder(s.shared, id, Trim(raw));
      forall i | i in t.shared.sessions ensures SessionOk(t.shared, t.shared.sessions[i], t.pcs[i]) {
        if i != id { assert SessionOk(s.shared, s.shared.sessions[i], s.pcs[i]); }
      }
    }
  }

  lemma DisconnectKeepsInv(s: State, id: Id)
    requires Inv(s) && id in s.shared.sessions
    ensures Inv(State(ServerSpec.Disconnect(s.shared, id), s.pcs - {id}))
  {
    var t := ServerSpec.Disconnect(s.shared, id);
    DisconnectKeepsOrder(s.shared, id);
    assert NamesDistinct(t);
    forall i | i in t.sessions ensures SessionOk(t, t.sessions[i], (s.pcs - {id})[i]) {
      ElsewhereKeepsSession(s.shared, t, s.shared.sessions[i], s.pcs[i]);
    }
  }

  lemma PublishKeepsInv(s: State, id: Id, payload: bytes)
    requires Inv(s) && Waits(s, id)
    ensures Inv(DoPublish(s, id, payload))
  {
    var t := DoPublish(s, id, payload);
    if t != s {
      assert SessionOk(s.shared, s.shared.sessions[id], Idle);
      OneClientSteps(s, id, t.shared.sessions[id], t.pcs[id], t.shared);
    }
  }

  lemma ActivateKeepsInv(kdf: Kdf, s: State, id: Id)
    requires Inv(s)
    ensures Inv(Step(kdf, s, Activate(id)))
  {
    var t := Step(kdf, s, Activate(id));
    if t != s {
      assert SessionOk(s.shared, s.shared.sessions[id], Activating);
      OneClientSteps(s, id, t.shared.sessions[id], t.pcs[id], t.shared);
    }
  }

  lemma RegisterKeepsInv(kdf: Kdf, s: State, id: Id, p1: bytes, p2: bytes, salt: bytes)
    requires Inv(s)
    ensures Inv(Step(kdf, s, Event.Register(id, p1, p2, salt)))
  {
    if Waits(s, id) {
      var c := s.shared.sessions[id];
      assert SessionOk(s.shared, c, Idle);
      var t := ServerSpec.Register(kdf, s.shared, c.name, p1, p2, salt);
      if t.Some? {
        assert t.value.sessions == s.shared.sessions[id := c];
        OneClientSteps(s, id, c, Granted(false), t.value);
      }
    }
  }

  lemma ReadAccountKeepsInv(kdf: Kdf, s: State, id: Id, u: bytes, pwd: bytes)
    requires Inv(s)
    ensures Inv(Step(kdf, s, ReadAccount(id, u, pwd)))
  {
    if Waits(s, id) {
      var c := s.shared.sessions[id];
      assert SessionOk(s.shared, c, Idle);
      assert s.shared.sessions == s.shared.sessions[id := c];
      OneClientSteps(s, id, c, Step(kdf, s, ReadAccount(id, u, pwd)).pcs[id], s.shared);
    }
  }

  lemma UpgradeKeepsRest(kdf: Kdf, s: State, id: Id, salt: bytes)
    requires FileWritten(s.shared) && At(s, id) && s.pcs[id].LoggingIn?
    ensures var t := DoCheckLogin(kdf, s, id, salt);
      && FileWritten(t.shared)
      && t.shared.order == s.shared.order && t.shared.rooms == s.shared.rooms
      && t.shared.accounts.Keys >= s.shared.accounts.Keys
  {
  }

  /** The client whose login is checked is in order afterwards. */
  lemma CheckedIsOk(kdf: Kdf, s: State, id: Id, salt: bytes)
    requires Inv(s) && At(s, id) && s.pcs[id].LoggingIn?
    ensures At(DoCheckLogin(kdf, s, id, salt), id)
    ensures var t := DoCheckLogin(kdf, s, id, salt); SessionOk(t.shared, t.shared.sessions[id], t.pcs[id])
  {
    var c, pc := s.shared.sessions[id], s.pcs[id];
    assert SessionOk(s.shared, c, pc);
    if pc.read.Some? && Verify(kdf, pc.read.value, pc.pwd) {
      assert DoCheckLogin(kdf, s, id, salt).shared.sessions[id] == c;
    }
  }

  lemma CheckLoginKeepsInv(kdf: Kdf, s: State, id: Id, salt: bytes)
    requires Inv(s) && At(s, id) && s.pcs[id].LoggingIn?
    ensures Inv(DoCheckLogin(kdf, s, id, salt))
  {
    var t := DoCheckLogin(kdf, s, id, salt);
    UpgradeKeepsRest(kdf, s, id, salt);
    CheckedIsOk(kdf, s, id, salt);
    assert t.shared.sessions == s.shared.sessions[id := t.shared.sessions[id]];
    OneClientSteps(s, id, t.shared.sessions[id], t.pcs[id], t.shared);
  }

  lemma GrantKeepsInv(s: State, id: Id)
    requires Inv(s) && At(s, id) && s.pcs[id].Granted?
    ensures Inv(DoGrant(s, id))
  {
    assert SessionOk(s.shared, s.shared.sessions[id], s.pcs[id]);
    var t := DoGrant(s, id);
    OneClientSteps(s, id, t.shared.sessions[id], t.pcs[id], t.shared);
  }

  /** Rewriting the account of one's own name keeps everything. */
  lemma OwnAccountKeepsInv(s: State, id: Id, acc: Account)
    requires Inv(s) && Commands(s, id)
    ensures Inv(Goto(s, Save(s.shared, s.shared.sessions[id].name, acc), id, Idle))
  {
    var c := s.shared.sessions[id];
    assert SessionOk(s.shared, c, Idle);
    var t := Save(s.shared, c.name, acc);
    assert t.sessions == s.shared.sessions[id := c];
    OneClientSteps(s, id, c, Idle, t);
  }

  lemma RenameKeepsInv(kdf: Kdf, s: State, id: Id, nu: bytes)
    requires Inv(s)
    ensures Inv(Step(kdf, s, Event.Rename(id, nu)))
  {
    if Commands(s, id) {
      var t := ServerSpec.Rename(s.shared, id, nu);
      if t.Some? {
        var c := s.shared.sessions[id];
        assert SessionOk(s.shared, c, Idle);
        OneClientSteps(s, id, t.value.sessions[id], Idle, t.value);
      }
    }
  }

  lemma RoomsKeepInv(kdf: Kdf, s: State, e: Event)
    requires Inv(s) && (e.CreateRoom? || e.EnterRoom? || e.JoinRoom? || e.LeaveRoom?)
    ensures Inv(Step(kdf, s, e))
  {
    var t, id := Step(kdf, s, e), e.id;
    if t != s {
      RoomStepIs(kdf, s, e);
      OneClientSteps(s, id, t.shared.sessions[id], t.pcs[id], t.shared);
    }
  }

  /** The step has moved the client of `id` to a room, or created one. */
  ghost predicate RoomMoved(s: State, t: State, id: Id)
  {
    && At(s, id) && At(t, id)
    && t == Goto(s, t.shared, id, t.pcs[id])
    && t.shared == s.shared.(sessions := t.shared.sessions, rooms := t.shared.rooms)
    && t.shared.sessions == s.shared.sessions[id := s.shared.sessions[id].(room := t.shared.sessions[id].room)]
    && s.shared.rooms.Keys <= t.shared.rooms.Keys
    && SessionOk(t.shared, t.shared.sessions[id], t.pcs[id])
  }

  lemma RoomIsMade(kdf: Kdf, s: State, e: Event)
    requires Inv(s) && e.CreateRoom? && Step(kdf, s, e) != s
    ensures RoomMoved(s, Step(kdf, s, e), e.id)
  {
    assert SessionOk(s.shared, s.shared.sessions[e.id], s.pcs[e.id]);
  }

  lemma RoomIsEntered(kdf: Kdf, s: State, e: Event)
    requires Inv(s) && (e.EnterRoom? || e.LeaveRoom?) && Step(kdf, s, e) != s
    ensures RoomMoved(s, Step(kdf, s, e), e.id)
  {
    assert SessionOk(s.shared, s.shared.sessions[e.id], s.pcs[e.id]);
  }

  lemma RoomIsJoined(kdf: Kdf, s: State, e: Event)
    requires Inv(s) && e.JoinRoom? && Step(kdf, s, e) != s
    ensures RoomMoved(s, Step(kdf, s, e), e.id)
  {
    assert SessionOk(s.shared, s.shared.sessions[e.id], s.pcs[e.id]);
  }

  lemma RoomStepIs(kdf: Kdf, s: State, e: Event)
    requires Inv(s) && (e.CreateRoom? || e.EnterRoom? || e.JoinRoom? || e.LeaveRoom?) && Step(kdf, s, e) != s
    ensures RoomMoved(s, Step(kdf, s, e), e.id)
  {
    if e.CreateRoom? {
      RoomIsMade(kdf, s, e);
    } else if e.JoinRoom? {
      RoomIsJoined(kdf, s, e);
    } else {
      RoomIsEntered(kdf, s, e);
    }
  }

  /** Relaying writes to connections and changes nothing else. */
  lemma RelaySameButOut(s: Shared, sender: Id, kind: byte, payload: bytes)
    requires Ordered(s) && sender in s.sessions
    ensures SameButOut(s, RelayFrame(s, sender, kind, payload))
  {
    var p := Frame(kind, payload);
    match TargetOf(payload)
    case None => RoomSameButOut(s, p, Some(sender), s.sessions[sender].room);
    case Some(target) =>
      var a := Addressee(s.sessions, s.order, 0, sender, target);
      if a.Some? { PostSameButOut(s, a.value, p); }
  }

  /** The steps that only write: the goroutine of `id` moves to a program counter that suits it. */
  lemma WritingKeepsInv(s: State, t: Shared, id: Id, pc: Pc)
    requires Inv(s) && id in s.shared.sessions && SameButOut(s.shared, t)
    requires SessionOk(s.shared, s.shared.sessions[id], pc)
    ensures Inv(Goto(s, t, id, pc))
  {
    OnlyWrites(s, Goto(s, t, id, pc));
  }

  /** Whoever is in a room has a valid name. */
  lemma {:induction false} RoomEntriesNamed(s: Shared, n: nat, room: bytes)
    requires n <= |s.order| && Lists(s.sessions, s.order)
    requires forall i :: i in s.sessions ==> ValidName(s.sessions[i].name)
    ensures forall e :: e in RoomEntries(s.sessions, s.order, n, room) ==> ValidName(e.name)
    decreases |s.order| - n
  {
    if n < |s.order| { RoomEntriesNamed(s, n + 1, room); }
  }

  lemma {:induction false} FirstKeyIsKey(sessions: map<Id, Session>, order: seq<Id>, n: nat, name: bytes)
    requires n <= |order| && Lists(sessions, order)
    ensures FirstKey(sessions, order, n, name) != Some([])
    decreases |order| - n
  {
    if n < |order| { FirstKeyIsKey(sessions, order, n + 1, name); }
  }

  /** What the server answers fits the question. */
  lemma AnswerFits(s: State, id: Id, q: Query)
    requires Inv(s) && At(s, id)
    ensures Fitting(q, Answered(s.shared, id, q))
  {
    match q
    case Members =>
      forall i | i in s.shared.sessions ensures ValidName(s.shared.sessions[i].name) {
        assert SessionOk(s.shared, s.shared.sessions[i], s.pcs[i]);
      }
      RoomEntriesNamed(s.shared, 0, s.shared.sessions[id].room);
    case KeyOf(name) => FirstKeyIsKey(s.shared.sessions, s.shared.order, 0, Trim(name));
  }

  lemma AskKeepsInv(kdf: Kdf, s: State, id: Id, q: Query)
    requires Inv(s)
    ensures Inv(Step(kdf, s, Ask(id, q)))
  {
    if Commands(s, id) && Asks(q) {
      assert SessionOk(s.shared, s.shared.sessions[id], Idle);
      AnswerFits(s, id, q);
      WritingKeepsInv(s, s.shared, id, Answering(q, Answered(s.shared, id, q)));
    }
  }

  lemma SendAnswerKeepsInv(kdf: Kdf, s: State, id: Id)
    requires Inv(s)
    ensures Inv(Step(kdf, s, SendAnswer(id)))
  {
    if At(s, id) && s.pcs[id].Answering? {
      var p := AnswerOf(s.pcs[id]);
      assert SessionOk(s.shared, s.shared.sessions[id], s.pcs[id]);
      PostSameButOut(s.shared, id, p);
      AnsweredIsOk(s, id);
      WritingKeepsInv(s, PostTo(s.shared, id, p), id, Idle);
    }
  }

  lemma AnsweredIsOk(s: State, id: Id)
    requires At(s, id) && s.pcs[id].Answering? && SessionOk(s.shared, s.shared.sessions[id], s.pcs[id])
    ensures SessionOk(s.shared, s.shared.sessions[id], Idle)
  {
  }

  lemma DirectoryStepsKeepInv(kdf: Kdf, s: State, e: Event)
    requires Inv(s) && (e.TakeTable? || e.SendTable? || e.Announce?)
    ensures Inv(Step(kdf, s, e))
  {
    var t, id := Step(kdf, s, e), e.id;
    if t != s {
      assert SessionOk(s.shared, s.shared.sessions[id], s.pcs[id]);
      if e.SendTable? { PostSameButOut(s.shared, id, Text(KeysText(s.pcs[id].entries))); }
      if e.Announce? { BroadcastSameButOut(s.shared, Announcement(s.shared.sessions[id]), Some(id)); }
      WritingKeepsInv(s, t.shared, id, t.pcs[id]);
    }
  }

  lemma RelayAndCloseKeepInv(kdf: Kdf, s: State, e: Event)
    requires Inv(s) && (e.Relay? || e.Close?)
    ensures Inv(Step(kdf, s, e))
  {
    if Waits(s, e.id) && (e.Close? || Relayed(e.kind)) {
      assert SessionOk(s.shared, s.shared.sessions[e.id], Idle);
      if e.Relay? { RelaySameButOut(s.shared, e.id, e.kind, e.payload); }
      WritingKeepsInv(s, Step(kdf, s, e).shared, e.id, if e.Close? then Closing else Idle);
    }
  }

  lemma ReplyKeepsInv(kdf: Kdf, s: State, to: set<Id>, text: bytes)
    requires Inv(s)
    ensures Inv(Step(kdf, s, Reply(to, text)))
  {
    ReplySameButOut(s.shared, to, text);
    OnlyWrites(s, Step(kdf, s, Reply(to, text)));
  }

  lemma ProfileKeepsInv(kdf: Kdf, s: State, id: Id, rest: bytes)
    requires Inv(s)
    ensures Inv(Step(kdf, s, Event.SetProfile(id, rest)))
  {
    if Commands(s, id) {
      var u := s.shared.sessions[id].name;
      if u in s.shared.accounts { OwnAccountKeepsInv(s, id, Edited(u, s.shared.accounts[u], ParsePairs(rest))); }
    }
  }

  lemma PasswordKeepsInv(kdf: Kdf, s: State, id: Id, oldPwd: bytes, newPwd: bytes, salt: bytes)
    requires Inv(s)
    ensures Inv(Step(kdf, s, Event.SetPassword(id, oldPwd, newPwd, salt)))
  {
    if Commands(s, id) {
      var u := s.shared.sessions[id].name;
      if u in s.shared.accounts { OwnAccountKeepsInv(s, id, Rekey(kdf, s.shared.accounts[u], newPwd, salt)); }
    }
  }

  lemma ConnectionsKeepInv(kdf: Kdf, s: State, e: Event)
    requires Inv(s) && (e.Connect? || e.Disconnect? || e.Publish?)
    ensures Inv(Step(kdf, s, e))
  {
    match e
    case Connect(id, raw) => ConnectingKeepsInv(kdf, s, id, raw);
    case Disconnect(id) => LeavingKeepsInv(kdf, s, id);
    case Publish(id, payload) => PublishingKeepsInv(kdf, s, id, payload);
  }

  lemma CheckingKeepsInv(kdf: Kdf, s: State, id: Id, salt: bytes)
    requires Inv(s)
    ensures Inv(Step(kdf, s, CheckLogin(id, salt)))
  {
    if At(s, id) && s.pcs[id].LoggingIn? { CheckLoginKeepsInv(kdf, s, id, salt); }
  }

  lemma GrantingKeepsInv(kdf: Kdf, s: State, id: Id)
    requires Inv(s)
    ensures Inv(Step(kdf, s, Grant(id)))
  {
    if At(s, id) && s.pcs[id].Granted? { GrantKeepsInv(s, id); }
  }

  lemma ConnectingKeepsInv(kdf: Kdf, s: State, id: Id, raw: bytes)
    requires Inv(s)
    ensures Inv(Step(kdf, s, Event.Connect(id, raw)))
  {
    ConnectKeepsInv(s, id, raw);
  }

  lemma LeavingKeepsInv(kdf: Kdf, s: State, id: Id)
    requires Inv(s)
    ensures Inv(Step(kdf, s, Event.Disconnect(id)))
  {
    if At(s, id) { DisconnectKeepsInv(s, id); }
  }

  lemma PublishingKeepsInv(kdf: Kdf, s: State, id: Id, payload: bytes)
    requires Inv(s)
    ensures Inv(Step(kdf, s, Publish(id, payload)))
  {
    if Waits(s, id) { PublishKeepsInv(s, id, payload); }
  }

  lemma LoginsKeepInv(kdf: Kdf, s: State, e: Event)
    requires Inv(s) && (e.Register? || e.ReadAccount? || e.CheckLogin? || e.Grant? || e.Activate?)
    ensures Inv(Step(kdf, s, e))
  {
    match e
    case Register(id, p1, p2, salt) => RegisterKeepsInv(kdf, s, id, p1, p2, salt);
    case ReadAccount(id, u, pwd) => ReadAccountKeepsInv(kdf, s, id, u, pwd);
    case CheckLogin(id, salt) => CheckingKeepsInv(kdf, s, id, salt);
    case Grant(id) => GrantingKeepsInv(kdf, s, id);
    case Activate(id) => ActivateKeepsInv(kdf, s, id);
  }

  lemma ProfilesKeepInv(kdf: Kdf, s: State, e: Event)
    requires Inv(s) && (e.SetProfile? || e.Rename? || e.SetPassword?)
    ensures Inv(Step(kdf, s, e))
  {
    match e
    case SetProfile(id, rest) => ProfileKeepsInv(kdf, s, id, rest);
    case Rename(id, nu) => RenameKeepsInv(kdf, s, id, nu);
    case SetPassword(id, oldPwd, newPwd, salt) => PasswordKeepsInv(kdf, s, id, oldPwd, newPwd, salt);
  }

  /** A restart begins with nobody connected; what it loads from accounts.json it would load again. */
  lemma StartIsSafe(stored: map<bytes, Account>, table: map<bytes, Row>)
    ensures Inv(Boot(stored, table))
  {
    LoadedTwice(stored);
  }

  lemma RestartIsBoot(kdf: Kdf, s: State)
    requires Ordered(s.shared) && FileWritten(s.shared)
    ensures Step(kdf, s, Restart) == Boot(s.shared.accounts, s.shared.table)
  {
  }

  lemma AnswersKeepInv(kdf: Kdf, s: State, e: Event)
    requires Inv(s) && (e.Ask? || e.SendAnswer? || e.Restart?)
    ensures Inv(Step(kdf, s, e))
  {
    match e
    case Ask(id, q) => AskKeepsInv(kdf, s, id, q);
    case SendAnswer(id) => SendAnswerKeepsInv(kdf, s, id);
    case Restart =>
      RestartIsBoot(kdf, s);
      StartIsSafe(s.shared.accounts, s.shared.table);
  }

  /** Every atomic step of every connection, and every restart, keeps the session invariant. */
  lemma StepKeepsInv(kdf: Kdf, s: State, e: Event)
    requires Inv(s)
    ensures Inv(Step(kdf, s, e))
  {
    if e.Connect? || e.Disconnect? || e.Publish? {
      ConnectionsKeepInv(kdf, s, e);
    } else if e.Register? || e.ReadAccount? || e.CheckLogin? || e.Grant? || e.Activate? {
      LoginsKeepInv(kdf, s, e);
    } else if e.SetProfile? || e.Rename? || e.SetPassword? {
      ProfilesKeepInv(kdf, s, e);
    } else if e.CreateRoom? || e.EnterRoom? || e.JoinRoom? || e.LeaveRoom? {
      RoomsKeepInv(kdf, s, e);
    } else if e.Relay? || e.Close? {
      RelayAndCloseKeepInv(kdf, s, e);
    } else if e.Ask? || e.SendAnswer? || e.Restart? {
      AnswersKeepInv(kdf, s, e);
    } else if e.Reply? {
      ReplyKeepsInv(kdf, s, e.to, e.text);
    } else {
      DirectoryStepsKeepInv(kdf, s, e);
    }
  }

  // ---------------------------------------------------------------- runs

  /** The state after the events, one after the other. */
  ghost function Run(kdf: Kdf, s: State, events: seq<Event>): (t: State)
    requires Inv(s)
    ensures Ordered(t.shared)
    decreases |events|
  {
    if events == [] then s
    else
      StepKeepsInv(kdf, s, events[0]);
      Run(kdf, Step(kdf, s, events[0]), events[1..])
  }

  /** The invariant holds after any sequence of events. */
  lemma {:induction false} RunKeepsInv(kdf: Kdf, s: State, events: seq<Event>)
    requires Inv(s)
    ensures Inv(Run(kdf, s, events))
    decreases |events|
  {
    if events != [] {
      StepKeepsInv(kdf, s, events[0]);
      RunKeepsInv(kdf, Step(kdf, s, events[0]), events[1..]);
    }
  }

  /** The server after a start with an accounts.json that holds `stored`. */
  function Boot(stored: map<bytes, Account>, table: map<bytes, Row>): State
  {
    State(Started(Loaded(stored), table), map[])
  }

  /** The stores agree after start-up if and only if the table had no row that differs from an account. */
  lemma MigrationAgrees(stored: map<bytes, Account>, table: map<bytes, Row>)
    ensures StoresAgree(Boot(stored, table).shared) <==>
      forall u :: u in table ==> u in stored && table[u] == RowOf(Loaded(stored)[u])
  {
    var accounts := Loaded(stored);
    var t := Migrated(accounts, table);
    LoadedTwice(stored);
    if StoresAgree(Boot(stored, table).shared) {
      forall u | u in table ensures u in accounts && table[u] == RowOf(accounts[u]) {
        assert u in t && t[u] == table[u];
      }
    }
    if forall u :: u in table ==> u in accounts && table[u] == RowOf(accounts[u]) {
      assert t == Rows(accounts);
    }
  }

  /** Whatever accounts.json and the table hold at the first start, in every state of every interleaving,
      restarts included: connected names are valid and pairwise distinct, an authenticated client has an
      account under its current name, an activated one is authenticated, everybody is in the main room or
      in a created one, and accounts.json was written from the accounts of the map. */
  lemma {:induction false} EveryRunIsSafe(kdf: Kdf, stored: map<bytes, Account>, table: map<bytes, Row>,
                                          events: seq<Event>)
    ensures Inv(Boot(stored, table))
    ensures var t := Run(kdf, Boot(stored, table), events).shared;
      && (forall i, j :: i in t.sessions && j in t.sessions && i != j ==> t.sessions[i].name != t.sessions[j].name)
      && (forall i :: i in t.sessions ==>
            var c := t.sessions[i];
            && ValidName(c.name)
            && (c.authed ==> c.name in t.accounts)
            && (c.activated ==> c.authed)
            && (c.room == MAIN || c.room in t.rooms)
            && c.attempts <= MAX_ATTEMPTS)
      && t.file == Loaded(t.accounts)
  {
    StartIsSafe(stored, table);
    var s := Run(kdf, Boot(stored, table), events);
    RunKeepsInv(kdf, Boot(stored, table), events);
    forall i | i in s.shared.sessions ensures SessionOk(s.shared, s.shared.sessions[i], s.pcs[i]) {
    }
  }

  // ---------------------------------------------------------------- who becomes authenticated

  /** Credentials the step accepts: a free name registered with the same password twice, or a
      password checked against the account that was read for the client's own name. */
  predicate Accepts(kdf: Kdf, s: State, e: Event)
  {
    || (e.Register? && Waits(s, e.id) && s.shared.sessions[e.id].name !in s.shared.accounts && e.p1 == e.p2)
    || (e.CheckLogin? && At(s, e.id) && s.pcs[e.id].LoggingIn? && s.pcs[e.id].read.Some?
        && s.pcs[e.id].u == s.shared.sessions[e.id].name && Verify(kdf, s.pcs[e.id].read.value, s.pcs[e.id].pwd))
  }

  /** The rights of a goroutine after a step, given its rights before. */
  ghost predicate Earned(kdf: Kdf, s: State, e: Event, id: Id, t: State)
    requires At(s, id) && At(t, id)
  {
    && (!s.pcs[id].Granted? ==> (t.pcs[id].Granted? <==> Accepts(kdf, s, e) && e.id == id))
    && (!s.shared.sessions[id].authed ==> (t.shared.sessions[id].authed <==> e == Grant(id) && s.pcs[id].Granted?))
    && (s.shared.sessions[id].authed ==> t.shared.sessions[id].authed)
    && (t.shared.sessions[id].name != s.shared.sessions[id].name ==> e.Rename? && e.id == id)
  }

  /** Writing to connections touches nobody's authentication. */
  lemma WritesEarnNothing(s: Shared, t: Shared, id: Id)
    requires SameButOut(s, t) && id in s.sessions
    ensures t.sessions[id].authed == s.sessions[id].authed && t.sessions[id].name == s.sessions[id].name
  {
  }

  lemma ReadingEarnsNothing(kdf: Kdf, s: State, e: Event, id: Id)
    requires Ordered(s.shared) && At(s, id) && (e.TakeTable? || e.Close?)
    ensures Earned(kdf, s, e, id, Step(kdf, s, e))
  {
  }

  lemma SendingEarnsNothing(kdf: Kdf, s: State, i: Id, id: Id)
    requires Ordered(s.shared) && At(s, id)
    ensures Earned(kdf, s, SendTable(i), id, Step(kdf, s, SendTable(i)))
  {
    if At(s, i) && s.pcs[i].Sending? { PostSameButOut(s.shared, i, Text(KeysText(s.pcs[i].entries))); }
    WritesEarnNothing(s.shared, Step(kdf, s, SendTable(i)).shared, id);
  }

  lemma AnnouncingEarnsNothing(kdf: Kdf, s: State, i: Id, id: Id)
    requires Ordered(s.shared) && At(s, id)
    ensures Earned(kdf, s, Announce(i), id, Step(kdf, s, Announce(i)))
  {
    if At(s, i) { BroadcastSameButOut(s.shared, Announcement(s.shared.sessions[i]), Some(i)); }
    WritesEarnNothing(s.shared, Step(kdf, s, Announce(i)).shared, id);
  }

  lemma DirectoryEarnsNothing(kdf: Kdf, s: State, e: Event, id: Id)
    requires Ordered(s.shared) && At(s, id)
    requires e.TakeTable? || e.SendTable? || e.Announce? || e.Close?
    ensures Earned(kdf, s, e, id, Step(kdf, s, e))
  {
    if e.SendTable? {
      SendingEarnsNothing(kdf, s, e.id, id);
    } else if e.Announce? {
      AnnouncingEarnsNothing(kdf, s, e.id, id);
    } else {
      ReadingEarnsNothing(kdf, s, e, id);
    }
  }

  lemma FramesEarnNothing(kdf: Kdf, s: State, e: Event, id: Id)
    requires Ordered(s.shared) && At(s, id) && e.Relay?
    ensures Earned(kdf, s, e, id, Step(kdf, s, e))
  {
    if Waits(s, e.id) && Relayed(e.kind) { RelaySameButOut(s.shared, e.id, e.kind, e.payload); }
    WritesEarnNothing(s.shared, Step(kdf, s, e).shared, id);
  }

  lemma RepliesEarnNothing(kdf: Kdf, s: State, e: Event, id: Id)
    requires Ordered(s.shared) && At(s, id) && e.Reply?
    ensures Earned(kdf, s, e, id, Step(kdf, s, e))
  {
    ReplySameButOut(s.shared, e.to, e.text);
    WritesEarnNothing(s.shared, Step(kdf, s, e).shared, id);
  }

  lemma RelayEarnsNothing(kdf: Kdf, s: State, e: Event, id: Id)
    requires Ordered(s.shared) && At(s, id) && (e.Relay? || e.Reply?)
    ensures Earned(kdf, s, e, id, Step(kdf, s, e))
  {
    if e.Relay? { FramesEarnNothing(kdf, s, e, id); } else { RepliesEarnNothing(kdf, s, e, id); }
  }

  lemma AnswersEarnNothing(kdf: Kdf, s: State, e: Event, id: Id)
    requires Ordered(s.shared) && At(s, id) && (e.Ask? || e.SendAnswer?)
    ensures Earned(kdf, s, e, id, Step(kdf, s, e))
  {
    if e.SendAnswer? && At(s, e.id) && s.pcs[e.id].Answering? {
      PostSameButOut(s.shared, e.id, AnswerOf(s.pcs[e.id]));
      WritesEarnNothing(s.shared, Step(kdf, s, e).shared, id);
    }
  }

  lemma CommandsEarnNothing(kdf: Kdf, s: State, e: Event, id: Id)
    requires Ordered(s.shared) && At(s, id)
    requires e.SetProfile? || e.Rename? || e.SetPassword?
          || e.CreateRoom? || e.EnterRoom? || e.JoinRoom? || e.LeaveRoom?
    ensures Earned(kdf, s, e, id, Step(kdf, s, e))
  {
    if e.SetProfile? || e.Rename? || e.SetPassword? { ProfilesEarnNothing(kdf, s, e, id); }
  }

  lemma ProfilesEarnNothing(kdf: Kdf, s: State, e: Event, id: Id)
    requires Ordered(s.shared) && At(s, id) && (e.SetProfile? || e.Rename? || e.SetPassword?)
    ensures Earned(kdf, s, e, id, Step(kdf, s, e))
  {
  }

  lemma CredentialsEarn(kdf: Kdf, s: State, e: Event, id: Id)
    requires Ordered(s.shared) && At(s, id) && (e.Register? || e.ReadAccount?)
    ensures Earned(kdf, s, e, id, Step(kdf, s, e))
  {
  }

  lemma CheckEarns(kdf: Kdf, s: State, e: Event, id: Id)
    requires Ordered(s.shared) && At(s, id) && e.CheckLogin?
    ensures Earned(kdf, s, e, id, Step(kdf, s, e))
  {
  }

  lemma EntryEarns(kdf: Kdf, s: State, e: Event, id: Id)
    requires Ordered(s.shared) && At(s, id) && (e.Publish? || e.Activate? || e.Grant?)
    ensures Earned(kdf, s, e, id, Step(kdf, s, e))
  {
  }

  lemma LoginEarns(kdf: Kdf, s: State, e: Event, id: Id)
    requires Ordered(s.shared) && At(s, id)
    requires e.Publish? || e.Activate? || e.Register? || e.ReadAccount? || e.CheckLogin? || e.Grant?
    ensures Earned(kdf, s, e, id, Step(kdf, s, e))
  {
    if e.Register? || e.ReadAccount? {
      CredentialsEarn(kdf, s, e, id);
    } else if e.CheckLogin? {
      CheckEarns(kdf, s, e, id);
    } else {
      EntryEarns(kdf, s, e, id);
    }
  }

  /** A goroutine is granted exactly when its step accepts credentials, and a client becomes
      authenticated exactly in the grant of its own goroutine; nobody loses authentication, and a name
      changes only by its own client's rename. */
  lemma AuthenticationIsEarned(kdf: Kdf, s: State, e: Event, id: Id)
    requires Ordered(s.shared) && At(s, id) && At(Step(kdf, s, e), id)
    ensures var t := Step(kdf, s, e);
      && (!s.pcs[id].Granted? ==> (t.pcs[id].Granted? <==> Accepts(kdf, s, e) && e.id == id))
      && (!s.shared.sessions[id].authed ==> (t.shared.sessions[id].authed <==> e == Grant(id) && s.pcs[id].Granted?))
      && (s.shared.sessions[id].authed ==> t.shared.sessions[id].authed)
      && (t.shared.sessions[id].name != s.shared.sessions[id].name ==> e.Rename? && e.id == id)
  {
    match e
    case Connect(_, _) =>
    case Disconnect(_) =>
    case Publish(_, _) => LoginEarns(kdf, s, e, id);
    case Activate(_) => LoginEarns(kdf, s, e, id);
    case Register(_, _, _, _) => LoginEarns(kdf, s, e, id);
    case ReadAccount(_, _, _) => LoginEarns(kdf, s, e, id);
    case CheckLogin(_, _) => LoginEarns(kdf, s, e, id);
    case Grant(_) => LoginEarns(kdf, s, e, id);
    case TakeTable(_) => DirectoryEarnsNothing(kdf, s, e, id);
    case SendTable(_) => DirectoryEarnsNothing(kdf, s, e, id);
    case Announce(_) => DirectoryEarnsNothing(kdf, s, e, id);
    case Close(_) => DirectoryEarnsNothing(kdf, s, e, id);
    case Relay(_, _, _) => RelayEarnsNothing(kdf, s, e, id);
    case Ask(_, _) => AnswersEarnNothing(kdf, s, e, id);
    case SendAnswer(_) => AnswersEarnNothing(kdf, s, e, id);
    case Restart =>
    case Reply(_, _) => RelayEarnsNothing(kdf, s, e, id);
    case _ => CommandsEarnNothing(kdf, s, e, id);
  }
}
