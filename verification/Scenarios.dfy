/**
 Stretches of runs that occur again and again: a client connects and registers, or connects and
 logs in to a legacy account, and is activated. They turn statements about states into
 statements about runs from the start of the server.
 */
module Scenarios {
  import opened Wrappers
  import opened Bytes
  import opened Accounts
  import opened Directory
  import opened ServerSpec
  import opened Interleaving
  import opened SessionSafety

  // ---------------------------------------------------------------- runs in pieces

  lemma {:induction false} RunAppend(kdf: Kdf, s: State, a: seq<Event>, b: seq<Event>)
    requires Inv(s)
    ensures Inv(Run(kdf, s, a))
    ensures Run(kdf, s, a + b) == Run(kdf, Run(kdf, s, a), b)
    decreases |a|
  {
    RunKeepsInv(kdf, s, a);
    if a == [] {
      assert a + b == b;
    } else {
      assert (a + b)[1..] == a[1..] + b;
      StepKeepsInv(kdf, s, a[0]);
      RunAppend(kdf, Step(kdf, s, a[0]), a[1..], b);
    }
  }

  lemma RunOne(kdf: Kdf, s: State, e: Event)
    requires Inv(s)
    ensures Inv(Step(kdf, s, e)) && Run(kdf, s, [e]) == Step(kdf, s, e)
  {
    StepKeepsInv(kdf, s, e);
    assert [e][1..] == [];
    assert Run(kdf, Step(kdf, s, e), []) == Step(kdf, s, e);
  }

  /** One more event at the end of a run. */
  lemma RunThen(kdf: Kdf, s: State, a: seq<Event>, e: Event)
    requires Inv(s)
    ensures Inv(Run(kdf, s, a)) && Inv(Run(kdf, s, a + [e]))
    ensures Run(kdf, s, a + [e]) == Step(kdf, Run(kdf, s, a), e)
  {
    RunAppend(kdf, s, a, [e]);
    RunOne(kdf, Run(kdf, s, a), e);
  }

  // ---------------------------------------------------------------- activation

  /** The same client, but for what has been written to it. */
  ghost predicate Unmoved(c: Session, d: Session)
  {
    d == c.(out := d.out)
  }

  /** Between `s` and `t` only the goroutine of `id` has moved: accounts, rooms and everybody else are
      as before, and its client is `c` but for what has been written to it. */
  ghost predicate OnlyMoved(s: State, t: State, id: Id, c: Session, pc: Pc)
  {
    && t.shared == s.shared.(sessions := t.shared.sessions)
    && t.shared.sessions.Keys == s.shared.sessions.Keys && id in s.shared.sessions
    && t.pcs == s.pcs[id := pc]
    && Unmoved(c, t.shared.sessions[id])
    && forall i :: i in s.shared.sessions && i != id ==> Unmoved(s.shared.sessions[i], t.shared.sessions[i])
  }

  lemma MovedOn(s: State, t: State, u: State, id: Id, c: Session, pc: Pc, d: Session, pd: Pc)
    requires OnlyMoved(s, t, id, c, pc) && OnlyMoved(t, u, id, d, pd)
    ensures OnlyMoved(s, u, id, d, pd)
  {
    forall i | i in s.shared.sessions && i != id ensures Unmoved(s.shared.sessions[i], u.shared.sessions[i]) {
      assert Unmoved(s.shared.sessions[i], t.shared.sessions[i]) && Unmoved(t.shared.sessions[i], u.shared.sessions[i]);
    }
  }

  function Activation(id: Id): seq<Event>
  {
    [Grant(id)] + [Event.Activate(id)] + [TakeTable(id)] + [SendTable(id)] + [Announce(id)]
  }

  /** The client in the course of its activation. */
  function Entered(c: Session, byLogin: bool): Session
  {
    if byLogin then c.(authed := true, attempts := 0) else c.(authed := true)
  }

  lemma GrantMoves(kdf: Kdf, s: State, id: Id)
    requires Ordered(s.shared) && At(s, id) && s.pcs[id].Granted?
    ensures OnlyMoved(s, Step(kdf, s, Grant(id)), id, Entered(s.shared.sessions[id], s.pcs[id].byLogin), Activating)
  {
  }

  lemma ActivateMoves(kdf: Kdf, s: State, id: Id)
    requires Ordered(s.shared) && At(s, id) && s.pcs[id] == Activating && !s.shared.sessions[id].activated
    ensures OnlyMoved(s, Step(kdf, s, Event.Activate(id)), id, s.shared.sessions[id].(activated := true), Taking)
  {
  }

  lemma TableMoves(kdf: Kdf, s: State, id: Id)
    requires Ordered(s.shared) && At(s, id) && s.pcs[id] == Taking
    ensures OnlyMoved(s, Step(kdf, s, TakeTable(id)), id, s.shared.sessions[id],
                      Sending(Entries(s.shared.sessions, s.shared.order, 0)))
  {
  }

  lemma SendMoves(kdf: Kdf, s: State, id: Id)
    requires Ordered(s.shared) && At(s, id) && s.pcs[id].Sending?
    ensures OnlyMoved(s, Step(kdf, s, SendTable(id)), id, s.shared.sessions[id], Announcing)
  {
  }

  lemma AnnounceMoves(kdf: Kdf, s: State, id: Id)
    requires Ordered(s.shared) && At(s, id) && s.pcs[id] == Announcing
    ensures OnlyMoved(s, Step(kdf, s, Announce(id)), id, s.shared.sessions[id], Idle)
  {
  }

  /** A client whose credentials have been accepted is activated and told the directory. */
  lemma Activates(kdf: Kdf, s: State, id: Id)
    requires Inv(s) && At(s, id) && s.pcs[id].Granted? && !s.shared.sessions[id].activated
    ensures Inv(Run(kdf, s, Activation(id)))
    ensures OnlyMoved(s, Run(kdf, s, Activation(id)), id,
                      Entered(s.shared.sessions[id], s.pcs[id].byLogin).(activated := true), Idle)
  {
    var c := Entered(s.shared.sessions[id], s.pcs[id].byLogin);
    var d := c.(activated := true);
    RunOne(kdf, s, Grant(id));
    var s1 := Step(kdf, s, Grant(id));
    GrantMoves(kdf, s, id);
    RunThen(kdf, s, [Grant(id)], Event.Activate(id));
    var s2 := Step(kdf, s1, Event.Activate(id));
    ActivateMoves(kdf, s1, id);
    MovedOn(s, s1, s2, id, c, Activating, s1.shared.sessions[id].(activated := true), Taking);
    RunThen(kdf, s, [Grant(id)] + [Event.Activate(id)], TakeTable(id));
    var s3 := Step(kdf, s2, TakeTable(id));
    TableMoves(kdf, s2, id);
    MovedOn(s, s2, s3, id, d, Taking, s2.shared.sessions[id], s3.pcs[id]);
    RunThen(kdf, s, [Grant(id)] + [Event.Activate(id)] + [TakeTable(id)], SendTable(id));
    var s4 := Step(kdf, s3, SendTable(id));
    SendMoves(kdf, s3, id);
    MovedOn(s, s3, s4, id, d, s3.pcs[id], s3.shared.sessions[id], Announcing);
    RunThen(kdf, s, [Grant(id)] + [Event.Activate(id)] + [TakeTable(id)] + [SendTable(id)], Announce(id));
    AnnounceMoves(kdf, s4, id);
    MovedOn(s, s4, Step(kdf, s4, Announce(id)), id, d, Announcing, s4.shared.sessions[id], Idle);
  }

  // ---------------------------------------------------------------- joining

  /** A client named `name` with this key has joined: it is activated and waits, the accounts are
      `accounts`, and everybody else is as before. */
  ghost predicate Joined(s: State, t: State, id: Id, name: bytes, key: bytes, accounts: map<bytes, Account>)
  {
    && t.shared.order == s.shared.order + [id] && t.shared.rooms == s.shared.rooms
    && t.shared.accounts == accounts
    && t.shared.sessions.Keys == s.shared.sessions.Keys + {id}
    && t.pcs == s.pcs[id := Idle]
    && Unmoved(Session(name, MAIN, key, true, true, 0, []), t.shared.sessions[id])
    && forall i :: i in s.shared.sessions ==> Unmoved(s.shared.sessions[i], t.shared.sessions[i])
  }

  function RegistrationOf(id: Id, name: bytes, payload: bytes, pwd: bytes, salt: bytes): seq<Event>
  {
    [Connect(id, name)] + [Publish(id, payload)] + [Event.Register(id, pwd, pwd, salt)]
  }

  function JoinOf(id: Id, name: bytes, payload: bytes, pwd: bytes, salt: bytes): seq<Event>
  {
    RegistrationOf(id, name, payload, pwd, salt) + Activation(id)
  }

  /** The name is valid and free, in the list of clients and among the accounts. */
  ghost predicate Free(s: State, id: Id, name: bytes)
  {
    id !in s.shared.sessions && ValidName(name) && !NameInUse(s.shared, name)
  }

  /** The state when a new client has been accepted, its account is `acc` and its credentials have been granted. */
  function Admitted(s: State, id: Id, c: Session, acc: Account, byLogin: bool): State
  {
    State(Save(s.shared.(order := s.shared.order + [id], sessions := s.shared.sessions[id := c]), c.name, acc),
          s.pcs[id := Granted(byLogin)])
  }

  /** The state when a new client is in the list and nothing else has changed. */
  function Arrived(s: State, id: Id, c: Session, pc: Pc): State
  {
    State(s.shared.(order := s.shared.order + [id], sessions := s.shared.sessions[id := c]), s.pcs[id := pc])
  }

  lemma ConnectAdmits(kdf: Kdf, s: State, id: Id, name: bytes)
    requires Inv(s) && Free(s, id, name)
    ensures Step(kdf, s, Connect(id, name)) == Arrived(s, id, NEW_SESSION(name), Idle)
  {
    ValidNameIsPlain(name);
  }

  lemma PublishArrived(kdf: Kdf, s: State, id: Id, c: Session, payload: bytes)
    requires Ordered(Arrived(s, id, c, Idle).shared) && !c.authed && |Split(payload, NUL)| >= 2
    ensures Step(kdf, Arrived(s, id, c, Idle), Publish(id, payload))
         == Arrived(s, id, c.(key := Split(payload, NUL)[1]), Idle)
  {
  }

  lemma RegisterGoes(kdf: Kdf, x: State, id: Id, pwd: bytes, salt: bytes, t: Shared)
    requires Ordered(x.shared) && Waits(x, id)
    requires ServerSpec.Register(kdf, x.shared, x.shared.sessions[id].name, pwd, pwd, salt) == Some(t)
    ensures Step(kdf, x, Event.Register(id, pwd, pwd, salt)) == Goto(x, t, id, Granted(false))
  {
  }

  lemma SavedIs(s: State, id: Id, c: Session, acc: Account)
    ensures Goto(Arrived(s, id, c, Idle), Save(Arrived(s, id, c, Idle).shared, c.name, acc), id, Granted(false))
         == Admitted(s, id, c, acc, false)
  {
    assert s.pcs[id := Idle][id := Granted(false)] == s.pcs[id := Granted(false)];
  }

  lemma RegisterArrived(kdf: Kdf, s: State, id: Id, c: Session, pwd: bytes, salt: bytes)
    requires Ordered(Arrived(s, id, c, Idle).shared) && c.name !in s.shared.accounts
    ensures Step(kdf, Arrived(s, id, c, Idle), Event.Register(id, pwd, pwd, salt))
         == Admitted(s, id, c, NewAccount(kdf, c.name, pwd, salt), false)
  {
    var x, acc := Arrived(s, id, c, Idle), NewAccount(kdf, c.name, pwd, salt);
    RegisterGoes(kdf, x, id, pwd, salt, Save(x.shared, c.name, acc));
    SavedIs(s, id, c, acc);
  }

  lemma ReadArrived(kdf: Kdf, s: State, id: Id, c: Session, u: bytes, pwd: bytes)
    requires Ordered(Arrived(s, id, c, Idle).shared) && u in s.shared.accounts
    ensures Step(kdf, Arrived(s, id, c, Idle), ReadAccount(id, u, pwd))
         == Arrived(s, id, c, LoggingIn(u, Some(s.shared.accounts[u]), pwd))
  {
  }

  lemma CheckArrived(kdf: Kdf, s: State, id: Id, c: Session, read: Account, pwd: bytes, salt: bytes)
    requires Ordered(Arrived(s, id, c, Idle).shared) && Legacy(read) && Verify(kdf, read, pwd)
    ensures Step(kdf, Arrived(s, id, c, LoggingIn(c.name, Some(read), pwd)), CheckLogin(id, salt))
         == Admitted(s, id, c, Rekey(kdf, read, pwd, salt), true)
  {
    var x, pc := Arrived(s, id, c, LoggingIn(c.name, Some(read), pwd)), LoggingIn(c.name, Some(read), pwd);
    assert x.pcs[id] == pc;
    assert s.pcs[id := pc][id := Granted(true)] == s.pcs[id := Granted(true)];
  }

  lemma Registers(kdf: Kdf, s: State, id: Id, name: bytes, payload: bytes, pwd: bytes, salt: bytes)
    requires Inv(s) && Free(s, id, name) && name !in s.shared.accounts && |Split(payload, NUL)| >= 2
    ensures Inv(Run(kdf, s, RegistrationOf(id, name, payload, pwd, salt)))
    ensures Run(kdf, s, RegistrationOf(id, name, payload, pwd, salt)) ==
      Admitted(s, id, NEW_SESSION(name).(key := Split(payload, NUL)[1]), NewAccount(kdf, name, pwd, salt), false)
  {
    var c := NEW_SESSION(name);
    var e1, e2, e3 := Connect(id, name), Publish(id, payload), Event.Register(id, pwd, pwd, salt);
    RunOne(kdf, s, e1);
    ConnectAdmits(kdf, s, id, name);
    RunThen(kdf, s, [e1], e2);
    PublishArrived(kdf, s, id, c, payload);
    RunThen(kdf, s, [e1] + [e2], e3);
    RegisterArrived(kdf, s, id, c.(key := Split(payload, NUL)[1]), pwd, salt);
  }

  /** A client connects under a free name, publishes its key, registers and is activated. */
  lemma Joins(kdf: Kdf, s: State, id: Id, name: bytes, payload: bytes, pwd: bytes, salt: bytes)
    requires Inv(s) && Free(s, id, name) && name !in s.shared.accounts && |Split(payload, NUL)| >= 2
    ensures var t := Run(kdf, s, JoinOf(id, name, payload, pwd, salt));
      && Inv(t)
      && Joined(s, t, id, name, Split(payload, NUL)[1], s.shared.accounts[name := NewAccount(kdf, name, pwd, salt)])
  {
    Registers(kdf, s, id, name, payload, pwd, salt);
    var m := Run(kdf, s, RegistrationOf(id, name, payload, pwd, salt));
    RunAppend(kdf, s, RegistrationOf(id, name, payload, pwd, salt), Activation(id));
    Activates(kdf, m, id);
    AdmittedJoins(kdf, s, id, NEW_SESSION(name).(key := Split(payload, NUL)[1]), NewAccount(kdf, name, pwd, salt),
                  false, Run(kdf, m, Activation(id)));
  }

  lemma AdmittedJoins(kdf: Kdf, s: State, id: Id, c: Session, acc: Account, byLogin: bool, t: State)
    requires id !in s.shared.sessions && c == NEW_SESSION(c.name).(key := c.key)
    requires OnlyMoved(Admitted(s, id, c, acc, byLogin), t, id, Entered(c, byLogin).(activated := true), Idle)
    ensures Joined(s, t, id, c.name, c.key, s.shared.accounts[c.name := acc])
  {
    var m := Admitted(s, id, c, acc, byLogin);
    forall i | i in s.shared.sessions ensures Unmoved(s.shared.sessions[i], t.shared.sessions[i]) {
      assert m.shared.sessions[i] == s.shared.sessions[i] && i != id;
    }
  }

  function LegacyLoginOf(id: Id, name: bytes, pwd: bytes, salt: bytes): seq<Event>
  {
    [Connect(id, name)] + [ReadAccount(id, name, pwd)] + [CheckLogin(id, salt)]
  }

  function ReturnOf(id: Id, name: bytes, pwd: bytes, salt: bytes): seq<Event>
  {
    LegacyLoginOf(id, name, pwd, salt) + Activation(id)
  }

  lemma LogsIn(kdf: Kdf, s: State, id: Id, name: bytes, pwd: bytes, salt: bytes)
    requires Inv(s) && Free(s, id, name) && name in s.shared.accounts
    requires Legacy(s.shared.accounts[name]) && Verify(kdf, s.shared.accounts[name], pwd)
    ensures Inv(Run(kdf, s, LegacyLoginOf(id, name, pwd, salt)))
    ensures Run(kdf, s, LegacyLoginOf(id, name, pwd, salt)) ==
      Admitted(s, id, NEW_SESSION(name), Rekey(kdf, s.shared.accounts[name], pwd, salt), true)
  {
    var c, read := NEW_SESSION(name), s.shared.accounts[name];
    var e1, e2, e3 := Connect(id, name), ReadAccount(id, name, pwd), CheckLogin(id, salt);
    RunOne(kdf, s, e1);
    ConnectAdmits(kdf, s, id, name);
    RunThen(kdf, s, [e1], e2);
    ReadArrived(kdf, s, id, c, name, pwd);
    RunThen(kdf, s, [e1] + [e2], e3);
    CheckArrived(kdf, s, id, c, read, pwd, salt);
  }

  /** A client connects under a free name, logs in to the legacy account of that name, which is
      upgraded, and is activated. */
  lemma Returns(kdf: Kdf, s: State, id: Id, name: bytes, pwd: bytes, salt: bytes)
    requires Inv(s) && Free(s, id, name) && name in s.shared.accounts
    requires Legacy(s.shared.accounts[name]) && Verify(kdf, s.shared.accounts[name], pwd)
    ensures var t := Run(kdf, s, ReturnOf(id, name, pwd, salt));
      && Inv(t)
      && Joined(s, t, id, name, [], s.shared.accounts[name := Rekey(kdf, s.shared.accounts[name], pwd, salt)])
  {
    LogsIn(kdf, s, id, name, pwd, salt);
    var m := Run(kdf, s, LegacyLoginOf(id, name, pwd, salt));
    RunAppend(kdf, s, LegacyLoginOf(id, name, pwd, salt), Activation(id));
    Activates(kdf, m, id);
    AdmittedJoins(kdf, s, id, NEW_SESSION(name), Rekey(kdf, s.shared.accounts[name], pwd, salt), true,
                  Run(kdf, m, Activation(id)));
  }

  /** Somebody else's arrival does not move a client that was there. */
  lemma StillThere(s: State, t: State, id: Id, name: bytes, key: bytes, accounts: map<bytes, Account>, j: Id)
    requires Joined(s, t, id, name, key, accounts) && At(s, j) && j != id
    ensures At(t, j) && t.pcs[j] == s.pcs[j] && Unmoved(s.shared.sessions[j], t.shared.sessions[j])
  {
  }
}
