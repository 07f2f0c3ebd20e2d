/**
 Wrong passwords over runs: the server counts the refused logins of a connection since it came or
 was last let in by a login, and at the fifth it closes the connection, which is never let in
 again.
 */
module RefusedLogins {
  import opened Wrappers
  import opened Bytes
  import opened Accounts
  import opened ServerSpec
  import opened Interleaving
  import opened SessionSafety
  import opened Scenarios
  import RelayRules

  /** The step refuses the login of `id`: there is no such account, or the password is not its password. */
  predicate Refuses(kdf: Kdf, s: State, e: Event, id: Id)
  {
    && e.CheckLogin? && e.id == id && At(s, id) && s.pcs[id].LoggingIn?
    && (s.pcs[id].read == None || !Verify(kdf, s.pcs[id].read.value, s.pcs[id].pwd))
  }

  /** The step lets `id` in by a login. */
  predicate LetsIn(s: State, e: Event, id: Id)
  {
    e == Grant(id) && At(s, id) && s.pcs[id] == Granted(true)
  }

  /** The refused logins of `id` since it connected or was last let in by a login. */
  ghost function RefusedSince(kdf: Kdf, s: State, events: seq<Event>, id: Id, before: nat): nat
    requires Inv(s)
    decreases |events|
  {
    if events == [] then before
    else
      StepKeepsInv(kdf, s, events[0]);
      RefusedSince(kdf, Step(kdf, s, events[0]), events[1..], id, RefusedAfter(kdf, s, events[0], id, before))
  }

  /** ... after one more step: a connection that comes or goes has none. */
  ghost function RefusedAfter(kdf: Kdf, s: State, e: Event, id: Id, before: nat): nat
    requires Ordered(s.shared)
  {
    if !At(s, id) || !At(Step(kdf, s, e), id) || LetsIn(s, e, id) then 0
    else if Refuses(kdf, s, e, id) then before + 1
    else before
  }

  // ---------------------------------------------------------------- one step

  lemma CheckCounts(kdf: Kdf, s: State, e: Event, id: Id)
    requires Ordered(s.shared) && At(s, id) && e.CheckLogin?
    ensures var t := Step(kdf, s, e);
      && At(t, id)
      && t.shared.sessions[id].attempts == s.shared.sessions[id].attempts + (if Refuses(kdf, s, e, id) then 1 else 0)
  {
  }

  lemma GrantCounts(kdf: Kdf, s: State, e: Event, id: Id)
    requires Ordered(s.shared) && At(s, id) && e.Grant?
    ensures var t := Step(kdf, s, e);
      && At(t, id)
      && t.shared.sessions[id].attempts == if LetsIn(s, e, id) then 0 else s.shared.sessions[id].attempts
  {
  }

  lemma LoginsLeaveCount(kdf: Kdf, s: State, e: Event, id: Id)
    requires Ordered(s.shared) && At(s, id) && (e.Register? || e.ReadAccount? || e.Publish? || e.Activate?)
    ensures var t := Step(kdf, s, e); At(t, id) && t.shared.sessions[id].attempts == s.shared.sessions[id].attempts
  {
  }

  lemma CommandsLeaveCount(kdf: Kdf, s: State, e: Event, id: Id)
    requires Ordered(s.shared) && At(s, id) && (e.SetProfile? || e.Rename? || e.SetPassword? || e.Ask? || e.TakeTable?)
    ensures var t := Step(kdf, s, e); At(t, id) && t.shared.sessions[id].attempts == s.shared.sessions[id].attempts
  {
  }

  lemma RoomsLeaveCount(kdf: Kdf, s: State, e: Event, id: Id)
    requires Ordered(s.shared) && At(s, id) && (e.CreateRoom? || e.EnterRoom? || e.JoinRoom? || e.LeaveRoom?)
    ensures var t := Step(kdf, s, e); At(t, id) && t.shared.sessions[id].attempts == s.shared.sessions[id].attempts
  {
  }

  lemma WritesLeaveCount(kdf: Kdf, s: State, e: Event, id: Id)
    requires Ordered(s.shared) && At(s, id) && RelayRules.Speaks(e)
    ensures var t := Step(kdf, s, e); At(t, id) && t.shared.sessions[id].attempts == s.shared.sessions[id].attempts
  {
    if e.Relay? && Waits(s, e.id) { RelaySameButOut(s.shared, e.id, e.kind, e.payload); }
  }

  lemma GoingLeavesCount(kdf: Kdf, s: State, e: Event, id: Id)
    requires Ordered(s.shared) && At(s, id) && (e.Connect? || e.Close? || e.Disconnect? || e.Restart?)
    ensures var t := Step(kdf, s, e); At(t, id) ==> t.shared.sessions[id].attempts == s.shared.sessions[id].attempts
  {
  }

  lemma StepCounts(kdf: Kdf, s: State, e: Event, id: Id)
    requires Ordered(s.shared) && At(s, id) && At(Step(kdf, s, e), id)
    ensures Step(kdf, s, e).shared.sessions[id].attempts
         == if LetsIn(s, e, id) then 0
            else s.shared.sessions[id].attempts + (if Refuses(kdf, s, e, id) then 1 else 0)
  {
    if e.CheckLogin? {
      CheckCounts(kdf, s, e, id);
    } else if e.Grant? {
      GrantCounts(kdf, s, e, id);
    } else if e.Register? || e.ReadAccount? || e.Publish? || e.Activate? {
      LoginsLeaveCount(kdf, s, e, id);
    } else if e.SetProfile? || e.Rename? || e.SetPassword? || e.Ask? || e.TakeTable? {
      CommandsLeaveCount(kdf, s, e, id);
    } else if e.CreateRoom? || e.EnterRoom? || e.JoinRoom? || e.LeaveRoom? {
      RoomsLeaveCount(kdf, s, e, id);
    } else if RelayRules.Speaks(e) {
      WritesLeaveCount(kdf, s, e, id);
    } else {
      GoingLeavesCount(kdf, s, e, id);
    }
  }

  lemma ArrivesWithoutAttempts(kdf: Kdf, s: State, e: Event, id: Id)
    requires Inv(s) && !At(s, id) && At(Step(kdf, s, e), id)
    ensures Step(kdf, s, e).shared.sessions[id].attempts == 0
  {
    if e.Relay? && Waits(s, e.id) { RelaySameButOut(s.shared, e.id, e.kind, e.payload); }
  }

  // ---------------------------------------------------------------- runs

  function Counted(s: State, id: Id): nat
  {
    if At(s, id) then s.shared.sessions[id].attempts else 0
  }

  lemma {:induction false} CountIsRefusals(kdf: Kdf, s: State, events: seq<Event>, id: Id)
    requires Inv(s)
    ensures Counted(Run(kdf, s, events), id) == RefusedSince(kdf, s, events, id, Counted(s, id))
    decreases |events|
  {
    if events != [] {
      var e, t := events[0], Step(kdf, s, events[0]);
      StepKeepsInv(kdf, s, e);
      CountIsRefusals(kdf, t, events[1..], id);
      CountedNext(kdf, s, e, id);
    }
  }

  lemma CountedNext(kdf: Kdf, s: State, e: Event, id: Id)
    requires Inv(s)
    ensures Counted(Step(kdf, s, e), id) == RefusedAfter(kdf, s, e, id, Counted(s, id))
  {
    if At(Step(kdf, s, e), id) {
      if At(s, id) { StepCounts(kdf, s, e, id); } else { ArrivesWithoutAttempts(kdf, s, e, id); }
    }
  }

  /** From every start, in every state of every run: the count of a connection is the number of its refused
      logins since it connected or was last let in by a login. It is at most five, and at five the
      connection is being closed. */
  lemma AttemptsAreRefusals(kdf: Kdf, stored: map<bytes, Account>, table: map<bytes, Row>, events: seq<Event>, id: Id)
    ensures Inv(Boot(stored, table))
    ensures var t, n := Run(kdf, Boot(stored, table), events), RefusedSince(kdf, Boot(stored, table), events, id, 0);
      At(t, id) ==>
        && t.shared.sessions[id].attempts == n
        && n <= 5
        && (n == 5 ==> t.pcs[id] == Closing)
  {
    StartIsSafe(stored, table);
    CountIsRefusals(kdf, Boot(stored, table), events, id);
    RunKeepsInv(kdf, Boot(stored, table), events);
    var t := Run(kdf, Boot(stored, table), events);
    if At(t, id) { assert SessionOk(t.shared, t.shared.sessions[id], t.pcs[id]); }
  }

  // ---------------------------------------------------------------- the end of a connection

  /** The goroutine is at its end, and its client's rights are these. */
  ghost predicate Ending(s: State, id: Id, authed: bool)
  {
    At(s, id) && s.pcs[id] == Closing && s.shared.sessions[id].authed == authed
  }

  lemma LoginsAfterEnd(kdf: Kdf, s: State, e: Event, id: Id)
    requires Ordered(s.shared) && At(s, id) && s.pcs[id] == Closing && RelayRules.SetsUp(e) && At(Step(kdf, s, e), id)
    ensures Step(kdf, s, e).pcs[id] == Closing
  {
  }

  lemma CommandsAfterEnd(kdf: Kdf, s: State, e: Event, id: Id)
    requires Ordered(s.shared) && At(s, id) && s.pcs[id] == Closing && At(Step(kdf, s, e), id)
    requires !RelayRules.SetsUp(e) && !RelayRules.Speaks(e)
    ensures Step(kdf, s, e).pcs[id] == Closing
  {
  }

  lemma WritesAfterEnd(kdf: Kdf, s: State, e: Event, id: Id)
    requires Ordered(s.shared) && At(s, id) && s.pcs[id] == Closing && RelayRules.Speaks(e) && At(Step(kdf, s, e), id)
    ensures Step(kdf, s, e).pcs[id] == Closing
  {
  }

  lemma StaysClosing(kdf: Kdf, s: State, e: Event, id: Id)
    requires Ordered(s.shared) && At(s, id) && s.pcs[id] == Closing && At(Step(kdf, s, e), id)
    ensures Step(kdf, s, e).pcs[id] == Closing
  {
    if RelayRules.SetsUp(e) {
      LoginsAfterEnd(kdf, s, e, id);
    } else if RelayRules.Speaks(e) {
      WritesAfterEnd(kdf, s, e, id);
    } else {
      CommandsAfterEnd(kdf, s, e, id);
    }
  }

  lemma StepAfterEnd(kdf: Kdf, s: State, e: Event, id: Id, authed: bool)
    requires Inv(s) && Ending(s, id, authed) && At(Step(kdf, s, e), id)
    ensures Ending(Step(kdf, s, e), id, authed)
  {
    StaysClosing(kdf, s, e, id);
    AuthenticationIsEarned(kdf, s, e, id);
  }

  /** From then on the connection is granted nothing: as long as it lasts it stays at its end with the rights
      it has. */
  lemma {:induction false} NeverLetInAgain(kdf: Kdf, s: State, events: seq<Event>, id: Id, authed: bool)
    requires Inv(s) && Ending(s, id, authed) && RelayRules.StaysConnected(kdf, s, events, id)
    ensures Ending(Run(kdf, s, events), id, authed)
    decreases |events|
  {
    if events != [] {
      StepKeepsInv(kdf, s, events[0]);
      StepAfterEnd(kdf, s, events[0], id, authed);
      NeverLetInAgain(kdf, Step(kdf, s, events[0]), events[1..], id, authed);
    }
  }

  /** After the fifth refused login, whatever happens: the connection is not let in, as long as it lasts. */
  lemma FifthRefusalIsFinal(kdf: Kdf, stored: map<bytes, Account>, table: map<bytes, Row>,
                            before: seq<Event>, after: seq<Event>, id: Id)
    ensures Inv(Boot(stored, table)) && Inv(Run(kdf, Boot(stored, table), before))
    ensures var s := Run(kdf, Boot(stored, table), before);
      && At(s, id) && RefusedSince(kdf, Boot(stored, table), before, id, 0) == 5
      && RelayRules.StaysConnected(kdf, s, after, id)
      ==> Ending(Run(kdf, s, after), id, s.shared.sessions[id].authed)
  {
    AttemptsAreRefusals(kdf, stored, table, before, id);
    RunKeepsInv(kdf, Boot(stored, table), before);
    var s := Run(kdf, Boot(stored, table), before);
    if && At(s, id) && RefusedSince(kdf, Boot(stored, table), before, id, 0) == 5
       && RelayRules.StaysConnected(kdf, s, after, id)
    {
      NeverLetInAgain(kdf, s, after, id, s.shared.sessions[id].authed);
    }
  }

  // ---------------------------------------------------------------- five wrong passwords

  function WrongLogin(id: Id, u: bytes, pwd: bytes, salt: bytes): seq<Event>
  {
    [ReadAccount(id, u, pwd)] + [CheckLogin(id, salt)]
  }

  function FiveWrong(id: Id, u: bytes, pwd: bytes, salt: bytes): seq<Event>
  {
    var w := WrongLogin(id, u, pwd, salt);
    w + w + w + w + w
  }

  /** `u` has no account that opens to the password. */
  predicate Wrong(kdf: Kdf, accounts: map<bytes, Account>, u: bytes, pwd: bytes)
  {
    u in accounts ==> !Verify(kdf, accounts[u], pwd)
  }

  /** The connection has had `n` logins refused and nothing granted. */
  ghost predicate Tried(s: State, accounts: map<bytes, Account>, id: Id, n: nat)
  {
    && Inv(s) && At(s, id) && s.shared.accounts == accounts
    && s.shared.sessions[id].attempts == n && !s.shared.sessions[id].authed
    && s.pcs[id] == if n >= 5 then Closing else Idle
  }

  lemma ReadIs(kdf: Kdf, s: State, id: Id, u: bytes, pwd: bytes)
    requires Ordered(s.shared) && Waits(s, id)
    ensures Step(kdf, s, ReadAccount(id, u, pwd))
         == Goto(s, s.shared, id, LoggingIn(u, Lookup(s.shared.accounts, u), pwd))
  {
  }

  lemma RefusalIs(kdf: Kdf, s: State, id: Id, salt: bytes)
    requires Ordered(s.shared) && Refuses(kdf, s, CheckLogin(id, salt), id)
    ensures var t, n := Step(kdf, s, CheckLogin(id, salt)), s.shared.sessions[id].attempts + 1;
      && At(t, id) && t.shared.accounts == s.shared.accounts
      && t.shared.sessions[id].attempts == n && t.shared.sessions[id].authed == s.shared.sessions[id].authed
      && t.pcs[id] == if n >= 5 then Closing else Idle
  {
  }

  lemma TriedOnceMore(kdf: Kdf, s: State, accounts: map<bytes, Account>, id: Id, u: bytes, pwd: bytes, salt: bytes,
                      n: nat)
    requires Tried(s, accounts, id, n) && n < 5 && Wrong(kdf, accounts, u, pwd)
    ensures Tried(Run(kdf, s, WrongLogin(id, u, pwd, salt)), accounts, id, n + 1)
  {
    RunThen(kdf, s, [ReadAccount(id, u, pwd)], CheckLogin(id, salt));
    RunOne(kdf, s, ReadAccount(id, u, pwd));
    ReadIs(kdf, s, id, u, pwd);
    RefusalIs(kdf, Step(kdf, s, ReadAccount(id, u, pwd)), id, salt);
  }

  lemma TriedOften(kdf: Kdf, s: State, accounts: map<bytes, Account>, id: Id, u: bytes, pwd: bytes, salt: bytes)
    requires Inv(s) && Tried(s, accounts, id, 0) && Wrong(kdf, accounts, u, pwd)
    ensures Tried(Run(kdf, s, FiveWrong(id, u, pwd, salt)), accounts, id, 5)
  {
    var w := WrongLogin(id, u, pwd, salt);
    TriedOnceMore(kdf, s, accounts, id, u, pwd, salt, 0);
    TriedThen(kdf, s, accounts, id, w, u, pwd, salt, 1);
    TriedThen(kdf, s, accounts, id, w + w, u, pwd, salt, 2);
    TriedThen(kdf, s, accounts, id, w + w + w, u, pwd, salt, 3);
    TriedThen(kdf, s, accounts, id, w + w + w + w, u, pwd, salt, 4);
  }

  lemma TriedThen(kdf: Kdf, s: State, accounts: map<bytes, Account>, id: Id, first: seq<Event>,
                  u: bytes, pwd: bytes, salt: bytes, n: nat)
    requires Inv(s) && Tried(Run(kdf, s, first), accounts, id, n) && n < 5 && Wrong(kdf, accounts, u, pwd)
    ensures Tried(Run(kdf, s, first + WrongLogin(id, u, pwd, salt)), accounts, id, n + 1)
  {
    RunAppend(kdf, s, first, WrongLogin(id, u, pwd, salt));
    TriedOnceMore(kdf, Run(kdf, s, first), accounts, id, u, pwd, salt, n);
  }

  /** The run: a new connection and five wrong passwords. The right one afterwards, or anything else, does not
      let it in. */
  lemma FiveWrongPasswords(kdf: Kdf, s: State, id: Id, name: bytes, u: bytes, pwd: bytes, salt: bytes,
                           after: seq<Event>)
    requires Inv(s) && Free(s, id, name) && Wrong(kdf, s.shared.accounts, u, pwd)
    ensures var t := Run(kdf, s, [Connect(id, name)] + FiveWrong(id, u, pwd, salt));
      && Inv(t) && Ending(t, id, false)
      && (RelayRules.StaysConnected(kdf, t, after, id) ==> Ending(Run(kdf, t, after), id, false))
  {
    RunAppend(kdf, s, [Connect(id, name)], FiveWrong(id, u, pwd, salt));
    RunOne(kdf, s, Connect(id, name));
    ConnectAdmits(kdf, s, id, name);
    var m := Run(kdf, s, [Connect(id, name)]);
    assert Tried(m, s.shared.accounts, id, 0);
    TriedOften(kdf, m, s.shared.accounts, id, u, pwd, salt);
    var t := Run(kdf, m, FiveWrong(id, u, pwd, salt));
    assert Tried(t, s.shared.accounts, id, 5);
    if RelayRules.StaysConnected(kdf, t, after, id) { NeverLetInAgain(kdf, t, after, id, false); }
  }
}
