/**
 The accounts table over runs with restarts. A start leaves existing rows alone and loads the
 accounts from a file that carries text only, so row and account of a name part exactly at a
 restart that finds a profile which is not text, and come together again at the next write.
 */
module StoreAgreement {
  import opened Bytes
  import opened Accounts
  import opened Profile
  import opened ServerSpec
  import opened Interleaving
  import opened SessionSafety
  import opened AccountSources
  import opened AccountHistory
  import opened StoredText

  /** The table has the row of the account under this name, and none when there is no account. */
  predicate RowAgrees(t: Shared, u: bytes)
  {
    if u in t.accounts then u in t.table && t.table[u] == RowOf(t.accounts[u]) else u !in t.table
  }

  lemma AgreeByRows(t: Shared)
    ensures t.table == Rows(t.accounts) <==> forall u :: RowAgrees(t, u)
  {
    if forall u :: RowAgrees(t, u) {
      forall u ensures u in t.table <==> u in t.accounts {
        assert RowAgrees(t, u);
      }
      forall u | u in t.table ensures t.table[u] == Rows(t.accounts)[u] {
        assert RowAgrees(t, u);
      }
      assert t.table == Rows(t.accounts);
    }
  }

  /** The step saves the account of the name, or moves it to or from it. */
  predicate Writes(kdf: Kdf, s: State, e: Event, u: bytes)
  {
    || (Registers(s, e) && u == s.shared.sessions[e.id].name)
    || (Upgrades(kdf, s, e) && u == s.pcs[e.id].u)
    || (Renames(s, e) && (u == s.shared.sessions[e.id].name || u == e.nu))
    || (Edits(kdf, s, e) && u == s.shared.sessions[e.id].name)
  }

  /** The step edits the profile or the password of its client. */
  predicate Edits(kdf: Kdf, s: State, e: Event)
  {
    match e
    case SetProfile(id, rest) =>
      Commands(s, id) && ServerSpec.SetProfile(s.shared, s.shared.sessions[id].name, ParsePairs(rest)).Some?
    case SetPassword(id, oldPwd, newPwd, salt) =>
      Commands(s, id) && ServerSpec.SetPassword(kdf, s.shared, s.shared.sessions[id].name, oldPwd, newPwd, salt).Some?
    case _ => false
  }

  // ---------------------------------------------------------------- one step

  /** Row and account of the name are those they were. */
  ghost predicate Untouched(s: Shared, t: Shared, u: bytes)
  {
    && (u in t.accounts <==> u in s.accounts) && (u in t.accounts ==> t.accounts[u] == s.accounts[u])
    && (u in t.table <==> u in s.table) && (u in t.table ==> t.table[u] == s.table[u])
  }

  /** What a step that is no restart does to a name: it writes it, or leaves it alone. */
  ghost predicate Written(kdf: Kdf, s: State, e: Event, u: bytes)
    requires Ordered(s.shared)
  {
    var t := Step(kdf, s, e).shared;
    if Writes(kdf, s, e, u) then RowAgrees(t, u) else Untouched(s.shared, t, u)
  }

  lemma RegisterWrites(kdf: Kdf, s: State, e: Event, u: bytes)
    requires Ordered(s.shared) && e.Register?
    ensures Written(kdf, s, e, u)
  {
  }

  lemma ReadWrites(kdf: Kdf, s: State, e: Event, u: bytes)
    requires Ordered(s.shared) && e.ReadAccount?
    ensures Written(kdf, s, e, u)
  {
  }

  lemma CheckWrites(kdf: Kdf, s: State, e: Event, u: bytes)
    requires Ordered(s.shared) && e.CheckLogin?
    ensures Written(kdf, s, e, u)
  {
  }

  lemma EditWrites(kdf: Kdf, s: State, e: Event, u: bytes)
    requires Ordered(s.shared) && (e.SetProfile? || e.SetPassword?)
    ensures Written(kdf, s, e, u)
  {
  }

  lemma RenameWrites(kdf: Kdf, s: State, e: Event, u: bytes)
    requires Ordered(s.shared) && e.Rename?
    ensures Written(kdf, s, e, u)
  {
  }

  lemma OthersWriteNothing(kdf: Kdf, s: State, e: Event)
    requires Ordered(s.shared) && !TouchesAccounts(e)
    ensures Step(kdf, s, e).shared.accounts == s.shared.accounts && Step(kdf, s, e).shared.table == s.shared.table
  {
    OthersSameAccounts(kdf, s, e);
    if e.Relay? {
      if Waits(s, e.id) { RelaySameButOut(s.shared, e.id, e.kind, e.payload); }
    } else if e.CreateRoom? || e.EnterRoom? || e.JoinRoom? || e.LeaveRoom? {
      RoomsLeaveTable(kdf, s, e);
    } else if e.Close? || e.Disconnect? || e.Connect? || e.Publish? {
      ConnectionsLeaveTable(kdf, s, e);
    } else {
      DirectoryLeavesTable(kdf, s, e);
    }
  }

  lemma RoomsLeaveTable(kdf: Kdf, s: State, e: Event)
    requires Ordered(s.shared) && (e.CreateRoom? || e.EnterRoom? || e.JoinRoom? || e.LeaveRoom?)
    ensures Step(kdf, s, e).shared.table == s.shared.table
  {
  }

  lemma ConnectionsLeaveTable(kdf: Kdf, s: State, e: Event)
    requires Ordered(s.shared) && (e.Close? || e.Disconnect? || e.Connect? || e.Publish?)
    ensures Step(kdf, s, e).shared.table == s.shared.table
  {
  }

  lemma DirectoryLeavesTable(kdf: Kdf, s: State, e: Event)
    requires Ordered(s.shared)
    requires e.Activate? || e.Grant? || e.TakeTable? || e.SendTable? || e.Announce?
          || e.Ask? || e.SendAnswer? || e.Reply?
    ensures Step(kdf, s, e).shared.table == s.shared.table
  {
  }

  lemma StepWrites(kdf: Kdf, s: State, e: Event, u: bytes)
    requires Inv(s) && !e.Restart?
    ensures Written(kdf, s, e, u)
  {
    if e.Register? {
      RegisterWrites(kdf, s, e, u);
    } else if e.ReadAccount? {
      ReadWrites(kdf, s, e, u);
    } else if e.CheckLogin? {
      CheckWrites(kdf, s, e, u);
    } else if e.SetProfile? || e.SetPassword? {
      EditWrites(kdf, s, e, u);
    } else if e.Rename? {
      RenameWrites(kdf, s, e, u);
    } else {
      OthersWriteNothing(kdf, s, e);
      NothingWritten(kdf, s, e, u);
    }
  }

  lemma NothingWritten(kdf: Kdf, s: State, e: Event, u: bytes)
    requires Ordered(s.shared) && !TouchesAccounts(e)
    requires Step(kdf, s, e).shared.accounts == s.shared.accounts && Step(kdf, s, e).shared.table == s.shared.table
    ensures Written(kdf, s, e, u)
  {
    assert !Writes(kdf, s, e, u);
  }

  // ---------------------------------------------------------------- restarts

  /** Every account has a row, and one that differs was loaded by a start, hence is text. */
  ghost predicate Settled(t: Shared)
  {
    forall u :: u in t.accounts ==> u in t.table && (RowAgrees(t, u) || TextProfile(t.accounts[u]))
  }

  lemma BootIsSettled(stored: map<bytes, Account>, table: map<bytes, Row>)
    ensures Settled(Boot(stored, table).shared)
  {
    forall u | u in stored ensures TextProfile(LoadedAccount(u, stored[u])) {
      LoadedIsTextual(u, stored[u]);
    }
  }

  lemma StepKeepsSettled(kdf: Kdf, s: State, e: Event)
    requires Inv(s) && Settled(s.shared)
    ensures Settled(Step(kdf, s, e).shared)
  {
    if e.Restart? {
      RestartIsBoot(kdf, s);
      BootIsSettled(s.shared.accounts, s.shared.table);
    } else {
      var t := Step(kdf, s, e).shared;
      forall u | u in t.accounts ensures u in t.table && (RowAgrees(t, u) || TextProfile(t.accounts[u])) {
        StepWrites(kdf, s, e, u);
      }
    }
  }

  /** A restart parts row and account exactly when the profile is not text, and mends nothing. */
  lemma RestartParts(kdf: Kdf, s: State, u: bytes)
    requires Inv(s) && AllTextual(s) && Settled(s.shared)
    ensures RowAgrees(Step(kdf, s, Restart).shared, u) <==>
      RowAgrees(s.shared, u) && (u in s.shared.accounts ==> TextProfile(s.shared.accounts[u]))
  {
    RestartIsBoot(kdf, s);
    if u in s.shared.accounts {
      assert Held(s, u, s.shared.accounts[u]);
      LoadedIsSame(u, s.shared.accounts[u]);
    }
  }

  // ---------------------------------------------------------------- runs

  /** Row and account of the name go together, as a caller can tell from the events: they do after every
      write, and no longer after a restart that finds a profile under the name that is not text. */
  ghost predicate GoTogether(kdf: Kdf, s: State, events: seq<Event>, u: bytes, before: bool)
    requires Inv(s)
    decreases |events|
  {
    if events == [] then before
    else
      StepKeepsInv(kdf, s, events[0]);
      var lost := events[0].Restart? && u in s.shared.accounts && !TextProfile(s.shared.accounts[u]);
      GoTogether(kdf, Step(kdf, s, events[0]), events[1..], u, Writes(kdf, s, events[0], u) || (before && !lost))
  }

  lemma {:induction false} AgreeInRuns(kdf: Kdf, s: State, events: seq<Event>, u: bytes)
    requires Inv(s) && AllTextual(s) && Settled(s.shared)
    ensures RowAgrees(Run(kdf, s, events).shared, u) <==> GoTogether(kdf, s, events, u, RowAgrees(s.shared, u))
    decreases |events|
  {
    if events != [] {
      var e, t := events[0], Step(kdf, s, events[0]);
      StepKeepsInv(kdf, s, e);
      StepKeepsTextual(kdf, s, e);
      StepKeepsSettled(kdf, s, e);
      if e.Restart? { RestartParts(kdf, s, u); } else { StepWrites(kdf, s, e, u); }
      AgreeInRuns(kdf, t, events[1..], u);
    }
  }

  /** From every start, over every run with restarts: the table has the row of an account if and only if the
      two agreed at the start, or the name has been written since, and no restart after that found a
      profile that is not text. */
  lemma RowAgreesIff(kdf: Kdf, stored: map<bytes, Account>, table: map<bytes, Row>, events: seq<Event>, u: bytes)
    ensures Inv(Boot(stored, table))
    ensures RowAgrees(Boot(stored, table).shared, u) <==>
      (u in table ==> u in stored && table[u] == RowOf(Loaded(stored)[u]))
    ensures RowAgrees(Run(kdf, Boot(stored, table), events).shared, u) <==>
      GoTogether(kdf, Boot(stored, table), events, u, RowAgrees(Boot(stored, table).shared, u))
  {
    StartIsSafe(stored, table);
    BootIsTextual(stored, table);
    BootIsSettled(stored, table);
    AgreeInRuns(kdf, Boot(stored, table), events, u);
  }

  /** The table as a whole: it holds the accounts of the map and no others exactly when every name goes
      together, and then it determines the map. */
  lemma TableAgreesIff(kdf: Kdf, stored: map<bytes, Account>, table: map<bytes, Row>, events: seq<Event>)
    ensures Inv(Boot(stored, table))
    ensures var s := Boot(stored, table);
      var t := Run(kdf, s, events).shared;
      && (StoresAgree(t) <==> forall u :: GoTogether(kdf, s, events, u, RowAgrees(s.shared, u)))
      && (StoresAgree(t) <==> forall accounts :: t.table == Rows(accounts) <==> accounts == t.accounts)
  {
    var s := Boot(stored, table);
    EveryRunIsSafe(kdf, stored, table, events);
    var t := Run(kdf, s, events).shared;
    forall u ensures RowAgrees(t, u) <==> GoTogether(kdf, s, events, u, RowAgrees(s.shared, u)) {
      RowAgreesIff(kdf, stored, table, events, u);
    }
    AgreeByRows(t);
    forall accounts ensures Rows(t.accounts) == Rows(accounts) <==> accounts == t.accounts {
      TableDetermines(accounts, t.accounts);
    }
  }

  ghost predicate NoRestart(events: seq<Event>)
  {
    forall k :: 0 <= k < |events| ==> !events[k].Restart?
  }

  lemma {:induction false} TogetherUntilRestart(kdf: Kdf, s: State, events: seq<Event>, u: bytes)
    requires Inv(s) && NoRestart(events)
    ensures GoTogether(kdf, s, events, u, true)
    decreases |events|
  {
    if events != [] {
      StepKeepsInv(kdf, s, events[0]);
      assert forall k :: 0 <= k < |events[1..]| ==> events[1..][k] == events[k + 1];
      TogetherUntilRestart(kdf, Step(kdf, s, events[0]), events[1..], u);
    }
  }

  /** Until the server is restarted, stores that agree go on agreeing. */
  lemma AgreeUntilRestart(kdf: Kdf, stored: map<bytes, Account>, table: map<bytes, Row>, events: seq<Event>)
    requires StoresAgree(Boot(stored, table).shared) && NoRestart(events)
    ensures Inv(Boot(stored, table)) && StoresAgree(Run(kdf, Boot(stored, table), events).shared)
  {
    TableAgreesIff(kdf, stored, table, events);
    AgreeByRows(Boot(stored, table).shared);
    forall u ensures GoTogether(kdf, Boot(stored, table), events, u, RowAgrees(Boot(stored, table).shared, u)) {
      TogetherUntilRestart(kdf, Boot(stored, table), events, u);
    }
  }

  lemma {:induction false} TogetherWhileWhole(kdf: Kdf, s: State, events: seq<Event>, u: bytes)
    requires Inv(s) && AllTextProfiles(s) && WholeEdits(events)
    ensures GoTogether(kdf, s, events, u, true)
    decreases |events|
  {
    if events != [] {
      StepKeepsInv(kdf, s, events[0]);
      StepKeepsProfilesText(kdf, s, events[0]);
      if u in s.shared.accounts { assert Held(s, u, s.shared.accounts[u]); }
      assert forall k :: 0 <= k < |events[1..]| ==> events[1..][k] == events[k + 1];
      TogetherWhileWhole(kdf, Step(kdf, s, events[0]), events[1..], u);
    }
  }

  /** With the guard, from a start that agrees: map, accounts.json and table are the same accounts in every
      state of every run, however often the server is restarted. */
  lemma WholeEditsAgree(kdf: Kdf, stored: map<bytes, Account>, table: map<bytes, Row>, events: seq<Event>)
    requires StoresAgree(Boot(stored, table).shared) && WholeEdits(events)
    ensures Inv(Boot(stored, table))
    ensures var t := Run(kdf, Boot(stored, table), events).shared;
      t.file == t.accounts && t.table == Rows(t.accounts)
  {
    var s := Boot(stored, table);
    WholeEditsReload(kdf, stored, table, events);
    BootIsTextual(stored, table);
    TableAgreesIff(kdf, stored, table, events);
    AgreeByRows(s.shared);
    forall u ensures GoTogether(kdf, s, events, u, RowAgrees(s.shared, u)) {
      TogetherWhileWhole(kdf, s, events, u);
    }
  }
}
