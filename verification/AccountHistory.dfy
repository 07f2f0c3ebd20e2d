/**
 Which steps create, move or lose an account, and what a late upgrade does: a login with a legacy
 account reads it in one section and writes it back in another, so whatever happens to the account
 in between is undone, and a name that was freed comes back.
 */
module AccountHistory {
  import opened Wrappers
  import opened Bytes
  import opened Accounts
  import opened Directory
  import opened ServerSpec
  import opened Interleaving
  import opened SessionSafety
  import opened AccountSources
  import opened Scenarios
  import opened Profile
  import StoredText

  /** The step registers a new account. */
  predicate Registers(s: State, e: Event)
  {
    e.Register? && Waits(s, e.id) && s.shared.sessions[e.id].name !in s.shared.accounts && e.p1 == e.p2
  }

  /** The step checks a login, accepts it, and rewrites the legacy account it has read. */
  predicate Upgrades(kdf: Kdf, s: State, e: Event)
  {
    && e.CheckLogin? && At(s, e.id) && s.pcs[e.id].LoggingIn?
    && var pc := s.pcs[e.id];
       pc.read.Some? && Legacy(pc.read.value) && Verify(kdf, pc.read.value, pc.pwd)
  }

  /** ... although its name is no longer there. */
  predicate Revives(kdf: Kdf, s: State, e: Event)
  {
    Upgrades(kdf, s, e) && s.pcs[e.id].u !in s.shared.accounts
  }

  /** The names after a step, in terms of the names before. */
  ghost predicate NamesFollow(kdf: Kdf, s: State, e: Event, t: State)
  {
    var was, now := s.shared.accounts.Keys, t.shared.accounts.Keys;
    if Registers(s, e) then now == was + {s.shared.sessions[e.id].name}
    else if Renames(s, e) then now == was - {s.shared.sessions[e.id].name} + {e.nu}
    else if Revives(kdf, s, e) then now == was + {s.pcs[e.id].u}
    else now == was
  }

  lemma RegisterFollows(kdf: Kdf, s: State, e: Event)
    requires Inv(s) && e.Register?
    ensures NamesFollow(kdf, s, e, Step(kdf, s, e))
  {
  }

  lemma RenameFollows(kdf: Kdf, s: State, e: Event)
    requires Inv(s) && e.Rename?
    ensures NamesFollow(kdf, s, e, Step(kdf, s, e))
    ensures Renames(s, e) ==> Step(kdf, s, e).shared.accounts[e.nu] == s.shared.accounts[s.shared.sessions[e.id].name]
  {
  }

  lemma ReadFollows(kdf: Kdf, s: State, e: Event)
    requires Inv(s) && e.ReadAccount?
    ensures NamesFollow(kdf, s, e, Step(kdf, s, e))
  {
  }

  lemma CheckFollows(kdf: Kdf, s: State, e: Event)
    requires Inv(s) && e.CheckLogin?
    ensures NamesFollow(kdf, s, e, Step(kdf, s, e))
  {
  }

  lemma EditFollows(kdf: Kdf, s: State, e: Event)
    requires Inv(s) && (e.SetProfile? || e.SetPassword? || e.Restart?)
    ensures NamesFollow(kdf, s, e, Step(kdf, s, e))
  {
  }

  /** Accounts appear by registration, move by renaming, come back by a late legacy upgrade, and
      change their set of names in no other step; a move takes the whole account along. */
  lemma AccountNamesFollow(kdf: Kdf, s: State, e: Event)
    requires Inv(s)
    ensures NamesFollow(kdf, s, e, Step(kdf, s, e))
    ensures Renames(s, e) ==> Step(kdf, s, e).shared.accounts[e.nu] == s.shared.accounts[s.shared.sessions[e.id].name]
  {
    if e.Register? {
      RegisterFollows(kdf, s, e);
    } else if e.Rename? {
      RenameFollows(kdf, s, e);
    } else if e.ReadAccount? {
      ReadFollows(kdf, s, e);
    } else if e.CheckLogin? {
      CheckFollows(kdf, s, e);
    } else if e.SetProfile? || e.SetPassword? || e.Restart? {
      EditFollows(kdf, s, e);
    } else {
      OthersSameAccounts(kdf, s, e);
    }
  }

  // ---------------------------------------------------------------- what a late upgrade overwrites

  /** What a login's second section makes of the accounts: the account it read, with new credentials,
      takes the place of whatever stands under its name, or nothing changes. */
  lemma CheckLoginIs(kdf: Kdf, s: State, e: Event)
    requires Ordered(s.shared) && e.CheckLogin? && At(s, e.id) && s.pcs[e.id].LoggingIn?
    ensures var t, pc := Step(kdf, s, e).shared, s.pcs[e.id];
      t.accounts == if Upgrades(kdf, s, e) then s.shared.accounts[pc.u := Rekey(kdf, pc.read.value, pc.pwd, e.salt)]
                    else s.shared.accounts
  {
  }

  /** Checking a login leaves the set of names alone exactly when it does not write back a legacy
      account whose name has gone since it was read. */
  lemma LoginKeepsNamesIff(kdf: Kdf, s: State, e: Event)
    requires Inv(s) && e.CheckLogin?
    ensures Step(kdf, s, e).shared.accounts.Keys == s.shared.accounts.Keys <==> !Revives(kdf, s, e)
  {
    AccountNamesFollow(kdf, s, e);
  }

  /** Checking a login alters an account that has been written since it was read exactly when it upgrades
      and the account is not by chance the upgraded one. The password is then the one of the login, and
      the profile stays as it is exactly when it is still the one that was read. */
  lemma LateUpgradeOverwrites(kdf: Kdf, s: State, e: Event)
    requires Ordered(s.shared) && e.CheckLogin? && At(s, e.id) && s.pcs[e.id].LoggingIn? && s.pcs[e.id].read.Some?
    requires s.pcs[e.id].u in s.shared.accounts && s.shared.accounts[s.pcs[e.id].u] != s.pcs[e.id].read.value
    ensures var u, read, pwd := s.pcs[e.id].u, s.pcs[e.id].read.value, s.pcs[e.id].pwd;
      var now, after := s.shared.accounts[u], Step(kdf, s, e).shared.accounts;
      && u in after
      && (after[u] != now <==> Upgrades(kdf, s, e) && now != Rekey(kdf, read, pwd, e.salt))
      && (Upgrades(kdf, s, e) ==> OpensTo(kdf, after[u], pwd, e.salt))
      && (Upgrades(kdf, s, e) ==> (SameProfile(after[u], now) <==> SameProfile(read, now)))
  {
    CheckLoginIs(kdf, s, e);
    RekeyedOpensTo(kdf, s.pcs[e.id].read.value, s.pcs[e.id].pwd, e.salt);
  }

  // ---------------------------------------------------------------- runs in which it happens

  /** Two connections and a legacy account: `j` has read the account of `u` with its password, and then
      the owner `i` has logged in, upgraded it and become active. */
  function ReadThenReturn(i: Id, j: Id, u: bytes, v: bytes, pwd: bytes, salt: bytes): seq<Event>
  {
    [Connect(j, v)] + [ReadAccount(j, u, pwd)] + ReturnOf(i, u, pwd, salt)
  }

  /** Nobody is connected, and `u` has a legacy account that opens to the password. */
  ghost predicate LegacyStart(kdf: Kdf, s: State, u: bytes, v: bytes, pwd: bytes)
  {
    && Inv(s) && s.shared.sessions.Keys == {} && ValidName(u) && ValidName(v) && u != v
    && u in s.shared.accounts && Legacy(s.shared.accounts[u]) && Verify(kdf, s.shared.accounts[u], pwd)
  }

  lemma ReaderIsIn(kdf: Kdf, s: State, j: Id, u: bytes, v: bytes, pwd: bytes)
    requires LegacyStart(kdf, s, u, v, pwd)
    ensures var m := Run(kdf, s, [Connect(j, v)] + [ReadAccount(j, u, pwd)]);
      Inv(m) && m == Arrived(s, j, NEW_SESSION(v), LoggingIn(u, Some(s.shared.accounts[u]), pwd))
  {
    RunOne(kdf, s, Connect(j, v));
    ConnectAdmits(kdf, s, j, v);
    RunThen(kdf, s, [Connect(j, v)], ReadAccount(j, u, pwd));
    ReadArrived(kdf, s, j, NEW_SESSION(v), u, pwd);
  }

  lemma OwnerReturns(kdf: Kdf, s: State, i: Id, j: Id, u: bytes, v: bytes, pwd: bytes, salt: bytes)
    requires LegacyStart(kdf, s, u, v, pwd) && i != j
    ensures var m := Run(kdf, s, ReadThenReturn(i, j, u, v, pwd, salt));
      && Inv(m)
      && m.shared.accounts == s.shared.accounts[u := Rekey(kdf, s.shared.accounts[u], pwd, salt)]
      && Commands(m, i) && m.shared.sessions[i].name == u
      && At(m, j) && m.shared.sessions[j].name == v && m.pcs[j] == LoggingIn(u, Some(s.shared.accounts[u]), pwd)
      && m.shared.sessions.Keys == {i, j}
  {
    var first := [Connect(j, v)] + [ReadAccount(j, u, pwd)];
    ReaderIsIn(kdf, s, j, u, v, pwd);
    var r := Run(kdf, s, first);
    RunAppend(kdf, s, first, ReturnOf(i, u, pwd, salt));
    ReturnsBeside(kdf, r, i, j, u, pwd, salt);
  }

  /** The owner of `u` comes back while `j` is somewhere in its goroutine. */
  lemma ReturnsBeside(kdf: Kdf, r: State, i: Id, j: Id, u: bytes, pwd: bytes, salt: bytes)
    requires Inv(r) && Free(r, i, u) && u in r.shared.accounts && At(r, j) && r.shared.sessions.Keys == {j}
    requires Legacy(r.shared.accounts[u]) && Verify(kdf, r.shared.accounts[u], pwd)
    ensures var m := Run(kdf, r, ReturnOf(i, u, pwd, salt));
      && Inv(m)
      && m.shared.accounts == r.shared.accounts[u := Rekey(kdf, r.shared.accounts[u], pwd, salt)]
      && Commands(m, i) && m.shared.sessions[i].name == u
      && At(m, j) && m.shared.sessions[j].name == r.shared.sessions[j].name && m.pcs[j] == r.pcs[j]
      && m.shared.sessions.Keys == {i, j}
  {
    Returns(kdf, r, i, u, pwd, salt);
    JoinedBeside(r, Run(kdf, r, ReturnOf(i, u, pwd, salt)), i, j, u,
                 r.shared.accounts[u := Rekey(kdf, r.shared.accounts[u], pwd, salt)]);
  }

  lemma JoinedBeside(r: State, m: State, i: Id, j: Id, u: bytes, accounts: map<bytes, Account>)
    requires Joined(r, m, i, u, [], accounts) && At(r, j) && i != j && r.shared.sessions.Keys == {j}
    ensures Commands(m, i) && m.shared.sessions[i].name == u
    ensures At(m, j) && m.shared.sessions[j].name == r.shared.sessions[j].name && m.pcs[j] == r.pcs[j]
    ensures m.shared.sessions.Keys == {i, j}
  {
    StillThere(r, m, i, u, [], accounts, j);
    assert {j} + {i} == {i, j};
  }

  /** A client renames itself while another connection is between the two sections of a login. */
  lemma RenameBetween(kdf: Kdf, s: State, i: Id, j: Id, nu: bytes)
    requires Inv(s) && i != j && Commands(s, i) && At(s, j) && Renames(s, Event.Rename(i, nu))
    ensures var t, u := Step(kdf, s, Event.Rename(i, nu)), s.shared.sessions[i].name;
      && t.shared.accounts == RenamedAccounts(s.shared.accounts, u, nu)
      && At(t, i) && At(t, j) && t.pcs[j] == s.pcs[j] && t.shared.sessions[i].name == nu
  {
  }

  lemma CheckLeavesNames(kdf: Kdf, s: State, e: Event, i: Id)
    requires Ordered(s.shared) && e.CheckLogin? && At(s, i) && i != e.id
    ensures At(Step(kdf, s, e), i) && Step(kdf, s, e).shared.sessions[i] == s.shared.sessions[i]
  {
  }

  /** The last two steps: the owner renames itself, and the login goes on. */
  lemma RenameThenCheck(kdf: Kdf, s: State, i: Id, j: Id, nu: bytes, acc: Account, pwd: bytes, salt: bytes)
    requires Inv(s) && i != j && Commands(s, i) && At(s, j) && Renames(s, Event.Rename(i, nu))
    requires s.pcs[j] == LoggingIn(s.shared.sessions[i].name, Some(acc), pwd) && Legacy(acc) && Verify(kdf, acc, pwd)
    ensures var m, u := Step(kdf, s, Event.Rename(i, nu)), s.shared.sessions[i].name;
      && Ordered(m.shared) && Revives(kdf, m, CheckLogin(j, salt))
      && var t := Step(kdf, m, CheckLogin(j, salt));
         && t.shared.accounts == RenamedAccounts(s.shared.accounts, u, nu)[u := Rekey(kdf, acc, pwd, salt)]
         && At(t, i) && t.shared.sessions[i].name == nu
  {
    StepKeepsInv(kdf, s, Event.Rename(i, nu));
    RenameBetween(kdf, s, i, j, nu);
    var m := Step(kdf, s, Event.Rename(i, nu));
    CheckLoginIs(kdf, m, CheckLogin(j, salt));
    CheckLeavesNames(kdf, m, CheckLogin(j, salt), i);
  }

  lemma OwnerMayRename(s: State, i: Id, j: Id, nu: bytes)
    requires Commands(s, i) && At(s, j) && s.shared.sessions.Keys == {i, j}
    requires ValidName(nu) && nu != s.shared.sessions[i].name && nu != s.shared.sessions[j].name
    requires nu !in s.shared.accounts && s.shared.sessions[i].name in s.shared.accounts
    ensures Renames(s, Event.Rename(i, nu))
  {
  }

  lemma RunTwoMore(kdf: Kdf, s: State, first: seq<Event>, e: Event, f: Event)
    requires Inv(s)
    ensures Inv(Run(kdf, s, first)) && Inv(Run(kdf, s, first + [e]))
    ensures Run(kdf, s, first + [e]) == Step(kdf, Run(kdf, s, first), e)
    ensures Run(kdf, s, first + [e] + [f]) == Step(kdf, Step(kdf, Run(kdf, s, first), e), f)
  {
    RunThen(kdf, s, first, e);
    RunThen(kdf, s, first + [e], f);
  }

  /** ... at the end of a run. */
  lemma LateRename(kdf: Kdf, s: State, first: seq<Event>, i: Id, j: Id, nu: bytes,
                   acc: Account, pwd: bytes, salt: bytes)
    requires Inv(s) && Inv(Run(kdf, s, first)) && i != j
    requires var r := Run(kdf, s, first);
      && Commands(r, i) && At(r, j) && Renames(r, Event.Rename(i, nu))
      && r.pcs[j] == LoggingIn(r.shared.sessions[i].name, Some(acc), pwd) && Legacy(acc) && Verify(kdf, acc, pwd)
    ensures var r, m := Run(kdf, s, first), Run(kdf, s, first + [Event.Rename(i, nu)]);
      var u, t := r.shared.sessions[i].name, Run(kdf, s, first + [Event.Rename(i, nu)] + [CheckLogin(j, salt)]);
      && Revives(kdf, m, CheckLogin(j, salt))
      && t.shared.accounts == RenamedAccounts(r.shared.accounts, u, nu)[u := Rekey(kdf, acc, pwd, salt)]
      && At(t, i) && t.shared.sessions[i].name == nu
  {
    RunTwoMore(kdf, s, first, Event.Rename(i, nu), CheckLogin(j, salt));
    RenameThenCheck(kdf, Run(kdf, s, first), i, j, nu, acc, pwd, salt);
  }

  /** A run in which an account ends up under two names: `j` reads the legacy account of `u`, its owner
      logs in and renames itself, `j` goes on. The owner keeps its session and its account under the new
      name; the old name holds the account too, with new credentials. */
  lemma RenameDuringUpgrade(kdf: Kdf, s: State, i: Id, j: Id, u: bytes, v: bytes, nu: bytes, pwd: bytes,
                            salt1: bytes, salt2: bytes)
    requires LegacyStart(kdf, s, u, v, pwd) && i != j
    requires ValidName(nu) && nu != u && nu != v && nu !in s.shared.accounts
    ensures var before := ReadThenReturn(i, j, u, v, pwd, salt1) + [Event.Rename(i, nu)];
      var acc, t := s.shared.accounts[u], Run(kdf, s, before + [CheckLogin(j, salt2)]);
      && Revives(kdf, Run(kdf, s, before), CheckLogin(j, salt2))
      && t.shared.accounts == s.shared.accounts[nu := Rekey(kdf, acc, pwd, salt1)][u := Rekey(kdf, acc, pwd, salt2)]
      && At(t, i) && t.shared.sessions[i].name == nu
  {
    var first, acc := ReadThenReturn(i, j, u, v, pwd, salt1), s.shared.accounts[u];
    OwnerReturns(kdf, s, i, j, u, v, pwd, salt1);
    OwnerMayRename(Run(kdf, s, first), i, j, nu);
    LateRename(kdf, s, first, i, j, nu, acc, pwd, salt2);
    MovedAndRestored(s.shared.accounts, u, nu, Rekey(kdf, acc, pwd, salt1), Rekey(kdf, acc, pwd, salt2));
  }

  /** One name more than in `s`: the account of `u` is held under `nu` as well, where its owner is. */
  ghost predicate HeldTwice(s: State, t: State, i: Id, u: bytes, nu: bytes)
  {
    && t.shared.accounts.Keys == s.shared.accounts.Keys + {nu} && u in s.shared.accounts && nu !in s.shared.accounts
    && SameProfile(t.shared.accounts[u], s.shared.accounts[u])
    && SameProfile(t.shared.accounts[nu], s.shared.accounts[u])
    && At(t, i) && t.shared.sessions[i].name == nu
  }

  lemma SomeRunHoldsTwice(kdf: Kdf, s: State, i: Id, j: Id, u: bytes, v: bytes, nu: bytes, pwd: bytes, salt: bytes)
    requires LegacyStart(kdf, s, u, v, pwd) && i != j
    requires ValidName(nu) && nu != u && nu != v && nu !in s.shared.accounts
    ensures exists events :: HeldTwice(s, Run(kdf, s, events), i, u, nu)
  {
    var events := LateRenameEvents(i, j, u, v, nu, pwd, salt);
    RunHoldsTwice(kdf, s, i, j, u, v, nu, pwd, salt);
    assert HeldTwice(s, Run(kdf, s, events), i, u, nu);
  }

  function LateRenameEvents(i: Id, j: Id, u: bytes, v: bytes, nu: bytes, pwd: bytes, salt: bytes): seq<Event>
  {
    ReadThenReturn(i, j, u, v, pwd, salt) + [Event.Rename(i, nu)] + [CheckLogin(j, salt)]
  }

  lemma RunHoldsTwice(kdf: Kdf, s: State, i: Id, j: Id, u: bytes, v: bytes, nu: bytes, pwd: bytes, salt: bytes)
    requires LegacyStart(kdf, s, u, v, pwd) && i != j
    requires ValidName(nu) && nu != u && nu != v && nu !in s.shared.accounts
    ensures HeldTwice(s, Run(kdf, s, LateRenameEvents(i, j, u, v, nu, pwd, salt)), i, u, nu)
  {
    RenameDuringUpgrade(kdf, s, i, j, u, v, nu, pwd, salt, salt);
    TwiceIs(kdf, s, Run(kdf, s, LateRenameEvents(i, j, u, v, nu, pwd, salt)), i, u, nu, pwd, salt);
  }

  lemma TwiceIs(kdf: Kdf, s: State, t: State, i: Id, u: bytes, nu: bytes, pwd: bytes, salt: bytes)
    requires u in s.shared.accounts && nu !in s.shared.accounts && At(t, i) && t.shared.sessions[i].name == nu
    requires var acc := Rekey(kdf, s.shared.accounts[u], pwd, salt);
      t.shared.accounts == s.shared.accounts[nu := acc][u := acc]
    ensures HeldTwice(s, t, i, u, nu)
  {
  }

  /** It can happen after every start with a legacy account in accounts.json. */
  lemma HeldTwiceAfterStart(kdf: Kdf, stored: map<bytes, Account>, table: map<bytes, Row>, i: Id, j: Id,
                            u: bytes, v: bytes, nu: bytes, pwd: bytes, salt: bytes)
    requires i != j
    requires ValidName(u) && ValidName(v) && ValidName(nu) && u != v && nu != u && nu != v
    requires u in stored && Legacy(Loaded(stored)[u]) && Verify(kdf, Loaded(stored)[u], pwd) && nu !in stored
    ensures Inv(Boot(stored, table))
    ensures exists events :: HeldTwice(Boot(stored, table), Run(kdf, Boot(stored, table), events), i, u, nu)
  {
    StartIsSafe(stored, table);
    SomeRunHoldsTwice(kdf, Boot(stored, table), i, j, u, v, nu, pwd, salt);
  }

  lemma MovedAndRestored(accounts: map<bytes, Account>, u: bytes, nu: bytes, x: Account, y: Account)
    requires u in accounts && nu != u
    ensures RenamedAccounts(accounts[u := x], u, nu)[u := y] == accounts[nu := x][u := y]
  {
  }

  /** The other accounts are untouched by an edit, and so is the login in progress. */
  lemma EditBetween(kdf: Kdf, s: State, i: Id, j: Id, rest: bytes)
    requires Inv(s) && i != j && At(s, i) && At(s, j)
    ensures var t, u := Step(kdf, s, Event.SetProfile(i, rest)), s.shared.sessions[i].name;
      At(t, j) && t.pcs[j] == s.pcs[j] && t.shared.accounts - {u} == s.shared.accounts - {u}
  {
    if Commands(s, i) && ParsePairs(rest) != map[] {
      StoredText.ProfileStepIs(kdf, s, i, rest);
      var u := s.shared.sessions[i].name;
      SavedBeside(s, i, Edited(u, s.shared.accounts[u], ParsePairs(rest)), j);
    } else {
      RefusedEdit(kdf, s, i, rest);
    }
  }

  lemma RefusedEdit(kdf: Kdf, s: State, i: Id, rest: bytes)
    requires Ordered(s.shared) && !(Commands(s, i) && ParsePairs(rest) != map[])
    ensures Step(kdf, s, Event.SetProfile(i, rest)).shared == s.shared
    ensures forall j :: At(s, j) ==> j in Step(kdf, s, Event.SetProfile(i, rest)).pcs
                                     && Step(kdf, s, Event.SetProfile(i, rest)).pcs[j] == s.pcs[j]
  {
  }

  lemma SavedBeside(s: State, i: Id, acc: Account, j: Id)
    requires Ordered(s.shared) && At(s, i) && At(s, j)
    ensures var u := s.shared.sessions[i].name;
      var t := Save(s.shared, u, acc);
      j in t.sessions && t.accounts - {u} == s.shared.accounts - {u}
  {
    SavedOnly(s.shared, s.shared.sessions[i].name, acc);
  }

  lemma SameElsewhere(a: map<bytes, Account>, b: map<bytes, Account>, u: bytes, x: Account)
    requires a - {u} == b - {u}
    ensures a[u := x] == b[u := x]
  {
    assert a[u := x] == (a - {u})[u := x];
    assert b[u := x] == (b - {u})[u := x];
  }

  /** A run in which an edit is undone: the same beginning, then the owner sets its profile, whatever to,
      and the edit is stored; `j` goes on, and the profile is again the one that was read. */
  lemma EditDuringUpgrade(kdf: Kdf, s: State, i: Id, j: Id, u: bytes, v: bytes, rest: bytes, pwd: bytes,
                          salt1: bytes, salt2: bytes)
    requires LegacyStart(kdf, s, u, v, pwd) && i != j
    ensures var before := ReadThenReturn(i, j, u, v, pwd, salt1) + [Event.SetProfile(i, rest)];
      var acc, m, t := s.shared.accounts[u], Run(kdf, s, before), Run(kdf, s, before + [CheckLogin(j, salt2)]);
      && (ParsePairs(rest) != map[] ==>
            m.shared.accounts
            == s.shared.accounts[u := Edited(u, Rekey(kdf, acc, pwd, salt1), ParsePairs(rest))])
      && t.shared.accounts == s.shared.accounts[u := Rekey(kdf, acc, pwd, salt2)]
  {
    var first, acc := ReadThenReturn(i, j, u, v, pwd, salt1), s.shared.accounts[u];
    OwnerReturns(kdf, s, i, j, u, v, pwd, salt1);
    LateEdit(kdf, s, first, i, j, rest, acc, pwd, salt2);
    if ParsePairs(rest) != map[] { EditIsStored(kdf, s, first, i, u, Rekey(kdf, acc, pwd, salt1), rest); }
    WrittenTwice(s.shared.accounts, u, Rekey(kdf, acc, pwd, salt1), Rekey(kdf, acc, pwd, salt2));
  }

  lemma EditIsStored(kdf: Kdf, s: State, first: seq<Event>, i: Id, u: bytes, acc: Account, rest: bytes)
    requires Inv(s) && Inv(Run(kdf, s, first)) && u in s.shared.accounts && ParsePairs(rest) != map[]
    requires var r := Run(kdf, s, first);
      Commands(r, i) && r.shared.sessions[i].name == u && r.shared.accounts == s.shared.accounts[u := acc]
    ensures Run(kdf, s, first + [Event.SetProfile(i, rest)]).shared.accounts
         == s.shared.accounts[u := Edited(u, acc, ParsePairs(rest))]
  {
    RunThen(kdf, s, first, Event.SetProfile(i, rest));
    StoredText.ProfileStepIs(kdf, Run(kdf, s, first), i, rest);
    WrittenTwice(s.shared.accounts, u, acc, Edited(u, acc, ParsePairs(rest)));
  }

  lemma WrittenTwice(accounts: map<bytes, Account>, u: bytes, x: Account, y: Account)
    ensures accounts[u := x][u := y] == accounts[u := y]
  {
  }

  lemma LateEdit(kdf: Kdf, s: State, first: seq<Event>, i: Id, j: Id, rest: bytes,
                 acc: Account, pwd: bytes, salt: bytes)
    requires Inv(s) && Inv(Run(kdf, s, first)) && i != j
    requires var r := Run(kdf, s, first);
      && At(r, i) && At(r, j)
      && r.pcs[j] == LoggingIn(r.shared.sessions[i].name, Some(acc), pwd) && Legacy(acc) && Verify(kdf, acc, pwd)
    ensures var r, t := Run(kdf, s, first), Run(kdf, s, first + [Event.SetProfile(i, rest)] + [CheckLogin(j, salt)]);
      t.shared.accounts == r.shared.accounts[r.shared.sessions[i].name := Rekey(kdf, acc, pwd, salt)]
  {
    var e, f, r := Event.SetProfile(i, rest), CheckLogin(j, salt), Run(kdf, s, first);
    RunTwoMore(kdf, s, first, e, f);
    EditBetween(kdf, r, i, j, rest);
    CheckLoginIs(kdf, Step(kdf, r, e), f);
    SameElsewhere(Step(kdf, r, e).shared.accounts, r.shared.accounts, r.shared.sessions[i].name,
                  Rekey(kdf, acc, pwd, salt));
  }

  // ---------------------------------------------------------------- passwords

  /** The account accepts exactly the passwords whose Argon2id key under `salt` is that of `pwd`. */
  function KeyOf(kdf: Kdf, pwd: bytes, salt: bytes): bytes
  {
    kdf.argon2id(pwd, salt, ARGON_TIME, ARGON_MEMORY, ARGON_THREADS)
  }

  ghost predicate OpensTo(kdf: Kdf, acc: Account, pwd: bytes, salt: bytes)
  {
    forall attempt :: Verify(kdf, acc, attempt) <==>
      KeyOf(kdf, attempt, salt) == KeyOf(kdf, pwd, salt)
  }

  lemma RekeyedOpensTo(kdf: Kdf, acc: Account, pwd: bytes, salt: bytes)
    ensures OpensTo(kdf, Rekey(kdf, acc, pwd, salt), pwd, salt)
  {
    forall attempt ensures Verify(kdf, Rekey(kdf, acc, pwd, salt), attempt) <==>
      KeyOf(kdf, attempt, salt) == KeyOf(kdf, pwd, salt)
    {
      StoredPasswordVerifies(kdf, acc, pwd, salt, attempt);
    }
  }

  /** The account `was` with other credentials. */
  ghost predicate SameProfile(acc: Account, was: Account)
  {
    acc.nick == was.nick && acc.bio == was.bio && acc.hideStatus == was.hideStatus
  }

  lemma SavedOnly(s: Shared, u: bytes, acc: Account)
    ensures Save(s, u, acc).accounts[u] == acc && Save(s, u, acc).accounts - {u} == s.accounts - {u}
  {
  }

  lemma NewOpensTo(kdf: Kdf, u: bytes, pwd: bytes, salt: bytes)
    ensures OpensTo(kdf, NewAccount(kdf, u, pwd, salt), pwd, salt)
  {
    var made := NewAccount(kdf, u, pwd, salt);
    RekeyedOpensTo(kdf, made, pwd, salt);
    assert Rekey(kdf, made, pwd, salt) == made;
  }

  /** After a legacy upgrade it opens to the password of the login only, and the profile is the one read. */
  lemma UpgradedOpens(kdf: Kdf, s: Shared, u: bytes, pwd: bytes, salt: bytes, read: Account)
    ensures var t := ServerSpec.Upgrade(kdf, s, u, read, pwd, salt);
      && u in t.accounts && OpensTo(kdf, t.accounts[u], pwd, salt) && SameProfile(t.accounts[u], read)
      && t.accounts - {u} == s.accounts - {u}
  {
    RekeyedOpensTo(kdf, read, pwd, salt);
    SavedOnly(s, u, Rekey(kdf, read, pwd, salt));
  }

  // ---------------------------------------------------------------- rooms

  /** A room created with a password opens to exactly the passwords with the same salted hash; a
      room created without one opens to everybody. The salt is hexadecimal, so it has no ':'. */
  lemma RoomOpensToItsPassword(kdf: Kdf, pwd: bytes, salt: bytes, attempt: bytes)
    requires COLON !in salt
    ensures RoomOpens(kdf, RoomGuard(kdf, pwd, salt), attempt)
      <==> pwd == [] || kdf.sha256Hex(salt + attempt) == kdf.sha256Hex(salt + pwd)
  {
    var hash := kdf.sha256Hex(salt + pwd);
    var guard := salt + [COLON] + hash;
    FindFirst(salt, COLON, hash);
    assert guard[..|salt|] == salt && guard[|salt| + 1..] == hash;
  }
}
