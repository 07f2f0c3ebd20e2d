/**
 Keys and renames. A rename announces nothing, so who knows the key of a renamed client under its
 new name is decided by what the others are told afterwards, or were told about that name before.
 */
module RenamedKeys {
  import opened Wrappers
  import opened Bytes
  import opened Accounts
  import opened Directory
  import opened Answers
  import opened ServerSpec
  import opened Interleaving
  import opened SessionSafety
  import opened AccountSources
  import opened Scenarios
  import opened KeyDirectory
  import opened KeyMentions
  import DirectorySize
  import LegacyAccounts
  import RelayRules

  // ---------------------------------------------------------------- the holder of a name

  /** Throughout the run `a` is connected as `n` and its published key is `k`. */
  ghost predicate Keeps(kdf: Kdf, s: State, events: seq<Event>, a: Id, n: bytes, k: bytes)
    requires Inv(s)
    decreases |events|
  {
    && At(s, a) && s.shared.sessions[a].name == n && s.shared.sessions[a].key == k
    && (events != [] ==> (StepKeepsInv(kdf, s, events[0]); Keeps(kdf, Step(kdf, s, events[0]), events[1..], a, n, k)))
  }

  /** The step tells `b` the key of `a`: the table is read for `b` while it lists `a`, or `b` is answered
      about its room while `a` is in it or about the name of `a`, or `a` announces itself and nothing on
      its way to `b` says something older. */
  ghost predicate Shares(s: State, e: Event, a: Id, b: Id)
    requires At(s, a)
  {
    var c := s.shared.sessions[a];
    || (e == TakeTable(b) && At(s, b) && s.pcs[b] == Taking && c.authed && c.key != [])
    || (e == Ask(b, Members) && Commands(s, b) && s.shared.sessions[b].room == c.room && c.authed && c.key != [])
    || (e == Ask(b, KeyOf(c.name)) && Commands(s, b) && c.authed && c.key != [] && c.key != ERR)
    || (e == Announce(a) && At(s, b) && s.pcs[a] == Announcing && !InTable(s.pcs[b], c.name))
  }

  /** One client more in the table. */
  lemma ListedStep(sessions: map<Id, Session>, order: seq<Id>, m: nat, n: bytes)
    requires m < |order| && ServerSpec.Lists(sessions, order)
    ensures var d, rest := sessions[order[m]], Listed(Entries(sessions, order, m + 1), n);
      Listed(Entries(sessions, order, m), n)
      == if rest.Some? then rest else if d.authed && d.key != [] && d.name == n then Some(d.key) else None
  {
    var d, rest := sessions[order[m]], Entries(sessions, order, m + 1);
    if d.authed && d.key != [] {
      assert Store(map[], [Entry(d.name, d.key)] + rest) == Store(map[][d.name := d.key], rest);
      StoreOver(map[][d.name := d.key], rest, n);
    } else {
      assert [] + rest == rest;
    }
  }

  lemma {:induction false} EntriesListHolder(s: State, m: nat, p: nat)
    requires Inv(s) && m <= |s.shared.order| && p < |s.shared.order|
    ensures var c := s.shared.sessions[s.shared.order[p]];
      Listed(Entries(s.shared.sessions, s.shared.order, m), c.name)
      == if m <= p && c.authed && c.key != [] then Some(c.key) else None
    decreases |s.shared.order| - m
  {
    var order, c := s.shared.order, s.shared.sessions[s.shared.order[p]];
    if m < |order| {
      EntriesListHolder(s, m + 1, p);
      ListedStep(s.shared.sessions, order, m, c.name);
      assert m != p ==> order[m] != order[p] && s.shared.sessions[order[m]].name != c.name;
    }
  }

  /** One client more in the room. */
  lemma RoomListedStep(sessions: map<Id, Session>, order: seq<Id>, m: nat, room: bytes, n: bytes)
    requires m < |order| && ServerSpec.Lists(sessions, order)
    ensures var d, rest := sessions[order[m]], Listed(RoomEntries(sessions, order, m + 1, room), n);
      Listed(RoomEntries(sessions, order, m, room), n)
      == if rest.Some? then rest
         else if d.room == room && d.authed && d.key != [] && d.name == n then Some(d.key) else None
  {
    var d, rest := sessions[order[m]], RoomEntries(sessions, order, m + 1, room);
    if d.room == room && d.authed && d.key != [] {
      assert Store(map[], [Entry(d.name, d.key)] + rest) == Store(map[][d.name := d.key], rest);
      StoreOver(map[][d.name := d.key], rest, n);
    } else {
      assert [] + rest == rest;
    }
  }

  lemma {:induction false} RoomListsHolder(s: State, m: nat, p: nat, room: bytes)
    requires Inv(s) && m <= |s.shared.order| && p < |s.shared.order|
    ensures var c := s.shared.sessions[s.shared.order[p]];
      Listed(RoomEntries(s.shared.sessions, s.shared.order, m, room), c.name)
      == if m <= p && c.room == room && c.authed && c.key != [] then Some(c.key) else None
    decreases |s.shared.order| - m
  {
    var order, c := s.shared.order, s.shared.sessions[s.shared.order[p]];
    if m < |order| {
      RoomListsHolder(s, m + 1, p, room);
      RoomListedStep(s.shared.sessions, order, m, room, c.name);
      assert m != p ==> order[m] != order[p] && s.shared.sessions[order[m]].name != c.name;
    }
  }

  lemma {:induction false} FirstKeyOfHolder(s: State, m: nat, p: nat)
    requires Inv(s) && m <= |s.shared.order| && p < |s.shared.order|
    ensures var c := s.shared.sessions[s.shared.order[p]];
      FirstKey(s.shared.sessions, s.shared.order, m, c.name)
      == if m <= p && c.authed && c.key != [] then Some(c.key) else None
    decreases |s.shared.order| - m
  {
    var order, c := s.shared.order, s.shared.sessions[s.shared.order[p]];
    if m < |order| {
      FirstKeyOfHolder(s, m + 1, p);
      assert m != p ==> order[m] != order[p] && s.shared.sessions[order[m]].name != c.name;
    }
  }

  lemma ListedKeyEntry(name: bytes, key: Option<bytes>, n: bytes)
    ensures Listed(KeyEntry(name, key), n) == if name == n && key != None && key != Some(ERR) then key else None
  {
    if key != None && key != Some(ERR) {
      var k := key.value;
      assert Store(map[], [Entry(name, k)]) == Store(map[][name := k], []);
    }
  }

  lemma AnswerListsHolder(s: State, a: Id, b: Id, q: Query)
    requires Inv(s) && At(s, a) && At(s, b)
    ensures var c := s.shared.sessions[a];
      Listed(Answered(s.shared, b, q), c.name) ==
        if c.authed && c.key != []
           && (if q.Members? then s.shared.sessions[b].room == c.room else q.name == c.name && c.key != ERR)
        then Some(c.key) else None
  {
    var c := s.shared.sessions[a];
    var p :| 0 <= p < |s.shared.order| && s.shared.order[p] == a;
    match q
    case Members => RoomListsHolder(s, 0, p, s.shared.sessions[b].room);
    case KeyOf(name) =>
      ListedKeyEntry(name, FirstKey(s.shared.sessions, s.shared.order, 0, Trim(name)), c.name);
      if name == c.name {
        assert SessionOk(s.shared, c, s.pcs[a]);
        ValidNameIsPlain(name);
        FirstKeyOfHolder(s, 0, p);
      }
  }

  /** A question about a name that somebody has is one the server answers. */
  lemma NamesCanBeAsked(s: State, a: Id)
    requires Inv(s) && At(s, a)
    ensures Asks(KeyOf(s.shared.sessions[a].name))
  {
    assert SessionOk(s.shared, s.shared.sessions[a], s.pcs[a]);
    ValidNameIsPlain(s.shared.sessions[a].name);
  }

  lemma AskIsShared(s: State, q: Query, a: Id, b: Id)
    requires Inv(s) && At(s, a) && At(s, b)
    ensures var c := s.shared.sessions[a];
      Mention(s, Ask(b, q), b, c.name) == if Shares(s, Ask(b, q), a, b) then Some(c.key) else None
  {
    AnswerListsHolder(s, a, b, q);
    NamesCanBeAsked(s, a);
  }

  lemma AnnounceIsShared(s: State, id: Id, a: Id, b: Id)
    requires Inv(s) && At(s, a) && a != b
    ensures var c := s.shared.sessions[a];
      Mention(s, Announce(id), b, c.name) == if Shares(s, Announce(id), a, b) then Some(c.key) else None
  {
    if id != a && At(s, id) { assert s.shared.sessions[id].name != s.shared.sessions[a].name; }
  }

  /** As long as `a` has the name, only its own key is told under it. */
  lemma MentionIsShared(s: State, e: Event, a: Id, b: Id)
    requires Inv(s) && At(s, a) && a != b
    ensures var c := s.shared.sessions[a];
      Mention(s, e, b, c.name) == if Shares(s, e, a, b) then Some(c.key) else None
  {
    if e.TakeTable? {
      TableListsHolder(s, a);
    } else if e.Announce? {
      AnnounceIsShared(s, e.id, a, b);
    } else if e.Ask? && e.id == b && At(s, b) {
      AskIsShared(s, e.query, a, b);
    }
  }

  lemma TableListsHolder(s: State, a: Id)
    requires Inv(s) && At(s, a)
    ensures var c := s.shared.sessions[a];
      Listed(Entries(s.shared.sessions, s.shared.order, 0), c.name)
      == if c.authed && c.key != [] then Some(c.key) else None
  {
    var p :| 0 <= p < |s.shared.order| && s.shared.order[p] == a;
    EntriesListHolder(s, 0, p);
  }

  /** Some step of the run tells `b` the key of `a`. */
  ghost predicate SharedIn(kdf: Kdf, s: State, events: seq<Event>, a: Id, b: Id)
    requires Inv(s)
    decreases |events|
  {
    events != [] && At(s, a) &&
    (Shares(s, events[0], a, b)
     || (StepKeepsInv(kdf, s, events[0]); SharedIn(kdf, Step(kdf, s, events[0]), events[1..], a, b)))
  }

  lemma {:induction false} LastToldOfHolder(kdf: Kdf, s: State, events: seq<Event>, a: Id, b: Id, n: bytes, k: bytes,
                                            prior: Option<bytes>)
    requires Inv(s) && a != b && Keeps(kdf, s, events, a, n, k) && RelayRules.StaysConnected(kdf, s, events, b)
    ensures LastTold(kdf, s, events, b, n, prior) == if SharedIn(kdf, s, events, a, b) then Some(k) else prior
    decreases |events|
  {
    if events != [] {
      var e, t := events[0], Step(kdf, s, events[0]);
      StepKeepsInv(kdf, s, e);
      MentionIsShared(s, e, a, b);
      LastToldOfHolder(kdf, t, events[1..], a, b, n, k, if Shares(s, e, a, b) then Some(k) else prior);
    }
  }

  /** Runs in which clients may rename and the server may be restarted. Since some moment `a` has had its
      current name and key and `b` has been connected: then `b`, with nothing on its way, holds that key
      under that name if and only if since then the table has been read for it, or it has been answered
      about the room or the name of `a`, or `a` has announced itself, or that key was the last that `b`
      had been told under that name before. */
  lemma HoldsCurrentNameIff(kdf: Kdf, stored: map<bytes, Account>, table: map<bytes, Row>, before: seq<Event>,
                            after: seq<Event>, a: Id, b: Id, n: bytes, k: bytes)
    requires a != b
    ensures Inv(Boot(stored, table)) && Inv(Run(kdf, Boot(stored, table), before))
    ensures var s := Run(kdf, Boot(stored, table), before);
      var t := Run(kdf, s, after);
      && TidyRun(kdf, Boot(stored, table), before) && TidyRun(kdf, s, after)
      && Keeps(kdf, s, after, a, n, k) && RelayRules.StaysConnected(kdf, s, after, b)
      && At(t, b) && !Due(t.pcs[b])
      ==>
        (KeyUnder(KnownFrom(t.shared.sessions[b].out), n) == Some(k) <==>
          SharedIn(kdf, s, after, a, b) || LastTold(kdf, Boot(stored, table), before, b, n, None) == Some(k))
  {
    var s0 := Boot(stored, table);
    StartIsSafe(stored, table);
    RunKeepsInv(kdf, s0, before);
    var s := Run(kdf, s0, before);
    if TidyRun(kdf, s0, before) && TidyRun(kdf, s, after)
       && Keeps(kdf, s, after, a, n, k) && RelayRules.StaysConnected(kdf, s, after, b)
    {
      TidyInRuns(kdf, s0, before);
      ExpectsLastTold(kdf, s0, before, b, n);
      ExpectsOfHolder(kdf, s, after, a, b, n, k);
      NothingIsDue(Run(kdf, s, after), b, n);
    }
  }

  lemma NothingIsDue(t: State, b: Id, n: bytes)
    ensures At(t, b) && !Due(t.pcs[b]) ==>
      KeyUnder(Expecting(t, b), n) == KeyUnder(KnownFrom(t.shared.sessions[b].out), n)
  {
  }

  lemma ExpectsOfHolder(kdf: Kdf, s: State, after: seq<Event>, a: Id, b: Id, n: bytes, k: bytes)
    requires Inv(s) && TidyKeys(s) && TidyRun(kdf, s, after) && a != b
    requires Keeps(kdf, s, after, a, n, k) && RelayRules.StaysConnected(kdf, s, after, b)
    ensures KeyUnder(Expecting(Run(kdf, s, after), b), n)
         == if SharedIn(kdf, s, after, a, b) then Some(k) else KeyUnder(Expecting(s, b), n)
  {
    ExpectsLastTold(kdf, s, after, b, n);
    LastToldOfHolder(kdf, s, after, a, b, n, k, KeyUnder(Expecting(s, b), n));
  }

  lemma {:induction false} TidyInRuns(kdf: Kdf, s: State, events: seq<Event>)
    requires Inv(s) && TidyKeys(s) && TidyRun(kdf, s, events)
    ensures TidyKeys(Run(kdf, s, events))
    decreases |events|
  {
    if events != [] {
      StepKeepsTidy(kdf, s, events[0]);
      StepKeepsInv(kdf, s, events[0]);
      TidyInRuns(kdf, Step(kdf, s, events[0]), events[1..]);
    }
  }

  // ---------------------------------------------------------------- names nobody has had

  /** The event gives somebody the name. */
  predicate Brings(e: Event, n: bytes)
  {
    (e.Connect? && Trim(e.raw) == n) || (e.Rename? && e.nu == n)
  }

  ghost predicate NeverBrings(events: seq<Event>, n: bytes)
  {
    forall i :: 0 <= i < |events| ==> !Brings(events[i], n)
  }

  lemma StaysUnused(kdf: Kdf, s: State, e: Event, n: bytes)
    requires Inv(s) && !NameInUse(s.shared, n) && !Brings(e, n)
    ensures !NameInUse(Step(kdf, s, e).shared, n)
  {
    var t := Step(kdf, s, e);
    StepKeepsInv(kdf, s, e);
    forall i | i in t.shared.sessions ensures t.shared.sessions[i].name != n {
      if i in s.shared.sessions {
        AuthenticationIsEarned(kdf, s, e, i);
        if e.Rename? && e.id == i { RenamedTo(kdf, s, e); }
      } else {
        NamedByConnect(kdf, s, e, i);
      }
    }
  }

  lemma RenamedTo(kdf: Kdf, s: State, e: Event)
    requires Ordered(s.shared) && e.Rename? && At(s, e.id)
    ensures At(Step(kdf, s, e), e.id)
    ensures Step(kdf, s, e).shared.sessions[e.id].name == if Renames(s, e) then e.nu else s.shared.sessions[e.id].name
  {
  }

  lemma NamedByConnect(kdf: Kdf, s: State, e: Event, i: Id)
    requires Inv(s) && i !in s.shared.sessions && i in Step(kdf, s, e).shared.sessions
    ensures e.Connect? && Step(kdf, s, e).shared.sessions[i].name == Trim(e.raw)
  {
    StepKeepsInv(kdf, s, e);
    if !e.Connect? { LegacyAccounts.OnlyConnectAdds(kdf, s, e, i); }
  }

  lemma {:induction false} NobodyIsListed(s: State, m: nat, n: bytes)
    requires Ordered(s.shared) && m <= |s.shared.order| && !NameInUse(s.shared, n)
    ensures Listed(Entries(s.shared.sessions, s.shared.order, m), n) == None
    decreases |s.shared.order| - m
  {
    if m < |s.shared.order| {
      NobodyIsListed(s, m + 1, n);
      ListedStep(s.shared.sessions, s.shared.order, m, n);
    }
  }

  lemma {:induction false} NobodyIsInRoom(s: State, m: nat, room: bytes, n: bytes)
    requires Ordered(s.shared) && m <= |s.shared.order| && !NameInUse(s.shared, n)
    ensures Listed(RoomEntries(s.shared.sessions, s.shared.order, m, room), n) == None
    decreases |s.shared.order| - m
  {
    if m < |s.shared.order| {
      NobodyIsInRoom(s, m + 1, room, n);
      RoomListedStep(s.shared.sessions, s.shared.order, m, room, n);
    }
  }

  lemma {:induction false} NobodyHasKey(s: State, m: nat, n: bytes)
    requires Ordered(s.shared) && m <= |s.shared.order| && !NameInUse(s.shared, n)
    ensures FirstKey(s.shared.sessions, s.shared.order, m, n) == None
    decreases |s.shared.order| - m
  {
    if m < |s.shared.order| { NobodyHasKey(s, m + 1, n); }
  }

  lemma NobodyIsAnswered(s: State, b: Id, q: Query, n: bytes)
    requires Ordered(s.shared) && At(s, b) && !NameInUse(s.shared, n) && ValidName(n)
    ensures Listed(Answered(s.shared, b, q), n) == None
  {
    match q
    case Members => NobodyIsInRoom(s, 0, s.shared.sessions[b].room, n);
    case KeyOf(name) =>
      ListedKeyEntry(name, FirstKey(s.shared.sessions, s.shared.order, 0, Trim(name)), n);
      ValidNameIsPlain(n);
      NobodyHasKey(s, 0, n);
  }

  /** A name that nobody has is not mentioned. */
  lemma NoMention(s: State, e: Event, b: Id, n: bytes)
    requires Ordered(s.shared) && !NameInUse(s.shared, n) && ValidName(n)
    ensures Mention(s, e, b, n) == None
  {
    NobodyIsListed(s, 0, n);
    if e.Ask? && At(s, b) { NobodyIsAnswered(s, b, e.query, n); }
  }

  /** A name that nobody has had is not mentioned. */
  lemma {:induction false} NeverTold(kdf: Kdf, s: State, events: seq<Event>, b: Id, n: bytes)
    requires Inv(s) && !NameInUse(s.shared, n) && NeverBrings(events, n) && ValidName(n)
    ensures LastTold(kdf, s, events, b, n, None) == None
    ensures !NameInUse(Run(kdf, s, events).shared, n)
    decreases |events|
  {
    if events != [] {
      var e, t := events[0], Step(kdf, s, events[0]);
      StepKeepsInv(kdf, s, e);
      StaysUnused(kdf, s, e, n);
      NoMention(s, e, b, n);
      assert forall i :: 0 <= i < |events[1..]| ==> events[1..][i] == events[i + 1];
      NeverTold(kdf, t, events[1..], b, n);
    }
  }

  /** From every start, after any run: a client that renames itself to a name nobody has had is unknown under
      it to everybody else who is connected and has nothing on its way. */
  lemma RenameHides(kdf: Kdf, stored: map<bytes, Account>, table: map<bytes, Row>, before: seq<Event>,
                    a: Id, b: Id, nu: bytes)
    requires a != b && NeverBrings(before, nu)
    ensures Inv(Boot(stored, table)) && Inv(Run(kdf, Boot(stored, table), before))
    ensures var s := Run(kdf, Boot(stored, table), before);
      var t := Step(kdf, s, Event.Rename(a, nu));
      TidyRun(kdf, Boot(stored, table), before) && At(s, b) && !Due(s.pcs[b]) && Renames(s, Event.Rename(a, nu)) ==>
        && At(t, a) && t.shared.sessions[a].name == nu
        && At(t, b) && !Due(t.pcs[b]) && nu !in KnownFrom(t.shared.sessions[b].out)
  {
    StartIsSafe(stored, table);
    RunKeepsInv(kdf, Boot(stored, table), before);
    var s := Run(kdf, Boot(stored, table), before);
    if TidyRun(kdf, Boot(stored, table), before) && At(s, b) && !Due(s.pcs[b]) && Renames(s, Event.Rename(a, nu)) {
      NeverTold(kdf, Boot(stored, table), before, b, nu);
      KnowsLastTold(kdf, stored, table, before, b, nu);
      RenameLeaves(kdf, s, a, b, nu);
    }
  }

  lemma RenameLeaves(kdf: Kdf, s: State, a: Id, b: Id, nu: bytes)
    requires Ordered(s.shared) && At(s, b) && a != b && Renames(s, Event.Rename(a, nu))
    ensures var t := Step(kdf, s, Event.Rename(a, nu));
      && At(t, a) && t.pcs[a] == Idle && t.shared.sessions[a] == s.shared.sessions[a].(name := nu)
      && At(t, b) && t.shared.sessions[b] == s.shared.sessions[b] && t.pcs[b] == s.pcs[b]
  {
  }

  // ---------------------------------------------------------------- a run in which it happens

  lemma OrderGrowsByOne(kdf: Kdf, s: State, e: Event)
    requires Inv(s)
    ensures |Step(kdf, s, e).shared.order| <= |s.shared.order| + 1
  {
    if e.Disconnect? {
      WithoutIsShorter(s.shared.order, e.id);
    } else if e.Relay? {
      if Waits(s, e.id) { RelaySameButOut(s.shared, e.id, e.kind, e.payload); }
    } else if (TouchesAccounts(e) && !e.Restart?) || e.Grant? {
      AccountsKeepOrder(kdf, s, e);
    }
  }

  lemma AccountsKeepOrder(kdf: Kdf, s: State, e: Event)
    requires Ordered(s.shared)
    requires (TouchesAccounts(e) && !e.Restart?) || e.Grant?
    ensures Step(kdf, s, e).shared.order == s.shared.order
  {
  }

  lemma {:induction false} WithoutIsShorter(order: seq<Id>, id: Id)
    ensures |Without(order, id)| <= |order|
  {
    if order != [] { WithoutIsShorter(order[1..], id); }
  }

  /** Short runs with tidy keys never get crowded. */
  lemma {:induction false} ShortRunIsTidy(kdf: Kdf, s: State, events: seq<Event>)
    requires Inv(s) && |s.shared.order| + |events| <= DirectorySize.CROWD
    requires forall i :: 0 <= i < |events| ==> TidyEvent(events[i])
    ensures TidyRun(kdf, s, events)
    decreases |events|
  {
    if events != [] {
      StepKeepsInv(kdf, s, events[0]);
      OrderGrowsByOne(kdf, s, events[0]);
      assert forall i :: 0 <= i < |events[1..]| ==> events[1..][i] == events[i + 1];
      ShortRunIsTidy(kdf, Step(kdf, s, events[0]), events[1..]);
    }
  }

  lemma JoinIsTidy(id: Id, name: bytes, payload: bytes, pwd: bytes, salt: bytes)
    requires ValidName(name) && |Split(payload, NUL)| >= 2 && TidyKey(Split(payload, NUL)[1])
    ensures var events := JoinOf(id, name, payload, pwd, salt);
      |events| == 8 && (forall i :: 0 <= i < 8 ==> TidyEvent(events[i]))
      && forall n, i :: 0 <= i < 8 && n != name ==> !Brings(events[i], n)
  {
    ValidNameIsPlain(name);
  }

  /** Two clients join, under the names `x` and `y`. */
  function TwoJoin(a: Id, b: Id, x: bytes, y: bytes, px: bytes, py: bytes, pwd: bytes, salt: bytes): seq<Event>
  {
    JoinOf(a, x, px, pwd, salt) + JoinOf(b, y, py, pwd, salt)
  }

  /** `a` is active under the name and key, and `b` is active. */
  ghost predicate BothIn(t: State, a: Id, b: Id, x: bytes, y: bytes, k: bytes)
  {
    && a != b
    && Commands(t, a) && t.shared.sessions[a].activated
    && t.shared.sessions[a].name == x && t.shared.sessions[a].key == k
    && Commands(t, b) && t.shared.sessions[b].activated && t.shared.sessions[b].name == y
    && t.shared.sessions[a].room == MAIN && t.shared.sessions[b].room == MAIN
    && t.shared.sessions.Keys == {a, b} && t.shared.accounts.Keys == {x, y}
  }

  /** Only `a` is connected, active under the name and key. */
  ghost predicate Alone(m: State, a: Id, x: bytes, k: bytes)
  {
    && Commands(m, a) && m.shared.sessions[a].activated && m.shared.sessions.Keys == {a}
    && m.shared.sessions[a].name == x && m.shared.sessions[a].key == k && m.shared.sessions[a].room == MAIN
    && m.shared.accounts.Keys == {x}
  }

  lemma FirstIsIn(kdf: Kdf, s: State, a: Id, x: bytes, px: bytes, pwd: bytes, salt: bytes)
    requires Inv(s) && s.shared.sessions.Keys == {} && s.shared.accounts.Keys == {}
    requires ValidName(x) && |Split(px, NUL)| >= 2
    ensures var m := Run(kdf, s, JoinOf(a, x, px, pwd, salt)); Inv(m) && Alone(m, a, x, Split(px, NUL)[1])
  {
    Joins(kdf, s, a, x, px, pwd, salt);
    FirstIsAlone(s, Run(kdf, s, JoinOf(a, x, px, pwd, salt)), a, x, Split(px, NUL)[1], NewAccount(kdf, x, pwd, salt));
  }

  lemma FirstIsAlone(s: State, m: State, a: Id, x: bytes, k: bytes, acc: Account)
    requires Joined(s, m, a, x, k, s.shared.accounts[x := acc])
    requires s.shared.sessions.Keys == {} && s.shared.accounts.Keys == {}
    ensures Alone(m, a, x, k)
  {
    assert {} + {a} == {a};
    assert s.shared.accounts[x := acc].Keys == {x};
  }

  lemma SecondIsIn(m: State, t: State, a: Id, b: Id, x: bytes, y: bytes, k: bytes, key: bytes, acc: Account)
    requires Joined(m, t, b, y, key, m.shared.accounts[y := acc]) && a != b && Alone(m, a, x, k)
    ensures BothIn(t, a, b, x, y, k)
  {
    StillThere(m, t, b, y, key, m.shared.accounts[y := acc], a);
    assert {a} + {b} == {a, b};
    assert m.shared.accounts[y := acc].Keys == {x, y};
  }

  lemma IsFree(m: State, a: Id, b: Id, x: bytes, y: bytes, k: bytes)
    requires Alone(m, a, x, k) && a != b && ValidName(y) && x != y
    ensures Free(m, b, y) && y !in m.shared.accounts
  {
  }

  lemma SecondJoins(kdf: Kdf, m: State, a: Id, b: Id, x: bytes, y: bytes, k: bytes, py: bytes, pwd: bytes, salt: bytes)
    requires Inv(m) && a != b && Alone(m, a, x, k)
    requires ValidName(y) && x != y && |Split(py, NUL)| >= 2
    ensures var t := Run(kdf, m, JoinOf(b, y, py, pwd, salt)); Inv(t) && BothIn(t, a, b, x, y, k)
  {
    IsFree(m, a, b, x, y, k);
    Joins(kdf, m, b, y, py, pwd, salt);
    SecondIsIn(m, Run(kdf, m, JoinOf(b, y, py, pwd, salt)), a, b, x, y, k, Split(py, NUL)[1],
               NewAccount(kdf, y, pwd, salt));
  }

  lemma TwoAreIn(kdf: Kdf, s: State, a: Id, b: Id, x: bytes, y: bytes, px: bytes, py: bytes, pwd: bytes, salt: bytes)
    requires Inv(s) && s.shared.sessions.Keys == {} && s.shared.accounts.Keys == {}
    requires a != b && ValidName(x) && ValidName(y) && x != y && |Split(px, NUL)| >= 2 && |Split(py, NUL)| >= 2
    ensures var t := Run(kdf, s, TwoJoin(a, b, x, y, px, py, pwd, salt));
      Inv(t) && BothIn(t, a, b, x, y, Split(px, NUL)[1])
  {
    FirstIsIn(kdf, s, a, x, px, pwd, salt);
    RunAppend(kdf, s, JoinOf(a, x, px, pwd, salt), JoinOf(b, y, py, pwd, salt));
    SecondJoins(kdf, Run(kdf, s, JoinOf(a, x, px, pwd, salt)), a, b, x, y, Split(px, NUL)[1], py, pwd, salt);
  }

  lemma TwoJoinIsTidy(kdf: Kdf, s: State, a: Id, b: Id, x: bytes, y: bytes, nu: bytes, px: bytes, py: bytes,
                      pwd: bytes, salt: bytes)
    requires Inv(s) && s.shared.order == [] && ValidName(x) && ValidName(y) && nu != x && nu != y
    requires |Split(px, NUL)| >= 2 && TidyKey(Split(px, NUL)[1])
    requires |Split(py, NUL)| >= 2 && TidyKey(Split(py, NUL)[1])
    ensures var events := TwoJoin(a, b, x, y, px, py, pwd, salt); TidyRun(kdf, s, events) && NeverBrings(events, nu)
  {
    var first, second := JoinOf(a, x, px, pwd, salt), JoinOf(b, y, py, pwd, salt);
    JoinIsTidy(a, x, px, pwd, salt);
    JoinIsTidy(b, y, py, pwd, salt);
    var events := first + second;
    forall i | 0 <= i < |events| ensures TidyEvent(events[i]) && !Brings(events[i], nu) {
      if i < 8 { assert events[i] == first[i]; } else { assert events[i] == second[i - 8]; }
    }
    ShortRunIsTidy(kdf, s, events);
  }

  /** A new server. */
  ghost predicate New(s: State)
  {
    s == Boot(map[], map[])
  }

  lemma NewIsEmpty(s: State)
    requires New(s)
    ensures Inv(s) && s.shared.order == [] && s.shared.sessions.Keys == {} && s.shared.accounts.Keys == {}
  {
    StartIsSafe(map[], map[]);
  }

  lemma MayRename(t: State, a: Id, b: Id, x: bytes, y: bytes, k: bytes, nu: bytes)
    requires BothIn(t, a, b, x, y, k) && ValidName(nu) && nu != x && nu != y
    ensures Renames(t, Event.Rename(a, nu))
  {
  }

  /** A run from the start of the server: two clients join, each is told the directory, one renames itself.
      It is active, has published and has announced its key, and nothing is on its way to the other; yet
      the other does not know that key under the current name. */
  lemma RenamedKeyIsMissing(kdf: Kdf, s: State, a: Id, b: Id, x: bytes, y: bytes, nu: bytes, px: bytes, py: bytes,
                            pwd: bytes, salt: bytes)
    requires New(s) && a != b && ValidName(x) && ValidName(y) && ValidName(nu) && x != y && nu != x && nu != y
    requires |Split(px, NUL)| >= 2 && TidyKey(Split(px, NUL)[1]) && Split(px, NUL)[1] != []
    requires |Split(py, NUL)| >= 2 && TidyKey(Split(py, NUL)[1])
    ensures Inv(s)
    ensures var t := Run(kdf, s, TwoJoin(a, b, x, y, px, py, pwd, salt) + [Event.Rename(a, nu)]);
      && At(t, a) && At(t, b)
      && Announced(t.shared.sessions[a], t.pcs[a]) && Told(t.shared.sessions[b], t.pcs[b])
      && t.shared.sessions[a].name == nu && nu !in KnownFrom(t.shared.sessions[b].out)
  {
    var events := TwoJoin(a, b, x, y, px, py, pwd, salt);
    NewIsEmpty(s);
    TwoJoinIsTidy(kdf, s, a, b, x, y, nu, px, py, pwd, salt);
    TwoAreIn(kdf, s, a, b, x, y, px, py, pwd, salt);
    RunThen(kdf, s, events, Event.Rename(a, nu));
    MayRename(Run(kdf, s, events), a, b, x, y, Split(px, NUL)[1], nu);
    RenameHides(kdf, map[], map[], events, a, b, nu);
    RenameLeaves(kdf, Run(kdf, s, events), a, b, nu);
  }

  /** What a client does before it writes to its room: it asks who is there. */
  function RoomQuestion(b: Id): seq<Event>
  {
    [Ask(b, Members)] + [SendAnswer(b)]
  }

  lemma AnswerEndsIdle(kdf: Kdf, s: State, b: Id)
    requires Ordered(s.shared) && At(s, b) && s.pcs[b].Answering?
    ensures At(Step(kdf, s, SendAnswer(b)), b) && Step(kdf, s, SendAnswer(b)).pcs[b] == Idle
  {
  }

  lemma QuestionIsExpected(kdf: Kdf, s: State, a: Id, b: Id)
    requires Inv(s) && TidyKeys(s) && |s.shared.order| <= DirectorySize.CROWD && a != b
    requires At(s, a) && Commands(s, b) && s.shared.sessions[a].room == s.shared.sessions[b].room
    requires s.shared.sessions[a].authed && s.shared.sessions[a].key != []
    ensures var m := Step(kdf, s, Ask(b, Members));
      && Inv(m) && TidyKeys(m) && At(m, b) && m.pcs[b].Answering?
      && KeyUnder(Expecting(m, b), s.shared.sessions[a].name) == Some(s.shared.sessions[a].key)
  {
    var c := s.shared.sessions[a];
    AskIsShared(s, Members, a, b);
    AskLeaves(kdf, s, b, Members, b);
    StepTells(kdf, s, Ask(b, Members), b, c.name);
    StepKeepsTidy(kdf, s, Ask(b, Members));
    StepKeepsInv(kdf, s, Ask(b, Members));
  }

  lemma AnswerIsStored(kdf: Kdf, m: State, b: Id, n: bytes)
    requires Inv(m) && TidyKeys(m) && At(m, b) && m.pcs[b].Answering?
    ensures var t := Step(kdf, m, SendAnswer(b));
      At(t, b) && !Due(t.pcs[b]) && KeyUnder(KnownFrom(t.shared.sessions[b].out), n) == KeyUnder(Expecting(m, b), n)
  {
    AnswerEndsIdle(kdf, m, b);
    StepTells(kdf, m, SendAnswer(b), b, n);
  }

  lemma RunOfTwo(kdf: Kdf, s: State, e: Event, f: Event)
    requires Inv(s)
    ensures Inv(Step(kdf, s, e)) && Run(kdf, s, [e] + [f]) == Step(kdf, Step(kdf, s, e), f)
  {
    RunOne(kdf, s, e);
    RunThen(kdf, s, [e], f);
  }

  /** Whoever asks about its room knows the keys of everybody in it under their current names, whatever it
      was told before. */
  lemma RoomQuestionTells(kdf: Kdf, s: State, a: Id, b: Id)
    requires Inv(s) && TidyKeys(s) && |s.shared.order| <= DirectorySize.CROWD && a != b
    requires At(s, a) && Commands(s, b) && s.shared.sessions[a].room == s.shared.sessions[b].room
    requires s.shared.sessions[a].authed && s.shared.sessions[a].key != []
    ensures var t := Run(kdf, s, RoomQuestion(b));
      At(t, b) && !Due(t.pcs[b])
      && KeyUnder(KnownFrom(t.shared.sessions[b].out), s.shared.sessions[a].name) == Some(s.shared.sessions[a].key)
  {
    RunOfTwo(kdf, s, Ask(b, Members), SendAnswer(b));
    QuestionIsExpected(kdf, s, a, b);
    AnswerIsStored(kdf, Step(kdf, s, Ask(b, Members)), b, s.shared.sessions[a].name);
  }

  /** Renaming oneself leaves a room as it was. */
  lemma StillInMain(kdf: Kdf, t: State, a: Id, b: Id, x: bytes, y: bytes, k: bytes, nu: bytes)
    requires Ordered(t.shared) && BothIn(t, a, b, x, y, k) && Renames(t, Event.Rename(a, nu))
    ensures var m := Step(kdf, t, Event.Rename(a, nu));
      && At(m, a) && Commands(m, b) && m.shared.sessions[a].room == m.shared.sessions[b].room
      && m.shared.sessions[a].authed && m.shared.sessions[a].key == k && m.shared.sessions[a].name == nu
  {
    RenameLeaves(kdf, t, a, b, nu);
  }

  /** The state of RenamedKeyIsMissing. */
  lemma RenamedState(kdf: Kdf, s: State, a: Id, b: Id, x: bytes, y: bytes, nu: bytes, px: bytes, py: bytes,
                     pwd: bytes, salt: bytes)
    requires New(s) && a != b && ValidName(x) && ValidName(y) && ValidName(nu) && x != y && nu != x && nu != y
    requires |Split(px, NUL)| >= 2 && |Split(py, NUL)| >= 2
    ensures Inv(s)
    ensures var t := Run(kdf, s, TwoJoin(a, b, x, y, px, py, pwd, salt) + [Event.Rename(a, nu)]);
      && Inv(t) && At(t, a) && Commands(t, b) && t.shared.sessions[a].room == t.shared.sessions[b].room
      && t.shared.sessions[a].authed && t.shared.sessions[a].key == Split(px, NUL)[1] && t.shared.sessions[a].name == nu
  {
    var events, e := TwoJoin(a, b, x, y, px, py, pwd, salt), Event.Rename(a, nu);
    NewIsEmpty(s);
    TwoAreIn(kdf, s, a, b, x, y, px, py, pwd, salt);
    MayRename(Run(kdf, s, events), a, b, x, y, Split(px, NUL)[1], nu);
    RunThen(kdf, s, events, e);
    StillInMain(kdf, Run(kdf, s, events), a, b, x, y, Split(px, NUL)[1], nu);
  }

  /** The run of RenamedKeyIsMissing goes on: the other client writes to the room, and has the key. */
  lemma RenamedKeyIsFound(kdf: Kdf, s: State, a: Id, b: Id, x: bytes, y: bytes, nu: bytes, px: bytes, py: bytes,
                          pwd: bytes, salt: bytes)
    requires New(s) && a != b && ValidName(x) && ValidName(y) && ValidName(nu) && x != y && nu != x && nu != y
    requires |Split(px, NUL)| >= 2 && TidyKey(Split(px, NUL)[1]) && Split(px, NUL)[1] != []
    requires |Split(py, NUL)| >= 2 && TidyKey(Split(py, NUL)[1])
    ensures Inv(s)
    ensures var t := Run(kdf, s, TwoJoin(a, b, x, y, px, py, pwd, salt) + [Event.Rename(a, nu)] + RoomQuestion(b));
      At(t, b) && KeyUnder(KnownFrom(t.shared.sessions[b].out), nu) == Some(Split(px, NUL)[1])
  {
    var events := TwoJoin(a, b, x, y, px, py, pwd, salt) + [Event.Rename(a, nu)];
    RenamedState(kdf, s, a, b, x, y, nu, px, py, pwd, salt);
    TwoStayTidy(kdf, s, a, b, x, y, nu, px, py, pwd, salt);
    RunAppend(kdf, s, events, RoomQuestion(b));
    RoomQuestionTells(kdf, Run(kdf, s, events), a, b);
  }

  lemma TwoStayTidy(kdf: Kdf, s: State, a: Id, b: Id, x: bytes, y: bytes, nu: bytes, px: bytes, py: bytes,
                    pwd: bytes, salt: bytes)
    requires Inv(s) && New(s) && ValidName(x) && ValidName(y) && nu != x && nu != y
    requires |Split(px, NUL)| >= 2 && TidyKey(Split(px, NUL)[1])
    requires |Split(py, NUL)| >= 2 && TidyKey(Split(py, NUL)[1])
    ensures var t := Run(kdf, s, TwoJoin(a, b, x, y, px, py, pwd, salt) + [Event.Rename(a, nu)]);
      TidyKeys(t) && |t.shared.order| <= DirectorySize.CROWD
  {
    var events := TwoJoin(a, b, x, y, px, py, pwd, salt) + [Event.Rename(a, nu)];
    NewIsEmpty(s);
    TwoJoinEvents(a, b, x, y, px, py, pwd, salt);
    ShortRunIsTidy(kdf, s, events);
    TidyInRuns(kdf, s, events);
    ShortRunIsSmall(kdf, s, events);
  }

  lemma {:induction false} ShortRunIsSmall(kdf: Kdf, s: State, events: seq<Event>)
    requires Inv(s)
    ensures |Run(kdf, s, events).shared.order| <= |s.shared.order| + |events|
    decreases |events|
  {
    if events != [] {
      StepKeepsInv(kdf, s, events[0]);
      OrderGrowsByOne(kdf, s, events[0]);
      ShortRunIsSmall(kdf, Step(kdf, s, events[0]), events[1..]);
    }
  }

  lemma TwoJoinEvents(a: Id, b: Id, x: bytes, y: bytes, px: bytes, py: bytes, pwd: bytes, salt: bytes)
    requires ValidName(x) && ValidName(y)
    requires |Split(px, NUL)| >= 2 && TidyKey(Split(px, NUL)[1])
    requires |Split(py, NUL)| >= 2 && TidyKey(Split(py, NUL)[1])
    ensures var events := TwoJoin(a, b, x, y, px, py, pwd, salt);
      |events| == 16 && forall i :: 0 <= i < 16 ==> TidyEvent(events[i])
  {
    var first, second := JoinOf(a, x, px, pwd, salt), JoinOf(b, y, py, pwd, salt);
    JoinIsTidy(a, x, px, pwd, salt);
    JoinIsTidy(b, y, py, pwd, salt);
    var events := first + second;
    forall i | 0 <= i < |events| ensures TidyEvent(events[i]) {
      if i < 8 { assert events[i] == first[i]; } else { assert events[i] == second[i - 8]; }
    }
  }
}
