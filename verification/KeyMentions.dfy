/**
 What a client has been told about a name, over any run: with renames, with several clients using
 a name one after the other, with keys published again, with restarts. The key a client holds
 under a name is the last one it was told, by a table, an announcement or an answer to its own
 question, where a table or an answer counts from the moment it is read for the client.
 */
module KeyMentions {
  import opened Wrappers
  import opened Bytes
  import opened Accounts
  import opened Directory
  import opened Answers
  import opened ServerSpec
  import opened Interleaving
  import opened SessionSafety
  import opened KeyDirectory
  import opened DirectorySize
  import RelayRules

  // ---------------------------------------------------------------- keys of any kind

  predicate TidyKey(key: bytes)
  {
    CarriableKey(key) && |key| <= KEY_SIZE
  }

  ghost predicate TidyTable(pc: Pc)
  {
    && (Due(pc) ==> |pc.entries| <= CROWD && forall e :: e in pc.entries ==> TidyKey(e.key))
    && (pc.Sending? ==> forall e :: e in pc.entries ==> ValidName(e.name))
  }

  /** Every key, published or in a table or an answer on its way, is one the directory can carry. */
  ghost predicate TidyKeys(s: State)
  {
    forall i :: At(s, i) ==> TidyKey(s.shared.sessions[i].key) && TidyTable(s.pcs[i])
  }

  predicate TidyEvent(e: Event)
  {
    e.Publish? && |Split(e.payload, NUL)| >= 2 ==> TidyKey(Split(e.payload, NUL)[1])
  }

  /** At most CROWD connections, and keys of at most 44 bytes that the table can carry; renames and
      everything else are free. */
  ghost predicate TidyRun(kdf: Kdf, s: State, events: seq<Event>)
    requires Inv(s)
    decreases |events|
  {
    events != [] ==>
      && |s.shared.order| <= CROWD
      && TidyEvent(events[0])
      && (StepKeepsInv(kdf, s, events[0]); TidyRun(kdf, Step(kdf, s, events[0]), events[1..]))
  }

  lemma TidyFits(s: State)
    requires Inv(s) && TidyKeys(s)
    ensures DirectoryFits(s)
  {
    forall i | At(s, i)
      ensures Fits(Announcement(s.shared.sessions[i]))
      ensures Due(s.pcs[i]) ==> Fits(DuePacket(s.pcs[i]))
    {
      assert SessionOk(s.shared, s.shared.sessions[i], s.pcs[i]);
      assert TidyKey(s.shared.sessions[i].key) && TidyTable(s.pcs[i]);
      AnnouncementFits(s.shared.sessions[i]);
      if Due(s.pcs[i]) { DueFits(s.pcs[i]); }
    }
  }

  lemma KeyStaysOnLogin(kdf: Kdf, s: State, e: Event, i: Id)
    requires Ordered(s.shared) && At(s, i) && At(Step(kdf, s, e), i)
    requires e.Register? || e.ReadAccount? || e.CheckLogin?
    ensures Step(kdf, s, e).shared.sessions[i].key == s.shared.sessions[i].key
  {
  }

  lemma KeyStaysOnGrant(kdf: Kdf, s: State, id: Id, i: Id)
    requires Ordered(s.shared) && At(s, i)
    ensures i in Step(kdf, s, Grant(id)).shared.sessions
    ensures Step(kdf, s, Grant(id)).shared.sessions[i].key == s.shared.sessions[i].key
  {
  }

  lemma KeyStaysOnActivate(kdf: Kdf, s: State, id: Id, i: Id)
    requires Ordered(s.shared) && At(s, i)
    ensures i in Step(kdf, s, Event.Activate(id)).shared.sessions
    ensures Step(kdf, s, Event.Activate(id)).shared.sessions[i].key == s.shared.sessions[i].key
  {
  }

  lemma KeyStaysOnCommand(kdf: Kdf, s: State, e: Event, i: Id)
    requires Ordered(s.shared) && At(s, i) && At(Step(kdf, s, e), i)
    requires e.SetProfile? || e.Rename? || e.SetPassword? || QuietRoom(e) || e.Close? || e.Disconnect?
    ensures Step(kdf, s, e).shared.sessions[i].key == s.shared.sessions[i].key
  {
  }

  lemma KeyStaysOnWrite(kdf: Kdf, s: State, e: Event, i: Id)
    requires Ordered(s.shared) && At(s, i) && At(Step(kdf, s, e), i)
    requires e.TakeTable? || e.SendTable? || e.Announce? || e.Relay? || e.Reply? || e.Ask? || e.SendAnswer?
    ensures Step(kdf, s, e).shared.sessions[i].key == s.shared.sessions[i].key
  {
    if e.Relay? && Waits(s, e.id) { RelaySameButOut(s.shared, e.id, e.kind, e.payload); }
  }

  /** A key changes only when its owner publishes. */
  lemma KeyStays(kdf: Kdf, s: State, e: Event, i: Id)
    requires Ordered(s.shared) && At(s, i) && At(Step(kdf, s, e), i)
    ensures var key := Step(kdf, s, e).shared.sessions[i].key;
      key == s.shared.sessions[i].key || (e.Publish? && |Split(e.payload, NUL)| >= 2 && key == Split(e.payload, NUL)[1])
  {
    if e.Register? || e.ReadAccount? || e.CheckLogin? {
      KeyStaysOnLogin(kdf, s, e, i);
    } else if e.Grant? {
      KeyStaysOnGrant(kdf, s, e.id, i);
    } else if e.Activate? {
      KeyStaysOnActivate(kdf, s, e.id, i);
    } else if e.SetProfile? || e.Rename? || e.SetPassword? || QuietRoom(e) || e.Close? || e.Disconnect? {
      KeyStaysOnCommand(kdf, s, e, i);
    } else if !e.Publish? && !e.Connect? && !e.Restart? {
      KeyStaysOnWrite(kdf, s, e, i);
    }
  }

  lemma {:induction false} EntriesAreTidy(s: State, n: nat)
    requires Inv(s) && TidyKeys(s) && n <= |s.shared.order|
    ensures forall e :: e in Entries(s.shared.sessions, s.shared.order, n) ==> ValidName(e.name) && TidyKey(e.key)
    decreases |s.shared.order| - n
  {
    if n < |s.shared.order| {
      var i := s.shared.order[n];
      EntriesAreTidy(s, n + 1);
      assert SessionOk(s.shared, s.shared.sessions[i], s.pcs[i]);
      assert At(s, i) && TidyKey(s.shared.sessions[i].key);
    }
  }

  lemma OnlyConnectBrings(kdf: Kdf, s: State, e: Event, i: Id)
    requires Ordered(s.shared) && At(Step(kdf, s, e), i) && !At(s, i) && s.pcs.Keys == s.shared.sessions.Keys
    ensures e.Connect? && Step(kdf, s, e).shared.sessions[i].key == [] && Step(kdf, s, e).pcs[i] == Idle
  {
    if e.Relay? && Waits(s, e.id) { RelaySameButOut(s.shared, e.id, e.kind, e.payload); }
  }

  lemma ReadKeysAreTidy(s: State, e: Event)
    requires Inv(s) && TidyKeys(s) && (e.TakeTable? || e.Ask?)
    ensures forall x :: x in ReadNow(s, e) ==> TidyKey(x.key)
    ensures e.TakeTable? ==> forall x :: x in ReadNow(s, e) ==> ValidName(x.name)
  {
    EntriesAreTidy(s, 0);
    if e.Ask? && At(s, e.id) { AnswerIsFromTable(s, e.id, e.query); }
  }

  lemma ReadTableIsTidy(kdf: Kdf, s: State, e: Event, i: Id)
    requires Inv(s) && TidyKeys(s) && |s.shared.order| <= CROWD && At(Step(kdf, s, e), i) && (e.TakeTable? || e.Ask?)
    ensures TidyTable(Step(kdf, s, e).pcs[i])
  {
    ReadKeysAreTidy(s, e);
    ReadIsFew(s, e);
    OnlyReads(kdf, s, e, i);
    assert TidyTable(s.pcs[i]);
    if e.Ask? { AskSendsNoTable(kdf, s, e, i); }
  }

  lemma AskSendsNoTable(kdf: Kdf, s: State, e: Event, i: Id)
    requires Ordered(s.shared) && e.Ask? && At(s, i) && At(Step(kdf, s, e), i)
    ensures Step(kdf, s, e).pcs[i].Sending? ==> Step(kdf, s, e).pcs[i] == s.pcs[i]
  {
  }

  lemma TablesStayTidy(kdf: Kdf, s: State, e: Event, i: Id)
    requires Inv(s) && TidyKeys(s) && |s.shared.order| <= CROWD && At(Step(kdf, s, e), i)
    ensures TidyTable(Step(kdf, s, e).pcs[i])
  {
    if e.TakeTable? || e.Ask? {
      ReadTableIsTidy(kdf, s, e, i);
    } else if Due(Step(kdf, s, e).pcs[i]) {
      StepKeepsInv(kdf, s, e);
      NoTableIsNew(kdf, s, e);
      assert At(s, i) && TidyTable(s.pcs[i]);
    }
  }

  lemma StepKeepsTidy(kdf: Kdf, s: State, e: Event)
    requires Inv(s) && TidyKeys(s) && |s.shared.order| <= CROWD && TidyEvent(e)
    ensures TidyKeys(Step(kdf, s, e))
  {
    var t := Step(kdf, s, e);
    forall i | At(t, i) ensures TidyKey(t.shared.sessions[i].key) && TidyTable(t.pcs[i]) {
      TablesStayTidy(kdf, s, e, i);
      if At(s, i) {
        KeyStays(kdf, s, e, i);
        assert TidyKey(s.shared.sessions[i].key);
      } else {
        OnlyConnectBrings(kdf, s, e, i);
      }
    }
  }

  // ---------------------------------------------------------------- what a client is about to know

  function KeyUnder(known: Known, n: bytes): Option<bytes>
  {
    if n in known then Some(known[n]) else None
  }

  /** What `b` will know once the table or the answer on its way has arrived. */
  ghost function Expecting(s: State, b: Id): Known
  {
    if !At(s, b) then map[]
    else
      var known := KnownFrom(s.shared.sessions[b].out);
      if Due(s.pcs[b]) then Store(known, s.pcs[b].entries) else known
  }

  /** The key under which a table lists the name. */
  function Listed(entries: seq<Entry>, n: bytes): Option<bytes>
  {
    KeyUnder(Store(map[], entries), n)
  }

  lemma {:induction false} StoreOver(known: Known, entries: seq<Entry>, n: bytes)
    ensures KeyUnder(Store(known, entries), n)
         == if Listed(entries, n).Some? then Listed(entries, n) else KeyUnder(known, n)
    decreases |entries|
  {
    if entries != [] {
      var e := entries[0];
      StoreOver(known[e.name := e.key], entries[1..], n);
      StoreOver(map[][e.name := e.key], entries[1..], n);
    }
  }

  ghost predicate InTable(pc: Pc, n: bytes)
  {
    Due(pc) && Listed(pc.entries, n).Some?
  }

  /** The key the step tells `b` under the name, if any: by reading the table or an answer for it, or by
      announcing it, unless an older table or answer that lists the name is still to come and will have
      the last word. */
  ghost function Mention(s: State, e: Event, b: Id, n: bytes): Option<bytes>
    requires Ordered(s.shared)
  {
    match e
    case TakeTable(id) =>
      if id == b && At(s, b) && s.pcs[b] == Taking
      then Listed(Entries(s.shared.sessions, s.shared.order, 0), n) else None
    case Ask(id, q) =>
      if id == b && Commands(s, b) && Asks(q) then Listed(Answered(s.shared, b, q), n) else None
    case Announce(id) =>
      if id != b && At(s, id) && At(s, b) && s.pcs[id] == Announcing
         && s.shared.sessions[id].name == n && !InTable(s.pcs[b], n)
      then Some(s.shared.sessions[id].key) else None
    case _ => None
  }

  // ---------------------------------------------------------------- one step

  /** What `b` expects under the name after a step: what it is told, or what it expected before. */
  ghost predicate Tells(kdf: Kdf, s: State, e: Event, b: Id, n: bytes)
    requires Ordered(s.shared)
  {
    KeyUnder(Expecting(Step(kdf, s, e), b), n)
      == if Mention(s, e, b, n).Some? then Mention(s, e, b, n) else KeyUnder(Expecting(s, b), n)
  }

  lemma TakeTells(kdf: Kdf, s: State, id: Id, b: Id, n: bytes)
    requires Ordered(s.shared) && At(s, b)
    ensures Tells(kdf, s, TakeTable(id), b, n)
  {
    if id == b && s.pcs[b] == Taking {
      StoreOver(KnownFrom(s.shared.sessions[b].out), Entries(s.shared.sessions, s.shared.order, 0), n);
    }
  }

  lemma AskTells(kdf: Kdf, s: State, id: Id, q: Query, b: Id, n: bytes)
    requires Ordered(s.shared) && At(s, b)
    ensures Tells(kdf, s, Ask(id, q), b, n)
  {
    AskLeaves(kdf, s, id, q, b);
    if id == b && Commands(s, b) && Asks(q) {
      StoreOver(KnownFrom(s.shared.sessions[b].out), Answered(s.shared, b, q), n);
    }
  }

  lemma AskLeaves(kdf: Kdf, s: State, id: Id, q: Query, b: Id)
    requires Ordered(s.shared) && At(s, b)
    ensures var t := Step(kdf, s, Ask(id, q));
      && At(t, b) && t.shared == s.shared
      && t.pcs[b] == if id == b && Commands(s, b) && Asks(q) then Answering(q, Answered(s.shared, b, q)) else s.pcs[b]
  {
  }

  lemma DueArrives(s: State, b: Id)
    requires Inv(s) && TidyKeys(s) && At(s, b) && Due(s.pcs[b])
    ensures KnownFrom(PostTo(s.shared, b, DuePacket(s.pcs[b])).sessions[b].out)
         == Store(KnownFrom(s.shared.sessions[b].out), s.pcs[b].entries)
  {
    assert TidyTable(s.pcs[b]) && SessionOk(s.shared, s.shared.sessions[b], s.pcs[b]);
    TidyFits(s);
    DueIsRead(s.shared.sessions[b].out, s.pcs[b]);
  }

  predicate Sends(e: Event)
  {
    e.SendTable? || e.SendAnswer?
  }

  /** The event writes what is due to its client. */
  ghost predicate Hands(s: State, e: Event)
  {
    Sends(e) && At(s, e.id) && (if e.SendTable? then s.pcs[e.id].Sending? else s.pcs[e.id].Answering?)
  }

  lemma SendLeaves(kdf: Kdf, s: State, e: Event, b: Id)
    requires Ordered(s.shared) && At(s, b) && Sends(e) && (e.id != b || !Hands(s, e))
    ensures var t := Step(kdf, s, e);
      At(t, b) && t.shared.sessions[b] == s.shared.sessions[b] && t.pcs[b] == s.pcs[b]
  {
  }

  lemma SendMovesOn(kdf: Kdf, s: State, e: Event)
    requires Ordered(s.shared) && Hands(s, e)
    ensures var t, b := Step(kdf, s, e), e.id;
      && At(t, b) && !Due(t.pcs[b])
      && t.shared.sessions[b] == PostTo(s.shared, b, DuePacket(s.pcs[b])).sessions[b]
  {
  }

  lemma SendTells(kdf: Kdf, s: State, e: Event, b: Id, n: bytes)
    requires Inv(s) && TidyKeys(s) && At(s, b) && Sends(e)
    ensures Tells(kdf, s, e, b, n)
  {
    if e.id == b && Hands(s, e) {
      DueArrives(s, b);
      SendMovesOn(kdf, s, e);
    } else {
      SendLeaves(kdf, s, e, b);
    }
  }

  lemma AnnouncedIsRead(s: State, id: Id, b: Id)
    requires Inv(s) && TidyKeys(s) && At(s, id) && At(s, b) && b != id
    ensures var c, t := s.shared.sessions[id], Broadcast(s.shared, Announcement(s.shared.sessions[id]), Some(id));
      KnownFrom(t.sessions[b].out) == KnownFrom(s.shared.sessions[b].out)[c.name := c.key]
  {
    var c, out := s.shared.sessions[id], s.shared.sessions[b].out;
    assert SessionOk(s.shared, c, s.pcs[id]) && TidyKey(c.key);
    TidyFits(s);
    KnownAfter(out, Announcement(c));
    ReadNewText(KnownFrom(out), Entry(c.name, c.key));
  }

  lemma AnnounceLeaves(kdf: Kdf, s: State, id: Id, b: Id)
    requires Ordered(s.shared) && At(s, b) && (id == b || !At(s, id) || s.pcs[id] != Announcing)
    ensures var t := Step(kdf, s, Announce(id));
      At(t, b) && t.shared.sessions[b] == s.shared.sessions[b] && Due(t.pcs[b]) == Due(s.pcs[b])
      && (Due(s.pcs[b]) ==> t.pcs[b] == s.pcs[b])
  {
  }

  lemma AnnounceMoves(kdf: Kdf, s: State, id: Id, b: Id)
    requires Ordered(s.shared) && At(s, b) && At(s, id) && id != b && s.pcs[id] == Announcing
    ensures var t := Step(kdf, s, Announce(id));
      && At(t, b) && t.pcs[b] == s.pcs[b]
      && t.shared.sessions[b] == Broadcast(s.shared, Announcement(s.shared.sessions[id]), Some(id)).sessions[b]
  {
  }

  lemma AnnounceTells(kdf: Kdf, s: State, id: Id, b: Id, n: bytes)
    requires Inv(s) && TidyKeys(s) && At(s, b)
    ensures Tells(kdf, s, Announce(id), b, n)
  {
    if At(s, id) && s.pcs[id] == Announcing && id != b {
      AnnouncedIsRead(s, id, b);
      AnnounceMoves(kdf, s, id, b);
      AnnouncedOver(s, id, b, n);
    } else {
      AnnounceLeaves(kdf, s, id, b);
    }
  }

  /** A table or an answer on its way has the last word over an announcement. */
  lemma AnnouncedOver(s: State, id: Id, b: Id, n: bytes)
    requires At(s, id) && At(s, b)
    ensures var c, known, pc := s.shared.sessions[id], KnownFrom(s.shared.sessions[b].out), s.pcs[b];
      KeyUnder(if Due(pc) then Store(known[c.name := c.key], pc.entries) else known[c.name := c.key], n)
      == if c.name == n && !InTable(pc, n) then Some(c.key) else KeyUnder(Expecting(s, b), n)
  {
    var c, known := s.shared.sessions[id], KnownFrom(s.shared.sessions[b].out);
    if Due(s.pcs[b]) {
      StoreOver(known, s.pcs[b].entries, n);
      StoreOver(known[c.name := c.key], s.pcs[b].entries, n);
    }
  }

  lemma RelayTells(kdf: Kdf, s: State, e: Event, b: Id, n: bytes)
    requires Inv(s) && e.Relay? && At(s, b)
    ensures Tells(kdf, s, e, b, n)
  {
    if Waits(s, e.id) && Relayed(e.kind) { RelayTeachesNothing(s.shared, e.id, e.kind, e.payload, b); }
    RelayLeaves(kdf, s, e, b);
  }

  lemma RelayTeachesNothing(s: Shared, id: Id, kind: byte, payload: bytes, b: Id)
    requires Ordered(s) && NamesDistinct(s) && id in s.sessions && b in s.sessions
    ensures b in RelayFrame(s, id, kind, payload).sessions
    ensures KnownFrom(RelayFrame(s, id, kind, payload).sessions[b].out) == KnownFrom(s.sessions[b].out)
  {
    RelayRules.RelayExact(s, id, kind, payload);
    WrittenFrame(s.sessions[b], kind, payload);
  }

  lemma RelayLeaves(kdf: Kdf, s: State, e: Event, b: Id)
    requires Ordered(s.shared) && e.Relay? && At(s, b)
    ensures var t := Step(kdf, s, e);
      && b in t.pcs && t.pcs[b] == s.pcs[b]
      && t.shared == if Waits(s, e.id) && Relayed(e.kind) then RelayFrame(s.shared, e.id, e.kind, e.payload)
                     else s.shared
  {
  }

  lemma ReplyTells(kdf: Kdf, s: State, e: Event, b: Id, n: bytes)
    requires Ordered(s.shared) && e.Reply? && At(s, b)
    ensures Tells(kdf, s, e, b, n)
  {
    ReplyLeaves(kdf, s, e, b);
    if !IsDirectoryText(Trim(e.text)) { WrittenReply(s.shared.sessions[b], e.text); }
  }

  lemma ReplyLeaves(kdf: Kdf, s: State, e: Event, b: Id)
    requires Ordered(s.shared) && e.Reply? && At(s, b)
    ensures var t := Step(kdf, s, e);
      && At(t, b) && t.pcs[b] == s.pcs[b]
      && (t.shared.sessions[b] == s.shared.sessions[b]
          || (!IsDirectoryText(Trim(e.text)) && t.shared.sessions[b] == Post(s.shared.sessions[b], Text(e.text))))
  {
  }

  lemma TableWaitsForSetUp(kdf: Kdf, s: State, e: Event, b: Id)
    requires Ordered(s.shared) && At(s, b) && Due(s.pcs[b]) && At(Step(kdf, s, e), b)
    requires RelayRules.SetsUp(e) && !e.TakeTable?
    ensures Step(kdf, s, e).pcs[b] == s.pcs[b]
  {
  }

  lemma TableWaitsForCommand(kdf: Kdf, s: State, e: Event, b: Id)
    requires Ordered(s.shared) && At(s, b) && Due(s.pcs[b]) && At(Step(kdf, s, e), b)
    requires !RelayRules.SetsUp(e) && !RelayRules.Speaks(e) && !e.Ask?
    ensures Step(kdf, s, e).pcs[b] == s.pcs[b]
  {
  }

  /** The other steps write nothing and leave tables on their way. */
  lemma SilentTells(kdf: Kdf, s: State, e: Event, b: Id, n: bytes)
    requires Ordered(s.shared) && At(s, b) && At(Step(kdf, s, e), b)
    requires !RelayRules.Speaks(e) && !e.TakeTable? && !e.Ask?
    ensures Tells(kdf, s, e, b, n)
  {
    RelayRules.WritesNothing(kdf, s, e, b);
    NoTableIsNew(kdf, s, e);
    if Due(s.pcs[b]) {
      if RelayRules.SetsUp(e) { TableWaitsForSetUp(kdf, s, e, b); } else { TableWaitsForCommand(kdf, s, e, b); }
    }
  }

  lemma StepTells(kdf: Kdf, s: State, e: Event, b: Id, n: bytes)
    requires Inv(s) && TidyKeys(s) && At(s, b) && At(Step(kdf, s, e), b)
    ensures Tells(kdf, s, e, b, n)
  {
    if e.TakeTable? {
      TakeTells(kdf, s, e.id, b, n);
    } else if e.Ask? {
      AskTells(kdf, s, e.id, e.query, b, n);
    } else if Sends(e) {
      SendTells(kdf, s, e, b, n);
    } else if e.Announce? {
      AnnounceTells(kdf, s, e.id, b, n);
    } else if e.Relay? {
      RelayTells(kdf, s, e, b, n);
    } else if e.Reply? {
      ReplyTells(kdf, s, e, b, n);
    } else {
      SilentTells(kdf, s, e, b, n);
    }
  }

  lemma ArrivesKnowingNothing(kdf: Kdf, s: State, e: Event, b: Id)
    requires Ordered(s.shared) && s.pcs.Keys == s.shared.sessions.Keys && !At(s, b) && At(Step(kdf, s, e), b)
    ensures Expecting(Step(kdf, s, e), b) == map[]
  {
    OnlyConnectBrings(kdf, s, e, b);
    assert Step(kdf, s, e).shared.sessions[b].out == [];
  }

  // ---------------------------------------------------------------- runs

  /** The key `b` was told last under the name; a new connection starts from nothing. */
  ghost function LastTold(kdf: Kdf, s: State, events: seq<Event>, b: Id, n: bytes, prior: Option<bytes>): Option<bytes>
    requires Inv(s)
    decreases |events|
  {
    if events == [] then prior
    else
      StepKeepsInv(kdf, s, events[0]);
      var m, t := Mention(s, events[0], b, n), Step(kdf, s, events[0]);
      LastTold(kdf, t, events[1..], b, n, if !At(t, b) then None else if m.Some? then m else prior)
  }

  /** After any run, what a client expects under a name is exactly what it was told last. */
  lemma {:induction false} ExpectsLastTold(kdf: Kdf, s: State, events: seq<Event>, b: Id, n: bytes)
    requires Inv(s) && TidyKeys(s) && TidyRun(kdf, s, events)
    ensures KeyUnder(Expecting(Run(kdf, s, events), b), n)
         == LastTold(kdf, s, events, b, n, KeyUnder(Expecting(s, b), n))
    decreases |events|
  {
    if events != [] {
      var e, t := events[0], Step(kdf, s, events[0]);
      StepKeepsInv(kdf, s, e);
      StepKeepsTidy(kdf, s, e);
      ExpectsLastTold(kdf, t, events[1..], b, n);
      ExpectsNext(kdf, s, e, b, n);
    }
  }

  lemma ExpectsNext(kdf: Kdf, s: State, e: Event, b: Id, n: bytes)
    requires Inv(s) && TidyKeys(s)
    ensures KeyUnder(Expecting(Step(kdf, s, e), b), n)
         == if !At(Step(kdf, s, e), b) then None
            else if Mention(s, e, b, n).Some? then Mention(s, e, b, n)
            else KeyUnder(Expecting(s, b), n)
  {
    if At(Step(kdf, s, e), b) {
      if At(s, b) {
        StepTells(kdf, s, e, b, n);
      } else {
        ArrivesKnowingNothing(kdf, s, e, b);
      }
    }
  }

  /** From every start, and once nothing is on its way: a client holds a key under a name if and only if
      that key is the last it was told under this name. */
  lemma KnowsLastTold(kdf: Kdf, stored: map<bytes, Account>, table: map<bytes, Row>, events: seq<Event>,
                      b: Id, n: bytes)
    ensures Inv(Boot(stored, table))
    ensures var t := Run(kdf, Boot(stored, table), events);
      TidyRun(kdf, Boot(stored, table), events) && At(t, b) && !Due(t.pcs[b]) ==>
        KeyUnder(KnownFrom(t.shared.sessions[b].out), n) == LastTold(kdf, Boot(stored, table), events, b, n, None)
  {
    StartIsSafe(stored, table);
    if TidyRun(kdf, Boot(stored, table), events) { ExpectsLastTold(kdf, Boot(stored, table), events, b, n); }
  }
}
