/**
 Completeness of the distributed key directory. A client's map of known keys is a function of
 what the server has written to its connection; the theorem says that, whatever the
 interleaving, once a client's queue is drained that map holds the key of every other client
 that is activated and has published.
 */
module KeyDirectory {
  import opened Wrappers
  import opened Bytes
  import opened Accounts
  import opened Directory
  import opened Answers
  import opened ServerSpec
  import opened Interleaving
  import opened SessionSafety
  import RelayRules

  /** The client's map after one packet; an answer is stored as the answer to the question it was given to. */
  function ReadPacket(known: Known, p: Packet): Known
  {
    match p
    case Text(text) => ReadText(known, text)
    case Answer(q, answer) => ReadAnswer(known, q, answer)
    case Frame(_, _) => known
  }

  /** The client's map after reading everything in `out`, in order. */
  ghost function KnownFrom(out: seq<Packet>): Known
  {
    if out == [] then map[] else ReadPacket(KnownFrom(out[..|out| - 1]), out[|out| - 1])
  }

  lemma KnownAfter(out: seq<Packet>, p: Packet)
    ensures KnownFrom(out + [p]) == ReadPacket(KnownFrom(out), p)
  {
    assert (out + [p])[..|out|] == out;
  }

  /** The key each name publishes: never empty, and fit for the table. */
  type Keys = bytes -> bytes

  ghost predicate GoodKeys(pub: Keys)
  {
    forall n :: ValidName(n) ==> pub(n) != [] && CarriableKey(pub(n))
  }

  // ---------------------------------------------------------------- the invariant

  /** Activated, published, and the announcement has been broadcast. */
  ghost predicate Announced(c: Session, pc: Pc)
  {
    c.activated && c.key != [] && !pc.Taking? && !pc.Sending? && !pc.Announcing?
  }

  /** Activated, and the directory has at least been read for it. */
  ghost predicate Listening(c: Session, pc: Pc)
  {
    c.activated && !pc.Taking?
  }

  /** The directory, or an answer about keys, has been read for the client and not yet written. */
  ghost predicate Due(pc: Pc)
  {
    pc.Sending? || pc.Answering?
  }

  /** The directory lists the name. */
  ghost predicate Lists(entries: seq<Entry>, name: bytes)
  {
    exists k :: 0 <= k < |entries| && entries[k].name == name
  }

  ghost predicate InTransit(pc: Pc, name: bytes)
  {
    Due(pc) && Lists(pc.entries, name)
  }

  ghost predicate Holds(pub: Keys, known: Known, name: bytes)
  {
    name in known && known[name] == pub(name)
  }

  /** `b` will know `a`: it already does, or what it is about to be sent says so. */
  ghost predicate WillKnow(pub: Keys, s: State, b: Id, name: bytes)
    requires At(s, b)
  {
    Holds(pub, KnownFrom(s.shared.sessions[b].out), name) || InTransit(s.pcs[b], name)
  }

  ghost predicate OwnKey(pub: Keys, c: Session)
  {
    c.key == [] || c.key == pub(c.name)
  }

  ghost predicate TrueTable(pub: Keys, pc: Pc)
  {
    && (Due(pc) ==> TrueEntries(pub, pc.entries))
    && (pc.Sending? ==> forall e :: e in pc.entries ==> ValidName(e.name))
  }

  ghost predicate TrueEntries(pub: Keys, entries: seq<Entry>)
  {
    forall e :: e in entries ==> CarriableKey(e.key) && (ValidName(e.name) ==> e.key == pub(e.name))
  }

  /** What the directory owes to the pair: `b` will know `a`. */
  ghost predicate Owed(pub: Keys, s: State, a: Id, b: Id)
    requires At(s, a) && At(s, b)
  {
    Announced(s.shared.sessions[a], s.pcs[a]) && Listening(s.shared.sessions[b], s.pcs[b])
    ==> WillKnow(pub, s, b, s.shared.sessions[a].name)
  }

  ghost predicate TrueKeys(pub: Keys, s: State, i: Id)
    requires At(s, i)
  {
    OwnKey(pub, s.shared.sessions[i]) && TrueTable(pub, s.pcs[i])
  }

  ghost predicate Complete(pub: Keys, s: State)
  {
    && (forall i :: At(s, i) ==> TrueKeys(pub, s, i))
    && (forall a, b :: At(s, a) && At(s, b) && a != b ==> Owed(pub, s, a, b))
  }

  // ---------------------------------------------------------------- steps that do not matter

  /** For the directory, a client and its goroutine look the same before and after. */
  ghost predicate LooksSame(c: Session, pc: Pc, d: Session, pd: Pc)
  {
    && d.name == c.name && d.key == c.key && d.activated == c.activated
    && KnownFrom(d.out) == KnownFrom(c.out)
    && (pd == pc || (Aside(pc) && Aside(pd)))
  }

  /** The goroutine is not about to write anything of the directory. */
  ghost predicate Aside(pc: Pc)
  {
    !pc.Taking? && !Due(pc) && !pc.Announcing?
  }

  lemma QuietStep(pub: Keys, s: State, t: State)
    requires Complete(pub, s)
    requires forall i | At(t, i) ::
      At(s, i) && LooksSame(s.shared.sessions[i], s.pcs[i], t.shared.sessions[i], t.pcs[i])
    ensures Complete(pub, t)
  {
    forall i | At(t, i) ensures TrueKeys(pub, t, i) {
      assert TrueKeys(pub, s, i);
    }
    forall a, b | At(t, a) && At(t, b) && a != b ensures Owed(pub, t, a, b) {
      assert Owed(pub, s, a, b);
    }
  }

  // ---------------------------------------------------------------- the table

  lemma {:induction false} EntriesAre(pub: Keys, s: State, n: nat)
    requires GoodKeys(pub) && Inv(s) && Complete(pub, s) && n <= |s.shared.order|
    ensures forall e :: e in Entries(s.shared.sessions, s.shared.order, n) ==>
      ValidName(e.name) && CarriableKey(e.key) && e.key == pub(e.name)
    decreases |s.shared.order| - n
  {
    var order := s.shared.order;
    if n < |order| {
      EntriesAre(pub, s, n + 1);
      var c := s.shared.sessions[order[n]];
      assert TrueKeys(pub, s, order[n]) && SessionOk(s.shared, c, s.pcs[order[n]]);
      var own := if c.authed && c.key != [] then [Entry(c.name, c.key)] else [];
      assert Entries(s.shared.sessions, order, n) == own + Entries(s.shared.sessions, order, n + 1);
    }
  }

  lemma {:induction false} EntriesList(sessions: map<Id, Session>, order: seq<Id>, n: nat, k: nat)
    requires n <= k < |order| && ServerSpec.Lists(sessions, order)
    requires sessions[order[k]].authed && sessions[order[k]].key != []
    ensures Lists(Entries(sessions, order, n), sessions[order[k]].name)
    decreases |order| - n
  {
    var c, rest, all := sessions[order[n]], Entries(sessions, order, n + 1), Entries(sessions, order, n);
    var own := if c.authed && c.key != [] then [Entry(c.name, c.key)] else [];
    assert all == own + rest;
    if k == n {
      assert all[0].name == c.name;
    } else {
      EntriesList(sessions, order, n + 1, k);
      var j :| 0 <= j < |rest| && rest[j].name == sessions[order[k]].name;
      assert all[|own| + j].name == sessions[order[k]].name;
    }
  }

  lemma {:induction false} StoreHolds(pub: Keys, known: Known, entries: seq<Entry>, name: bytes)
    requires ValidName(name) && TrueEntries(pub, entries)
    requires Holds(pub, known, name) || Lists(entries, name)
    ensures Holds(pub, Store(known, entries), name)
    decreases |entries|
  {
    if entries != [] {
      assert entries[0] in entries;
      var next := known[entries[0].name := entries[0].key];
      if entries[0].name != name && !Holds(pub, known, name) {
        var k :| 0 <= k < |entries| && entries[k].name == name;
        assert entries[1..][k - 1].name == name;
      }
      StoreHolds(pub, next, entries[1..], name);
    }
  }

  lemma TakeTableStep(pub: Keys, s: State, id: Id)
    requires GoodKeys(pub) && Inv(s) && Complete(pub, s) && At(s, id) && s.pcs[id] == Taking
    ensures Complete(pub, Goto(s, s.shared, id, Sending(Entries(s.shared.sessions, s.shared.order, 0))))
  {
    var t := Goto(s, s.shared, id, Sending(Entries(s.shared.sessions, s.shared.order, 0)));
    EntriesAre(pub, s, 0);
    forall i | At(t, i) ensures TrueKeys(pub, t, i) {
      assert TrueKeys(pub, s, i);
    }
    forall a, b | At(t, a) && At(t, b) && a != b ensures Owed(pub, t, a, b) {
      assert Owed(pub, s, a, b);
      if b == id && Announced(t.shared.sessions[a], t.pcs[a]) {
        assert SessionOk(s.shared, s.shared.sessions[a], s.pcs[a]);
        var k :| 0 <= k < |s.shared.order| && s.shared.order[k] == a;
        EntriesList(s.shared.sessions, s.shared.order, 0, k);
      }
    }
  }

  // ---------------------------------------------------------------- answers

  lemma {:induction false} RoomEntriesAreEntries(sessions: map<Id, Session>, order: seq<Id>, n: nat, room: bytes)
    requires n <= |order| && ServerSpec.Lists(sessions, order)
    ensures forall e :: e in RoomEntries(sessions, order, n, room) ==> e in Entries(sessions, order, n)
    ensures |RoomEntries(sessions, order, n, room)| <= |order| - n
    decreases |order| - n
  {
    if n < |order| { RoomEntriesAreEntries(sessions, order, n + 1, room); }
  }

  lemma {:induction false} FirstKeyIsEntry(sessions: map<Id, Session>, order: seq<Id>, n: nat, name: bytes)
    requires n <= |order| && ServerSpec.Lists(sessions, order)
    ensures var key := FirstKey(sessions, order, n, name);
      key.Some? ==> Entry(name, key.value) in Entries(sessions, order, n)
    decreases |order| - n
  {
    if n < |order| { FirstKeyIsEntry(sessions, order, n + 1, name); }
  }

  /** The keys of an answer are keys of the directory. */
  lemma AnswerIsFromTable(s: State, id: Id, q: Query)
    requires Inv(s) && At(s, id)
    ensures forall e :: e in Answered(s.shared, id, q) ==>
      exists d :: d in Entries(s.shared.sessions, s.shared.order, 0) && e.key == d.key
                  && (q.Members? ==> e == d) && (q.KeyOf? ==> e.name == q.name && d.name == Trim(q.name))
  {
    var all := Entries(s.shared.sessions, s.shared.order, 0);
    match q
    case Members => RoomEntriesAreEntries(s.shared.sessions, s.shared.order, 0, s.shared.sessions[id].room);
    case KeyOf(name) =>
      FirstKeyIsEntry(s.shared.sessions, s.shared.order, 0, Trim(name));
      var key := FirstKey(s.shared.sessions, s.shared.order, 0, Trim(name));
      if key.Some? { assert Entry(Trim(name), key.value) in all; }
  }

  lemma AnswerIsTrue(pub: Keys, s: State, id: Id, q: Query)
    requires GoodKeys(pub) && Inv(s) && Complete(pub, s) && At(s, id)
    ensures TrueEntries(pub, Answered(s.shared, id, q))
  {
    EntriesAre(pub, s, 0);
    AnswerIsFromTable(s, id, q);
    forall e | e in Answered(s.shared, id, q)
      ensures CarriableKey(e.key) && (ValidName(e.name) ==> e.key == pub(e.name))
    {
      var d :| d in Entries(s.shared.sessions, s.shared.order, 0) && e.key == d.key
               && (q.Members? ==> e == d) && (q.KeyOf? ==> e.name == q.name && d.name == Trim(q.name));
      if ValidName(e.name) { ValidNameIsPlain(e.name); }
    }
  }

  lemma AskStep(pub: Keys, s: State, id: Id, q: Query)
    requires GoodKeys(pub) && Inv(s) && Complete(pub, s) && Waits(s, id)
    ensures Complete(pub, Goto(s, s.shared, id, Answering(q, Answered(s.shared, id, q))))
  {
    AnswerIsTrue(pub, s, id, q);
    AnswerComes(pub, s, id, q, Answered(s.shared, id, q));
  }

  /** Waiting for an answer, a client still knows what it knew. */
  lemma AnswerComes(pub: Keys, s: State, id: Id, q: Query, entries: seq<Entry>)
    requires Complete(pub, s) && Waits(s, id) && TrueEntries(pub, entries)
    ensures Complete(pub, Goto(s, s.shared, id, Answering(q, entries)))
  {
    var t := Goto(s, s.shared, id, Answering(q, entries));
    forall i | At(t, i) ensures TrueKeys(pub, t, i) {
      assert TrueKeys(pub, s, i);
    }
    forall a, b | At(t, a) && At(t, b) && a != b ensures Owed(pub, t, a, b) {
      assert Owed(pub, s, a, b);
    }
  }

  // ---------------------------------------------------------------- what is written

  /** What has been read for the goroutine, as it is written to the client, and where that leaves it. */
  ghost function DuePacket(pc: Pc): Packet
    requires Due(pc)
  {
    if pc.Sending? then Text(KeysText(pc.entries)) else AnswerOf(pc)
  }

  ghost function AfterDue(pc: Pc): Pc
  {
    if pc.Sending? then Announcing else Idle
  }

  lemma DueIsRead(out: seq<Packet>, pc: Pc)
    requires Due(pc) && (forall e :: e in pc.entries ==> CarriableKey(e.key))
    requires pc.Sending? ==> forall e :: e in pc.entries ==> ValidName(e.name)
    requires pc.Answering? ==> Fitting(pc.query, pc.entries)
    ensures KnownFrom(out + [DuePacket(pc)]) == Store(KnownFrom(out), pc.entries)
  {
    KnownAfter(out, DuePacket(pc));
    if pc.Sending? {
      ReadKeysText(KnownFrom(out), pc.entries);
    } else {
      ReadAnswerText(KnownFrom(out), pc.query, pc.entries);
    }
  }

  lemma SentIsRead(pub: Keys, s: State, id: Id)
    requires Inv(s) && Complete(pub, s) && At(s, id) && Due(s.pcs[id]) && Fits(DuePacket(s.pcs[id]))
    ensures KnownFrom(PostTo(s.shared, id, DuePacket(s.pcs[id])).sessions[id].out)
      == Store(KnownFrom(s.shared.sessions[id].out), s.pcs[id].entries)
  {
    assert TrueKeys(pub, s, id) && SessionOk(s.shared, s.shared.sessions[id], s.pcs[id]);
    DueIsRead(s.shared.sessions[id].out, s.pcs[id]);
  }

  lemma SendOwes(pub: Keys, s: State, id: Id, t: State, a: Id, b: Id)
    requires Inv(s) && Complete(pub, s) && At(s, id) && Due(s.pcs[id]) && Fits(DuePacket(s.pcs[id]))
    requires t == Goto(s, PostTo(s.shared, id, DuePacket(s.pcs[id])), id, AfterDue(s.pcs[id]))
    requires At(s, a) && At(s, b) && a != b && Owed(pub, s, a, b)
    ensures Owed(pub, t, a, b)
  {
    if b == id && Announced(s.shared.sessions[a], s.pcs[a]) && Listening(s.shared.sessions[b], s.pcs[b]) {
      SentIsRead(pub, s, id);
      assert TrueKeys(pub, s, id) && SessionOk(s.shared, s.shared.sessions[a], s.pcs[a]);
      StoreHolds(pub, KnownFrom(s.shared.sessions[id].out), s.pcs[id].entries, s.shared.sessions[a].name);
    }
  }

  /** A table or an answer is written to the client it was read for. */
  lemma SendStep(pub: Keys, s: State, id: Id)
    requires Inv(s) && Complete(pub, s) && At(s, id) && Due(s.pcs[id]) && Fits(DuePacket(s.pcs[id]))
    ensures Complete(pub, Goto(s, PostTo(s.shared, id, DuePacket(s.pcs[id])), id, AfterDue(s.pcs[id])))
  {
    var t := Goto(s, PostTo(s.shared, id, DuePacket(s.pcs[id])), id, AfterDue(s.pcs[id]));
    forall i | At(t, i) ensures TrueKeys(pub, t, i) {
      assert TrueKeys(pub, s, i);
    }
    forall a, b | At(t, a) && At(t, b) && a != b ensures Owed(pub, t, a, b) {
      assert Owed(pub, s, a, b);
      SendOwes(pub, s, id, t, a, b);
    }
  }

  // ---------------------------------------------------------------- the announcement

  lemma AnnounceReaches(pub: Keys, s: State, id: Id, b: Id)
    requires GoodKeys(pub) && Inv(s) && Complete(pub, s) && At(s, id) && At(s, b) && b != id
    requires Fits(Announcement(s.shared.sessions[id]))
    ensures var c, t := s.shared.sessions[id], Broadcast(s.shared, Announcement(s.shared.sessions[id]), Some(id));
      KnownFrom(t.sessions[b].out) == KnownFrom(s.shared.sessions[b].out)[c.name := c.key]
  {
    var c, out := s.shared.sessions[id], s.shared.sessions[b].out;
    assert SessionOk(s.shared, c, s.pcs[id]) && TrueKeys(pub, s, id);
    assert Carriable(Entry(c.name, c.key));
    KnownAfter(out, Announcement(c));
    ReadNewText(KnownFrom(out), Entry(c.name, c.key));
  }

  /** Somebody else's announcement takes nothing away from what `b` knows. */
  lemma OneMoreKey(pub: Keys, s: State, t: State, b: Id, name: bytes, key: bytes, other: bytes)
    requires At(s, b) && At(t, b) && t.pcs[b] == s.pcs[b]
    requires KnownFrom(t.shared.sessions[b].out) == KnownFrom(s.shared.sessions[b].out)[name := key]
    requires if other == name then key == pub(name) else WillKnow(pub, s, b, other)
    ensures WillKnow(pub, t, b, other)
  {
  }

  lemma AnnounceOwes(pub: Keys, s: State, id: Id, t: State, a: Id, b: Id)
    requires GoodKeys(pub) && Inv(s) && Complete(pub, s) && At(s, id) && s.pcs[id] == Announcing
    requires Fits(Announcement(s.shared.sessions[id]))
    requires t == Goto(s, Broadcast(s.shared, Announcement(s.shared.sessions[id]), Some(id)), id, Idle)
    requires At(s, a) && At(s, b) && a != b && Owed(pub, s, a, b) && TrueKeys(pub, s, a)
    requires b != id
    ensures Owed(pub, t, a, b)
  {
    var c, d := s.shared.sessions[id], s.shared.sessions[a];
    AnnounceReaches(pub, s, id, b);
    if Announced(t.shared.sessions[a], t.pcs[a]) && Listening(t.shared.sessions[b], t.pcs[b]) {
      assert a != id ==> d.name != c.name && Announced(d, s.pcs[a]) && Listening(s.shared.sessions[b], s.pcs[b]);
      OneMoreKey(pub, s, t, b, c.name, c.key, d.name);
    }
  }

  lemma AnnounceOwesSelf(pub: Keys, s: State, id: Id, t: State, a: Id)
    requires Complete(pub, s) && At(s, id) && s.pcs[id] == Announcing
    requires t == Goto(s, Broadcast(s.shared, Announcement(s.shared.sessions[id]), Some(id)), id, Idle)
    requires At(s, a) && a != id && Owed(pub, s, a, id)
    ensures Owed(pub, t, a, id)
  {
    assert t.shared.sessions[id] == s.shared.sessions[id];
  }

  lemma AnnounceKeepsKeys(pub: Keys, s: State, id: Id, i: Id)
    requires Complete(pub, s) && At(s, id) && s.pcs[id] == Announcing
    ensures var t := Goto(s, Broadcast(s.shared, Announcement(s.shared.sessions[id]), Some(id)), id, Idle);
      (At(t, i) <==> At(s, i)) && (At(t, i) ==> TrueKeys(pub, t, i))
  {
    BroadcastSameButOut(s.shared, Announcement(s.shared.sessions[id]), Some(id));
    if At(s, i) { assert TrueKeys(pub, s, i); }
  }

  lemma AnnounceStep(pub: Keys, s: State, id: Id)
    requires GoodKeys(pub) && Inv(s) && Complete(pub, s) && At(s, id) && s.pcs[id] == Announcing
    requires Fits(Announcement(s.shared.sessions[id]))
    ensures Complete(pub, Goto(s, Broadcast(s.shared, Announcement(s.shared.sessions[id]), Some(id)), id, Idle))
  {
    var t := Goto(s, Broadcast(s.shared, Announcement(s.shared.sessions[id]), Some(id)), id, Idle);
    forall i ensures (At(t, i) <==> At(s, i)) && (At(t, i) ==> TrueKeys(pub, t, i)) {
      AnnounceKeepsKeys(pub, s, id, i);
    }
    forall a, b | At(t, a) && At(t, b) && a != b ensures Owed(pub, t, a, b) {
      assert Owed(pub, s, a, b) && TrueKeys(pub, s, a);
      if b == id { AnnounceOwesSelf(pub, s, id, t, a); } else { AnnounceOwes(pub, s, id, t, a, b); }
    }
  }

  // ---------------------------------------------------------------- publishing and activating

  lemma PublishStep(pub: Keys, s: State, id: Id, payload: bytes)
    requires GoodKeys(pub) && Inv(s) && Complete(pub, s) && Waits(s, id)
    requires |Split(payload, NUL)| >= 2 ==> Split(payload, NUL)[1] == pub(s.shared.sessions[id].name)
    ensures Complete(pub, DoPublish(s, id, payload))
  {
    var t := DoPublish(s, id, payload);
    forall i | At(t, i) ensures TrueKeys(pub, t, i) {
      assert TrueKeys(pub, s, i);
    }
    forall a, b | At(t, a) && At(t, b) && a != b ensures Owed(pub, t, a, b) {
      PublishOwes(pub, s, id, payload, a, b);
    }
  }

  /** Whoever has published before has announced before, or is about to. */
  lemma PublishOwes(pub: Keys, s: State, id: Id, payload: bytes, a: Id, b: Id)
    requires Inv(s) && Complete(pub, s) && Waits(s, id) && At(s, a) && At(s, b) && a != b
    requires |Split(payload, NUL)| >= 2 ==> Split(payload, NUL)[1] == pub(s.shared.sessions[id].name)
    ensures At(DoPublish(s, id, payload), a) && At(DoPublish(s, id, payload), b)
    ensures Owed(pub, DoPublish(s, id, payload), a, b)
  {
    assert SessionOk(s.shared, s.shared.sessions[id], Idle);
    assert Owed(pub, s, a, b);
  }

  /** `t` is `s` with the key of `id` replaced, and its goroutine at `t.pcs[id]`. */
  ghost predicate Published(s: State, t: State, id: Id, key: bytes)
    requires At(s, id)
  {
    && t.shared == s.shared.(sessions := s.shared.sessions[id := s.shared.sessions[id].(key := key)])
    && id in t.pcs && t.pcs == s.pcs[id := t.pcs[id]]
  }

  lemma PublishIs(s: State, id: Id, payload: bytes)
    requires Waits(s, id)
    ensures var t, c, fields := DoPublish(s, id, payload), s.shared.sessions[id], Split(payload, NUL);
      if |fields| < 2 then t == s
      else
        && Published(s, t, id, fields[1])
        && (t.pcs[id] == Activating <==> c.authed && fields[1] != [] && !c.activated)
        && (t.pcs[id] == Taking <==> c.authed && fields[1] != [] && c.activated && c.key == [])
        && (t.pcs[id] == Idle <==> !c.authed || fields[1] == [] || (c.activated && c.key != []))
  {
  }

  lemma PublishStepIs(kdf: Kdf, s: State, id: Id, payload: bytes)
    requires Ordered(s.shared) && Waits(s, id)
    ensures Step(kdf, s, Publish(id, payload)) == DoPublish(s, id, payload)
  {
  }

  /** Publishing stores the second field as the client's key and writes nothing. The directory is read for the
      client, and its key announced, exactly when it is authenticated, the key is not empty, and it is not
      active yet or had no key; a key that replaces another one is not announced. */
  lemma PublishRule(kdf: Kdf, s: State, id: Id, fields: seq<bytes>)
    requires Ordered(s.shared) && Waits(s, id) && fields != [] && FreeOf(fields, NUL)
    ensures var t, c := Step(kdf, s, Publish(id, Join(fields, NUL))), s.shared.sessions[id];
      if |fields| == 1 then t == s
      else
        && Published(s, t, id, fields[1])
        && (t.pcs[id] == Activating <==> c.authed && fields[1] != [] && !c.activated)
        && (t.pcs[id] == Taking <==> c.authed && fields[1] != [] && c.activated && c.key == [])
        && (t.pcs[id] == Idle <==> !c.authed || fields[1] == [] || (c.activated && c.key != []))
  {
    SplitInvertsJoin(fields, NUL);
    PublishIs(s, id, Join(fields, NUL));
    PublishStepIs(kdf, s, id, Join(fields, NUL));
  }

  lemma ActivateStep(pub: Keys, s: State, id: Id)
    requires Complete(pub, s) && At(s, id) && s.pcs[id] == Activating
    ensures Complete(pub, Put(s, id, s.shared.sessions[id].(activated := true), Taking))
    ensures Complete(pub, Put(s, id, s.shared.sessions[id], Idle))
  {
    var t, u := Put(s, id, s.shared.sessions[id].(activated := true), Taking), Put(s, id, s.shared.sessions[id], Idle);
    forall i | At(s, i) ensures TrueKeys(pub, t, i) && TrueKeys(pub, u, i) {
      assert TrueKeys(pub, s, i);
    }
    forall a, b | At(s, a) && At(s, b) && a != b ensures Owed(pub, t, a, b) && Owed(pub, u, a, b) {
      assert Owed(pub, s, a, b);
    }
  }

  lemma ConnectStep(pub: Keys, s: State, id: Id, raw: bytes)
    requires Complete(pub, s)
    ensures Complete(pub, DoConnect(s, id, raw))
  {
    var t := DoConnect(s, id, raw);
    forall i | At(t, i) ensures TrueKeys(pub, t, i) {
      if i != id { assert TrueKeys(pub, s, i); }
    }
    forall a, b | At(t, a) && At(t, b) && a != b ensures Owed(pub, t, a, b) {
      if a != id && b != id { assert Owed(pub, s, a, b); }
    }
  }

  // ---------------------------------------------------------------- steps that only write other things

  lemma WrittenFrame(c: Session, kind: byte, payload: bytes)
    ensures KnownFrom(Post(c, Frame(kind, payload)).out) == KnownFrom(c.out)
  {
    KnownAfter(c.out, Frame(kind, payload));
  }

  lemma WrittenReply(c: Session, text: bytes)
    requires !IsDirectoryText(Trim(text))
    ensures KnownFrom(Post(c, Text(text)).out) == KnownFrom(c.out)
  {
    KnownAfter(c.out, Text(text));
  }

  lemma RelayStep(pub: Keys, s: State, id: Id, kind: byte, payload: bytes)
    requires Inv(s) && Complete(pub, s) && Waits(s, id)
    ensures Complete(pub, Goto(s, RelayFrame(s.shared, id, kind, payload), id, Idle))
  {
    var t := Goto(s, RelayFrame(s.shared, id, kind, payload), id, Idle);
    RelayRules.RelayExact(s.shared, id, kind, payload);
    forall i | At(t, i) ensures LooksSame(s.shared.sessions[i], s.pcs[i], t.shared.sessions[i], t.pcs[i]) {
      WrittenFrame(s.shared.sessions[i], kind, payload);
    }
    QuietStep(pub, s, t);
  }

  lemma ReplyStep(pub: Keys, s: State, to: set<Id>, text: bytes)
    requires Complete(pub, s) && !IsDirectoryText(Trim(text))
    ensures Complete(pub, s.(shared := WriteAll(s.shared, to, text)))
  {
    var t := s.(shared := WriteAll(s.shared, to, text));
    forall i | At(t, i) ensures LooksSame(s.shared.sessions[i], s.pcs[i], t.shared.sessions[i], t.pcs[i]) {
      WrittenReply(s.shared.sessions[i], text);
    }
    QuietStep(pub, s, t);
  }

  /** Events that touch neither keys nor directory texts. */
  predicate Quiet(e: Event)
  {
    QuietLogin(e) || QuietCommand(e)
  }

  predicate QuietLogin(e: Event)
  {
    e.Register? || e.ReadAccount? || e.CheckLogin? || e.Grant?
  }

  predicate QuietCommand(e: Event)
  {
    QuietRoom(e) || e.SetProfile? || e.SetPassword? || e.Close? || e.Disconnect?
  }

  predicate QuietRoom(e: Event)
  {
    e.CreateRoom? || e.EnterRoom? || e.JoinRoom? || e.LeaveRoom?
  }

  lemma CheckLoginIsQuiet(kdf: Kdf, s: State, id: Id, salt: bytes, i: Id)
    requires At(s, id) && At(s, i) && s.pcs[id].LoggingIn?
    ensures var t := DoCheckLogin(kdf, s, id, salt);
      At(t, i) && LooksSame(s.shared.sessions[i], s.pcs[i], t.shared.sessions[i], t.pcs[i])
  {
    if i != id { assert DoCheckLogin(kdf, s, id, salt).shared.sessions[i] == s.shared.sessions[i]; }
  }

  lemma QuietLoginEvent(kdf: Kdf, s: State, e: Event, i: Id)
    requires Ordered(s.shared) && QuietLogin(e) && At(s, i)
    ensures var t := Step(kdf, s, e);
      At(t, i) && LooksSame(s.shared.sessions[i], s.pcs[i], t.shared.sessions[i], t.pcs[i])
  {
    if e.CheckLogin? {
      QuietCheckEvent(kdf, s, e, i);
    } else if e.Register? {
      QuietRegisterEvent(kdf, s, e, i);
    }
  }

  lemma QuietCheckEvent(kdf: Kdf, s: State, e: Event, i: Id)
    requires Ordered(s.shared) && e.CheckLogin? && At(s, i)
    ensures var t := Step(kdf, s, e);
      At(t, i) && LooksSame(s.shared.sessions[i], s.pcs[i], t.shared.sessions[i], t.pcs[i])
  {
    if At(s, e.id) && s.pcs[e.id].LoggingIn? { CheckLoginIsQuiet(kdf, s, e.id, e.salt, i); }
  }

  lemma QuietRegisterEvent(kdf: Kdf, s: State, e: Event, i: Id)
    requires Ordered(s.shared) && e.Register? && At(s, i)
    ensures var t := Step(kdf, s, e);
      At(t, i) && LooksSame(s.shared.sessions[i], s.pcs[i], t.shared.sessions[i], t.pcs[i])
  {
    RegisterMoves(kdf, s, e);
  }

  lemma RegisterMoves(kdf: Kdf, s: State, e: Event)
    requires Ordered(s.shared) && e.Register?
    ensures var t := Step(kdf, s, e);
      && t.shared.sessions == s.shared.sessions
      && (t.pcs == s.pcs || (Waits(s, e.id) && t.pcs == s.pcs[e.id := Granted(false)]))
  {
  }

  lemma QuietRoomEvent(kdf: Kdf, s: State, e: Event, i: Id)
    requires Ordered(s.shared) && QuietRoom(e) && At(Step(kdf, s, e), i)
    ensures At(s, i)
    ensures var t := Step(kdf, s, e); LooksSame(s.shared.sessions[i], s.pcs[i], t.shared.sessions[i], t.pcs[i])
  {
    if e.CreateRoom? {
      QuietCreateEvent(kdf, s, e, i);
    } else if e.EnterRoom? {
      QuietEnterEvent(kdf, s, e, i);
    } else {
      QuietJoinEvent(kdf, s, e, i);
    }
  }

  lemma QuietEnterEvent(kdf: Kdf, s: State, e: Event, i: Id)
    requires Ordered(s.shared) && e.EnterRoom? && At(Step(kdf, s, e), i)
    ensures At(s, i)
    ensures var t := Step(kdf, s, e); LooksSame(s.shared.sessions[i], s.pcs[i], t.shared.sessions[i], t.pcs[i])
  {
  }

  lemma QuietCreateEvent(kdf: Kdf, s: State, e: Event, i: Id)
    requires Ordered(s.shared) && e.CreateRoom? && At(Step(kdf, s, e), i)
    ensures At(s, i)
    ensures var t := Step(kdf, s, e); LooksSame(s.shared.sessions[i], s.pcs[i], t.shared.sessions[i], t.pcs[i])
  {
  }

  lemma QuietJoinEvent(kdf: Kdf, s: State, e: Event, i: Id)
    requires Ordered(s.shared) && (e.JoinRoom? || e.LeaveRoom?) && At(Step(kdf, s, e), i)
    ensures At(s, i)
    ensures var t := Step(kdf, s, e); LooksSame(s.shared.sessions[i], s.pcs[i], t.shared.sessions[i], t.pcs[i])
  {
  }

  lemma QuietCommandEvent(kdf: Kdf, s: State, e: Event, i: Id)
    requires Ordered(s.shared) && QuietCommand(e) && At(Step(kdf, s, e), i)
    ensures At(s, i)
    ensures var t := Step(kdf, s, e); LooksSame(s.shared.sessions[i], s.pcs[i], t.shared.sessions[i], t.pcs[i])
  {
    if QuietRoom(e) { QuietRoomEvent(kdf, s, e, i); }
  }

  lemma QuietEventStep(kdf: Kdf, pub: Keys, s: State, e: Event)
    requires Ordered(s.shared) && Complete(pub, s) && Quiet(e)
    ensures Complete(pub, Step(kdf, s, e))
  {
    var t := Step(kdf, s, e);
    forall i | At(t, i)
      ensures At(s, i) && LooksSame(s.shared.sessions[i], s.pcs[i], t.shared.sessions[i], t.pcs[i])
    {
      if QuietLogin(e) { if At(s, i) { QuietLoginEvent(kdf, s, e, i); } } else { QuietCommandEvent(kdf, s, e, i); }
    }
    QuietStep(pub, s, t);
  }

  // ---------------------------------------------------------------- runs

  /** The directory frames about to be written fit the frame limit. */
  ghost predicate DirectoryFits(s: State)
  {
    forall i :: At(s, i) ==>
      && Fits(Announcement(s.shared.sessions[i]))
      && (Due(s.pcs[i]) ==> Fits(DuePacket(s.pcs[i])))
  }

  /** Each name publishes its one key, and nobody renames. */
  ghost predicate Lawful(pub: Keys, s: State, e: Event)
  {
    && !e.Rename?
    && (e.Publish? && Waits(s, e.id) && |Split(e.payload, NUL)| >= 2
        ==> Split(e.payload, NUL)[1] == pub(s.shared.sessions[e.id].name))
  }

  ghost predicate LawfulRun(kdf: Kdf, pub: Keys, s: State, events: seq<Event>)
    requires Inv(s)
    decreases |events|
  {
    events != [] ==>
      && DirectoryFits(s)
      && Lawful(pub, s, events[0])
      && (StepKeepsInv(kdf, s, events[0]); LawfulRun(kdf, pub, Step(kdf, s, events[0]), events[1..]))
  }

  lemma ConnectingStep(kdf: Kdf, pub: Keys, s: State, id: Id, raw: bytes)
    requires Inv(s) && Complete(pub, s)
    ensures Complete(pub, Step(kdf, s, Event.Connect(id, raw)))
  {
    ConnectStep(pub, s, id, raw);
  }

  lemma PublishingStep(kdf: Kdf, pub: Keys, s: State, id: Id, payload: bytes)
    requires GoodKeys(pub) && Inv(s) && Complete(pub, s) && Lawful(pub, s, Publish(id, payload))
    ensures Complete(pub, Step(kdf, s, Publish(id, payload)))
  {
    if Waits(s, id) { PublishStep(pub, s, id, payload); }
  }

  lemma ActivatingStep(kdf: Kdf, pub: Keys, s: State, id: Id)
    requires Inv(s) && Complete(pub, s)
    ensures Complete(pub, Step(kdf, s, Event.Activate(id)))
  {
    if At(s, id) && s.pcs[id] == Activating { ActivateStep(pub, s, id); }
  }

  lemma RestartingStep(kdf: Kdf, pub: Keys, s: State)
    requires Ordered(s.shared)
    ensures Complete(pub, Step(kdf, s, Restart))
  {
  }

  lemma TakingStep(kdf: Kdf, pub: Keys, s: State, id: Id)
    requires GoodKeys(pub) && Inv(s) && Complete(pub, s)
    ensures Complete(pub, Step(kdf, s, TakeTable(id)))
  {
    TakeTableIs(kdf, s, id);
    if At(s, id) && s.pcs[id] == Taking { TakeTableStep(pub, s, id); }
  }

  lemma TakeTableIs(kdf: Kdf, s: State, id: Id)
    requires Ordered(s.shared)
    ensures Step(kdf, s, TakeTable(id))
         == if At(s, id) && s.pcs[id] == Taking
            then Goto(s, s.shared, id, Sending(Entries(s.shared.sessions, s.shared.order, 0))) else s
  {
  }

  lemma AskingStep(kdf: Kdf, pub: Keys, s: State, id: Id, q: Query)
    requires GoodKeys(pub) && Inv(s) && Complete(pub, s)
    ensures Complete(pub, Step(kdf, s, Ask(id, q)))
  {
    AskIs(kdf, s, id, q);
    if Commands(s, id) && Asks(q) { AskStep(pub, s, id, q); }
  }

  lemma AskIs(kdf: Kdf, s: State, id: Id, q: Query)
    requires Ordered(s.shared)
    ensures Step(kdf, s, Ask(id, q))
         == if Commands(s, id) && Asks(q) then Goto(s, s.shared, id, Answering(q, Answered(s.shared, id, q))) else s
  {
  }

  lemma SendingStep(kdf: Kdf, pub: Keys, s: State, id: Id)
    requires Inv(s) && Complete(pub, s) && DirectoryFits(s)
    ensures Complete(pub, Step(kdf, s, SendTable(id)))
  {
    SendTableIs(kdf, s, id);
    if At(s, id) && s.pcs[id].Sending? { SendStep(pub, s, id); }
  }

  lemma SendTableIs(kdf: Kdf, s: State, id: Id)
    requires Ordered(s.shared)
    ensures Step(kdf, s, SendTable(id))
         == if At(s, id) && s.pcs[id].Sending?
            then Goto(s, PostTo(s.shared, id, DuePacket(s.pcs[id])), id, AfterDue(s.pcs[id])) else s
  {
  }

  lemma AnsweringStep(kdf: Kdf, pub: Keys, s: State, id: Id)
    requires Inv(s) && Complete(pub, s) && DirectoryFits(s)
    ensures Complete(pub, Step(kdf, s, SendAnswer(id)))
  {
    SendAnswerIs(kdf, s, id);
    if At(s, id) && s.pcs[id].Answering? { SendStep(pub, s, id); }
  }

  lemma SendAnswerIs(kdf: Kdf, s: State, id: Id)
    requires Ordered(s.shared)
    ensures Step(kdf, s, SendAnswer(id))
         == if At(s, id) && s.pcs[id].Answering?
            then Goto(s, PostTo(s.shared, id, DuePacket(s.pcs[id])), id, AfterDue(s.pcs[id])) else s
  {
  }

  lemma AnnouncingStep(kdf: Kdf, pub: Keys, s: State, id: Id)
    requires GoodKeys(pub) && Inv(s) && Complete(pub, s) && DirectoryFits(s)
    ensures Complete(pub, Step(kdf, s, Announce(id)))
  {
    AnnounceIs(kdf, s, id);
    if At(s, id) && s.pcs[id] == Announcing { AnnounceStep(pub, s, id); }
  }

  lemma AnnounceIs(kdf: Kdf, s: State, id: Id)
    requires Ordered(s.shared)
    ensures Step(kdf, s, Announce(id))
         == if At(s, id) && s.pcs[id] == Announcing
            then Goto(s, Broadcast(s.shared, Announcement(s.shared.sessions[id]), Some(id)), id, Idle) else s
  {
  }

  lemma RelayingStep(kdf: Kdf, pub: Keys, s: State, id: Id, kind: byte, payload: bytes)
    requires Inv(s) && Complete(pub, s)
    ensures Complete(pub, Step(kdf, s, Relay(id, kind, payload)))
  {
    if Waits(s, id) && Relayed(kind) { RelayStep(pub, s, id, kind, payload); }
  }

  lemma ReplyingStep(kdf: Kdf, pub: Keys, s: State, to: set<Id>, text: bytes)
    requires Inv(s) && Complete(pub, s)
    ensures Complete(pub, Step(kdf, s, Reply(to, text)))
  {
    if !IsDirectoryText(Trim(text)) { ReplyStep(pub, s, to, text); }
  }

  lemma SettingUpStep(kdf: Kdf, pub: Keys, s: State, e: Event)
    requires GoodKeys(pub) && Inv(s) && Complete(pub, s) && Lawful(pub, s, e)
    requires e.Connect? || e.Publish? || e.Activate? || e.Restart?
    ensures Complete(pub, Step(kdf, s, e))
  {
    match e
    case Connect(id, raw) => ConnectingStep(kdf, pub, s, id, raw);
    case Publish(id, payload) => PublishingStep(kdf, pub, s, id, payload);
    case Activate(id) => ActivatingStep(kdf, pub, s, id);
    case Restart => RestartingStep(kdf, pub, s);
  }

  lemma ReadingStep(kdf: Kdf, pub: Keys, s: State, e: Event)
    requires GoodKeys(pub) && Inv(s) && Complete(pub, s) && (e.TakeTable? || e.Ask?)
    ensures Complete(pub, Step(kdf, s, e))
  {
    match e
    case TakeTable(id) => TakingStep(kdf, pub, s, id);
    case Ask(id, q) => AskingStep(kdf, pub, s, id, q);
  }

  lemma WritingStep(kdf: Kdf, pub: Keys, s: State, e: Event)
    requires GoodKeys(pub) && Inv(s) && Complete(pub, s) && DirectoryFits(s)
    requires e.SendTable? || e.SendAnswer? || e.Announce?
    ensures Complete(pub, Step(kdf, s, e))
  {
    match e
    case SendTable(id) => SendingStep(kdf, pub, s, id);
    case SendAnswer(id) => AnsweringStep(kdf, pub, s, id);
    case Announce(id) => AnnouncingStep(kdf, pub, s, id);
  }

  lemma OtherWritesStep(kdf: Kdf, pub: Keys, s: State, e: Event)
    requires Inv(s) && Complete(pub, s) && (e.Relay? || e.Reply?)
    ensures Complete(pub, Step(kdf, s, e))
  {
    match e
    case Relay(id, kind, payload) => RelayingStep(kdf, pub, s, id, kind, payload);
    case Reply(to, text) => ReplyingStep(kdf, pub, s, to, text);
  }

  lemma DirectoryStep(kdf: Kdf, pub: Keys, s: State, e: Event)
    requires GoodKeys(pub) && Inv(s) && Complete(pub, s) && DirectoryFits(s) && Lawful(pub, s, e)
    ensures Complete(pub, Step(kdf, s, e))
  {
    if e.Connect? || e.Publish? || e.Activate? || e.Restart? {
      SettingUpStep(kdf, pub, s, e);
    } else if e.TakeTable? || e.Ask? {
      ReadingStep(kdf, pub, s, e);
    } else if e.SendTable? || e.SendAnswer? || e.Announce? {
      WritingStep(kdf, pub, s, e);
    } else if e.Relay? || e.Reply? {
      OtherWritesStep(kdf, pub, s, e);
    } else {
      QuietEventStep(kdf, pub, s, e);
    }
  }

  lemma {:induction false} DirectoryInRuns(kdf: Kdf, pub: Keys, s: State, events: seq<Event>)
    requires GoodKeys(pub) && Inv(s) && Complete(pub, s) && LawfulRun(kdf, pub, s, events)
    ensures Complete(pub, Run(kdf, s, events))
    decreases |events|
  {
    if events != [] {
      DirectoryStep(kdf, pub, s, events[0]);
      StepKeepsInv(kdf, s, events[0]);
      DirectoryInRuns(kdf, pub, Step(kdf, s, events[0]), events[1..]);
    }
  }

  /** `b` has been told the directory: it listens and neither table nor answer is on its way to it. */
  ghost predicate Told(c: Session, pc: Pc)
  {
    Listening(c, pc) && !Due(pc)
  }

  /** `a` has announced a key and `b`, another client, has been told the directory. */
  ghost predicate Informed(s: State, a: Id, b: Id)
  {
    && At(s, a) && At(s, b) && a != b
    && Announced(s.shared.sessions[a], s.pcs[a]) && Told(s.shared.sessions[b], s.pcs[b])
  }

  /** `b` knows the key of `a`, which is the one `a` has published under its name. */
  ghost predicate KnowsKey(pub: Keys, s: State, a: Id, b: Id)
    requires At(s, a) && At(s, b)
  {
    var x, y := s.shared.sessions[a], s.shared.sessions[b];
    x.name in KnownFrom(y.out) && KnownFrom(y.out)[x.name] == x.key == pub(x.name)
  }

  /** From every start, in every interleaving, restarts included, in which each name publishes its one key
      and nobody renames: a client that has been told the directory and has read everything written to it
      knows the key of every other client that has announced one, whatever either goroutine is doing, and
      in whichever order keys, logins and connections came. */
  lemma DirectoryIsComplete(kdf: Kdf, pub: Keys, stored: map<bytes, Account>, table: map<bytes, Row>,
                            events: seq<Event>, a: Id, b: Id)
    requires GoodKeys(pub)
    ensures Inv(Boot(stored, table))
    ensures var s := Run(kdf, Boot(stored, table), events);
      LawfulRun(kdf, pub, Boot(stored, table), events) && Informed(s, a, b) ==> KnowsKey(pub, s, a, b)
  {
    StartIsSafe(stored, table);
    var s := Run(kdf, Boot(stored, table), events);
    if LawfulRun(kdf, pub, Boot(stored, table), events) && Informed(s, a, b) {
      DirectoryInRuns(kdf, pub, Boot(stored, table), events);
      CompleteTells(pub, s, a, b);
    }
  }

  lemma CompleteTells(pub: Keys, s: State, a: Id, b: Id)
    requires Complete(pub, s) && Informed(s, a, b)
    ensures KnowsKey(pub, s, a, b)
  {
    assert TrueKeys(pub, s, a) && Owed(pub, s, a, b);
  }
}
