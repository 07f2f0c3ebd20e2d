/**
 How a client's two threads match answers to questions. The asking thread leaves a channel in a
 slot, sends its question and waits for three seconds; the reading thread hands the next answer
 to whoever's channel is in the slot. Answers carry no mark of what they answer, so they are
 matched rightly as long as nobody gives up, and wrongly after a late one.
 */
module Requests {
  import opened Wrappers
  import opened Bytes
  import opened Base64
  import opened Directory
  import opened Answers
  import opened ServerSpec
  import opened KeyDirectory
  import opened EndToEnd

  /** `slot`: the channel of the last question has not been taken out. `asking`: the question whose
      answer the asking thread waits for. `inbox`: what it has been handed and not yet stored. */
  datatype Client = Client(known: Known, slot: bool, asking: Option<Query>, inbox: Option<bytes>)

  const NEW_CLIENT := Client(map[], false, None, None)

  datatype ClientEvent =
    | Question(query: Query)
    | Receive(packet: Packet)
    | TakeAnswer
    | GiveUp

  /** What the reading thread does with a decrypted text. */
  function Handle(c: Client, raw: bytes): Client
  {
    if !IsAnswer(raw) then c.(known := ReadText(c.known, raw))
    else if !c.slot then c
    else c.(slot := false, inbox := if c.asking.Some? then Some(AnswerBody(raw)) else c.inbox)
  }

  function ClientStep(c: Client, e: ClientEvent): Client
  {
    match e
    case Question(q) => if c.asking.Some? then c else Client(c.known, true, Some(q), None)
    case Receive(p) => if p.Frame? then c else Handle(c, p.text)
    case TakeAnswer =>
      if c.asking.Some? && c.inbox.Some?
      then Client(StoreAnswer(c.known, c.asking.value, c.inbox.value), c.slot, None, None) else c
    case GiveUp => if c.asking.Some? && c.inbox.None? then c.(asking := None) else c
  }

  function ClientRun(c: Client, events: seq<ClientEvent>): Client
    decreases |events|
  {
    if events == [] then c else ClientRun(ClientStep(c, events[0]), events[1..])
  }

  /** The map once what has been handed over is stored. */
  function Settled(c: Client): Known
  {
    if c.asking.Some? && c.inbox.Some? then StoreAnswer(c.known, c.asking.value, c.inbox.value) else c.known
  }

  /** The packets received during the events. */
  function Packets(events: seq<ClientEvent>): seq<Packet>
  {
    if events == [] then []
    else (if events[0].Receive? then [events[0].packet] else []) + Packets(events[1..])
  }

  function ReadAll(known: Known, ps: seq<Packet>): Known
    decreases |ps|
  {
    if ps == [] then known else ReadAll(ReadPacket(known, ps[0]), ps[1..])
  }

  lemma {:induction false} ReadAllThen(known: Known, ps: seq<Packet>, p: Packet)
    ensures ReadAll(known, ps + [p]) == ReadPacket(ReadAll(known, ps), p)
    decreases |ps|
  {
    if ps == [] {
      assert ReadAll(known, [p]) == ReadAll(ReadPacket(known, p), []);
    } else {
      assert (ps + [p])[1..] == ps[1..] + [p];
      ReadAllThen(ReadPacket(known, ps[0]), ps[1..], p);
    }
  }

  /** Reading from the front is reading from the back. */
  lemma {:induction false} KnownIsReadAll(out: seq<Packet>)
    ensures KnownFrom(out) == ReadAll(map[], out)
  {
    if out != [] {
      var init, p := out[..|out| - 1], out[|out| - 1];
      KnownIsReadAll(init);
      ReadAllThen(map[], init, p);
      assert out == init + [p];
    }
  }

  // ---------------------------------------------------------------- answers that meet their question

  /** The packet comes when the last answer has been stored, and an answer when its own question waits. */
  predicate Meets(c: Client, p: Packet)
  {
    && c.inbox.None?
    && (p.Answer? && IsAnswer(p.text) ==> c.slot && c.asking == Some(p.query))
    && (p.Text? && IsAnswer(p.text) ==> !c.slot)
  }

  ghost predicate AllMeet(c: Client, events: seq<ClientEvent>)
    decreases |events|
  {
    events != [] ==>
      && (events[0].Receive? ==> Meets(c, events[0].packet))
      && AllMeet(ClientStep(c, events[0]), events[1..])
  }

  /** An answer that is not one is nothing else either. */
  lemma MetIsRead(c: Client, p: Packet)
    requires Meets(c, p) && (p.Answer? ==> IsAnswer(p.text))
    ensures Settled(ClientStep(c, Receive(p))) == ReadPacket(Settled(c), p)
  {
    if p.Text? && IsAnswer(p.text) { AnswerIsNoDirectory(p.text); }
  }

  ghost predicate Readable(events: seq<ClientEvent>)
  {
    forall k :: 0 <= k < |events| && events[k].Receive? && events[k].packet.Answer? ==> IsAnswer(events[k].packet.text)
  }

  /** When every answer meets its question, the client's map is the one that what it received determines. */
  lemma {:induction false} MetAnswersAreStored(c: Client, events: seq<ClientEvent>)
    requires AllMeet(c, events) && Readable(events)
    ensures Settled(ClientRun(c, events)) == ReadAll(Settled(c), Packets(events))
    decreases |events|
  {
    if events != [] {
      var e, t := events[0], ClientStep(c, events[0]);
      assert forall k :: 0 <= k < |events[1..]| ==> events[1..][k] == events[k + 1];
      MetAnswersAreStored(t, events[1..]);
      if e.Receive? {
        MetIsRead(c, e.packet);
        assert Packets(events) == [e.packet] + Packets(events[1..]);
      } else {
        assert Packets(events) == Packets(events[1..]);
      }
    }
  }

  // ---------------------------------------------------------------- while nobody gives up

  /** What the server and the network guarantee: answers come in the order of the questions, each after its
      own, none that was not asked for; and what the client does: it stores an answer before it reads on and
      does not give up. `asked` are the questions so far, `n` the answers so far. */
  ghost predicate Orderly(c: Client, events: seq<ClientEvent>, asked: seq<Query>, n: nat)
    decreases |events|
  {
    events != [] ==>
      var e, t := events[0], ClientStep(c, events[0]);
      match e
      case GiveUp => false
      case TakeAnswer => Orderly(t, events[1..], asked, n)
      case Question(q) => Orderly(t, events[1..], if c.asking.Some? then asked else asked + [q], n)
      case Receive(p) =>
        && c.inbox.None?
        && (p.Text? ==> !IsAnswer(p.text))
        && (p.Answer? ==> IsAnswer(p.text) && n < |asked| && p.query == asked[n])
        && Orderly(t, events[1..], asked, if p.Answer? then n + 1 else n)
  }

  /** At most one question is open, and it is the one that waits. */
  ghost predicate OneOpen(c: Client, asked: seq<Query>, n: nat)
  {
    && |asked| == n + (if c.slot then 1 else 0)
    && (c.slot ==> c.asking == Some(asked[n]) && c.inbox.None?)
    && (c.asking.Some? && !c.slot ==> c.inbox.Some?)
    && (c.inbox.Some? ==> c.asking.Some?)
  }

  lemma {:induction false} OrderlyMeets(c: Client, events: seq<ClientEvent>, asked: seq<Query>, n: nat)
    requires Orderly(c, events, asked, n) && OneOpen(c, asked, n)
    ensures AllMeet(c, events) && Readable(events)
    decreases |events|
  {
    if events != [] {
      var e, t := events[0], ClientStep(c, events[0]);
      match e {
        case GiveUp =>
        case TakeAnswer => OrderlyMeets(t, events[1..], asked, n);
        case Question(q) => OrderlyMeets(t, events[1..], if c.asking.Some? then asked else asked + [q], n);
        case Receive(p) => OrderlyMeets(t, events[1..], asked, if p.Answer? then n + 1 else n);
      }
      forall k | 0 <= k < |events| && events[k].Receive? && events[k].packet.Answer?
        ensures IsAnswer(events[k].packet.text)
      {
        if k > 0 { assert events[k] == events[1..][k - 1]; }
      }
    }
  }

  /** A client that never gives up: once it has stored what it was handed, its map is the one the server's
      theorems speak of. */
  lemma PatientClientKnows(events: seq<ClientEvent>)
    requires Orderly(NEW_CLIENT, events, [], 0)
    ensures Settled(ClientRun(NEW_CLIENT, events)) == KnownFrom(Packets(events))
  {
    OrderlyMeets(NEW_CLIENT, events, [], 0);
    MetAnswersAreStored(NEW_CLIENT, events);
    KnownIsReadAll(Packets(events));
  }

  // ---------------------------------------------------------------- a late answer

  lemma NameIsNoBase64(s: bytes, limit: nat)
    requires s != [] && s[0] == 0x40
    ensures StripPad(s, limit) != [] && StripPad(s, limit)[0] == 0x40
    decreases limit
  {
    if limit > 0 && s[|s| - 1] == PAD { NameIsNoBase64(s[..|s| - 1], limit - 1); }
  }

  /** A table of keys is no key: nothing can be encrypted with it. */
  lemma TableIsNoKey(c: Crypto, entries: seq<Entry>, text: bytes, self: bytes, our: bytes, nonce: bytes)
    requires entries != [] && forall e :: e in entries ==> Carriable(e)
    ensures EncryptToPeer(c, text, PrintTable(entries), self, our, nonce) == None
  {
    TableIsTrimmed(entries);
    NameIsNoBase64(PrintTable(entries), 2);
    assert Value(0x40).None?;
  }

  /** A question about the room, given up, a question about `n`, and then the answer to the first. */
  function LateAnswer(raw: bytes, n: bytes): seq<ClientEvent>
  {
    [Question(Members), GiveUp, Question(KeyOf(n)), Receive(Answer(Members, raw)), TakeAnswer]
  }

  lemma RunOfFour(c: Client, es: seq<ClientEvent>)
    requires |es| == 4
    ensures ClientRun(c, es) == ClientStep(ClientStep(ClientStep(ClientStep(c, es[0]), es[1]), es[2]), es[3])
  {
    var c1 := ClientStep(c, es[0]);
    var c2 := ClientStep(c1, es[1]);
    var c3 := ClientStep(c2, es[2]);
    assert es[1..][1..] == es[2..] && es[2..][1..] == es[3..] && es[3..][1..] == [];
    assert ClientRun(c, es) == ClientRun(c1, es[1..]) == ClientRun(c2, es[2..]) == ClientRun(c3, es[3..]);
    assert ClientRun(c3, es[3..]) == ClientRun(ClientStep(c3, es[3]), []);
  }

  lemma RunOfFive(c: Client, es: seq<ClientEvent>)
    requires |es| == 5
    ensures ClientRun(c, es)
         == ClientStep(ClientStep(ClientStep(ClientStep(ClientStep(c, es[0]), es[1]), es[2]), es[3]), es[4])
  {
    RunOfFour(ClientStep(c, es[0]), es[1..]);
  }

  lemma LateAnswerIsStored(c: Client, raw: bytes, n: bytes)
    requires c.asking.None? && IsAnswer(raw) && AnswerBody(raw) != ERR
    ensures ClientRun(c, LateAnswer(raw, n)).known == c.known[n := AnswerBody(raw)]
  {
    RunOfFive(c, LateAnswer(raw, n));
  }

  /** The late answer is stored as the key of `n`, and from then on nothing can be encrypted for `n`: the
      client does not ask again about a name in its map. */
  lemma LateAnswerIsTakenForKey(crypto: Crypto, c: Client, entries: seq<Entry>, n: bytes,
                                text: bytes, self: bytes, our: bytes, nonce: bytes)
    requires c.asking.None? && entries != [] && forall e :: e in entries ==> Carriable(e)
    ensures var t := ClientRun(c, LateAnswer(AnswerText(Members, entries), n));
      && t.known == c.known[n := PrintTable(entries)]
      && EncryptToPeer(crypto, text, t.known[n], self, our, nonce) == None
  {
    MembersBody(entries);
    LateAnswerIsStored(c, AnswerText(Members, entries), n);
    TableIsNoKey(crypto, entries, text, self, our, nonce);
  }

  lemma MembersBody(entries: seq<Entry>)
    requires entries != [] && forall e :: e in entries ==> Carriable(e)
    ensures var raw := AnswerText(Members, entries);
      IsAnswer(raw) && AnswerBody(raw) == PrintTable(entries) && AnswerBody(raw) != ERR
  {
    AnswerBodyIsText(Members, entries);
    TableIsTrimmed(entries);
    TaggedBody(PrintTable(entries));
  }

  // ---------------------------------------------------------------- an answer that is stored late

  /** An answer about `n` that has been handed over, an announcement of a newer key, and only then the storing. */
  function StoredLate(n: bytes, first: bytes, second: bytes): seq<ClientEvent>
  {
    [Question(KeyOf(n)), Receive(Answer(KeyOf(n), TAG_RESPONSE + first)),
     Receive(Text(NewText(Entry(n, second)))), TakeAnswer]
  }

  lemma KeyBody(n: bytes, key: bytes)
    requires CarriableKey(key) && key != [] && key != ERR
    ensures IsAnswer(TAG_RESPONSE + key) && AnswerBody(TAG_RESPONSE + key) == key
  {
    TaggedBody(key);
  }

  lemma NewTextIsNoAnswer(n: bytes, key: bytes)
    requires Carriable(Entry(n, key))
    ensures !IsAnswer(NewText(Entry(n, key)))
  {
    NewTextIsTagged(Entry(n, key));
  }

  lemma RunOfStoredLate(c: Client, n: bytes, first: bytes, second: bytes)
    requires c.asking.None? && IsAnswer(TAG_RESPONSE + first) && AnswerBody(TAG_RESPONSE + first) == first != ERR
    requires !IsAnswer(NewText(Entry(n, second)))
    requires ReadText(c.known, NewText(Entry(n, second))) == c.known[n := second]
    ensures ClientRun(c, StoredLate(n, first, second)).known == c.known[n := second][n := first]
  {
    RunOfFour(c, StoredLate(n, first, second));
  }

  lemma ReadBoth(known: Known, p: Packet, q: Packet)
    ensures ReadAll(known, [p] + [q]) == ReadPacket(ReadPacket(known, p), q)
  {
    ReadAllThen(known, [p], q);
    assert ReadAll(known, [p]) == ReadAll(ReadPacket(known, p), []);
  }

  /** The two threads race: the older key stays in the map although the newer one came last. */
  lemma AnswerStoredLateWins(c: Client, n: bytes, first: bytes, second: bytes)
    requires c.asking.None? && first != [] && first != ERR
    requires Carriable(Entry(n, first)) && Carriable(Entry(n, second))
    ensures ClientRun(c, StoredLate(n, first, second)).known == c.known[n := first]
    ensures ReadAll(c.known, Packets(StoredLate(n, first, second))) == c.known[n := second]
  {
    KeyBody(n, first);
    NewTextIsNoAnswer(n, second);
    ReadNewText(c.known, Entry(n, second));
    RunOfStoredLate(c, n, first, second);
    SameName(c.known, n, second, first);
    ReadInOrder(c.known, n, first, second);
  }

  lemma SameName(known: Known, n: bytes, a: bytes, b: bytes)
    ensures known[n := a][n := b] == known[n := b]
  {
  }

  lemma ReadInOrder(known: Known, n: bytes, first: bytes, second: bytes)
    requires first != [] && first != ERR && Carriable(Entry(n, first)) && Carriable(Entry(n, second))
    ensures ReadAll(known, Packets(StoredLate(n, first, second))) == known[n := second]
  {
    KeyBody(n, first);
    var p, q := Answer(KeyOf(n), TAG_RESPONSE + first), Text(NewText(Entry(n, second)));
    assert ReadPacket(known, p) == known[n := first];
    PacketsOfStoredLate(n, first, second);
    ReadBoth(known, p, q);
    ReadNewText(known[n := first], Entry(n, second));
    SameName(known, n, first, second);
  }

  lemma PacketsOfStoredLate(n: bytes, first: bytes, second: bytes)
    ensures Packets(StoredLate(n, first, second))
         == [Answer(KeyOf(n), TAG_RESPONSE + first)] + [Text(NewText(Entry(n, second)))]
  {
    var es := StoredLate(n, first, second);
    assert es[1..][1..] == es[2..] && es[2..][1..] == es[3..] && es[3..][1..] == [];
    assert Packets(es[3..]) == [];
    assert Packets(es[2..]) == [Text(NewText(Entry(n, second)))];
  }
}
