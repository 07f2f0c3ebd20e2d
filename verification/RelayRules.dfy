/**
 Relay exactness: who receives an M or F frame, with which bytes, and in which order.
 */
module RelayRules {
  import opened Wrappers
  import opened Bytes
  import opened Accounts
  import opened Directory
  import opened Answers
  import opened ServerSpec
  import opened Interleaving
  import opened SessionSafety

  /** Frames whose fields name a recipient: three or more, the second not empty. */
  predicate Addressed(fields: seq<bytes>)
  {
    |fields| >= 3 && fields[1] != []
  }

  /** `r` is a recipient of the sender's frame: the authenticated holder of the addressed name, or,
      when the fields name nobody, anyone else in the sender's room. */
  ghost predicate Reaches(s: Shared, sender: Id, payload: bytes, r: Id)
    requires sender in s.sessions && r in s.sessions
  {
    var fields := Split(payload, NUL);
    && s.sessions[sender].authed
    && r != sender
    && if Addressed(fields) then Holder(s.sessions[r], Trim(fields[1]))
       else s.sessions[r].room == s.sessions[sender].room
  }

  /** Authenticated under the name. */
  predicate Holder(c: Session, name: bytes)
  {
    c.name == name && c.authed
  }

  lemma {:induction false} AddresseeExact(sessions: map<Id, Session>, order: seq<Id>, n: nat, sender: Id, target: bytes)
    requires n <= |order| && Lists(sessions, order)
    ensures var a := Addressee(sessions, order, n, sender, target);
      if a.Some? then a.value in sessions && a.value != sender && Holder(sessions[a.value], target)
      else forall k :: n <= k < |order| && order[k] != sender ==> !Holder(sessions[order[k]], target)
    decreases |order| - n
  {
    if n < |order| {
      AddresseeExact(sessions, order, n + 1, sender, target);
    }
  }

  /** A frame is appended, byte for byte, to exactly the connections it reaches, and nothing else
      changes. (A frame above the limit never gets this far: reading it ends the connection.) */
  lemma RelayExact(s: Shared, sender: Id, kind: byte, payload: bytes)
    requires Ordered(s) && NamesDistinct(s) && sender in s.sessions
    ensures var t := RelayFrame(s, sender, kind, payload);
      && t == s.(sessions := t.sessions)
      && t.sessions.Keys == s.sessions.Keys
      && forall r :: r in s.sessions ==>
           t.sessions[r] == if Reaches(s, sender, payload, r) && |payload| <= MAX_MESSAGE
                            then s.sessions[r].(out := s.sessions[r].out + [Frame(kind, payload)])
                            else s.sessions[r]
  {
    RelaySameButOut(s, sender, kind, payload);
    if s.sessions[sender].authed && TargetOf(payload).Some? { AddresseeIsReached(s, sender, payload); }
  }

  /** The addressee is whom the frame reaches. */
  lemma AddresseeIsReached(s: Shared, sender: Id, payload: bytes)
    requires Ordered(s) && NamesDistinct(s) && sender in s.sessions
    requires s.sessions[sender].authed && TargetOf(payload).Some?
    ensures var a := Addressee(s.sessions, s.order, 0, sender, TargetOf(payload).value);
      forall r :: r in s.sessions ==> (Reaches(s, sender, payload, r) <==> a == Some(r))
  {
    var target := TargetOf(payload).value;
    AddresseeExact(s.sessions, s.order, 0, sender, target);
    forall r | r in s.sessions && Addressee(s.sessions, s.order, 0, sender, target) != Some(r)
      ensures !Reaches(s, sender, payload, r)
    {
      assert r in s.order;
    }
  }

  /** An addressed frame reaches at most one connection. */
  lemma AddressedReachesOne(s: Shared, sender: Id, payload: bytes, r1: Id, r2: Id)
    requires NamesDistinct(s) && sender in s.sessions && r1 in s.sessions && r2 in s.sessions
    requires TargetOf(payload).Some? && Reaches(s, sender, payload, r1) && Reaches(s, sender, payload, r2)
    ensures r1 == r2
  {
  }

  // ---------------------------------------------------------------- by the fields of the frame

  /** `t` is `s` with the frame written to exactly the connections of `to`. */
  ghost predicate WrittenTo(s: Shared, t: Shared, p: Packet, to: set<Id>)
  {
    && t == s.(sessions := t.sessions)
    && t.sessions.Keys == s.sessions.Keys
    && forall r :: r in s.sessions ==>
         t.sessions[r] == if r in to then s.sessions[r].(out := s.sessions[r].out + [p]) else s.sessions[r]
  }

  /** Everybody else in the room of `sender`, authenticated or not. */
  ghost function Neighbours(s: Shared, sender: Id): set<Id>
    requires sender in s.sessions
  {
    set r | r in s.sessions && r != sender && s.sessions[r].room == s.sessions[sender].room
  }

  /** Whoever else is authenticated under the name. */
  ghost function Holders(s: Shared, sender: Id, name: bytes): set<Id>
  {
    set r | r in s.sessions && r != sender && s.sessions[r].name == name && s.sessions[r].authed
  }

  /** A frame of one or two fields, or whose second field is empty, goes to the room. */
  lemma RoomFrameGoesToRoom(s: Shared, sender: Id, kind: byte, fields: seq<bytes>)
    requires Ordered(s) && NamesDistinct(s) && sender in s.sessions && s.sessions[sender].authed
    requires fields != [] && FreeOf(fields, NUL) && |Join(fields, NUL)| <= MAX_MESSAGE
    requires |fields| <= 2 || fields[1] == []
    ensures WrittenTo(s, RelayFrame(s, sender, kind, Join(fields, NUL)), Frame(kind, Join(fields, NUL)),
                      Neighbours(s, sender))
  {
    SplitInvertsJoin(fields, NUL);
    RelayExact(s, sender, kind, Join(fields, NUL));
  }

  /** A frame of three or more fields whose second is not empty goes to the authenticated holder of that
      field, trimmed, and to nobody else: there is at most one. */
  lemma AddressedFrameGoesToHolder(s: Shared, sender: Id, kind: byte, fields: seq<bytes>)
    requires Ordered(s) && NamesDistinct(s) && sender in s.sessions && s.sessions[sender].authed
    requires |fields| >= 3 && FreeOf(fields, NUL) && |Join(fields, NUL)| <= MAX_MESSAGE && fields[1] != []
    ensures WrittenTo(s, RelayFrame(s, sender, kind, Join(fields, NUL)), Frame(kind, Join(fields, NUL)),
                      Holders(s, sender, Trim(fields[1])))
    ensures var to := Holders(s, sender, Trim(fields[1])); forall a, b :: a in to && b in to ==> a == b
  {
    SplitInvertsJoin(fields, NUL);
    RelayExact(s, sender, kind, Join(fields, NUL));
  }

  // ---------------------------------------------------------------- order over runs

  /** The relayed frames among what was written to a connection. */
  ghost function Wire(out: seq<Packet>): seq<Packet>
  {
    if out == [] then []
    else
      var wire := Wire(out[..|out| - 1]);
      if out[|out| - 1].Frame? then wire + [out[|out| - 1]] else wire
  }

  lemma WireAfter(out: seq<Packet>, p: Packet)
    ensures Wire(out + [p]) == Wire(out) + if p.Frame? then [p] else []
  {
    assert (out + [p])[..|out|] == out;
  }

  /** One frame of one sender. */
  datatype Delivery = Delivery(sender: Id, packet: Packet)

  /** What the event `e` delivers to `r`. */
  ghost function Delivered(s: State, e: Event, r: Id): seq<Delivery>
  {
    if e.Relay? && Waits(s, e.id) && Relayed(e.kind) && r in s.shared.sessions && |e.payload| <= MAX_MESSAGE
       && Reaches(s.shared, e.id, e.payload, r)
    then [Delivery(e.id, Frame(e.kind, e.payload))] else []
  }

  /** The frames sent to `r` during a run, in the order of their steps. */
  ghost function Stream(kdf: Kdf, s: State, events: seq<Event>, r: Id): seq<Delivery>
    requires Inv(s)
    decreases |events|
  {
    if events == [] then []
    else
      StepKeepsInv(kdf, s, events[0]);
      Delivered(s, events[0], r) + Stream(kdf, Step(kdf, s, events[0]), events[1..], r)
  }

  ghost predicate StaysConnected(kdf: Kdf, s: State, events: seq<Event>, r: Id)
    requires Inv(s)
    decreases |events|
  {
    && At(s, r)
    && (events != [] ==>
          (StepKeepsInv(kdf, s, events[0]); StaysConnected(kdf, Step(kdf, s, events[0]), events[1..], r)))
  }

  function Packets(ds: seq<Delivery>): (ps: seq<Packet>)
    ensures |ps| == |ds| && forall i :: 0 <= i < |ds| ==> ps[i] == ds[i].packet
  {
    if ds == [] then [] else [ds[0].packet] + Packets(ds[1..])
  }

  lemma PacketsAfter(wire: seq<Packet>, a: seq<Delivery>, b: seq<Delivery>)
    ensures wire + Packets(a + b) == (wire + Packets(a)) + Packets(b)
  {
  }

  lemma PostedText(c: Session, text: bytes)
    ensures Wire(Post(c, Text(text)).out) == Wire(c.out)
  {
    WireAfter(c.out, Text(text));
  }

  lemma PostedAnswer(c: Session, q: Query, text: bytes)
    ensures Wire(Post(c, Answer(q, text)).out) == Wire(c.out)
  {
    WireAfter(c.out, Answer(q, text));
  }

  lemma PostedFrame(c: Session, kind: byte, payload: bytes)
    requires |payload| <= MAX_MESSAGE
    ensures Wire(Post(c, Frame(kind, payload)).out) == Wire(c.out) + [Frame(kind, payload)]
  {
    WireAfter(c.out, Frame(kind, payload));
  }

  lemma RelayedTo(s: Shared, sender: Id, kind: byte, payload: bytes, r: Id)
    requires Ordered(s) && NamesDistinct(s) && sender in s.sessions && r in s.sessions
    ensures r in RelayFrame(s, sender, kind, payload).sessions
    ensures Wire(RelayFrame(s, sender, kind, payload).sessions[r].out) == Wire(s.sessions[r].out)
      + if Reaches(s, sender, payload, r) && |payload| <= MAX_MESSAGE then [Frame(kind, payload)] else []
  {
    RelayExact(s, sender, kind, payload);
    if |payload| <= MAX_MESSAGE { PostedFrame(s.sessions[r], kind, payload); }
  }

  lemma RelayDelivers(kdf: Kdf, s: State, e: Event, r: Id)
    requires Inv(s) && e.Relay? && At(s, r)
    ensures var t := Step(kdf, s, e);
      At(t, r) && Wire(t.shared.sessions[r].out) == Wire(s.shared.sessions[r].out) + Packets(Delivered(s, e, r))
  {
    if Waits(s, e.id) && Relayed(e.kind) { RelayedTo(s.shared, e.id, e.kind, e.payload, r); }
  }

  lemma SentTableIsNoFrame(s: State, id: Id, text: bytes, r: Id)
    requires At(s, r)
    ensures Wire(PostTo(s.shared, id, Text(text)).sessions[r].out) == Wire(s.shared.sessions[r].out)
  {
    PostedText(s.shared.sessions[r], text);
  }

  lemma AnnouncementIsNoFrame(s: State, c: Session, sender: Option<Id>, r: Id)
    requires At(s, r)
    ensures Wire(Broadcast(s.shared, Announcement(c), sender).sessions[r].out) == Wire(s.shared.sessions[r].out)
  {
    PostedText(s.shared.sessions[r], NewText(Entry(c.name, c.key)));
  }

  lemma SentAnswerIsNoFrame(s: State, id: Id, r: Id)
    requires At(s, r) && At(s, id) && s.pcs[id].Answering?
    ensures Wire(PostTo(s.shared, id, AnswerOf(s.pcs[id])).sessions[r].out) == Wire(s.shared.sessions[r].out)
  {
    PostedAnswer(s.shared.sessions[r], s.pcs[id].query, AnswerOf(s.pcs[id]).text);
  }

  lemma WritesNoFrame(kdf: Kdf, s: State, e: Event, r: Id)
    requires Ordered(s.shared) && At(s, r) && (e.SendTable? || e.SendAnswer? || e.Announce? || e.Reply?)
    ensures Wire(Step(kdf, s, e).shared.sessions[r].out) == Wire(s.shared.sessions[r].out)
  {
    if e.SendTable? && At(s, e.id) && s.pcs[e.id].Sending? {
      SentTableIsNoFrame(s, e.id, KeysText(s.pcs[e.id].entries), r);
    }
    if e.SendAnswer? && At(s, e.id) && s.pcs[e.id].Answering? { SentAnswerIsNoFrame(s, e.id, r); }
    if e.Announce? && At(s, e.id) { AnnouncementIsNoFrame(s, s.shared.sessions[e.id], Some(e.id), r); }
    if e.Reply? { PostedText(s.shared.sessions[r], e.text); }
  }

  predicate Speaks(e: Event)
  {
    e.SendTable? || e.SendAnswer? || e.Announce? || e.Reply? || e.Relay?
  }

  predicate SetsUp(e: Event)
  {
    || e.Connect? || e.Publish? || e.Activate? || e.TakeTable?
    || e.Register? || e.ReadAccount? || e.CheckLogin? || e.Grant?
  }

  lemma SettingUpWritesNothing(kdf: Kdf, s: State, e: Event, r: Id)
    requires Ordered(s.shared) && At(s, r) && At(Step(kdf, s, e), r) && SetsUp(e)
    ensures Step(kdf, s, e).shared.sessions[r].out == s.shared.sessions[r].out
  {
    match e
    case Connect(_, _) =>
    case Publish(_, _) =>
    case Activate(_) =>
    case TakeTable(_) =>
    case Register(_, _, _, _) =>
    case ReadAccount(_, _, _) =>
    case CheckLogin(_, _) =>
    case Grant(_) =>
  }

  lemma WritesNothing(kdf: Kdf, s: State, e: Event, r: Id)
    requires Ordered(s.shared) && At(s, r) && At(Step(kdf, s, e), r) && !Speaks(e)
    ensures Step(kdf, s, e).shared.sessions[r].out == s.shared.sessions[r].out
  {
    if SetsUp(e) { SettingUpWritesNothing(kdf, s, e, r); }
  }

  /** One step appends to a connection exactly the frame it delivers there. */
  lemma StepDelivers(kdf: Kdf, s: State, e: Event, r: Id)
    requires Inv(s) && At(s, r) && At(Step(kdf, s, e), r)
    ensures Wire(Step(kdf, s, e).shared.sessions[r].out) == Wire(s.shared.sessions[r].out) + Packets(Delivered(s, e, r))
  {
    if e.Relay? {
      RelayDelivers(kdf, s, e, r);
    } else if e.SendTable? || e.SendAnswer? || e.Announce? || e.Reply? {
      WritesNoFrame(kdf, s, e, r);
    } else {
      WritesNothing(kdf, s, e, r);
    }
  }

  /** Over any run, what a connection receives is exactly the stream of frames that reached it: every
      sender's frames unchanged and in the order that sender's goroutine handled them, nothing lost,
      nothing doubled, and nothing from a sender that was not authenticated. */
  lemma {:induction false} RelayInOrder(kdf: Kdf, s: State, events: seq<Event>, r: Id)
    requires Inv(s) && StaysConnected(kdf, s, events, r)
    ensures At(Run(kdf, s, events), r)
    ensures Wire(Run(kdf, s, events).shared.sessions[r].out)
         == Wire(s.shared.sessions[r].out) + Packets(Stream(kdf, s, events, r))
    decreases |events|
  {
    if events != [] {
      var e := events[0];
      StepKeepsInv(kdf, s, e);
      var t := Step(kdf, s, e);
      RelayInOrder(kdf, t, events[1..], r);
      StepDelivers(kdf, s, e, r);
      PacketsAfter(Wire(s.shared.sessions[r].out), Delivered(s, e, r), Stream(kdf, t, events[1..], r));
    }
  }
}
