/**
 The client's network state: the map of known keys that two threads fill, the slot through which
 answers pass from one to the other, and the message events that the reading loop hands to the
 interface, proved against the functions of Directory, Requests and EndToEnd.
 */
module NetState {
  import opened Wrappers
  import opened Bytes
  import opened Utf8
  import opened Directory
  import opened Answers
  import opened ServerSpec
  import opened KeyDirectory
  import opened EndToEnd
  import opened Requests

  /** What one packet shows to a client that has read `before`: at most one event. */
  ghost function Shown(c: Crypto, our: bytes, before: seq<Packet>, p: Packet): seq<Event>
  {
    match p
    case Text(_) => []
    case Answer(_, _) => []
    case Frame(kind, payload) =>
      if kind == TYPE_MESSAGE then [HandleMessage(c, KnownFrom(before), our, payload)] else []
  }

  /** Everything a connection's stream shows: each message is read with the keys known at its turn. */
  ghost function EventsFrom(c: Crypto, our: bytes, out: seq<Packet>): seq<Event>
  {
    if out == [] then []
    else EventsFrom(c, our, out[..|out| - 1]) + Shown(c, our, out[..|out| - 1], out[|out| - 1])
  }

  class NetState {
    var known: Known
    var pending: bool
    var asking: Option<Query>
    var inbox: Option<bytes>
    const crypto: Crypto
    const our: bytes

    ghost function View(): Client
      reads this
    {
      Client(known, pending, asking, inbox)
    }

    constructor (crypto: Crypto, our: bytes)
      ensures View() == NEW_CLIENT && this.crypto == crypto && this.our == our
    {
      known, pending, asking, inbox := map[], false, None, None;
      this.crypto, this.our := crypto, our;
    }

    /** The items behind the first ']', each cut at its first ':'; others are passed over. */
    method InsertKeys(text: bytes)
      modifies this`known
      ensures known == Directory.InsertKeys(old(known), text)
    {
      var end := Find(text, CLOSE);
      var body := if end.Some? then text[end.value + 1..] else text;
      var items, n := Split(body, SEMICOLON), 0;
      while n < |items|
        invariant n <= |items|
        invariant InsertItems(old(known), items) == InsertItems(known, items[n..])
      {
        var item := Trim(items[n]);
        var idx := Find(item, COLON);
        if idx.Some? {
          known := known[Trim(item[..idx.value]) := Trim(item[idx.value + 1..])];
        }
        assert items[n..][1..] == items[n + 1..];
        n := n + 1;
      }
    }

    /** The reading thread's way with a text: an answer goes to whoever left a channel in the slot. */
    method HandleText(raw: bytes)
      modifies this
      ensures View() == Handle(old(View()), raw)
    {
      if !ValidUtf8(raw) { return; }
      var text := Trim(raw);
      if TAG_RESPONSE <= text {
        if pending {
          pending := false;
          if asking.Some? { inbox := Some(Trim(text[|TAG_RESPONSE|..])); }
        }
      } else if TAG_KEYS <= text || TAG_NEW <= text {
        InsertKeys(text);
      }
    }

    /** The asking thread leaves its channel in the slot before it sends the question. */
    method Ask(q: Query)
      requires asking.None?
      modifies this
      ensures View() == ClientStep(old(View()), Question(q))
    {
      pending, asking, inbox := true, Some(q), None;
    }

    /** Each member is cut at its first ':' and stored. */
    method InsertMembers(answer: bytes)
      modifies this`known
      ensures known == Answers.InsertMembers(old(known), Split(answer, SEMICOLON))
    {
      var items, n := Split(answer, SEMICOLON), 0;
      while n < |items|
        invariant n <= |items|
        invariant Answers.InsertMembers(old(known), items) == Answers.InsertMembers(known, items[n..])
      {
        var idx := Find(items[n], COLON);
        if idx.Some? {
          known := known[Trim(items[n][..idx.value]) := Trim(items[n][idx.value + 1..])];
        }
        assert items[n..][1..] == items[n + 1..];
        n := n + 1;
      }
    }

    /** What the asking thread does with the answer it has been handed. */
    method TakeAnswer()
      requires asking.Some? && inbox.Some?
      modifies this
      ensures View() == ClientStep(old(View()), ClientEvent.TakeAnswer)
    {
      var answer := inbox.value;
      if answer != ERR {
        match asking.value {
          case Members => InsertMembers(answer);
          case KeyOf(name) => known := known[name := answer];
        }
      }
      asking, inbox := None, None;
    }

    /** After three seconds without an answer the channel is dropped; it stays in the slot. */
    method GiveUp()
      requires asking.Some? && inbox.None?
      modifies this
      ensures View() == ClientStep(old(View()), ClientEvent.GiveUp)
    {
      asking := None;
    }

    /** A question and its answer, when the answer is the next text. */
    method Request(q: Query, raw: bytes)
      requires asking.None? && inbox.None? && IsAnswer(raw)
      modifies this
      ensures known == ReadAnswer(old(known), q, raw)
      ensures View() == Client(known, false, None, None)
    {
      Ask(q);
      HandleText(raw);
      TakeAnswer();
    }

    /** The client over everything written to the connection, when it asks each question in time. */
    method Read(out: seq<Packet>) returns (events: seq<Event>)
      requires View() == NEW_CLIENT
      requires forall k :: 0 <= k < |out| && out[k].Answer? ==> IsAnswer(out[k].text)
      modifies this
      ensures known == KnownFrom(out) && events == EventsFrom(crypto, our, out)
    {
      events := [];
      var n := 0;
      while n < |out|
        invariant n <= |out| && View() == Client(known, false, None, None)
        invariant known == KnownFrom(out[..n]) && events == EventsFrom(crypto, our, out[..n])
      {
        assert out[..n + 1][..n] == out[..n];
        match out[n] {
          case Text(text) =>
            if IsAnswer(text) { AnswerIsNoDirectory(text); }
            HandleText(text);
          case Answer(q, answer) => Request(q, answer);
          case Frame(kind, payload) =>
            if kind == TYPE_MESSAGE {
              events := events + [HandleMessage(crypto, known, our, payload)];
            }
        }
        n := n + 1;
      }
      assert out[..n] == out;
    }
  }
}
