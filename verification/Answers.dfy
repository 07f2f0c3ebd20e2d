/**
 The two questions a client asks about keys and waits for: who is in its room, and what the key
 of a name is. What the server answers, and what the client stores of an answer.
 */
module Answers {
  import opened Wrappers
  import opened Bytes
  import opened Utf8
  import opened Directory

  datatype Query = Members | KeyOf(name: bytes)

  /** "ERR" */
  const ERR: bytes := [0x45, 0x52, 0x52]

  // ---------------------------------------------------------------- printing (server)

  /** To "/roommembers" the entries of the room, to "/pubkey" the key alone. */
  function AnswerText(q: Query, entries: seq<Entry>): bytes
  {
    TAG_RESPONSE + match q
                   case Members => PrintTable(entries)
                   case KeyOf(_) => if entries == [] then ERR else entries[0].key
  }

  // ---------------------------------------------------------------- parsing (client)

  function InsertMember(known: Known, item: bytes): Known
  {
    match Find(item, COLON)
    case None => known
    case Some(i) => known[Trim(item[..i]) := Trim(item[i + 1..])]
  }

  function InsertMembers(known: Known, items: seq<bytes>): Known
    decreases |items|
  {
    if items == [] then known else InsertMembers(InsertMember(known, items[0]), items[1..])
  }

  /** What the asking thread does with the answer: members are stored one by one, a key under the
      name that was asked for. */
  function StoreAnswer(known: Known, q: Query, answer: bytes): Known
  {
    if answer == ERR then known
    else
      match q
      case Members => InsertMembers(known, Split(answer, SEMICOLON))
      case KeyOf(name) => known[name := answer]
  }

  /** A text that the reading thread hands to whoever waits for an answer. */
  predicate IsAnswer(raw: bytes)
  {
    ValidUtf8(raw) && TAG_RESPONSE <= Trim(raw)
  }

  function AnswerBody(raw: bytes): bytes
    requires IsAnswer(raw)
  {
    Trim(Trim(raw)[|TAG_RESPONSE|..])
  }

  /** The known keys after `raw` has been received in answer to `q`. */
  function ReadAnswer(known: Known, q: Query, raw: bytes): Known
  {
    if IsAnswer(raw) then StoreAnswer(known, q, AnswerBody(raw)) else known
  }

  // ---------------------------------------------------------------- parse inverts print

  /** The entries answer the question: names the client can read, or at most one key that is not
      mistaken for a refusal, under the name that was asked for. */
  ghost predicate Fitting(q: Query, entries: seq<Entry>)
  {
    match q
    case Members => forall e :: e in entries ==> ValidName(e.name)
    case KeyOf(name) =>
      |entries| <= 1 && (entries != [] ==> entries[0].name == name && entries[0].key != [] && entries[0].key != ERR)
  }

  lemma PrintedMember(known: Known, e: Entry)
    requires Carriable(e)
    ensures InsertMember(known, PrintEntry(e)) == known[e.name := e.key]
  {
    PrintedItem(known, e);
    ValidNameIsPlain(e.name);
    var item := PrintEntry(e);
    assert item[0] == e.name[0];
    PrintedTail(e.name, e.key);
    assert Trim(item) == item;
  }

  lemma {:induction false} PrintedMembers(known: Known, entries: seq<Entry>)
    requires forall e :: e in entries ==> Carriable(e)
    ensures InsertMembers(known, PrintEntries(entries)) == Store(known, entries)
    decreases |entries|
  {
    if entries != [] {
      PrintedMember(known, entries[0]);
      PrintedMembers(known[entries[0].name := entries[0].key], entries[1..]);
    }
  }

  lemma {:induction false} TableIsTrimmed(entries: seq<Entry>)
    requires entries != [] && forall e :: e in entries ==> Carriable(e)
    ensures PrintTable(entries) != [] && Trimmed(PrintTable(entries)) && PrintTable(entries)[0] == 0x40
  {
    var first := entries[0];
    assert Carriable(first);
    ValidNameIsPlain(first.name);
    assert [] + PrintTable(entries) == PrintTable(entries);
    PrintedTableTail([], entries);
    var items := PrintEntries(entries);
    assert items[0] == PrintEntry(first) && items[0][0] == 0x40;
    assert PrintTable(entries)[0] == items[0][0];
  }

  lemma TaggedIsText(body: bytes)
    requires ValidUtf8(body)
    ensures ValidUtf8(TAG_RESPONSE + body)
  {
    AsciiIsValid(TAG_RESPONSE);
    ValidConcat(TAG_RESPONSE, body);
  }

  lemma TaggedIsTrimmed(body: bytes)
    requires Trimmed(body)
    ensures Trim(TAG_RESPONSE + body) == TAG_RESPONSE + body
  {
    var raw, start := TAG_RESPONSE + body, TAG_RESPONSE[..5];
    assert raw == start + [CLOSE] + body;
    assert raw[0] == 0x5B;
    if body != [] { SpaceEndAfter(start, CLOSE, body); }
  }

  /** Behind the tag comes the answer, with nothing to trim on either side. */
  lemma TaggedBody(body: bytes)
    requires Trimmed(body) && ValidUtf8(body)
    ensures IsAnswer(TAG_RESPONSE + body) && AnswerBody(TAG_RESPONSE + body) == body
  {
    var raw := TAG_RESPONSE + body;
    TaggedIsText(body);
    TaggedIsTrimmed(body);
    assert raw[|TAG_RESPONSE|..] == body;
  }

  lemma AnswerBodyIsText(q: Query, entries: seq<Entry>)
    requires Fitting(q, entries) && forall e :: e in entries ==> CarriableKey(e.key)
    ensures var body := AnswerText(q, entries)[|TAG_RESPONSE|..];
      && AnswerText(q, entries) == TAG_RESPONSE + body && Trimmed(body) && ValidUtf8(body)
      && (body == ERR <==> q.KeyOf? && entries == [])
  {
    match q
    case Members =>
      if entries != [] {
        assert forall e :: e in entries ==> Carriable(e);
        TableIsTrimmed(entries);
        TableIsText(entries);
      }
    case KeyOf(_) =>
      AsciiIsValid(ERR);
      if entries != [] { assert entries[0] in entries; }
  }

  lemma ReadMembers(known: Known, entries: seq<Entry>)
    requires forall e :: e in entries ==> Carriable(e)
    ensures InsertMembers(known, Split(PrintTable(entries), SEMICOLON)) == Store(known, entries)
  {
    if entries == [] {
      assert Split([], SEMICOLON) == [[]];
      assert InsertMembers(known, [[]]) == InsertMembers(InsertMember(known, []), []);
    } else {
      PrintedItemsHaveNoSemicolon(entries);
      SplitInvertsJoin(PrintEntries(entries), SEMICOLON);
      PrintedMembers(known, entries);
    }
  }

  /** Reading an answer to the question it was given to stores exactly its entries. */
  lemma ReadAnswerText(known: Known, q: Query, entries: seq<Entry>)
    requires Fitting(q, entries) && forall e :: e in entries ==> CarriableKey(e.key)
    ensures ReadAnswer(known, q, AnswerText(q, entries)) == Store(known, entries)
  {
    var body := AnswerText(q, entries)[|TAG_RESPONSE|..];
    AnswerBodyIsText(q, entries);
    TaggedBody(body);
    match q
    case Members =>
      assert forall e :: e in entries ==> Carriable(e);
      ReadMembers(known, entries);
    case KeyOf(name) =>
      if entries != [] {
        assert Store(known[name := entries[0].key], entries[1..]) == known[name := entries[0].key];
      }
  }

  /** An answer is not a directory text. */
  lemma AnswerIsNoDirectory(raw: bytes)
    requires IsAnswer(raw)
    ensures !IsDirectoryText(Trim(raw))
  {
  }
}
