/**
 The directory texts: the `name:key;...` table and the announcement of one key as the server
 prints them, and the Rust client's parser that stores them in its map of known keys.
 */
module Directory {
  import opened Wrappers
  import opened Bytes
  import opened Utf8

  /** "[RESP]", "[ПУБКЛЮЧИ]" and "[НОВЫЙ]" in UTF-8; the last byte of each is the bracket. */
  const TAG_RESPONSE: bytes := [0x5B, 0x52, 0x45, 0x53, 0x50, 0x5D]
  const TAG_KEYS_BODY: bytes :=
    [0x5B, 0xD0, 0x9F, 0xD0, 0xA3, 0xD0, 0x91, 0xD0, 0x9A, 0xD0, 0x9B, 0xD0, 0xAE, 0xD0, 0xA7, 0xD0, 0x98]
  const TAG_NEW_BODY: bytes := [0x5B, 0xD0, 0x9D, 0xD0, 0x9E, 0xD0, 0x92, 0xD0, 0xAB, 0xD0, 0x99]
  const TAG_KEYS: bytes := TAG_KEYS_BODY + [CLOSE]
  const TAG_NEW: bytes := TAG_NEW_BODY + [CLOSE]

  /** One line of the directory. */
  datatype Entry = Entry(name: bytes, key: bytes)

  type Known = map<bytes, bytes>

  // ---------------------------------------------------------------- names

  predicate NameByte(c: byte)
  {
    0x61 <= c <= 0x7A || 0x30 <= c <= 0x39 || c == 0x5F
  }

  /** "@" and then 3 to 19 of a-z, 0-9 and '_'. */
  predicate ValidName(name: bytes)
  {
    4 <= |name| <= 20 && name[0] == 0x40 && forall i :: 1 <= i < |name| ==> NameByte(name[i])
  }

  lemma ValidNameIsPlain(name: bytes)
    requires ValidName(name)
    ensures forall i :: 0 <= i < |name| ==> Visible(name[i])
    ensures COLON !in name && SEMICOLON !in name && CLOSE !in name && NUL !in name && BAR !in name
    ensures Trimmed(name) && Trim(name) == name
  {
  }

  /** A key the table can carry: text, nothing to trim and no ';'. It may be empty. */
  predicate CarriableKey(key: bytes)
  {
    SEMICOLON !in key && Trimmed(key) && ValidUtf8(key)
  }

  ghost predicate Carriable(e: Entry)
  {
    ValidName(e.name) && CarriableKey(e.key)
  }

  // ---------------------------------------------------------------- printing (server)

  function PrintEntry(e: Entry): bytes
  {
    e.name + [COLON] + e.key
  }

  function PrintEntries(entries: seq<Entry>): (items: seq<bytes>)
    ensures |items| == |entries|
    ensures forall i :: 0 <= i < |items| ==> items[i] == PrintEntry(entries[i])
  {
    if entries == [] then [] else [PrintEntry(entries[0])] + PrintEntries(entries[1..])
  }

  function PrintTable(entries: seq<Entry>): bytes
  {
    Join(PrintEntries(entries), SEMICOLON)
  }

  function KeysText(entries: seq<Entry>): bytes
  {
    TAG_KEYS + PrintTable(entries)
  }

  function NewText(e: Entry): bytes
  {
    TAG_NEW + PrintEntry(e)
  }

  // ---------------------------------------------------------------- parsing (client)

  /** One item of the table: trimmed, cut at the first ':', both halves trimmed. */
  function InsertItem(known: Known, raw: bytes): Known
  {
    var item := Trim(raw);
    match Find(item, COLON)
    case None => known
    case Some(i) => known[Trim(item[..i]) := Trim(item[i + 1..])]
  }

  function InsertItems(known: Known, items: seq<bytes>): Known
    decreases |items|
  {
    if items == [] then known
    else InsertItems(InsertItem(known, items[0]), items[1..])
  }

  /** What follows the first ']', or the whole text when there is none. */
  function Body(text: bytes): bytes
  {
    match Find(text, CLOSE)
    case None => text
    case Some(i) => text[i + 1..]
  }

  function InsertKeys(known: Known, text: bytes): Known
  {
    InsertItems(known, Split(Body(text), SEMICOLON))
  }

  /** A text the reader hands to the key parser rather than to anything else. */
  predicate IsDirectoryText(text: bytes)
  {
    !(TAG_RESPONSE <= text) && (TAG_KEYS <= text || TAG_NEW <= text)
  }

  /** The known keys after the reader has handled one decrypted server text. Bytes that are not
      UTF-8 are refused as a whole by the decryption. */
  function ReadText(known: Known, raw: bytes): Known
  {
    var text := Trim(raw);
    if ValidUtf8(raw) && IsDirectoryText(text) then InsertKeys(known, text) else known
  }

  /** The entries stored one after the other; a later entry replaces an earlier one. */
  function Store(known: Known, entries: seq<Entry>): (stored: Known)
    decreases |entries|
  {
    if entries == [] then known
    else Store(known[entries[0].name := entries[0].key], entries[1..])
  }

  // ---------------------------------------------------------------- parse inverts print

  lemma PrintedItem(known: Known, e: Entry)
    requires Carriable(e)
    ensures InsertItem(known, PrintEntry(e)) == known[e.name := e.key]
  {
    ValidNameIsPlain(e.name);
    var item := PrintEntry(e);
    assert item[0] == e.name[0];
    PrintedTail(e.name, e.key);
    FindFirst(e.name, COLON, e.key);
    assert item[..|e.name|] == e.name && item[|e.name| + 1..] == e.key;
  }

  /** Nothing to trim at the end of `a:key`. */
  lemma PrintedTail(a: bytes, key: bytes)
    requires SpaceEnd(key) == 0
    ensures SpaceEnd(a + [COLON] + key) == 0
  {
    if key == [] {
      assert a + [COLON] + key == a + [COLON];
    } else {
      SpaceEndAfter(a, COLON, key);
    }
  }

  lemma {:induction false} PrintedItems(known: Known, entries: seq<Entry>)
    requires forall e :: e in entries ==> Carriable(e)
    ensures InsertItems(known, PrintEntries(entries)) == Store(known, entries)
    decreases |entries|
  {
    if entries != [] {
      PrintedItem(known, entries[0]);
      PrintedItems(known[entries[0].name := entries[0].key], entries[1..]);
    }
  }

  lemma PrintedItemsHaveNoSemicolon(entries: seq<Entry>)
    requires forall e :: e in entries ==> Carriable(e)
    ensures FreeOf(PrintEntries(entries), SEMICOLON)
  {
    forall i | 0 <= i < |entries| ensures SEMICOLON !in PrintEntries(entries)[i] {
      assert entries[i] in entries;
      ValidNameIsPlain(entries[i].name);
    }
  }

  /** The text of a table ends where its last entry ends. */
  lemma {:induction false} PrintedTableTail(prefix: bytes, entries: seq<Entry>)
    requires entries != [] && forall e :: e in entries ==> Carriable(e)
    ensures SpaceEnd(prefix + PrintTable(entries)) == 0
    decreases |entries|
  {
    var e := entries[0];
    assert Carriable(e);
    if |entries| == 1 {
      assert prefix + PrintTable(entries) == (prefix + e.name) + [COLON] + e.key;
      PrintedTail(prefix + e.name, e.key);
    } else {
      var longer := prefix + PrintEntry(e) + [SEMICOLON];
      assert PrintEntries(entries)[1..] == PrintEntries(entries[1..]);
      assert prefix + PrintTable(entries) == longer + PrintTable(entries[1..]);
      PrintedTableTail(longer, entries[1..]);
    }
  }

  // ---------------------------------------------------------------- when a directory text is UTF-8

  lemma BracketedIsText(letters: bytes)
    requires ValidUtf8(letters)
    ensures ValidUtf8([0x5B] + letters + [CLOSE])
  {
    ValidAroundAscii(letters, CLOSE, []);
    ValidAroundAscii([], 0x5B, letters + [CLOSE] + []);
    assert [] + [0x5B] + (letters + [CLOSE] + []) == [0x5B] + letters + [CLOSE];
  }

  lemma KeysTagIsText()
    ensures ValidUtf8(TAG_KEYS)
  {
    PairsAreValid(TAG_KEYS_BODY[1..]);
    BracketedIsText(TAG_KEYS_BODY[1..]);
    assert TAG_KEYS == [0x5B] + TAG_KEYS_BODY[1..] + [CLOSE];
  }

  lemma NewTagIsText()
    ensures ValidUtf8(TAG_NEW)
  {
    PairsAreValid(TAG_NEW_BODY[1..]);
    BracketedIsText(TAG_NEW_BODY[1..]);
    assert TAG_NEW == [0x5B] + TAG_NEW_BODY[1..] + [CLOSE];
  }

  lemma EntryIsText(e: Entry)
    requires ValidName(e.name)
    ensures ValidUtf8(PrintEntry(e)) <==> ValidUtf8(e.key)
  {
    AsciiIsValid(e.name);
    ValidAroundAscii(e.name, COLON, e.key);
  }

  lemma {:induction false} TableIsText(entries: seq<Entry>)
    requires forall e :: e in entries ==> ValidName(e.name)
    ensures ValidUtf8(PrintTable(entries)) <==> forall e :: e in entries ==> ValidUtf8(e.key)
  {
    if entries != [] {
      var first, rest := entries[0], entries[1..];
      assert forall e :: e in entries <==> e == first || e in rest;
      EntryIsText(first);
      TableIsText(rest);
      if |entries| == 1 {
        assert PrintTable(entries) == PrintEntry(first);
      } else {
        assert PrintEntries(entries)[1..] == PrintEntries(rest);
        ValidAroundAscii(PrintEntry(first), SEMICOLON, PrintTable(rest));
      }
    }
  }

  /** A table is text exactly when all its keys are, and otherwise the client learns nothing from it:
      one bad key hides every other. */
  lemma OneBadKey(known: Known, entries: seq<Entry>)
    requires forall e :: e in entries ==> ValidName(e.name)
    ensures ValidUtf8(KeysText(entries)) <==> forall e :: e in entries ==> ValidUtf8(e.key)
    ensures (exists e :: e in entries && !ValidUtf8(e.key)) ==> ReadText(known, KeysText(entries)) == known
  {
    KeysTagIsText();
    ValidConcat(TAG_KEYS, PrintTable(entries));
    TableIsText(entries);
  }

  lemma NewTextIsText(e: Entry)
    requires ValidName(e.name)
    ensures ValidUtf8(NewText(e)) <==> ValidUtf8(e.key)
  {
    NewTagIsText();
    ValidConcat(TAG_NEW, PrintEntry(e));
    EntryIsText(e);
  }

  // ---------------------------------------------------------------- reading printed texts

  lemma TagTrimmed(tag: bytes, text: bytes)
    requires tag == TAG_KEYS || tag == TAG_NEW
    requires tag <= text && SpaceEnd(text) == 0
    ensures Trim(text) == text && IsDirectoryText(text)
  {
    assert text[0] == tag[0] && text[1] == tag[1];
    assert !(TAG_RESPONSE <= text) by {
      assert text[1] != TAG_RESPONSE[1];
    }
  }

  lemma TagBody(tagBody: bytes, rest: bytes)
    requires CLOSE !in tagBody
    ensures Body(tagBody + [CLOSE] + rest) == rest
  {
    FindFirst(tagBody, CLOSE, rest);
  }

  /** The empty table. */
  lemma ReadEmptyTable(known: Known)
    ensures InsertKeys(known, TAG_KEYS) == known
  {
    TagBody(TAG_KEYS_BODY, []);
    assert TAG_KEYS_BODY + [CLOSE] + [] == TAG_KEYS;
    assert Split([], SEMICOLON) == [[]];
    assert Find(Trim([]), COLON).None?;
    assert InsertItems(known, [[]]) == InsertItems(InsertItem(known, []), []);
  }

  /** Reading a printed table stores exactly its entries, the empty table included. */
  lemma ReadKeysText(known: Known, entries: seq<Entry>)
    requires forall e :: e in entries ==> Carriable(e)
    ensures ReadText(known, KeysText(entries)) == Store(known, entries)
  {
    OneBadKey(known, entries);
    KeysTextIsTagged(entries);
    if entries == [] {
      assert KeysText(entries) == TAG_KEYS;
      ReadEmptyTable(known);
    } else {
      InsertPrinted(known, entries);
    }
  }

  lemma KeysTextIsTagged(entries: seq<Entry>)
    requires forall e :: e in entries ==> Carriable(e)
    ensures Trim(KeysText(entries)) == KeysText(entries) && IsDirectoryText(KeysText(entries))
  {
    if entries == [] {
      assert KeysText(entries) == TAG_KEYS;
    } else {
      PrintedTableTail(TAG_KEYS, entries);
    }
    TagTrimmed(TAG_KEYS, KeysText(entries));
  }

  lemma InsertPrinted(known: Known, entries: seq<Entry>)
    requires entries != [] && forall e :: e in entries ==> Carriable(e)
    ensures InsertKeys(known, KeysText(entries)) == Store(known, entries)
  {
    TagBody(TAG_KEYS_BODY, PrintTable(entries));
    PrintedItemsHaveNoSemicolon(entries);
    SplitInvertsJoin(PrintEntries(entries), SEMICOLON);
    PrintedItems(known, entries);
  }

  lemma OneItem(known: Known, e: Entry)
    requires Carriable(e)
    ensures InsertItems(known, Split(PrintEntry(e), SEMICOLON)) == known[e.name := e.key]
  {
    PrintedItemsHaveNoSemicolon([e]);
    assert PrintEntries([e])[0] == PrintEntry(e);
    SplitWhole(PrintEntry(e), SEMICOLON);
    PrintedItem(known, e);
    assert InsertItems(known, [PrintEntry(e)]) == InsertItems(known[e.name := e.key], []);
  }

  /** Reading an announcement stores its one entry, also when the key is still empty. */
  lemma ReadNewText(known: Known, e: Entry)
    requires Carriable(e)
    ensures ReadText(known, NewText(e)) == known[e.name := e.key]
  {
    NewTextIsText(e);
    NewTextIsTagged(e);
    TagBody(TAG_NEW_BODY, PrintEntry(e));
    OneItem(known, e);
  }

  lemma NewTextIsTagged(e: Entry)
    requires Carriable(e)
    ensures Trim(NewText(e)) == NewText(e) && IsDirectoryText(NewText(e))
  {
    PrintedTail(TAG_NEW + e.name, e.key);
    assert NewText(e) == (TAG_NEW + e.name) + [COLON] + e.key;
    TagTrimmed(TAG_NEW, NewText(e));
  }
}
