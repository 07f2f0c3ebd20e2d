/**
 The list of users: the text the server prints for "/users", the client's parser for it, and
 when parsing returns exactly what was printed in the states the server can reach.
 */
module UserList {
  import opened Wrappers
  import opened Bytes
  import opened Utf8
  import opened Accounts
  import opened Directory
  import opened Profile
  import opened ServerSpec
  import opened Interleaving
  import opened SessionSafety
  import opened AccountSources
  import opened StoredText

  /** "[ПОЛЬЗОВАТЕЛИ2]" in UTF-8. */
  const TAG_LETTERS: bytes :=
    [0xD0, 0x9F, 0xD0, 0x9E, 0xD0, 0x9B, 0xD0, 0xAC, 0xD0, 0x97, 0xD0, 0x9E, 0xD0, 0x92,
     0xD0, 0x90, 0xD0, 0xA2, 0xD0, 0x95, 0xD0, 0x9B, 0xD0, 0x98]
  const TAG_USERS: bytes := [0x5B] + TAG_LETTERS + [0x32, CLOSE]

  datatype User = User(name: bytes, nick: bytes, shown: bool)

  // ---------------------------------------------------------------- printing (server)

  function PrintUser(u: User): bytes
  {
    u.name + [BAR] + u.nick + [BAR] + (if u.shown then ONE else ZERO)
  }

  function PrintUsers(users: seq<User>): (items: seq<bytes>)
    ensures |items| == |users|
    ensures forall i :: 0 <= i < |items| ==> items[i] == PrintUser(users[i])
  {
    if users == [] then [] else [PrintUser(users[0])] + PrintUsers(users[1..])
  }

  function UsersText(users: seq<User>): bytes
  {
    TAG_USERS + Join(PrintUsers(users), SEMICOLON)
  }

  /** How an authenticated client is listed. */
  function Listing(accounts: map<bytes, Account>, name: bytes): User
  {
    var ok := name in accounts;
    User(name, if ok && accounts[name].nick != [] then accounts[name].nick else StripAt(name),
         !(ok && accounts[name].hideStatus))
  }

  /** The users from position `n` of the client list. */
  function Users(s: Shared, n: nat): seq<User>
    requires n <= |s.order| && Lists(s.sessions, s.order)
    decreases |s.order| - n
  {
    if n == |s.order| then []
    else
      var c := s.sessions[s.order[n]];
      (if c.authed then [Listing(s.accounts, c.name)] else []) + Users(s, n + 1)
  }

  /** The authenticated clients from position `n` of the list, in its order. */
  function Authed(s: Shared, n: nat): (ids: seq<Id>)
    requires n <= |s.order| && Lists(s.sessions, s.order)
    ensures forall k :: 0 <= k < |ids| ==> ids[k] in s.sessions
    decreases |s.order| - n
  {
    if n == |s.order| then []
    else (if s.sessions[s.order[n]].authed then [s.order[n]] else []) + Authed(s, n + 1)
  }

  /** The user shows the client under its name, with the nick of its account if it has one and else the name
      without '@', and as present unless the account hides that. */
  ghost predicate Describes(u: User, c: Session, accounts: map<bytes, Account>)
  {
    && u.name == c.name
    && u.nick == (if c.name in accounts && accounts[c.name].nick != [] then accounts[c.name].nick
                  else if c.name != [] && c.name[0] == 0x40 then c.name[1..] else c.name)
    && (u.shown <==> !(c.name in accounts && accounts[c.name].hideStatus))
  }

  /** The list has exactly the authenticated clients, each once, in the order of their connections. */
  lemma {:induction false} UsersAreAuthed(s: Shared, n: nat)
    requires n <= |s.order| && Lists(s.sessions, s.order)
    ensures |Users(s, n)| == |Authed(s, n)|
    ensures forall k :: 0 <= k < |Users(s, n)| ==> Describes(Users(s, n)[k], s.sessions[Authed(s, n)[k]], s.accounts)
    decreases |s.order| - n
  {
    if n < |s.order| {
      var c, us, ids := s.sessions[s.order[n]], Users(s, n + 1), Authed(s, n + 1);
      UsersAreAuthed(s, n + 1);
      if c.authed {
        ListingDescribes(c, s.accounts);
        assert Users(s, n) == [Listing(s.accounts, c.name)] + us && Authed(s, n) == [s.order[n]] + ids;
        OneMoreDescribed(s, Listing(s.accounts, c.name), s.order[n], us, ids);
      } else {
        assert Users(s, n) == us && Authed(s, n) == ids;
      }
    }
  }

  lemma ListingDescribes(c: Session, accounts: map<bytes, Account>)
    ensures Describes(Listing(accounts, c.name), c, accounts)
  {
  }

  lemma OneMoreDescribed(s: Shared, u: User, id: Id, us: seq<User>, ids: seq<Id>)
    requires id in s.sessions && Describes(u, s.sessions[id], s.accounts)
    requires |us| == |ids| && forall k :: 0 <= k < |ids| ==> ids[k] in s.sessions
    requires forall k :: 0 <= k < |us| ==> Describes(us[k], s.sessions[ids[k]], s.accounts)
    ensures forall k :: 0 <= k < |[id] + ids| ==> ([id] + ids)[k] in s.sessions
    ensures forall k :: 0 <= k < |[u] + us| ==> Describes(([u] + us)[k], s.sessions[([id] + ids)[k]], s.accounts)
  {
    forall k | 0 <= k < |[u] + us|
      ensures ([id] + ids)[k] in s.sessions && Describes(([u] + us)[k], s.sessions[([id] + ids)[k]], s.accounts)
    {
      if k > 0 { assert ([u] + us)[k] == us[k - 1] && ([id] + ids)[k] == ids[k - 1]; }
    }
  }

  // ---------------------------------------------------------------- parsing (client)

  /** An item with fewer than three fields is skipped. */
  function ParseUser(item: bytes): seq<User>
  {
    var p := Split(item, BAR);
    if |p| >= 3 then [User(p[0], p[1], p[2] == ONE)] else []
  }

  function ParseUsers(items: seq<bytes>): seq<User>
  {
    if items == [] then [] else ParseUser(items[0]) + ParseUsers(items[1..])
  }

  /** The users the client reads from a decrypted server text, if it is a list of users. Bytes that
      are not UTF-8 are refused as a whole by the decryption. */
  function ReadUsers(raw: bytes): Option<seq<User>>
  {
    var text := Trim(raw);
    if ValidUtf8(raw) && TAG_USERS <= text then Some(ParseUsers(Split(text[|TAG_USERS|..], SEMICOLON))) else None
  }

  // ---------------------------------------------------------------- parse inverts print

  ghost predicate Listable(u: User)
  {
    BAR !in u.name && SEMICOLON !in u.name && BAR !in u.nick && SEMICOLON !in u.nick
  }

  lemma PrintedUser(u: User)
    requires Listable(u)
    ensures ParseUser(PrintUser(u)) == [u] && SEMICOLON !in PrintUser(u)
  {
    var flag := if u.shown then ONE else ZERO;
    assert BAR !in flag && SEMICOLON !in flag;
    assert PrintUser(u) == u.name + [BAR] + (u.nick + [BAR] + flag);
    SplitFirst(u.name, BAR, u.nick + [BAR] + flag);
    SplitFirst(u.nick, BAR, flag);
    SplitWhole(flag, BAR);
  }

  /** A line of the list has three fields: name, nick, and "1" for present. */
  lemma UserFields(u: User)
    requires Listable(u)
    ensures Split(PrintUser(u), BAR) == [u.name, u.nick, if u.shown then [0x31] else [0x30]]
  {
    var flag := if u.shown then ONE else ZERO;
    assert BAR !in flag;
    assert PrintUser(u) == u.name + [BAR] + (u.nick + [BAR] + flag);
    SplitFirst(u.name, BAR, u.nick + [BAR] + flag);
    SplitFirst(u.nick, BAR, flag);
    SplitWhole(flag, BAR);
  }

  /** Of any line with three fields or more the client takes the first three, and "1" alone for present; a shorter
      line is passed over. */
  lemma LineRule(fields: seq<bytes>)
    requires fields != [] && FreeOf(fields, BAR)
    ensures ParseUser(Join(fields, BAR))
         == if |fields| < 3 then [] else [User(fields[0], fields[1], fields[2] == [0x31])]
  {
    SplitInvertsJoin(fields, BAR);
  }

  lemma {:induction false} PrintedUsers(users: seq<User>)
    requires forall u :: u in users ==> Listable(u)
    ensures ParseUsers(PrintUsers(users)) == users
  {
    if users != [] {
      var items := PrintUsers(users);
      PrintedUser(users[0]);
      PrintedUsers(users[1..]);
      assert items[0] == PrintUser(users[0]) && items[1..] == PrintUsers(users[1..]);
      assert ParseUsers(items) == ParseUser(items[0]) + ParseUsers(items[1..]);
    }
  }

  lemma PrintedUsersHaveNoSemicolon(users: seq<User>)
    requires forall u :: u in users ==> Listable(u)
    ensures FreeOf(PrintUsers(users), SEMICOLON)
  {
    forall i | 0 <= i < |users| ensures SEMICOLON !in PrintUsers(users)[i] {
      PrintedUser(users[i]);
    }
  }

  /** The text ends in a flag, or in the tag's bracket when nobody is listed. */
  lemma {:induction false} UsersTextEnds(prefix: bytes, users: seq<User>)
    requires users != []
    ensures var text := prefix + Join(PrintUsers(users), SEMICOLON);
      text != [] && Visible(text[|text| - 1])
    decreases |users|
  {
    if |users| > 1 {
      var longer := prefix + PrintUser(users[0]) + [SEMICOLON];
      assert PrintUsers(users)[1..] == PrintUsers(users[1..]);
      assert prefix + Join(PrintUsers(users), SEMICOLON) == longer + Join(PrintUsers(users[1..]), SEMICOLON);
      UsersTextEnds(longer, users[1..]);
    }
  }

  // ---------------------------------------------------------------- when a list is UTF-8

  lemma LettersAreText()
    ensures ValidUtf8(TAG_LETTERS)
  {
    var s := TAG_LETTERS;
    assert |s| == 24;
    forall i | 0 <= i < 24 ensures if i % 2 == 0 then 0xC2 <= s[i] <= 0xDF else Continuation(s[i]) {
      assert i % 2 == 0 ==> i == 0 || i == 2 || i == 4 || i == 6 || i == 8 || i == 10 || i == 12 || i == 14 || i == 16
                            || i == 18 || i == 20 || i == 22;
    }
    PairsAreValid(s);
  }

  lemma TagIsText()
    ensures ValidUtf8(TAG_USERS)
  {
    LettersAreText();
    AsciiIsValid([0x32, CLOSE]);
    ValidConcat(TAG_LETTERS, [0x32, CLOSE]);
    AsciiIsValid([0x5B]);
    ValidConcat([0x5B], TAG_LETTERS + [0x32, CLOSE]);
    assert TAG_USERS == [0x5B] + (TAG_LETTERS + [0x32, CLOSE]);
  }

  lemma UserIsText(u: User)
    requires ValidUtf8(u.name)
    ensures ValidUtf8(PrintUser(u)) <==> ValidUtf8(u.nick)
  {
    var flag := if u.shown then ONE else ZERO;
    AsciiIsValid(flag);
    ValidAroundAscii(u.name + [BAR] + u.nick, BAR, flag);
    ValidAroundAscii(u.name, BAR, u.nick);
  }

  lemma {:induction false} UsersAreText(users: seq<User>)
    requires forall u :: u in users ==> ValidUtf8(u.name)
    ensures ValidUtf8(Join(PrintUsers(users), SEMICOLON)) <==> forall u :: u in users ==> ValidUtf8(u.nick)
  {
    if users != [] {
      var first, rest := users[0], users[1..];
      assert forall u :: u in users <==> u == first || u in rest;
      UserIsText(first);
      UsersAreText(rest);
      assert PrintUsers(users)[1..] == PrintUsers(rest);
      if |users| > 1 {
        ValidAroundAscii(PrintUser(first), SEMICOLON, Join(PrintUsers(rest), SEMICOLON));
      }
    }
  }

  /** A printed list is text exactly when every nick in it is. */
  lemma UsersTextIsText(users: seq<User>)
    requires forall u :: u in users ==> ValidUtf8(u.name)
    ensures ValidUtf8(UsersText(users)) <==> forall u :: u in users ==> ValidUtf8(u.nick)
  {
    TagIsText();
    ValidConcat(TAG_USERS, Join(PrintUsers(users), SEMICOLON));
    UsersAreText(users);
  }

  lemma ParsePrinted(users: seq<User>)
    requires forall u :: u in users ==> Listable(u)
    ensures ParseUsers(Split(Join(PrintUsers(users), SEMICOLON), SEMICOLON)) == users
  {
    if users == [] {
      assert Split([], SEMICOLON) == [[]];
      assert ParseUser([]) == [];
      assert ParseUsers([[]]) == ParseUser([]) + ParseUsers([]);
    } else {
      PrintedUsers(users);
      PrintedUsersHaveNoSemicolon(users);
      SplitInvertsJoin(PrintUsers(users), SEMICOLON);
    }
  }

  /** Reading a printed list returns its users in order, the empty list included, if and only if every
      nick is text; one nick that is not makes the client refuse the whole list. */
  lemma ReadUsersText(users: seq<User>)
    requires forall u :: u in users ==> Listable(u) && ValidUtf8(u.name)
    ensures ReadUsers(UsersText(users)) == Some(users) <==> forall u :: u in users ==> ValidUtf8(u.nick)
    ensures ReadUsers(UsersText(users)) == None <==> exists u :: u in users && !ValidUtf8(u.nick)
  {
    var text := UsersText(users);
    UsersTextIsText(users);
    ParsePrinted(users);
    if users == [] {
      assert text == TAG_USERS;
    } else {
      UsersTextEnds(TAG_USERS, users);
    }
    assert text[0] == TAG_USERS[0];
    VisibleEnds(text);
    assert text[|TAG_USERS|..] == Join(PrintUsers(users), SEMICOLON);
  }

  // ---------------------------------------------------------------- through the connection

  /** A list of users is neither a table of keys nor an announcement. */
  lemma UsersTextIsReply(users: seq<User>)
    ensures Trim(UsersText(users)) == UsersText(users) && TAG_USERS <= UsersText(users)
    ensures !IsDirectoryText(UsersText(users))
  {
    var text := UsersText(users);
    if users == [] {
      assert text == TAG_USERS;
    } else {
      UsersTextEnds(TAG_USERS, users);
    }
    assert text[0] == TAG_USERS[0] && text[4] == TAG_USERS[4] && text[2] == TAG_USERS[2];
    VisibleEnds(text);
    assert TAG_KEYS[4] == 0xA3 && TAG_USERS[4] == 0x9E && TAG_NEW[2] == 0x9D && TAG_USERS[2] == 0x9F;
  }

  /** What a client that asks for the list of users reads: the reply is written to it, if it fits a frame. */
  ghost function ListSeen(kdf: Kdf, s: State, j: Id): Option<seq<User>>
    requires Ordered(s.shared) && j in s.shared.sessions
  {
    match Received(kdf, s, j, UsersText(Users(s.shared, 0)))
    case Some(raw) => ReadUsers(raw)
    case None => None
  }

  /** The text that a reply adds to what was written to `j`. */
  ghost function Received(kdf: Kdf, s: State, j: Id, text: bytes): Option<bytes>
    requires Ordered(s.shared) && j in s.shared.sessions
  {
    var before, after := s.shared.sessions[j].out, Step(kdf, s, Reply({j}, text)).shared.sessions[j].out;
    if |after| == |before| + 1 && after[|before|].Text? then Some(after[|before|].text) else None
  }

  lemma ReceivedIs(kdf: Kdf, s: State, j: Id, text: bytes)
    requires Ordered(s.shared) && j in s.shared.sessions && !IsDirectoryText(Trim(text))
    ensures Received(kdf, s, j, text) == if Fits(Text(text)) then Some(text) else None
  {
  }

  lemma ListSeenIs(kdf: Kdf, s: State, j: Id)
    requires Ordered(s.shared) && j in s.shared.sessions
    ensures var text := UsersText(Users(s.shared, 0));
      ListSeen(kdf, s, j) == if Fits(Text(text)) then ReadUsers(text) else None
  {
    UsersTextIsReply(Users(s.shared, 0));
    ReceivedIs(kdf, s, j, UsersText(Users(s.shared, 0)));
  }

  /** Whoever asks reads the list as it is if and only if it fits a frame and every nick in it is text;
      otherwise nothing is read. */
  lemma AskedListIsRead(kdf: Kdf, s: State, j: Id)
    requires Ordered(s.shared) && j in s.shared.sessions
    requires forall u :: u in Users(s.shared, 0) ==> Listable(u) && ValidUtf8(u.name)
    ensures var users := Users(s.shared, 0);
      && (ListSeen(kdf, s, j) == Some(users)
          <==> Fits(Text(UsersText(users))) && forall u :: u in users ==> ValidUtf8(u.nick))
      && (ListSeen(kdf, s, j) == None
          <==> !Fits(Text(UsersText(users))) || exists u :: u in users && !ValidUtf8(u.nick))
  {
    ListSeenIs(kdf, s, j);
    ReadUsersText(Users(s.shared, 0));
  }

  // ---------------------------------------------------------------- every nick stays printable

  ghost predicate PrintableNick(nick: bytes)
  {
    BAR !in nick && SEMICOLON !in nick
  }

  /** Every stored nick, and every nick a login has read and may write back, can be listed. */
  ghost predicate PrintableNicks(s: State)
  {
    forall u, acc :: Held(s, u, acc) ==> PrintableNick(acc.nick)
  }

  lemma NameNickIsPrintable(u: bytes)
    requires ValidName(u)
    ensures PrintableNick(StripAt(u)) && StripAt(u) != [] && |StripAt(u)| <= 19
  {
  }

  lemma EditedNickIsPrintable(u: bytes, acc: Account, pairs: map<bytes, bytes>)
    requires ValidName(u) && PrintableNick(acc.nick)
    ensures PrintableNick(Edited(u, acc, pairs).nick)
  {
    NameNickIsPrintable(u);
    assert Delimiter(BAR) && Delimiter(SEMICOLON);
    if NICK in pairs { SanitizedIsClean(pairs[NICK], MAX_NICK); }
  }

  /** Replacing what is not text brings in no ASCII byte. */
  lemma {:induction false} CoercedBytes(s: bytes, c: byte)
    requires c < 0x80 && c !in s
    ensures c !in Coerce(s)
    decreases |s|
  {
    if s != [] {
      if CharAt(s) == 0 { CoercedBytes(s[1..], c); } else { CoercedBytes(s[CharAt(s)..], c); }
    }
  }

  lemma LoadedNick(u: bytes, acc: Account)
    requires Textual(u, acc)
    ensures LoadedAccount(u, acc).nick == Coerce(acc.nick)
  {
  }

  lemma MadeNickIsPrintable(kdf: Kdf, s: State, e: Event, u: bytes, acc: Account)
    requires Inv(s) && AllTextual(s) && PrintableNicks(s) && MadeBy(kdf, s, e, u, acc)
    ensures PrintableNick(acc.nick)
  {
    if e.Restart? {
      var was := s.shared.accounts[u];
      assert Held(s, u, was);
      LoadedNick(u, was);
      CoercedBytes(was.nick, BAR);
      CoercedBytes(was.nick, SEMICOLON);
      return;
    }
    ActorIsNamed(s, e.id);
    var name := s.shared.sessions[e.id].name;
    if e.Register? { NameNickIsPrintable(name); }
    if e.CheckLogin? { assert Pending(s, e.id, u, s.pcs[e.id].read.value) && Held(s, u, s.pcs[e.id].read.value); }
    if !e.Register? && !e.CheckLogin? { assert Held(s, name, s.shared.accounts[name]); }
    if e.SetProfile? { EditedNickIsPrintable(u, s.shared.accounts[u], ParsePairs(e.rest)); }
  }

  lemma StepKeepsNicks(kdf: Kdf, s: State, e: Event)
    requires Inv(s) && AllTextual(s) && PrintableNicks(s)
    ensures PrintableNicks(Step(kdf, s, e))
  {
    forall u, acc | Held(Step(kdf, s, e), u, acc) ensures PrintableNick(acc.nick) {
      StepSources(kdf, s, e, u, acc);
      if !Held(s, u, acc) { MadeNickIsPrintable(kdf, s, e, u, acc); }
    }
  }

  lemma {:induction false} NicksInRuns(kdf: Kdf, s: State, events: seq<Event>)
    requires Inv(s) && AllTextual(s) && PrintableNicks(s)
    ensures PrintableNicks(Run(kdf, s, events))
    decreases |events|
  {
    if events != [] {
      StepKeepsNicks(kdf, s, events[0]);
      StepKeepsTextual(kdf, s, events[0]);
      StepKeepsInv(kdf, s, events[0]);
      NicksInRuns(kdf, Step(kdf, s, events[0]), events[1..]);
    }
  }

  /** No nick has a delimiter of the list. */
  ghost predicate OldNicks(accounts: map<bytes, Account>)
  {
    forall u :: u in accounts ==> PrintableNick(accounts[u].nick)
  }

  /** Every listed user can be printed and has a nick. */
  lemma {:induction false} UsersAreListable(s: Shared, n: nat)
    requires n <= |s.order| && Lists(s.sessions, s.order) && OldNicks(s.accounts)
    requires forall i :: i in s.sessions ==> ValidName(s.sessions[i].name)
    ensures forall u :: u in Users(s, n) ==> Listable(u) && u.nick != []
    decreases |s.order| - n
  {
    if n < |s.order| {
      UsersAreListable(s, n + 1);
      var name := s.sessions[s.order[n]].name;
      NameNickIsPrintable(name);
      ValidNameIsPlain(name);
      var u := Listing(s.accounts, name);
      assert Listable(u) && u.nick != [];
    }
  }

  lemma BootNicks(stored: map<bytes, Account>, table: map<bytes, Row>)
    requires OldNicks(Loaded(stored))
    ensures PrintableNicks(Boot(stored, table))
  {
    var s := Boot(stored, table);
    forall u, acc | Held(s, u, acc) ensures PrintableNick(acc.nick) {
      assert Stored(s, u, acc);
    }
  }

  /** In every reachable state the users of the list can be printed and have nicks. */
  lemma ReachableListable(kdf: Kdf, stored: map<bytes, Account>, table: map<bytes, Row>, events: seq<Event>)
    requires OldNicks(Loaded(stored))
    ensures Inv(Boot(stored, table))
    ensures var t := Run(kdf, Boot(stored, table), events).shared;
      forall u :: u in Users(t, 0) ==> Listable(u) && u.nick != [] && ValidUtf8(u.name)
  {
    var s := Boot(stored, table);
    BootNicks(stored, table);
    BootIsTextual(stored, table);
    EveryRunIsSafe(kdf, stored, table, events);
    NicksInRuns(kdf, s, events);
    var t := Run(kdf, s, events);
    forall u | u in t.shared.accounts ensures PrintableNick(t.shared.accounts[u].nick) {
      assert Held(t, u, t.shared.accounts[u]);
    }
    UsersAreListable(t.shared, 0);
    UsersAreNamed(t.shared, 0);
  }

  lemma {:induction false} UsersAreNamed(s: Shared, n: nat)
    requires n <= |s.order| && Lists(s.sessions, s.order)
    requires forall i :: i in s.sessions ==> ValidName(s.sessions[i].name)
    ensures forall u :: u in Users(s, n) ==> ValidName(u.name) && ValidUtf8(u.name)
    decreases |s.order| - n
  {
    if n < |s.order| {
      UsersAreNamed(s, n + 1);
      NameIsText(s.sessions[s.order[n]].name);
    }
  }

  /** Whatever the interleaving, and however often the server is restarted: whoever asks for the list of
      users in the state that is reached reads the same users in the same order if and only if the list
      fits a frame and every nick in it is text, and reads nothing otherwise. */
  lemma UsersRoundTrip(kdf: Kdf, stored: map<bytes, Account>, table: map<bytes, Row>, events: seq<Event>, j: Id)
    requires OldNicks(Loaded(stored))
    ensures Inv(Boot(stored, table))
    ensures var t := Run(kdf, Boot(stored, table), events);
      var users := Users(t.shared, 0);
      j in t.shared.sessions ==>
        && (ListSeen(kdf, t, j) == Some(users)
            <==> Fits(Text(UsersText(users))) && forall u :: u in users ==> ValidUtf8(u.nick))
        && (ListSeen(kdf, t, j) == None
            <==> !Fits(Text(UsersText(users))) || exists u :: u in users && !ValidUtf8(u.nick))
        && (forall u :: u in users ==> u.nick != [])
  {
    ReachableListable(kdf, stored, table, events);
    var t := Run(kdf, Boot(stored, table), events);
    if j in t.shared.sessions { AskedListIsRead(kdf, t, j); }
  }

  // ---------------------------------------------------------------- the guard

  /** The edit does not cut the nick inside a character. */
  predicate WholeNick(pairs: map<bytes, bytes>)
  {
    NICK in pairs ==> CutsWhole(pairs[NICK], MAX_NICK)
  }

  ghost predicate WholeNicks(events: seq<Event>)
  {
    forall k :: 0 <= k < |events| && events[k].SetProfile? ==> WholeNick(ParsePairs(events[k].rest))
  }

  ghost predicate TextNicks(s: State)
  {
    forall u, acc :: Held(s, u, acc) ==> ValidUtf8(acc.nick)
  }

  lemma MadeNickIsText(kdf: Kdf, s: State, e: Event, u: bytes, acc: Account)
    requires Inv(s) && TextNicks(s) && MadeBy(kdf, s, e, u, acc)
    requires e.SetProfile? ==> WholeNick(ParsePairs(e.rest))
    ensures ValidUtf8(acc.nick)
  {
    if e.Restart? {
      LoadedIsTextual(u, s.shared.accounts[u]);
      return;
    }
    ActorIsNamed(s, e.id);
    var name := s.shared.sessions[e.id].name;
    NameIsText(name);
    if e.CheckLogin? { assert Pending(s, e.id, u, s.pcs[e.id].read.value) && Held(s, u, s.pcs[e.id].read.value); }
    if !e.Register? && !e.CheckLogin? { assert Held(s, name, s.shared.accounts[name]); }
    if e.SetProfile? && NICK in ParsePairs(e.rest) { SanitizedIsText(ParsePairs(e.rest)[NICK], MAX_NICK); }
  }

  lemma {:induction false} NicksStayText(kdf: Kdf, s: State, events: seq<Event>)
    requires Inv(s) && TextNicks(s) && WholeNicks(events)
    ensures TextNicks(Run(kdf, s, events))
    decreases |events|
  {
    if events != [] {
      var e, t := events[0], Step(kdf, s, events[0]);
      forall u, acc | Held(t, u, acc) ensures ValidUtf8(acc.nick) {
        StepSources(kdf, s, e, u, acc);
        if !Held(s, u, acc) { MadeNickIsText(kdf, s, e, u, acc); }
      }
      StepKeepsInv(kdf, s, e);
      assert forall k :: 0 <= k < |events[1..]| ==> events[1..][k] == events[k + 1];
      NicksStayText(kdf, t, events[1..]);
    }
  }

  lemma {:induction false} ListedNicksAreText(s: Shared, n: nat)
    requires n <= |s.order| && Lists(s.sessions, s.order)
    requires forall i :: i in s.sessions ==> ValidName(s.sessions[i].name)
    requires forall u :: u in s.accounts ==> ValidUtf8(s.accounts[u].nick)
    ensures forall u :: u in Users(s, n) ==> ValidUtf8(u.nick)
    decreases |s.order| - n
  {
    if n < |s.order| {
      ListedNicksAreText(s, n + 1);
      NameIsText(s.sessions[s.order[n]].name);
    }
  }

  lemma WholeNicksAreText(kdf: Kdf, stored: map<bytes, Account>, table: map<bytes, Row>, events: seq<Event>)
    requires WholeNicks(events)
    ensures Inv(Boot(stored, table))
    ensures forall u :: u in Users(Run(kdf, Boot(stored, table), events).shared, 0) ==> ValidUtf8(u.nick)
  {
    var s := Boot(stored, table);
    EveryRunIsSafe(kdf, stored, table, events);
    forall u, acc | Held(s, u, acc) ensures ValidUtf8(acc.nick) {
      assert Stored(s, u, acc);
      LoadedIsTextual(u, stored[u]);
    }
    NicksStayText(kdf, s, events);
    var t := Run(kdf, s, events);
    forall u | u in t.shared.accounts ensures ValidUtf8(t.shared.accounts[u].nick) {
      assert Held(t, u, t.shared.accounts[u]);
    }
    ListedNicksAreText(t.shared, 0);
  }

  /** With the guard every list that fits a frame is read, in every state of every run. */
  lemma WholeNicksAreRead(kdf: Kdf, stored: map<bytes, Account>, table: map<bytes, Row>, events: seq<Event>, j: Id)
    requires OldNicks(Loaded(stored)) && WholeNicks(events)
    ensures Inv(Boot(stored, table))
    ensures var t := Run(kdf, Boot(stored, table), events);
      j in t.shared.sessions ==>
        (ListSeen(kdf, t, j) == Some(Users(t.shared, 0)) <==> Fits(Text(UsersText(Users(t.shared, 0)))))
  {
    UsersRoundTrip(kdf, stored, table, events, j);
    WholeNicksAreText(kdf, stored, table, events);
  }
}
