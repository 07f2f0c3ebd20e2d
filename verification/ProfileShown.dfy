/**
 A profile from the dialog that edits it to everybody else's list of users: the client prints
 the command, the server parses and stores it in all three places, and the list of users shows
 it, unless the nick has been cut inside a character.
 */
module ProfileShown {
  import opened Wrappers
  import opened Bytes
  import opened Utf8
  import opened Accounts
  import opened Directory
  import opened Profile
  import opened ProfileRoundTrip
  import opened ServerSpec
  import opened Interleaving
  import opened SessionSafety
  import opened AccountSources
  import opened StoredText
  import opened StoreAgreement
  import opened UserList
  import opened Scenarios

  /** The nick that is stored for what the user typed; nothing left means the name without '@'. */
  function StoredNick(name: bytes, typed: bytes): bytes
  {
    var nick := Sanitize(Normalized(typed), MAX_NICK);
    if nick == [] then StripAt(name) else nick
  }

  lemma {:induction false} WithoutDelimitersKeeps(s: bytes)
    ensures WithoutDelimiters(s) == s <==> ValidUtf8(s) && forall c :: c in s ==> !Delimiter(c)
    decreases |s|
  {
    WithoutDelimitersIsValid(s);
    if s != [] && ValidUtf8(s) && forall c :: c in s ==> !Delimiter(c) {
      var n := CharAt(s);
      assert s == s[..n] + s[n..];
      WithoutDelimitersKeeps(s[n..]);
    }
  }

  lemma NormalizedIsTrimmed(s: bytes)
    ensures Trim(Normalized(s)) == Normalized(s)
  {
    FieldsAreWords(s);
    JoinedWordsAreTrimmed(Fields(s));
  }

  lemma {:induction false} WordEndsBeforeChar(s: bytes)
    ensures WordLength(s) < |s| ==> SpaceAt(s[WordLength(s)..]) > 0
  {
    if s != [] && SpaceAt(s) == 0 {
      WordEndsBeforeChar(s[1..]);
      assert s[1..][WordLength(s[1..])..] == s[WordLength(s)..];
    } else {
      assert s[0..] == s;
    }
  }

  lemma {:induction false} FieldsAreText(s: bytes)
    requires ValidUtf8(s)
    ensures forall w :: w in Fields(s) ==> ValidUtf8(w)
    decreases |s|
  {
    if s != [] {
      if SpaceAt(s) > 0 {
        SpaceIsChar(s);
        FieldsAreText(s[SpaceAt(s)..]);
      } else {
        var n := WordLength(s);
        WordEndsBeforeChar(s);
        if n < |s| {
          SpaceIsChar(s[n..]);
          CharBytes(s[n..], 0);
        }
        CutIsValid(s, n);
        FieldsAreText(s[n..]);
      }
    }
  }

  lemma {:induction false} JoinedIsText(ws: seq<bytes>)
    requires forall w :: w in ws ==> ValidUtf8(w)
    ensures ValidUtf8(Join(ws, SPACE))
  {
    if |ws| > 1 {
      JoinedIsText(ws[1..]);
      ValidAroundAscii(ws[0], SPACE, Join(ws[1..], SPACE));
    }
  }

  /** Normalising white space leaves text. */
  lemma NormalizedIsText(s: bytes)
    requires ValidUtf8(s)
    ensures ValidUtf8(Normalized(s))
  {
    FieldsAreText(s);
    JoinedIsText(Fields(s));
  }

  /** What was typed (a string of the client, hence text) is stored as it reads, white space normalised,
      exactly when it fits and has no delimiter of the protocol. */
  lemma StoredAsTyped(typed: bytes, maxLen: nat)
    requires ValidUtf8(typed)
    ensures Sanitize(Normalized(typed), maxLen) == Normalized(typed)
      <==> |Normalized(typed)| <= maxLen && forall c :: c in Normalized(typed) ==> !Delimiter(c)
  {
    SanitizedIsClean(Normalized(typed), maxLen);
    NormalizedIsText(typed);
    WithoutDelimitersKeeps(Normalized(typed));
    NormalizedIsTrimmed(typed);
  }

  /** The account an edit leaves behind: the profile is the typed one, the credentials are untouched. */
  ghost predicate ProfileIs(acc: Account, was: Account, name: bytes, nick: bytes, bio: bytes, hidden: bool)
  {
    acc == was.(nick := StoredNick(name, nick), bio := Sanitize(Normalized(bio), MAX_BIO), hideStatus := hidden)
  }

  lemma EditedAsPrinted(name: bytes, was: Account, nick: bytes, bio: bytes, hidden: bool)
    requires Plain(nick) && Plain(bio)
    ensures ParsePairs(Print(nick, bio, hidden)) != map[]
    ensures ProfileIs(Edited(name, was, ParsePairs(Print(nick, bio, hidden))), was, name, nick, bio, hidden)
  {
    PlainIsReturned(nick, bio, hidden);
    assert ZERO[0] != ONE[0];
  }

  /** The command of the profile dialog changes the sender's account, as typed, and nothing else; its row
      agrees with it from then on. */
  lemma ProfileIsStored(kdf: Kdf, s: State, id: Id, nick: bytes, bio: bytes, hidden: bool)
    requires Inv(s) && Commands(s, id) && Plain(nick) && Plain(bio)
    ensures var t, name := Step(kdf, s, Event.SetProfile(id, Print(nick, bio, hidden))), s.shared.sessions[id].name;
      && name in s.shared.accounts && name in t.shared.accounts
      && ProfileIs(t.shared.accounts[name], s.shared.accounts[name], name, nick, bio, hidden)
      && t.shared.accounts == s.shared.accounts[name := t.shared.accounts[name]]
      && FileWritten(t.shared) && RowAgrees(t.shared, name)
      && t.shared.sessions == s.shared.sessions && t.shared.order == s.shared.order
  {
    PlainIsReturned(nick, bio, hidden);
    ProfileStepIs(kdf, s, id, Print(nick, bio, hidden));
    var name := s.shared.sessions[id].name;
    EditedAsPrinted(name, s.shared.accounts[name], nick, bio, hidden);
  }

  lemma {:induction false} ListedUser(s: Shared, n: nat, k: nat)
    requires n <= k < |s.order| && Lists(s.sessions, s.order) && s.sessions[s.order[k]].authed
    ensures Listing(s.accounts, s.sessions[s.order[k]].name) in Users(s, n)
    decreases |s.order| - n
  {
    if n < k { ListedUser(s, n + 1, k); }
  }

  lemma NickStaysPrintable(name: bytes, typed: bytes)
    requires ValidName(name)
    ensures PrintableNick(StoredNick(name, typed)) && StoredNick(name, typed) != []
  {
    NameNickIsPrintable(name);
    SanitizedIsClean(Normalized(typed), MAX_NICK);
    assert Delimiter(BAR) && Delimiter(SEMICOLON);
  }

  /** The stored nick is text exactly when what was typed is not cut inside a character. */
  lemma NickIsText(name: bytes, typed: bytes)
    requires ValidName(name)
    ensures ValidUtf8(StoredNick(name, typed)) <==> CutsWhole(Normalized(typed), MAX_NICK)
  {
    NameIsText(name);
    SanitizedIsText(Normalized(typed), MAX_NICK);
  }

  /** The stored files agree after the dialog's command exactly when neither field is cut so. */
  lemma ProfileFileAgrees(kdf: Kdf, s: State, id: Id, nick: bytes, bio: bytes, hidden: bool)
    requires Inv(s) && AllTextual(s) && AllTextProfiles(s) && Commands(s, id) && Plain(nick) && Plain(bio)
    ensures var t := Step(kdf, s, Event.SetProfile(id, Print(nick, bio, hidden))).shared;
      t.file == t.accounts <==> CutsWhole(Normalized(nick), MAX_NICK) && CutsWhole(Normalized(bio), MAX_BIO)
  {
    PlainIsReturned(nick, bio, hidden);
    ProfileStepAgrees(kdf, s, id, Print(nick, bio, hidden));
  }

  /** After the step: the lists the other clients' nicks were fit for. */
  lemma ProfileListable(kdf: Kdf, s: State, id: Id, nick: bytes, bio: bytes, hidden: bool)
    requires Inv(s) && OldNicks(s.shared.accounts) && Commands(s, id) && Plain(nick) && Plain(bio)
    ensures var name := s.shared.sessions[id].name;
      var t := Step(kdf, s, Event.SetProfile(id, Print(nick, bio, hidden))).shared;
      && Lists(t.sessions, t.order)
      && ValidName(name)
      && User(name, StoredNick(name, nick), !hidden) in Users(t, 0)
      && (forall u :: u in Users(t, 0) ==> Listable(u) && ValidUtf8(u.name))
      && (forall u :: u in Users(t, 0) && u.name == name ==> u.nick == StoredNick(name, nick))
  {
    var name := s.shared.sessions[id].name;
    ProfileIsStored(kdf, s, id, nick, bio, hidden);
    StepKeepsInv(kdf, s, Event.SetProfile(id, Print(nick, bio, hidden)));
    assert SessionOk(s.shared, s.shared.sessions[id], Idle);
    NickStaysPrintable(name, nick);
    ListedAs(Step(kdf, s, Event.SetProfile(id, Print(nick, bio, hidden))), id);
  }

  /** An authenticated client is in the list as its account says. */
  lemma ListedAs(s: State, id: Id)
    requires Inv(s) && OldNicks(s.shared.accounts) && At(s, id) && s.shared.sessions[id].authed
    ensures var t, name := s.shared, s.shared.sessions[id].name;
      && Lists(t.sessions, t.order)
      && Listing(t.accounts, name) in Users(t, 0)
      && (forall u :: u in Users(t, 0) ==> Listable(u) && ValidUtf8(u.name))
      && (forall u :: u in Users(t, 0) ==> u == Listing(t.accounts, u.name))
  {
    var t := s.shared;
    forall i | i in t.sessions ensures ValidName(t.sessions[i].name) {
      assert SessionOk(t, t.sessions[i], s.pcs[i]);
    }
    UsersAreListable(t, 0);
    UsersAreNamed(t, 0);
    UsersAreListings(t, 0);
    var k :| 0 <= k < |t.order| && t.order[k] == id;
    ListedUser(t, 0, k);
  }

  lemma {:induction false} UsersAreListings(s: Shared, n: nat)
    requires n <= |s.order| && Lists(s.sessions, s.order)
    ensures forall u :: u in Users(s, n) ==> u == Listing(s.accounts, u.name)
    decreases |s.order| - n
  {
    if n < |s.order| { UsersAreListings(s, n + 1); }
  }

  /** Afterwards the sender is in the list under the nick that was typed and with the flag that was set.
      Every client that asks reads the list if and only if it fits a frame, that nick was not cut inside
      a character and nobody else's has been; if it was cut, no client can read the list at all. */
  lemma ProfileIsShown(kdf: Kdf, s: State, id: Id, nick: bytes, bio: bytes, hidden: bool, j: Id)
    requires Inv(s) && OldNicks(s.shared.accounts) && Commands(s, id) && Plain(nick) && Plain(bio)
    requires j in s.shared.sessions
    ensures var name := s.shared.sessions[id].name;
      var t := Step(kdf, s, Event.SetProfile(id, Print(nick, bio, hidden)));
      && Inv(t) && j in t.shared.sessions
      && var users := Users(t.shared, 0);
         && User(name, StoredNick(name, nick), !hidden) in users
         && (ListSeen(kdf, t, j) == Some(users) <==>
               && Fits(Text(UsersText(users)))
               && CutsWhole(Normalized(nick), MAX_NICK)
               && forall u :: u in users && u.name != name ==> ValidUtf8(u.nick))
         && (!CutsWhole(Normalized(nick), MAX_NICK) ==> ListSeen(kdf, t, j) == None)
  {
    var e := Event.SetProfile(id, Print(nick, bio, hidden));
    var t, name := Step(kdf, s, e), s.shared.sessions[id].name;
    StepKeepsInv(kdf, s, e);
    ProfileListable(kdf, s, id, nick, bio, hidden);
    ProfileIsStored(kdf, s, id, nick, bio, hidden);
    AskedListIsRead(kdf, t, j);
    NickIsText(name, nick);
  }

  // ---------------------------------------------------------------- the nick that hides the list

  /** `n` times the letter U+0431, two bytes each. */
  function Letters(n: nat): (s: bytes)
    ensures |s| == 2 * n
    ensures forall i :: 0 <= i < |s| ==> s[i] == if i % 2 == 0 then 0xD0 else 0xB1
  {
    if n == 0 then [] else [0xD0, 0xB1] + Letters(n - 1)
  }

  /** 33 bytes of text: a Latin letter and sixteen Cyrillic ones. */
  const LONG_NICK: bytes := [0x61] + Letters(16)

  /** Neither white space nor the start of it, nor anything the protocol or the command gives a meaning. */
  predicate WordByte(c: byte)
  {
    c >= 0x21 && c != 0xC2 && !(0xE1 <= c <= 0xE3) && c != EQUALS && !Delimiter(c)
  }

  ghost predicate PlainWord(s: bytes)
  {
    s != [] && ValidUtf8(s) && forall i :: 0 <= i < |s| ==> WordByte(s[i])
  }

  lemma {:induction false} NoSpaceIsOneWord(s: bytes)
    requires forall i :: 0 <= i < |s| ==> WordByte(s[i])
    ensures WordLength(s) == |s|
  {
    if s != [] { NoSpaceIsOneWord(s[1..]); }
  }

  /** Such a word is printed, normalised and cleaned as it is. */
  lemma WordIsKept(s: bytes)
    requires PlainWord(s)
    ensures Plain(s) && Normalized(s) == s && Cleaned(s) == s
  {
    NoSpaceIsOneWord(s);
    assert s[..|s|] == s && s[|s|..] == [];
    assert Fields(s) == [s] + Fields([]);
    assert Normalized(s) == s;
    NormalizedIsTrimmed(s);
    WithoutDelimitersKeeps(s);
    assert EQUALS !in s;
  }

  lemma {:induction false} ManyLettersAreText(n: nat)
    ensures ValidUtf8(Letters(n)) && forall i :: 0 <= i < |Letters(n)| ==> WordByte(Letters(n)[i])
  {
    if n > 0 {
      ManyLettersAreText(n - 1);
      assert Letters(n)[2..] == Letters(n - 1);
    }
  }

  lemma LetterBefore(s: bytes)
    requires ValidUtf8(s) && forall i :: 0 <= i < |s| ==> WordByte(s[i])
    ensures PlainWord([0x61] + s)
  {
    AsciiIsValid([0x61]);
    ValidConcat([0x61], s);
    forall i | 0 <= i < |[0x61] + s| ensures WordByte(([0x61] + s)[i]) {
      if i > 0 { assert ([0x61] + s)[i] == s[i - 1]; }
    }
  }

  lemma LongNickIsText()
    ensures PlainWord(LONG_NICK) && |LONG_NICK| == 33 && LONG_NICK[31] == 0xD0 && LONG_NICK[32] == 0xB1
  {
    ManyLettersAreText(16);
    LetterBefore(Letters(16));
  }

  /** The nick is text and has no word that could open a pair; its cut leaves half a character. */
  lemma LongNickIsCut()
    ensures ValidUtf8(LONG_NICK) && Plain(LONG_NICK)
    ensures !CutsWhole(Normalized(LONG_NICK), MAX_NICK)
    ensures Sanitize(Normalized(LONG_NICK), MAX_NICK) == LONG_NICK[..MAX_NICK] && LONG_NICK[MAX_NICK - 1] == 0xD0
  {
    LongNickIsText();
    WordIsKept(LONG_NICK);
  }

  lemma EmptyIsPlain()
    ensures Plain([])
  {
    assert SeparateWords([]) == [];
  }

  lemma JoinEditsNothing(id: Id, name: bytes, payload: bytes, pwd: bytes, salt: bytes)
    ensures WholeEdits(JoinOf(id, name, payload, pwd, salt))
  {
  }

  const EMPTY := Boot(map[], map[])

  lemma EmptyIsSafe()
    ensures Inv(EMPTY) && AllTextual(EMPTY) && AllTextProfiles(EMPTY)
    ensures EMPTY.shared.accounts == map[] && EMPTY.shared.sessions == map[]
  {
    StartIsSafe(map[], map[]);
    BootIsTextual(map[], map[]);
  }

  lemma FirstIsActive(kdf: Kdf, id: Id, name: bytes, payload: bytes, pwd: bytes, salt: bytes)
    requires ValidName(name) && |Split(payload, NUL)| >= 2 && Inv(EMPTY)
    ensures var m := Run(kdf, EMPTY, JoinOf(id, name, payload, pwd, salt));
      && Inv(m) && m.shared.accounts == map[name := NewAccount(kdf, name, pwd, salt)]
      && Commands(m, id) && m.shared.sessions[id].name == name
  {
    EmptyIsSafe();
    Joins(kdf, EMPTY, id, name, payload, pwd, salt);
  }

  /** The first client to join a new server. */
  lemma FirstJoins(kdf: Kdf, id: Id, name: bytes, payload: bytes, pwd: bytes, salt: bytes)
    requires ValidName(name) && |Split(payload, NUL)| >= 2
    ensures Inv(EMPTY)
    ensures var m := Run(kdf, EMPTY, JoinOf(id, name, payload, pwd, salt));
      && Inv(m) && AllTextual(m) && AllTextProfiles(m) && OldNicks(m.shared.accounts)
      && Commands(m, id) && m.shared.sessions[id].name == name
  {
    var events := JoinOf(id, name, payload, pwd, salt);
    EmptyIsSafe();
    TextualInRuns(kdf, EMPTY, events);
    JoinEditsNothing(id, name, payload, pwd, salt);
    ProfilesStayText(kdf, EMPTY, events);
    FirstIsActive(kdf, id, name, payload, pwd, salt);
    NameNickIsPrintable(name);
  }

  /** What such a run leaves behind. */
  ghost predicate Hidden(kdf: Kdf, t: State)
    requires Ordered(t.shared)
  {
    && t.shared.sessions != map[]
    && (forall j :: j in t.shared.sessions ==> ListSeen(kdf, t, j) == None)
    && t.shared.file != t.shared.accounts
  }

  /** Runs from the start of the server: somebody joins and sets a nick that is cut inside a character.
      Then no client can read the list of users, and accounts.json does not give back the accounts; after
      a restart the account in the map differs from its row in the table. */
  lemma CutNickHidesList(kdf: Kdf, id: Id, name: bytes, payload: bytes, pwd: bytes, salt: bytes, nick: bytes)
    requires ValidName(name) && |Split(payload, NUL)| >= 2
    requires Plain(nick) && !CutsWhole(Normalized(nick), MAX_NICK)
    ensures Inv(EMPTY)
    ensures var events := JoinOf(id, name, payload, pwd, salt) + [Event.SetProfile(id, Print(nick, [], false))];
      && Hidden(kdf, Run(kdf, EMPTY, events))
      && !RowAgrees(Run(kdf, EMPTY, events + [Restart]).shared, name)
  {
    var events, e := JoinOf(id, name, payload, pwd, salt), Event.SetProfile(id, Print(nick, [], false));
    FirstJoins(kdf, id, name, payload, pwd, salt);
    RunThen(kdf, EMPTY, events, e);
    RunThen(kdf, EMPTY, events + [e], Restart);
    EmptyIsPlain();
    var m := Run(kdf, EMPTY, events);
    CutNickIsHidden(kdf, m, id, nick);
    CutNickParts(kdf, m, id, nick);
  }

  lemma CutNickIsHidden(kdf: Kdf, m: State, id: Id, nick: bytes)
    requires Inv(m) && AllTextual(m) && AllTextProfiles(m) && OldNicks(m.shared.accounts) && Commands(m, id)
    requires Plain(nick) && !CutsWhole(Normalized(nick), MAX_NICK)
    ensures Hidden(kdf, Step(kdf, m, Event.SetProfile(id, Print(nick, [], false))))
  {
    EmptyIsPlain();
    ProfileIsStored(kdf, m, id, nick, [], false);
    ProfileFileAgrees(kdf, m, id, nick, [], false);
    forall j | j in m.shared.sessions
      ensures ListSeen(kdf, Step(kdf, m, Event.SetProfile(id, Print(nick, [], false))), j) == None
    {
      ProfileIsShown(kdf, m, id, nick, [], false, j);
    }
  }

  lemma CutNickParts(kdf: Kdf, m: State, id: Id, nick: bytes)
    requires Inv(m) && AllTextual(m) && Commands(m, id) && Plain(nick) && !CutsWhole(Normalized(nick), MAX_NICK)
    ensures var t := Step(kdf, m, Event.SetProfile(id, Print(nick, [], false)));
      Inv(t) && !RowAgrees(Step(kdf, t, Restart).shared, m.shared.sessions[id].name)
  {
    var e, name := Event.SetProfile(id, Print(nick, [], false)), m.shared.sessions[id].name;
    var t := Step(kdf, m, e);
    EmptyIsPlain();
    StepKeepsInv(kdf, m, e);
    StepKeepsTextual(kdf, m, e);
    ProfileIsStored(kdf, m, id, nick, [], false);
    assert SessionOk(m.shared, m.shared.sessions[id], Idle);
    NickIsText(name, nick);
    assert Held(t, name, t.shared.accounts[name]);
    LoadedIsSame(name, t.shared.accounts[name]);
    RestartIsBoot(kdf, t);
  }

  /** ... and this is such a nick. */
  lemma LongNickHidesList(kdf: Kdf, id: Id, name: bytes, payload: bytes, pwd: bytes, salt: bytes)
    requires ValidName(name) && |Split(payload, NUL)| >= 2
    ensures Inv(EMPTY)
    ensures var events := JoinOf(id, name, payload, pwd, salt) + [Event.SetProfile(id, Print(LONG_NICK, [], false))];
      && Hidden(kdf, Run(kdf, EMPTY, events))
      && !RowAgrees(Run(kdf, EMPTY, events + [Restart]).shared, name)
  {
    LongNickIsCut();
    CutNickHidesList(kdf, id, name, payload, pwd, salt, LONG_NICK);
  }
}
