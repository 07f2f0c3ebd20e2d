/**
 How long a nick can get, and that the list of users therefore fits a frame. Nicks are cut at 32
 bytes; a restart turns each byte of a character that was cut off into a replacement character
 of three, so 38 bytes is the exact bound over runs with restarts.
 */
module NickSize {
  import opened Wrappers
  import opened Bytes
  import opened Utf8
  import opened Accounts
  import opened Directory
  import opened Profile
  import opened ProfileRoundTrip
  import opened ServerSpec
  import opened Interleaving
  import opened SessionSafety
  import opened AccountSources
  import opened StoredText
  import opened UserList
  import opened Scenarios
  import opened ProfileShown
  import DirectorySize

  const LONGEST := 38

  // ---------------------------------------------------------------- cutting and replacing

  /** The start of some text. */
  ghost predicate CutText(s: bytes)
  {
    exists t :: ValidUtf8(t) && s <= t
  }

  lemma {:induction false} CoercedTail(s: bytes)
    requires |s| <= 3 && forall i, j :: 0 <= i < j <= |s| ==> CharAt(s[i..j]) == 0
    ensures |Coerce(s)| <= 3 * |s|
    decreases |s|
  {
    if s != [] {
      assert s[0..|s|] == s;
      forall i, j | 0 <= i < j <= |s[1..]| ensures CharAt(s[1..][i..j]) == 0 {
        assert s[1..][i..j] == s[i + 1..j + 1];
      }
      CoercedTail(s[1..]);
    }
  }

  /** Every part of a character that is cut off is no character. */
  lemma PartsAreNoChars(t: bytes, k: nat)
    requires 0 < k < CharAt(t)
    ensures k <= 3 && forall i, j :: 0 <= i < j <= k ==> CharAt(t[..k][i..j]) == 0
  {
    forall i, j | 0 <= i < j <= k ensures CharAt(t[..k][i..j]) == 0 {
      assert t[..k][i..j] == t[i..j];
      CharBytes(t, i);
      if i == 0 { NoShorterChar(t, j); assert t[0..j] == t[..j]; } else { assert t[i..j][0] == t[i]; }
    }
  }

  /** Replacing what is not text in the start of some text adds at most six bytes. */
  lemma {:induction false} CoercedCut(t: bytes, k: nat)
    requires ValidUtf8(t) && k <= |t|
    ensures |Coerce(t[..k])| <= k + 6
    decreases |t|
  {
    var n, s := CharAt(t), t[..k];
    if 0 < k < n {
      PartsAreNoChars(t, k);
      CoercedTail(s);
    } else if k > 0 {
      CharOfPrefix(t, k);
      assert s[n..] == t[n..][..k - n];
      CoercedCut(t[n..], k - n);
    }
  }

  lemma {:induction false} CoercedTextIsSame(s: bytes)
    requires ValidUtf8(s)
    ensures Coerce(s) == s
  {
    CoerceFixesValid(s);
  }

  // ---------------------------------------------------------------- the bound

  /** Cut by the server, or loaded by a start. */
  ghost predicate SizedNick(nick: bytes)
  {
    (|nick| <= MAX_NICK && CutText(nick)) || (|nick| <= LONGEST && ValidUtf8(nick))
  }

  ghost predicate SizedNicks(s: State)
  {
    forall u, acc :: Held(s, u, acc) ==> SizedNick(acc.nick)
  }

  lemma LoadedIsSized(nick: bytes)
    requires SizedNick(nick)
    ensures SizedNick(Coerce(nick))
  {
    CoerceIsValid(nick);
    if ValidUtf8(nick) {
      CoercedTextIsSame(nick);
    } else {
      var t :| ValidUtf8(t) && nick <= t;
      CoercedCut(t, |nick|);
      assert t[..|nick|] == nick;
    }
  }

  lemma NameNickIsSized(u: bytes)
    requires ValidName(u)
    ensures SizedNick(StripAt(u))
  {
    NameIsText(u);
  }

  lemma StoredNickIsSized(typed: bytes)
    ensures SizedNick(Sanitize(typed, MAX_NICK))
  {
    WithoutDelimitersIsValid(typed);
    TrimIsValid(WithoutDelimiters(typed));
    assert ValidUtf8(Cleaned(typed)) && Sanitize(typed, MAX_NICK) <= Cleaned(typed);
  }

  lemma EditedNickIsSized(u: bytes, acc: Account, pairs: map<bytes, bytes>)
    requires ValidName(u) && SizedNick(acc.nick)
    ensures SizedNick(Edited(u, acc, pairs).nick)
  {
    NameNickIsSized(u);
    if NICK in pairs { StoredNickIsSized(pairs[NICK]); }
  }

  lemma MadeNickIsSized(kdf: Kdf, s: State, e: Event, u: bytes, acc: Account)
    requires Inv(s) && AllTextual(s) && SizedNicks(s) && MadeBy(kdf, s, e, u, acc)
    ensures SizedNick(acc.nick)
  {
    if e.Restart? {
      var was := s.shared.accounts[u];
      assert Held(s, u, was);
      LoadedNick(u, was);
      LoadedIsSized(was.nick);
      return;
    }
    ActorIsNamed(s, e.id);
    var name := s.shared.sessions[e.id].name;
    if e.Register? { NameNickIsSized(name); }
    if e.CheckLogin? { assert Pending(s, e.id, u, s.pcs[e.id].read.value) && Held(s, u, s.pcs[e.id].read.value); }
    if !e.Register? && !e.CheckLogin? { assert Held(s, name, s.shared.accounts[name]); }
    if e.SetProfile? { EditedNickIsSized(u, s.shared.accounts[u], ParsePairs(e.rest)); }
  }

  lemma {:induction false} SizedInRuns(kdf: Kdf, s: State, events: seq<Event>)
    requires Inv(s) && AllTextual(s) && SizedNicks(s)
    ensures SizedNicks(Run(kdf, s, events))
    decreases |events|
  {
    if events != [] {
      var e, t := events[0], Step(kdf, s, events[0]);
      StepKeepsInv(kdf, s, e);
      StepKeepsTextual(kdf, s, e);
      forall u, acc | Held(t, u, acc) ensures SizedNick(acc.nick) {
        StepSources(kdf, s, e, u, acc);
        if !Held(s, u, acc) { MadeNickIsSized(kdf, s, e, u, acc); }
      }
      SizedInRuns(kdf, t, events[1..]);
    }
  }

  ghost predicate ShortNicks(accounts: map<bytes, Account>)
  {
    forall u :: u in accounts ==> |accounts[u].nick| <= LONGEST
  }

  /** Started with nicks of at most 38 bytes, no nick ever gets longer, and one of more than 32 is text. */
  lemma NickBound(kdf: Kdf, stored: map<bytes, Account>, table: map<bytes, Row>, events: seq<Event>)
    requires ShortNicks(Loaded(stored))
    ensures Inv(Boot(stored, table))
    ensures var t := Run(kdf, Boot(stored, table), events).shared;
      forall u :: u in t.accounts ==>
        |t.accounts[u].nick| <= LONGEST && (|t.accounts[u].nick| > MAX_NICK ==> ValidUtf8(t.accounts[u].nick))
  {
    var s := Boot(stored, table);
    StartIsSafe(stored, table);
    BootIsTextual(stored, table);
    forall u, acc | Held(s, u, acc) ensures SizedNick(acc.nick) {
      assert Stored(s, u, acc);
      LoadedIsTextual(u, stored[u]);
    }
    SizedInRuns(kdf, s, events);
    var t := Run(kdf, s, events);
    forall u | u in t.shared.accounts ensures SizedNick(t.shared.accounts[u].nick) {
      assert Held(t, u, t.shared.accounts[u]);
    }
  }

  // ---------------------------------------------------------------- the list fits a frame

  lemma {:induction false} UsersSize(users: seq<User>)
    requires forall u :: u in users ==> |u.name| <= 20 && |u.nick| <= LONGEST
    ensures |Join(PrintUsers(users), SEMICOLON)| <= 62 * |users|
  {
    if users != [] {
      assert users[0] in users;
      if |users| > 1 {
        UsersSize(users[1..]);
        assert PrintUsers(users)[1..] == PrintUsers(users[1..]);
      }
    }
  }

  lemma {:induction false} UsersAreShort(s: Shared, n: nat)
    requires n <= |s.order| && Lists(s.sessions, s.order) && ShortNicks(s.accounts)
    requires forall i :: i in s.sessions ==> ValidName(s.sessions[i].name)
    ensures |Users(s, n)| <= |s.order| - n
    ensures forall u :: u in Users(s, n) ==> |u.name| <= 20 && |u.nick| <= LONGEST
    decreases |s.order| - n
  {
    if n < |s.order| { UsersAreShort(s, n + 1); }
  }

  lemma CrowdListFits(s: State)
    requires Inv(s) && ShortNicks(s.shared.accounts) && |s.shared.order| <= DirectorySize.CROWD
    ensures Fits(Text(UsersText(Users(s.shared, 0))))
  {
    forall i | i in s.shared.sessions ensures ValidName(s.shared.sessions[i].name) {
      assert SessionOk(s.shared, s.shared.sessions[i], s.pcs[i]);
    }
    UsersAreShort(s.shared, 0);
    UsersSize(Users(s.shared, 0));
    DirectorySize.SealFits(UsersText(Users(s.shared, 0)));
  }

  /** With at most 11914 connections nothing but the nicks decides: in every state of every run, whoever asks
      for the list of users reads it if and only if every nick in it is text. */
  lemma CrowdListIsRead(kdf: Kdf, stored: map<bytes, Account>, table: map<bytes, Row>, events: seq<Event>, j: Id)
    requires OldNicks(Loaded(stored)) && ShortNicks(Loaded(stored))
    ensures Inv(Boot(stored, table))
    ensures var t := Run(kdf, Boot(stored, table), events);
      var users := Users(t.shared, 0);
      j in t.shared.sessions && |t.shared.order| <= DirectorySize.CROWD ==>
        && (ListSeen(kdf, t, j) == Some(users) <==> forall u :: u in users ==> ValidUtf8(u.nick))
        && (ListSeen(kdf, t, j) == None <==> exists u :: u in users && !ValidUtf8(u.nick))
  {
    UsersRoundTrip(kdf, stored, table, events, j);
    NickBound(kdf, stored, table, events);
    RunKeepsInv(kdf, Boot(stored, table), events);
    var t := Run(kdf, Boot(stored, table), events);
    if |t.shared.order| <= DirectorySize.CROWD { CrowdListFits(t); }
  }

  /** With at most 11914 connections and no nick cut inside a character every list is read. */
  lemma WholeListIsRead(kdf: Kdf, stored: map<bytes, Account>, table: map<bytes, Row>, events: seq<Event>, j: Id)
    requires OldNicks(Loaded(stored)) && ShortNicks(Loaded(stored)) && WholeNicks(events)
    ensures Inv(Boot(stored, table))
    ensures var t := Run(kdf, Boot(stored, table), events);
      j in t.shared.sessions && |t.shared.order| <= DirectorySize.CROWD ==>
        ListSeen(kdf, t, j) == Some(Users(t.shared, 0))
  {
    CrowdListIsRead(kdf, stored, table, events, j);
    WholeNicksAreText(kdf, stored, table, events);
  }

  // ---------------------------------------------------------------- the longest nick

  /** `n` times the letter 'a'. */
  function Plains(n: nat): (s: bytes)
    ensures |s| == n && forall i :: 0 <= i < n ==> s[i] == 0x61
  {
    if n == 0 then [] else [0x61] + Plains(n - 1)
  }

  /** U+1F600, a character of four bytes. */
  const FACE: bytes := [0xF0, 0x9F, 0x98, 0x80]

  /** 33 bytes of text; the cut leaves three bytes of the last character. */
  const FACE_NICK: bytes := Plains(29) + FACE

  lemma FaceIsText()
    ensures ValidUtf8(FACE) && forall i :: 0 <= i < 4 ==> WordByte(FACE[i])
  {
    assert FACE[4..] == [];
  }

  lemma WordAfterPlains(n: nat, s: bytes)
    requires ValidUtf8(s) && s != [] && forall i :: 0 <= i < |s| ==> WordByte(s[i])
    ensures PlainWord(Plains(n) + s)
  {
    PlainsAreText(n);
    ValidConcat(Plains(n), s);
    WordBytesConcat(Plains(n), s);
  }

  lemma PlainsAreText(n: nat)
    ensures ValidUtf8(Plains(n)) && forall i :: 0 <= i < n ==> WordByte(Plains(n)[i])
  {
    AsciiIsValid(Plains(n));
  }

  lemma WordBytesConcat(a: bytes, b: bytes)
    requires forall i :: 0 <= i < |a| ==> WordByte(a[i])
    requires forall i :: 0 <= i < |b| ==> WordByte(b[i])
    ensures forall i :: 0 <= i < |a + b| ==> WordByte((a + b)[i])
  {
    forall i | 0 <= i < |a + b| ensures WordByte((a + b)[i]) {
      assert (a + b)[i] == if i < |a| then a[i] else b[i - |a|];
    }
  }

  lemma FaceNickIsWord()
    ensures PlainWord(FACE_NICK) && |FACE_NICK| == 33
  {
    FaceIsText();
    WordAfterPlains(29, FACE);
  }

  lemma {:induction false} CoerceConcat(a: bytes, b: bytes)
    requires ValidUtf8(a)
    ensures Coerce(a + b) == a + Coerce(b)
    decreases |a|
  {
    if a == [] {
      assert a + b == b;
    } else {
      CoerceFirst(a, b);
      CoerceConcat(a[CharAt(a)..], b);
      HeadAndRest(a, CharAt(a), Coerce(b));
    }
  }

  lemma HeadAndRest(a: bytes, n: nat, b: bytes)
    requires n <= |a|
    ensures a[..n] + (a[n..] + b) == a + b
  {
  }

  lemma CoerceFirst(a: bytes, b: bytes)
    requires CharAt(a) > 0
    ensures Coerce(a + b) == a[..CharAt(a)] + Coerce(a[CharAt(a)..] + b)
  {
    var n := CharAt(a);
    CharStays(a, b);
    assert (a + b)[..n] == a[..n] && (a + b)[n..] == a[n..] + b;
  }

  lemma CutFace()
    ensures |Coerce(FACE[..3])| == 9
  {
    var s := FACE[..3];
    assert s == [0xF0, 0x9F, 0x98];
    assert s[1..] == [0x9F, 0x98] && s[1..][1..] == [0x98] && s[1..][1..][1..] == [];
    assert Coerce(s) == REPLACEMENT + Coerce(s[1..]);
    assert Coerce(s[1..]) == REPLACEMENT + Coerce(s[1..][1..]);
    assert Coerce(s[1..][1..]) == REPLACEMENT + Coerce([]);
  }

  /** The nick that is stored has 32 bytes, the one that is loaded has 38. */
  lemma FaceNickGrows(name: bytes)
    requires ValidName(name)
    ensures Plain(FACE_NICK) && StoredNick(name, FACE_NICK) == FACE_NICK[..32]
    ensures |Coerce(FACE_NICK[..32])| == LONGEST
  {
    FaceNickIsWord();
    WordIsKept(FACE_NICK);
    assert FACE_NICK[..32] == Plains(29) + FACE[..3];
    AsciiIsValid(Plains(29));
    CoerceConcat(Plains(29), FACE[..3]);
    CutFace();
  }

  /** The bound is attained: a run from the start of a new server, with one restart. */
  lemma LongestNick(kdf: Kdf, id: Id, name: bytes, payload: bytes, pwd: bytes, salt: bytes)
    requires ValidName(name) && |Split(payload, NUL)| >= 2
    ensures Inv(EMPTY)
    ensures var events := JoinOf(id, name, payload, pwd, salt) + [Event.SetProfile(id, Print(FACE_NICK, [], false))];
      var t := Run(kdf, EMPTY, events + [Restart]).shared;
      name in t.accounts && |t.accounts[name].nick| == LONGEST
  {
    var first, e := JoinOf(id, name, payload, pwd, salt), Event.SetProfile(id, Print(FACE_NICK, [], false));
    FirstJoins(kdf, id, name, payload, pwd, salt);
    RunThen(kdf, EMPTY, first, e);
    RunThen(kdf, EMPTY, first + [e], Restart);
    FaceNickGrows(name);
    EmptyIsPlain();
    var m := Run(kdf, EMPTY, first);
    ProfileIsStored(kdf, m, id, FACE_NICK, [], false);
    RestartIsBoot(kdf, Step(kdf, m, e));
  }
}
