/**
 What accounts.json gives back. JSON carries text only, so the file loads to the accounts it was
 written from exactly when every nick and bio is text; a profile that is cut inside a character
 is the one way this fails.
 */
module StoredText {
  import opened Bytes
  import opened Utf8
  import opened Base64
  import opened Accounts
  import opened Directory
  import opened Profile
  import opened ServerSpec
  import opened Interleaving
  import opened SessionSafety
  import opened AccountSources

  /** Credentials and algorithms are text, and no nick is missing. */
  ghost predicate AllTextual(s: State)
  {
    forall u, acc :: Held(s, u, acc) ==> Textual(u, acc)
  }

  lemma RawIsText(data: bytes)
    ensures ValidUtf8(EncodeRaw(data))
  {
    var raw := EncodeRaw(data);
    RawShape(data);
    forall i | 0 <= i < |raw| ensures raw[i] < 0x80 {
      assert raw[i] in raw;
    }
    AsciiIsValid(raw);
  }

  lemma NameIsText(u: bytes)
    requires ValidName(u)
    ensures ValidUtf8(u) && ValidUtf8(StripAt(u)) && StripAt(u) != [] && Coerce(StripAt(u)) == StripAt(u)
  {
    AsciiIsValid(u);
    AsciiIsValid(StripAt(u));
    CoerceFixesValid(StripAt(u));
  }

  lemma CredentialsAreText(kdf: Kdf, pwd: bytes, salt: bytes)
    ensures var acc := NewArgon2Account(kdf, pwd, salt);
      ValidUtf8(acc.salt) && ValidUtf8(acc.hash) && ValidUtf8(acc.alg)
  {
    RawIsText(salt);
    RawIsText(kdf.argon2id(pwd, salt, ARGON_TIME, ARGON_MEMORY, ARGON_THREADS));
    AlgorithmIsText();
  }

  lemma AlgorithmIsAscii(s: bytes)
    requires s == ARGON2ID
    ensures forall i :: 0 <= i < |s| ==> s[i] < 0x80
  {
  }

  lemma AlgorithmIsText()
    ensures ValidUtf8(ARGON2ID)
  {
    var s: bytes :| s == ARGON2ID;
    AlgorithmIsAscii(s);
    AsciiIsValid(s);
  }

  /** New credentials are text, whatever the password. */
  lemma RekeyIsTextual(kdf: Kdf, u: bytes, acc: Account, pwd: bytes, salt: bytes)
    requires acc.nick == [] ==> Coerce(StripAt(u)) == []
    ensures Textual(u, Rekey(kdf, acc, pwd, salt))
  {
    CredentialsAreText(kdf, pwd, salt);
  }

  lemma NewIsTextual(kdf: Kdf, u: bytes, pwd: bytes, salt: bytes)
    requires ValidName(u)
    ensures Textual(u, NewAccount(kdf, u, pwd, salt)) && TextProfile(NewAccount(kdf, u, pwd, salt))
  {
    NameIsText(u);
    var acc := NewAccount(kdf, u, pwd, salt);
    RekeyIsTextual(kdf, u, acc, pwd, salt);
  }

  /** The name of the client that takes a step is valid. */
  lemma ActorIsNamed(s: State, id: Id)
    requires Inv(s) && At(s, id)
    ensures ValidName(s.shared.sessions[id].name)
  {
    assert SessionOk(s.shared, s.shared.sessions[id], s.pcs[id]);
  }

  lemma LoginIsTextual(kdf: Kdf, s: State, e: Event, u: bytes, acc: Account)
    requires Inv(s) && AllTextual(s) && MadeBy(kdf, s, e, u, acc) && (e.Register? || e.CheckLogin?)
    ensures Textual(u, acc)
  {
    ActorIsNamed(s, e.id);
    match e
    case Register(_, p1, _, salt) =>
      NameIsText(u);
      NewIsTextual(kdf, u, p1, salt);
    case CheckLogin(id, salt) =>
      var read := s.pcs[id].read.value;
      assert Pending(s, id, u, read) && Held(s, u, read);
      RekeyIsTextual(kdf, u, read, s.pcs[id].pwd, salt);
  }

  lemma EditIsTextual(u: bytes, acc: Account, pairs: map<bytes, bytes>)
    requires ValidName(u) && Textual(u, acc)
    ensures Textual(u, Edited(u, acc, pairs))
  {
    NameIsText(u);
  }

  lemma CommandIsTextual(kdf: Kdf, s: State, e: Event, u: bytes, acc: Account)
    requires Inv(s) && AllTextual(s) && MadeBy(kdf, s, e, u, acc) && (e.SetProfile? || e.SetPassword? || e.Rename?)
    ensures Textual(u, acc)
  {
    ActorIsNamed(s, e.id);
    var name := s.shared.sessions[e.id].name;
    var was := s.shared.accounts[name];
    NameIsText(name);
    assert Held(s, name, was);
    if e.SetProfile? { EditIsTextual(name, was, ParsePairs(e.rest)); }
    if e.SetPassword? { RekeyIsTextual(kdf, u, was, e.newPwd, e.salt); }
    if e.Rename? { NameIsText(e.nu); }
  }

  lemma MadeIsTextual(kdf: Kdf, s: State, e: Event, u: bytes, acc: Account)
    requires Inv(s) && AllTextual(s) && MadeBy(kdf, s, e, u, acc)
    ensures Textual(u, acc)
  {
    if e.Restart? {
      assert Held(s, u, s.shared.accounts[u]);
      LoadedIsTextual(u, s.shared.accounts[u]);
    } else if e.Register? || e.CheckLogin? {
      LoginIsTextual(kdf, s, e, u, acc);
    } else {
      CommandIsTextual(kdf, s, e, u, acc);
    }
  }

  lemma StepKeepsTextual(kdf: Kdf, s: State, e: Event)
    requires Inv(s) && AllTextual(s)
    ensures AllTextual(Step(kdf, s, e))
  {
    forall u, acc | Held(Step(kdf, s, e), u, acc) ensures Textual(u, acc) {
      StepSources(kdf, s, e, u, acc);
      if !Held(s, u, acc) { MadeIsTextual(kdf, s, e, u, acc); }
    }
  }

  lemma BootIsTextual(stored: map<bytes, Account>, table: map<bytes, Row>)
    ensures AllTextual(Boot(stored, table)) && AllTextProfiles(Boot(stored, table))
  {
    var s := Boot(stored, table);
    forall u, acc | Held(s, u, acc) ensures Textual(u, acc) && TextProfile(acc) {
      assert Held(s, u, acc);
      LoadedIsTextual(u, stored[u]);
    }
  }

  lemma {:induction false} TextualInRuns(kdf: Kdf, s: State, events: seq<Event>)
    requires Inv(s) && AllTextual(s)
    ensures AllTextual(Run(kdf, s, events))
    decreases |events|
  {
    if events != [] {
      StepKeepsTextual(kdf, s, events[0]);
      StepKeepsInv(kdf, s, events[0]);
      TextualInRuns(kdf, Step(kdf, s, events[0]), events[1..]);
    }
  }

  /** In every state of every run, restarts included: a later start would load the accounts of the map
      from accounts.json if and only if every nick and bio is text. */
  lemma FileAgrees(kdf: Kdf, stored: map<bytes, Account>, table: map<bytes, Row>, events: seq<Event>)
    ensures Inv(Boot(stored, table))
    ensures var t := Run(kdf, Boot(stored, table), events).shared;
      t.file == t.accounts <==> forall u :: u in t.accounts ==> TextProfile(t.accounts[u])
  {
    var s := Boot(stored, table);
    EveryRunIsSafe(kdf, stored, table, events);
    BootIsTextual(stored, table);
    TextualInRuns(kdf, s, events);
    var t := Run(kdf, s, events);
    forall u | u in t.shared.accounts ensures Textual(u, t.shared.accounts[u]) {
      assert Held(t, u, t.shared.accounts[u]);
    }
    FileGivesBack(t.shared.accounts);
  }

  // ---------------------------------------------------------------- the guard

  /** The edit cuts neither nick nor bio inside a character. */
  predicate WholeEdit(pairs: map<bytes, bytes>)
  {
    && (NICK in pairs ==> CutsWhole(pairs[NICK], MAX_NICK))
    && (BIO in pairs ==> CutsWhole(pairs[BIO], MAX_BIO))
  }

  /** An edit of a text profile leaves a text profile exactly when it cuts nothing in half. */
  lemma EditIsText(u: bytes, acc: Account, pairs: map<bytes, bytes>)
    requires ValidName(u) && TextProfile(acc)
    ensures TextProfile(Edited(u, acc, pairs)) <==> WholeEdit(pairs)
  {
    NameIsText(u);
    assert NICK[0] != BIO[0];
    if NICK in pairs { SanitizedIsText(pairs[NICK], MAX_NICK); }
    if BIO in pairs { SanitizedIsText(pairs[BIO], MAX_BIO); }
  }

  ghost predicate AllTextProfiles(s: State)
  {
    forall u, acc :: Held(s, u, acc) ==> TextProfile(acc)
  }

  /** An accepted edit replaces the account of the client's own name. */
  lemma ProfileStepIs(kdf: Kdf, s: State, id: Id, rest: bytes)
    requires Inv(s) && Commands(s, id) && ParsePairs(rest) != map[]
    ensures var t, u := Step(kdf, s, Event.SetProfile(id, rest)), s.shared.sessions[id].name;
      && u in s.shared.accounts && ValidName(u)
      && t.shared == Save(s.shared, u, Edited(u, s.shared.accounts[u], ParsePairs(rest)))
      && t.pcs == s.pcs
  {
    assert SessionOk(s.shared, s.shared.sessions[id], Idle);
    assert s.pcs[id := Idle] == s.pcs;
  }

  /** From text profiles, an accepted edit leaves the file in agreement exactly when it is whole. */
  lemma ProfileStepAgrees(kdf: Kdf, s: State, id: Id, rest: bytes)
    requires Inv(s) && AllTextual(s) && AllTextProfiles(s) && Commands(s, id) && ParsePairs(rest) != map[]
    ensures var t := Step(kdf, s, Event.SetProfile(id, rest)).shared;
      t.file == t.accounts <==> WholeEdit(ParsePairs(rest))
  {
    var u := s.shared.sessions[id].name;
    ProfileStepIs(kdf, s, id, rest);
    assert Held(s, u, s.shared.accounts[u]);
    EditIsTextual(u, s.shared.accounts[u], ParsePairs(rest));
    SavedFileAgrees(s, u, Edited(u, s.shared.accounts[u], ParsePairs(rest)));
    EditIsText(u, s.shared.accounts[u], ParsePairs(rest));
  }

  lemma SavedFileAgrees(s: State, u: bytes, acc: Account)
    requires AllTextual(s) && AllTextProfiles(s) && Textual(u, acc)
    ensures var t := Save(s.shared, u, acc); t.file == t.accounts <==> TextProfile(acc)
  {
    var accounts := s.shared.accounts[u := acc];
    forall x | x in accounts && x != u ensures Textual(x, accounts[x]) && TextProfile(accounts[x]) {
      assert Held(s, x, accounts[x]);
    }
    FileGivesBack(accounts);
    assert accounts[u] == acc && Save(s.shared, u, acc).file == Loaded(accounts);
  }

  ghost predicate WholeEdits(events: seq<Event>)
  {
    forall k :: 0 <= k < |events| && events[k].SetProfile? ==> WholeEdit(ParsePairs(events[k].rest))
  }

  lemma StepKeepsProfilesText(kdf: Kdf, s: State, e: Event)
    requires Inv(s) && AllTextProfiles(s) && (e.SetProfile? ==> WholeEdit(ParsePairs(e.rest)))
    ensures AllTextProfiles(Step(kdf, s, e))
  {
    forall u, acc | Held(Step(kdf, s, e), u, acc) ensures TextProfile(acc) {
      StepSources(kdf, s, e, u, acc);
      if !Held(s, u, acc) { MadeIsText(kdf, s, e, u, acc); }
    }
  }

  lemma MadeIsText(kdf: Kdf, s: State, e: Event, u: bytes, acc: Account)
    requires Inv(s) && AllTextProfiles(s) && MadeBy(kdf, s, e, u, acc)
    requires e.SetProfile? ==> WholeEdit(ParsePairs(e.rest))
    ensures TextProfile(acc)
  {
    if e.Restart? {
      LoadedIsTextual(u, s.shared.accounts[u]);
      return;
    }
    ActorIsNamed(s, e.id);
    var name := s.shared.sessions[e.id].name;
    if e.Register? { NewIsTextual(kdf, u, e.p1, e.salt); }
    if e.CheckLogin? { assert Pending(s, e.id, u, s.pcs[e.id].read.value) && Held(s, u, s.pcs[e.id].read.value); }
    if !e.Register? && !e.CheckLogin? { assert Held(s, name, s.shared.accounts[name]); }
    if e.SetProfile? { EditIsText(u, s.shared.accounts[u], ParsePairs(e.rest)); }
  }

  lemma {:induction false} ProfilesStayText(kdf: Kdf, s: State, events: seq<Event>)
    requires Inv(s) && AllTextProfiles(s) && WholeEdits(events)
    ensures AllTextProfiles(Run(kdf, s, events))
    decreases |events|
  {
    if events != [] {
      StepKeepsProfilesText(kdf, s, events[0]);
      StepKeepsInv(kdf, s, events[0]);
      assert WholeEdits(events[1..]) by {
        assert forall k :: 0 <= k < |events[1..]| ==> events[1..][k] == events[k + 1];
      }
      ProfilesStayText(kdf, Step(kdf, s, events[0]), events[1..]);
    }
  }

  /** With the guard, accounts.json loads to the accounts of the map in every state of every run. */
  lemma WholeEditsReload(kdf: Kdf, stored: map<bytes, Account>, table: map<bytes, Row>, events: seq<Event>)
    requires WholeEdits(events)
    ensures Inv(Boot(stored, table)) && AllTextProfiles(Run(kdf, Boot(stored, table), events))
    ensures var t := Run(kdf, Boot(stored, table), events).shared; t.file == t.accounts
  {
    var s := Boot(stored, table);
    FileAgrees(kdf, stored, table, events);
    BootIsTextual(stored, table);
    ProfilesStayText(kdf, s, events);
    var t := Run(kdf, s, events);
    forall u | u in t.shared.accounts ensures TextProfile(t.shared.accounts[u]) {
      assert Held(t, u, t.shared.accounts[u]);
    }
  }
}
