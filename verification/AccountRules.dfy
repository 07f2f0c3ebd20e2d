/**
 What each section that writes accounts does, field by field: registration, editing the profile,
 changing the password, renaming; and that no account is ever lost.
 */
module AccountRules {
  import opened Bytes
  import opened Base64
  import opened Accounts
  import opened Directory
  import opened Profile
  import opened ServerSpec
  import opened Interleaving
  import opened SessionSafety
  import opened AccountSources
  import opened AccountHistory

  /** The same credentials. */
  predicate SameKey(a: Account, b: Account)
  {
    a.salt == b.salt && a.hash == b.hash && a.alg == b.alg && a.memory == b.memory && a.time == b.time
    && a.threads == b.threads
  }

  /** Under `u` stands `acc`, and every other account is as it was. */
  ghost predicate OnlyAt(was: map<bytes, Account>, now: map<bytes, Account>, u: bytes, acc: Account)
  {
    u in now && now[u] == acc && now.Keys == was.Keys + {u} && forall x :: x in was && x != u ==> now[x] == was[x]
  }

  /** What a text field becomes when the pairs may name it. */
  function FieldAfter(pairs: map<bytes, bytes>, key: bytes, limit: nat, was: bytes, ifEmpty: bytes): bytes
  {
    if key !in pairs then was
    else if Sanitize(pairs[key], limit) == [] then ifEmpty
    else Sanitize(pairs[key], limit)
  }

  /** An edit changes the fields whose keys it has, each to its own value sanitized, and no other: an empty
      nick becomes the name without '@', an empty bio stays empty, a flag other than "0" and "1" is
      ignored. Credentials and other accounts are untouched. */
  lemma EditRule(s: Shared, u: bytes, pairs: map<bytes, bytes>)
    requires u != [] && u[0] == 0x40
    ensures var t := ServerSpec.SetProfile(s, u, pairs);
      && (t.Some? <==> pairs != map[] && u in s.accounts)
      && (t.Some? ==>
            && u in t.value.accounts
            && var was, acc := s.accounts[u], t.value.accounts[u];
               && OnlyAt(s.accounts, t.value.accounts, u, acc)
               && SameKey(acc, was)
               && acc.nick == FieldAfter(pairs, NICK, 32, was.nick, u[1..])
               && acc.bio == FieldAfter(pairs, BIO, 200, was.bio, [])
               && acc.hideStatus == (if HIDE in pairs && pairs[HIDE] == [0x30] then false
                                     else if HIDE in pairs && pairs[HIDE] == [0x31] then true
                                     else was.hideStatus))
  {
  }

  /** A registration needs a free name and the same password twice; the new account opens to that password
      only, and its nick is the name without '@'. */
  lemma RegisterRule(kdf: Kdf, s: Shared, u: bytes, p1: bytes, p2: bytes, salt: bytes)
    ensures var t := ServerSpec.Register(kdf, s, u, p1, p2, salt);
      && (t.Some? <==> u !in s.accounts && p1 == p2)
      && (t.Some? ==>
            && u in t.value.accounts
            && var acc := t.value.accounts[u];
               && OnlyAt(s.accounts, t.value.accounts, u, acc)
               && OpensTo(kdf, acc, p1, salt)
               && (u != [] && u[0] == 0x40 ==> acc.nick == u[1..]) && acc.bio == [] && !acc.hideStatus)
  {
    NewOpensTo(kdf, u, p1, salt);
    NewProfile(kdf, u, p1, salt);
    RegisterIs(kdf, s, u, p1, p2, salt);
  }

  lemma NewProfile(kdf: Kdf, u: bytes, pwd: bytes, salt: bytes)
    ensures var acc := NewAccount(kdf, u, pwd, salt);
      (u != [] && u[0] == 0x40 ==> acc.nick == u[1..]) && acc.bio == [] && !acc.hideStatus
  {
  }

  lemma RegisterIs(kdf: Kdf, s: Shared, u: bytes, p1: bytes, p2: bytes, salt: bytes)
    ensures var t := ServerSpec.Register(kdf, s, u, p1, p2, salt);
      && (t.Some? <==> u !in s.accounts && p1 == p2)
      && (t.Some? ==> u in t.value.accounts && t.value.accounts[u] == NewAccount(kdf, u, p1, salt)
                      && OnlyAt(s.accounts, t.value.accounts, u, t.value.accounts[u]))
  {
    SavedAt(s.accounts, u, NewAccount(kdf, u, p1, salt));
  }

  lemma SavedAt(was: map<bytes, Account>, u: bytes, acc: Account)
    ensures OnlyAt(was, was[u := acc], u, acc)
  {
  }

  /** A change of password needs four bytes and the old one; the account then opens to the new one only, and
      the profile stays. */
  lemma PasswordRule(kdf: Kdf, s: Shared, u: bytes, oldPwd: bytes, newPwd: bytes, salt: bytes)
    ensures var t := ServerSpec.SetPassword(kdf, s, u, oldPwd, newPwd, salt);
      && (t.Some? <==> |newPwd| >= 4 && u in s.accounts && Verify(kdf, s.accounts[u], oldPwd))
      && (t.Some? ==>
            && u in t.value.accounts
            && var acc := t.value.accounts[u];
               && OnlyAt(s.accounts, t.value.accounts, u, acc)
               && OpensTo(kdf, acc, newPwd, salt) && SameProfile(acc, s.accounts[u]))
  {
    if u in s.accounts { RekeyedOpensTo(kdf, s.accounts[u], newPwd, salt); }
  }

  /** Whatever parameters an account was made with, it opens to exactly the passwords that give its key under
      them. */
  lemma ArgonRule(kdf: Kdf, acc: Account, salt: bytes, key: bytes, attempt: bytes)
    requires !Legacy(acc) && acc.salt == EncodeRaw(salt) && acc.hash == EncodeRaw(key)
    ensures Verify(kdf, acc, attempt) <==> kdf.argon2id(attempt, salt, acc.time, acc.memory, acc.threads) == key
  {
    RawRoundTrip(salt, false);
    RawRoundTrip(key, false);
  }

  /** New credentials are made with 64 MiB, two passes and one thread. */
  lemma NewCredentials(kdf: Kdf, pwd: bytes, salt: bytes)
    ensures var acc := NewArgon2Account(kdf, pwd, salt);
      && !Legacy(acc) && acc.salt == EncodeRaw(salt) && acc.hash == EncodeRaw(kdf.argon2id(pwd, salt, 2, 65_536, 1))
      && acc.time == 2 && acc.memory == 65_536 && acc.threads == 1
  {
  }

  /** A legacy account opens to exactly the passwords with the same salted hash. */
  lemma LegacyRule(kdf: Kdf, acc: Account, pwd: bytes, attempt: bytes)
    requires Legacy(acc) && acc.hash == kdf.sha256Hex(acc.salt + pwd) && acc.hash != []
    ensures Verify(kdf, acc, attempt) <==> kdf.sha256Hex(acc.salt + attempt) == kdf.sha256Hex(acc.salt + pwd)
    ensures Verify(kdf, acc, pwd)
  {
  }

  /** A rename needs a valid new name that no account and no client has, and an account to move. It moves the
      account as it is, gives the client its new name, and touches nobody else. */
  lemma RenameRule(s: Shared, id: Id, nu: bytes)
    requires id in s.sessions
    ensures var t, name := ServerSpec.Rename(s, id, nu), s.sessions[id].name;
      && (t.Some? <==>
            && ValidName(nu) && nu != name && nu !in s.accounts && name in s.accounts
            && forall i :: i in s.sessions ==> s.sessions[i].name != nu)
      && (t.Some? ==>
            && t.value.accounts.Keys == s.accounts.Keys - {name} + {nu}
            && t.value.accounts[nu] == s.accounts[name]
            && (forall x :: x in s.accounts && x != name ==> t.value.accounts[x] == s.accounts[x])
            && t.value.table.Keys == s.table.Keys - {name} + {nu}
            && t.value.table[nu] == RowOf(s.accounts[name])
            && t.value.sessions == s.sessions[id := s.sessions[id].(name := nu)]
            && t.value.order == s.order && t.value.rooms == s.rooms)
  {
    assert NameInUse(s, nu) <==> exists i :: i in s.sessions && s.sessions[i].name == nu;
  }

  // ---------------------------------------------------------------- no account is lost

  lemma OneMoreName(was: set<bytes>, x: bytes)
    ensures |was| <= |was + {x}| <= |was| + 1
  {
    if x in was { assert was + {x} == was; }
  }

  lemma OneNameMoved(was: set<bytes>, name: bytes, nu: bytes)
    requires name in was && nu !in was
    ensures |was - {name} + {nu}| == |was|
  {
  }

  lemma StepLosesNoAccount(kdf: Kdf, s: State, e: Event)
    requires Inv(s)
    ensures |s.shared.accounts| <= |Step(kdf, s, e).shared.accounts| <= |s.shared.accounts| + 1
  {
    var was, t := s.shared.accounts.Keys, Step(kdf, s, e);
    AccountNamesFollow(kdf, s, e);
    assert |s.shared.accounts| == |was| && |t.shared.accounts| == |t.shared.accounts.Keys|;
    if Registers(s, e) {
      OneMoreName(was, s.shared.sessions[e.id].name);
    } else if Renames(s, e) {
      OneNameMoved(was, s.shared.sessions[e.id].name, e.nu);
    } else if Revives(kdf, s, e) {
      OneMoreName(was, s.pcs[e.id].u);
    }
  }

  /** Over any run, restarts included, the number of accounts never goes down. */
  lemma {:induction false} NoAccountIsLost(kdf: Kdf, s: State, events: seq<Event>)
    requires Inv(s)
    ensures |s.shared.accounts| <= |Run(kdf, s, events).shared.accounts| <= |s.shared.accounts| + |events|
    decreases |events|
  {
    if events != [] {
      StepLosesNoAccount(kdf, s, events[0]);
      StepKeepsInv(kdf, s, events[0]);
      NoAccountIsLost(kdf, Step(kdf, s, events[0]), events[1..]);
    }
  }
}
