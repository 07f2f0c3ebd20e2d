/**
 Accounts: stored credentials and profile, the two password checks, the row the SQLite table
 keeps for an account, and what a later start makes of accounts.json.
 */
module Accounts {
  import opened Wrappers
  import opened Bytes
  import opened Base64
  import opened Utf8

  datatype Account = Account(
    salt: bytes, hash: bytes, alg: bytes, memory: nat, time: nat, threads: nat,
    nick: bytes, bio: bytes, hideStatus: bool)

  /** The columns of a row the server writes and reads; the status flag is stored as 0 or 1. */
  datatype Row = Row(
    salt: bytes, hash: bytes, alg: bytes, memory: nat, time: nat, threads: nat,
    nick: bytes, bio: bytes, hideFlag: int)

  function RowOf(acc: Account): Row
  {
    Row(acc.salt, acc.hash, acc.alg, acc.memory, acc.time, acc.threads, acc.nick, acc.bio,
        if acc.hideStatus then 1 else 0)
  }

  /** The table that agrees with a map of accounts. */
  function Rows(accounts: map<bytes, Account>): map<bytes, Row>
  {
    map u | u in accounts :: RowOf(accounts[u])
  }

  /** The table determines the accounts: no column loses anything. */
  lemma TableDetermines(a: map<bytes, Account>, b: map<bytes, Account>)
    ensures Rows(a) == Rows(b) <==> a == b
  {
    if Rows(a) == Rows(b) {
      assert a.Keys == Rows(a).Keys == b.Keys;
      forall u | u in a ensures a[u] == b[u] {
        assert Rows(a)[u] == Rows(b)[u];
      }
    }
  }

  // ---------------------------------------------------------------- accounts.json

  function StripAt(u: bytes): bytes
  {
    if u != [] && u[0] == 0x40 then u[1..] else u
  }

  /** An account that has been written to accounts.json and loaded again: JSON carries text only, so
      other bytes have become replacement characters, and an empty nick is filled from the name. */
  function LoadedAccount(u: bytes, acc: Account): Account
  {
    var nick := Coerce(acc.nick);
    acc.(salt := Coerce(acc.salt), hash := Coerce(acc.hash), alg := Coerce(acc.alg),
         nick := if nick == [] then Coerce(StripAt(u)) else nick, bio := Coerce(acc.bio))
  }

  /** The accounts a start finds in the file that was written from `accounts`. */
  function Loaded(accounts: map<bytes, Account>): map<bytes, Account>
  {
    map u | u in accounts :: LoadedAccount(u, accounts[u])
  }

  lemma LoadedTwice(accounts: map<bytes, Account>)
    ensures Loaded(Loaded(accounts)) == Loaded(accounts)
  {
    forall u | u in accounts ensures LoadedAccount(u, LoadedAccount(u, accounts[u])) == LoadedAccount(u, accounts[u]) {
      var acc := accounts[u];
      CoerceTwice(acc.salt);
      CoerceTwice(acc.hash);
      CoerceTwice(acc.alg);
      CoerceTwice(acc.nick);
      CoerceTwice(acc.bio);
      CoerceTwice(StripAt(u));
    }
  }

  lemma CoerceTwice(s: bytes)
    ensures Coerce(Coerce(s)) == Coerce(s)
  {
    CoerceIsValid(s);
    CoerceFixesValid(Coerce(s));
  }

  /** Text everywhere but possibly in the profile, and a nick wherever there is a name to take it from. */
  ghost predicate Textual(u: bytes, acc: Account)
  {
    && ValidUtf8(acc.salt) && ValidUtf8(acc.hash) && ValidUtf8(acc.alg)
    && (acc.nick == [] ==> Coerce(StripAt(u)) == [])
  }

  /** Nick and bio are text. */
  ghost predicate TextProfile(acc: Account)
  {
    ValidUtf8(acc.nick) && ValidUtf8(acc.bio)
  }

  lemma LoadedIsSame(u: bytes, acc: Account)
    requires Textual(u, acc)
    ensures LoadedAccount(u, acc) == acc <==> TextProfile(acc)
  {
    CoerceFixesValid(acc.salt);
    CoerceFixesValid(acc.hash);
    CoerceFixesValid(acc.alg);
    CoerceFixesValid(acc.nick);
    CoerceFixesValid(acc.bio);
    CoerceIsValid(StripAt(u));
  }

  /** The file gives back the accounts it was written from exactly when every profile is text. */
  lemma FileGivesBack(accounts: map<bytes, Account>)
    requires forall u :: u in accounts ==> Textual(u, accounts[u])
    ensures Loaded(accounts) == accounts <==> forall u :: u in accounts ==> TextProfile(accounts[u])
  {
    forall u | u in accounts ensures LoadedAccount(u, accounts[u]) == accounts[u] <==> TextProfile(accounts[u]) {
      LoadedIsSame(u, accounts[u]);
    }
    if Loaded(accounts) == accounts {
      forall u | u in accounts ensures TextProfile(accounts[u]) {
        assert Loaded(accounts)[u] == accounts[u];
      }
    }
  }

  lemma LoadedIsTextual(u: bytes, acc: Account)
    ensures Textual(u, LoadedAccount(u, acc)) && TextProfile(LoadedAccount(u, acc))
  {
    CoerceIsValid(acc.salt);
    CoerceIsValid(acc.hash);
    CoerceIsValid(acc.alg);
    CoerceIsValid(acc.nick);
    CoerceIsValid(acc.bio);
    CoerceIsValid(StripAt(u));
  }

  // ---------------------------------------------------------------- passwords

  /** The password functions, kept opaque: Argon2id on (password, salt, time, memory, threads)
      and the hexadecimal SHA-256 of the legacy format. */
  datatype Kdf = Kdf(argon2id: (bytes, bytes, nat, nat, nat) -> bytes, sha256Hex: bytes -> bytes)

  const ARGON2ID: bytes := [0x61, 0x72, 0x67, 0x6F, 0x6E, 0x32, 0x69, 0x64]
  const ARGON_MEMORY: nat := 64 * 1024
  const ARGON_TIME: nat := 2
  const ARGON_THREADS: nat := 1

  function NewArgon2Account(kdf: Kdf, pwd: bytes, salt: bytes): Account
  {
    var key := kdf.argon2id(pwd, salt, ARGON_TIME, ARGON_MEMORY, ARGON_THREADS);
    Account(EncodeRaw(salt), EncodeRaw(key), ARGON2ID, ARGON_MEMORY, ARGON_TIME, ARGON_THREADS, [], [], false)
  }

  /** The account a registration makes: the nick is the name without its '@'. */
  function NewAccount(kdf: Kdf, u: bytes, pwd: bytes, salt: bytes): Account
  {
    NewArgon2Account(kdf, pwd, salt).(nick := StripAt(u))
  }

  predicate VerifyArgon2(kdf: Kdf, acc: Account, pwd: bytes)
  {
    match DecodeRaw(acc.salt, false)
    case None => false
    case Some(salt) =>
      match DecodeRaw(acc.hash, false)
      case None => false
      case Some(expected) => kdf.argon2id(pwd, salt, acc.time, acc.memory, acc.threads) == expected
  }

  predicate VerifyLegacy(kdf: Kdf, acc: Account, pwd: bytes)
  {
    acc.hash != [] && kdf.sha256Hex(acc.salt + pwd) == acc.hash
  }

  /** An account without an algorithm is in the legacy format. */
  predicate Legacy(acc: Account)
  {
    acc.alg == []
  }

  predicate Verify(kdf: Kdf, acc: Account, pwd: bytes)
  {
    if Legacy(acc) then VerifyLegacy(kdf, acc, pwd) else VerifyArgon2(kdf, acc, pwd)
  }

  /** New credentials for `pwd` with the profile of `acc`. */
  function Rekey(kdf: Kdf, acc: Account, pwd: bytes, salt: bytes): Account
  {
    NewArgon2Account(kdf, pwd, salt).(nick := acc.nick, bio := acc.bio, hideStatus := acc.hideStatus)
  }

  /** Stored credentials accept exactly the passwords with the same Argon2id key: the salt and
      the key survive their encoding, whatever profile the account carries. */
  lemma StoredPasswordVerifies(kdf: Kdf, acc: Account, pwd: bytes, salt: bytes, attempt: bytes)
    ensures var key := (p: bytes) => kdf.argon2id(p, salt, ARGON_TIME, ARGON_MEMORY, ARGON_THREADS);
      Verify(kdf, Rekey(kdf, acc, pwd, salt), attempt) <==> key(attempt) == key(pwd)
    ensures Verify(kdf, Rekey(kdf, acc, pwd, salt), pwd)
  {
    RawRoundTrip(salt, false);
    RawRoundTrip(kdf.argon2id(pwd, salt, ARGON_TIME, ARGON_MEMORY, ARGON_THREADS), false);
  }
}
