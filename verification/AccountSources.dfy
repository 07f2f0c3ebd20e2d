/**
 Where accounts come from. Every account the server holds after a step, stored or read by a
 login that may write it back, was held before, was made by the step in one of four ways, has
 moved to a new name, or has been loaded by a restart. Invariants about stored accounts follow from these cases.
 */
module AccountSources {
  import opened Wrappers
  import opened Bytes
  import opened Accounts
  import opened Profile
  import opened ServerSpec
  import opened Interleaving
  import opened SessionSafety

  /** A login has read the account and may write it back under its name. */
  ghost predicate Pending(s: State, i: Id, u: bytes, acc: Account)
  {
    i in s.pcs && s.pcs[i].LoggingIn? && s.pcs[i].u == u && s.pcs[i].read == Some(acc)
  }

  ghost predicate Stored(s: State, u: bytes, acc: Account)
  {
    u in s.shared.accounts && s.shared.accounts[u] == acc
  }

  ghost predicate Held(s: State, u: bytes, acc: Account)
  {
    Stored(s, u, acc) || exists i :: Pending(s, i, u, acc)
  }

  /** The step renames the account of its client. */
  predicate Renames(s: State, e: Event)
  {
    e.Rename? && Commands(s, e.id) && RenameAllowed(s.shared, s.shared.sessions[e.id].name, e.nu)
  }

  /** The account is made, or moved, by the step. */
  ghost predicate MadeBy(kdf: Kdf, s: State, e: Event, u: bytes, acc: Account)
  {
    match e
    case Register(id, p1, _, salt) =>
      Waits(s, id) && u == s.shared.sessions[id].name && acc == NewAccount(kdf, u, p1, salt)
    case CheckLogin(id, salt) =>
      && At(s, id) && s.pcs[id].LoggingIn? && u == s.pcs[id].u
      && s.pcs[id].read.Some? && acc == Rekey(kdf, s.pcs[id].read.value, s.pcs[id].pwd, salt)
    case SetProfile(id, rest) =>
      && Commands(s, id) && u == s.shared.sessions[id].name && u in s.shared.accounts
      && acc == Edited(u, s.shared.accounts[u], ParsePairs(rest))
    case SetPassword(id, _, newPwd, salt) =>
      && Commands(s, id) && u == s.shared.sessions[id].name && u in s.shared.accounts
      && acc == Rekey(kdf, s.shared.accounts[u], newPwd, salt)
    case Rename(id, nu) =>
      Renames(s, e) && u == nu && acc == s.shared.accounts[s.shared.sessions[id].name]
    case Restart => u in s.shared.accounts && acc == LoadedAccount(u, s.shared.accounts[u])
    case _ => false
  }

  // ---------------------------------------------------------------- steps that make no account

  /** The accounts stay as they are and no login is begun. */
  ghost predicate SameAccounts(s: State, t: State)
  {
    && t.shared.accounts == s.shared.accounts
    && forall i :: i in t.pcs && t.pcs[i].LoggingIn? ==> i in s.pcs && t.pcs[i] == s.pcs[i]
  }

  lemma RoomsSameAccounts(kdf: Kdf, s: State, e: Event)
    requires Ordered(s.shared) && (e.CreateRoom? || e.EnterRoom? || e.JoinRoom? || e.LeaveRoom?)
    ensures SameAccounts(s, Step(kdf, s, e))
  {
    if e.JoinRoom? || e.LeaveRoom? { ChoosingSameAccounts(kdf, s, e); } else { CreatingSameAccounts(kdf, s, e); }
  }

  lemma ChoosingSameAccounts(kdf: Kdf, s: State, e: Event)
    requires Ordered(s.shared) && (e.JoinRoom? || e.LeaveRoom?)
    ensures SameAccounts(s, Step(kdf, s, e))
  {
  }

  lemma CreatingSameAccounts(kdf: Kdf, s: State, e: Event)
    requires Ordered(s.shared) && (e.CreateRoom? || e.EnterRoom?)
    ensures SameAccounts(s, Step(kdf, s, e))
  {
  }

  lemma ConnectionsSameAccounts(kdf: Kdf, s: State, e: Event)
    requires Ordered(s.shared) && (e.Close? || e.Disconnect? || e.Connect? || e.Publish?)
    ensures SameAccounts(s, Step(kdf, s, e))
  {
  }

  lemma ActivationSameAccounts(kdf: Kdf, s: State, e: Event)
    requires Ordered(s.shared)
    requires e.Activate? || e.Grant?
    ensures SameAccounts(s, Step(kdf, s, e))
  {
  }

  lemma ReadingSameAccounts(kdf: Kdf, s: State, e: Event)
    requires Ordered(s.shared) && (e.TakeTable? || e.Ask?)
    ensures SameAccounts(s, Step(kdf, s, e))
  {
  }

  lemma WritingSameAccounts(kdf: Kdf, s: State, e: Event)
    requires Ordered(s.shared) && (e.SendTable? || e.Announce? || e.SendAnswer? || e.Reply?)
    ensures SameAccounts(s, Step(kdf, s, e))
  {
    if e.Announce? || e.Reply? { BroadcastSameAccounts(kdf, s, e); } else { PostingSameAccounts(kdf, s, e); }
  }

  lemma BroadcastSameAccounts(kdf: Kdf, s: State, e: Event)
    requires Ordered(s.shared) && (e.Announce? || e.Reply?)
    ensures SameAccounts(s, Step(kdf, s, e))
  {
  }

  lemma PostingSameAccounts(kdf: Kdf, s: State, e: Event)
    requires Ordered(s.shared) && (e.SendTable? || e.SendAnswer?)
    ensures SameAccounts(s, Step(kdf, s, e))
  {
  }

  predicate TouchesAccounts(e: Event)
  {
    e.Register? || e.ReadAccount? || e.CheckLogin? || e.SetProfile? || e.Rename? || e.SetPassword? || e.Restart?
  }

  lemma OthersSameAccounts(kdf: Kdf, s: State, e: Event)
    requires Ordered(s.shared) && !TouchesAccounts(e)
    ensures SameAccounts(s, Step(kdf, s, e))
  {
    if e.Relay? {
      if Waits(s, e.id) { RelaySameButOut(s.shared, e.id, e.kind, e.payload); }
    } else if e.CreateRoom? || e.EnterRoom? || e.JoinRoom? || e.LeaveRoom? {
      RoomsSameAccounts(kdf, s, e);
    } else if e.Close? || e.Disconnect? || e.Connect? || e.Publish? {
      ConnectionsSameAccounts(kdf, s, e);
    } else if e.SendTable? || e.Announce? || e.SendAnswer? || e.Reply? {
      WritingSameAccounts(kdf, s, e);
    } else if e.TakeTable? || e.Ask? {
      ReadingSameAccounts(kdf, s, e);
    } else {
      ActivationSameAccounts(kdf, s, e);
    }
  }

  // ---------------------------------------------------------------- every source

  lemma LoginStores(kdf: Kdf, s: State, e: Event, u: bytes, acc: Account)
    requires Ordered(s.shared) && (e.Register? || e.ReadAccount? || e.CheckLogin?)
    requires Stored(Step(kdf, s, e), u, acc)
    ensures Stored(s, u, acc) || MadeBy(kdf, s, e, u, acc)
  {
  }

  lemma RestartStores(kdf: Kdf, s: State, u: bytes, acc: Account)
    requires Ordered(s.shared) && FileWritten(s.shared)
    requires Held(Step(kdf, s, Restart), u, acc)
    ensures MadeBy(kdf, s, Restart, u, acc)
  {
    assert Stored(Step(kdf, s, Restart), u, acc);
  }

  lemma CommandStores(kdf: Kdf, s: State, e: Event, u: bytes, acc: Account)
    requires Ordered(s.shared) && (e.SetProfile? || e.Rename? || e.SetPassword?)
    requires Stored(Step(kdf, s, e), u, acc)
    ensures Stored(s, u, acc) || MadeBy(kdf, s, e, u, acc)
  {
  }

  /** A stored account was stored before or is made by the step; a login's copy does not come back as
      it was read. */
  lemma StoredSources(kdf: Kdf, s: State, e: Event, u: bytes, acc: Account)
    requires Ordered(s.shared) && FileWritten(s.shared) && Stored(Step(kdf, s, e), u, acc)
    ensures Stored(s, u, acc) || MadeBy(kdf, s, e, u, acc)
  {
    if e.Register? || e.ReadAccount? || e.CheckLogin? {
      LoginStores(kdf, s, e, u, acc);
    } else if e.Restart? {
      RestartStores(kdf, s, u, acc);
    } else if TouchesAccounts(e) {
      CommandStores(kdf, s, e, u, acc);
    } else {
      OthersSameAccounts(kdf, s, e);
    }
  }

  lemma TouchedPending(kdf: Kdf, s: State, e: Event, i: Id, u: bytes, acc: Account)
    requires Ordered(s.shared) && TouchesAccounts(e) && Pending(Step(kdf, s, e), i, u, acc)
    ensures Pending(s, i, u, acc) || Stored(s, u, acc)
  {
  }

  /** A login's copy was there before or has just been read from what is stored. */
  lemma PendingSources(kdf: Kdf, s: State, e: Event, i: Id, u: bytes, acc: Account)
    requires Ordered(s.shared) && FileWritten(s.shared) && Pending(Step(kdf, s, e), i, u, acc)
    ensures Pending(s, i, u, acc) || Stored(s, u, acc)
  {
    if TouchesAccounts(e) { TouchedPending(kdf, s, e, i, u, acc); } else { OthersSameAccounts(kdf, s, e); }
  }

  lemma StepSources(kdf: Kdf, s: State, e: Event, u: bytes, acc: Account)
    requires Ordered(s.shared) && FileWritten(s.shared) && Held(Step(kdf, s, e), u, acc)
    ensures Held(s, u, acc) || MadeBy(kdf, s, e, u, acc)
  {
    var t := Step(kdf, s, e);
    if e.Restart? {
      RestartStores(kdf, s, u, acc);
    } else if Stored(t, u, acc) {
      StoredSources(kdf, s, e, u, acc);
    } else {
      var i :| Pending(t, i, u, acc);
      PendingSources(kdf, s, e, i, u, acc);
    }
  }
}
