/**
 Who is in has been upgraded: in every state of every run an authenticated client's account has
 Argon2id credentials, because the only way in with a legacy account rewrites it.
 */
module LegacyAccounts {
  import opened Bytes
  import opened Accounts
  import opened ServerSpec
  import opened Interleaving
  import opened SessionSafety
  import opened AccountSources

  ghost predicate LegacyAt(s: State, u: bytes)
  {
    u in s.shared.accounts && Legacy(s.shared.accounts[u])
  }

  /** The client is in, or about to be. */
  ghost predicate In(s: State, i: Id)
  {
    At(s, i) && (s.shared.sessions[i].authed || s.pcs[i].Granted?)
  }

  ghost predicate UpgradedClients(s: State)
  {
    forall i :: In(s, i) ==> !LegacyAt(s, s.shared.sessions[i].name)
  }

  /** What a login has read as upgraded has not become legacy since. */
  ghost predicate UpgradedReads(s: State)
  {
    forall i, u, acc :: Pending(s, i, u, acc) && !Legacy(acc) ==> !LegacyAt(s, u)
  }

  ghost predicate Upgraded(s: State)
  {
    UpgradedClients(s) && UpgradedReads(s)
  }

  /** No step makes a legacy account: what is legacy afterwards was legacy under the same name before. */
  lemma NothingTurnsLegacy(kdf: Kdf, s: State, e: Event, u: bytes)
    requires Inv(s) && UpgradedClients(s) && LegacyAt(Step(kdf, s, e), u)
    ensures LegacyAt(s, u)
  {
    var acc := Step(kdf, s, e).shared.accounts[u];
    StoredSources(kdf, s, e, u, acc);
    if !Stored(s, u, acc) {
      assert MadeBy(kdf, s, e, u, acc);
      if e.SetProfile? || e.Rename? { assert In(s, e.id); }
    }
  }

  /** A client that has just been granted: its account is new, upgraded now, or was upgraded when read. */
  lemma GrantedIsUpgraded(kdf: Kdf, s: State, e: Event)
    requires Inv(s) && Upgraded(s) && Accepts(kdf, s, e)
    ensures !LegacyAt(Step(kdf, s, e), s.shared.sessions[e.id].name)
  {
    var u := s.shared.sessions[e.id].name;
    if LegacyAt(Step(kdf, s, e), u) {
      NothingTurnsLegacy(kdf, s, e, u);
      if e.CheckLogin? {
        var read := s.pcs[e.id].read.value;
        assert Pending(s, e.id, u, read);
        CheckedRewrites(kdf, s, e);
      }
    }
  }

  lemma CheckedRewrites(kdf: Kdf, s: State, e: Event)
    requires Ordered(s.shared) && e.CheckLogin? && Accepts(kdf, s, e) && Legacy(s.pcs[e.id].read.value)
    ensures var u, t := s.pcs[e.id].u, Step(kdf, s, e).shared;
      u in t.accounts && t.accounts[u] == Rekey(kdf, s.pcs[e.id].read.value, s.pcs[e.id].pwd, e.salt)
  {
  }

  lemma RenamedIsUpgraded(kdf: Kdf, s: State, e: Event)
    requires Inv(s) && UpgradedClients(s) && Renames(s, e)
    ensures At(Step(kdf, s, e), e.id) && Step(kdf, s, e).shared.sessions[e.id].name == e.nu
    ensures !LegacyAt(Step(kdf, s, e), e.nu)
  {
    assert In(s, e.id);
  }

  lemma RefusedRename(kdf: Kdf, s: State, e: Event)
    requires Ordered(s.shared) && e.Rename? && !Renames(s, e)
    ensures Step(kdf, s, e).shared == s.shared
  {
  }

  /** Clients that come with the step are not in. */
  lemma NewcomersAreOut(kdf: Kdf, s: State, e: Event, i: Id)
    requires Inv(s) && i !in s.shared.sessions && At(Step(kdf, s, e), i)
    ensures !In(Step(kdf, s, e), i)
  {
    if !e.Connect? { OnlyConnectAdds(kdf, s, e, i); }
  }

  lemma OnlyConnectAdds(kdf: Kdf, s: State, e: Event, i: Id)
    requires Inv(s) && !e.Connect? && At(Step(kdf, s, e), i)
    ensures i in s.shared.sessions
  {
    if e.Relay? && Waits(s, e.id) { RelaySameButOut(s.shared, e.id, e.kind, e.payload); }
  }

  lemma ClientStaysUpgraded(kdf: Kdf, s: State, e: Event, i: Id)
    requires Inv(s) && Upgraded(s) && In(Step(kdf, s, e), i)
    ensures !LegacyAt(Step(kdf, s, e), Step(kdf, s, e).shared.sessions[i].name)
  {
    var t := Step(kdf, s, e);
    if i !in s.shared.sessions {
      NewcomersAreOut(kdf, s, e, i);
    } else {
      AuthenticationIsEarned(kdf, s, e, i);
      if Renames(s, e) && e.id == i {
        RenamedIsUpgraded(kdf, s, e);
      } else {
        if e.Rename? && e.id == i { RefusedRename(kdf, s, e); }
        if !In(s, i) {
          GrantedIsUpgraded(kdf, s, e);
        } else if LegacyAt(t, s.shared.sessions[i].name) {
          NothingTurnsLegacy(kdf, s, e, s.shared.sessions[i].name);
        }
      }
    }
  }

  lemma StepKeepsUpgraded(kdf: Kdf, s: State, e: Event)
    requires Inv(s) && Upgraded(s)
    ensures Upgraded(Step(kdf, s, e))
  {
    var t := Step(kdf, s, e);
    forall i | In(t, i) ensures !LegacyAt(t, t.shared.sessions[i].name) {
      ClientStaysUpgraded(kdf, s, e, i);
    }
    forall i, u, acc | Pending(t, i, u, acc) && !Legacy(acc) ensures !LegacyAt(t, u) {
      PendingSources(kdf, s, e, i, u, acc);
      if LegacyAt(t, u) { NothingTurnsLegacy(kdf, s, e, u); }
    }
  }

  lemma {:induction false} UpgradedInRuns(kdf: Kdf, s: State, events: seq<Event>)
    requires Inv(s) && Upgraded(s)
    ensures Upgraded(Run(kdf, s, events))
    decreases |events|
  {
    if events != [] {
      StepKeepsUpgraded(kdf, s, events[0]);
      StepKeepsInv(kdf, s, events[0]);
      UpgradedInRuns(kdf, Step(kdf, s, events[0]), events[1..]);
    }
  }

  /** Whatever accounts the server was started with: whoever is authenticated in a reachable state has an
      account under its current name, and that account is not in the legacy format. */
  lemma AuthenticatedIsUpgraded(kdf: Kdf, stored: map<bytes, Account>, table: map<bytes, Row>,
                                events: seq<Event>, i: Id)
    ensures Inv(Boot(stored, table))
    ensures var t := Run(kdf, Boot(stored, table), events).shared;
      i in t.sessions && t.sessions[i].authed ==>
        t.sessions[i].name in t.accounts && !Legacy(t.accounts[t.sessions[i].name])
  {
    EveryRunIsSafe(kdf, stored, table, events);
    UpgradedInRuns(kdf, Boot(stored, table), events);
    RunKeepsInv(kdf, Boot(stored, table), events);
    var t := Run(kdf, Boot(stored, table), events);
    if i in t.shared.sessions && t.shared.sessions[i].authed { assert In(t, i); }
  }
}
