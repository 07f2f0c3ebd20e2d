/**
 How a connection begins, becomes active and ends: what each of these steps takes, and that it
 touches nobody else.
 */
module Connections {
  import opened Bytes
  import opened Accounts
  import opened Directory
  import opened ServerSpec
  import opened Interleaving

  /** A connection is accepted if and only if what it sends first is, trimmed, a valid name that nobody connected
      has. It then comes last in the list, in the main room, with no key and no rights. */
  lemma ConnectRule(kdf: Kdf, s: State, id: Id, raw: bytes)
    requires Ordered(s.shared) && id !in s.shared.sessions
    ensures var t, name := Step(kdf, s, Event.Connect(id, raw)), Trim(raw);
      if ValidName(name) && forall i :: i in s.shared.sessions ==> s.shared.sessions[i].name != name
      then
        && t.shared.order == s.shared.order + [id]
        && t.shared.sessions == s.shared.sessions[id := Session(name, MAIN, [], false, false, 0, [])]
        && t.pcs == s.pcs[id := Idle]
        && t.shared.accounts == s.shared.accounts && t.shared.rooms == s.shared.rooms
      else t == s
  {
    var name := Trim(raw);
    assert NameInUse(s.shared, name) <==> exists i :: i in s.shared.sessions && s.shared.sessions[i].name == name;
  }

  /** Activation happens once: it marks the client and has the directory read for it; a client that is active
      already, because it has logged in before, is left as it is and nothing is written to anybody. */
  lemma ActivateRule(kdf: Kdf, s: State, id: Id)
    requires Ordered(s.shared) && At(s, id) && s.pcs[id] == Activating
    ensures var t, c := Step(kdf, s, Event.Activate(id)), s.shared.sessions[id];
      && t.shared == s.shared.(sessions := s.shared.sessions[id := c.(activated := true)])
      && t.pcs == s.pcs[id := if c.activated then Idle else Taking]
  {
    var c := s.shared.sessions[id];
    assert c.activated ==> c.(activated := true) == c;
  }

  /** A second login of an active client: it keeps its rights, its count starts again, and nothing is written. */
  lemma SecondLogin(kdf: Kdf, s: State, id: Id)
    requires Ordered(s.shared) && At(s, id) && s.pcs[id].Granted? && s.shared.sessions[id].activated
    ensures Ordered(Step(kdf, s, Grant(id)).shared)
    ensures var t := Step(kdf, Step(kdf, s, Grant(id)), Event.Activate(id));
      && t.pcs == s.pcs[id := Idle]
      && t.shared.sessions.Keys == s.shared.sessions.Keys
      && forall i :: i in s.shared.sessions ==> t.shared.sessions[i].out == s.shared.sessions[i].out
  {
    GrantWritesNothing(kdf, s, id);
    ActivateRule(kdf, Step(kdf, s, Grant(id)), id);
  }

  lemma GrantWritesNothing(kdf: Kdf, s: State, id: Id)
    requires Ordered(s.shared) && At(s, id) && s.pcs[id].Granted?
    ensures var t := Step(kdf, s, Grant(id));
      && Ordered(t.shared) && At(t, id) && t.shared.sessions.Keys == s.shared.sessions.Keys
      && t.shared.sessions[id].activated == s.shared.sessions[id].activated
      && t.pcs == s.pcs[id := Activating]
      && forall i :: i in s.shared.sessions ==> t.shared.sessions[i].out == s.shared.sessions[i].out
  {
  }

  /** A goroutine that waits for a frame may find the connection closed; one that does something else does not. */
  lemma CloseRule(kdf: Kdf, s: State, id: Id)
    requires Ordered(s.shared) && At(s, id)
    ensures Step(kdf, s, Event.Close(id)) == if s.pcs[id] == Idle then State(s.shared, s.pcs[id := Closing]) else s
  {
  }

  lemma LeftList(s: Shared, id: Id)
    requires Ordered(s) && id in s.sessions
    ensures var t := ServerSpec.Disconnect(s, id);
      && id !in t.order && |t.order| == |s.order| - 1
      && t == s.(order := t.order, sessions := s.sessions - {id})
  {
    WithoutKeepsOrder(s.order, id);
    var n :| 0 <= n < |s.order| && s.order[n] == id;
    WithoutAt(s.order, id, n);
  }

  lemma LeaveIs(kdf: Kdf, s: State, id: Id)
    requires Ordered(s.shared) && At(s, id)
    ensures Step(kdf, s, Event.Disconnect(id))
         == if s.pcs[id] == Idle || s.pcs[id] == Closing
            then State(ServerSpec.Disconnect(s.shared, id), s.pcs - {id}) else s
  {
  }

  /** A goroutine that waits for a frame, or has closed its connection, may leave; in the middle of anything else
      it does not. Leaving takes the client off the list and touches nobody else. */
  lemma LeaveRule(kdf: Kdf, s: State, id: Id)
    requires Ordered(s.shared) && At(s, id)
    ensures var t := Step(kdf, s, Event.Disconnect(id));
      if s.pcs[id] == Idle || s.pcs[id] == Closing
      then
        && t.shared == s.shared.(order := t.shared.order, sessions := s.shared.sessions - {id})
        && t.pcs == s.pcs - {id}
        && id !in t.shared.order && |t.shared.order| == |s.shared.order| - 1
      else t == s
  {
    LeaveIs(kdf, s, id);
    LeftList(s.shared, id);
  }
}
