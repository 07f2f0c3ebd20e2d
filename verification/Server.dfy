/**
 The server as the objects the handlers work on: clients whose fields are assigned, the list
 of clients that is scanned by loops, the account map with its two copies. Every method is one
 section under the clients mutex and is proved against its function in ServerSpec.
 */
module Server {
  import opened Wrappers
  import opened Bytes
  import opened Accounts
  import opened Directory
  import opened Answers
  import opened Profile
  import opened ServerSpec
  import UserList

  function HearInSome(c: Session, i: Id, p: Packet, sender: Option<Id>, room: Option<bytes>): Session
  {
    match room
    case None => Hear(c, i, p, sender)
    case Some(r) => HearIn(c, i, p, sender, r)
  }

  class Client {
    const id: Id
    var name: bytes
    var room: bytes
    var key: bytes
    var authed: bool
    var activated: bool
    var attempts: nat
    var out: seq<Packet>

    ghost function View(): Session
      reads this
    {
      Session(name, room, key, authed, activated, attempts, out)
    }

    constructor (id: Id, name: bytes)
      ensures this.id == id && View() == NEW_SESSION(name)
    {
      this.id := id;
      this.name, room, key := name, MAIN, [];
      authed, activated, attempts, out := false, false, 0, [];
    }

    /** A payload above the limit is an error the callers ignore; anything else is written. */
    method SendFrame(p: Packet)
      modifies this`out
      ensures View() == Post(old(View()), p)
    {
      var size := if p.Frame? then |p.payload| else SealedSize(p.text);
      if size <= MAX_MESSAGE {
        out := out + [p];
      }
    }
  }

  /** The accounts table. `writes` records every value the table has had. */
  class Database {
    var table: map<bytes, Row>
    ghost var writes: seq<map<bytes, Row>>

    constructor (table: map<bytes, Row>)
      ensures this.table == table && writes == [table]
    {
      this.table := table;
      writes := [table];
    }

    method SaveAccount(u: bytes, acc: Account)
      modifies this
      ensures table == old(table)[u := RowOf(acc)]
      ensures writes == old(writes) + [table]
    {
      var flag := 0;
      if acc.hideStatus { flag := 1; }
      table := table[u := Row(acc.salt, acc.hash, acc.alg, acc.memory, acc.time, acc.threads, acc.nick, acc.bio, flag)];
      writes := writes + [table];
    }

    method DeleteAccount(u: bytes)
      modifies this
      ensures table == old(table) - {u}
      ensures writes == old(writes) + [table]
    {
      table := table - {u};
      writes := writes + [table];
    }

    /** Start-up: one INSERT OR IGNORE per account, in whatever order the map is iterated. */
    method Migrate(accounts: map<bytes, Account>)
      modifies this
      ensures table == Rows(accounts) + old(table)
    {
      var todo := accounts.Keys;
      while todo != {}
        invariant todo <= accounts.Keys
        invariant forall u :: u in table <==> u in old(table) || (u in accounts && u !in todo)
        invariant forall u :: u in table ==> table[u] == if u in old(table) then old(table)[u] else RowOf(accounts[u])
        decreases todo
      {
        var u :| u in todo;
        if u !in table {
          table := table[u := RowOf(accounts[u])];
        }
        todo := todo - {u};
      }
      writes := writes + [table];
    }
  }

  class Server {
    var clients: seq<Client>
    var accounts: map<bytes, Account>
    var file: map<bytes, Account>
    var rooms: map<bytes, bytes>
    const db: Database
    ghost var state: Shared

    /** The list of clients carries the connections of the abstract state, in its order. */
    ghost predicate Listed()
      reads this, clients
    {
      && Ordered(state)
      && |clients| == |state.order|
      && (forall k :: 0 <= k < |clients| ==> clients[k].id == state.order[k])
    }

    ghost predicate Valid()
      reads this, clients, db
    {
      && Listed()
      && (forall k :: 0 <= k < |clients| ==> clients[k].View() == state.sessions[state.order[k]])
      && accounts == state.accounts && file == state.file && rooms == state.rooms && db.table == state.table
    }

    /** The server as it starts with an accounts.json that holds `stored`. */
    constructor (stored: map<bytes, Account>, db: Database)
      ensures Valid() && this.db == db && clients == []
      ensures state == Shared([], map[], Loaded(stored), Loaded(stored), db.table, map[])
    {
      clients, accounts, file, rooms := [], Loaded(stored), Loaded(stored), map[];
      this.db := db;
      state := Shared([], map[], Loaded(stored), Loaded(stored), db.table, map[]);
    }

    /** A write to the fields of the client at position `n` is an update at its id. */
    lemma OneClientChanged(s: Shared, n: nat)
      requires Ordered(s) && |clients| == |s.order| && n < |clients|
      requires forall k :: 0 <= k < |clients| ==> clients[k].id == s.order[k]
      requires forall k :: 0 <= k < |clients| && k != n ==> clients[k].View() == s.sessions[s.order[k]]
      requires state.order == s.order && state.sessions == s.sessions[s.order[n] := clients[n].View()]
      ensures Listed()
      ensures forall k :: 0 <= k < |clients| ==> clients[k].View() == state.sessions[state.order[k]]
    {
      forall k | 0 <= k < |clients| ensures clients[k].View() == state.sessions[state.order[k]] {
        assert k != n ==> s.order[k] != s.order[n];
      }
    }

    // -------------------------------------------------------------- writing to connections

    /** The loop of both broadcasts: everybody but `sender`, in one room or (None) in all of them. */
    method WriteToOthers(cs: seq<Client>, p: Packet, sender: Option<Id>, room: Option<bytes>)
      requires forall j, k :: 0 <= j < k < |cs| ==> cs[j] != cs[k]
      modifies cs`out
      ensures forall k :: 0 <= k < |cs| ==> cs[k].View() == HearInSome(old(cs[k].View()), cs[k].id, p, sender, room)
    {
      var n := 0;
      while n < |cs|
        invariant n <= |cs|
        invariant forall k :: 0 <= k < n ==> cs[k].View() == HearInSome(old(cs[k].View()), cs[k].id, p, sender, room)
        invariant forall k :: n <= k < |cs| ==> cs[k].View() == old(cs[k].View())
      {
        if sender != Some(cs[n].id) && (room == None || room == Some(cs[n].room)) {
          cs[n].SendFrame(p);
        }
        n := n + 1;
      }
    }

    lemma ClientsDistinct()
      requires Listed()
      ensures forall j, k :: 0 <= j < k < |clients| ==> clients[j] != clients[k]
    {
      forall j, k | 0 <= j < k < |clients| ensures clients[j] != clients[k] {
        assert clients[j].id == state.order[j] != state.order[k] == clients[k].id;
      }
    }

    method BroadcastFrame(p: Packet, sender: Option<Id>)
      requires Valid()
      modifies this`state, clients`out
      ensures Valid() && state == Broadcast(old(state), p, sender)
    {
      ClientsDistinct();
      WriteToOthers(clients, p, sender, None);
      BroadcastKeepsOrder(state, p, sender);
      state := Broadcast(state, p, sender);
    }

    method BroadcastToRoom(p: Packet, sender: Option<Id>, room: bytes)
      requires Valid()
      modifies this`state, clients`out
      ensures Valid() && state == BroadcastRoom(old(state), p, sender, room)
    {
      ClientsDistinct();
      WriteToOthers(clients, p, sender, Some(room));
      BroadcastRoomKeepsOrder(state, p, sender, room);
      state := BroadcastRoom(state, p, sender, room);
    }

    method SendToUsername(p: Packet, sender: Id, target: bytes)
      requires Valid()
      modifies this`state, clients`out
      ensures Valid() && state == SendToName(old(state), p, sender, target)
    {
      var cs, n := clients, 0;
      ghost var s := state;
      while n < |cs|
        invariant n <= |cs|
        invariant forall k :: 0 <= k < |cs| ==> cs[k].View() == s.sessions[s.order[k]]
        invariant Addressee(s.sessions, s.order, 0, sender, target) == Addressee(s.sessions, s.order, n, sender, target)
      {
        if cs[n].id != sender && cs[n].name == target && cs[n].authed {
          cs[n].SendFrame(p);
          state := PostTo(s, s.order[n], p);
          OneClientChanged(s, n);
          return;
        }
        n := n + 1;
      }
    }

    method FindClient(id: Id) returns (c: Client?)
      requires Valid()
      ensures c == null <==> id !in state.sessions
      ensures c != null ==> c in clients && c.id == id && state.sessions[id] == c.View()
    {
      var n := 0;
      while n < |clients|
        invariant n <= |clients|
        invariant forall k :: 0 <= k < n ==> clients[k].id != id
      {
        if clients[n].id == id { return clients[n]; }
        n := n + 1;
      }
      assert id !in state.order;
      c := null;
    }

    /** The M and F branches of the frame loop. */
    method Relay(sender: Id, kind: byte, payload: bytes)
      requires Valid() && sender in state.sessions
      modifies this`state, clients`out
      ensures Valid() && state == RelayFrame(old(state), sender, kind, payload)
    {
      var self := FindClient(sender);
      var room := MAIN;
      if self != null { room := self.room; }
      if self == null || !self.authed { return; }
      var parts := Split(payload, NUL);
      if |parts| >= 3 && |parts[1]| > 0 {
        SendToUsername(Frame(kind, payload), sender, Trim(parts[1]));
      } else {
        BroadcastToRoom(Frame(kind, payload), Some(sender), room);
      }
    }

    method PubKeysTable() returns (text: bytes)
      requires Valid()
      ensures text == PrintTable(Entries(state.sessions, state.order, 0))
    {
      var parts: seq<Entry>, cs, n := [], clients, 0;
      ghost var s := state;
      while n < |cs|
        invariant n <= |cs|
        invariant Entries(s.sessions, s.order, 0) == parts + Entries(s.sessions, s.order, n)
      {
        EntryNext(s, n, parts);
        if cs[n].authed && cs[n].key != [] {
          parts := parts + [Entry(cs[n].name, cs[n].key)];
        }
        n := n + 1;
      }
      assert parts == parts + Entries(s.sessions, s.order, n);
      text := Join(PrintEntries(parts), SEMICOLON);
    }

    lemma RoomEntryNext(s: Shared, n: nat, room: bytes, parts: seq<Entry>)
      requires n < |s.order| && Lists(s.sessions, s.order)
      ensures var c, rest := s.sessions[s.order[n]], RoomEntries(s.sessions, s.order, n + 1, room);
        parts + RoomEntries(s.sessions, s.order, n, room)
        == if c.room == room && c.authed && c.key != [] then (parts + [Entry(c.name, c.key)]) + rest else parts + rest
    {
    }

    lemma EntryNext(s: Shared, n: nat, parts: seq<Entry>)
      requires n < |s.order| && Lists(s.sessions, s.order)
      ensures var c, rest := s.sessions[s.order[n]], Entries(s.sessions, s.order, n + 1);
        parts + Entries(s.sessions, s.order, n)
        == if c.authed && c.key != [] then (parts + [Entry(c.name, c.key)]) + rest else parts + rest
    {
    }

    lemma UserNext(s: Shared, n: nat, parts: seq<UserList.User>)
      requires n < |s.order| && Lists(s.sessions, s.order)
      ensures var c, rest := s.sessions[s.order[n]], UserList.Users(s, n + 1);
        parts + UserList.Users(s, n)
        == if c.authed then (parts + [UserList.Listing(s.accounts, c.name)]) + rest else parts + rest
    {
    }

    /** The answer to "/roommembers" for a client in `room`. */
    method RoomMembers(room: bytes) returns (text: bytes)
      requires Valid()
      ensures text == AnswerText(Members, RoomEntries(state.sessions, state.order, 0, room))
    {
      var parts: seq<Entry>, cs, n := [], clients, 0;
      ghost var s := state;
      while n < |cs|
        invariant n <= |cs|
        invariant RoomEntries(s.sessions, s.order, 0, room) == parts + RoomEntries(s.sessions, s.order, n, room)
      {
        RoomEntryNext(s, n, room, parts);
        if cs[n].room == room && cs[n].authed && cs[n].key != [] {
          parts := parts + [Entry(cs[n].name, cs[n].key)];
        }
        n := n + 1;
      }
      assert parts == parts + RoomEntries(s.sessions, s.order, n, room);
      text := TAG_RESPONSE + Join(PrintEntries(parts), SEMICOLON);
    }

    /** The answer to "/pubkey", or the refusal. */
    method PubKey(raw: bytes) returns (text: bytes)
      requires Valid()
      ensures text == AnswerText(KeyOf(raw), KeyEntry(raw, FirstKey(state.sessions, state.order, 0, Trim(raw))))
    {
      var name := Trim(raw);
      var pub: bytes, cs, n := [], clients, 0;
      ghost var s := state;
      while n < |cs| && pub == []
        invariant n <= |cs|
        invariant if pub == [] then FirstKey(s.sessions, s.order, 0, name) == FirstKey(s.sessions, s.order, n, name)
                  else FirstKey(s.sessions, s.order, 0, name) == Some(pub)
      {
        if cs[n].name == name && cs[n].authed && cs[n].key != [] {
          pub := cs[n].key;
        }
        n := n + 1;
      }
      if pub == [] { pub := ERR; }
      text := TAG_RESPONSE + pub;
    }

    method ListUser(name: bytes) returns (user: UserList.User)
      ensures user == UserList.Listing(accounts, name)
    {
      var ok := name in accounts;
      var nick := StripAt(name);
      if ok && accounts[name].nick != [] {
        nick := accounts[name].nick;
      }
      var shown := true;
      if ok && accounts[name].hideStatus {
        shown := false;
      }
      user := UserList.User(name, nick, shown);
    }

    /** The reply to "/users". */
    method Users() returns (text: bytes)
      requires Valid()
      ensures text == UserList.UsersText(UserList.Users(state, 0))
    {
      var parts: seq<UserList.User>, cs, n := [], clients, 0;
      while n < |cs|
        invariant n <= |cs|
        invariant UserList.Users(state, 0) == parts + UserList.Users(state, n)
      {
        UserNext(state, n, parts);
        if cs[n].authed {
          var user := ListUser(cs[n].name);
          parts := parts + [user];
        }
        n := n + 1;
      }
      assert parts == parts + UserList.Users(state, n);
      text := UserList.UsersText(parts);
    }

    // -------------------------------------------------------------- the client list

    method NameBusy(name: bytes) returns (taken: bool)
      requires Valid()
      ensures taken <==> NameInUse(state, name)
    {
      taken := false;
      var n := 0;
      while n < |clients|
        invariant n <= |clients|
        invariant forall k :: 0 <= k < n ==> clients[k].name != name
      {
        if clients[n].name == name {
          assert state.sessions[clients[n].id].name == name;
          return true;
        }
        n := n + 1;
      }
      forall i | i in state.sessions ensures state.sessions[i].name != name {
        assert i in state.order;
      }
    }

    method Connect(id: Id, name: bytes) returns (ok: bool)
      requires Valid() && id !in state.sessions
      modifies this`clients, this`state
      ensures Valid()
      ensures ok == ServerSpec.Connect(old(state), id, name).Some?
      ensures state == if ok then ServerSpec.Connect(old(state), id, name).value else old(state)
    {
      var taken := NameBusy(name);
      if !taken {
        AppendClient(id, name);
      }
      ok := !taken;
    }

    method AppendClient(id: Id, name: bytes)
      requires Valid() && id !in state.sessions && !NameInUse(state, name)
      modifies this`clients, this`state
      ensures Valid() && state == ServerSpec.Connect(old(state), id, name).value
    {
      var c := new Client(id, name);
      ghost var s, t := state, ServerSpec.Connect(state, id, name).value;
      ConnectKeepsOrder(s, id, name);
      AppendedSessions(s, id, name);
      clients := clients + [c];
      state := t;
    }

    /** The new client comes last, the others are as they were. */
    lemma AppendedSessions(s: Shared, id: Id, name: bytes)
      requires Ordered(s) && id !in s.sessions && !NameInUse(s, name)
      ensures var t := ServerSpec.Connect(s, id, name).value;
        && |t.order| == |s.order| + 1 && t.order[|s.order|] == id && t.sessions[id] == NEW_SESSION(name)
        && forall k :: 0 <= k < |s.order| ==>
             t.order[k] == s.order[k] && t.sessions[t.order[k]] == s.sessions[s.order[k]]
    {
    }

    method Disconnect(id: Id)
      requires Valid()
      modifies this`clients, this`state
      ensures Valid() && state == ServerSpec.Disconnect(old(state), id)
    {
      var n := 0;
      while n < |clients|
        invariant n <= |clients| && unchanged(this)
        invariant forall k :: 0 <= k < n ==> state.order[k] != id
      {
        if clients[n].id == id {
          RemoveAt(n);
          return;
        }
        n := n + 1;
      }
      WithoutAt(state.order, id, n);
      assert state.sessions - {id} == state.sessions;
    }

    /** Without the client at position `n`, list and order still go together. */
    ghost predicate Carries(c: Client, id: Id)
      reads this, c
    {
      c.id == id && id in state.sessions && c.View() == state.sessions[id]
    }

    lemma RemovedAligned(n: nat, id: Id)
      requires Valid() && n < |clients| && id == clients[n].id
      ensures |Without(state.order, id)| == |clients| - 1
      ensures forall k :: 0 <= k < |clients| - 1 ==>
        var c := (clients[..n] + clients[n + 1..])[k];
        Carries(c, Without(state.order, id)[k]) && c.id != id
    {
      WithoutAt(state.order, id, n);
      forall k | 0 <= k < |clients| - 1
        ensures var c := (clients[..n] + clients[n + 1..])[k];
          Carries(c, Without(state.order, id)[k]) && c.id != id
      {
        RemovedOne(n, k);
      }
    }

    lemma RemovedOne(n: nat, k: nat)
      requires Valid() && n < |clients| && k < |clients| - 1
      ensures var c := (clients[..n] + clients[n + 1..])[k];
        Carries(c, (state.order[..n] + state.order[n + 1..])[k]) && c.id != clients[n].id
    {
      var j := if k < n then k else k + 1;
      assert (clients[..n] + clients[n + 1..])[k] == clients[j];
      assert (state.order[..n] + state.order[n + 1..])[k] == state.order[j];
      assert clients[j].id == state.order[j] && state.order[j] != state.order[n];
    }

    method RemoveAt(n: nat)
      requires Valid() && n < |clients|
      modifies this`clients, this`state
      ensures Valid() && state == ServerSpec.Disconnect(old(state), old(clients[n].id))
    {
      ghost var s, id := state, clients[n].id;
      RemovedAligned(n, id);
      DisconnectKeepsOrder(s, id);
      clients := clients[..n] + clients[n + 1..];
      state := ServerSpec.Disconnect(s, id);
    }

    // -------------------------------------------------------------- accounts

    /** The three writes every account section makes: the map, accounts.json, the table. */
    method SaveAccount(u: bytes, acc: Account)
      requires Valid()
      modifies this`accounts, this`file, this`state, db
      ensures Valid() && state == Save(old(state), u, acc)
    {
      accounts := accounts[u := acc];
      file := Loaded(accounts);
      db.SaveAccount(u, acc);
      state := Save(state, u, acc);
    }

    method Register(kdf: Kdf, u: bytes, p1: bytes, p2: bytes, salt: bytes) returns (ok: bool)
      requires Valid()
      modifies this`accounts, this`file, this`state, db
      ensures Valid() && ok == ServerSpec.Register(kdf, old(state), u, p1, p2, salt).Some?
      ensures state == if ok then ServerSpec.Register(kdf, old(state), u, p1, p2, salt).value else old(state)
    {
      if u in accounts { return false; }
      if p1 != p2 { return false; }
      var acc := NewArgon2Account(kdf, p1, salt);
      SaveAccount(u, acc.(nick := StripAt(u)));
      ok := true;
    }

    method Upgrade(kdf: Kdf, u: bytes, read: Account, pwd: bytes, salt: bytes)
      requires Valid()
      modifies this`accounts, this`file, this`state, db
      ensures Valid() && state == ServerSpec.Upgrade(kdf, old(state), u, read, pwd, salt)
    {
      var upd := NewArgon2Account(kdf, pwd, salt);
      upd := upd.(nick := read.nick, bio := read.bio, hideStatus := read.hideStatus);
      SaveAccount(u, upd);
    }

    method SetProfile(u: bytes, rest: bytes) returns (ok: bool)
      requires Valid()
      modifies this`accounts, this`file, this`state, db
      ensures Valid() && ok == ServerSpec.SetProfile(old(state), u, ParsePairs(rest)).Some?
      ensures state == if ok then ServerSpec.SetProfile(old(state), u, ParsePairs(rest)).value else old(state)
    {
      var pairs := ParseProfilePairs(rest);
      if pairs == map[] { return false; }
      if u !in accounts { return false; }
      var acc := accounts[u];
      if NICK in pairs {
        var nick := Sanitize(pairs[NICK], MAX_NICK);
        if nick == [] { nick := StripAt(u); }
        acc := acc.(nick := nick);
      }
      if BIO in pairs {
        acc := acc.(bio := Sanitize(pairs[BIO], MAX_BIO));
      }
      if HIDE in pairs && (pairs[HIDE] == ZERO || pairs[HIDE] == ONE) {
        acc := acc.(hideStatus := pairs[HIDE] == ONE);
      }
      SaveAccount(u, acc);
      ok := true;
    }

    method SetPassword(kdf: Kdf, u: bytes, oldPwd: bytes, newPwd: bytes, salt: bytes) returns (ok: bool)
      requires Valid()
      modifies this`accounts, this`file, this`state, db
      ensures Valid() && ok == ServerSpec.SetPassword(kdf, old(state), u, oldPwd, newPwd, salt).Some?
      ensures state == if ok then ServerSpec.SetPassword(kdf, old(state), u, oldPwd, newPwd, salt).value else old(state)
    {
      if |newPwd| < 4 { return false; }
      if u !in accounts { return false; }
      var acc := accounts[u];
      var valid := if Legacy(acc) then VerifyLegacy(kdf, acc, oldPwd) else VerifyArgon2(kdf, acc, oldPwd);
      if !valid { return false; }
      var upd := NewArgon2Account(kdf, newPwd, salt);
      upd := upd.(nick := acc.nick, bio := acc.bio, hideStatus := acc.hideStatus);
      SaveAccount(u, upd);
      ok := true;
    }

    /** A rename writes the table twice, and every value the table takes holds the account. */
    method Rename(id: Id, nu: bytes) returns (ok: bool)
      requires Valid() && id in state.sessions
      modifies this`accounts, this`file, this`state, db, clients`name
      ensures Valid() && ok == ServerSpec.Rename(old(state), id, nu).Some?
      ensures state == if ok then ServerSpec.Rename(old(state), id, nu).value else old(state)
      ensures old(db.writes) <= db.writes
      ensures ok ==> forall k :: |old(db.writes)| <= k < |db.writes| ==>
        nu in db.writes[k] && db.writes[k][nu] == RowOf(old(state.accounts[state.sessions[id].name]))
    {
      var self := FindClient(id);
      var was := self.name;
      if !ValidName(nu) { return false; }
      if nu == was { return false; }
      if nu in accounts { return false; }
      var busy := NameBusy(nu);
      if busy { return false; }
      if was !in accounts { return false; }
      CommitRename(self, was, nu);
      ok := true;
    }

    method CommitRename(self: Client, was: bytes, nu: bytes)
      requires Valid() && self in clients && self.id in state.sessions
      requires state.sessions[self.id] == self.View() && was == self.name
      requires was in state.accounts && nu != was
      modifies this`accounts, this`file, this`state, db, self`name
      ensures Valid() && state == Renamed(old(state), self.id, nu)
      ensures old(db.writes) <= db.writes
      ensures forall k :: |old(db.writes)| <= k < |db.writes| ==>
        nu in db.writes[k] && db.writes[k][nu] == RowOf(old(state.accounts[was]))
    {
      MoveAccount(was, nu);
      RenameClient(self, nu, Renamed(state, self.id, nu));
    }

    /** The writes of a rename to the stores: map, accounts.json, the new row, the old row. */
    method MoveAccount(was: bytes, nu: bytes)
      requires was in accounts && nu != was
      modifies this`accounts, this`file, db
      ensures accounts == RenamedAccounts(old(accounts), was, nu) && file == Loaded(accounts)
      ensures db.table == old(db.table)[nu := RowOf(old(accounts[was]))] - {was}
      ensures old(db.writes) <= db.writes
      ensures forall k :: |old(db.writes)| <= k < |db.writes| ==>
        nu in db.writes[k] && db.writes[k][nu] == RowOf(old(accounts[was]))
    {
      var acc := accounts[was];
      accounts := accounts - {was};
      accounts := accounts[nu := acc];
      file := Loaded(accounts);
      db.SaveAccount(nu, acc);
      db.DeleteAccount(was);
    }

    /** `t` is the abstract state with the client renamed; its accounts are of no concern here. */
    method RenameClient(self: Client, nu: bytes, ghost t: Shared)
      requires Listed() && self in clients
      requires forall k :: 0 <= k < |clients| ==> clients[k].View() == state.sessions[state.order[k]]
      requires t.order == state.order && t.sessions == state.sessions[self.id := self.View().(name := nu)]
      modifies this`state, self`name
      ensures Listed() && state == t
      ensures forall k :: 0 <= k < |clients| ==> clients[k].View() == state.sessions[state.order[k]]
    {
      ghost var s := state;
      ghost var n :| 0 <= n < |clients| && clients[n] == self;
      self.name := nu;
      state := t;
      OneClientChanged(s, n);
    }

    // -------------------------------------------------------------- rooms

    method CreateRoom(room: bytes, guard: bytes) returns (ok: bool)
      requires Valid()
      modifies this`rooms, this`state
      ensures Valid() && ok == ServerSpec.CreateRoom(old(state), room, guard).Some?
      ensures state == if ok then ServerSpec.CreateRoom(old(state), room, guard).value else old(state)
    {
      if room in rooms { return false; }
      rooms := rooms[room := guard];
      state := ServerSpec.CreateRoom(state, room, guard).value;
      ok := true;
    }

    /** The handler moves its own client. */
    method Enter(self: Client, room: bytes)
      requires Valid() && self in clients
      modifies this`state, self`room
      ensures Valid()
      ensures state == old(state).(sessions := old(state).sessions[self.id := old(self.View()).(room := room)])
    {
      ghost var s := state;
      ghost var n :| 0 <= n < |clients| && clients[n] == self;
      self.room := room;
      state := s.(sessions := s.sessions[self.id := self.View()]);
      OneClientChanged(s, n);
    }

    method JoinRoom(kdf: Kdf, id: Id, room: bytes, pwd: bytes) returns (ok: bool)
      requires Valid() && id in state.sessions
      modifies this`state, clients`room
      ensures Valid() && ok == ServerSpec.JoinRoom(kdf, old(state), id, room, pwd).Some?
      ensures state == if ok then ServerSpec.JoinRoom(kdf, old(state), id, room, pwd).value else old(state)
    {
      var self := FindClient(id);
      if room != MAIN {
        if room !in rooms { return false; }
        var guard := rooms[room];
        var okPass := guard == [];
        if !okPass {
          var idx := Find(guard, COLON);
          if idx.Some? {
            okPass := kdf.sha256Hex(guard[..idx.value] + pwd) == guard[idx.value + 1..];
          } else {
            okPass := kdf.sha256Hex(pwd) == guard;
          }
        }
        if !okPass { return false; }
      }
      Enter(self, room);
      ok := true;
    }
  }
}
