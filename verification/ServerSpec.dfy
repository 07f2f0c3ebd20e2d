/**
 The server's shared state as a value, and one function for every section its handlers run
 under the clients mutex. The classes of module Server are proved against these functions;
 module Interleaving composes them into runs.
 */
module ServerSpec {
  import opened Wrappers
  import opened Bytes
  import opened Accounts
  import opened Directory
  import opened Answers
  import opened Profile

  /** The identity of a connection. */
  type Id = nat

  const MAX_MESSAGE := 0x10_0000
  const MAIN: bytes := [0x6D, 0x61, 0x69, 0x6E]

  const TYPE_MESSAGE: byte := 0x4D
  const TYPE_FILE: byte := 0x46

  /** What the server writes to a connection: a sealed server text, the sealed answer to a question
      about keys, or a relayed M or F frame. */
  datatype Packet = Text(text: bytes) | Answer(query: Query, text: bytes) | Frame(kind: byte, payload: bytes)

  /** The frame payload of a text: base64 of nonce (12 bytes), ciphertext and tag (16 bytes). */
  function SealedSize(text: bytes): nat
  {
    4 * ((|text| + 28 + 2) / 3)
  }

  /** Larger frames are refused by the sender and never written. */
  predicate Fits(p: Packet)
  {
    match p
    case Text(text) => SealedSize(text) <= MAX_MESSAGE
    case Answer(_, text) => SealedSize(text) <= MAX_MESSAGE
    case Frame(_, payload) => |payload| <= MAX_MESSAGE
  }

  /** One connected client. `out` is everything written to the connection so far. */
  datatype Session = Session(
    name: bytes, room: bytes, key: bytes, authed: bool, activated: bool, attempts: nat,
    out: seq<Packet>)

  /** `file` is what a start would load from accounts.json. */
  datatype Shared = Shared(
    order: seq<Id>, sessions: map<Id, Session>,
    accounts: map<bytes, Account>, file: map<bytes, Account>, table: map<bytes, Row>,
    rooms: map<bytes, bytes>)

  ghost predicate Lists(sessions: map<Id, Session>, order: seq<Id>)
  {
    forall k :: 0 <= k < |order| ==> order[k] in sessions
  }

  /** `order` lists every connected client once. */
  ghost predicate Ordered(s: Shared)
  {
    && (forall i, j :: 0 <= i < j < |s.order| ==> s.order[i] != s.order[j])
    && Lists(s.sessions, s.order)
    && (forall id :: id in s.sessions ==> id in s.order)
  }

  // ---------------------------------------------------------------- writing to connections

  function Post(c: Session, p: Packet): Session
  {
    if Fits(p) then c.(out := c.out + [p]) else c
  }

  function PostTo(s: Shared, id: Id, p: Packet): Shared
  {
    if id in s.sessions then s.(sessions := s.sessions[id := Post(s.sessions[id], p)]) else s
  }

  /** What a broadcast does to the connection `i`; `None` spares nobody. */
  function Hear(c: Session, i: Id, p: Packet, sender: Option<Id>): Session
  {
    if sender == Some(i) then c else Post(c, p)
  }

  /** To every connection but `sender`. */
  function Broadcast(s: Shared, p: Packet, sender: Option<Id>): Shared
  {
    s.(sessions := map i | i in s.sessions :: Hear(s.sessions[i], i, p, sender))
  }

  function HearIn(c: Session, i: Id, p: Packet, sender: Option<Id>, room: bytes): Session
  {
    if c.room == room then Hear(c, i, p, sender) else c
  }

  /** To every connection in `room` but `sender`, authenticated or not. */
  function BroadcastRoom(s: Shared, p: Packet, sender: Option<Id>, room: bytes): Shared
  {
    s.(sessions := map i | i in s.sessions :: HearIn(s.sessions[i], i, p, sender, room))
  }

  lemma BroadcastKeepsOrder(s: Shared, p: Packet, sender: Option<Id>)
    requires Ordered(s)
    ensures var t := Broadcast(s, p, sender);
      && Ordered(t)
      && forall k | 0 <= k < |t.order| ::
           t.sessions[t.order[k]] == Hear(s.sessions[s.order[k]], s.order[k], p, sender)
  {
  }

  lemma BroadcastRoomKeepsOrder(s: Shared, p: Packet, sender: Option<Id>, room: bytes)
    requires Ordered(s)
    ensures var t := BroadcastRoom(s, p, sender, room);
      && Ordered(t)
      && forall k | 0 <= k < |t.order| ::
           t.sessions[t.order[k]] == HearIn(s.sessions[s.order[k]], s.order[k], p, sender, room)
  {
  }

  /** The first authenticated connection other than `sender`, from position `n`, that holds the name. */
  function Addressee(sessions: map<Id, Session>, order: seq<Id>, n: nat, sender: Id, target: bytes): Option<Id>
    requires n <= |order| && Lists(sessions, order)
    decreases |order| - n
  {
    if n == |order| then None
    else
      var c := order[n];
      if c != sender && sessions[c].name == target && sessions[c].authed then Some(c)
      else Addressee(sessions, order, n + 1, sender, target)
  }

  function SendToName(s: Shared, p: Packet, sender: Id, target: bytes): Shared
    requires Lists(s.sessions, s.order)
  {
    match Addressee(s.sessions, s.order, 0, sender, target)
    case None => s
    case Some(c) => PostTo(s, c, p)
  }

  /** An M or F frame with at least three fields and a non-empty second one names its recipient. */
  function TargetOf(payload: bytes): Option<bytes>
  {
    var parts := Split(payload, NUL);
    if |parts| >= 3 && |parts[1]| > 0 then Some(Trim(parts[1])) else None
  }

  /** What the frame loop does with an M or F frame of `sender`. */
  function RelayFrame(s: Shared, sender: Id, kind: byte, payload: bytes): Shared
    requires sender in s.sessions
    requires Lists(s.sessions, s.order)
  {
    var self := s.sessions[sender];
    if !self.authed then s
    else
      match TargetOf(payload)
      case Some(target) => SendToName(s, Frame(kind, payload), sender, target)
      case None => BroadcastRoom(s, Frame(kind, payload), Some(sender), self.room)
  }

  /** The directory from position `n` of the client list. */
  function Entries(sessions: map<Id, Session>, order: seq<Id>, n: nat): seq<Entry>
    requires n <= |order| && Lists(sessions, order)
    decreases |order| - n
  {
    if n == |order| then []
    else
      var c := sessions[order[n]];
      (if c.authed && c.key != [] then [Entry(c.name, c.key)] else []) + Entries(sessions, order, n + 1)
  }

  // ---------------------------------------------------------------- answers about keys

  /** The entries of a room from position `n` of the client list. */
  function RoomEntries(sessions: map<Id, Session>, order: seq<Id>, n: nat, room: bytes): seq<Entry>
    requires n <= |order| && Lists(sessions, order)
    decreases |order| - n
  {
    if n == |order| then []
    else
      var c := sessions[order[n]];
      (if c.room == room && c.authed && c.key != [] then [Entry(c.name, c.key)] else [])
      + RoomEntries(sessions, order, n + 1, room)
  }

  /** The key of the first authenticated client with a key that holds the name. */
  function FirstKey(sessions: map<Id, Session>, order: seq<Id>, n: nat, name: bytes): Option<bytes>
    requires n <= |order| && Lists(sessions, order)
    decreases |order| - n
  {
    if n == |order| then None
    else
      var c := sessions[order[n]];
      if c.name == name && c.authed && c.key != [] then Some(c.key) else FirstKey(sessions, order, n + 1, name)
  }

  /** A key that reads like a refusal is one. */
  function KeyEntry(name: bytes, key: Option<bytes>): seq<Entry>
  {
    if key == None || key == Some(ERR) then [] else [Entry(name, key.value)]
  }

  /** What the server answers to a question of `id`, before it is printed. */
  function Answered(s: Shared, id: Id, q: Query): seq<Entry>
    requires id in s.sessions && Lists(s.sessions, s.order)
  {
    match q
    case Members => RoomEntries(s.sessions, s.order, 0, s.sessions[id].room)
    case KeyOf(name) => KeyEntry(name, FirstKey(s.sessions, s.order, 0, Trim(name)))
  }

  // ---------------------------------------------------------------- the client list

  predicate NameInUse(s: Shared, name: bytes)
  {
    exists i :: i in s.sessions && s.sessions[i].name == name
  }

  const NEW_SESSION := (name: bytes) => Session(name, MAIN, [], false, false, 0, [])

  function Connect(s: Shared, id: Id, name: bytes): Option<Shared>
  {
    if NameInUse(s, name) then None
    else Some(s.(order := s.order + [id], sessions := s.sessions[id := NEW_SESSION(name)]))
  }

  function Without(order: seq<Id>, id: Id): seq<Id>
  {
    if order == [] then []
    else if order[0] == id then order[1..]
    else [order[0]] + Without(order[1..], id)
  }

  function Disconnect(s: Shared, id: Id): Shared
  {
    s.(order := Without(s.order, id), sessions := s.sessions - {id})
  }

  lemma ConnectKeepsOrder(s: Shared, id: Id, name: bytes)
    requires Ordered(s) && id !in s.sessions
    ensures Connect(s, id, name).Some? ==> Ordered(Connect(s, id, name).value)
  {
    assert forall x :: x in s.order ==> x in s.order + [id];
    assert (s.order + [id])[|s.order|] == id;
  }

  lemma {:induction false} WithoutKeepsOrder(order: seq<Id>, id: Id)
    requires forall i, j :: 0 <= i < j < |order| ==> order[i] != order[j]
    ensures forall i, j :: 0 <= i < j < |Without(order, id)| ==> Without(order, id)[i] != Without(order, id)[j]
    ensures forall k :: 0 <= k < |Without(order, id)| ==> Without(order, id)[k] in order && Without(order, id)[k] != id
    ensures forall x :: x in order && x != id ==> x in Without(order, id)
  {
    if order != [] {
      WithoutKeepsOrder(order[1..], id);
      var rest := Without(order[1..], id);
      if order[0] == id {
        assert id !in order[1..];
      } else {
        assert order[0] !in order[1..];
        assert Without(order, id)[1..] == rest;
      }
    }
  }

  lemma DisconnectKeepsOrder(s: Shared, id: Id)
    requires Ordered(s)
    ensures Ordered(Disconnect(s, id))
  {
    WithoutKeepsOrder(s.order, id);
    var t := Disconnect(s, id);
    forall k | 0 <= k < |t.order| ensures t.order[k] in t.sessions {
      var x := t.order[k];
      assert x in s.order && x != id;
    }
  }

  lemma {:induction false} WithoutAt(order: seq<Id>, id: Id, n: nat)
    requires n <= |order| && forall k :: 0 <= k < n ==> order[k] != id
    requires n < |order| ==> order[n] == id
    ensures Without(order, id) == if n < |order| then order[..n] + order[n + 1..] else order
  {
    if order != [] && n > 0 {
      WithoutAt(order[1..], id, n - 1);
    }
  }

  // ---------------------------------------------------------------- accounts

  /** Map, file and table are written one after the other inside the section. */
  function Save(s: Shared, u: bytes, acc: Account): Shared
  {
    var accounts := s.accounts[u := acc];
    s.(accounts := accounts, file := Loaded(accounts), table := s.table[u := RowOf(acc)])
  }

  function Register(kdf: Kdf, s: Shared, u: bytes, p1: bytes, p2: bytes, salt: bytes): Option<Shared>
  {
    if u in s.accounts || p1 != p2 then None
    else Some(Save(s, u, NewAccount(kdf, u, p1, salt)))
  }

  /** The profile after the pairs `nick`, `bio` and `hide` have been applied. */
  function Edited(u: bytes, acc: Account, pairs: map<bytes, bytes>): Account
  {
    var a := if NICK !in pairs then acc else
      var nick := Sanitize(pairs[NICK], MAX_NICK);
      acc.(nick := if nick == [] then StripAt(u) else nick);
    var b := if BIO !in pairs then a else a.(bio := Sanitize(pairs[BIO], MAX_BIO));
    if HIDE in pairs && (pairs[HIDE] == ZERO || pairs[HIDE] == ONE) then b.(hideStatus := pairs[HIDE] == ONE) else b
  }

  function SetProfile(s: Shared, u: bytes, pairs: map<bytes, bytes>): Option<Shared>
  {
    if pairs == map[] || u !in s.accounts then None
    else Some(Save(s, u, Edited(u, s.accounts[u], pairs)))
  }

  function SetPassword(kdf: Kdf, s: Shared, u: bytes, oldPwd: bytes, newPwd: bytes, salt: bytes): Option<Shared>
  {
    if |newPwd| < 4 || u !in s.accounts || !Verify(kdf, s.accounts[u], oldPwd) then None
    else Some(Save(s, u, Rekey(kdf, s.accounts[u], newPwd, salt)))
  }

  /** The second section of a login with a legacy account: `read` is what the first section saw. */
  function Upgrade(kdf: Kdf, s: Shared, u: bytes, read: Account, pwd: bytes, salt: bytes): Shared
  {
    Save(s, u, Rekey(kdf, read, pwd, salt))
  }

  predicate RenameAllowed(s: Shared, was: bytes, nu: bytes)
  {
    ValidName(nu) && nu != was && nu !in s.accounts && !NameInUse(s, nu) && was in s.accounts
  }

  function RenamedAccounts(accounts: map<bytes, Account>, was: bytes, nu: bytes): map<bytes, Account>
    requires was in accounts
  {
    (accounts - {was})[nu := accounts[was]]
  }

  /** The state after a rename's writes. */
  function Renamed(s: Shared, id: Id, nu: bytes): Shared
    requires id in s.sessions && s.sessions[id].name in s.accounts
  {
    var was := s.sessions[id].name;
    var accounts := RenamedAccounts(s.accounts, was, nu);
    s.(accounts := accounts, file := Loaded(accounts),
       table := s.table[nu := RowOf(s.accounts[was])] - {was},
       sessions := s.sessions[id := s.sessions[id].(name := nu)])
  }

  function Rename(s: Shared, id: Id, nu: bytes): Option<Shared>
    requires id in s.sessions
  {
    if RenameAllowed(s, s.sessions[id].name, nu) then Some(Renamed(s, id, nu)) else None
  }

  // ---------------------------------------------------------------- start-up

  /** Every account missing from the table is inserted, existing rows are left alone. */
  function Migrated(accounts: map<bytes, Account>, table: map<bytes, Row>): map<bytes, Row>
  {
    Rows(accounts) + table
  }

  /** A start from an accounts.json that loads to `accounts`: nobody is connected, no room exists. */
  function Started(accounts: map<bytes, Account>, table: map<bytes, Row>): Shared
  {
    Shared([], map[], accounts, accounts, Migrated(accounts, table), map[])
  }

  // ---------------------------------------------------------------- rooms

  /** `guard` is empty for an open room, else salt, ':' and hash. */
  function CreateRoom(s: Shared, room: bytes, guard: bytes): Option<Shared>
  {
    if room in s.rooms then None else Some(s.(rooms := s.rooms[room := guard]))
  }

  predicate RoomOpens(kdf: Kdf, guard: bytes, pwd: bytes)
  {
    guard == [] ||
    match Find(guard, COLON)
    case Some(i) => kdf.sha256Hex(guard[..i] + pwd) == guard[i + 1..]
    case None => kdf.sha256Hex(pwd) == guard
  }

  function JoinRoom(kdf: Kdf, s: Shared, id: Id, room: bytes, pwd: bytes): Option<Shared>
    requires id in s.sessions
  {
    if room == MAIN || (room in s.rooms && RoomOpens(kdf, s.rooms[room], pwd))
    then Some(s.(sessions := s.sessions[id := s.sessions[id].(room := room)]))
    else None
  }
}
