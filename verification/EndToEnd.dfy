/**
 From one user's text to another user's screen: encryption, the NUL-separated payload, the
 frame, the server's routing, the recipient's parser. The cryptographic functions are
 parameters of which only their inverse and agreement laws are used.
 */
module EndToEnd {
  import opened Wrappers
  import opened Bytes
  import opened Utf8
  import opened Base64
  import opened Accounts
  import opened Directory
  import opened ServerSpec
  import opened Interleaving
  import opened SessionSafety
  import opened KeyDirectory
  import opened DirectorySize
  import Profile
  import RelayRules

  const NONCE_SIZE := 12
  const TAG_SIZE := 16
  const MAX_FILE := 400_000

  /** "__REACTION__:" */
  const REACTION: bytes := [0x5F, 0x5F, 0x52, 0x45, 0x41, 0x43, 0x54, 0x49, 0x4F, 0x4E, 0x5F, 0x5F, 0x3A]

  // ---------------------------------------------------------------- cryptography

  /** Public keys, the hashed Diffie-Hellman secret, and AES-GCM on (key, nonce, text, aad). */
  datatype Crypto = Crypto(
    publicOf: bytes -> bytes,
    derive: (bytes, bytes) -> bytes,
    seal: (bytes, bytes, bytes, bytes) -> bytes,
    open: (bytes, bytes, bytes, bytes) -> Option<bytes>)

  /** Section 6.1 of RFC 7748: both sides derive the same secret. Section 7 of NIST SP 800-38D:
      decryption inverts encryption under the same key, nonce and additional data. */
  ghost predicate Lawful(c: Crypto)
  {
    && (forall s :: |c.publicOf(s)| == 32)
    && (forall a, b :: c.derive(a, c.publicOf(b)) == c.derive(b, c.publicOf(a)))
    && (forall k, n, m, aad :: |c.seal(k, n, m, aad)| == |m| + TAG_SIZE)
    && (forall k, n, m, aad :: c.open(k, n, c.seal(k, n, m, aad), aad) == Some(m))
  }

  function PublicText(c: Crypto, secret: bytes): bytes
  {
    Encode(c.publicOf(secret))
  }

  /** Nonce, then ciphertext with tag, in base64. */
  function GcmEncrypt(c: Crypto, key: bytes, nonce: bytes, text: bytes, aad: bytes): bytes
  {
    Encode(nonce + c.seal(key, nonce, text, aad))
  }

  /** What is decrypted must be UTF-8 to become a string. */
  function GcmDecrypt(c: Crypto, key: bytes, encoded: bytes, aad: bytes): Option<bytes>
  {
    match Decode(encoded, true)
    case None => None
    case Some(data) =>
      if |data| < NONCE_SIZE + TAG_SIZE then None
      else
        var text := c.open(key, data[..NONCE_SIZE], data[NONCE_SIZE..], aad);
        if text.Some? && ValidUtf8(text.value) then text else None
  }

  function PeerKey(encoded: bytes): Option<bytes>
  {
    match Decode(encoded, true)
    case Some(key) => if |key| == 32 then Some(key) else None
    case None => None
  }

  function EncryptToPeer(c: Crypto, text: bytes, peer: bytes, self: bytes, our: bytes, nonce: bytes): Option<bytes>
  {
    match PeerKey(peer)
    case None => None
    case Some(key) => Some(GcmEncrypt(c, c.derive(our, key), nonce, text, self))
  }

  function DecryptFromPeer(c: Crypto, encoded: bytes, sender: bytes, our: bytes): Option<bytes>
  {
    match PeerKey(sender)
    case None => None
    case Some(key) => GcmDecrypt(c, c.derive(our, key), encoded, sender)
  }

  /** What the recipient decrypts is what the sender encrypted, if and only if it is text; bytes that are
      not are refused. And the ciphertext's size. */
  lemma DecryptInvertsEncrypt(c: Crypto, text: bytes, alice: bytes, bob: bytes, nonce: bytes)
    requires Lawful(c) && |nonce| == NONCE_SIZE
    ensures var ct := EncryptToPeer(c, text, PublicText(c, bob), PublicText(c, alice), alice, nonce);
      && ct.Some?
      && DecryptFromPeer(c, ct.value, PublicText(c, alice), bob) == (if ValidUtf8(text) then Some(text) else None)
      && |ct.value| == 4 * ((|text| + NONCE_SIZE + TAG_SIZE + 2) / 3)
      && NUL !in ct.value
      && Decode(ct.value, true)
         == Some(nonce + c.seal(c.derive(alice, c.publicOf(bob)), nonce, text, PublicText(c, alice)))
  {
    RoundTrip(c.publicOf(alice), true);
    RoundTrip(c.publicOf(bob), true);
    var key := c.derive(alice, c.publicOf(bob));
    assert key == c.derive(bob, c.publicOf(alice));
    var sealed := c.seal(key, nonce, text, PublicText(c, alice));
    var data := nonce + sealed;
    RoundTrip(data, true);
    EncodedSize(data);
    EncodedAlphabet(data);
    assert data[..NONCE_SIZE] == nonce && data[NONCE_SIZE..] == sealed;
  }

  // ---------------------------------------------------------------- payloads

  /** Sender, recipient, ciphertext, and for a room message the room. */
  function MessagePayload(user: bytes, target: bytes, ct: bytes, room: Option<bytes>): bytes
  {
    Join([user, target, ct] + if room.Some? then [room.value] else [], NUL)
  }

  function FilePayload(user: bytes, target: bytes, name: bytes, ct: bytes, room: Option<bytes>): bytes
  {
    Join([user, target, name, ct] + if room.Some? then [room.value] else [], NUL)
  }

  lemma CutAtNul(payload: bytes, start: nat, i: nat)
    requires start <= i < |payload| && payload[i] == NUL && NUL !in payload[start..i]
    ensures Split(payload[start..], NUL) == [payload[start..i]] + Split(payload[i + 1..], NUL)
  {
    assert payload[start..] == payload[start..i] + [NUL] + payload[i + 1..];
    SplitFirst(payload[start..i], NUL, payload[i + 1..]);
  }

  lemma StillFree(payload: bytes, start: nat, i: nat)
    requires start <= i < |payload| && payload[i] != NUL && NUL !in payload[start..i]
    ensures NUL !in payload[start..i + 1]
  {
    assert payload[start..i + 1] == payload[start..i] + [payload[i]];
  }

  /** The Go client's splitter: a scan that cuts at every NUL. */
  method SplitZero(payload: bytes) returns (parts: seq<bytes>)
    ensures parts == Split(payload, NUL)
  {
    parts := [];
    var start, i := 0, 0;
    assert payload[0..] == payload;
    while i < |payload|
      invariant 0 <= start <= i <= |payload|
      invariant NUL !in payload[start..i]
      invariant Split(payload, NUL) == parts + Split(payload[start..], NUL)
    {
      if payload[i] == NUL {
        CutAtNul(payload, start, i);
        parts := parts + [payload[start..i]];
        start := i + 1;
      } else {
        StillFree(payload, start, i);
      }
      i := i + 1;
    }
    assert payload[start..] == payload[start..i];
    SplitWhole(payload[start..], NUL);
    parts := parts + [payload[start..]];
  }

  // ---------------------------------------------------------------- the recipient

  datatype Event =
    | Ignored
    | UnknownKey(from: bytes)
    | Undecryptable(from: bytes)
    | Msg(from: bytes, text: bytes, room: Option<bytes>)
    | Reaction(emoji: bytes, target: bytes, room: Option<bytes>)

  function RoomField(parts: seq<bytes>, n: nat): Option<bytes>
  {
    if |parts| <= n then None
    else
      var r := Trim(Lossy(parts[n]));
      if r == [] then None else Some(r)
  }

  /** A decrypted text is a reaction when it starts with the marker, else a message. */
  function Classify(from: bytes, text: bytes, room: Option<bytes>): Event
  {
    if REACTION <= text then
      var rest := text[|REACTION|..];
      match Find(rest, COLON)
      case Some(i) => Reaction(rest[..i], rest[i + 1..], room)
      case None => Ignored
    else Msg(from, text, room)
  }

  function HandleMessage(c: Crypto, known: Known, our: bytes, payload: bytes): Event
  {
    var parts := Split(payload, NUL);
    if |parts| < 3 then Ignored
    else
      var sender, ct := Lossy(parts[0]), Lossy(parts[2]);
      if sender !in known then UnknownKey(sender)
      else
        match DecryptFromPeer(c, ct, known[sender], our)
        case None => Undecryptable(sender)
        case Some(plain) => Classify(sender, TrimRight(plain), RoomField(parts, 3))
  }

  const SLASH: byte := 0x2F
  const BACKSLASH: byte := 0x5C
  const DOT: bytes := [0x2E]
  const DOTS: bytes := [0x2E, 0x2E]

  /** The last component of a Unix path other than "." (none: the empty string). */
  function LastComponent(parts: seq<bytes>): bytes
  {
    if parts == [] then []
    else if parts[|parts| - 1] == [] || parts[|parts| - 1] == DOT then LastComponent(parts[..|parts| - 1])
    else parts[|parts| - 1]
  }

  /** The name under which a received file is saved, or nothing. */
  function SafeFileName(raw: bytes): bytes
  {
    var file := LastComponent(Split(Trim(raw), SLASH));
    var name := if file == DOTS then [] else Trim(file);
    if name == DOT || name == DOTS || SLASH in name || BACKSLASH in name then [] else name
  }

  /** A received file: the name it is saved under and its bytes. */
  function HandleFile(c: Crypto, known: Known, our: bytes, payload: bytes): Option<(bytes, bytes)>
  {
    var parts := Split(payload, NUL);
    if |parts| < 4 || Lossy(parts[0]) !in known then None
    else
      match DecryptFromPeer(c, Lossy(parts[3]), known[Lossy(parts[0])], our)
      case None => None
      case Some(b64) =>
        var raw, name := Decode(Trim(b64), true), SafeFileName(Lossy(parts[2]));
        if raw.None? || name == [] then None else Some((name, raw.value))
  }

  predicate NulFree(room: Option<bytes>)
  {
    room.Some? ==> NUL !in room.value
  }

  /** The room the recipient sees: as text, trimmed, and none when nothing is left. */
  function RoomSeen(room: Option<bytes>): Option<bytes>
  {
    if room.None? || Trim(Lossy(room.value)) == [] then None else Some(Trim(Lossy(room.value)))
  }

  /** The room arrives unchanged exactly when it is text with nothing to trim, and not empty. */
  lemma SameRoom(room: Option<bytes>)
    ensures RoomSeen(room) == room <==>
      room.Some? ==> room.value != [] && ValidUtf8(room.value) && Trim(room.value) == room.value
  {
    if room.Some? {
      var r := room.value;
      LossyIsValid(r);
      TrimIsValid(Lossy(r));
      if ValidUtf8(r) { LossyFixesValid(r); }
    }
  }

  lemma NameIsSame(user: bytes)
    requires ValidName(user)
    ensures Lossy(user) == user
  {
    AsciiIsValid(user);
    LossyFixesValid(user);
  }

  lemma Base64IsText(data: bytes)
    ensures ValidUtf8(Encode(data)) && Lossy(Encode(data)) == Encode(data)
  {
    var b64 := Encode(data);
    EncodedAlphabet(data);
    forall i | 0 <= i < |b64| ensures b64[i] < 0x80 {
      assert b64[i] in b64;
    }
    AsciiIsValid(b64);
    LossyFixesValid(b64);
  }

  lemma MessageParts(user: bytes, target: bytes, ct: bytes, room: Option<bytes>)
    requires ValidName(user) && ValidName(target) && NUL !in ct && NulFree(room)
    ensures var payload := MessagePayload(user, target, ct, room);
      && Split(payload, NUL) == [user, target, ct] + (if room.Some? then [room.value] else [])
      && TargetOf(payload) == Some(target)
      && RoomField(Split(payload, NUL), 3) == RoomSeen(room)
  {
    ValidNameIsPlain(user);
    ValidNameIsPlain(target);
    SplitInvertsJoin([user, target, ct] + if room.Some? then [room.value] else [], NUL);
  }

  /** The recipient who knows the sender's key gets the sender's name, the text without trailing white
      space and the same room, if and only if the text is UTF-8 and does not start with the reaction
      marker and the room, if there is one, is text, has nothing to trim and is not empty. */
  lemma MessageArrives(c: Crypto, known: Known, user: bytes, target: bytes, text: bytes, alice: bytes, bob: bytes,
                       nonce: bytes, room: Option<bytes>)
    requires Lawful(c) && |nonce| == NONCE_SIZE && ValidName(user) && ValidName(target) && NulFree(room)
    requires user in known && known[user] == PublicText(c, alice)
    ensures var ct := EncryptToPeer(c, text, PublicText(c, bob), PublicText(c, alice), alice, nonce);
      && ct.Some?
      && var seen := HandleMessage(c, known, bob, MessagePayload(user, target, ct.value, room));
         && seen == (if ValidUtf8(text) then Classify(user, TrimRight(text), RoomSeen(room)) else Undecryptable(user))
         && (seen == Msg(user, TrimRight(text), room) <==>
               && ValidUtf8(text) && !(REACTION <= TrimRight(text))
               && (room.Some? ==> room.value != [] && ValidUtf8(room.value) && Trim(room.value) == room.value))
  {
    DecryptInvertsEncrypt(c, text, alice, bob, nonce);
    CiphertextIsText(c, text, alice, bob, nonce);
    var ct := EncryptToPeer(c, text, PublicText(c, bob), PublicText(c, alice), alice, nonce).value;
    MessageParts(user, target, ct, room);
    NameIsSame(user);
    SameRoom(room);
  }

  lemma CiphertextIsText(c: Crypto, text: bytes, alice: bytes, bob: bytes, nonce: bytes)
    requires Lawful(c) && |nonce| == NONCE_SIZE
    ensures var ct := EncryptToPeer(c, text, PublicText(c, bob), PublicText(c, alice), alice, nonce);
      ct.Some? && Lossy(ct.value) == ct.value
  {
    RoundTrip(c.publicOf(bob), true);
    Base64IsText(nonce + c.seal(c.derive(alice, c.publicOf(bob)), nonce, text, PublicText(c, alice)));
  }

  // ---------------------------------------------------------------- reactions and refusals

  /** What a client sends to react: marker, emoji, ':' and the message that is meant. */
  function ReactionText(emoji: bytes, target: bytes): bytes
  {
    REACTION + emoji + [COLON] + target
  }

  lemma {:induction false} TrimRightBehind(a: bytes, v: byte, b: bytes)
    requires Visible(v)
    ensures TrimRight(a + [v] + b) == a + [v] + TrimRight(b)
    decreases |b|
  {
    var s := a + [v] + b;
    if b == [] {
      VisibleLast(a, v);
      assert s == a + [v] && a + [v] + TrimRight([]) == s;
    } else {
      SpaceEndAfter(a, v, b);
      var n := SpaceEnd(b);
      if n > 0 {
        assert s[..|s| - n] == a + [v] + b[..|b| - n];
        TrimRightBehind(a, v, b[..|b| - n]);
      }
    }
  }

  lemma VisibleLast(a: bytes, v: byte)
    requires Visible(v)
    ensures SpaceEnd(a + [v]) == 0
  {
    assert (a + [v])[|a|] == v;
  }

  /** The emoji ends at the first ':' behind the marker; what follows is the message that is meant. */
  lemma ReactionIsRead(from: bytes, emoji: bytes, target: bytes, room: Option<bytes>)
    requires COLON !in emoji
    ensures Classify(from, TrimRight(ReactionText(emoji, target)), room) == Reaction(emoji, TrimRight(target), room)
  {
    TrimRightBehind(REACTION + emoji, COLON, target);
    var text, rest := TrimRight(ReactionText(emoji, target)), emoji + [COLON] + TrimRight(target);
    assert text == REACTION + rest;
    FindFirst(emoji, COLON, TrimRight(target));
    assert rest[..|emoji|] == emoji && rest[|emoji| + 1..] == TrimRight(target);
  }

  /** A reaction arrives as the reaction that was sent, but for white space at the end of the message meant. */
  lemma ReactionArrives(c: Crypto, known: Known, user: bytes, target: bytes, emoji: bytes, meant: bytes,
                        alice: bytes, bob: bytes, nonce: bytes, room: Option<bytes>)
    requires Lawful(c) && |nonce| == NONCE_SIZE && ValidName(user) && ValidName(target) && NulFree(room)
    requires user in known && known[user] == PublicText(c, alice)
    requires COLON !in emoji && ValidUtf8(ReactionText(emoji, meant))
    ensures var text := ReactionText(emoji, meant);
      var ct := EncryptToPeer(c, text, PublicText(c, bob), PublicText(c, alice), alice, nonce);
      && ct.Some?
      && HandleMessage(c, known, bob, MessagePayload(user, target, ct.value, room))
         == Reaction(emoji, TrimRight(meant), RoomSeen(room))
  {
    MessageArrives(c, known, user, target, ReactionText(emoji, meant), alice, bob, nonce, room);
    ReactionIsRead(user, emoji, meant, RoomSeen(room));
  }

  /** A message from a sender whose key is not known is not read; one that does not decrypt with the key that
      is known is reported, with the name under which it came. */
  lemma UnreadableMessage(c: Crypto, known: Known, our: bytes, user: bytes, target: bytes, ct: bytes,
                          room: Option<bytes>)
    requires ValidName(user) && ValidName(target) && NUL !in ct && NulFree(room)
    ensures user !in known ==> HandleMessage(c, known, our, MessagePayload(user, target, ct, room)) == UnknownKey(user)
    ensures user in known && DecryptFromPeer(c, Lossy(ct), known[user], our) == None ==>
      HandleMessage(c, known, our, MessagePayload(user, target, ct, room)) == Undecryptable(user)
  {
    MessageParts(user, target, ct, room);
    NameIsSame(user);
  }

  // ---------------------------------------------------------------- files

  /** What the sender makes of the path of a file: what follows the last slash of either kind. */
  function SentName(path: bytes): (name: bytes)
    ensures SLASH !in name && BACKSLASH !in name
  {
    if path == [] then []
    else
      var last := path[|path| - 1];
      if last == SLASH || last == BACKSLASH then [] else SentName(path[..|path| - 1]) + [last]
  }

  /** A name without slashes is safe as it is, trimmed, unless it is empty or one or two dots. */
  lemma SentNameIsSafe(name: bytes)
    requires SLASH !in name && BACKSLASH !in name
    ensures SafeFileName(name) == if Trim(name) == DOT || Trim(name) == DOTS then [] else Trim(name)
  {
    var t := Trim(name);
    TrimmedBytes(name);
    SplitWhole(t, SLASH);
    var parts: seq<bytes> := [t];
    assert |parts[..|parts| - 1]| == 0;
    assert t != [] && t != DOT ==> LastComponent([t]) == t;
    TrimTwice(name);
  }

  /** Nothing is left to trim. */
  lemma TrimTwice(s: bytes)
    ensures Trim(Trim(s)) == Trim(s)
  {
    TrimLeftStops(s);
    TrimRightKeepsStart(TrimLeft(s));
    TrimRightStops(TrimLeft(s));
  }

  lemma {:induction false} TrimLeftStops(s: bytes)
    ensures SpaceAt(TrimLeft(s)) == 0
    decreases |s|
  {
    if SpaceAt(s) > 0 { TrimLeftStops(s[SpaceAt(s)..]); }
  }

  lemma {:induction false} TrimRightStops(s: bytes)
    ensures SpaceEnd(TrimRight(s)) == 0
    decreases |s|
  {
    if SpaceEnd(s) > 0 { TrimRightStops(s[..|s| - SpaceEnd(s)]); }
  }

  /** A shorter string starts with white space only if the longer one does. */
  lemma TrimRightKeepsStart(s: bytes)
    requires SpaceAt(s) == 0
    ensures SpaceAt(TrimRight(s)) == 0
  {
    Profile.TrimRightIsPrefix(s);
    var t := TrimRight(s);
    assert t + s[|t|..] == s;
  }

  lemma TrimmedBytes(s: bytes)
    ensures forall c :: c in Trim(s) ==> c in s
  {
    Profile.TrimKeepsBytes(s);
  }

  /** Whatever name comes with a file, what it is saved under has no slash of either kind and is neither of the
      two directories; it may be empty, and then nothing is saved. */
  lemma SafeNameIsSafe(raw: bytes)
    ensures var name := SafeFileName(raw); SLASH !in name && BACKSLASH !in name && name != DOT && name != DOTS
  {
  }

  /** Of a path the last component is kept. */
  lemma LastComponentIsKept(dir: bytes, name: bytes)
    requires SLASH !in name && BACKSLASH !in name && Trimmed(name) && name != [] && name != DOT && name != DOTS
    requires Trim(dir + [SLASH] + name) == dir + [SLASH] + name
    ensures SafeFileName(dir + [SLASH] + name) == name
  {
    var raw := dir + [SLASH] + name;
    SplitLast(dir, name);
    var parts := Split(raw, SLASH);
    assert LastComponent(parts) == name;
  }

  lemma {:induction false} SplitLast(dir: bytes, name: bytes)
    requires SLASH !in name
    ensures var parts := Split(dir + [SLASH] + name, SLASH); |parts| >= 2 && parts[|parts| - 1] == name
    decreases |dir|
  {
    var raw := dir + [SLASH] + name;
    SplitWhole(name, SLASH);
    if dir == [] {
      assert raw[1..] == name;
    } else {
      assert raw[1..] == dir[1..] + [SLASH] + name;
      SplitLast(dir[1..], name);
    }
  }

  lemma {:induction false} PiecesAreText(s: bytes, sep: byte)
    requires ValidUtf8(s) && sep < 0x80
    ensures forall p :: p in Split(s, sep) ==> ValidUtf8(p)
    decreases |s|
  {
    match Find(s, sep)
    case None => SplitWhole(s, sep);
    case Some(i) =>
      var a, b := s[..i], s[i + 1..];
      assert s == a + [sep] + b;
      SplitFirst(a, sep, b);
      ValidAroundAscii(a, sep, b);
      PiecesAreText(b, sep);
  }

  lemma {:induction false} LastComponentIsOne(parts: seq<bytes>)
    ensures LastComponent(parts) == [] || LastComponent(parts) in parts
  {
    if parts != [] && (parts[|parts| - 1] == [] || parts[|parts| - 1] == DOT) {
      LastComponentIsOne(parts[..|parts| - 1]);
    }
  }

  lemma SafeNameIsText(raw: bytes)
    requires ValidUtf8(raw)
    ensures ValidUtf8(SafeFileName(raw))
  {
    TrimIsValid(raw);
    PiecesAreText(Trim(raw), SLASH);
    LastComponentIsOne(Split(Trim(raw), SLASH));
    TrimIsValid(LastComponent(Split(Trim(raw), SLASH)));
  }

  /** Whatever bytes come as a file: if something is saved, its name is text, not empty, in no other directory. */
  lemma SavedNameIsText(c: Crypto, known: Known, our: bytes, payload: bytes)
    ensures var got := HandleFile(c, known, our, payload);
      got.Some? ==>
        var name := got.value.0;
        ValidUtf8(name) && name != [] && SLASH !in name && BACKSLASH !in name && name != DOT && name != DOTS
  {
    var parts := Split(payload, NUL);
    if |parts| >= 4 {
      LossyIsValid(parts[2]);
      SafeNameIsText(Lossy(parts[2]));
      SafeNameIsSafe(Lossy(parts[2]));
    }
  }

  lemma FileParts(user: bytes, target: bytes, name: bytes, ct: bytes, room: Option<bytes>)
    requires ValidName(user) && ValidName(target) && NUL !in name && NUL !in ct && NulFree(room)
    ensures var payload := FilePayload(user, target, name, ct, room);
      && Split(payload, NUL) == [user, target, name, ct] + (if room.Some? then [room.value] else [])
      && TargetOf(payload) == Some(target)
  {
    ValidNameIsPlain(user);
    ValidNameIsPlain(target);
    SplitInvertsJoin([user, target, name, ct] + if room.Some? then [room.value] else [], NUL);
  }

  lemma NothingToTrim(raw: bytes)
    ensures Trim(Encode(raw)) == Encode(raw)
  {
    var b64 := Encode(raw);
    EncodedAlphabet(raw);
    if b64 != [] {
      assert b64[0] in b64 && b64[|b64| - 1] in b64;
      VisibleEnds(b64);
    }
  }

  /** A file arrives byte for byte: base64 inside the ciphertext, and base64 around it. It is saved under
      the name that was sent, trimmed, and refused exactly when that is empty or consists of dots. */
  lemma FileArrives(c: Crypto, known: Known, user: bytes, target: bytes, path: bytes, raw: bytes,
                    alice: bytes, bob: bytes, nonce: bytes, room: Option<bytes>)
    requires Lawful(c) && |nonce| == NONCE_SIZE && ValidName(user) && ValidName(target)
    requires NUL !in SentName(path) && ValidUtf8(SentName(path)) && NulFree(room)
    requires user in known && known[user] == PublicText(c, alice)
    ensures var ct := EncryptToPeer(c, Encode(raw), PublicText(c, bob), PublicText(c, alice), alice, nonce);
      && ct.Some?
      && var payload, name := FilePayload(user, target, SentName(path), ct.value, room), Trim(SentName(path));
         && HandleFile(c, known, bob, payload)
            == (if name == [] || name == DOT || name == DOTS then None else Some((name, raw)))
         && TargetOf(payload) == Some(target)
  {
    var b64 := Encode(raw);
    DecryptInvertsEncrypt(c, b64, alice, bob, nonce);
    CiphertextIsText(c, b64, alice, bob, nonce);
    var ct := EncryptToPeer(c, b64, PublicText(c, bob), PublicText(c, alice), alice, nonce).value;
    FileParts(user, target, SentName(path), ct, room);
    NameIsSame(user);
    LossyFixesValid(SentName(path));
    SentNameIsSafe(SentName(path));
    Base64IsText(raw);
    NothingToTrim(raw);
    RoundTrip(raw, true);
  }

  /** The size of a file's ciphertext: base64, nonce and tag, base64 again. */
  lemma FileCiphertextSize(c: Crypto, raw: bytes, alice: bytes, bob: bytes, nonce: bytes)
    requires Lawful(c) && |nonce| == NONCE_SIZE
    ensures var ct := EncryptToPeer(c, Encode(raw), PublicText(c, bob), PublicText(c, alice), alice, nonce);
      && ct.Some?
      && |ct.value| == 4 * ((4 * ((|raw| + 2) / 3) + 30) / 3)
      && (|raw| <= MAX_FILE ==> |ct.value| <= 711_152)
      && (|raw| == MAX_FILE ==> |ct.value| == 711_152)
  {
    DecryptInvertsEncrypt(c, Encode(raw), alice, bob, nonce);
    EncodedSize(raw);
    TwiceEncoded(|raw|);
  }

  lemma TwiceEncoded(n: nat)
    ensures n <= MAX_FILE ==> 4 * ((4 * ((n + 2) / 3) + 30) / 3) <= 711_152
    ensures n == MAX_FILE ==> 4 * ((4 * ((n + 2) / 3) + 30) / 3) == 711_152
  {
    assert n <= MAX_FILE ==> (n + 2) / 3 <= 133_334;
  }

  /** The largest file's ciphertext has 711152 bytes, so its room frame fits the limit if and only if
      sender, recipient, file name and room have at most 337420 bytes together; a smaller file's
      frame fits at least under that condition. */
  lemma FileFrameFits(c: Crypto, user: bytes, target: bytes, name: bytes, raw: bytes, alice: bytes, bob: bytes,
                      nonce: bytes, room: bytes)
    requires Lawful(c) && |nonce| == NONCE_SIZE && |raw| <= MAX_FILE
    ensures var ct := EncryptToPeer(c, Encode(raw), PublicText(c, bob), PublicText(c, alice), alice, nonce);
      && ct.Some?
      && var fits := |FilePayload(user, target, name, ct.value, Some(room))| <= MAX_MESSAGE;
         && (|user| + |target| + |name| + |room| <= 337_420 ==> fits)
         && (|raw| == MAX_FILE ==> (fits <==> |user| + |target| + |name| + |room| <= 337_420))
  {
    FileCiphertextSize(c, raw, alice, bob, nonce);
    var ct := EncryptToPeer(c, Encode(raw), PublicText(c, bob), PublicText(c, alice), alice, nonce).value;
    JoinedFive(user, target, name, ct, room);
  }

  lemma JoinedSize(first: bytes, rest: seq<bytes>)
    requires rest != []
    ensures |Join([first] + rest, NUL)| == |first| + 1 + |Join(rest, NUL)|
  {
    assert ([first] + rest)[1..] == rest;
  }

  lemma JoinedFive(a: bytes, b: bytes, c: bytes, d: bytes, e: bytes)
    ensures |Join([a, b, c, d] + [e], NUL)| == |a| + |b| + |c| + |d| + |e| + 4
  {
    assert [a, b, c, d] + [e] == [a] + ([b] + ([c] + ([d] + [e])));
    JoinedSize(a, [b] + ([c] + ([d] + [e])));
    JoinedSize(b, [c] + ([d] + [e]));
    JoinedSize(c, [d] + [e]);
    JoinedSize(d, [e]);
  }

  // ---------------------------------------------------------------- through the server

  lemma Base64IsCarriable(data: bytes)
    requires data != []
    ensures CarriableKey(Encode(data)) && |Encode(data)| == 4 * ((|data| + 2) / 3)
  {
    var key := Encode(data);
    EncodedSize(data);
    EncodedAlphabet(data);
    Base64IsText(data);
    EndsAreIn(key);
    VisibleEnds(key);
  }

  lemma EndsAreIn(s: bytes)
    requires s != []
    ensures s[0] in s && s[|s| - 1] in s
  {
  }

  /** A public key in base64 is 44 bytes that the table can carry. */
  lemma PublicTextIsGood(c: Crypto, secret: bytes)
    requires |c.publicOf(secret)| == 32
    ensures |PublicText(c, secret)| == KEY_SIZE && CarriableKey(PublicText(c, secret))
  {
    Base64IsCarriable(c.publicOf(secret));
  }

  lemma PublishedKeysAreGood(c: Crypto, secretOf: bytes -> bytes, pub: Keys)
    requires Lawful(c) && forall n :: pub(n) == PublicText(c, secretOf(n))
    ensures GoodKeys(pub) && ShortKeys(pub)
  {
    forall n | ValidName(n) ensures pub(n) != [] && CarriableKey(pub(n)) && |pub(n)| <= KEY_SIZE {
      PublicTextIsGood(c, secretOf(n));
    }
  }

  /** `a` waits for a frame; both have announced their keys and been told the directory, and nothing of it
      is on its way to `b`. */
  ghost predicate Ready(s: State, a: Id, b: Id)
  {
    && Waits(s, a) && At(s, b) && a != b
    && Announced(s.shared.sessions[a], s.pcs[a])
    && Announced(s.shared.sessions[b], s.pcs[b]) && !Due(s.pcs[b])
  }

  /** `t` is `s` with one more packet written to `b` and nothing written to anyone else. */
  ghost predicate WrittenOnlyTo(s: Shared, t: Shared, b: Id, p: Packet)
  {
    && t.sessions.Keys == s.sessions.Keys
    && forall r :: r in s.sessions ==> t.sessions[r].out == s.sessions[r].out + if r == b then [p] else []
  }

  lemma AddressedDelivery(s: State, a: Id, b: Id, kind: byte, payload: bytes)
    requires Inv(s) && Ready(s, a, b) && |payload| <= MAX_MESSAGE
    requires TargetOf(payload) == Some(s.shared.sessions[b].name)
    ensures WrittenOnlyTo(s.shared, RelayFrame(s.shared, a, kind, payload), b, Frame(kind, payload))
  {
    RelayRules.RelayExact(s.shared, a, kind, payload);
    OnlyAddressed(s, a, b, payload);
  }

  lemma OnlyAddressed(s: State, a: Id, b: Id, payload: bytes)
    requires Inv(s) && Ready(s, a, b) && TargetOf(payload) == Some(s.shared.sessions[b].name)
    ensures forall r :: r in s.shared.sessions ==> (RelayRules.Reaches(s.shared, a, payload, r) <==> r == b)
  {
    assert SessionOk(s.shared, s.shared.sessions[a], s.pcs[a]) && SessionOk(s.shared, s.shared.sessions[b], s.pcs[b]);
    assert RelayRules.Reaches(s.shared, a, payload, b);
    forall r | r in s.shared.sessions && RelayRules.Reaches(s.shared, a, payload, r) ensures r == b {
      RelayRules.AddressedReachesOne(s.shared, a, payload, r, b);
    }
  }

  /** The frame that `a` sends is written to `b` alone, unless it is too large to be sent. */
  ghost predicate Travels(kdf: Kdf, s: State, a: Id, b: Id, kind: byte, payload: bytes)
    requires Ordered(s.shared)
  {
    |payload| <= MAX_MESSAGE ==>
      WrittenOnlyTo(s.shared, Step(kdf, s, Relay(a, kind, payload)).shared, b, Frame(kind, payload))
  }

  lemma RelayStepIs(kdf: Kdf, s: State, a: Id, kind: byte, payload: bytes)
    requires Ordered(s.shared) && Waits(s, a) && Relayed(kind)
    ensures Step(kdf, s, Relay(a, kind, payload)).shared == RelayFrame(s.shared, a, kind, payload)
  {
  }

  lemma AddressedTravels(kdf: Kdf, s: State, a: Id, b: Id, kind: byte, payload: bytes)
    requires Inv(s) && Ready(s, a, b) && Relayed(kind)
    requires TargetOf(payload) == Some(s.shared.sessions[b].name)
    ensures Travels(kdf, s, a, b, kind, payload)
  {
    if |payload| <= MAX_MESSAGE {
      AddressedDelivery(s, a, b, kind, payload);
      RelayStepIs(kdf, s, a, kind, payload);
    }
  }

  /** The payload of the text `x` encrypts for `y`, its reading by `y`, and its recipient. */
  lemma TextPayload(c: Crypto, x: Session, y: Session, known: Known, alice: bytes, bob: bytes,
                    text: bytes, nonce: bytes, room: Option<bytes>)
    requires Lawful(c) && |nonce| == NONCE_SIZE && NulFree(room) && ValidName(x.name) && ValidName(y.name)
    requires ValidUtf8(text)
    requires x.name in known && known[x.name] == PublicText(c, alice)
    ensures var ct := EncryptToPeer(c, text, PublicText(c, bob), PublicText(c, alice), alice, nonce);
      && ct.Some?
      && var payload := MessagePayload(x.name, y.name, ct.value, room);
         && HandleMessage(c, known, bob, payload) == Classify(x.name, TrimRight(text), RoomSeen(room))
         && TargetOf(payload) == Some(y.name)
  {
    MessageArrives(c, known, x.name, y.name, text, alice, bob, nonce, room);
    DecryptInvertsEncrypt(c, text, alice, bob, nonce);
    var ct := EncryptToPeer(c, text, PublicText(c, bob), PublicText(c, alice), alice, nonce).value;
    MessageParts(x.name, y.name, ct, room);
  }

  /** Each of the two knows the other's published key. */
  ghost predicate Acquainted(c: Crypto, s: State, a: Id, b: Id, alice: bytes, bob: bytes)
    requires At(s, a) && At(s, b)
  {
    var x, y := s.shared.sessions[a], s.shared.sessions[b];
    && x.key == PublicText(c, alice) && y.key == PublicText(c, bob)
    && x.name in KnownFrom(y.out) && KnownFrom(y.out)[x.name] == x.key
    && y.name in KnownFrom(x.out) && KnownFrom(x.out)[y.name] == y.key
  }

  lemma TheyHaveNames(s: State, a: Id, b: Id)
    requires Inv(s) && At(s, a) && At(s, b)
    ensures ValidName(s.shared.sessions[a].name) && ValidName(s.shared.sessions[b].name)
  {
    assert SessionOk(s.shared, s.shared.sessions[a], s.pcs[a]) && SessionOk(s.shared, s.shared.sessions[b], s.pcs[b]);
  }

  /** The step that relays the text, given that each of the two knows the other's key. */
  lemma TextArrivesAt(kdf: Kdf, c: Crypto, s: State, a: Id, b: Id, alice: bytes, bob: bytes,
                      text: bytes, nonce: bytes, room: Option<bytes>)
    requires Lawful(c) && |nonce| == NONCE_SIZE && NulFree(room) && ValidUtf8(text)
    requires Inv(s) && Ready(s, a, b) && Acquainted(c, s, a, b, alice, bob)
    ensures Arrives(kdf, c, s, a, b, alice, bob, text, nonce, room)
  {
    var x, y := s.shared.sessions[a], s.shared.sessions[b];
    TheyHaveNames(s, a, b);
    TextPayload(c, x, y, KnownFrom(y.out), alice, bob, text, nonce, room);
    var ct := EncryptToPeer(c, text, PublicText(c, bob), PublicText(c, alice), alice, nonce).value;
    AddressedTravels(kdf, s, a, b, TYPE_MESSAGE, MessagePayload(x.name, y.name, ct, room));
  }

  /** `a` finds the key of `b` in its own map. The text it encrypts with that key is written to `b` alone,
      and `b`, having read everything written before it, shows it under the sender's name (or takes it
      for a reaction). */
  ghost predicate Arrives(kdf: Kdf, c: Crypto, s: State, a: Id, b: Id, alice: bytes, bob: bytes,
                          text: bytes, nonce: bytes, room: Option<bytes>)
    requires Ordered(s.shared) && At(s, a) && At(s, b)
  {
    var x, y := s.shared.sessions[a], s.shared.sessions[b];
    && y.name in KnownFrom(x.out)
    && var ct := EncryptToPeer(c, text, KnownFrom(x.out)[y.name], x.key, alice, nonce);
       && ct.Some?
       && var payload := MessagePayload(x.name, y.name, ct.value, room);
          && HandleMessage(c, KnownFrom(y.out), bob, payload) == Classify(x.name, TrimRight(text), RoomSeen(room))
          && Travels(kdf, s, a, b, TYPE_MESSAGE, payload)
  }

  /** ... and the same of a file: `b` gets its bytes, under the name it was sent with. */
  ghost predicate FileReaches(kdf: Kdf, c: Crypto, s: State, a: Id, b: Id, alice: bytes, bob: bytes,
                              path: bytes, raw: bytes, nonce: bytes, room: Option<bytes>)
    requires Ordered(s.shared) && At(s, a) && At(s, b)
  {
    var x, y, name := s.shared.sessions[a], s.shared.sessions[b], Trim(SentName(path));
    && y.name in KnownFrom(x.out)
    && var ct := EncryptToPeer(c, Encode(raw), KnownFrom(x.out)[y.name], x.key, alice, nonce);
       && ct.Some?
       && var payload := FilePayload(x.name, y.name, SentName(path), ct.value, room);
          && HandleFile(c, KnownFrom(y.out), bob, payload)
             == (if name == [] || name == DOT || name == DOTS then None else Some((name, raw)))
          && Travels(kdf, s, a, b, TYPE_FILE, payload)
  }

  lemma FileArrivesAt(kdf: Kdf, c: Crypto, s: State, a: Id, b: Id, alice: bytes, bob: bytes,
                      path: bytes, raw: bytes, nonce: bytes, room: Option<bytes>)
    requires Lawful(c) && |nonce| == NONCE_SIZE && NulFree(room)
    requires NUL !in SentName(path) && ValidUtf8(SentName(path))
    requires Inv(s) && Ready(s, a, b) && Acquainted(c, s, a, b, alice, bob)
    ensures FileReaches(kdf, c, s, a, b, alice, bob, path, raw, nonce, room)
  {
    var x, y := s.shared.sessions[a], s.shared.sessions[b];
    TheyHaveNames(s, a, b);
    FileArrives(c, KnownFrom(y.out), x.name, y.name, path, raw, alice, bob, nonce, room);
    var ct := EncryptToPeer(c, Encode(raw), PublicText(c, bob), PublicText(c, alice), alice, nonce).value;
    AddressedTravels(kdf, s, a, b, TYPE_FILE, FilePayload(x.name, y.name, SentName(path), ct, room));
  }

  /** In every run from every start in which each name publishes its one key, nobody renames and at most
      11914 clients are connected at a time: clients that have announced their keys know each other's. */
  lemma Acquaint(kdf: Kdf, c: Crypto, secretOf: bytes -> bytes, pub: Keys, stored: map<bytes, Account>,
                 table: map<bytes, Row>, events: seq<Interleaving.Event>, a: Id, b: Id)
    requires Lawful(c) && forall n :: pub(n) == PublicText(c, secretOf(n))
    ensures Inv(Boot(stored, table))
    ensures var s := Run(kdf, Boot(stored, table), events);
      CrowdRun(kdf, pub, Boot(stored, table), events) && Ready(s, a, b) ==>
        Inv(s) && Acquainted(c, s, a, b, secretOf(s.shared.sessions[a].name), secretOf(s.shared.sessions[b].name))
  {
    StartIsSafe(stored, table);
    RunKeepsInv(kdf, Boot(stored, table), events);
    PublishedKeysAreGood(c, secretOf, pub);
    DirectoryIsCompleteInCrowd(kdf, pub, stored, table, events, a, b);
    DirectoryIsCompleteInCrowd(kdf, pub, stored, table, events, b, a);
    var s := Run(kdf, Boot(stored, table), events);
    if CrowdRun(kdf, pub, Boot(stored, table), events) && Ready(s, a, b) {
      ReadyIsInformed(s, a, b);
      BothKnow(c, secretOf, pub, s, a, b);
    }
  }

  lemma ReadyIsInformed(s: State, a: Id, b: Id)
    requires Ready(s, a, b)
    ensures Informed(s, a, b) && Informed(s, b, a)
  {
  }

  lemma BothKnow(c: Crypto, secretOf: bytes -> bytes, pub: Keys, s: State, a: Id, b: Id)
    requires forall n :: pub(n) == PublicText(c, secretOf(n))
    requires At(s, a) && At(s, b) && KnowsKey(pub, s, a, b) && KnowsKey(pub, s, b, a)
    ensures Acquainted(c, s, a, b, secretOf(s.shared.sessions[a].name), secretOf(s.shared.sessions[b].name))
  {
  }

  /** In such a run, when the first of two clients is between frames, a text that it sends the other,
      privately or for a room, arrives, if it fits a frame. Nothing is assumed about what either knows:
      the key directory guarantees it. */
  lemma TextArrives(kdf: Kdf, c: Crypto, secretOf: bytes -> bytes, pub: Keys, stored: map<bytes, Account>,
                    table: map<bytes, Row>, events: seq<Interleaving.Event>, a: Id, b: Id,
                    text: bytes, nonce: bytes, room: Option<bytes>)
    requires Lawful(c) && |nonce| == NONCE_SIZE && NulFree(room) && ValidUtf8(text)
    requires forall n :: pub(n) == PublicText(c, secretOf(n))
    ensures Inv(Boot(stored, table))
    ensures var s := Run(kdf, Boot(stored, table), events);
      CrowdRun(kdf, pub, Boot(stored, table), events) && Ready(s, a, b) ==>
        var alice, bob := secretOf(s.shared.sessions[a].name), secretOf(s.shared.sessions[b].name);
        Acquainted(c, s, a, b, alice, bob) && Arrives(kdf, c, s, a, b, alice, bob, text, nonce, room)
  {
    Acquaint(kdf, c, secretOf, pub, stored, table, events, a, b);
    var s := Run(kdf, Boot(stored, table), events);
    if CrowdRun(kdf, pub, Boot(stored, table), events) && Ready(s, a, b) {
      var alice, bob := secretOf(s.shared.sessions[a].name), secretOf(s.shared.sessions[b].name);
      TextArrivesAt(kdf, c, s, a, b, alice, bob, text, nonce, room);
    }
  }

  /** The same of files. */
  lemma SentFileArrives(kdf: Kdf, c: Crypto, secretOf: bytes -> bytes, pub: Keys, stored: map<bytes, Account>,
                        table: map<bytes, Row>, events: seq<Interleaving.Event>, a: Id, b: Id,
                        path: bytes, raw: bytes, nonce: bytes, room: Option<bytes>)
    requires Lawful(c) && |nonce| == NONCE_SIZE && NulFree(room)
    requires NUL !in SentName(path) && ValidUtf8(SentName(path))
    requires forall n :: pub(n) == PublicText(c, secretOf(n))
    ensures Inv(Boot(stored, table))
    ensures var s := Run(kdf, Boot(stored, table), events);
      CrowdRun(kdf, pub, Boot(stored, table), events) && Ready(s, a, b) ==>
        var alice, bob := secretOf(s.shared.sessions[a].name), secretOf(s.shared.sessions[b].name);
        FileReaches(kdf, c, s, a, b, alice, bob, path, raw, nonce, room)
  {
    Acquaint(kdf, c, secretOf, pub, stored, table, events, a, b);
    var s := Run(kdf, Boot(stored, table), events);
    if CrowdRun(kdf, pub, Boot(stored, table), events) && Ready(s, a, b) {
      var alice, bob := secretOf(s.shared.sessions[a].name), secretOf(s.shared.sessions[b].name);
      FileArrivesAt(kdf, c, s, a, b, alice, bob, path, raw, nonce, room);
    }
  }
}
