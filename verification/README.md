# MeshMessenger: a verified model

MeshMessenger is a relay for end-to-end encrypted chat. The Go server (`server_v2`) keeps
connections, accounts, rooms and a directory of public keys; the Rust client (`rust_gui`) keeps the
keys it has been told, encrypts for each recipient and shows messages in a list of chats; Python and
C modules speak the same frames. This project models the parts whose correctness is not visible in
any single function and proves what they promise, for all inputs, all runs and all interleavings.
`dafny verify dfyconfig.toml` checks everything.

## How it is organised

* **Text and bytes.** `Bytes`, `Utf8`, `Base64`, `Directory`, `Answers`, `Profile`,
  `ProfileRoundTrip`, `ProfilePairs`, `UserList`: the printed tables and commands and their
  parsers in the other language. Strings are byte sequences; which of them are UTF-8 (RFC 3629),
  and what Go, JSON and Rust make of the others, is `Utf8`; `Scalars` says the same by code
  points, white space included, and `Trimming` what trimming takes away.
* **Server.** `Accounts`, `ServerSpec` (one function per section under the clients mutex),
  `Server` (the same sections as methods of classes whose fields they assign, each proved against
  its function), `Interleaving` (a program counter per connection, one event per atomic step; a
  login reads the account in one step and writes the legacy upgrade in another; a restart is an
  event that may come between any two steps), `SessionSafety`, `RelayRules`, `Connections` (how a
  connection begins, becomes active and ends), `Rooms` (who is in which room), `RefusedLogins`
  (wrong passwords over runs).
* **Accounts over runs.** `AccountRules` (what each section does, field by field),
  `AccountSources` (where every account comes from), `AccountHistory` (names, late upgrades,
  passwords), `LegacyAccounts`, `StoredText` (what accounts.json gives back), `StoreAgreement`
  (when a row of the table is its account), `ProfileShown`, `NickSize`, and `Scenarios` (whole
  runs in which clients join or come back, used wherever a theorem exhibits one).
* **Keys over runs.** `KeyDirectory` and `DirectorySize` (when nobody renames), `KeyMentions` and
  `RenamedKeys` (in all runs).
* **Client.** `Requests` (how its two threads match answers to questions), `NetState` (the reading
  loop, the asking thread and their map of keys), `EndToEnd` (encryption, payloads, the recipient,
  and the composition of all of it with the server), `ChatList`, `ChatOrder` and `MeshApp` (the
  chat list as functions and as the object that network events drive).
* **Wire.** `Frames` (the C buffers), `StreamCodec` (the Python reader over a stream cut in
  arbitrary pieces).
* **Limits and trust.** `RateLimit` (the slice compacted in place over its backing array),
  `LoginWindow` (the admin panel), `Tofu` (trust on first use).

What the server writes to a connection is one append-only sequence, so "the queue is drained"
means that the client has read all of it, and a client's map of keys is a function of it: tables,
announcements and the answers to the questions the client waits for. Other server texts are the
event `Reply`, which may write any such text to any connections at any time. Theorems about runs
hold from every start, that is for every accounts.json and every table, and for runs with
restarts, unless they say otherwise. Key derivation and ciphers are parameters; only the laws in
`EndToEnd.Lawful` (decryption inverts encryption, both sides derive one key, and the sizes of keys
and tags) are used (section 7 of NIST SP 800-38D, section 6.1 of RFC 7748). Base64 follows section
4 of RFC 4648.

## Where the code does less than one might expect

These are theorems, each with the exact condition or the failing interleaving:

* A nick is cut at byte 32, so it may end inside a character: it is text if and only if the cut does
  not split one (`Profile.SanitizedIsText`). The client refuses whole texts that are not UTF-8, so it
  reads the list of users if and only if the list fits a frame and every nick in it is text
  (`UserList.UsersRoundTrip`, `ProfileShown.ProfileIsShown`); with at most 11914 connections it fits
  (`NickSize.CrowdListIsRead`). The nick "a" followed by sixteen Cyrillic letters hides the list from
  every client (`ProfileShown.LongNickHidesList`, a run from the start of a new server); a server that
  cuts between characters would never do so (`NickSize.WholeListIsRead`).
* JSON carries text only: in every state of every run, accounts.json loads to the accounts of the map
  if and only if every nick and bio is text (`StoredText.FileAgrees`). A restart therefore makes such a
  nick longer: 38 bytes is the exact bound, not 32 (`NickSize.NickBound`, `LongestNick`). And it leaves
  the old row in the table: over runs with restarts, the row of a name is that of its account if and
  only if they agreed at the start or the name was written since, and no later restart found a profile
  that is not text (`StoreAgreement.RowAgreesIff`). If no edit cuts inside a character, all three
  stores agree always (`StoreAgreement.WholeEditsAgree`).
* One published key that is not UTF-8 makes the table of keys unreadable as a whole
  (`Directory.OneBadKey`).
* Answers carry no mark of their question. A client that never gives up matches them rightly
  (`Requests.PatientClientKnows`); after a question it has given up, the late answer is taken for the
  answer to the next one: a list of the room's members is stored as somebody's key, and nothing can be
  encrypted for that name any more (`LateAnswerIsTakenForKey`). An answer that is stored after a newer
  announcement has been read brings the older key back (`AnswerStoredLateWins`).
* A login reads a legacy account in one section and writes it back in another. Whoever has changed the
  account in between finds the change undone, and a name that has been given up comes back
  (`AccountHistory.LoginKeepsNamesIff`, `LateUpgradeOverwrites`, both exact). After every start with a
  legacy account some run ends with that account under two names (`RenameDuringUpgrade`,
  `HeldTwiceAfterStart`), and some run loses an edit of the profile (`EditDuringUpgrade`).
* A rename announces nothing. Afterwards another client holds the key under the current name if and
  only if it has been told since, by a table, an announcement or an answer to its own question, or had
  been told that key under that name before (`RenamedKeys.HoldsCurrentNameIff`); in a run of two
  clients it does not (`RenamedKeyIsMissing`), until it asks who is in its room (`RenamedKeyIsFound`).
* The stores agree after start-up if and only if the table had no row that differs from an account,
  because existing rows are left alone (`SessionSafety.MigrationAgrees`).
* A profile comes back as typed if and only if no separate word of nick or bio has '=' after its
  first character (`ProfileRoundTrip.ProfileRoundTrip`), and is stored as typed if and only if it
  fits and has no delimiter (`ProfileShown.StoredAsTyped`).
* A text arrives as a message of the same room if and only if it is UTF-8 and does not start with the
  reaction marker and the room, if any, is UTF-8, trimmed and not empty (`EndToEnd.MessageArrives`). A
  file arrives unless its trimmed name is empty or consists of one or two dots
  (`EndToEnd.FileArrives`).
* Renaming keeps chat ids unique if and only if it does not meet another chat
  (`ChatList.RenameUnique`); a room's chat leads back to the room if and only if the room's name has
  no white space at its ends and is not the title of the main room's chat (`MeshApp.RoomRoundTrip`).
* A key that replaces another one is not announced (`KeyDirectory.PublishRule`).
* The C decoder inverts the encoder if and only if the payload is shorter than 2^32 bytes
  (`Frames.DecodeInvertsEncode`).
* Broadcasts to a room reach connections that are not authenticated (`RelayRules.Reaches`,
  `RelayExact`).

## Model

| member | source | states |
|---|---|---|
| `SessionSafety.StepKeepsInv` | server_v2/main.go:457-597 | Every atomic step of every connection (connecting, publishing, logging in, activating, commands, answering, relaying, leaving) and every restart keeps the session invariant, and with it that accounts.json was written from the accounts of the map. |
| `SessionSafety.RunKeepsInv` | server_v2/main.go:457-597 | Hence the invariant holds after any sequence of steps of any number of connections and any restarts. |
| `SessionSafety.EveryRunIsSafe` | server_v2/main.go:475-489 | Whatever accounts.json and the table hold at the start, in every state of every interleaving, restarts included: names are valid and pairwise distinct, authenticated clients have an account under their current name, activated ones are authenticated, everybody is in the main or a created room, and accounts.json loads to the accounts of the map as JSON carries them. |
| `SessionSafety.AuthenticationIsEarned` | server_v2/main.go:647-723 | A goroutine is granted exactly when its step accepts credentials for the client's own name, a client becomes authenticated exactly in that goroutine's grant, nobody loses authentication, and a name changes only by its own client's rename. |
| `Connections.ConnectRule` | server_v2/main.go:464-489 | A connection is accepted if and only if what it sends first is, trimmed, a valid name that nobody connected has; it then comes last in the list, in the main room, with no key and no rights. |
| `Connections.ActivateRule` | server_v2/main.go:445-450 | Activation marks the client and has the directory read for it, once: a client that is active already is left as it is. |
| `Connections.SecondLogin` | server_v2/main.go:716-723 | A second login of an active client writes nothing to anybody. |
| `Connections.LeaveRule` | server_v2/main.go:579-590 | A goroutine leaves while it waits for a frame or after it has closed the connection, and not in the middle of anything else; leaving takes its client off the list and touches nobody else. |
| `RefusedLogins.AttemptsAreRefusals` | server_v2/main.go:706-712 | From every start, in every state of every run: the counter of a connection is the number of its refused logins since it connected or was last let in by a login; it is at most five, and at five the connection is being closed. |
| `RefusedLogins.FifthRefusalIsFinal` | server_v2/main.go:706-712 | After the fifth refusal, whatever happens, the connection stays at its end with the rights it had, as long as it lasts. |
| `RefusedLogins.FiveWrongPasswords` | server_v2/main.go:673-712 | A run that gets there: a new connection and five wrong passwords. Neither the right one nor anything else lets it in afterwards. |
| `SessionSafety.MigrationAgrees` | server_v2/db.go:51-71 | After start-up the stores agree if and only if every row the table already had is the row of an account as accounts.json gives it back. |
| `AccountHistory.AccountNamesFollow` | server_v2/main.go:647-846 | Accounts appear by registration, move whole by renaming, come back by a late legacy upgrade, and no other step and no restart changes the set of names. |
| `AccountHistory.LoginKeepsNamesIff` | server_v2/main.go:688-703 | A login keeps the set of accounts if and only if it does not write back a legacy account whose name has gone since it was read. |
| `AccountHistory.LateUpgradeOverwrites` | server_v2/main.go:688-703 | A login alters an account that was written since it read it if and only if it upgrades (and the result is not by chance the same); the password is then the login's, and the profile survives if and only if it is still the one that was read. |
| `AccountHistory.RenameDuringUpgrade` | server_v2/main.go:688-703 | The run read, return of the owner with upgrade, rename, second section, from any state in which nobody is connected: the account is held under both names, the old one opening to new credentials, and the owner is connected under the new name. |
| `AccountHistory.HeldTwiceAfterStart` | server_v2/main.go:764-808 | After every start with a legacy account that opens to a password there is a run at whose end the account is held under two names. |
| `AccountHistory.EditDuringUpgrade` | server_v2/main.go:726-757 | The run in which the owner edits the profile instead of renaming: the edit is stored and then undone, whatever it was. |
| `AccountRules.RegisterRule` | server_v2/main.go:658-671 | A registration succeeds if and only if the name is free and the passwords agree; the new account opens to exactly the passwords with the new key, its nick is the name without '@', its bio is empty, its presence is shown, and no other account changes. |
| `AccountRules.PasswordRule` | server_v2/main.go:818-846 | A change of password succeeds if and only if the new one has four bytes, the account exists and the old one opens it; the account then opens to exactly the passwords with the new key, the profile and all other accounts stay. |
| `AccountRules.EditRule` | server_v2/main.go:726-757 | An edit succeeds if and only if it has pairs and the account exists. It leaves credentials, other accounts and every field whose key is absent alone; each present key sets its own field to its sanitized value, an empty nick becomes the name without '@', and a flag other than 0 and 1 is ignored. |
| `AccountRules.RenameRule` | server_v2/main.go:764-808 | A rename succeeds if and only if the new name is valid, new, held by no account and no client, and there is an account to move; it moves the account and its row as they are and renames the client, and touches nobody else. |
| `AccountRules.LegacyRule` | server_v2/main.go:369-371 | A legacy account opens to exactly the passwords with the same salted hash. |
| `AccountRules.NoAccountIsLost` | server_v2/main.go:647-846 | Over any run, restarts included, the number of accounts never goes down. |
| `AccountHistory.UpgradedOpens` | server_v2/main.go:696-702 | An upgraded account opens to exactly the passwords with the new key, its profile is the one that was read, and no other account changes. |
| `LegacyAccounts.AuthenticatedIsUpgraded` | server_v2/main.go:688-703 | In every state of every run from every start an authenticated client has an account under its current name that is not in the legacy format. |
| `AccountSources.StepSources` | server_v2/main.go:647-846 | Every account held after a step, stored or read by a login that may write it back, was held before or was made by that step: registered, upgraded, edited, given a new password, moved by a rename, or loaded by a restart. |
| `AccountHistory.RoomOpensToItsPassword` | server_v2/main.go:926-957 | A room created with a password opens to exactly the attempts with the same salted hash, one without a password to everybody. |
| `Rooms.RoomMovesIff` | server_v2/main.go:918-977 | A client is moved exactly by its own accepted join (to the main room, or to a room that opens to the attempt), by leaving (to the main room) and by entering the room it has created; nothing else and nobody else moves it. |
| `Rooms.RoomIsCreatedIff` | server_v2/main.go:918-935 | A room appears, with its guard, if and only if a client whose commands are accepted creates one under a free name; its creator is about to enter it, and nobody else is touched. |
| `Rooms.CreatedRoomTakesItsPassword` | server_v2/main.go:918-971 | After a room has been created, and anything but a restart has happened since, whoever asks to join it is moved there if and only if it is the main room, has no password, or the attempt has the salted hash of that password. |
| `Accounts.StoredPasswordVerifies` | server_v2/main.go:342-374 | Salt and key survive their encoding: new credentials accept an attempt if and only if its Argon2id key is the stored one. |
| `AccountRules.ArgonRule` | server_v2/main.go:356-367 | Whatever parameters an account was made with, it opens to exactly the passwords that give its key under them. |
| `AccountRules.NewCredentials` | server_v2/main.go:335-354 | New credentials are made with two passes, 64 MiB and one thread. |
| `Accounts.TableDetermines` | server_v2/db.go:73-86 | Two maps of accounts have the same table if and only if they are equal, so no column loses anything. |
| `Accounts.FileGivesBack` | server_v2/main.go:78-112 | What saving writes, loading gives back if and only if every nick and bio is text; otherwise the bytes that are not have become replacement characters. |
| `StoredText.FileAgrees` | server_v2/main.go:109-112 | In every state of every run from every start a later start would load the accounts of the map from accounts.json if and only if every nick and bio is text. |
| `StoredText.ProfileStepAgrees` | server_v2/main.go:726-757 | An accepted profile command leaves accounts.json in agreement if and only if it cuts neither nick nor bio inside a character. |
| `StoreAgreement.RowAgreesIff` | server_v2/db.go:51-92 | From every start, over every run with restarts: the table has exactly the row of an account under a name, or none when there is no account, if and only if the two agreed at the start or the name has been written since, and no restart after that found a profile under it that is not text. |
| `StoreAgreement.TableAgreesIff` | server_v2/db.go:51-92 | The table as a whole holds the accounts of the map, and determines them, if and only if every name goes together in this sense. |
| `StoreAgreement.AgreeUntilRestart` | server_v2/db.go:73-92 | Stores that agree at the start agree in every state until the server is restarted. |
| `StoreAgreement.WholeEditsAgree` | server_v2/main.go:739-753 | If no edit of a run cuts inside a character, stores that agree at the start are the same accounts in every state, however often the server is restarted. |
| `RelayRules.AddresseeExact` | server_v2/main.go:286-295 | The scan finds an authenticated holder of the name other than the sender if there is one from its position on, and none only if there is none. |
| `RelayRules.RelayExact` | server_v2/main.go:518-545 | A frame is appended unchanged to exactly the connections it reaches, which is said of its fields: with three or more and a non-empty second the authenticated holder of that name, else everybody else in the sender's room; nothing for a sender that is not authenticated, and nothing else changes. |
| `RelayRules.RoomFrameGoesToRoom` | server_v2/main.go:523-533 | By the fields: a frame of one or two fields, or whose second is empty, is written to exactly the others in the sender's room. |
| `RelayRules.AddressedFrameGoesToHolder` | server_v2/main.go:523-529 | A frame of three or more fields whose second is not empty is written to exactly the authenticated holder of that field, trimmed, other than the sender. |
| `RelayRules.RelayInOrder` | server_v2/main.go:518-545 | Over any run the frames written to a connection are exactly those that reached it, unchanged, in the order of the steps: nothing lost, doubled or reordered. |
| `Server.Client.SendFrame` | server_v2/main.go:180-194 | A payload above 1 MiB changes nothing; any other is appended to what has been written. |
| `Server.Server.BroadcastFrame` | server_v2/main.go:275-284 | Every connection but the sender's has the packet appended. |
| `Server.Server.BroadcastToRoom` | server_v2/main.go:297-305 | Every connection in the room but the sender's has the packet appended. |
| `Server.Server.SendToUsername` | server_v2/main.go:286-295 | The loop writes to the addressee of the specification and to nobody else. |
| `Server.Server.FindClient` | server_v2/main.go:307-316 | Finds the client of a connection if and only if it is connected. |
| `Server.Server.Relay` | server_v2/main.go:512-545 | The branches for M and F frames do what `RelayExact` is proved about. |
| `Server.Server.PubKeysTable` | server_v2/main.go:318-328 | The text is the printed table of the authenticated clients that have published, in the order of the list. |
| `Server.Server.RoomMembers` | server_v2/main.go:1007-1016 | The answer lists the authenticated clients of the room that have published, in the order of the list. |
| `Server.Server.PubKey` | server_v2/main.go:990-1005 | The answer is the key of the first authenticated client with a key under the trimmed name, or the refusal. |
| `Server.Server.Users` | server_v2/main.go:864-883 | The text is the printed list of authenticated clients with stored nick, or name, and visibility. |
| `Server.Server.NameBusy` | server_v2/main.go:476-482 | True if and only if some client holds the name. |
| `Server.Server.Connect` | server_v2/main.go:475-489 | Adds a client at the end of the list exactly when the name is free. |
| `Server.Server.Disconnect` | server_v2/main.go:581-590 | Removes the client of the connection from the list and keeps the order of the others. |
| `Server.Server.Register` | server_v2/main.go:658-671 | Saves a new account in all three stores exactly when the name is free and the passwords agree. |
| `Server.Server.Upgrade` | server_v2/main.go:696-702 | Writes new credentials with the profile that was read to all three stores. |
| `Server.Server.SetProfile` | server_v2/main.go:726-757 | Parses the pairs with the token loop and saves the edited account in all three stores, or fails on an empty edit or a missing account. |
| `Server.Server.SetPassword` | server_v2/main.go:818-846 | Saves new credentials exactly when the new password has four bytes, the account exists and the old password verifies. |
| `Server.Server.Rename` | server_v2/main.go:764-805 | Moves the account and the client exactly when the name is valid, new, free in accounts and list; every value the table takes in between holds the account under the new name. |
| `Server.Server.CreateRoom` | server_v2/main.go:919-932 | Adds the room with its guard exactly when it does not exist. |
| `Server.Server.JoinRoom` | server_v2/main.go:948-971 | Moves the client exactly when the room is main or exists and its guard opens. |
| `Server.Database.SaveAccount` | server_v2/db.go:73-86 | One table write that replaces the account's row and no other. |
| `Server.Database.DeleteAccount` | server_v2/db.go:88-92 | One table write that removes the row. |
| `Server.Database.Migrate` | server_v2/db.go:51-71 | Whatever order the map is iterated in, missing accounts are inserted and existing rows kept. |
| `KeyDirectory.DirectoryStep` | server_v2/main.go:445-455 | Every lawful step keeps the invariant that each announced client is known, or in the table or answer about to be sent, to each client for which the directory has been read. |
| `KeyDirectory.PublishRule` | server_v2/main.go:560-577 | Publishing stores the second field of the frame as the key. The directory is read for the client, and its key announced, exactly when it is authenticated, the key is not empty, and it is not active yet or had no key; a key that replaces another one is not announced. |
| `KeyDirectory.DirectoryIsComplete` | server_v2/main.go:560-578 | From every start, in every interleaving with restarts where each name publishes one key and nobody renames: a client to which the directory has been sent and nothing of it is on its way, and that has read everything written to it, knows the key of every other client that has announced one, whatever either goroutine is doing and whichever order key, login and connection came in. Keys are ones the table can carry (UTF-8, nothing to trim, no separator). |
| `DirectorySize.SealFits` | server_v2/main.go:180-182 | A text fits a frame once nonce, tag and base64 are added if and only if it has at most 786404 bytes. |
| `DirectorySize.TableSize` | server_v2/main.go:318-328 | A printed table has at most 66 bytes per client when keys have at most 44. |
| `DirectorySize.CrowdRunIsLawful` | server_v2/main.go:445-455 | With at most 11914 simultaneous connections every directory frame fits, in every state of every run, also tables read long before they are sent. |
| `DirectorySize.DirectoryIsCompleteInCrowd` | server_v2/main.go:560-578 | The directory theorem with no assumption about frame sizes but that number of connections and keys of at most 44 bytes. |
| `KeyMentions.ExpectsLastTold` | server_v2/main.go:445-455 | In all runs with at most 11914 connections and keys of at most 44 bytes that the table can carry, renames, restarts and names used one after the other included: what a client will know under a name once the table or answer on its way has arrived is the key it was told last under it, by a table or an answer read for it, or by an announcement that nothing older still to come overrides; a new connection knows nothing. |
| `KeyMentions.KnowsLastTold` | rust_gui/src/net.rs:100-157 | From every start: a client to which neither table nor answer is on its way holds a key under a name if and only if that key is the last it was told. |
| `RenamedKeys.HoldsCurrentNameIff` | server_v2/main.go:799-808 | If since some moment of a run with renames and restarts `a` has kept name and key and `b` has been connected, then `b` holds that key under that name if and only if since then the table has been read for `b` while it lists `a`, or `b` has been answered about its room while `a` was in it or about the name of `a`, or `a` has announced itself while nothing on its way to `b` listed the name, or that key was the last `b` had been told under that name before. |
| `RenamedKeys.RenameHides` | server_v2/main.go:764-808 | From every start, after any run: a client that renames itself to a name nobody has had is unknown under it to every other client. |
| `RenamedKeys.RenamedKeyIsMissing` | server_v2/main.go:764-808 | A run from a new server: two clients join and are told each other's keys, one renames itself, and the other, listening with nothing on its way, has no key under the new name. |
| `RenamedKeys.RoomQuestionTells` | server_v2/main.go:1007-1016 | Whoever asks about its room and is answered knows the key of everybody authenticated in it under the current name, whatever it was told before. |
| `RenamedKeys.RenamedKeyIsFound` | rust_gui/src/net.rs:507-518 | The same run goes on with what a message to the room begins with: the other client then has the key under the new name. |
| `Answers.ReadAnswerText` | rust_gui/src/net.rs:125-157 | Storing the printed answer to a question stores exactly its entries: the members of the room one by one, a key under the name that was asked for, nothing of a refusal. |
| `Requests.PatientClientKnows` | rust_gui/src/net.rs:117-157 | For every interleaving of the two threads in which answers come in the order of the questions, the client never gives up and stores an answer before it reads on, its map is the one that the packets it has received determine. |
| `Requests.MetAnswersAreStored` | rust_gui/src/net.rs:238-256 | The same whenever each answer is received while its own question waits. |
| `Requests.LateAnswerIsTakenForKey` | rust_gui/src/net.rs:117-136 | After a question about the room that was given up, its answer is stored as the key of the name asked about next, and no text can be encrypted with it. |
| `Requests.AnswerStoredLateWins` | rust_gui/src/net.rs:125-136 | A key handed over before, and stored after, an announcement of a newer one has been read stays in the map. |
| `Directory.ReadKeysText` | rust_gui/src/net.rs:100-115 | Parsing a printed table of keys the table can carry stores exactly its entries in order, the empty table included. |
| `Directory.OneBadKey` | rust_gui/src/crypto.rs:34-44 | A printed table is UTF-8 if and only if all its keys are; one that is not makes the client learn nothing from the whole table. |
| `Directory.ReadNewText` | server_v2/main.go:451 | Parsing a printed announcement of a key the table can carry stores exactly its entry, also when the key is empty. |
| `Trimming.ItemRule` | rust_gui/src/net.rs:106-113 | However much white space stands around an item of the table, its name and its key, the client stores the key under the name. |
| `NetState.NetState.InsertKeys` | rust_gui/src/net.rs:100-115 | The loop over the items leaves the map that the parser specifies. |
| `NetState.NetState.HandleText` | rust_gui/src/net.rs:250-263 | The reading thread drops what is not UTF-8, hands an answer to the channel in the slot and empties the slot, and stores directory texts. |
| `NetState.NetState.TakeAnswer` | rust_gui/src/net.rs:125-157 | The asking thread stores what it was handed as the answer to its question. |
| `NetState.NetState.Read` | rust_gui/src/net.rs:238-262 | After reading a stream, with each question asked in time, the map is the one the directory theorems speak of, and each message was read with the keys known at its turn. |
| `UserList.ReadUsersText` | rust_gui/src/net.rs:271-281 | Parsing a printed list of users returns the same users in the same order, the empty list included, if and only if every nick is text; otherwise the client refuses the whole list. |
| `UserList.UsersAreAuthed` | server_v2/main.go:864-883 | The list has exactly the authenticated clients, each once and in the order of their connections, with the nick of the account or else the name without '@', present unless the account hides it. |
| `UserList.UserFields` | server_v2/main.go:881 | A line of the list has three fields: name, nick and flag. |
| `UserList.LineRule` | rust_gui/src/net.rs:271-281 | Of any line with three fields or more the client takes the first three, and "1" alone for present; a shorter line is passed over. |
| `UserList.StepKeepsNicks` | server_v2/main.go:739-746 | Every step and every restart keeps every nick, stored or read by a pending login, free of the delimiters of the list. |
| `UserList.UsersRoundTrip` | server_v2/main.go:864-883 | From every start whose nicks have no delimiter of the list, in every state of every run with restarts: a client that asks for the list of users reads exactly the users of that state in order if and only if the list fits a frame and every nick in it is text, and reads nothing otherwise; nobody is listed without a nick. |
| `UserList.WholeNicksAreRead` | server_v2/main.go:391-404 | If no edit of a run cuts a nick inside a character, the list of users is read in every state in which it fits a frame. |
| `NickSize.NickBound` | server_v2/main.go:391-404 | Started with nicks of at most 38 bytes, in every state of every run with restarts no nick has more than 38 bytes, and one of more than 32 is text. |
| `NickSize.LongestNick` | server_v2/main.go:400-402 | A run from a new server with one restart after which a nick has 38 bytes. |
| `NickSize.CrowdListIsRead` | server_v2/main.go:864-883 | With at most 11914 connections the list fits: whoever asks reads it if and only if every nick in it is text. |
| `NickSize.WholeListIsRead` | server_v2/main.go:391-404 | With at most 11914 connections and no nick cut inside a character, every list is read. |
| `Profile.ParseProfilePairs` | server_v2/main.go:608-631 | The token loop with its builder computes the pairs of the specification. |
| `ProfilePairs.PairsAre` | server_v2/main.go:608-631 | For every text: the keys are those that some token opens, and each has the value of the last such token, with the tokens up to the next pair, trimmed. |
| `ProfilePairs.StoredIs` | server_v2/main.go:391-404 | What is stored of a value is its text without the delimiters, byte by byte, trimmed, and of that at most the first bytes. |
| `Trimming.TrimCuts` | server_v2/main.go:400 | Trimming takes white space off both ends, all of it and nothing else. |
| `Profile.SanitizedIsClean` | server_v2/main.go:391-404 | A stored field is at most as long as its limit in bytes and has no delimiter. |
| `Profile.SanitizedIsText` | server_v2/main.go:391-404 | Whatever bytes come in, the stored field is UTF-8 if and only if the cut at its limit does not split a character. |
| `ProfileRoundTrip.ProfileRoundTrip` | rust_gui/src/net.rs:430-435 | The server reads back nick and bio with normalised white space and the same flag if and only if no separate word of either opens a pair. |
| `ProfileShown.StoredAsTyped` | server_v2/main.go:391-404 | Sanitizing keeps a normalised field, which the dialog has as text, if and only if it fits its limit and has no delimiter. |
| `ProfileShown.ProfileIsStored` | server_v2/main.go:726-757 | The dialog's command changes the profile of the sender's account as typed and leaves its credentials and all other accounts alone; its row in the table is that of the account, and accounts.json was written from the map. |
| `ProfileShown.ProfileFileAgrees` | server_v2/main.go:391-404 | From profiles that are text, accounts.json loads to the map afterwards if and only if neither field was cut inside a character. |
| `ProfileShown.ProfileIsShown` | server_v2/main.go:864-883 | Afterwards the list of users has the sender under that nick and flag, and a client that asks reads it if and only if it fits a frame, that nick was not cut inside a character and everybody else's is text; if it was cut, no client can read the list. |
| `ProfileShown.CutNickHidesList` | server_v2/main.go:391-404 | Runs from a new server: somebody joins and sets a nick that is cut inside a character; then no client can read the list of users, accounts.json does not load to the accounts, and after a restart the account in the map differs from its row. |
| `ProfileShown.LongNickHidesList` | server_v2/main.go:400-402 | The nick "a" and sixteen Cyrillic letters (33 bytes) does this. |
| `RateLimit.Bucket.Compact` | server_v2/main.go:144-149 | Filtering behind its own reads in the shared array keeps exactly the times inside the window, in order. |
| `RateLimit.Limiter.CheckRate` | server_v2/main.go:140-153 | The bucket becomes its recent times and the new one, the answer says whether these are more than 30, other buckets keep their times although all are arrays on one heap. |
| `RateLimit.Limiter.CleanupRate` | server_v2/main.go:155-159 | Deletes the bucket and no other. |
| `RateLimit.Connection.CheckRate` | server.py:126-132 | The Python list per connection follows the same specification. |
| `RateLimit.SliceIsRecentHistory` | server_v2/main.go:140-153 | With a clock that does not run backwards, pruning at every check keeps exactly what filtering the whole history would. |
| `RateLimit.AnswersCountHistory` | server_v2/main.go:140-153 | Each answer equals the count over the unpruned history. |
| `RateLimit.RefusedIff` | server_v2/main.go:140-153 | By the times alone: a frame is one too many if and only if more than thirty checks, itself included, lie less than five seconds back. |
| `RateLimit.RecentIsSuffix` | server_v2/main.go:144-149 | What is kept is the end of the history: everything less than five seconds old, nothing older. |
| `RateLimit.WindowBound` | server_v2/main.go:135-138 | At most 30 frames of a bucket pass in any half-open window of five seconds. |
| `RateLimit.BucketsAreIndependent` | server_v2/main.go:140-159 | Whatever other names do, a bucket is the slice of its own checks since its last deletion. |
| `LoginWindow.LoginAttempts.Login` | admin/main.py:115-133 | Outcome and new entry of an attempt for its address; other addresses keep theirs; a login removes the entry. |
| `LoginWindow.CountIsBounded` | admin/main.py:118-123 | No window ever counts more than ten attempts. |
| `LoginWindow.WindowsAreApart` | admin/main.py:118-120 | A window is replaced exactly by an attempt more than 300 seconds after its start, which is the first of the next one. |
| `LoginWindow.AdmittedIff` | admin/main.py:118-124 | By the times of the failures alone: an attempt reaches the password check if and only if fewer than ten have since its window opened, so in particular whenever it is the one that opens it. |
| `LoginWindow.PatienceIsRewarded` | admin/main.py:118-124 | Whoever waits more than 300 seconds after the last attempt is checked, whatever came before. |
| `LoginWindow.LoginIff` | admin/main.py:115-133 | With logins in between: an attempt is checked if and only if fewer than ten have been in its window since the last login, so it logs in exactly when its password is right as well. |
| `LoginWindow.AtMostTwenty` | admin/main.py:114-130 | At most 20 failed attempts of an address reach the password check in any 300 seconds. |
| `Tofu.TofuStore.Check` | modules/tofu.py:43-58 | Verdict and new store; the file reloads to the memory; a verdict other than new changes nothing. |
| `Tofu.TofuStore.Trust` | modules/tofu.py:60-63 | Stores the fingerprint of a key that has one, and the file reloads to the memory. |
| `Tofu.StoreHoldsExpected` | modules/tofu.py:28-63 | Over every run each name holds its last trusted fingerprint, else its loaded one, else that of its first checked key. |
| `Tofu.WarningIsExact` | modules/tofu.py:43-58 | A check warns if and only if the fingerprint differs from the expected one, and says same if and only if it equals it. |
| `Frames.LmFrameEncode` | libmesh/libmesh.c:160-173 | The buffer that is filled byte by byte is the encoding of type and payload. |
| `Frames.LmFrameDecode` | libmesh/libmesh.c:175-185 | Succeeds if and only if the buffer starts with a message, and returns where its payload lies. |
| `Frames.DecodeInvertsEncode` | libmesh/libmesh.c:160-185 | Decoding an encoding with trailing bytes gives the first length mod 2^32 bytes, hence the message if and only if it is shorter than 2^32. |
| `Frames.EncodeInvertsDecode` | libmesh/libmesh.c:160-185 | Re-encoding what was decoded gives back the bytes that were read. |
| `Frames.EncodingsArePrefixFree` | libmesh/libmesh.c:160-173 | No encoding is a proper prefix of another. |
| `Frames.WireFormat` | libmesh/libmesh.c:160-173 | By position: the kind, the length with its most significant byte first, the payload. |
| `StreamCodec.RecvExact` | modules/protocol.py:86-98 | Exactly n bytes however they arrive, or None exactly when the stream ends before; the remaining count terminates the loop. |
| `StreamCodec.RecvFrame` | modules/protocol.py:50-70 | One frame, a refused length or the end, as a function of the stream alone: the pieces do not matter. |
| `StreamCodec.ReadFrames` | modules/protocol.py:50-70 | Repeated reading returns the frames of the stream in order. |
| `StreamCodec.StreamRoundTrip` | modules/protocol.py:38-98 | For every sequence of messages, those the sender accepts are read back in order, unchanged, followed by the end; refused ones leave no trace. |
| `StreamCodec.ReadBack` | modules/protocol.py:38-98 | The reading loop over a socket that delivers the sent bytes in arbitrary pieces returns exactly the accepted messages and the end of the stream. |
| `StreamCodec.AllAccepted` | modules/protocol.py:43-44 | Nothing is lost if and only if every payload has at most 1 MiB. |
| `StreamCodec.TruncatedStream` | modules/protocol.py:50-98 | A stream cut anywhere yields exactly the frames that are complete in it. |
| `StreamCodec.OversizedIsRefused` | modules/protocol.py:60-64 | A header that announces more than 1 MiB ends the reading, after the frames before it have been returned. |
| `Base64.RoundTrip` | rust_gui/src/crypto.rs:31-35 | Decoding, strict about left-over bits or not, inverts padded encoding. |
| `Base64.NoPadRoundTrip` | server.py:65-70 | Stripping gives the unpadded encoding and restoring (-n) mod 4 pads inverts it. |
| `Base64.QuadIsNumber` | rust_gui/src/crypto.rs:31-35 | Three bytes and their four symbols are the same 24 bits, most significant first. |
| `Bytes.SplitInvertsJoin` | rust_gui/src/net.rs:498 | Splitting at a separator inverts joining for fields without it. |
| `Bytes.JoinInvertsSplit` | go_client/main.go:302-312 | Joining inverts splitting for every string, and no piece holds the separator. |
| `Scalars.TextIsScalars` | rust_gui/src/crypto.rs:43 | A byte string is text if and only if it is the encoding of a sequence of Unicode scalar values. |
| `Scalars.SpaceIsWhiteSpace` | server_v2/main.go:400 | A text starts with white space exactly when its first code point has the property White_Space, and then with all of that code point. |
| `Scalars.SpaceEndIsWhiteSpace` | server_v2/main.go:400 | The same at its end. |
| `Utf8.LossyRule` | rust_gui/src/net.rs:165-172 | Where bytes are no text the lossy conversion replaces at once the longest start of a character that is cut off, or else one byte. |
| `Utf8.LossyKeepsText` | rust_gui/src/net.rs:165-172 | It does not touch the text in front of them. |
| `EndToEnd.SplitZero` | go_client/main.go:302-312 | The scan cuts at exactly every NUL. |
| `EndToEnd.DecryptInvertsEncrypt` | rust_gui/src/crypto.rs:11-59 | The recipient decrypts what the sender encrypted if it is UTF-8 and refuses it otherwise; the ciphertext is nonce, then sealed text, in base64, has a known size and no NUL. |
| `EndToEnd.MessageArrives` | rust_gui/src/net.rs:159-195 | The recipient shows the sender's name, the text without trailing white space and the same room, if and only if the text is UTF-8 and does not start with the reaction marker and the room, if any, is UTF-8, trimmed and not empty; what it shows otherwise. |
| `EndToEnd.ReactionArrives` | rust_gui/src/net.rs:175-187 | A reaction arrives as the emoji before the first ':' and the message meant behind it, but for white space at its end. |
| `EndToEnd.UnreadableMessage` | rust_gui/src/net.rs:170-194 | A message from an unknown sender is not read, and one that does not decrypt is reported under the name it came with. |
| `EndToEnd.FileArrives` | rust_gui/src/net.rs:197-216 | A file arrives byte for byte through both layers of base64 under the name it was sent with, trimmed, and is routed to its recipient; it is refused if and only if that name is empty or consists of one or two dots. |
| `EndToEnd.SentNameIsSafe` | rust_gui/src/store.rs:149-159 | The recipient's check of a file name gives a name without slashes back trimmed, unless it is empty or consists of one or two dots. |
| `EndToEnd.SafeNameIsSafe` | rust_gui/src/store.rs:149-159 | Whatever name comes with a file, what it is saved under has no slash of either kind and is neither of the two directories. |
| `EndToEnd.SavedNameIsText` | rust_gui/src/net.rs:197-225 | Whatever bytes come as a file: if something is saved, its name is text, not empty, without slashes and neither of the two directories. |
| `EndToEnd.LastComponentIsKept` | rust_gui/src/store.rs:149-159 | Of a path the last component is kept. |
| `EndToEnd.FileCiphertextSize` | rust_gui/src/net.rs:524-537 | The exact size of a file's ciphertext; at most 711152 bytes for files up to 400000, and exactly that for the largest. |
| `EndToEnd.FileFrameFits` | rust_gui/src/proto.rs:12-22 | The frame of the largest file fits 1 MiB if and only if sender, recipient, name and room have at most 337420 bytes; smaller files fit under the same condition. |
| `EndToEnd.TextArrives` | rust_gui/src/net.rs:495-518 | From every start, in every run without renames and with at most 11914 connections, a text that one client encrypts with the key it finds in its own map is written to the other alone and shown there, when both have announced their keys, the first is between frames and nothing of the directory is on its way to the second; that each knows the other's key follows from the directory theorem. |
| `EndToEnd.SentFileArrives` | rust_gui/src/net.rs:519-562 | The same of files: the other gets the bytes under the name they were sent with, refused exactly when that name is empty or consists of dots. |
| `ChatList.PushEffect` | rust_gui/src/main.rs:480-505 | A push keeps ids unique and the same chat selected although another moves to the front; it adds to one chat and leaves the others alone. |
| `ChatList.SelectEffect` | rust_gui/src/main.rs:507-512 | Opening a chat selects and reads it and leaves the others alone. |
| `ChatList.SwitchEffect` | rust_gui/src/main.rs:1310-1320 | A click selects and reads its row's chat and leaves the others alone. |
| `ChatList.RenameUnique` | rust_gui/src/main.rs:660-669 | A rename keeps ids unique if and only if it does not bring two chats together. |
| `ChatList.RenameEffect` | rust_gui/src/main.rs:660-669 | Otherwise content and selection follow the name. |
| `ChatOrder.PushOrder` | rust_gui/src/main.rs:497-504 | A message to the selected chat moves no row; any other raises its chat above all the others, which keep their order. |
| `ChatOrder.SelectOrder` | rust_gui/src/main.rs:507-512 | Choosing a chat moves no row; a chat that did not exist comes last. |
| `ChatOrder.PushKind` | rust_gui/src/main.rs:472-478 | A new chat is a room's or a private one as it was opened; no message changes the kind of a chat. |
| `ChatOrder.SelectKind` | rust_gui/src/main.rs:472-478 | The same of choosing a chat. |
| `ChatList.RetainedAfter` | rust_gui/src/main.rs:494-496 | The closed form of how many messages are held (all up to 3000, then 2001 plus (n - 3001) mod 1000) is what trimming at each push produces. |
| `ChatList.ListTellsTheTruth` | rust_gui/src/main.rs:472-512 | After any actions without a colliding rename: the selection is the chat chosen last and has nothing unread, every other counter is the pushes since it was chosen last, every chat holds exactly the retained end of its history. |
| `MeshApp.PollingShows` | rust_gui/src/main.rs:571-745 | The same over any sequence of network events, as long as no rename meets another chat. |
| `MeshApp.RoomMessageIsShown` | rust_gui/src/main.rs:689-703 | A message from somebody else in a room adds exactly that text to the chat of the room (the main room's chat for main), read if it is selected and else counted; every other chat and the selection stay. |
| `MeshApp.PrivateMessageIsShown` | rust_gui/src/main.rs:705-714 | One without a room does the same to the chat of its sender. |
| `MeshApp.OwnMessageIsNotShown` | rust_gui/src/main.rs:690-692 | One's own message changes nothing. |
| `MeshApp.RoomFileIsShown` | rust_gui/src/main.rs:717-730 | The note of a file in a room goes to the chat of the room. |
| `MeshApp.PrivateFileIsShown` | rust_gui/src/main.rs:717-735 | The note of a file without a room goes to the chat of its sender. |
| `MeshApp.NoticeIsShown` | rust_gui/src/main.rs:582-602 | A notice goes to the server's chat. |
| `MeshApp.EnteredRoomIsSelected` | rust_gui/src/main.rs:676-684 | Entering a room selects and reads its chat; no other chat changes but the server's. |
| `MeshApp.RenameIsShown` | rust_gui/src/main.rs:660-669 | A new name takes the chat under the old one and the selection along; no other chat changes but the server's. |
| `MeshApp.RoomRoundTrip` | rust_gui/src/main.rs:173-188 | A room's chat leads back to the room if and only if the name is trimmed and not the main room's title. |
| `MeshApp.MeshApp.ChatIndex` | rust_gui/src/main.rs:472-478 | Returns the position of the chat, which exists afterwards. |
| `MeshApp.MeshApp.PushMsg` | rust_gui/src/main.rs:480-505 | Append, count, trim, remove, insert at the front and search again amount to the push of the specification. |
| `MeshApp.MeshApp.OpenPrivate` | rust_gui/src/main.rs:507-512 | Selects and reads the chat. |
| `MeshApp.MeshApp.SwitchTo` | rust_gui/src/main.rs:1318-1319 | The click makes the switch of the specification. |
| `MeshApp.MeshApp.EnterRoom` | rust_gui/src/main.rs:676-681 | Entering a room selects and reads its chat, created if need be. |
| `MeshApp.MeshApp.RenameMe` | rust_gui/src/main.rs:660-668 | The loop renames exactly the chats with the old id. |
| `MeshApp.MeshApp.PollEvents` | rust_gui/src/main.rs:571-745 | The handler of pending events changes the list as `PollingShows` is proved about. |

## Left out

- DirectoryIsComplete: assumes that directory frames fit 1 MiB (`DirectoryFits`); the server drops larger ones without notice and the model does the same. `DirectoryIsCompleteInCrowd` replaces the assumption by a bound on the number of connections.
- KnowsLastTold: the client's map is that of a client that never gives up a question and stores each answer before it reads on; `Requests` says what happens otherwise. Questions typed as raw commands are answered like others, but nobody waits for the answer, so they are among the texts of `Reply`.
- HoldsCurrentNameIff: the same client is meant.
- FileArrives: paths are those of Unix; writing the file into the download directory, which may fail, is not modelled.
- EveryRunIsSafe: a restart comes between two steps; a crash between the writes of one section is not modelled.
- RoomOpensToItsPassword: takes a salt without ':'; the code's salt is hexadecimal.
- WindowBound: time is an integer number of nanoseconds; saturation of Go durations is not modelled, and the Python limits are the defaults of its configuration.
- AtMostTwenty: time is a real number; the rounding of `time.time()` is not modelled.
- PollingShows: the network events that push to a chat, select one or rename one; reactions, user lists, typing and screen changes do not move the selection or counters and are left out, as are the dialogs that push local notices.
- MessageArrives: the reaction's effect on the chat that holds its target is not modelled.
- Rename: the names typed for "/setusername" and "/login" are taken after lower-casing.
- CheckRate: who calls the limiter is not modelled; after a rename the handler goes on using the connect-time name, so an exceeded limit appears as the event `Close`.
- Sockets, deadlines and failing writes: a write to a connection succeeds; a closed connection is the state `Closing`, from which its goroutine can only leave.
- The order of accounts.json, the SQLite row and the map inside one section is observable only for a rename, where every table write is specified.
- Adding '@' to names of an old accounts.json and its backup file, the columns `banned` and `created_at`, and the unused message history.
- The wording of server replies other than the directory, the list of users and the profile command: `Reply` stands for all of them, presence notices included.
- The three seconds themselves: giving up is an event that may come whenever nothing has been handed over.
- The Rust client's own trust check, which does not save a key on first sight; persistence is modelled for the Python store.
- AES-GCM, X25519, SHA-256 and Argon2id themselves: parameters with the laws named above and no claim of secrecy.
- The older copies server.go and rust_client, the admin panel's account edits, web pages, tools and all drawing.
