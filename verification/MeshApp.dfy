/**
 The application object: the methods that move `active` and the handler of network events,
 proved against the functions of ChatList.
 */
module MeshApp {
  import opened Wrappers
  import opened ChatList

  // ---------------------------------------------------------------- rooms and their chats

  /** The White_Space code points of Unicode. */
  predicate IsSpace(c: char)
  {
    || '\t' <= c <= '\r' || c == ' ' || c == '\U{85}' || c == '\U{A0}' || c == '\U{1680}'
    || '\U{2000}' <= c <= '\U{200A}' || c == '\U{2028}' || c == '\U{2029}' || c == '\U{202F}'
    || c == '\U{205F}' || c == '\U{3000}'
  }

  function TrimStart(s: string): string
  {
    if s != "" && IsSpace(s[0]) then TrimStart(s[1..]) else s
  }

  function TrimEnd(s: string): string
  {
    if s != "" && IsSpace(s[|s| - 1]) then TrimEnd(s[..|s| - 1]) else s
  }

  function DropHashes(s: string): string
  {
    if s != "" && s[0] == '#' then DropHashes(s[1..]) else s
  }

  const MAIN := "main"

  function RoomChatId(room: string): string
  {
    if room == MAIN then ROOM_CHAT else "# " + room
  }

  function RoomNameOf(id: string): string
  {
    if id == ROOM_CHAT then MAIN else TrimEnd(TrimStart(DropHashes(id)))
  }

  lemma {:induction false} TrimStartEnds(s: string)
    ensures TrimStart(s) == s <==> s == "" || !IsSpace(s[0])
    ensures |TrimStart(s)| <= |s| && (TrimStart(s) != s ==> |TrimStart(s)| < |s|)
  {
    if s != "" && IsSpace(s[0]) { TrimStartEnds(s[1..]); }
  }

  lemma {:induction false} TrimEndEnds(s: string)
    ensures TrimEnd(s) == s <==> s == "" || !IsSpace(s[|s| - 1])
    ensures |TrimEnd(s)| <= |s| && (TrimEnd(s) != s ==> |TrimEnd(s)| < |s|)
  {
    if s != "" && IsSpace(s[|s| - 1]) { TrimEndEnds(s[..|s| - 1]); }
  }

  /** The room behind a chat id is the room it was made from if and only if the room's name has no
      white space at its ends and is not the title of the main room's chat. */
  lemma RoomRoundTrip(room: string)
    ensures RoomNameOf(RoomChatId(room)) == room <==>
      room != COMMON && (room == "" || (!IsSpace(room[0]) && !IsSpace(room[|room| - 1])))
  {
    if room == COMMON {
    } else if room != MAIN {
      var id := "# " + room;
      assert id[2..] == room && ROOM_CHAT[2..] == COMMON;
      assert id != ROOM_CHAT;
      assert DropHashes(id) == id[1..];
      assert id[1..][0] == ' ' && id[1..][1..] == room;
      assert TrimStart(DropHashes(id)) == TrimStart(room);
      TrimStartEnds(room);
      TrimEndEnds(TrimStart(room));
    }
  }

  // ---------------------------------------------------------------- network events

  /** The events that reach the chat list; `name` is what the user list shows for the sender. */
  datatype Event =
    | Notice(sender: string, text: string, kind: nat)
    | UsernameChanged(nu: string)
    | RoomChanged(entered: string)
    | Message(from: string, name: string, text: string, room: Option<string>)
    | FileMessage(from: string, name: string, file: string, room: Option<string>)

  function FileNote(file: string): string
  {
    "\U{1F4CE} файл «" + file + "» сохранён в downloads/"
  }

  function System(text: string): Action
  {
    DoPush(SYS_CHAT, false, Msg(false, "система", text, 0, false))
  }

  function Incoming(from: string, name: string, text: string, kind: nat, room: Option<string>): Action
  {
    if room.Some? && room.value != ""
    then DoPush(RoomChatId(room.value), true, Msg(false, name, text, kind, false))
    else DoPush(from, false, Msg(false, name, text, kind, false))
  }

  /** The actions of one event for the user `me`. */
  function React(me: string, ev: Event): seq<Action>
  {
    match ev
    case Notice(sender, text, kind) => [DoPush(SYS_CHAT, false, Msg(false, sender, text, kind, false))]
    case UsernameChanged(nu) => [DoRename(me, nu), System("✅ @username сменён на " + nu)]
    case RoomChanged(room) =>
      [DoSelect(RoomChatId(room), true),
       System("Вы вошли в " + if room == MAIN then "общей комнате" else "комнате " + room)]
    case Message(from, name, text, room) => if from == me then [] else [Incoming(from, name, text, 0, room)]
    case FileMessage(from, name, file, room) => [Incoming(from, name, FileNote(file), 4, room)]
  }

  function ActAll(v: View, acts: seq<Action>): (w: View)
    requires v.active < |v.chats|
    ensures w.active < |w.chats|
    decreases |acts|
  {
    if acts == [] then v
    else
      assert Act(v, acts[0]).active < |Act(v, acts[0]).chats| by { ActInRange(v, acts[0]); }
      ActAll(Act(v, acts[0]), acts[1..])
  }

  function MeAfter(me: string, ev: Event): string
  {
    if ev.UsernameChanged? then ev.nu else me
  }

  lemma ActOne(v: View, a: Action)
    requires v.active < |v.chats|
    ensures ActAll(v, [a]) == Act(v, a)
  {
    ActInRange(v, a);
    assert ActAll(Act(v, a), [a][1..]) == Act(v, a);
  }

  lemma ActTwo(v: View, a: Action, b: Action)
    requires v.active < |v.chats|
    ensures Act(v, a).active < |Act(v, a).chats|
    ensures ActAll(v, [a, b]) == Act(Act(v, a), b)
  {
    ActInRange(v, a);
    assert [a, b][1..] == [b];
    ActOne(Act(v, a), b);
  }

  function Poll(v: View, me: string, evs: seq<Event>): (View, string)
    requires v.active < |v.chats|
    decreases |evs|
  {
    if evs == [] then (v, me) else Poll(ActAll(v, React(me, evs[0])), MeAfter(me, evs[0]), evs[1..])
  }

  /** No event renames the user onto the id of another chat. */
  ghost predicate NoClash(v: View, me: string, evs: seq<Event>)
    requires v.active < |v.chats|
    decreases |evs|
  {
    evs != [] ==>
      && (evs[0].UsernameChanged? ==> Separate(v, DoRename(me, evs[0].nu)))
      && NoClash(ActAll(v, React(me, evs[0])), MeAfter(me, evs[0]), evs[1..])
  }

  /** What a sequence of actions, and then of events, means for the user. */
  function ActTouches(v: View, acts: seq<Action>): seq<Touch>
    requires v.active < |v.chats|
    decreases |acts|
  {
    if acts == [] then []
    else
      assert Act(v, acts[0]).active < |Act(v, acts[0]).chats| by { ActInRange(v, acts[0]); }
      [TouchOf(v, acts[0])] + ActTouches(Act(v, acts[0]), acts[1..])
  }

  function EventTouches(v: View, me: string, evs: seq<Event>): seq<Touch>
    requires v.active < |v.chats|
    decreases |evs|
  {
    if evs == [] then []
    else ActTouches(v, React(me, evs[0])) + EventTouches(ActAll(v, React(me, evs[0])), MeAfter(me, evs[0]), evs[1..])
  }

  lemma FirstAction(v: View, acts: seq<Action>, ts: seq<Touch>)
    requires v.active < |v.chats| && acts != []
    ensures var w := Act(v, acts[0]);
      && w.active < |w.chats|
      && ActAll(v, acts) == ActAll(w, acts[1..])
      && ts + ActTouches(v, acts) == (ts + [TouchOf(v, acts[0])]) + ActTouches(w, acts[1..])
  {
    ActInRange(v, acts[0]);
  }

  lemma {:induction false} ActionsShow(v: View, ts: seq<Touch>, acts: seq<Action>)
    requires Shows(v, ts) && (acts != [] ==> Separate(v, acts[0]))
    requires forall k :: 1 <= k < |acts| ==> !acts[k].DoRename?
    ensures Shows(ActAll(v, acts), ts + ActTouches(v, acts))
    decreases |acts|
  {
    if acts == [] {
      assert ts + [] == ts;
    } else {
      FirstAction(v, acts, ts);
      ActionShows(v, ts, acts[0]);
      ActionsShow(Act(v, acts[0]), ts + [TouchOf(v, acts[0])], acts[1..]);
    }
  }

  lemma EventShows(v: View, ts: seq<Touch>, me: string, ev: Event)
    requires Shows(v, ts) && (ev.UsernameChanged? ==> Separate(v, DoRename(me, ev.nu)))
    ensures Shows(ActAll(v, React(me, ev)), ts + ActTouches(v, React(me, ev)))
  {
    ActionsShow(v, ts, React(me, ev));
  }

  lemma FirstEvent(v: View, me: string, evs: seq<Event>, ts: seq<Touch>)
    requires v.active < |v.chats| && evs != []
    ensures var acts, w, m := React(me, evs[0]), ActAll(v, React(me, evs[0])), MeAfter(me, evs[0]);
      && Poll(v, me, evs) == Poll(w, m, evs[1..])
      && ts + EventTouches(v, me, evs) == (ts + ActTouches(v, acts)) + EventTouches(w, m, evs[1..])
  {
  }

  /** Network events keep the list truthful, as long as no rename clashes with another chat. */
  lemma {:induction false} PollingShows(v: View, ts: seq<Touch>, me: string, evs: seq<Event>)
    requires Shows(v, ts) && NoClash(v, me, evs)
    ensures Shows(Poll(v, me, evs).0, ts + EventTouches(v, me, evs))
    decreases |evs|
  {
    if evs == [] {
      assert ts + [] == ts;
    } else {
      var acts := React(me, evs[0]);
      FirstEvent(v, me, evs, ts);
      EventShows(v, ts, me, evs[0]);
      PollingShows(ActAll(v, acts), ts + ActTouches(v, acts), MeAfter(me, evs[0]), evs[1..]);
    }
  }

  // ---------------------------------------------------------------- one event

  /** The history of a chat with one more message: a long one loses its oldest. */
  function Longer(msgs: seq<Msg>, m: Msg): seq<Msg>
  {
    if |msgs| < FULL then msgs + [m] else msgs[DROP..] + [m]
  }

  /** The chat `id` has one message more, read if it is the selected one and else counted as unread; every
      other chat and the selection are as they were. */
  ghost predicate Grew(v: View, w: View, id: string, sender: string, text: string, kind: nat)
    requires v.active < |v.chats|
  {
    && Ok(w)
    && Selected(w) == Selected(v)
    && Of(w.chats, id).0 == Longer(Of(v.chats, id).0, Msg(false, sender, text, kind, id == Selected(v)))
    && Of(w.chats, id).1 == Of(v.chats, id).1 + (if id == Selected(v) then 0 else 1)
    && forall other :: other != id ==> Of(w.chats, other) == Of(v.chats, other)
  }

  lemma PushGrows(v: View, id: string, isRoom: bool, sender: string, text: string, kind: nat)
    requires Ok(v)
    ensures Grew(v, Push(v, id, isRoom, Msg(false, sender, text, kind, false)), id, sender, text, kind)
  {
    var m := Msg(false, sender, text, kind, false);
    PushEffect(v, id, isRoom, m);
    LongerIs(Of(v.chats, id).0, m.(read := id == Selected(v)));
  }

  lemma LongerIs(msgs: seq<Msg>, m: Msg)
    ensures Longer(msgs, m) == if |msgs + [m]| > FULL then (msgs + [m])[DROP..] else msgs + [m]
  {
  }

  lemma OneEvent(v: View, me: string, ev: Event)
    requires v.active < |v.chats|
    ensures Poll(v, me, [ev]) == (ActAll(v, React(me, ev)), MeAfter(me, ev))
  {
    assert [ev][1..] == [];
  }

  lemma OnePush(v: View, me: string, ev: Event, id: string, isRoom: bool, sender: string, text: string, kind: nat)
    requires Ok(v) && React(me, ev) == [DoPush(id, isRoom, Msg(false, sender, text, kind, false))]
    ensures Grew(v, Poll(v, me, [ev]).0, id, sender, text, kind)
  {
    OneEvent(v, me, ev);
    ActOne(v, DoPush(id, isRoom, Msg(false, sender, text, kind, false)));
    PushGrows(v, id, isRoom, sender, text, kind);
  }

  /** A message from somebody else in a room is shown in the chat of the room. */
  lemma RoomMessageIsShown(v: View, me: string, from: string, name: string, text: string, room: string)
    requires Ok(v) && from != me && room != ""
    ensures Grew(v, Poll(v, me, [Message(from, name, text, Some(room))]).0,
                 if room == MAIN then ROOM_CHAT else "# " + room, name, text, 0)
  {
    OnePush(v, me, Message(from, name, text, Some(room)), if room == MAIN then ROOM_CHAT else "# " + room, true,
            name, text, 0);
  }

  /** One that is not in a room is shown in the chat of its sender. */
  lemma PrivateMessageIsShown(v: View, me: string, from: string, name: string, text: string, room: Option<string>)
    requires Ok(v) && from != me && (room == None || room == Some(""))
    ensures Grew(v, Poll(v, me, [Message(from, name, text, room)]).0, from, name, text, 0)
  {
    OnePush(v, me, Message(from, name, text, room), from, false, name, text, 0);
  }

  /** One's own message comes back from the room and is not shown a second time. */
  lemma OwnMessageIsNotShown(v: View, me: string, name: string, text: string, room: Option<string>)
    requires Ok(v)
    ensures Poll(v, me, [Message(me, name, text, room)]) == (v, me)
  {
    OneEvent(v, me, Message(me, name, text, room));
  }

  /** The same of files, of whose arrival a note is shown. */
  lemma RoomFileIsShown(v: View, me: string, from: string, name: string, file: string, room: string)
    requires Ok(v) && room != ""
    ensures Grew(v, Poll(v, me, [FileMessage(from, name, file, Some(room))]).0,
                 if room == MAIN then ROOM_CHAT else "# " + room, name, FileNote(file), 4)
  {
    OnePush(v, me, FileMessage(from, name, file, Some(room)), if room == MAIN then ROOM_CHAT else "# " + room, true,
            name, FileNote(file), 4);
  }

  lemma PrivateFileIsShown(v: View, me: string, from: string, name: string, file: string, room: Option<string>)
    requires Ok(v) && (room == None || room == Some(""))
    ensures Grew(v, Poll(v, me, [FileMessage(from, name, file, room)]).0, from, name, FileNote(file), 4)
  {
    OnePush(v, me, FileMessage(from, name, file, room), from, false, name, FileNote(file), 4);
  }

  lemma NoticeIsShown(v: View, me: string, sender: string, text: string, kind: nat)
    requires Ok(v)
    ensures Grew(v, Poll(v, me, [Notice(sender, text, kind)]).0, SYS_CHAT, sender, text, kind)
  {
    OnePush(v, me, Notice(sender, text, kind), SYS_CHAT, false, sender, text, kind);
  }

  lemma ThenNotice(v: View, me: string, ev: Event, a: Action, text: string)
    requires v.active < |v.chats| && React(me, ev) == [a, System(text)] && Ok(Act(v, a))
    ensures Poll(v, me, [ev]).1 == MeAfter(me, ev)
    ensures Grew(Act(v, a), Poll(v, me, [ev]).0, SYS_CHAT, "система", text, 0)
  {
    OneEvent(v, me, ev);
    ActTwo(v, a, System(text));
    PushGrows(Act(v, a), SYS_CHAT, false, "система", text, 0);
  }

  lemma RoomChatIsNotServers(room: string)
    ensures RoomChatId(room) != SYS_CHAT
  {
    assert RoomChatId(room)[0] == '#' && SYS_CHAT[0] == '\U{1F4E1}';
  }

  /** Entering a room selects and reads its chat; no other chat changes but the server's, which gets a
      message. */
  lemma EnteredRoomIsSelected(v: View, me: string, room: string)
    requires Ok(v)
    ensures var w, id := Poll(v, me, [RoomChanged(room)]).0, if room == MAIN then ROOM_CHAT else "# " + room;
      && Ok(w) && Selected(w) == id && Of(w.chats, id) == (Of(v.chats, id).0, 0)
      && forall other :: other != id && other != SYS_CHAT ==> Of(w.chats, other) == Of(v.chats, other)
  {
    var id := RoomChatId(room);
    var text := RoomReaction(me, room);
    SelectEffect(v, id, true);
    RoomChatIsNotServers(room);
    ThenNotice(v, me, RoomChanged(room), DoSelect(id, true), text);
  }

  /** A new name takes the chat with oneself along, if there is one, and changes no other chat but the
      server's, which gets a message. */
  lemma RenameIsShown(v: View, me: string, nu: string)
    requires Ok(v) && nu != me && me != SYS_CHAT && nu != SYS_CHAT && (!Has(v.chats, me) || !Has(v.chats, nu))
    ensures var (w, now) := Poll(v, me, [UsernameChanged(nu)]);
      && now == nu && Ok(w) && Selected(w) == (if Selected(v) == me then nu else Selected(v))
      && Of(w.chats, me) == ([], 0)
      && Of(w.chats, nu) == (if Has(v.chats, me) then Of(v.chats, me) else Of(v.chats, nu))
      && forall other :: other != me && other != nu && other != SYS_CHAT ==> Of(w.chats, other) == Of(v.chats, other)
  {
    RenameEffect(v, me, nu);
    var text := RenameReaction(me, nu);
    ThenNotice(v, me, UsernameChanged(nu), DoRename(me, nu), text);
  }

  lemma RenameReaction(me: string, nu: string) returns (text: string)
    ensures React(me, UsernameChanged(nu)) == [DoRename(me, nu), System(text)]
  {
    text := "✅ @username сменён на " + nu;
  }

  lemma RoomReaction(me: string, room: string) returns (text: string)
    ensures React(me, RoomChanged(room)) == [DoSelect(RoomChatId(room), true), System(text)]
  {
    text := "Вы вошли в " + if room == MAIN then "общей комнате" else "комнате " + room;
  }

  // ---------------------------------------------------------------- the object

  class MeshApp {
    var chats: seq<Chat>
    var active: nat
    var me: string

    ghost function Shown(): View
      reads this
    {
      View(chats, active)
    }

    constructor (me: string)
      ensures Shown() == START && this.me == me
    {
      chats := [NewChat(ROOM_CHAT, true), NewChat(SYS_CHAT, false)];
      active := 0;
      this.me := me;
    }

    method Position(id: string) returns (i: nat)
      ensures i == IndexOf(chats, id)
    {
      i := 0;
      while i < |chats| && chats[i].id != id
        invariant i <= |chats|
        invariant forall k :: 0 <= k < i ==> chats[k].id != id
      {
        i := i + 1;
      }
    }

    method ChatIndex(id: string, isRoom: bool) returns (i: nat)
      modifies this`chats
      ensures chats == Ensure(old(chats), id, isRoom) && i == IndexOf(chats, id) && i < |chats|
    {
      i := Position(id);
      if i < |chats| { return; }
      chats := chats + [NewChat(id, isRoom)];
      assert chats[i].id == id;
      assert forall k :: 0 <= k < i ==> chats[k].id != id;
    }

    method PushMsg(id: string, isRoom: bool, m: Msg)
      requires active < |chats|
      modifies this`chats, this`active
      ensures Shown() == Push(old(Shown()), id, isRoom, m)
    {
      var idx := ChatIndex(id, isRoom);
      var selected := active == idx;
      AppendTo(idx, m, selected);
      if !selected && idx != 0 {
        RaiseChat(idx);
      }
    }

    method AppendTo(idx: nat, m: Msg, selected: bool)
      requires idx < |chats|
      modifies this`chats
      ensures chats == old(chats)[idx := Add(old(chats)[idx], m, selected)]
    {
      var chat := chats[idx];
      chat := chat.(msgs := chat.msgs + [m.(read := selected)]);
      if !selected {
        chat := chat.(unread := chat.unread + 1);
      }
      if |chat.msgs| > FULL {
        chat := chat.(msgs := chat.msgs[DROP..]);
      }
      chats := chats[idx := chat];
    }

    /** Remove, insert at the front, and find the selected chat again by its id. */
    method RaiseChat(idx: nat)
      requires active < |chats| && idx < |chats|
      modifies this`chats, this`active
      ensures chats == MoveToFront(old(chats), idx)
      ensures active == var a := IndexOf(chats, old(chats[active].id)); if a < |chats| then a else 0
    {
      var wasActive := chats[active].id;
      var moved := chats[idx];
      chats := chats[..idx] + chats[idx + 1..];
      chats := [moved] + chats;
      assert chats == MoveToFront(old(chats), idx);
      var a := Position(wasActive);
      active := if a < |chats| then a else 0;
    }

    method OpenPrivate(at: string)
      modifies this`chats, this`active
      ensures Shown() == Select(old(Shown()), at, false)
    {
      var idx := ChatIndex(at, false);
      active := idx;
      chats := chats[idx := chats[idx].(unread := 0)];
    }

    method EnterRoom(room: string)
      modifies this`chats, this`active
      ensures Shown() == Select(old(Shown()), RoomChatId(room), true)
    {
      var idx := ChatIndex(RoomChatId(room), true);
      active := idx;
      chats := chats[idx := chats[idx].(unread := 0)];
    }

    /** The click on row `i`. */
    method SwitchTo(i: nat)
      requires i < |chats|
      modifies this`chats, this`active
      ensures Shown() == Switch(old(Shown()), i)
    {
      active := i;
      chats := chats[i := chats[i].(unread := 0)];
    }

    method RenameMe(nu: string)
      modifies this`chats, this`me
      ensures me == nu && chats == RenameIds(old(chats), old(me), nu)
    {
      var was, n := me, 0;
      ghost var before, renamed := chats, RenameIds(chats, me, nu);
      me := nu;
      while n < |chats|
        invariant n <= |chats| == |before| && me == nu
        invariant forall k :: 0 <= k < n ==> chats[k] == renamed[k]
        invariant forall k :: n <= k < |chats| ==> chats[k] == before[k]
      {
        if chats[n].id == was {
          chats := chats[n := chats[n].(id := nu)];
        }
        n := n + 1;
      }
    }

    method HandleEvent(ev: Event)
      requires active < |chats|
      modifies this
      ensures Shown() == ActAll(old(Shown()), React(old(me), ev)) && me == MeAfter(old(me), ev)
    {
      ghost var v, acts := Shown(), React(me, ev);
      match ev {
        case Notice(sender, text, kind) =>
          PushMsg(SYS_CHAT, false, Msg(false, sender, text, kind, false));
          ActOne(v, acts[0]);
        case UsernameChanged(nu) => ChangeName(nu);
        case RoomChanged(room) => ChangeRoom(room);
        case Message(from, name, text, room) =>
          if from != me {
            Receive(from, name, text, 0, room);
            ActOne(v, acts[0]);
          }
        case FileMessage(from, name, file, room) =>
          Receive(from, name, FileNote(file), 4, room);
          ActOne(v, acts[0]);
      }
    }

    method ChangeName(nu: string)
      requires active < |chats|
      modifies this
      ensures Shown() == ActAll(old(Shown()), React(old(me), UsernameChanged(nu))) && me == nu
    {
      ghost var v, acts := Shown(), React(me, UsernameChanged(nu));
      RenameMe(nu);
      Note("✅ @username сменён на " + nu);
      ActTwo(v, acts[0], acts[1]);
    }

    method ChangeRoom(room: string)
      requires active < |chats|
      modifies this`chats, this`active
      ensures Shown() == ActAll(old(Shown()), React(me, RoomChanged(room)))
    {
      ghost var v, acts := Shown(), React(me, RoomChanged(room));
      EnterRoom(room);
      var where := if room == MAIN then "общей комнате" else "комнате " + room;
      Note("Вы вошли в " + where);
      ActTwo(v, acts[0], acts[1]);
    }

    method Note(text: string)
      requires active < |chats|
      modifies this`chats, this`active
      ensures Shown() == Act(old(Shown()), System(text))
    {
      PushMsg(SYS_CHAT, false, Msg(false, "система", text, 0, false));
    }

    /** A message or file goes to the chat of its room, or to the sender's private chat. */
    method Receive(from: string, name: string, text: string, kind: nat, room: Option<string>)
      requires active < |chats|
      modifies this`chats, this`active
      ensures Shown() == Act(old(Shown()), Incoming(from, name, text, kind, room))
    {
      if room.Some? && room.value != "" {
        PushMsg(RoomChatId(room.value), true, Msg(false, name, text, kind, false));
      } else {
        PushMsg(from, false, Msg(false, name, text, kind, false));
      }
    }

    /** All pending events, in order. */
    method PollEvents(evs: seq<Event>)
      requires active < |chats|
      modifies this
      ensures (Shown(), me) == Poll(old(Shown()), old(me), evs)
    {
      var n := 0;
      while n < |evs|
        invariant n <= |evs| && active < |chats|
        invariant Poll(old(Shown()), old(me), evs) == Poll(Shown(), me, evs[n..])
      {
        HandleEvent(evs[n]);
        assert evs[n..][1..] == evs[n + 1..];
        n := n + 1;
      }
    }
  }
}
