/**
 The GUI's chat list: a list of chats kept in move-to-front order, the index of the selected
 chat, unread counters and a trimmed history, driven by network events and clicks.
 */
module ChatList {
  datatype Msg = Msg(mine: bool, sender: string, text: string, kind: nat, read: bool)

  datatype Chat = Chat(id: string, msgs: seq<Msg>, unread: nat, isRoom: bool)

  /** The list and the selected index. */
  datatype View = View(chats: seq<Chat>, active: nat)

  const SYS_CHAT := "\U{1F4E1} Сервер"
  const COMMON := "Общая комната"
  const ROOM_CHAT := "# " + COMMON

  const FULL := 3000
  const DROP := 1000

  function NewChat(id: string, isRoom: bool): Chat
  {
    Chat(id, [], 0, isRoom)
  }

  // ---------------------------------------------------------------- the list

  function IndexFrom(chats: seq<Chat>, id: string, n: nat): (i: nat)
    requires n <= |chats|
    ensures n <= i <= |chats|
    ensures i < |chats| ==> chats[i].id == id
    ensures forall k :: n <= k < i ==> chats[k].id != id
    decreases |chats| - n
  {
    if n == |chats| || chats[n].id == id then n else IndexFrom(chats, id, n + 1)
  }

  /** The position of the chat, or the length of the list. */
  function IndexOf(chats: seq<Chat>, id: string): (i: nat)
    ensures i <= |chats|
    ensures i < |chats| ==> chats[i].id == id
    ensures forall k :: 0 <= k < i ==> chats[k].id != id
  {
    IndexFrom(chats, id, 0)
  }

  predicate Has(chats: seq<Chat>, id: string)
  {
    IndexOf(chats, id) < |chats|
  }

  /** The list with a chat for `id`, appended when it is new. */
  function Ensure(chats: seq<Chat>, id: string, isRoom: bool): (all: seq<Chat>)
    ensures Has(all, id)
  {
    if Has(chats, id) then chats
    else
      var all := chats + [NewChat(id, isRoom)];
      assert all[|chats|].id == id;
      all
  }

  /** A message added to a chat; only the selected chat is read at once, and long histories lose
      their oldest messages. */
  function Add(c: Chat, m: Msg, selected: bool): Chat
  {
    var msgs := c.msgs + [m.(read := selected)];
    c.(msgs := if |msgs| > FULL then msgs[DROP..] else msgs,
       unread := if selected then c.unread else c.unread + 1)
  }

  function MoveToFront(chats: seq<Chat>, i: nat): seq<Chat>
    requires i < |chats|
  {
    [chats[i]] + chats[..i] + chats[i + 1..]
  }

  function Push(v: View, id: string, isRoom: bool, m: Msg): View
    requires v.active < |v.chats|
  {
    var chats := Ensure(v.chats, id, isRoom);
    var i := IndexOf(chats, id);
    var selected := v.active == i;
    var added := chats[i := Add(chats[i], m, selected)];
    if !selected && i != 0 then
      var moved := MoveToFront(added, i);
      var a := IndexOf(moved, added[v.active].id);
      View(moved, if a < |moved| then a else 0)
    else View(added, v.active)
  }

  /** open_private and RoomChanged: the chat is created if need be, selected and read. */
  function Select(v: View, id: string, isRoom: bool): View
  {
    var chats := Ensure(v.chats, id, isRoom);
    var i := IndexOf(chats, id);
    View(chats[i := chats[i].(unread := 0)], i)
  }

  /** A click in the sidebar. */
  function Switch(v: View, i: nat): View
    requires i < |v.chats|
  {
    View(v.chats[i := v.chats[i].(unread := 0)], i)
  }

  function RenameIds(chats: seq<Chat>, was: string, nu: string): (r: seq<Chat>)
    ensures |r| == |chats|
    ensures forall k :: 0 <= k < |r| ==> r[k] == if chats[k].id == was then chats[k].(id := nu) else chats[k]
  {
    if chats == [] then []
    else [if chats[0].id == was then chats[0].(id := nu) else chats[0]] + RenameIds(chats[1..], was, nu)
  }

  // ---------------------------------------------------------------- actions

  datatype Action =
    | DoPush(id: string, isRoom: bool, m: Msg)
    | DoSelect(id: string, isRoom: bool)
    | DoSwitch(i: nat)
    | DoRename(was: string, nu: string)

  function Act(v: View, a: Action): View
    requires v.active < |v.chats|
  {
    match a
    case DoPush(id, isRoom, m) => Push(v, id, isRoom, m)
    case DoSelect(id, isRoom) => Select(v, id, isRoom)
    case DoSwitch(i) => if i < |v.chats| then Switch(v, i) else v
    case DoRename(was, nu) => v.(chats := RenameIds(v.chats, was, nu))
  }

  const START := View([NewChat(ROOM_CHAT, true), NewChat(SYS_CHAT, false)], 0)

  /** Chat ids are unique, the selection is in range, and the selected chat has nothing unread. */
  ghost predicate Ok(v: View)
  {
    && v.active < |v.chats|
    && v.chats[v.active].unread == 0
    && UniqueIds(v.chats)
  }

  ghost predicate UniqueIds(chats: seq<Chat>)
  {
    forall i, j :: 0 <= i < j < |chats| ==> chats[i].id != chats[j].id
  }

  /** The chat with this id, as the user sees it; a chat that does not exist is empty. */
  function Of(chats: seq<Chat>, id: string): (seq<Msg>, nat)
  {
    var i := IndexOf(chats, id);
    if i < |chats| then (chats[i].msgs, chats[i].unread) else ([], 0)
  }

  // ---------------------------------------------------------------- what pushing does

  lemma IndexUnique(chats: seq<Chat>, k: nat)
    requires UniqueIds(chats) && k < |chats|
    ensures IndexOf(chats, chats[k].id) == k
  {
  }

  lemma EnsureKeeps(chats: seq<Chat>, id: string, isRoom: bool)
    requires UniqueIds(chats)
    ensures UniqueIds(Ensure(chats, id, isRoom)) && chats <= Ensure(chats, id, isRoom)
    ensures Has(Ensure(chats, id, isRoom), id)
    ensures forall other :: Of(Ensure(chats, id, isRoom), other) == Of(chats, other)
  {
    var all := Ensure(chats, id, isRoom);
    if !Has(chats, id) {
      assert all[|chats|].id == id;
      forall other ensures Of(all, other) == Of(chats, other) {
        var i, j := IndexOf(all, other), IndexOf(chats, other);
        if j < |chats| { assert all[j].id == other; }
      }
    }
  }

  lemma UpdateKeeps(chats: seq<Chat>, i: nat, c: Chat)
    requires UniqueIds(chats) && i < |chats| && c.id == chats[i].id
    ensures UniqueIds(chats[i := c])
    ensures Of(chats[i := c], c.id) == (c.msgs, c.unread)
    ensures forall other :: other != c.id ==> Of(chats[i := c], other) == Of(chats, other)
  {
    var all := chats[i := c];
    IndexUnique(all, i);
    forall other | other != c.id ensures Of(all, other) == Of(chats, other) {
      var j := IndexOf(chats, other);
      if j < |chats| { IndexUnique(all, j); }
    }
  }

  /** Where chat `k` is after chat `i` has moved to the front. */
  function MovedIndex(i: nat, k: nat): nat
  {
    if k == i then 0 else if k < i then k + 1 else k
  }

  lemma MovedAt(chats: seq<Chat>, i: nat)
    requires i < |chats|
    ensures |MoveToFront(chats, i)| == |chats|
    ensures forall k :: 0 <= k < |chats| ==> MoveToFront(chats, i)[MovedIndex(i, k)] == chats[k]
    ensures forall k :: 0 <= k < |chats| ==>
      MoveToFront(chats, i)[k] == chats[if k == 0 then i else if k <= i then k - 1 else k]
  {
    forall k | 0 <= k < |chats|
      ensures MoveToFront(chats, i)[MovedIndex(i, k)] == chats[k]
      ensures MoveToFront(chats, i)[k] == chats[if k == 0 then i else if k <= i then k - 1 else k]
    {
      MovedFrom(chats, i, k);
      MovedFrom(chats, i, MovedIndex(i, k));
    }
  }

  lemma MovedFrom(chats: seq<Chat>, i: nat, k: nat)
    requires i < |chats| && k < |chats|
    ensures |MoveToFront(chats, i)| == |chats|
    ensures MoveToFront(chats, i)[k] == chats[if k == 0 then i else if k <= i then k - 1 else k]
  {
    var front := [chats[i]] + chats[..i];
    assert MoveToFront(chats, i) == front + chats[i + 1..];
    if k <= i {
      assert MoveToFront(chats, i)[k] == front[k];
    } else {
      assert MoveToFront(chats, i)[k] == chats[i + 1..][k - |front|];
    }
  }

  lemma MoveKeepsUnique(chats: seq<Chat>, i: nat)
    requires UniqueIds(chats) && i < |chats|
    ensures UniqueIds(MoveToFront(chats, i))
  {
    MovedAt(chats, i);
  }

  /** Moving a chat to the front leaves every chat findable with the same content. */
  lemma MoveKeeps(chats: seq<Chat>, i: nat, id: string)
    requires UniqueIds(chats) && i < |chats|
    ensures Has(MoveToFront(chats, i), id) <==> Has(chats, id)
    ensures Of(MoveToFront(chats, i), id) == Of(chats, id)
  {
    if IndexOf(chats, id) < |chats| {
      MovedIsFound(chats, i, IndexOf(chats, id));
    } else {
      var all := MoveToFront(chats, i);
      MovedAt(chats, i);
      assert forall k :: 0 <= k < |all| ==> all[k].id != id;
    }
  }

  lemma MovedIsFound(chats: seq<Chat>, i: nat, j: nat)
    requires UniqueIds(chats) && i < |chats| && j < |chats|
    ensures IndexOf(MoveToFront(chats, i), chats[j].id) == MovedIndex(i, j) < |chats|
    ensures MoveToFront(chats, i)[MovedIndex(i, j)] == chats[j]
  {
    MovedAt(chats, i);
    MoveKeepsUnique(chats, i);
    IndexUnique(MoveToFront(chats, i), MovedIndex(i, j));
  }

  // ---------------------------------------------------------------- every action keeps the list in order

  /** The id of the selected chat. */
  function Selected(v: View): string
    requires v.active < |v.chats|
  {
    v.chats[v.active].id
  }

  /** A push keeps the invariant and the selection, whatever moves. It adds the message to its chat,
      counts it as unread unless the chat is selected, and leaves every other chat alone. */
  lemma PushEffect(v: View, id: string, isRoom: bool, m: Msg)
    requires Ok(v)
    ensures var w := Push(v, id, isRoom, m);
      && Ok(w)
      && Selected(w) == Selected(v)
      && (var c := Add(Chat(id, Of(v.chats, id).0, Of(v.chats, id).1, isRoom), m, id == Selected(v));
          Of(w.chats, id) == (c.msgs, c.unread))
      && forall other :: other != id ==> Of(w.chats, other) == Of(v.chats, other)
  {
    var chats := Ensure(v.chats, id, isRoom);
    EnsureKeeps(v.chats, id, isRoom);
    var i := IndexOf(chats, id);
    var selected := v.active == i;
    IndexUnique(chats, v.active);
    var c := Add(chats[i], m, selected);
    var added := chats[i := c];
    UpdateKeeps(chats, i, c);
    if !selected && i != 0 {
      var moved := MoveToFront(added, i);
      MoveKeepsUnique(added, i);
      forall other ensures Of(moved, other) == Of(added, other) { MoveKeeps(added, i, other); }
      MoveKeeps(added, i, Selected(v));
      IndexUnique(added, v.active);
    }
  }

  /** Selecting a chat, new or not, reads it and leaves every other chat alone. */
  lemma SelectEffect(v: View, id: string, isRoom: bool)
    requires Ok(v)
    ensures var w := Select(v, id, isRoom);
      && Ok(w)
      && Selected(w) == id
      && Of(w.chats, id) == (Of(v.chats, id).0, 0)
      && forall other :: other != id ==> Of(w.chats, other) == Of(v.chats, other)
  {
    var chats := Ensure(v.chats, id, isRoom);
    EnsureKeeps(v.chats, id, isRoom);
    var i := IndexOf(chats, id);
    UpdateKeeps(chats, i, chats[i].(unread := 0));
  }

  lemma SwitchEffect(v: View, i: nat)
    requires Ok(v) && i < |v.chats|
    ensures var w, id := Switch(v, i), v.chats[i].id;
      && Ok(w)
      && Selected(w) == id
      && Of(w.chats, id) == (Of(v.chats, id).0, 0)
      && forall other :: other != id ==> Of(w.chats, other) == Of(v.chats, other)
  {
    IndexUnique(v.chats, i);
    UpdateKeeps(v.chats, i, v.chats[i].(unread := 0));
  }

  /** A rename keeps ids unique if and only if it does not bring two chats together. */
  lemma RenameUnique(chats: seq<Chat>, was: string, nu: string)
    requires UniqueIds(chats)
    ensures UniqueIds(RenameIds(chats, was, nu)) <==> was == nu || !Has(chats, was) || !Has(chats, nu)
  {
    var all := RenameIds(chats, was, nu);
    if was != nu && Has(chats, was) && Has(chats, nu) {
      var i, j := IndexOf(chats, was), IndexOf(chats, nu);
      assert all[i].id == nu && all[j].id == nu;
    }
  }

  lemma RenamedContent(chats: seq<Chat>, was: string, nu: string, id: string)
    requires UniqueIds(chats) && UniqueIds(RenameIds(chats, was, nu)) && was != nu
    ensures var all := RenameIds(chats, was, nu);
      Of(all, id) ==
        if id == was then ([], 0)
        else if id == nu && Has(chats, was) then Of(chats, was)
        else Of(chats, id)
  {
    var all := RenameIds(chats, was, nu);
    if id == was {
      assert forall k :: 0 <= k < |all| ==> all[k].id != was;
    } else {
      var j := IndexOf(chats, if id == nu && Has(chats, was) then was else id);
      if j < |all| {
        assert all[j].id == id;
        IndexUnique(all, j);
      } else {
        assert forall k :: 0 <= k < |all| ==> all[k].id != id;
      }
    }
  }

  /** A rename that does not bring two chats together takes the content and the selection along. */
  lemma RenameEffect(v: View, was: string, nu: string)
    requires Ok(v) && was != nu && (!Has(v.chats, was) || !Has(v.chats, nu))
    ensures var w := v.(chats := RenameIds(v.chats, was, nu));
      && Ok(w)
      && Selected(w) == (if Selected(v) == was then nu else Selected(v))
      && Of(w.chats, was) == ([], 0)
      && Of(w.chats, nu) == (if Has(v.chats, was) then Of(v.chats, was) else Of(v.chats, nu))
      && forall other :: other != was && other != nu ==> Of(w.chats, other) == Of(v.chats, other)
  {
    RenameUnique(v.chats, was, nu);
    RenamedContent(v.chats, was, nu, was);
    RenamedContent(v.chats, was, nu, nu);
    forall other | other != was && other != nu ensures Of(RenameIds(v.chats, was, nu), other) == Of(v.chats, other) {
      RenamedContent(v.chats, was, nu, other);
    }
  }

  // ---------------------------------------------------------------- runs

  /** What an action means for the user, with chats named by their ids. */
  datatype Touch = Pushed(id: string, m: Msg) | Chosen(id: string) | Renamed(was: string, nu: string) | Nothing

  function TouchOf(v: View, a: Action): Touch
  {
    match a
    case DoPush(id, _, m) => Pushed(id, m)
    case DoSelect(id, _) => Chosen(id)
    case DoSwitch(i) => if i < |v.chats| then Chosen(v.chats[i].id) else Nothing
    case DoRename(was, nu) => if was == nu then Nothing else Renamed(was, nu)
  }

  /** The chat chosen last, under its current name. */
  function ChosenLast(ts: seq<Touch>): string
  {
    if ts == [] then ROOM_CHAT
    else
      var before := ChosenLast(ts[..|ts| - 1]);
      match ts[|ts| - 1]
      case Chosen(id) => id
      case Renamed(was, nu) => if before == was then nu else before
      case _ => before
  }

  /** Every message ever pushed to a chat, marked as read when the chat was selected at the time. */
  function History(ts: seq<Touch>, id: string): seq<Msg>
  {
    if ts == [] then []
    else
      var before := ts[..|ts| - 1];
      match ts[|ts| - 1]
      case Pushed(x, m) =>
        if x == id then History(before, id) + [m.(read := ChosenLast(before) == id)] else History(before, id)
      case Renamed(was, nu) =>
        if id == nu then History(before, was) + History(before, nu) else if id == was then [] else History(before, id)
      case _ => History(before, id)
  }

  /** How many messages were pushed to a chat since it was chosen last. */
  function UnreadSince(ts: seq<Touch>, id: string): nat
  {
    if ts == [] then 0
    else
      var before := ts[..|ts| - 1];
      match ts[|ts| - 1]
      case Pushed(x, _) => UnreadSince(before, id) + if x == id && ChosenLast(before) != id then 1 else 0
      case Chosen(x) => if x == id then 0 else UnreadSince(before, id)
      case Renamed(was, nu) =>
        if id == nu then UnreadSince(before, was) + UnreadSince(before, nu)
        else if id == was then 0
        else UnreadSince(before, id)
      case Nothing => UnreadSince(before, id)
  }

  /** How many of `n` messages a chat still holds. */
  function Retained(n: nat): (k: nat)
    ensures k <= n
  {
    if n <= FULL then n else FULL - DROP + 1 + (n - FULL - 1) % DROP
  }

  function LastOf(ms: seq<Msg>): seq<Msg>
  {
    ms[|ms| - Retained(|ms|)..]
  }

  lemma RetainedAfter(n: nat)
    ensures Retained(n + 1) == if Retained(n) + 1 > FULL then Retained(n) + 1 - DROP else Retained(n) + 1
  {
    if n > FULL {
      var q, r := (n - FULL - 1) / DROP, (n - FULL - 1) % DROP;
      assert n - FULL == DROP * q + r + 1;
      assert r == DROP - 1 ==> (n - FULL) % DROP == 0;
      assert r < DROP - 1 ==> (n - FULL) % DROP == r + 1;
    }
  }

  lemma RetainsSomething(n: nat)
    ensures Retained(n) == 0 <==> n == 0
  {
  }

  /** Trimming after each push keeps the last messages. */
  lemma AddKeepsLast(all: seq<Msg>, c: Chat, m: Msg, selected: bool)
    requires c.msgs == LastOf(all)
    ensures Add(c, m, selected).msgs == LastOf(all + [m.(read := selected)])
  {
    RetainedAfter(|all|);
  }

  ghost predicate ShowsChat(v: View, ts: seq<Touch>, id: string)
  {
    Of(v.chats, id).0 == LastOf(History(ts, id)) && Of(v.chats, id).1 == UnreadSince(ts, id)
  }

  /** The list shows exactly what the touches say. */
  ghost predicate Shows(v: View, ts: seq<Touch>)
  {
    && Ok(v)
    && Selected(v) == ChosenLast(ts)
    && forall id :: ShowsChat(v, ts, id)
  }

  /** A rename that does not bring two chats together. */
  predicate Separate(v: View, a: Action)
  {
    a.DoRename? ==> a.was == a.nu || !Has(v.chats, a.was) || !Has(v.chats, a.nu)
  }

  /** One more touch, seen from one chat. */
  lemma OneMoreTouch(ts: seq<Touch>, t: Touch, id: string)
    ensures ChosenLast(ts + [t]) == match t
      case Chosen(x) => x
      case Renamed(was, nu) => if ChosenLast(ts) == was then nu else ChosenLast(ts)
      case _ => ChosenLast(ts)
    ensures History(ts + [t], id) == match t
      case Pushed(x, m) => if x == id then History(ts, id) + [m.(read := ChosenLast(ts) == id)] else History(ts, id)
      case Renamed(was, nu) =>
        if id == nu then History(ts, was) + History(ts, nu) else if id == was then [] else History(ts, id)
      case _ => History(ts, id)
    ensures UnreadSince(ts + [t], id) == match t
      case Pushed(x, _) => UnreadSince(ts, id) + if x == id && ChosenLast(ts) != id then 1 else 0
      case Chosen(x) => if x == id then 0 else UnreadSince(ts, id)
      case Renamed(was, nu) =>
        if id == nu then UnreadSince(ts, was) + UnreadSince(ts, nu) else if id == was then 0 else UnreadSince(ts, id)
      case Nothing => UnreadSince(ts, id)
  {
    assert (ts + [t])[..|ts|] == ts && (ts + [t])[|ts|] == t;
  }

  /** A chat that looks as another did before, and whose touches say the same. */
  lemma SameShows(v: View, ts: seq<Touch>, x: string, w: View, us: seq<Touch>, y: string)
    requires ShowsChat(v, ts, x) && Of(w.chats, y) == Of(v.chats, x)
    requires History(us, y) == History(ts, x) && UnreadSince(us, y) == UnreadSince(ts, x)
    ensures ShowsChat(w, us, y)
  {
  }

  /** The chat a message is pushed to. */
  lemma PushedShows(v: View, ts: seq<Touch>, id: string, m: Msg, w: View, c: Chat)
    requires ShowsChat(v, ts, id)
    requires c.msgs == Of(v.chats, id).0 && c.unread == Of(v.chats, id).1
    requires var d := Add(c, m, ChosenLast(ts) == id);
      Of(w.chats, id).0 == d.msgs && Of(w.chats, id).1 == d.unread
    ensures ShowsChat(w, ts + [Pushed(id, m)], id)
  {
    OneMoreTouch(ts, Pushed(id, m), id);
    AddKeepsLast(History(ts, id), c, m, ChosenLast(ts) == id);
  }

  lemma PushShows(v: View, ts: seq<Touch>, id: string, isRoom: bool, m: Msg)
    requires Shows(v, ts)
    ensures Shows(Push(v, id, isRoom, m), ts + [Pushed(id, m)])
  {
    var w, us := Push(v, id, isRoom, m), ts + [Pushed(id, m)];
    PushEffect(v, id, isRoom, m);
    OneMoreTouch(ts, Pushed(id, m), id);
    forall x ensures ShowsChat(w, us, x) {
      assert ShowsChat(v, ts, x);
      if x == id {
        PushedShows(v, ts, id, m, w, Chat(id, Of(v.chats, id).0, Of(v.chats, id).1, isRoom));
      } else {
        OneMoreTouch(ts, Pushed(id, m), x);
        SameShows(v, ts, x, w, us, x);
      }
    }
  }

  lemma ChooseShows(v: View, ts: seq<Touch>, w: View, id: string)
    requires Shows(v, ts) && Ok(w) && Selected(w) == id
    requires Of(w.chats, id) == (Of(v.chats, id).0, 0)
    requires forall other :: other != id ==> Of(w.chats, other) == Of(v.chats, other)
    ensures Shows(w, ts + [Chosen(id)])
  {
    OneMoreTouch(ts, Chosen(id), id);
    forall x ensures ShowsChat(w, ts + [Chosen(id)], x) {
      OneMoreTouch(ts, Chosen(id), x);
      assert ShowsChat(v, ts, x);
    }
  }

  /** A chat that is not in the list has no history and nothing unread. */
  lemma AbsentIsEmpty(v: View, ts: seq<Touch>, id: string)
    requires ShowsChat(v, ts, id) && !Has(v.chats, id)
    ensures History(ts, id) == [] && UnreadSince(ts, id) == 0
  {
    RetainsSomething(|History(ts, id)|);
  }

  /** The chat under the new name is the one that had the old name ... */
  lemma MovedShows(v: View, ts: seq<Touch>, was: string, nu: string, w: View)
    requires was != nu && ShowsChat(v, ts, was) && History(ts, nu) == [] && UnreadSince(ts, nu) == 0
    requires Of(w.chats, nu) == Of(v.chats, was)
    ensures ShowsChat(w, ts + [Renamed(was, nu)], nu)
  {
    OneMoreTouch(ts, Renamed(was, nu), nu);
    assert History(ts, was) + [] == History(ts, was);
    SameShows(v, ts, was, w, ts + [Renamed(was, nu)], nu);
  }

  /** ... or, when there was none, the one that was there before. */
  lemma StayingShows(v: View, ts: seq<Touch>, was: string, nu: string, w: View)
    requires was != nu && ShowsChat(v, ts, nu) && History(ts, was) == [] && UnreadSince(ts, was) == 0
    requires Of(w.chats, nu) == Of(v.chats, nu)
    ensures ShowsChat(w, ts + [Renamed(was, nu)], nu)
  {
    OneMoreTouch(ts, Renamed(was, nu), nu);
    assert [] + History(ts, nu) == History(ts, nu);
    SameShows(v, ts, nu, w, ts + [Renamed(was, nu)], nu);
  }

  lemma GoneShows(ts: seq<Touch>, was: string, nu: string, w: View)
    requires was != nu && Of(w.chats, was) == ([], 0)
    ensures ShowsChat(w, ts + [Renamed(was, nu)], was)
  {
    OneMoreTouch(ts, Renamed(was, nu), was);
  }

  lemma RenameShows(v: View, ts: seq<Touch>, was: string, nu: string)
    requires Shows(v, ts) && was != nu && (!Has(v.chats, was) || !Has(v.chats, nu))
    ensures Shows(v.(chats := RenameIds(v.chats, was, nu)), ts + [Renamed(was, nu)])
  {
    var w, us := v.(chats := RenameIds(v.chats, was, nu)), ts + [Renamed(was, nu)];
    RenameEffect(v, was, nu);
    OneMoreTouch(ts, Renamed(was, nu), nu);
    forall x ensures ShowsChat(w, us, x) {
      if x == nu {
        assert ShowsChat(v, ts, was) && ShowsChat(v, ts, nu);
        if Has(v.chats, was) {
          AbsentIsEmpty(v, ts, nu);
          MovedShows(v, ts, was, nu, w);
        } else {
          AbsentIsEmpty(v, ts, was);
          StayingShows(v, ts, was, nu, w);
        }
      } else if x == was {
        GoneShows(ts, was, nu, w);
      } else {
        assert ShowsChat(v, ts, x);
        OneMoreTouch(ts, Renamed(was, nu), x);
        SameShows(v, ts, x, w, us, x);
      }
    }
  }

  lemma NothingShows(v: View, ts: seq<Touch>)
    requires Shows(v, ts)
    ensures Shows(v, ts + [Nothing])
  {
    OneMoreTouch(ts, Nothing, "");
    forall x ensures ShowsChat(v, ts + [Nothing], x) {
      OneMoreTouch(ts, Nothing, x);
      assert ShowsChat(v, ts, x);
    }
  }

  lemma ActionShows(v: View, ts: seq<Touch>, a: Action)
    requires Shows(v, ts) && Separate(v, a)
    ensures Shows(Act(v, a), ts + [TouchOf(v, a)])
  {
    match a
    case DoPush(id, isRoom, m) => PushShows(v, ts, id, isRoom, m);
    case DoSelect(id, isRoom) =>
      SelectEffect(v, id, isRoom);
      ChooseShows(v, ts, Select(v, id, isRoom), id);
    case DoSwitch(i) =>
      if i < |v.chats| {
        SwitchEffect(v, i);
        ChooseShows(v, ts, Switch(v, i), v.chats[i].id);
      } else {
        NothingShows(v, ts);
      }
    case DoRename(was, nu) =>
      if was == nu {
        assert RenameIds(v.chats, was, nu) == v.chats;
        NothingShows(v, ts);
      } else {
        RenameShows(v, ts, was, nu);
      }
  }

  /** The list after the actions, with the touches they amount to. */
  ghost function RunActs(acts: seq<Action>): (r: (View, seq<Touch>))
    ensures r.0.active < |r.0.chats|
  {
    if acts == [] then (START, [])
    else
      var (v, ts) := RunActs(acts[..|acts| - 1]);
      var a := acts[|acts| - 1];
      ActInRange(v, a);
      (Act(v, a), ts + [TouchOf(v, a)])
  }

  lemma ActInRange(v: View, a: Action)
    requires v.active < |v.chats|
    ensures Act(v, a).active < |Act(v, a).chats|
  {
  }

  ghost predicate NoCollisions(acts: seq<Action>)
  {
    acts != [] ==> NoCollisions(acts[..|acts| - 1]) && Separate(RunActs(acts[..|acts| - 1]).0, acts[|acts| - 1])
  }

  /** After any actions without a colliding rename: ids are unique, the selection is in range and is the
      chat chosen last, it has nothing unread, every other chat's counter is the number of messages
      since it was chosen last, and every chat holds exactly the retained end of its history. */
  lemma {:induction false} ListTellsTheTruth(acts: seq<Action>)
    requires NoCollisions(acts)
    ensures var (v, ts) := RunActs(acts); Shows(v, ts)
  {
    if acts == [] {
      forall id ensures ShowsChat(START, [], id) {
      }
    } else {
      ListTellsTheTruth(acts[..|acts| - 1]);
      var (v, ts) := RunActs(acts[..|acts| - 1]);
      ActionShows(v, ts, acts[|acts| - 1]);
    }
  }
}
