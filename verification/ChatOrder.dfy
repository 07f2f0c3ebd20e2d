/**
 The order of the chat list and the kind of its chats: a chat that gets a message it does not
 show moves to the front, everything else stays where it is, and a chat is a room's or a private
 one from its creation on.
 */
module ChatOrder {
  import opened Wrappers
  import opened ChatList

  /** The ids of the rows, from top to bottom. */
  function Ids(chats: seq<Chat>): (ids: seq<string>)
    ensures |ids| == |chats| && forall k :: 0 <= k < |ids| ==> ids[k] == chats[k].id
  {
    seq(|chats|, k requires 0 <= k < |chats| => chats[k].id)
  }

  /** The rows other than `id`, in their order. */
  function Others(ids: seq<string>, id: string): seq<string>
  {
    if ids == [] then []
    else (if ids[0] == id then [] else [ids[0]]) + Others(ids[1..], id)
  }

  lemma {:induction false} OthersWhenAbsent(ids: seq<string>, id: string)
    requires id !in ids
    ensures Others(ids, id) == ids
  {
    if ids != [] { OthersWhenAbsent(ids[1..], id); }
  }

  lemma {:induction false} OthersWhenAt(ids: seq<string>, i: nat)
    requires i < |ids| && forall k :: 0 <= k < |ids| && k != i ==> ids[k] != ids[i]
    ensures Others(ids, ids[i]) == ids[..i] + ids[i + 1..]
  {
    if i == 0 {
      assert ids[0] !in ids[1..];
      OthersWhenAbsent(ids[1..], ids[0]);
    } else {
      assert forall k :: 0 <= k < |ids[1..]| ==> ids[1..][k] == ids[k + 1];
      OthersWhenAt(ids[1..], i - 1);
      assert [ids[0]] + ids[1..][..i - 1] == ids[..i] && ids[1..][i..] == ids[i + 1..];
    }
  }

  /** The list with a row for `id`: at its end when it is new. */
  lemma EnsuredIds(chats: seq<Chat>, id: string, isRoom: bool)
    ensures Ids(Ensure(chats, id, isRoom)) == if Has(chats, id) then Ids(chats) else Ids(chats) + [id]
    ensures !Has(chats, id) ==> id !in Ids(chats)
  {
  }

  lemma MovedIds(chats: seq<Chat>, i: nat)
    requires UniqueIds(chats) && i < |chats|
    ensures Ids(MoveToFront(chats, i)) == [chats[i].id] + Others(Ids(chats), chats[i].id)
  {
    var ids := Ids(chats);
    forall k | 0 <= k < |ids| && k != i ensures ids[k] != ids[i] {
      assert UniqueIds(chats) && (if k < i then chats[k].id != chats[i].id else chats[i].id != chats[k].id);
    }
    OthersWhenAt(ids, i);
    MovedAt(chats, i);
  }

  lemma UpdatedIds(chats: seq<Chat>, i: nat, c: Chat)
    requires i < |chats| && c.id == chats[i].id
    ensures Ids(chats[i := c]) == Ids(chats)
  {
  }

  lemma OthersOfEnsured(ids: seq<string>, id: string)
    requires id !in ids
    ensures Others(ids + [id], id) == Others(ids, id)
  {
    OthersWhenAbsent(ids, id);
    assert forall k :: 0 <= k < |ids| ==> ids[k] in ids;
    assert (ids + [id])[|ids|] == id;
    OthersWhenAt(ids + [id], |ids|);
    assert (ids + [id])[..|ids|] + (ids + [id])[|ids| + 1..] == ids;
  }

  /** The first row is moved to the front by leaving it where it is. */
  lemma FirstStaysFirst(chats: seq<Chat>)
    requires chats != []
    ensures MoveToFront(chats, 0) == chats
  {
  }

  /** A message to the selected chat moves nothing; any other raises its chat above all the others, which
      keep their order. */
  lemma PushOrder(v: View, id: string, isRoom: bool, m: Msg)
    requires Ok(v)
    ensures Ids(Push(v, id, isRoom, m).chats)
         == if id == Selected(v) then Ids(v.chats) else [id] + Others(Ids(v.chats), id)
  {
    var chats := Ensure(v.chats, id, isRoom);
    var i := IndexOf(chats, id);
    var selected := v.active == i;
    EnsureKeeps(v.chats, id, isRoom);
    EnsuredIds(v.chats, id, isRoom);
    IndexUnique(chats, v.active);
    var c := Add(chats[i], m, selected);
    var added := chats[i := c];
    UpdateKeeps(chats, i, c);
    UpdatedIds(chats, i, c);
    if !selected {
      MovedIds(added, i);
      if !Has(v.chats, id) { OthersOfEnsured(Ids(v.chats), id); }
      if i == 0 { FirstStaysFirst(added); }
    }
  }

  /** Choosing a chat moves no row; a chat that did not exist comes last. */
  lemma SelectOrder(v: View, id: string, isRoom: bool, i: nat)
    requires i < |v.chats|
    ensures Ids(Select(v, id, isRoom).chats) == if Has(v.chats, id) then Ids(v.chats) else Ids(v.chats) + [id]
    ensures Ids(Switch(v, i).chats) == Ids(v.chats)
  {
    EnsuredIds(v.chats, id, isRoom);
  }

  // ---------------------------------------------------------------- rooms and private chats

  /** Whether the chat is a room's, if there is one. */
  function KindOf(chats: seq<Chat>, id: string): Option<bool>
  {
    var i := IndexOf(chats, id);
    if i < |chats| then Some(chats[i].isRoom) else None
  }

  lemma EnsureKind(chats: seq<Chat>, id: string, isRoom: bool, x: string)
    requires UniqueIds(chats)
    ensures KindOf(Ensure(chats, id, isRoom), x)
         == if x == id && !Has(chats, id) then Some(isRoom) else KindOf(chats, x)
  {
    var all := Ensure(chats, id, isRoom);
    EnsureKeeps(chats, id, isRoom);
    if !Has(chats, id) {
      IndexUnique(all, |chats|);
      var j := IndexOf(chats, x);
      if j < |chats| { IndexUnique(all, j); }
    }
  }

  lemma UpdateKind(chats: seq<Chat>, i: nat, c: Chat, x: string)
    requires UniqueIds(chats) && i < |chats| && c.id == chats[i].id && c.isRoom == chats[i].isRoom
    ensures KindOf(chats[i := c], x) == KindOf(chats, x)
  {
    var j := IndexOf(chats, x);
    UpdateKeeps(chats, i, c);
    if j < |chats| { IndexUnique(chats[i := c], j); }
  }

  lemma MoveKind(chats: seq<Chat>, i: nat, x: string)
    requires UniqueIds(chats) && i < |chats|
    ensures KindOf(MoveToFront(chats, i), x) == KindOf(chats, x)
  {
    if Has(chats, x) {
      MovedIsFound(chats, i, IndexOf(chats, x));
    } else {
      MoveKeeps(chats, i, x);
    }
  }

  /** A new chat is of the kind it was opened with; no chat changes its kind. */
  lemma PushKind(v: View, id: string, isRoom: bool, m: Msg, x: string)
    requires Ok(v)
    ensures KindOf(Push(v, id, isRoom, m).chats, x)
         == if x == id && !Has(v.chats, id) then Some(isRoom) else KindOf(v.chats, x)
  {
    var chats := Ensure(v.chats, id, isRoom);
    var i := IndexOf(chats, id);
    EnsureKeeps(v.chats, id, isRoom);
    EnsureKind(v.chats, id, isRoom, x);
    var c := Add(chats[i], m, v.active == i);
    UpdateKeeps(chats, i, c);
    UpdateKind(chats, i, c, x);
    MoveKind(chats[i := c], i, x);
  }

  lemma SelectKind(v: View, id: string, isRoom: bool, x: string)
    requires Ok(v)
    ensures KindOf(Select(v, id, isRoom).chats, x)
         == if x == id && !Has(v.chats, id) then Some(isRoom) else KindOf(v.chats, x)
  {
    var chats := Ensure(v.chats, id, isRoom);
    var i := IndexOf(chats, id);
    EnsureKeeps(v.chats, id, isRoom);
    EnsureKind(v.chats, id, isRoom, x);
    UpdateKind(chats, i, chats[i].(unread := 0), x);
  }
}
