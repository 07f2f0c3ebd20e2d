/**
 What trimming takes away, and that the client's parsers find names and keys with white space
 around them.
 */
module Trimming {
  import opened Bytes
  import opened Directory

  /** Nothing but white space, from the front and from the back. */
  predicate BlankFront(s: bytes)
    decreases |s|
  {
    s == [] || (SpaceAt(s) > 0 && BlankFront(s[SpaceAt(s)..]))
  }

  predicate BlankBack(s: bytes)
    decreases |s|
  {
    s == [] || (SpaceEnd(s) > 0 && BlankBack(s[..|s| - SpaceEnd(s)]))
  }

  lemma SpaceInFront(w: bytes, s: bytes, t: bytes)
    requires w != [] && SpaceAt(w + s) == |w|
    ensures SpaceAt(w + t) == |w|
  {
    assert (w + s)[0] == w[0] && (w + t)[0] == w[0];
    assert |w| >= 2 ==> (w + s)[1] == w[1] && (w + t)[1] == w[1];
    assert |w| >= 3 ==> (w + s)[2] == w[2] && (w + t)[2] == w[2];
  }

  lemma BlankBefore(w: bytes, s: bytes, b: bytes)
    requires w != [] && SpaceAt(w + s) == |w| && BlankFront(b)
    ensures BlankFront(w + b)
  {
    SpaceInFront(w, s, b);
    assert (w + b)[|w|..] == b;
  }

  lemma Associate3(a: bytes, b: bytes, c: bytes)
    ensures a + (b + c) == a + b + c
  {
  }

  lemma {:induction false} TrimLeftCuts(s: bytes) returns (a: bytes)
    ensures s == a + TrimLeft(s) && BlankFront(a) && SpaceAt(TrimLeft(s)) == 0
    decreases |s|
  {
    var n := SpaceAt(s);
    if n == 0 {
      a := [];
    } else {
      var w, rest := s[..n], s[n..];
      var b := TrimLeftCuts(rest);
      a := w + b;
      assert s == w + rest;
      BlankBefore(w, rest, b);
      Associate3(w, b, TrimLeft(rest));
    }
  }

  lemma SpaceBehind(s: bytes, w: bytes, t: bytes)
    requires w != [] && SpaceEnd(s + w) == |w|
    ensures SpaceEnd(t + w) == |w|
  {
    var n := |w|;
    assert (s + w)[|s + w| - 1] == w[n - 1] && (t + w)[|t + w| - 1] == w[n - 1];
    assert n >= 2 ==> (s + w)[|s + w| - 2] == w[n - 2] && (t + w)[|t + w| - 2] == w[n - 2];
    assert n >= 3 ==> (s + w)[|s + w| - 3] == w[n - 3] && (t + w)[|t + w| - 3] == w[n - 3];
  }

  lemma BlankBehind(s: bytes, w: bytes, b: bytes)
    requires w != [] && SpaceEnd(s + w) == |w| && BlankBack(b)
    ensures BlankBack(b + w)
  {
    SpaceBehind(s, w, b);
    assert (b + w)[..|b|] == b;
  }

  lemma {:induction false} TrimRightCuts(s: bytes) returns (b: bytes)
    ensures s == TrimRight(s) + b && BlankBack(b) && SpaceEnd(TrimRight(s)) == 0
    decreases |s|
  {
    var n := SpaceEnd(s);
    if n == 0 {
      b := [];
    } else {
      var init, w := s[..|s| - n], s[|s| - n..];
      var c := TrimRightCuts(init);
      b := c + w;
      assert s == init + w;
      BlankBehind(init, w, c);
      Associate3(TrimRight(init), c, w);
    }
  }

  /** Trimming takes white space off both ends, all of it and nothing else. */
  lemma TrimCuts(s: bytes) returns (a: bytes, b: bytes)
    ensures s == a + Trim(s) + b && BlankFront(a) && BlankBack(b) && SpaceEnd(Trim(s)) == 0
    ensures SpaceAt(TrimLeft(s)) == 0
  {
    a := TrimLeftCuts(s);
    b := TrimRightCuts(TrimLeft(s));
    Associate3(a, Trim(s), b);
  }

  // ---------------------------------------------------------------- white space around

  lemma {:induction false} TrimLeftSkips(a: bytes, s: bytes)
    requires BlankFront(a)
    ensures TrimLeft(a + s) == TrimLeft(s)
    decreases |a|
  {
    if a == [] {
      assert a + s == s;
    } else {
      var n := SpaceAt(a);
      assert a[..n] + a[n..] == a;
      SpaceInFront(a[..n], a[n..], a[n..] + s);
      Associate3(a[..n], a[n..], s);
      assert (a + s)[n..] == a[n..] + s;
      TrimLeftSkips(a[n..], s);
    }
  }

  lemma {:induction false} TrimRightSkips(s: bytes, b: bytes)
    requires BlankBack(b)
    ensures TrimRight(s + b) == TrimRight(s)
    decreases |b|
  {
    if b == [] {
      assert s + b == s;
    } else {
      var n := SpaceEnd(b);
      var init, w := b[..|b| - n], b[|b| - n..];
      assert init + w == b;
      SpaceBehind(init, w, s + init);
      Associate3(s, init, w);
      assert (s + b)[..|s + b| - n] == s + init;
      TrimRightSkips(s, init);
    }
  }

  /** White space around something that has none at its ends is trimmed away. */
  lemma TrimFinds(a: bytes, s: bytes, b: bytes)
    requires BlankFront(a) && BlankBack(b) && Trimmed(s) && s != [] && SpaceAt(s + b) == 0
    ensures Trim(a + s + b) == s
  {
    Associate3(a, s, b);
    TrimLeftSkips(a, s + b);
    TrimRightSkips(s, b);
  }

  /** Nothing to trim in front of a name or key, whatever follows. */
  lemma VisibleStart(s: bytes, b: bytes)
    requires s != [] && Visible(s[0])
    ensures SpaceAt(s + b) == 0
  {
    assert (s + b)[0] == s[0];
  }

  lemma KeyEnds(x: bytes, key: bytes)
    requires key != [] && Visible(key[|key| - 1])
    ensures SpaceEnd(x + key) == 0
  {
    assert (x + key)[|x + key| - 1] == key[|key| - 1];
  }

  /** What stands before the first ':' and what stands behind it, as they are found. */
  function Item(left: bytes, right: bytes): bytes
  {
    left + [COLON] + right
  }

  lemma ItemIsTrimmed(left: bytes, right: bytes)
    requires left != [] && Visible(left[0]) && right != [] && Visible(right[|right| - 1])
    ensures Trimmed(Item(left, right)) && Visible(Item(left, right)[0])
  {
    assert Item(left, right)[0] == left[0];
    KeyEnds(left + [COLON], right);
  }

  lemma ItemIsFound(a: bytes, left: bytes, right: bytes, b: bytes)
    requires BlankFront(a) && BlankBack(b)
    requires left != [] && Visible(left[0]) && right != [] && Visible(right[|right| - 1])
    ensures Trim(a + Item(left, right) + b) == Item(left, right)
  {
    ItemIsTrimmed(left, right);
    VisibleStart(Item(left, right), b);
    TrimFinds(a, Item(left, right), b);
  }

  lemma ItemIsCut(known: Known, raw: bytes, left: bytes, right: bytes)
    requires Trim(raw) == Item(left, right) && COLON !in left
    ensures InsertItem(known, raw) == known[Trim(left) := Trim(right)]
  {
    FindFirst(left, COLON, right);
    var item := Item(left, right);
    assert item[..|left|] == left && item[|left| + 1..] == right;
  }

  lemma NameIsFound(name: bytes, b: bytes)
    requires ValidName(name) && BlankBack(b)
    ensures Trim(name + b) == name && (name + b)[0] == name[0] && Visible(name[0])
  {
    ValidNameIsPlain(name);
    VisibleStart(name, b);
    TrimFinds([], name, b);
    assert [] + name == name;
  }

  lemma KeyIsFound(a: bytes, key: bytes)
    requires BlankFront(a) && key != [] && Visible(key[0]) && Visible(key[|key| - 1])
    ensures Trim(a + key) == key && (a + key)[|a + key| - 1] == key[|key| - 1]
  {
    VisibleEnds(key);
    TrimLeftSkips(a, key);
    LastOf(a, key);
  }

  lemma LastOf(a: bytes, key: bytes)
    requires key != []
    ensures (a + key)[|a + key| - 1] == key[|key| - 1]
  {
  }

  /** However much white space stands around an item, its name and its key: the client stores the key under the
      name. */
  lemma ItemRule(known: Known, a1: bytes, name: bytes, b1: bytes, a2: bytes, key: bytes, b2: bytes)
    requires BlankFront(a1) && BlankBack(b1) && BlankFront(a2) && BlankBack(b2)
    requires ValidName(name) && COLON !in b1
    requires key != [] && Visible(key[0]) && Visible(key[|key| - 1])
    ensures InsertItem(known, a1 + Item(name + b1, a2 + key) + b2) == known[name := key]
  {
    NameIsFound(name, b1);
    KeyIsFound(a2, key);
    ValidNameIsPlain(name);
    ItemIsFound(a1, name + b1, a2 + key, b2);
    ItemIsCut(known, a1 + Item(name + b1, a2 + key) + b2, name + b1, a2 + key);
  }
}
