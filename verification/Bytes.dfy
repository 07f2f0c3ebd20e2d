/**
 Byte strings and the text primitives the repository's parsers are built from: splitting
 and joining on a delimiter, trimming Unicode white space, and splitting into fields.
 Go strings, Rust strings and Python bytes are all byte sequences here; white space is
 recognised by its UTF-8 encoding.
 */
module Bytes {
  import opened Wrappers

  type byte = x: int | 0 <= x < 256
  type bytes = seq<byte>

  const NUL: byte := 0x00
  const SEMICOLON: byte := 0x3B
  const COLON: byte := 0x3A
  const BAR: byte := 0x7C
  const SPACE: byte := 0x20
  const EQUALS: byte := 0x3D
  const CLOSE: byte := 0x5D

  // ---------------------------------------------------------------- split and join

  /** The pieces of `s` between occurrences of `sep`; the empty string has one empty piece. */
  function Split(s: bytes, sep: byte): (parts: seq<bytes>)
    ensures |parts| >= 1
  {
    if s == [] then [[]]
    else
      var rest := Split(s[1..], sep);
      if s[0] == sep then [[]] + rest else [[s[0]] + rest[0]] + rest[1..]
  }

  /** The pieces with `sep` between neighbours. */
  function Join(parts: seq<bytes>, sep: byte): bytes
  {
    if parts == [] then []
    else if |parts| == 1 then parts[0]
    else parts[0] + [sep] + Join(parts[1..], sep)
  }

  ghost predicate FreeOf(parts: seq<bytes>, sep: byte)
  {
    forall i :: 0 <= i < |parts| ==> sep !in parts[i]
  }

  lemma {:induction false} SplitWhole(s: bytes, sep: byte)
    requires sep !in s
    ensures Split(s, sep) == [s]
  {
    if s != [] {
      SplitWhole(s[1..], sep);
      assert [s[0]] + s[1..] == s;
    }
  }

  /** Splitting cuts at the first separator. */
  lemma {:induction false} SplitFirst(a: bytes, sep: byte, b: bytes)
    requires sep !in a
    ensures Split(a + [sep] + b, sep) == [a] + Split(b, sep)
  {
    var s := a + [sep] + b;
    if a == [] {
      assert s[1..] == b;
    } else {
      assert s[1..] == a[1..] + [sep] + b;
      SplitFirst(a[1..], sep, b);
      assert [s[0]] + a[1..] == a;
    }
  }

  /** Splitting inverts joining for pieces that do not contain the separator. */
  lemma {:induction false} SplitInvertsJoin(parts: seq<bytes>, sep: byte)
    requires parts != [] && FreeOf(parts, sep)
    ensures Split(Join(parts, sep), sep) == parts
  {
    if |parts| == 1 {
      SplitWhole(parts[0], sep);
    } else {
      SplitInvertsJoin(parts[1..], sep);
      SplitFirst(parts[0], sep, Join(parts[1..], sep));
    }
  }

  /** Joining inverts splitting for every string, and no piece contains the separator. */
  lemma {:induction false} JoinInvertsSplit(s: bytes, sep: byte)
    ensures Join(Split(s, sep), sep) == s
    ensures FreeOf(Split(s, sep), sep)
  {
    if s != [] {
      JoinInvertsSplit(s[1..], sep);
      var rest := Split(s[1..], sep);
      var parts := Split(s, sep);
      if s[0] == sep {
        assert parts[1..] == rest;
      } else if |rest| == 1 {
        assert parts == [[s[0]] + rest[0]];
      } else {
        assert parts[1..] == rest[1..];
      }
    }
  }

  // ---------------------------------------------------------------- searching

  /** The index of the first `b` in `s`. */
  function Find(s: bytes, b: byte): (r: Option<nat>)
    ensures r.Some? ==> r.value < |s| && s[r.value] == b && b !in s[..r.value]
    ensures r.None? <==> b !in s
  {
    if s == [] then None
    else if s[0] == b then Some(0)
    else
      match Find(s[1..], b)
      case None => None
      case Some(i) =>
        assert s[..i + 1] == [s[0]] + s[1..][..i];
        Some(i + 1)
  }

  lemma FindFirst(a: bytes, b: byte, rest: bytes)
    requires b !in a
    ensures Find(a + [b] + rest, b) == Some(|a|)
  {
    var s := a + [b] + rest;
    assert s[|a|] == b;
    assert forall i :: 0 <= i < |a| ==> s[i] == a[i];
  }

  // ---------------------------------------------------------------- white space

  /** The length of the white-space code point that starts `s`, or 0. */
  function SpaceAt(s: bytes): (n: nat)
    ensures n <= |s|
  {
    if |s| >= 1 && (9 <= s[0] <= 13 || s[0] == 0x20) then 1
    else if |s| >= 2 && s[0] == 0xC2 && (s[1] == 0x85 || s[1] == 0xA0) then 2
    else if |s| >= 3 && WideSpace(s[0], s[1], s[2]) then 3
    else 0
  }

  /** The length of the white-space code point that ends `s`, or 0. */
  function SpaceEnd(s: bytes): (n: nat)
    ensures n <= |s|
  {
    var k := |s|;
    if k >= 1 && (9 <= s[k - 1] <= 13 || s[k - 1] == 0x20) then 1
    else if k >= 2 && s[k - 2] == 0xC2 && (s[k - 1] == 0x85 || s[k - 1] == 0xA0) then 2
    else if k >= 3 && WideSpace(s[k - 3], s[k - 2], s[k - 1]) then 3
    else 0
  }

  /** The three-byte white space: U+1680, U+2000-200A, U+2028, U+2029, U+202F, U+205F, U+3000. */
  predicate WideSpace(a: byte, b: byte, c: byte)
  {
    || (a == 0xE1 && b == 0x9A && c == 0x80)
    || (a == 0xE2 && b == 0x80 && (0x80 <= c <= 0x8A || c == 0xA8 || c == 0xA9 || c == 0xAF))
    || (a == 0xE2 && b == 0x81 && c == 0x9F)
    || (a == 0xE3 && b == 0x80 && c == 0x80)
  }

  function TrimLeft(s: bytes): bytes
    decreases |s|
  {
    var n := SpaceAt(s);
    if n == 0 then s else TrimLeft(s[n..])
  }

  function TrimRight(s: bytes): bytes
    decreases |s|
  {
    var n := SpaceEnd(s);
    if n == 0 then s else TrimRight(s[..|s| - n])
  }

  function Trim(s: bytes): bytes
  {
    TrimRight(TrimLeft(s))
  }

  /** No white space at either end: trimming such a string leaves it alone. */
  predicate Trimmed(s: bytes)
  {
    SpaceAt(s) == 0 && SpaceEnd(s) == 0
  }

  /** A printable ASCII byte other than the space. */
  predicate Visible(b: byte)
  {
    0x21 <= b <= 0x7E
  }

  /** A string that starts and ends with a visible byte has nothing to trim. */
  lemma VisibleEnds(s: bytes)
    requires s != [] && Visible(s[0]) && Visible(s[|s| - 1])
    ensures Trimmed(s) && Trim(s) == s
  {
  }

  /** White space at the end of a string does not reach back over a visible byte. */
  lemma SpaceEndAfter(a: bytes, v: byte, b: bytes)
    requires Visible(v) && b != []
    ensures SpaceEnd(a + [v] + b) == SpaceEnd(b)
  {
    var s := a + [v] + b;
    var k := |s|;
    assert s[k - 1] == b[|b| - 1];
    if |b| >= 2 { assert s[k - 2] == b[|b| - 2]; } else { assert s[k - 2] == v; }
    if |b| >= 3 { assert s[k - 3] == b[|b| - 3]; }
    if |b| == 2 { assert s[k - 3] == v; }
  }
}
