/**
 UTF-8: which byte strings are text, what becomes of the others in Go and in Rust, and which
 operations of the protocol keep text text. Go's strings and the SQLite table carry any bytes;
 a Rust string, and a string read from JSON, is always text.
 */
module Utf8 {
  import opened Bytes

  /** U+FFFD, the replacement character. */
  const REPLACEMENT: bytes := [0xEF, 0xBF, 0xBD]

  predicate Continuation(b: byte)
  {
    0x80 <= b <= 0xBF
  }

  /** The second bytes that may follow a lead byte of three or four bytes. */
  predicate Second(lead: byte, b: byte)
  {
    if lead == 0xE0 then 0xA0 <= b <= 0xBF
    else if lead == 0xED then 0x80 <= b <= 0x9F
    else if lead == 0xF0 then 0x90 <= b <= 0xBF
    else if lead == 0xF4 then 0x80 <= b <= 0x8F
    else Continuation(b)
  }

  /** The length of the character at the start of `s`, or 0 when there is none (RFC 3629). */
  function CharAt(s: bytes): (n: nat)
    ensures n <= |s| && n <= 4
    ensures s == [] ==> n == 0
  {
    if s == [] then 0
    else if s[0] < 0x80 then 1
    else if 0xC2 <= s[0] <= 0xDF && |s| >= 2 && Continuation(s[1]) then 2
    else if 0xE0 <= s[0] <= 0xEF && |s| >= 3 && Second(s[0], s[1]) && Continuation(s[2]) then 3
    else if 0xF0 <= s[0] <= 0xF4 && |s| >= 4 && Second(s[0], s[1]) && Continuation(s[2]) && Continuation(s[3]) then 4
    else 0
  }

  /** A sequence of characters and nothing else. */
  predicate ValidUtf8(s: bytes)
    decreases |s|
  {
    s == [] || (CharAt(s) > 0 && ValidUtf8(s[CharAt(s)..]))
  }

  /** What Go's string loops and its JSON encoder make of a string: every byte that is not part of a
      character becomes a replacement character. */
  function Coerce(s: bytes): bytes
    decreases |s|
  {
    if s == [] then []
    else if CharAt(s) == 0 then REPLACEMENT + Coerce(s[1..])
    else s[..CharAt(s)] + Coerce(s[CharAt(s)..])
  }

  /** How many bytes Rust's lossy conversion replaces at once: the longest start of a character. */
  function Broken(s: bytes): (n: nat)
    requires s != [] && CharAt(s) == 0
    ensures 1 <= n <= |s|
  {
    if 0xE0 <= s[0] <= 0xEF && |s| >= 2 && Second(s[0], s[1]) then 2
    else if 0xF0 <= s[0] <= 0xF4 && |s| >= 2 && Second(s[0], s[1]) then
      if |s| >= 3 && Continuation(s[2]) then 3 else 2
    else 1
  }

  /** Rust's lossy conversion of bytes to a string. */
  function Lossy(s: bytes): bytes
    decreases |s|
  {
    if s == [] then []
    else if CharAt(s) == 0 then REPLACEMENT + Lossy(s[Broken(s)..])
    else s[..CharAt(s)] + Lossy(s[CharAt(s)..])
  }

  // ---------------------------------------------------------------- characters and what follows

  /** What follows a character does not change it. */
  lemma CharStays(a: bytes, b: bytes)
    ensures CharAt(a) > 0 ==> CharAt(a + b) == CharAt(a)
  {
  }

  /** A character that is cut off is not completed by an ASCII byte. */
  lemma AsciiCompletesNothing(a: bytes, c: byte, b: bytes)
    requires a != [] && CharAt(a) == 0 && c < 0x80
    ensures CharAt(a + [c] + b) == 0
  {
    var s := a + [c] + b;
    assert s[0] == a[0];
    assert |s| >= 2 ==> s[1] == if |a| >= 2 then a[1] else c;
    assert |s| >= 3 && |a| <= 2 ==> (if |a| == 2 then s[2] == c else s[1] == c);
    assert |a| >= 3 ==> s[2] == a[2] && (if |a| >= 4 then s[3] == a[3] else s[3] == c);
  }

  lemma {:induction false} ValidConcat(a: bytes, b: bytes)
    requires ValidUtf8(a)
    ensures ValidUtf8(a + b) <==> ValidUtf8(b)
    decreases |a|
  {
    if a == [] {
      assert a + b == b;
    } else {
      var n := CharAt(a);
      CharStays(a, b);
      assert (a + b)[n..] == a[n..] + b;
      ValidConcat(a[n..], b);
    }
  }

  /** Around an ASCII byte both sides stand for themselves: neither repairs the other. */
  lemma {:induction false} ValidAroundAscii(a: bytes, c: byte, b: bytes)
    requires c < 0x80
    ensures ValidUtf8(a + [c] + b) <==> ValidUtf8(a) && ValidUtf8(b)
    decreases |a|
  {
    var s := a + [c] + b;
    if a == [] {
      assert s[1..] == b;
    } else if CharAt(a) == 0 {
      AsciiCompletesNothing(a, c, b);
    } else {
      var n := CharAt(a);
      CharStays(a, [c] + b);
      assert s == a + ([c] + b);
      assert s[n..] == a[n..] + [c] + b;
      ValidAroundAscii(a[n..], c, b);
    }
  }

  lemma {:induction false} AsciiIsValid(s: bytes)
    requires forall i :: 0 <= i < |s| ==> s[i] < 0x80
    ensures ValidUtf8(s)
  {
    if s != [] { AsciiIsValid(s[1..]); }
  }

  /** Two-byte characters in a row, as in the Cyrillic tags of the protocol. */
  lemma {:induction false} PairsAreValid(s: bytes)
    requires |s| % 2 == 0
    requires forall i :: 0 <= i < |s| ==> if i % 2 == 0 then 0xC2 <= s[i] <= 0xDF else Continuation(s[i])
    ensures ValidUtf8(s)
  {
    if s != [] {
      assert s[0 + 1] == s[1] && Continuation(s[1]);
      forall i | 0 <= i < |s[2..]| ensures if i % 2 == 0 then 0xC2 <= s[2..][i] <= 0xDF else Continuation(s[2..][i]) {
        assert s[2..][i] == s[i + 2] && (i + 2) % 2 == i % 2;
      }
      PairsAreValid(s[2..]);
    }
  }

  // ---------------------------------------------------------------- cutting

  lemma CharBytes(s: bytes, i: nat)
    requires i < CharAt(s)
    ensures Continuation(s[i]) <==> i > 0
  {
  }

  /** Cutting text at a byte offset leaves text exactly when the cut does not split a character. */
  lemma {:induction false} CutIsValid(s: bytes, k: nat)
    requires ValidUtf8(s) && k <= |s|
    ensures ValidUtf8(s[..k]) <==> k == |s| || !Continuation(s[k])
    ensures ValidUtf8(s[..k]) ==> ValidUtf8(s[k..])
    decreases |s|
  {
    if s != [] {
      var n := CharAt(s);
      CharBytes(s, 0);
      if k == 0 {
        assert s[..k] == [] && s[k..] == s;
      } else if k < n {
        CharBytes(s, k);
        NoShorterChar(s, k);
      } else {
        CutIsValid(s[n..], k - n);
        CharStays(s[..k], s[k..]);
        assert s[..k] + s[k..] == s;
        CharOfPrefix(s, k);
        assert s[..k][n..] == s[n..][..k - n] && s[k..] == s[n..][k - n..];
      }
    }
  }

  lemma NoShorterChar(s: bytes, k: nat)
    requires 0 < k < CharAt(s)
    ensures CharAt(s[..k]) == 0 && !ValidUtf8(s[..k])
  {
  }

  lemma CharOfPrefix(s: bytes, k: nat)
    requires 0 < CharAt(s) <= k <= |s|
    ensures CharAt(s[..k]) == CharAt(s)
  {
  }

  // ---------------------------------------------------------------- conversions

  lemma {:induction false} CoerceIsValid(s: bytes)
    ensures ValidUtf8(Coerce(s))
    decreases |s|
  {
    if s != [] {
      var n := CharAt(s);
      if n == 0 {
        CoerceIsValid(s[1..]);
        assert REPLACEMENT[3..] == [];
        ValidConcat(REPLACEMENT, Coerce(s[1..]));
      } else {
        CoerceIsValid(s[n..]);
        CharOfPrefix(s, n);
        assert s[..n][n..] == [];
        ValidConcat(s[..n], Coerce(s[n..]));
      }
    }
  }

  /** A string survives JSON, or a loop over its characters, exactly when it is text. */
  lemma {:induction false} CoerceFixesValid(s: bytes)
    ensures Coerce(s) == s <==> ValidUtf8(s)
    decreases |s|
  {
    CoerceIsValid(s);
    if ValidUtf8(s) && s != [] {
      CoerceFixesValid(s[CharAt(s)..]);
      assert s == s[..CharAt(s)] + s[CharAt(s)..];
    }
  }

  lemma {:induction false} LossyFixesValid(s: bytes)
    requires ValidUtf8(s)
    ensures Lossy(s) == s
    decreases |s|
  {
    if s != [] {
      LossyFixesValid(s[CharAt(s)..]);
      assert s == s[..CharAt(s)] + s[CharAt(s)..];
    }
  }

  lemma {:induction false} LossyIsValid(s: bytes)
    ensures ValidUtf8(Lossy(s))
    decreases |s|
  {
    if s != [] {
      var n := CharAt(s);
      if n == 0 {
        LossyIsValid(s[Broken(s)..]);
        assert REPLACEMENT[3..] == [];
        ValidConcat(REPLACEMENT, Lossy(s[Broken(s)..]));
      } else {
        LossyIsValid(s[n..]);
        CharOfPrefix(s, n);
        assert s[..n][n..] == [];
        ValidConcat(s[..n], Lossy(s[n..]));
      }
    }
  }

  /** Some character begins with these bytes and goes on behind them. */
  ghost predicate StartsChar(s: bytes)
  {
    exists w :: GoesOn(s, w)
  }

  predicate GoesOn(s: bytes, w: bytes)
  {
    CharAt(s + w) > |s|
  }

  lemma NotBegun(s: bytes, w: bytes)
    requires s != [] && CharAt(s) == 0 && |s| > Broken(s)
    ensures !GoesOn(s[..Broken(s) + 1], w)
  {
    var n := Broken(s);
    var t := s[..n + 1] + w;
    assert t[0] == s[0] && t[1] == s[1];
    assert n >= 2 ==> t[2] == s[2];
    assert n >= 3 ==> t[3] == s[3];
  }

  lemma Begun(s: bytes)
    requires s != [] && CharAt(s) == 0 && Broken(s) > 1
    ensures StartsChar(s[..Broken(s)])
  {
    var n := Broken(s);
    if s[0] <= 0xEF {
      assert GoesOn(s[..2], [0x80]);
    } else if n == 2 {
      assert GoesOn(s[..2], [0x80, 0x80]);
    } else {
      assert GoesOn(s[..3], [0x80]);
    }
  }

  /** Rust replaces at once the longest start of a character that is cut off, or one byte that starts none. */
  lemma LossyRule(s: bytes)
    requires s != [] && CharAt(s) == 0
    ensures Lossy(s) == REPLACEMENT + Lossy(s[Broken(s)..])
    ensures Broken(s) == 1 || StartsChar(s[..Broken(s)])
    ensures |s| > Broken(s) ==> !StartsChar(s[..Broken(s) + 1])
  {
    if Broken(s) > 1 { Begun(s); }
    if |s| > Broken(s) {
      var t := s[..Broken(s) + 1];
      forall w ensures !GoesOn(t, w) {
        NotBegun(s, w);
      }
    }
  }

  /** Text in front of it is not touched. */
  lemma {:induction false} LossyKeepsText(a: bytes, s: bytes)
    requires ValidUtf8(a)
    ensures Lossy(a + s) == a + Lossy(s)
    decreases |a|
  {
    if a == [] {
      assert a + s == s;
    } else {
      LossyFirst(a, s);
      LossyKeepsText(a[CharAt(a)..], s);
      TakeAndRest(a, CharAt(a), Lossy(s));
    }
  }

  lemma LossyFirst(a: bytes, s: bytes)
    requires CharAt(a) > 0
    ensures Lossy(a + s) == a[..CharAt(a)] + Lossy(a[CharAt(a)..] + s)
  {
    var n := CharAt(a);
    CharStays(a, s);
    assert (a + s)[..n] == a[..n] && (a + s)[n..] == a[n..] + s;
  }

  lemma TakeAndRest(a: bytes, n: nat, b: bytes)
    requires n <= |a|
    ensures a[..n] + (a[n..] + b) == a + b
  {
  }

  // ---------------------------------------------------------------- trimming

  lemma SpaceIsChar(s: bytes)
    ensures SpaceAt(s) > 0 ==> CharAt(s) == SpaceAt(s)
  {
  }

  lemma {:induction false} TrimLeftIsValid(s: bytes)
    requires ValidUtf8(s)
    ensures ValidUtf8(TrimLeft(s))
    decreases |s|
  {
    if SpaceAt(s) > 0 {
      SpaceIsChar(s);
      TrimLeftIsValid(s[SpaceAt(s)..]);
    }
  }

  lemma {:induction false} TrimRightIsValid(s: bytes)
    requires ValidUtf8(s)
    ensures ValidUtf8(TrimRight(s))
    decreases |s|
  {
    var n := SpaceEnd(s);
    if n > 0 {
      CutIsValid(s, |s| - n);
      TrimRightIsValid(s[..|s| - n]);
    }
  }

  /** White space is made of whole characters, so trimming text leaves text. */
  lemma TrimIsValid(s: bytes)
    requires ValidUtf8(s)
    ensures ValidUtf8(Trim(s))
  {
    TrimLeftIsValid(s);
    TrimRightIsValid(TrimLeft(s));
  }
}
