/**
 The profile command: splitting its text into `key=value` pairs whose values may contain
 spaces, and removing the protocol's delimiters from what is stored.
 */
module Profile {
  import opened Bytes
  import opened Utf8

  const NICK: bytes := [0x6E, 0x69, 0x63, 0x6B]
  const BIO: bytes := [0x62, 0x69, 0x6F]
  const HIDE: bytes := [0x68, 0x69, 0x64, 0x65]
  const ZERO: bytes := [0x30]
  const ONE: bytes := [0x31]
  const MAX_NICK := 32
  const MAX_BIO := 200

  // ---------------------------------------------------------------- fields

  /** How many bytes precede the first white space. */
  function WordLength(s: bytes): (n: nat)
    ensures n <= |s|
  {
    if s == [] || SpaceAt(s) > 0 then 0 else 1 + WordLength(s[1..])
  }

  /** The words of `s`: its maximal runs without white space. */
  function Fields(s: bytes): seq<bytes>
    decreases |s|
  {
    if s == [] then []
    else if SpaceAt(s) > 0 then Fields(s[SpaceAt(s)..])
    else [s[..WordLength(s)]] + Fields(s[WordLength(s)..])
  }

  // ---------------------------------------------------------------- pairs

  /** A token that opens a pair has '=' after its first character. */
  predicate OpensPair(tok: bytes)
  {
    var i := Find(tok, EQUALS);
    i.Some? && i.value > 0
  }

  /** The parser between two tokens: finished pairs, the open key (empty: none) and its value. */
  datatype Pairs = Pairs(done: map<bytes, bytes>, key: bytes, val: bytes)

  function Flush(p: Pairs): map<bytes, bytes>
  {
    if p.key == [] then p.done else p.done[p.key := Trim(p.val)]
  }

  function TakeToken(p: Pairs, tok: bytes): Pairs
  {
    if OpensPair(tok) then
      var i := Find(tok, EQUALS).value;
      Pairs(Flush(p), tok[..i], tok[i + 1..])
    else if p.key != [] then p.(val := p.val + [SPACE] + tok)
    else p
  }

  function TakeTokens(p: Pairs, toks: seq<bytes>): Pairs
    decreases |toks|
  {
    if toks == [] then p else TakeTokens(TakeToken(p, toks[0]), toks[1..])
  }

  const NO_PAIRS := Pairs(map[], [], [])

  function ParsePairs(rest: bytes): map<bytes, bytes>
  {
    Flush(TakeTokens(NO_PAIRS, Fields(rest)))
  }

  /** The token loop with its builder: `first` marks the first token. */
  method ParseProfilePairs(rest: bytes) returns (out: map<bytes, bytes>)
    ensures out == ParsePairs(rest)
  {
    out := map[];
    var key: bytes, val: bytes, first := [], [], true;
    var toks := Fields(rest);
    var n := 0;
    while n < |toks|
      invariant n <= |toks|
      invariant TakeTokens(NO_PAIRS, toks) == TakeTokens(Pairs(out, key, val), toks[n..])
      invariant first ==> key == []
    {
      var tok := toks[n];
      var idx := Find(tok, EQUALS);
      if idx.Some? && idx.value > 0 {
        if key != [] { out := out[key := Trim(val)]; }
        key, val := tok[..idx.value], tok[idx.value + 1..];
      } else if !first && key != [] {
        val := val + [SPACE] + tok;
      }
      first := false;
      assert toks[n..][1..] == toks[n + 1..];
      n := n + 1;
    }
    if key != [] { out := out[key := Trim(val)]; }
  }

  // ---------------------------------------------------------------- stored fields

  predicate Delimiter(c: byte)
  {
    c == BAR || c == SEMICOLON || c == COLON || c == 0x0A || c == 0x0D || c == NUL
  }

  /** Go's loop over the characters: delimiters are dropped, and a byte that is not part of a
      character becomes a replacement character. */
  function WithoutDelimiters(s: bytes): (r: bytes)
    ensures forall c :: c in r ==> !Delimiter(c)
    decreases |s|
  {
    var n := CharAt(s);
    if s == [] then []
    else if n == 0 then REPLACEMENT + WithoutDelimiters(s[1..])
    else if Delimiter(s[0]) then WithoutDelimiters(s[1..])
    else
      LeadDecides(s);
      s[..n] + WithoutDelimiters(s[n..])
  }

  lemma LeadDecides(s: bytes)
    requires CharAt(s) > 0 && !Delimiter(s[0])
    ensures forall c :: c in s[..CharAt(s)] ==> !Delimiter(c)
  {
  }

  /** Delimiters dropped and trimmed: the field before it is cut to its length. */
  function Cleaned(s: bytes): bytes
  {
    Trim(WithoutDelimiters(s))
  }

  /** The cut is at a byte offset. */
  function Sanitize(s: bytes, maxLen: nat): bytes
  {
    var t := Cleaned(s);
    if |t| > maxLen then t[..maxLen] else t
  }

  /** The cut falls between two characters, or there is none. */
  predicate CutsWhole(s: bytes, maxLen: nat)
  {
    var t := Cleaned(s);
    |t| > maxLen ==> !Continuation(t[maxLen])
  }

  lemma {:induction false} WithoutDelimitersIsValid(s: bytes)
    ensures ValidUtf8(WithoutDelimiters(s))
    decreases |s|
  {
    if s != [] {
      var n := CharAt(s);
      if n == 0 {
        WithoutDelimitersIsValid(s[1..]);
        assert REPLACEMENT[3..] == [];
        ValidConcat(REPLACEMENT, WithoutDelimiters(s[1..]));
      } else if Delimiter(s[0]) {
        WithoutDelimitersIsValid(s[1..]);
      } else {
        WithoutDelimitersIsValid(s[n..]);
        CharOfPrefix(s, n);
        assert s[..n][n..] == [];
        ValidConcat(s[..n], WithoutDelimiters(s[n..]));
      }
    }
  }

  /** Whatever bytes come in, what is stored is text exactly when the cut does not split a character. */
  lemma SanitizedIsText(s: bytes, maxLen: nat)
    ensures ValidUtf8(Sanitize(s, maxLen)) <==> CutsWhole(s, maxLen)
  {
    WithoutDelimitersIsValid(s);
    TrimIsValid(WithoutDelimiters(s));
    if |Cleaned(s)| > maxLen { CutIsValid(Cleaned(s), maxLen); }
  }

  lemma {:induction false} TrimRightIsPrefix(s: bytes)
    ensures TrimRight(s) <= s
    decreases |s|
  {
    if SpaceEnd(s) > 0 { TrimRightIsPrefix(s[..|s| - SpaceEnd(s)]); }
  }

  lemma {:induction false} TrimLeftIsSuffix(s: bytes)
    ensures exists k :: 0 <= k <= |s| && TrimLeft(s) == s[k..]
    decreases |s|
  {
    if SpaceAt(s) == 0 {
      assert TrimLeft(s) == s[0..];
    } else {
      var n := SpaceAt(s);
      TrimLeftIsSuffix(s[n..]);
      var k :| 0 <= k <= |s[n..]| && TrimLeft(s[n..]) == s[n..][k..];
      assert s[n..][k..] == s[n + k..];
    }
  }

  lemma TrimKeepsBytes(s: bytes)
    ensures forall c :: c in Trim(s) ==> c in s
  {
    TrimLeftIsSuffix(s);
    TrimRightIsPrefix(TrimLeft(s));
    forall c | c in Trim(s) ensures c in s {
      assert c in TrimLeft(s);
    }
  }

  /** A stored field is short enough and free of every delimiter of the protocol. */
  lemma SanitizedIsClean(s: bytes, maxLen: nat)
    ensures |Sanitize(s, maxLen)| <= maxLen
    ensures forall c :: c in Sanitize(s, maxLen) ==> !Delimiter(c)
  {
    TrimKeepsBytes(WithoutDelimiters(s));
  }
}
