/**
 What the profile command means for any text, not only for the dialog's: which keys it has and
 with which values, and what of a value is stored.
 */
module ProfilePairs {
  import opened Wrappers
  import opened Bytes
  import opened Utf8
  import opened Profile
  import opened ProfileRoundTrip

  // ---------------------------------------------------------------- keys and values

  /** The token opens a pair with this key: the key, '=', the start of the value. */
  predicate Opens(tok: bytes, key: bytes)
  {
    key != [] && EQUALS !in key && key + [EQUALS] <= tok
  }

  /** The tokens before the next one that opens a pair. */
  function Leading(toks: seq<bytes>): seq<bytes>
  {
    if toks == [] || OpensPair(toks[0]) then [] else [toks[0]] + Leading(toks[1..])
  }

  /** The last token that opens the key decides: the value is what follows its '=' and the tokens up to the
      next pair, with single spaces, trimmed. */
  function LastValue(toks: seq<bytes>, key: bytes): Option<bytes>
  {
    if toks == [] then None
    else
      var later := LastValue(toks[1..], key);
      if later.Some? then later
      else if Opens(toks[0], key) then Some(Trim(toks[0][|key| + 1..] + Spaced(Leading(toks[1..]))))
      else None
  }

  function ValueOf(pairs: map<bytes, bytes>, key: bytes): Option<bytes>
  {
    if key in pairs then Some(pairs[key]) else None
  }

  /** A token opens at most one pair, and its key is what stands before the first '='. */
  lemma OpensOne(tok: bytes, key: bytes)
    ensures Opens(tok, key) <==> OpensPair(tok) && tok[..Find(tok, EQUALS).value] == key
  {
    if Opens(tok, key) {
      assert tok == key + [EQUALS] + tok[|key| + 1..];
      FindFirst(key, EQUALS, tok[|key| + 1..]);
    }
  }

  lemma OpenedPair(p: Pairs, tok: bytes, key: bytes)
    requires OpensPair(tok)
    ensures TakeToken(p, tok).done == Flush(p) && TakeToken(p, tok).key != []
    ensures TakeToken(p, tok).key == key <==> Opens(tok, key)
    ensures Opens(tok, key) ==> TakeToken(p, tok).val == tok[|key| + 1..]
  {
    OpensOne(tok, key);
  }

  /** The parser between two tokens, seen from one key. */
  lemma {:induction false} ResultIs(p: Pairs, toks: seq<bytes>, key: bytes)
    requires key != []
    ensures ValueOf(Flush(TakeTokens(p, toks)), key)
         == if LastValue(toks, key).Some? then LastValue(toks, key)
            else if p.key == key then Some(Trim(p.val + Spaced(Leading(toks))))
            else ValueOf(p.done, key)
    decreases |toks|
  {
    if toks == [] {
      assert p.val + [] == p.val;
    } else {
      ResultIs(TakeToken(p, toks[0]), toks[1..], key);
      OpensOne(toks[0], key);
      if OpensPair(toks[0]) {
        OpenedPair(p, toks[0], key);
        assert p.val + [] == p.val;
      } else {
        SpacedAfter(p.val, Leading(toks));
        assert Leading(toks)[0] == toks[0] && Leading(toks)[1..] == Leading(toks[1..]);
      }
    }
  }

  /** Every text has exactly the keys its tokens open, each with the value of the last. */
  lemma PairsAre(rest: bytes, key: bytes)
    ensures ValueOf(ParsePairs(rest), key) == LastValue(Fields(rest), key)
  {
    if key == [] {
      NoEmptyKey(NO_PAIRS, Fields(rest));
      NothingOpens(Fields(rest));
    } else {
      ResultIs(NO_PAIRS, Fields(rest), key);
    }
  }

  lemma {:induction false} NothingOpens(toks: seq<bytes>)
    ensures LastValue(toks, []) == None
  {
    if toks != [] { NothingOpens(toks[1..]); }
  }

  lemma {:induction false} NoEmptyKey(p: Pairs, toks: seq<bytes>)
    requires [] !in p.done
    ensures [] !in Flush(TakeTokens(p, toks))
    decreases |toks|
  {
    if toks != [] { NoEmptyKey(TakeToken(p, toks[0]), toks[1..]); }
  }

  // ---------------------------------------------------------------- what is stored of a value

  /** The bytes that are no delimiters. */
  function Kept(s: bytes): bytes
  {
    if s == [] then [] else (if Delimiter(s[0]) then [] else [s[0]]) + Kept(s[1..])
  }

  lemma {:induction false} KeptConcat(a: bytes, b: bytes)
    ensures Kept(a + b) == Kept(a) + Kept(b)
  {
    if a == [] {
      assert a + b == b;
    } else {
      assert (a + b)[1..] == a[1..] + b;
      KeptConcat(a[1..], b);
    }
  }

  lemma {:induction false} NothingToDrop(s: bytes)
    requires forall c :: c in s ==> !Delimiter(c)
    ensures Kept(s) == s
  {
    if s != [] {
      assert forall c :: c in s[1..] ==> c in s;
      NothingToDrop(s[1..]);
    }
  }

  /** One character of the text, and the rest. */
  lemma KeptChar(s: bytes)
    requires s != [] && CharAt(s) > 0
    ensures Kept(s[..CharAt(s)]) == if Delimiter(s[0]) then [] else s[..CharAt(s)]
    ensures Delimiter(s[0]) ==> CharAt(s) == 1
  {
    if Delimiter(s[0]) {
      assert s[..1] == [s[0]] && s[..1][1..] == [];
    } else {
      LeadDecides(s);
      NothingToDrop(s[..CharAt(s)]);
    }
  }

  /** Dropping the delimiters works byte by byte on what the bytes are as text. */
  lemma {:induction false} CleanedIsKept(s: bytes)
    ensures WithoutDelimiters(s) == Kept(Coerce(s))
    decreases |s|
  {
    if s != [] {
      var n := CharAt(s);
      if n == 0 {
        CleanedIsKept(s[1..]);
        NothingToDrop(REPLACEMENT);
        KeptConcat(REPLACEMENT, Coerce(s[1..]));
      } else {
        CleanedIsKept(s[n..]);
        KeptChar(s);
        KeptConcat(s[..n], Coerce(s[n..]));
      }
    }
  }

  /** What is stored of a value: its text without delimiters, trimmed, and of that at most the first bytes. */
  lemma StoredIs(s: bytes, maxLen: nat)
    ensures var t := Trim(Kept(Coerce(s))); Sanitize(s, maxLen) == t[..if |t| < maxLen then |t| else maxLen]
  {
    CleanedIsKept(s);
  }
}
