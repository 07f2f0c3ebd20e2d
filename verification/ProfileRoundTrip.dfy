/**
 When the profile command printed by the client is parsed back by the server.
 */
module ProfileRoundTrip {
  import opened Wrappers
  import opened Bytes
  import opened Profile

  const NICK_IS: bytes := NICK + [EQUALS]
  const BIO_IS: bytes := BIO + [EQUALS]
  const HIDE_IS: bytes := HIDE + [EQUALS]

  function Flag(b: bool): bytes
  {
    if b then ONE else ZERO
  }

  /** What follows "/profile set ". */
  function Print(nick: bytes, bio: bytes, hidden: bool): bytes
  {
    (NICK_IS + nick) + [SPACE] + ((BIO_IS + bio) + [SPACE] + (HIDE_IS + Flag(hidden)))
  }

  /** White-space runs become single spaces. */
  function Normalized(s: bytes): bytes
  {
    Join(Fields(s), SPACE)
  }

  /** The word a value starts with, if it starts with one; it is printed right after the '='. */
  function FirstWord(s: bytes): bytes
  {
    s[..WordLength(s)]
  }

  /** The words that are printed as separate tokens. */
  function SeparateWords(s: bytes): seq<bytes>
  {
    Fields(s[WordLength(s)..])
  }

  /** No separate word looks like the start of a pair. */
  ghost predicate Plain(s: bytes)
  {
    forall w :: w in SeparateWords(s) ==> !OpensPair(w)
  }

  // ---------------------------------------------------------------- fields of printed text

  lemma SpaceStaysSpace(a: bytes, rest: bytes)
    ensures SpaceAt(a) > 0 ==> SpaceAt(a + rest) == SpaceAt(a)
  {
  }

  lemma NoSpaceBefore(a: bytes, rest: bytes)
    requires a != [] && SpaceAt(a) == 0
    ensures SpaceAt(a + [SPACE] + rest) == 0
  {
    var s := a + [SPACE] + rest;
    assert s[0] == a[0];
    assert s[1] == if |a| >= 2 then a[1] else SPACE;
    assert |s| >= 3 ==> |a| >= 3 ==> s[2] == a[2];
    assert |a| == 2 ==> s[2] == SPACE;
  }

  lemma {:induction false} WordEndsAtSpace(a: bytes, rest: bytes)
    ensures WordLength(a + [SPACE] + rest) == WordLength(a)
  {
    var s := a + [SPACE] + rest;
    if a != [] {
      if SpaceAt(a) > 0 {
        SpaceStaysSpace(a, [SPACE] + rest);
        assert s == a + ([SPACE] + rest);
      } else {
        NoSpaceBefore(a, rest);
        assert s[1..] == a[1..] + [SPACE] + rest;
        WordEndsAtSpace(a[1..], rest);
      }
    }
  }

  lemma SpaceSkipped(a: bytes, rest: bytes)
    requires SpaceAt(a) > 0
    ensures Fields(a + rest) == Fields(a[SpaceAt(a)..] + rest) && Fields(a) == Fields(a[SpaceAt(a)..])
  {
    SpaceStaysSpace(a, rest);
    assert (a + rest)[SpaceAt(a)..] == a[SpaceAt(a)..] + rest;
  }

  lemma WordTaken(a: bytes, b: bytes)
    requires a != [] && SpaceAt(a) == 0
    ensures var n := WordLength(a);
      && Fields(a + [SPACE] + b) == [a[..n]] + Fields(a[n..] + [SPACE] + b)
      && Fields(a) == [a[..n]] + Fields(a[n..])
  {
    var s, n := a + [SPACE] + b, WordLength(a);
    NoSpaceBefore(a, b);
    WordEndsAtSpace(a, b);
    assert s[..n] == a[..n];
    assert s[n..] == a[n..] + [SPACE] + b;
  }

  /** A space separates words: the fields of `a b` are those of `a` and those of `b`. */
  lemma {:induction false} FieldsAcrossSpace(a: bytes, b: bytes)
    ensures Fields(a + [SPACE] + b) == Fields(a) + Fields(b)
    decreases |a|
  {
    if a == [] {
      LeadingSpace(b);
    } else if SpaceAt(a) > 0 {
      SpaceSkippedBefore(a, b);
      FieldsAcrossSpace(a[SpaceAt(a)..], b);
    } else {
      var word, rest := a[..WordLength(a)], a[WordLength(a)..];
      WordTaken(a, b);
      FieldsAcrossSpace(rest, b);
      Associate([word], Fields(rest), Fields(b));
    }
  }

  lemma SpaceSkippedBefore(a: bytes, b: bytes)
    requires SpaceAt(a) > 0
    ensures Fields(a + [SPACE] + b) == Fields(a[SpaceAt(a)..] + [SPACE] + b)
    ensures Fields(a) == Fields(a[SpaceAt(a)..])
  {
    var rest := a[SpaceAt(a)..];
    SpaceSkipped(a, [SPACE] + b);
    assert a + [SPACE] + b == a + ([SPACE] + b) && rest + [SPACE] + b == rest + ([SPACE] + b);
  }

  lemma LeadingSpace(b: bytes)
    ensures Fields([] + [SPACE] + b) == Fields([]) + Fields(b)
  {
    assert ([] + [SPACE] + b)[1..] == b;
    assert [] + Fields(b) == Fields(b);
  }

  lemma Associate(x: seq<bytes>, y: seq<bytes>, z: seq<bytes>)
    ensures x + (y + z) == (x + y) + z
  {
  }

  ghost predicate AllVisible(p: bytes)
  {
    forall i :: 0 <= i < |p| ==> Visible(p[i])
  }

  lemma {:induction false} VisiblePrefixJoinsWord(p: bytes, s: bytes)
    requires AllVisible(p)
    ensures WordLength(p + s) == |p| + WordLength(s)
  {
    if p == [] {
      assert p + s == s;
    } else {
      assert (p + s)[1..] == p[1..] + s;
      VisiblePrefixJoinsWord(p[1..], s);
    }
  }

  /** A visible prefix is glued to the first word. */
  lemma GluedFields(p: bytes, s: bytes)
    requires p != [] && AllVisible(p)
    ensures Fields(p + s) == [p + FirstWord(s)] + SeparateWords(s)
  {
    VisiblePrefixJoinsWord(p, s);
    var n := WordLength(s);
    assert (p + s)[..|p| + n] == p + s[..n];
    assert (p + s)[|p| + n..] == s[n..];
  }

  lemma FieldsSplit(s: bytes)
    ensures Fields(s) == (if FirstWord(s) == [] then [] else [FirstWord(s)]) + SeparateWords(s)
  {
    if FirstWord(s) == [] {
      assert s[0..] == s;
    }
  }

  // ---------------------------------------------------------------- words have nothing to trim

  lemma {:induction false} NoSpaceInWord(s: bytes, i: nat)
    requires i <= WordLength(s)
    ensures i < WordLength(s) ==> SpaceAt(s[i..]) == 0
  {
    if i > 0 {
      NoSpaceInWord(s[1..], i - 1);
      assert s[1..][i - 1..] == s[i..];
    } else {
      assert s[0..] == s;
    }
  }

  lemma EndingSpaceStarts(w: bytes)
    ensures SpaceEnd(w) > 0 ==> SpaceAt(w[|w| - SpaceEnd(w)..]) > 0
  {
  }

  lemma WordIsTrimmed(s: bytes)
    requires WordLength(s) > 0
    ensures Trimmed(FirstWord(s))
  {
    var w, n := FirstWord(s), WordLength(s);
    var m := SpaceEnd(w);
    NoSpaceInWord(s, 0);
    SpaceStaysSpace(w, s[n..]);
    assert w + s[n..] == s && s[0..] == s;
    EndingSpaceStarts(w);
    SpaceStaysSpace(w[n - m..], s[n..]);
    assert w[n - m..] + s[n..] == s[n - m..];
    NoSpaceInWord(s, n - m);
  }

  ghost predicate Words(ws: seq<bytes>)
  {
    forall i :: 0 <= i < |ws| ==> ws[i] != [] && Trimmed(ws[i])
  }

  lemma {:induction false} FieldsAreWords(s: bytes)
    ensures Words(Fields(s))
    decreases |s|
  {
    if s != [] {
      if SpaceAt(s) > 0 {
        FieldsAreWords(s[SpaceAt(s)..]);
      } else {
        WordIsTrimmed(s);
        FieldsAreWords(s[WordLength(s)..]);
      }
    }
  }

  lemma SpaceEndBehindSpace(a: bytes, b: bytes)
    requires b != [] && SpaceEnd(b) == 0
    ensures SpaceEnd(a + [SPACE] + b) == 0
  {
    var s := a + [SPACE] + b;
    var k := |s|;
    assert s[k - 1] == b[|b| - 1];
    assert s[k - 2] == if |b| >= 2 then b[|b| - 2] else SPACE;
    assert |b| >= 3 ==> s[k - 3] == b[|b| - 3];
    assert |b| == 2 ==> s[k - 3] == SPACE;
  }

  lemma {:induction false} JoinedWordsAreTrimmed(ws: seq<bytes>)
    requires Words(ws)
    ensures Trimmed(Join(ws, SPACE)) && (ws != [] ==> Join(ws, SPACE) != [])
  {
    if |ws| > 1 {
      JoinedWordsAreTrimmed(ws[1..]);
      NoSpaceBefore(ws[0], Join(ws[1..], SPACE));
      SpaceEndBehindSpace(ws[0], Join(ws[1..], SPACE));
    }
  }

  // ---------------------------------------------------------------- taking tokens

  lemma {:induction false} TakeConcat(p: Pairs, a: seq<bytes>, b: seq<bytes>)
    ensures TakeTokens(p, a + b) == TakeTokens(TakeTokens(p, a), b)
    decreases |a|
  {
    if a == [] {
      assert a + b == b;
    } else {
      assert (a + b)[1..] == a[1..] + b;
      TakeConcat(TakeToken(p, a[0]), a[1..], b);
    }
  }

  /** Tokens that open nothing are added to the value, each behind a space. */
  function Spaced(toks: seq<bytes>): bytes
  {
    if toks == [] then [] else [SPACE] + toks[0] + Spaced(toks[1..])
  }

  lemma {:induction false} TakePlain(p: Pairs, toks: seq<bytes>)
    requires p.key != [] && forall w :: w in toks ==> !OpensPair(w)
    ensures TakeTokens(p, toks) == p.(val := p.val + Spaced(toks))
    decreases |toks|
  {
    if toks == [] {
      assert p.val + [] == p.val;
    } else {
      TakePlain(TakeToken(p, toks[0]), toks[1..]);
      SpacedAfter(p.val, toks);
    }
  }

  lemma SpacedAfter(v: bytes, toks: seq<bytes>)
    requires toks != []
    ensures (v + [SPACE] + toks[0]) + Spaced(toks[1..]) == v + Spaced(toks)
  {
  }

  lemma {:induction false} SpacedIsJoin(w: bytes, ws: seq<bytes>)
    ensures w + Spaced(ws) == Join([w] + ws, SPACE)
    decreases |ws|
  {
    if ws == [] {
      assert [w] + ws == [w];
    } else {
      SpacedIsJoin(ws[0], ws[1..]);
      assert ([w] + ws)[1..] == [ws[0]] + ws[1..];
    }
  }

  /** The value collected for a plain field is the field with its white space normalised. */
  lemma CollectedIsNormalized(s: bytes)
    ensures Trim(FirstWord(s) + Spaced(SeparateWords(s))) == Normalized(s)
  {
    var first, sep := FirstWord(s), SeparateWords(s);
    FieldsSplit(s);
    FieldsAreWords(s);
    JoinedWordsAreTrimmed(Fields(s));
    if first != [] {
      SpacedIsJoin(first, sep);
    } else if sep != [] {
      assert Fields(s) == sep;
      SpacedStartsWithSpace(sep);
      assert first + Spaced(sep) == Spaced(sep);
    } else {
      assert Fields(s) == [];
    }
  }

  lemma SpacedStartsWithSpace(sep: seq<bytes>)
    requires sep != [] && Trim(Join(sep, SPACE)) == Join(sep, SPACE)
    ensures Trim(Spaced(sep)) == Join(sep, SPACE)
  {
    var v := Join(sep, SPACE);
    SpacedIsJoin(sep[0], sep[1..]);
    assert [sep[0]] + sep[1..] == sep;
    assert Spaced(sep) == [SPACE] + v;
    assert ([SPACE] + v)[1..] == v;
    assert TrimLeft([SPACE] + v) == TrimLeft(v);
  }

  lemma FindIn(key: bytes, rest: bytes)
    requires EQUALS !in key && key != []
    ensures Find(key + [EQUALS] + rest, EQUALS) == Some(|key|) && OpensPair(key + [EQUALS] + rest)
  {
    FindFirst(key, EQUALS, rest);
  }

  /** One printed field: the open pair before it is finished, its own value is collected. */
  lemma TakeField(p: Pairs, key: bytes, s: bytes)
    requires key != [] && EQUALS !in key && AllVisible(key) && Plain(s)
    ensures TakeTokens(p, Fields(key + [EQUALS] + s)) == Pairs(Flush(p), key, FirstWord(s) + Spaced(SeparateWords(s)))
  {
    var glued := key + [EQUALS] + FirstWord(s);
    GluedFields(key + [EQUALS], s);
    FindIn(key, FirstWord(s));
    assert glued[..|key|] == key && glued[|key| + 1..] == FirstWord(s);
    TakePlain(Pairs(Flush(p), key, FirstWord(s)), SeparateWords(s));
    assert Fields(key + [EQUALS] + s)[0] == glued;
  }

  lemma FlagIsPlain(hidden: bool)
    ensures Plain(Flag(hidden)) && Fields(Flag(hidden)) == [Flag(hidden)] && Normalized(Flag(hidden)) == Flag(hidden)
  {
    var f := Flag(hidden);
    assert WordLength(f[1..]) == 0;
    assert WordLength(f) == 1;
    assert f[1..] == [] && f[..1] == f;
    assert Fields(f) == [f] + Fields([]);
  }

  lemma PrintedFields(nick: bytes, bio: bytes, hidden: bool)
    ensures Fields(Print(nick, bio, hidden))
         == Fields(NICK_IS + nick) + (Fields(BIO_IS + bio) + Fields(HIDE_IS + Flag(hidden)))
  {
    FieldsAcrossSpace(NICK_IS + nick, (BIO_IS + bio) + [SPACE] + (HIDE_IS + Flag(hidden)));
    FieldsAcrossSpace(BIO_IS + bio, HIDE_IS + Flag(hidden));
  }

  /** The parse returns nick and bio with their white space normalised, and the flag. */
  ghost predicate Returned(pairs: map<bytes, bytes>, nick: bytes, bio: bytes, hidden: bool)
  {
    && NICK in pairs && pairs[NICK] == Normalized(nick)
    && BIO in pairs && pairs[BIO] == Normalized(bio)
    && HIDE in pairs && pairs[HIDE] == Flag(hidden)
  }

  /** What the token loop has collected for a plain field. */
  function Collected(s: bytes): bytes
  {
    FirstWord(s) + Spaced(SeparateWords(s))
  }

  ghost predicate PlainKey(key: bytes)
  {
    key != [] && EQUALS !in key && AllVisible(key)
  }

  /** A plain field followed by more tokens. */
  lemma TakeFieldThen(p: Pairs, key: bytes, s: bytes, rest: seq<bytes>)
    requires PlainKey(key) && Plain(s)
    ensures TakeTokens(p, Fields(key + [EQUALS] + s) + rest) == TakeTokens(Pairs(Flush(p), key, Collected(s)), rest)
  {
    TakeField(p, key, s);
    TakeConcat(p, Fields(key + [EQUALS] + s), rest);
  }

  /** Three plain fields in a row leave three pairs: two finished, the last still open. */
  lemma TakeThreeFields(k1: bytes, s1: bytes, k2: bytes, s2: bytes, k3: bytes, s3: bytes)
    requires PlainKey(k1) && PlainKey(k2) && PlainKey(k3) && Plain(s1) && Plain(s2) && Plain(s3)
    ensures TakeTokens(NO_PAIRS, Fields(k1 + [EQUALS] + s1) + (Fields(k2 + [EQUALS] + s2) + Fields(k3 + [EQUALS] + s3)))
         == Pairs(map[k1 := Trim(Collected(s1))][k2 := Trim(Collected(s2))], k3, Collected(s3))
  {
    var b, c := Fields(k2 + [EQUALS] + s2), Fields(k3 + [EQUALS] + s3);
    var p1 := Pairs(map[], k1, Collected(s1));
    var p2 := Pairs(map[k1 := Trim(Collected(s1))], k2, Collected(s2));
    TakeFieldThen(NO_PAIRS, k1, s1, b + c);
    TakeFieldThen(p1, k2, s2, c);
    TakeField(p2, k3, s3);
  }

  lemma KeysDiffer()
    ensures NICK != BIO && NICK != HIDE && BIO != HIDE
    ensures PlainKey(NICK) && PlainKey(BIO) && PlainKey(HIDE)
  {
    assert NICK[0] == 0x6E && BIO[0] == 0x62 && HIDE[0] == 0x68;
  }

  lemma PlainIsReturned(nick: bytes, bio: bytes, hidden: bool)
    requires Plain(nick) && Plain(bio)
    ensures Returned(ParsePairs(Print(nick, bio, hidden)), nick, bio, hidden)
    ensures ParsePairs(Print(nick, bio, hidden)).Keys == {NICK, BIO, HIDE}
  {
    var f := Flag(hidden);
    FlagIsPlain(hidden);
    PrintedFields(nick, bio, hidden);
    KeysDiffer();
    TakeThreeFields(NICK, nick, BIO, bio, HIDE, f);
    CollectedIsNormalized(nick);
    CollectedIsNormalized(bio);
    CollectedIsNormalized(f);
  }

  // ---------------------------------------------------------------- why nothing weaker suffices

  /** The bytes of a string other than spaces. */
  function Ink(s: bytes): nat
  {
    if s == [] then 0 else (if s[0] == SPACE then 0 else 1) + Ink(s[1..])
  }

  function InkAll(toks: seq<bytes>): nat
  {
    if toks == [] then 0 else Ink(toks[0]) + InkAll(toks[1..])
  }

  /** The ink a token uses up when it opens a pair: the key and its '='. */
  function UsedBy(tok: bytes): nat
  {
    if OpensPair(tok) then Ink(tok[..Find(tok, EQUALS).value + 1]) else 0
  }

  function Used(toks: seq<bytes>): nat
  {
    if toks == [] then 0 else UsedBy(toks[0]) + Used(toks[1..])
  }

  lemma {:induction false} InkConcat(a: bytes, b: bytes)
    ensures Ink(a + b) == Ink(a) + Ink(b)
  {
    if a == [] {
      assert a + b == b;
    } else {
      assert (a + b)[1..] == a[1..] + b;
      InkConcat(a[1..], b);
    }
  }

  lemma {:induction false} TokensConcat(a: seq<bytes>, b: seq<bytes>)
    ensures InkAll(a + b) == InkAll(a) + InkAll(b) && Used(a + b) == Used(a) + Used(b)
  {
    if a == [] {
      assert a + b == b;
    } else {
      assert (a + b)[1..] == a[1..] + b;
      TokensConcat(a[1..], b);
    }
  }

  lemma {:induction false} TrimLeftLosesInk(s: bytes)
    ensures Ink(TrimLeft(s)) <= Ink(s)
    decreases |s|
  {
    var n := SpaceAt(s);
    if n > 0 {
      TrimLeftLosesInk(s[n..]);
      CutInk(s, n);
    }
  }

  lemma {:induction false} TrimRightLosesInk(s: bytes)
    ensures Ink(TrimRight(s)) <= Ink(s)
    decreases |s|
  {
    var n := |s| - SpaceEnd(s);
    if n < |s| {
      TrimRightLosesInk(s[..n]);
      CutInk(s, n);
    }
  }

  function InkAt(m: map<bytes, bytes>, k: bytes): nat
  {
    if k in m then Ink(m[k]) else 0
  }

  /** The ink of the three values the server looks at. */
  function InkOf(m: map<bytes, bytes>): nat
  {
    InkAt(m, NICK) + InkAt(m, BIO) + InkAt(m, HIDE)
  }

  lemma FlushInk(p: Pairs)
    ensures InkOf(Flush(p)) <= InkOf(p.done) + Ink(p.val)
  {
    TrimLeftLosesInk(p.val);
    TrimRightLosesInk(TrimLeft(p.val));
    KeysDiffer();
  }

  lemma CutInk(s: bytes, i: nat)
    requires i <= |s|
    ensures Ink(s) == Ink(s[..i]) + Ink(s[i..])
  {
    assert s == s[..i] + s[i..];
    InkConcat(s[..i], s[i..]);
  }

  /** Taking a token never gains ink, and an opening token loses what it uses. */
  lemma TokenInk(p: Pairs, tok: bytes)
    ensures InkOf(TakeToken(p, tok).done) + Ink(TakeToken(p, tok).val) + UsedBy(tok)
         <= InkOf(p.done) + Ink(p.val) + Ink(tok)
  {
    if OpensPair(tok) {
      FlushInk(p);
      CutInk(tok, Find(tok, EQUALS).value + 1);
    } else if p.key != [] {
      InkConcat(p.val + [SPACE], tok);
      InkConcat(p.val, [SPACE]);
    }
  }

  lemma {:induction false} TokensInk(p: Pairs, toks: seq<bytes>)
    ensures InkOf(TakeTokens(p, toks).done) + Ink(TakeTokens(p, toks).val) + Used(toks)
         <= InkOf(p.done) + Ink(p.val) + InkAll(toks)
    decreases |toks|
  {
    if toks != [] {
      TokenInk(p, toks[0]);
      TokensInk(TakeToken(p, toks[0]), toks[1..]);
    }
  }

  lemma {:induction false} JoinInk(ws: seq<bytes>)
    ensures Ink(Join(ws, SPACE)) == InkAll(ws)
  {
    if |ws| == 1 {
      assert InkAll(ws[1..]) == 0;
    } else if |ws| > 1 {
      JoinInk(ws[1..]);
      InkConcat(ws[0] + [SPACE], Join(ws[1..], SPACE));
      InkConcat(ws[0], [SPACE]);
    }
  }

  lemma {:induction false} OpeningWordIsUsed(ws: seq<bytes>, w: bytes)
    requires w in ws && OpensPair(w)
    ensures Used(ws) >= 1
  {
    if ws[0] == w {
      var i := Find(w, EQUALS).value;
      CutInk(w[..i + 1], i);
      assert w[..i + 1][i..] == [EQUALS];
    } else {
      OpeningWordIsUsed(ws[1..], w);
    }
  }

  /** A printed field: its ink is that of key, '=' and words, and the key and '=' are used up. */
  lemma FieldInk(key: bytes, s: bytes)
    requires key != [] && EQUALS !in key && AllVisible(key)
    ensures InkAll(Fields(key + [EQUALS] + s)) == Ink(key) + 1 + Ink(Normalized(s))
    ensures Used(Fields(key + [EQUALS] + s)) == Ink(key) + 1 + Used(SeparateWords(s))
  {
    var first, sep := FirstWord(s), SeparateWords(s);
    var glued := key + [EQUALS] + first;
    GluedFields(key + [EQUALS], s);
    FindIn(key, first);
    CutInk(glued, |key| + 1);
    assert glued[..|key| + 1] == key + [EQUALS] && glued[|key| + 1..] == first;
    InkConcat(key, [EQUALS]);
    FieldsSplit(s);
    JoinInk(Fields(s));
    assert ([glued] + sep)[1..] == sep && ([first] + sep)[1..] == sep;
  }

  /** The printed command uses up at least the ink of its three keys, and more if a word opens a pair. */
  lemma CommandInk(nick: bytes, bio: bytes, hidden: bool)
    ensures var toks := Fields(Print(nick, bio, hidden));
      Used(toks) - Used(SeparateWords(nick)) - Used(SeparateWords(bio))
      >= InkAll(toks) - Ink(Normalized(nick)) - Ink(Normalized(bio)) - Ink(Flag(hidden))
  {
    var f := Flag(hidden);
    PrintedFields(nick, bio, hidden);
    FlagIsPlain(hidden);
    KeysDiffer();
    ThreeFieldsInk(NICK, nick, BIO, bio, HIDE, f);
  }

  lemma ThreeFieldsInk(k1: bytes, s1: bytes, k2: bytes, s2: bytes, k3: bytes, s3: bytes)
    requires PlainKey(k1) && PlainKey(k2) && PlainKey(k3)
    ensures var toks := Fields(k1 + [EQUALS] + s1) + (Fields(k2 + [EQUALS] + s2) + Fields(k3 + [EQUALS] + s3));
      Used(toks) - Used(SeparateWords(s1)) - Used(SeparateWords(s2))
      >= InkAll(toks) - Ink(Normalized(s1)) - Ink(Normalized(s2)) - Ink(Normalized(s3))
  {
    var a, b, c := Fields(k1 + [EQUALS] + s1), Fields(k2 + [EQUALS] + s2), Fields(k3 + [EQUALS] + s3);
    TokensConcat(a, b + c);
    TokensConcat(b, c);
    FieldInk(k1, s1);
    FieldInk(k2, s2);
    FieldInk(k3, s3);
  }

  /** If all three values come back, no separate word opened a pair: there is no ink to pay for it. */
  lemma ReturnedIsPlain(nick: bytes, bio: bytes, hidden: bool)
    requires Returned(ParsePairs(Print(nick, bio, hidden)), nick, bio, hidden)
    ensures Plain(nick) && Plain(bio)
  {
    var toks := Fields(Print(nick, bio, hidden));
    TokensInk(NO_PAIRS, toks);
    FlushInk(TakeTokens(NO_PAIRS, toks));
    CommandInk(nick, bio, hidden);
    forall w | w in SeparateWords(nick) ensures !OpensPair(w) {
      if OpensPair(w) { OpeningWordIsUsed(SeparateWords(nick), w); }
    }
    forall w | w in SeparateWords(bio) ensures !OpensPair(w) {
      if OpensPair(w) { OpeningWordIsUsed(SeparateWords(bio), w); }
    }
  }

  /**
   The server reads back the nick and bio the client printed, white space normalised, and the
   same flag, exactly when no separate word of nick or bio has '=' after its first character.
   */
  lemma ProfileRoundTrip(nick: bytes, bio: bytes, hidden: bool)
    ensures Returned(ParsePairs(Print(nick, bio, hidden)), nick, bio, hidden) <==> Plain(nick) && Plain(bio)
  {
    if Plain(nick) && Plain(bio) {
      PlainIsReturned(nick, bio, hidden);
    }
    if Returned(ParsePairs(Print(nick, bio, hidden)), nick, bio, hidden) {
      ReturnedIsPlain(nick, bio, hidden);
    }
  }
}
