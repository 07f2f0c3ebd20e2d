/**
 Reading frames from a connection that delivers its bytes in arbitrary pieces.
 */
module StreamCodec {
  import opened Wrappers
  import opened Bytes
  import opened Frames

  function Flatten(pieces: seq<bytes>): bytes
  {
    if pieces == [] then [] else pieces[0] + Flatten(pieces[1..])
  }

  lemma {:induction false} FlattenAppend(pieces: seq<bytes>, piece: bytes)
    ensures Flatten(pieces + [piece]) == Flatten(pieces) + piece
  {
    if pieces == [] {
      assert [piece] == [piece] + [];
      assert Flatten([piece]) == piece + Flatten([]);
    } else {
      assert (pieces + [piece])[1..] == pieces[1..] + [piece];
      FlattenAppend(pieces[1..], piece);
    }
  }

  // ---------------------------------------------------------------- the meaning of a stream

  datatype Received = Frame(m: Message) | Closed | BadLength(n: nat)

  /** What one read of a frame returns, and what is left of the stream. */
  function Receive(stream: bytes): (Received, bytes)
  {
    if |stream| < HEADER then (Closed, [])
    else
      var n := Length(stream[1..5]);
      if n > MAX_PAYLOAD then (BadLength(n), stream[HEADER..])
      else if |stream| < HEADER + n then (Closed, [])
      else (Frame(Message(stream[0], stream[HEADER..HEADER + n])), stream[HEADER + n..])
  }

  /** Reading until something other than a frame comes. */
  function ReadAll(stream: bytes): (seq<Message>, Received)
    decreases |stream|
  {
    var (r, rest) := Receive(stream);
    if !r.Frame? then ([], r)
    else
      var (ms, end) := ReadAll(rest);
      ([r.m] + ms, end)
  }

  /** The sender refuses payloads above the limit. */
  function Send(m: Message): Option<bytes>
  {
    if |m.payload| > MAX_PAYLOAD then None else Some(Encode(m))
  }

  /** What is on the wire after sending the messages; a refused one leaves no trace. */
  function SendAll(ms: seq<Message>): bytes
  {
    if ms == [] then []
    else
      match Send(ms[0])
      case None => SendAll(ms[1..])
      case Some(frame) => frame + SendAll(ms[1..])
  }

  /** The messages the sender accepts. */
  function Accepted(ms: seq<Message>): seq<Message>
  {
    if ms == [] then []
    else (if Send(ms[0]).Some? then [ms[0]] else []) + Accepted(ms[1..])
  }

  // ---------------------------------------------------------------- the reader

  class Socket {
    /** What the network has delivered and nobody has read yet, piece by piece. */
    var pieces: seq<bytes>

    ghost predicate Valid()
      reads this
    {
      forall i :: 0 <= i < |pieces| ==> pieces[i] != []
    }

    ghost function Stream(): bytes
      reads this
    {
      Flatten(pieces)
    }

    constructor (pieces: seq<bytes>)
      requires forall i :: 0 <= i < |pieces| ==> pieces[i] != []
      ensures Valid() && Stream() == Flatten(pieces)
    {
      this.pieces := pieces;
    }

    /** At most `n` bytes of the first piece; nothing only at the end of the stream. */
    method Recv(n: nat) returns (chunk: bytes)
      requires Valid() && n > 0
      modifies this
      ensures Valid() && |chunk| <= n
      ensures chunk + Stream() == old(Stream())
      ensures chunk == [] <==> old(Stream()) == []
    {
      if pieces == [] { return []; }
      if |pieces[0]| <= n {
        chunk := pieces[0];
        pieces := pieces[1..];
      } else {
        chunk := pieces[0][..n];
        assert pieces[0] == chunk + pieces[0][n..];
        pieces := [pieces[0][n..]] + pieces[1..];
      }
    }
  }

  /** Exactly `n` bytes, however they arrive, or None when the stream ends before. */
  method RecvExact(sock: Socket, n: nat) returns (r: Option<bytes>)
    requires sock.Valid()
    modifies sock
    ensures sock.Valid()
    ensures r == if n <= |old(sock.Stream())| then Some(old(sock.Stream())[..n]) else None
    ensures sock.Stream() == if n <= |old(sock.Stream())| then old(sock.Stream())[n..] else []
  {
    ghost var stream := sock.Stream();
    var chunks: seq<bytes> := [];
    var remaining := n;
    assert Flatten(chunks) + sock.Stream() == stream;
    while remaining > 0
      invariant sock.Valid()
      invariant Flatten(chunks) + sock.Stream() == stream
      invariant 0 <= remaining <= n && |Flatten(chunks)| == n - remaining
      decreases remaining
    {
      var chunk := sock.Recv(remaining);
      if chunk == [] { return None; }
      FlattenAppend(chunks, chunk);
      chunks := chunks + [chunk];
      remaining := remaining - |chunk|;
    }
    r := Some(Flatten(chunks));
    assert stream == r.value + sock.Stream() && |r.value| == n;
  }

  method RecvFrame(sock: Socket) returns (r: Received)
    requires sock.Valid()
    modifies sock
    ensures sock.Valid()
    ensures (r, sock.Stream()) == Receive(old(sock.Stream()))
  {
    ghost var stream := sock.Stream();
    var header := RecvExact(sock, HEADER);
    if header.None? { return Closed; }
    var length := Length(header.value[1..5]);
    assert header.value[1..5] == stream[1..5];
    if length > MAX_PAYLOAD { return BadLength(length); }
    ghost var behind := sock.Stream();
    assert behind == stream[HEADER..];
    var payload := RecvExact(sock, length);
    if payload.None? { return Closed; }
    BehindHeader(stream, length);
    r := Frame(Message(header.value[0], payload.value));
  }

  /** The payload and what follows it, seen from behind the header. */
  lemma BehindHeader(stream: bytes, n: nat)
    requires HEADER + n <= |stream|
    ensures stream[HEADER..][..n] == stream[HEADER..HEADER + n]
    ensures stream[HEADER..][n..] == stream[HEADER + n..]
  {
  }

  /** The connection loop: frames until the stream ends or a length is refused. */
  method ReadFrames(sock: Socket) returns (ms: seq<Message>, end: Received)
    requires sock.Valid()
    modifies sock
    ensures (ms, end) == ReadAll(old(sock.Stream()))
  {
    ghost var all := ReadAll(sock.Stream());
    ms := [];
    end := RecvFrame(sock);
    AfterNothing(old(sock.Stream()));
    while end.Frame?
      invariant sock.Valid()
      invariant all == After(ms, end, sock.Stream())
      decreases |sock.Stream()| + if end.Frame? then 1 else 0
    {
      ghost var before, m, stream := ms, end.m, sock.Stream();
      ms := ms + [end.m];
      end := RecvFrame(sock);
      AfterOneMore(before, m, stream);
    }
  }

  /** The reading loop's result once it has the frames `ms`, has just received `end`, and `stream` is left. */
  ghost function After(ms: seq<Message>, end: Received, stream: bytes): (seq<Message>, Received)
  {
    if !end.Frame? then (ms, end)
    else
      var (more, last) := ReadAll(stream);
      (ms + ([end.m] + more), last)
  }

  lemma AfterNothing(stream: bytes)
    ensures After([], Receive(stream).0, Receive(stream).1) == ReadAll(stream)
  {
    var (r, rest) := Receive(stream);
    if r.Frame? { assert [] + ([r.m] + ReadAll(rest).0) == [r.m] + ReadAll(rest).0; }
  }

  lemma AfterOneMore(ms: seq<Message>, m: Message, stream: bytes)
    ensures After(ms, Frame(m), stream) == After(ms + [m], Receive(stream).0, Receive(stream).1)
  {
    Regroup(ms, [m], ReadAll(stream).0);
  }

  lemma Regroup(a: seq<Message>, b: seq<Message>, c: seq<Message>)
    ensures a + (b + c) == (a + b) + c
    ensures c == [] ==> a + (b + c) == a + b
  {
  }

  // ---------------------------------------------------------------- round trip and truncation

  ghost predicate Sendable(ms: seq<Message>)
  {
    forall i :: 0 <= i < |ms| ==> |ms[i].payload| <= MAX_PAYLOAD
  }

  lemma ReceiveEncoded(m: Message, rest: bytes)
    requires |m.payload| <= MAX_PAYLOAD
    ensures Receive(Encode(m) + rest) == (Frame(m), rest)
  {
    var stream, n := Encode(m) + rest, |m.payload|;
    DecodeInvertsEncode(m, rest);
    EncodedParts(m, rest);
    LengthOfBigEndian(n);
    assert stream[HEADER + n..] == rest;
  }

  /** Whatever the pieces, the messages the sender accepted are read back as they were sent, and then
      the end of the stream is reported. */
  lemma {:induction false} StreamRoundTrip(ms: seq<Message>)
    ensures ReadAll(SendAll(ms)) == (Accepted(ms), Closed)
  {
    if ms != [] {
      StreamRoundTrip(ms[1..]);
      if Send(ms[0]).Some? {
        ReceiveEncoded(ms[0], SendAll(ms[1..]));
      } else {
        assert Accepted(ms) == Accepted(ms[1..]);
      }
    }
  }

  /** The same of the reader: however the network cuts what was sent into pieces, it returns the messages the
      sender accepted and stops at the end of the stream. */
  method ReadBack(sock: Socket, ghost sent: seq<Message>) returns (ms: seq<Message>, end: Received)
    requires sock.Valid() && sock.Stream() == SendAll(sent)
    modifies sock
    ensures ms == Accepted(sent) && end == Closed
  {
    StreamRoundTrip(sent);
    ms, end := ReadFrames(sock);
  }

  lemma RefusedHeader(kind: byte, n: nat, rest: bytes)
    requires MAX_PAYLOAD < n < TWO_32
    ensures Receive([kind] + BigEndian(n) + rest).0 == BadLength(n)
  {
    HeaderIn(kind, BigEndian(n), rest);
    LengthOfBigEndian(n);
    Remainder(n);
    TooLong([kind] + BigEndian(n) + rest);
  }

  lemma HeaderIn(kind: byte, header: bytes, rest: bytes)
    requires |header| == 4
    ensures |[kind] + header + rest| >= HEADER && ([kind] + header + rest)[1..5] == header
  {
  }

  lemma TooLong(stream: bytes)
    requires |stream| >= HEADER && Length(stream[1..5]) > MAX_PAYLOAD
    ensures Receive(stream).0 == BadLength(Length(stream[1..5]))
  {
  }

  /** A header that announces more than 1 MiB ends the reading, after the frames before it have been read. */
  lemma {:induction false} OversizedIsRefused(ms: seq<Message>, kind: byte, n: nat, rest: bytes)
    requires Sendable(ms) && MAX_PAYLOAD < n < TWO_32
    ensures ReadAll(SendAll(ms) + ([kind] + BigEndian(n) + rest)) == (ms, BadLength(n))
  {
    var bad := [kind] + BigEndian(n) + rest;
    if ms == [] {
      RefusedHeader(kind, n, rest);
      assert SendAll(ms) + bad == bad;
    } else {
      assert forall i :: 0 <= i < |ms[1..]| ==> ms[1..][i] == ms[i + 1];
      OversizedIsRefused(ms[1..], kind, n, rest);
      ReceiveEncoded(ms[0], SendAll(ms[1..]) + bad);
      FirstFrame(ms, bad);
    }
  }

  lemma FirstFrame(ms: seq<Message>, tail: bytes)
    requires ms != [] && |ms[0].payload| <= MAX_PAYLOAD
    ensures SendAll(ms) + tail == Encode(ms[0]) + (SendAll(ms[1..]) + tail)
    ensures [ms[0]] + ms[1..] == ms
  {
  }

  lemma {:induction false} AllAccepted(ms: seq<Message>)
    ensures Accepted(ms) == ms <==> Sendable(ms)
    ensures |Accepted(ms)| <= |ms|
  {
    if ms != [] {
      AllAccepted(ms[1..]);
      var rest := Accepted(ms[1..]);
      if Send(ms[0]).Some? {
        assert Accepted(ms) == [ms[0]] + rest;
        assert Accepted(ms) == ms ==> Accepted(ms)[1..] == ms[1..];
        assert Accepted(ms)[1..] == rest && [ms[0]] + ms[1..] == ms;
        assert forall i :: 0 <= i < |ms[1..]| ==> ms[1..][i] == ms[i + 1];
      }
      assert Sendable(ms) <==> Send(ms[0]).Some? && Sendable(ms[1..]);
    }
  }

  /** A proper prefix of one frame reads as the end of the stream. */
  lemma CutInsideFrame(m: Message, cut: nat)
    requires |m.payload| <= MAX_PAYLOAD && cut < |Encode(m)|
    ensures Receive(Encode(m)[..cut]) == (Closed, [])
  {
    var stream := Encode(m)[..cut];
    if HEADER <= cut {
      assert stream[1..5] == Encode(m)[1..5] == BigEndian(|m.payload|);
      LengthOfBigEndian(|m.payload|);
    }
  }

  lemma SendAllTake(ms: seq<Message>, i: nat)
    requires i < |ms| && |ms[0].payload| <= MAX_PAYLOAD
    ensures SendAll(ms[..i + 1]) == Encode(ms[0]) + SendAll(ms[1..][..i])
  {
    assert ms[..i + 1][1..] == ms[1..][..i];
  }

  lemma CutBehind(a: bytes, b: bytes, cut: nat)
    requires |a| <= cut <= |a + b|
    ensures (a + b)[..cut] == a + b[..cut - |a|]
  {
  }

  /** A cut behind the first frame leaves that frame to be read. */
  lemma CutBehindFrame(ms: seq<Message>, cut: nat)
    requires ms != [] && |ms[0].payload| <= MAX_PAYLOAD && |Encode(ms[0])| <= cut <= |SendAll(ms)|
    ensures var (more, end) := ReadAll(SendAll(ms[1..])[..cut - |Encode(ms[0])|]);
      ReadAll(SendAll(ms)[..cut]) == ([ms[0]] + more, end)
  {
    var rest := SendAll(ms[1..])[..cut - |Encode(ms[0])|];
    CutBehind(Encode(ms[0]), SendAll(ms[1..]), cut);
    ReceiveEncoded(ms[0], rest);
  }

  /** The frames `ms[..j]` are complete in the first `cut` bytes, and no more. */
  ghost predicate CompleteIn(ms: seq<Message>, cut: nat, j: nat)
  {
    && j <= |ms|
    && |SendAll(ms[..j])| <= cut
    && (j < |ms| ==> cut < |SendAll(ms[..j + 1])|)
  }

  lemma OneMoreComplete(ms: seq<Message>, cut: nat, i: nat)
    requires ms != [] && |ms[0].payload| <= MAX_PAYLOAD && |Encode(ms[0])| <= cut
    requires CompleteIn(ms[1..], cut - |Encode(ms[0])|, i)
    ensures CompleteIn(ms, cut, i + 1)
  {
    SendAllTake(ms, i);
    if i + 1 < |ms| { SendAllTake(ms, i + 1); }
  }

  lemma NoneComplete(ms: seq<Message>, cut: nat)
    requires ms != [] && |ms[0].payload| <= MAX_PAYLOAD && cut < |Encode(ms[0])| && cut <= |SendAll(ms)|
    ensures CompleteIn(ms, cut, 0)
    ensures ReadAll(SendAll(ms)[..cut]) == ([], Closed)
  {
    SendAllTake(ms, 0);
    CutInsideFrame(ms[0], cut);
    assert SendAll(ms)[..cut] == Encode(ms[0])[..cut];
  }

  lemma FirstAndMore(ms: seq<Message>, i: nat)
    requires i < |ms|
    ensures [ms[0]] + ms[1..][..i] == ms[..i + 1]
  {
  }

  /** A truncated stream yields exactly the frames that are complete in it. */
  lemma {:induction false} TruncatedStream(ms: seq<Message>, cut: nat) returns (j: nat)
    requires Sendable(ms) && cut <= |SendAll(ms)|
    ensures CompleteIn(ms, cut, j)
    ensures ReadAll(SendAll(ms)[..cut]) == (ms[..j], Closed)
  {
    if ms == [] {
      j := 0;
    } else if cut < |Encode(ms[0])| {
      j := 0;
      NoneComplete(ms, cut);
    } else {
      var i := TruncatedStream(ms[1..], cut - |Encode(ms[0])|);
      j := i + 1;
      OneMoreComplete(ms, cut, i);
      CutBehindFrame(ms, cut);
      FirstAndMore(ms, i);
    }
  }
}
