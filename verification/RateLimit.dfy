/**
 The sliding-window limiter. Each bucket keeps the times of recent frames in a slice that is
 compacted in place over its own backing array; the specification is a count over the whole
 history since the bucket was last deleted.
 */
module RateLimit {
  import opened Bytes

  /** Nanoseconds: rateWindowSec is 5. */
  const WINDOW := 5_000_000_000
  const MAX_FRAMES := 30

  /** The times of `ts` that are less than a window before `now`. */
  function Recent(ts: seq<int>, now: int): (r: seq<int>)
    ensures |r| <= |ts|
  {
    if ts == [] then []
    else
      var r := Recent(ts[..|ts| - 1], now);
      if now - ts[|ts| - 1] < WINDOW then r + [ts[|ts| - 1]] else r
  }

  /** The slice after one check. */
  function Kept(ts: seq<int>, now: int): seq<int>
  {
    Recent(ts, now) + [now]
  }

  lemma RecentAfter(ts: seq<int>, t: int, now: int)
    ensures Recent(ts + [t], now) == Recent(ts, now) + if now - t < WINDOW then [t] else []
  {
    assert (ts + [t])[..|ts|] == ts;
  }

  // ---------------------------------------------------------------- the slice

  /** One more time looked at. */
  lemma RecentStep(ts: seq<int>, i: nat, now: int)
    requires i < |ts|
    ensures Recent(ts[..i + 1], now) == Recent(ts[..i], now) + if now - ts[i] < WINDOW then [ts[i]] else []
    ensures |Recent(ts[..i], now)| <= i
  {
    assert ts[..i + 1] == ts[..i] + [ts[i]];
    RecentAfter(ts[..i], ts[i], now);
  }

  class Bucket {
    var times: array<int>
    var len: nat

    ghost predicate Valid()
      reads this
    {
      len <= times.Length
    }

    ghost function Times(): seq<int>
      reads this, times
      requires Valid()
    {
      times[..len]
    }

    /** The nil slice. */
    constructor ()
      ensures Valid() && Times() == [] && fresh(times)
    {
      times := new int[0];
      len := 0;
    }

    /** The filter writes behind its own reads, in the same array. */
    method Compact(now: int)
      requires Valid()
      modifies this`len, times
      ensures Valid() && Times() == Recent(old(Times()), now)
    {
      ghost var was := Times();
      ghost var kept: seq<int> := [];
      var i, j, n := 0, 0, len;
      while i < n
        invariant 0 <= j <= i <= n == |was| <= times.Length && len == n
        invariant kept == Recent(was[..i], now) && |kept| == j
        invariant forall k :: 0 <= k < j ==> times[k] == kept[k]
        invariant forall k :: i <= k < n ==> times[k] == was[k]
      {
        var t := times[i];
        RecentStep(was, i, now);
        if now - t < WINDOW {
          times[j] := t;
          j := j + 1;
          kept := kept + [t];
        }
        i := i + 1;
      }
      assert was[..n] == was;
      len := j;
      assert times[..j] == kept;
    }

    /** Appending reuses the array while it has room, else moves to a larger one. */
    method Append(now: int)
      requires Valid()
      modifies this, times
      ensures Valid() && Times() == old(Times()) + [now]
      ensures times == old(times) || fresh(times)
    {
      if len == times.Length {
        var bigger := new int[2 * len + 1];
        var i := 0;
        while i < len
          invariant i <= len && unchanged(this) && unchanged(times)
          invariant bigger[..i] == times[..i]
        {
          bigger[i] := times[i];
          i := i + 1;
        }
        times := bigger;
      }
      times[len] := now;
      len := len + 1;
    }
  }

  class Limiter {
    var buckets: map<bytes, Bucket>

    ghost predicate Valid()
      reads this, buckets.Values
    {
      && (forall u :: u in buckets ==> buckets[u].Valid())
      && (forall u, v :: u in buckets && v in buckets && u != v ==>
            buckets[u] != buckets[v] && buckets[u].times != buckets[v].times)
    }

    ghost function Arrays(): set<array<int>>
      reads this, buckets.Values
    {
      set b | b in buckets.Values :: b.times
    }

    ghost function Times(u: bytes): seq<int>
      requires Valid()
      reads this, buckets.Values, Arrays()
    {
      if u in buckets then buckets[u].Times() else []
    }

    constructor ()
      ensures Valid() && buckets == map[]
    {
      buckets := map[];
    }

    /** True when this frame is one too many. Other buckets keep their times. */
    method CheckRate(u: bytes, now: int) returns (over: bool)
      requires Valid()
      modifies this, buckets.Values, Arrays()
      ensures Valid() && buckets.Keys == old(buckets.Keys) + {u}
      ensures Times(u) == Kept(old(Times(u)), now)
      ensures over <==> |Kept(old(Times(u)), now)| > MAX_FRAMES
      ensures forall v :: v in old(buckets) && v != u ==> buckets[v] == old(buckets[v]) && Times(v) == old(Times(v))
    {
      if u !in buckets {
        var b := new Bucket();
        buckets := buckets[u := b];
      }
      var b := buckets[u];
      b.Compact(now);
      b.Append(now);
      over := b.len > MAX_FRAMES;
    }

    method CleanupRate(u: bytes)
      requires Valid()
      modifies this
      ensures Valid() && buckets == old(buckets) - {u}
      ensures Times(u) == []
    {
      buckets := buckets - {u};
    }
  }

  /** The Python server keeps one list per connection and builds a new one at every check. */
  class Connection {
    var msgTimes: seq<int>

    constructor ()
      ensures msgTimes == []
    {
      msgTimes := [];
    }

    method CheckRate(now: int) returns (over: bool)
      modifies this
      ensures msgTimes == Kept(old(msgTimes), now)
      ensures over <==> |Kept(old(msgTimes), now)| > MAX_FRAMES
    {
      var recent := RecentTimes(msgTimes, now);
      msgTimes := recent + [now];
      over := |msgTimes| > MAX_FRAMES;
    }

    /** The comprehension that builds the new list. */
    method RecentTimes(times: seq<int>, now: int) returns (recent: seq<int>)
      ensures recent == Recent(times, now)
    {
      recent := [];
      var n := 0;
      while n < |times|
        invariant n <= |times|
        invariant recent == Recent(times[..n], now)
      {
        RecentStep(times, n, now);
        if now - times[n] < WINDOW {
          recent := recent + [times[n]];
        }
        n := n + 1;
      }
      assert times[..n] == times;
    }
  }

  // ---------------------------------------------------------------- the history behind a bucket

  /** A clock that never runs backwards. */
  ghost predicate Ordered(ts: seq<int>)
  {
    forall i, j :: 0 <= i < j < |ts| ==> ts[i] <= ts[j]
  }

  /** The slice after checks at the times `ts`. */
  function Slice(ts: seq<int>): seq<int>
  {
    if ts == [] then [] else Kept(Slice(ts[..|ts| - 1]), ts[|ts| - 1])
  }

  /** Dropping old times now does not change a later filter. */
  lemma {:induction false} RecentOfRecent(ts: seq<int>, now: int, later: int)
    requires now <= later
    ensures Recent(Recent(ts, now), later) == Recent(ts, later)
  {
    if ts != [] {
      var init, t := ts[..|ts| - 1], ts[|ts| - 1];
      RecentOfRecent(init, now, later);
      RecentAfter(Recent(init, now), t, later);
    }
  }

  /** Compacting at every check keeps exactly what filtering the whole history would keep. */
  lemma {:induction false} SliceIsRecentHistory(ts: seq<int>)
    requires ts != [] && Ordered(ts)
    ensures Slice(ts) == Recent(ts, ts[|ts| - 1])
  {
    var init, now := ts[..|ts| - 1], ts[|ts| - 1];
    assert ts == init + [now];
    RecentAfter(init, now, now);
    if init != [] {
      SliceIsRecentHistory(init);
      RecentOfRecent(init, init[|init| - 1], now);
    }
  }

  /** Check number `k` lets its frame pass: at most MAX_FRAMES frames of the history are recent. */
  ghost predicate Passes(ts: seq<int>, k: nat)
    requires k < |ts|
  {
    |Recent(ts[..k + 1], ts[k])| <= MAX_FRAMES
  }

  /** The limiter's answers are those counts over the unpruned history. */
  lemma AnswersCountHistory(ts: seq<int>, k: nat)
    requires k < |ts| && Ordered(ts)
    ensures |Slice(ts[..k + 1])| > MAX_FRAMES <==> !Passes(ts, k)
  {
    SliceIsRecentHistory(ts[..k + 1]);
  }

  /** How many of the first `n` checks came less than five seconds before check `k`. */
  function Near(ts: seq<int>, k: nat, n: nat): nat
    requires k < |ts| && n <= |ts|
  {
    if n == 0 then 0 else Near(ts, k, n - 1) + if ts[k] - ts[n - 1] < 5_000_000_000 then 1 else 0
  }

  lemma {:induction false} RecentAreNear(ts: seq<int>, k: nat, n: nat)
    requires k < |ts| && n <= |ts|
    ensures |Recent(ts[..n], ts[k])| == Near(ts, k, n)
  {
    if n > 0 {
      RecentAreNear(ts, k, n - 1);
      RecentStep(ts, n - 1, ts[k]);
    }
  }

  /** By the times alone: a frame is one too many if and only if more than thirty checks, itself included, lie
      less than five seconds back. */
  lemma RefusedIff(ts: seq<int>, k: nat)
    requires k < |ts| && Ordered(ts)
    ensures |Slice(ts[..k + 1])| > MAX_FRAMES <==> Near(ts, k, k + 1) > 30
    ensures Passes(ts, k) <==> Near(ts, k, k + 1) <= 30
  {
    AnswersCountHistory(ts, k);
    RecentAreNear(ts, k, k + 1);
  }

  /** What a bucket keeps is the end of its history: everything less than five seconds old, nothing older. */
  lemma {:induction false} RecentIsSuffix(ts: seq<int>, now: int) returns (m: nat)
    requires Ordered(ts)
    ensures m <= |ts| && Recent(ts, now) == ts[m..]
    ensures forall k :: 0 <= k < |ts| ==> (now - ts[k] < 5_000_000_000 <==> m <= k)
  {
    if ts == [] {
      m := 0;
    } else {
      var init, t := ts[..|ts| - 1], ts[|ts| - 1];
      m := RecentIsSuffix(init, now);
      assert forall k :: 0 <= k < |init| ==> init[k] == ts[k];
      if now - t < WINDOW {
        assert ts[m..] == init[m..] + [t];
      } else {
        OlderAreOld(ts, now);
        m := |ts|;
      }
    }
  }

  lemma OlderAreOld(ts: seq<int>, now: int)
    requires Ordered(ts) && ts != [] && now - ts[|ts| - 1] >= WINDOW
    ensures Recent(ts, now) == []
    ensures forall k :: 0 <= k < |ts| ==> now - ts[k] >= WINDOW
  {
    var n := |ts| - 1;
    forall k | 0 <= k < |ts| ensures now - ts[k] >= WINDOW {
      if k < n { assert ts[k] <= ts[n]; }
    }
    NoneRecent(ts, now);
  }

  lemma {:induction false} NoneRecent(ts: seq<int>, now: int)
    requires forall k :: 0 <= k < |ts| ==> now - ts[k] >= WINDOW
    ensures Recent(ts, now) == []
  {
    if ts != [] { NoneRecent(ts[..|ts| - 1], now); }
  }

  /** How many frames of the half-open window from `x` passed. */
  ghost function PassedIn(ts: seq<int>, x: int, n: nat): nat
    requires n <= |ts|
  {
    if n == 0 then 0
    else PassedIn(ts, x, n - 1) + if x <= ts[n - 1] < x + WINDOW && Passes(ts, n - 1) then 1 else 0
  }

  lemma {:induction false} PassedAreRecent(ts: seq<int>, x: int, n: nat, now: int)
    requires n <= |ts| && now < x + WINDOW
    ensures PassedIn(ts, x, n) <= |Recent(ts[..n], now)|
  {
    if n > 0 {
      PassedAreRecent(ts, x, n - 1, now);
      assert ts[..n] == ts[..n - 1] + [ts[n - 1]];
      RecentAfter(ts[..n - 1], ts[n - 1], now);
    }
  }

  /** In any half-open window of five seconds at most MAX_FRAMES frames of a bucket pass. */
  lemma {:induction false} WindowBound(ts: seq<int>, x: int, n: nat)
    requires n <= |ts|
    ensures PassedIn(ts, x, n) <= MAX_FRAMES
  {
    if n > 0 {
      WindowBound(ts, x, n - 1);
      if x <= ts[n - 1] < x + WINDOW && Passes(ts, n - 1) {
        PassedAreRecent(ts, x, n, ts[n - 1]);
      }
    }
  }

  // ---------------------------------------------------------------- all buckets, with deletions

  datatype Use = Check(u: bytes, now: int) | Cleanup(u: bytes)

  function Apply(b: map<bytes, seq<int>>, e: Use): map<bytes, seq<int>>
  {
    match e
    case Check(u, now) => b[u := Kept(if u in b then b[u] else [], now)]
    case Cleanup(u) => b - {u}
  }

  function RunAll(uses: seq<Use>): map<bytes, seq<int>>
  {
    if uses == [] then map[] else Apply(RunAll(uses[..|uses| - 1]), uses[|uses| - 1])
  }

  /** The checks of `u` since its bucket was last deleted. */
  function Since(uses: seq<Use>, u: bytes): seq<int>
  {
    if uses == [] then []
    else
      var before := Since(uses[..|uses| - 1], u);
      match uses[|uses| - 1]
      case Check(v, now) => if v == u then before + [now] else before
      case Cleanup(v) => if v == u then [] else before
  }

  /** Whatever the other buckets do, a bucket is the slice of its own checks since its last deletion. */
  lemma {:induction false} BucketsAreIndependent(uses: seq<Use>, u: bytes)
    ensures Since(uses, u) == [] ==> u !in RunAll(uses)
    ensures Since(uses, u) != [] ==> u in RunAll(uses) && RunAll(uses)[u] == Slice(Since(uses, u))
  {
    if uses != [] {
      BucketsAreIndependent(uses[..|uses| - 1], u);
      var before := Since(uses[..|uses| - 1], u);
      match uses[|uses| - 1] {
        case Check(v, now) => if v == u { assert (before + [now])[..|before|] == before; }
        case Cleanup(_) =>
      }
    }
  }
}
