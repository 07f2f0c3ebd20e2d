/**
 The admin panel's fixed window: at most ten password checks per address in a window that
 starts with its first attempt and is replaced by the first attempt more than 300 seconds later.
 */
module LoginWindow {
  import opened Bytes

  const SPAN: real := 300.0
  const LIMIT := 10

  /** Attempts counted in the current window, and when the window started. */
  datatype Entry = Entry(count: nat, start: real)

  const NO_ENTRY := Entry(0, 0.0)

  function Windowed(e: Entry, now: real): Entry
  {
    if now - e.start > SPAN then Entry(0, now) else e
  }

  /** The attempt reaches the password check. */
  predicate Admitted(e: Entry, now: real)
  {
    Windowed(e, now).count < LIMIT
  }

  /** The entry after an attempt whose password is wrong; a refused attempt leaves the entry alone. */
  function Failed(e: Entry, now: real): Entry
  {
    var w := Windowed(e, now);
    if w.count >= LIMIT then e else Entry(w.count + 1, w.start)
  }

  datatype Outcome = TooMany | Rejected | LoggedIn

  class LoginAttempts {
    var entries: map<bytes, Entry>

    constructor ()
      ensures entries == map[]
    {
      entries := map[];
    }

    ghost function EntryOf(ip: bytes): Entry
      reads this
    {
      if ip in entries then entries[ip] else NO_ENTRY
    }

    /** One POST /login; a missing entry counts as no attempts, and a login removes the entry. */
    method Login(ip: bytes, now: real, passwordOk: bool) returns (r: Outcome)
      modifies this
      ensures r == TooMany <==> !Admitted(old(EntryOf(ip)), now)
      ensures r == LoggedIn <==> Admitted(old(EntryOf(ip)), now) && passwordOk
      ensures EntryOf(ip) == if r == LoggedIn then NO_ENTRY else Failed(old(EntryOf(ip)), now)
      ensures forall other :: other != ip ==> EntryOf(other) == old(EntryOf(other))
    {
      var e := if ip in entries then entries[ip] else NO_ENTRY;
      var count, start := e.count, e.start;
      if now - start > SPAN {
        count, start := 0, now;
      }
      if count >= LIMIT {
        return TooMany;
      }
      entries := entries[ip := Entry(count + 1, start)];
      if !passwordOk { return Rejected; }
      entries := entries - {ip};
      r := LoggedIn;
    }
  }

  // ---------------------------------------------------------------- bounds over failed attempts

  /** The entry of an address after failed attempts at the times `ts`. */
  function After(ts: seq<real>): Entry
  {
    if ts == [] then NO_ENTRY else Failed(After(ts[..|ts| - 1]), ts[|ts| - 1])
  }

  ghost predicate Ordered(ts: seq<real>)
  {
    forall i, j :: 0 <= i < j < |ts| ==> ts[i] <= ts[j]
  }

  /** Attempt `k` reaches the password check. */
  ghost predicate Checked(ts: seq<real>, k: nat)
    requires k < |ts|
  {
    Admitted(After(ts[..k]), ts[k])
  }

  ghost function CheckedSince(ts: seq<real>, x: real, n: nat): nat
    requires n <= |ts|
  {
    if n == 0 then 0
    else CheckedSince(ts, x, n - 1) + if x <= ts[n - 1] && Checked(ts, n - 1) then 1 else 0
  }

  lemma AfterOneMore(ts: seq<real>, n: nat)
    requires n < |ts|
    ensures After(ts[..n + 1]) == Failed(After(ts[..n]), ts[n])
  {
    assert ts[..n + 1][..n] == ts[..n];
  }

  /** A window never holds more than LIMIT attempts. It is replaced exactly by an attempt more than SPAN after
      its start, which is the first of the next one. */
  lemma WindowsAreApart(ts: seq<real>, n: nat)
    requires n < |ts|
    ensures After(ts[..n]).count <= LIMIT ==> After(ts[..n + 1]).count <= LIMIT
    ensures After(ts[..n + 1]).start == if ts[n] - After(ts[..n]).start > SPAN then ts[n] else After(ts[..n]).start
    ensures ts[n] - After(ts[..n]).start > SPAN ==> After(ts[..n + 1]).count == 1
  {
    AfterOneMore(ts, n);
  }

  lemma {:induction false} CountIsBounded(ts: seq<real>, n: nat)
    requires n <= |ts|
    ensures After(ts[..n]).count <= LIMIT
  {
    if n > 0 {
      CountIsBounded(ts, n - 1);
      WindowsAreApart(ts, n - 1);
    }
  }

  lemma {:induction false} NoneBefore(ts: seq<real>, x: real, n: nat)
    requires n <= |ts| && forall k :: 0 <= k < n ==> ts[k] < x
    ensures CheckedSince(ts, x, n) == 0
  {
    if n > 0 { NoneBefore(ts, x, n - 1); }
  }

  /** Inside an interval of SPAN seconds at most two windows are open: the checks since `x` are those
      of the current window, and those of one earlier window when the current one started after `x`. */
  lemma {:induction false} ChecksByWindow(ts: seq<real>, x: real, n: nat)
    requires n <= |ts| && Ordered(ts) && (forall k :: 0 <= k < n ==> ts[k] <= x + SPAN)
    ensures var e := After(ts[..n]);
      && (e.start < x ==> CheckedSince(ts, x, n) <= e.count)
      && (x <= e.start ==> CheckedSince(ts, x, n) <= LIMIT + e.count)
  {
    if n > 0 {
      ChecksByWindow(ts, x, n - 1);
      CountIsBounded(ts, n - 1);
      AfterOneMore(ts, n - 1);
      if ts[n - 1] < x { NoneBefore(ts, x, n); }
    }
  }

  /** With a clock that does not run backwards and no successful login, at most 20 attempts of an
      address reach the password check in any 300 seconds. */
  lemma AtMostTwenty(ts: seq<real>, x: real, n: nat)
    requires n <= |ts| && Ordered(ts) && (forall k :: 0 <= k < n ==> ts[k] <= x + SPAN)
    ensures CheckedSince(ts, x, n) <= 2 * LIMIT
  {
    ChecksByWindow(ts, x, n);
    CountIsBounded(ts, n);
  }

  // ---------------------------------------------------------------- by the times alone

  /** When the window opened that is current after attempts at the times `ts`: at the first attempt, and again
      at each that comes more than 300 seconds after the opening. */
  function OpenedAt(ts: seq<real>): real
  {
    if ts == [] then 0.0
    else
      var start, now := OpenedAt(ts[..|ts| - 1]), ts[|ts| - 1];
      if now - start > 300.0 then now else start
  }

  /** How many of the first `n` attempts have been let through to the password check in the window that
      opened at `x`. */
  function PassedIn(ts: seq<real>, n: nat, x: real): nat
    requires n <= |ts|
    decreases n, 0
  {
    if n == 0 then 0
    else PassedIn(ts, n - 1, x) + if OpenedAt(ts[..n]) == x && Passes(ts, n - 1) then 1 else 0
  }

  /** Fewer than ten have been let through since the window of attempt `k` opened. */
  predicate Passes(ts: seq<real>, k: nat)
    requires k < |ts|
    decreases k, 1
  {
    PassedIn(ts, k, OpenedAt(ts[..k + 1])) < 10
  }

  lemma OpenedOneMore(ts: seq<real>, n: nat)
    requires n < |ts|
    ensures OpenedAt(ts[..n + 1]) == if ts[n] - OpenedAt(ts[..n]) > 300.0 then ts[n] else OpenedAt(ts[..n])
  {
    assert ts[..n + 1][..n] == ts[..n];
  }

  lemma {:induction false} OpeningsGrow(ts: seq<real>, n: nat, m: nat)
    requires n <= m <= |ts|
    ensures OpenedAt(ts[..n]) <= OpenedAt(ts[..m])
  {
    if n < m {
      OpeningsGrow(ts, n, m - 1);
      OpenedOneMore(ts, m - 1);
    }
  }

  /** Nothing has been let through in a window that opens later. */
  lemma {:induction false} NothingYet(ts: seq<real>, n: nat, x: real)
    requires n <= |ts| && OpenedAt(ts[..n]) < x
    ensures PassedIn(ts, n, x) == 0
  {
    if n > 0 {
      OpeningsGrow(ts, n - 1, n);
      NothingYet(ts, n - 1, x);
    }
  }

  /** The entry of an address is the opening of its window and the number of attempts let through in it. */
  lemma {:induction false} EntryIs(ts: seq<real>, n: nat)
    requires n <= |ts|
    ensures After(ts[..n]) == Entry(PassedIn(ts, n, OpenedAt(ts[..n])), OpenedAt(ts[..n]))
    ensures PassedIn(ts, n, OpenedAt(ts[..n])) <= 10
  {
    if n > 0 {
      EntryIs(ts, n - 1);
      AfterOneMore(ts, n - 1);
      OpenedOneMore(ts, n - 1);
      if ts[n - 1] - OpenedAt(ts[..n - 1]) > 300.0 { NothingYet(ts, n - 1, ts[n - 1]); }
    }
  }

  /** Attempt `k` of a history of failures reaches the password check if and only if fewer than ten have
      since its window opened; in particular whenever it is the one that opens it, more than 300 seconds
      after the window before. */
  lemma AdmittedIff(ts: seq<real>, k: nat)
    requires k < |ts|
    ensures Checked(ts, k) <==> Passes(ts, k)
    ensures ts[k] - OpenedAt(ts[..k]) > 300.0 ==> Checked(ts, k)
  {
    EntryIs(ts, k);
    OpenedOneMore(ts, k);
    if ts[k] - OpenedAt(ts[..k]) > 300.0 { NothingYet(ts, k, ts[k]); }
  }

  lemma {:induction false} OpenedBefore(ts: seq<real>, n: nat)
    requires 0 < n <= |ts| && Ordered(ts) && ts[0] >= 0.0
    ensures 0.0 <= OpenedAt(ts[..n]) <= ts[n - 1]
  {
    OpenedOneMore(ts, n - 1);
    if n > 1 { OpenedBefore(ts, n - 1); } else { assert ts[..0] == []; }
  }

  /** Nobody is locked out for long: an attempt more than 300 seconds after the one before is checked,
      whatever came earlier. */
  lemma PatienceIsRewarded(ts: seq<real>, k: nat)
    requires 0 < k < |ts| && Ordered(ts) && ts[0] >= 0.0 && ts[k] - ts[k - 1] > 300.0
    ensures Checked(ts, k)
  {
    OpenedBefore(ts, k);
    AdmittedIff(ts, k);
  }

  // ---------------------------------------------------------------- with logins in between

  datatype Attempt = Attempt(now: real, passwordOk: bool)

  /** The entry after any attempts. */
  function AfterAll(hs: seq<Attempt>): Entry
  {
    if hs == [] then NO_ENTRY
    else
      var e, h := AfterAll(hs[..|hs| - 1]), hs[|hs| - 1];
      if Admitted(e, h.now) && h.passwordOk then NO_ENTRY else Failed(e, h.now)
  }

  /** The times of the attempts since the last login: one that was let through with the right password. */
  function SinceLogin(hs: seq<Attempt>): seq<real>
  {
    if hs == [] then []
    else
      var ts := SinceLogin(hs[..|hs| - 1]) + [hs[|hs| - 1].now];
      if hs[|hs| - 1].passwordOk && Passes(ts, |ts| - 1) then [] else ts
  }

  /** Only the attempts since the last login matter. An attempt logs in if and only if its password is right
      and fewer than ten attempts have been let through since the last login in its window. */
  lemma {:induction false} LoginIff(hs: seq<Attempt>, h: Attempt)
    ensures AfterAll(hs) == After(SinceLogin(hs))
    ensures var ts := SinceLogin(hs) + [h.now];
      Admitted(AfterAll(hs), h.now) <==> Passes(ts, |ts| - 1)
  {
    if hs != [] {
      LoginIff(hs[..|hs| - 1], hs[|hs| - 1]);
      OneMoreAttempt(hs);
    }
    NextIsAdmitted(SinceLogin(hs), h.now);
  }

  lemma NextIsAdmitted(ts: seq<real>, now: real)
    ensures Admitted(After(ts), now) <==> Passes(ts + [now], |ts|)
  {
    assert (ts + [now])[..|ts|] == ts;
    AdmittedIff(ts + [now], |ts|);
  }

  lemma OneMoreAttempt(hs: seq<Attempt>)
    requires hs != []
    requires var init, h := hs[..|hs| - 1], hs[|hs| - 1];
      && AfterAll(init) == After(SinceLogin(init))
      && (Admitted(AfterAll(init), h.now) <==> Passes(SinceLogin(init) + [h.now], |SinceLogin(init)|))
    ensures AfterAll(hs) == After(SinceLogin(hs))
  {
    var init, h := hs[..|hs| - 1], hs[|hs| - 1];
    var us := SinceLogin(init) + [h.now];
    assert us[..|us| - 1] == SinceLogin(init);
  }
}
