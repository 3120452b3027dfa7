/**
 The waits of a capture: for the screen to settle, then for the session's lock (pkg/ptysession/session.go).

 Times are in nanoseconds. The rest of the world is two functions of time, given and arbitrary: `last(t)`, when there was
 last any PTY activity as of time t, and `held(t)`, whether another thread holds the session's lock at time t.
 */
module Settle {

  const MS := 1_000_000
  const DEFAULT_TIMEOUT := 5_000 * MS
  const NAP := 25 * MS
  const POLL := 2 * MS

  function Budget(timeout: int): (r: int)
    ensures r > 0
    ensures timeout > 0 ==> r == timeout
    ensures timeout <= 0 ==> r == 5_000_000_000
  {
    if timeout <= 0 then DEFAULT_TIMEOUT else timeout
  }

  function Min(a: int, b: int): int {
    if a < b then a else b
  }

  /** A record of activity: what is last at a time is past, and is itself a time of activity. */
  ghost predicate Activity(last: int -> int) {
    && (forall t :: last(t) <= t && last(last(t)) == last(t))
    && (forall t, u :: t <= u ==> last(t) <= last(u))
  }

  /** Nothing happened after `from` and up to `to`. */
  ghost predicate Quiet(last: int -> int, from: int, to: int) {
    forall u :: from < u <= to ==> last(u) != u
  }

  lemma QuietSince(last: int -> int, from: int, to: int)
    requires Activity(last) && last(to) <= from
    ensures Quiet(last, from, to)
  {
    forall u | from < u <= to
      ensures last(u) != u
    {
      assert last(u) <= last(to);
    }
  }

  // ----- The waits when a sleep takes exactly as long as asked -----

  /** When waitSettle returns, being at the top of its loop at `t`. */
  function SettleEnd(last: int -> int, settle: int, deadline: int, t: int): int
    decreases deadline - t
  {
    if t - last(t) >= settle || t >= deadline then t
    else SettleEnd(last, settle, deadline, t + Min(Min(settle - (t - last(t)), deadline - t), NAP))
  }

  /** When lockTimeout returns, being at the top of its loop at `t`. */
  function LockEnd(held: int -> bool, deadline: int, t: int): int
    decreases deadline - t
  {
    if t >= deadline then t
    else if !held(t + POLL) then t + POLL
    else LockEnd(held, deadline, t + POLL)
  }

  function AfterSettle(last: int -> int, settle: int, timeout: int, t: int): int {
    if settle <= 0 then t else SettleEnd(last, settle, t + Budget(timeout), t)
  }

  /** When a capture begun at `t` has the lock or has given up. */
  function CaptureEnd(last: int -> int, held: int -> bool, settle: int, timeout: int, t: int): int {
    var t1 := AfterSettle(last, settle, timeout, t);
    if !held(t1) then t1 else LockEnd(held, t1 + Budget(timeout), t1)
  }

  /** `d`, up to the next poll. */
  function RoundUp(d: int): int {
    (d + POLL - 1) / POLL * POLL
  }

  /** The longest a capture can take. */
  function Longest(settle: int, timeout: int): int {
    (if settle <= 0 then 0 else Budget(timeout)) + RoundUp(Budget(timeout))
  }

  /** waitSettle returns by its deadline, and before it only if the window was met. */
  lemma {:induction false} SettleEndsInTime(last: int -> int, settle: int, deadline: int, t: int)
    requires t <= deadline
    ensures var e := SettleEnd(last, settle, deadline, t);
            t <= e <= deadline && (e < deadline ==> last(e) + settle <= e)
    decreases deadline - t
  {
    if t - last(t) < settle && t < deadline {
      SettleEndsInTime(last, settle, deadline, t + Min(Min(settle - (t - last(t)), deadline - t), NAP));
    }
  }

  lemma {:induction false} LockEndsInTime(held: int -> bool, deadline: int, t: int)
    requires t <= deadline
    ensures var e := LockEnd(held, deadline, t);
            t <= e <= t + RoundUp(deadline - t) && (e < deadline ==> !held(e))
    decreases deadline - t
  {
    if t < deadline && held(t + POLL) && t + POLL < deadline {
      LockEndsInTime(held, deadline, t + POLL);
    }
  }

  /** Once the PTY is quiet the settle wait ends as soon as the window is over, whatever was before. */
  lemma {:induction false} SettleIsPrompt(last: int -> int, settle: int, deadline: int, t: int, quietFrom: int)
    requires t <= deadline
    requires forall u :: last(u) <= u
    requires forall u :: last(u) <= quietFrom
    ensures SettleEnd(last, settle, deadline, t) <= if t < quietFrom + settle then quietFrom + settle else t
    decreases deadline - t
  {
    if t - last(t) < settle && t < deadline {
      SettleIsPrompt(last, settle, deadline, t + Min(Min(settle - (t - last(t)), deadline - t), NAP), quietFrom);
    }
  }

  /** A lock that is free from `freeFrom` on is taken within 2 ms, if that is before the deadline. */
  lemma {:induction false} LockIsPrompt(held: int -> bool, deadline: int, t: int, freeFrom: int)
    requires t < deadline
    requires forall u :: u >= freeFrom ==> !held(u)
    ensures var e := LockEnd(held, deadline, t);
            && (e <= t + 2_000_000 || e < freeFrom + 2_000_000)
            && (freeFrom <= deadline ==> !held(e))
    decreases deadline - t
  {
    if held(t + POLL) && t + POLL < deadline {
      LockIsPrompt(held, deadline, t + POLL, freeFrom);
    }
  }

  /** A capture takes at most the settle wait and the lock wait together: less than twice its budget and a poll. */
  lemma CaptureBound(last: int -> int, held: int -> bool, settle: int, timeout: int, t: int)
    ensures t <= CaptureEnd(last, held, settle, timeout, t) <= t + Longest(settle, timeout)
    ensures Longest(settle, timeout) < 2 * Budget(timeout) + 2_000_000
  {
    var b := Budget(timeout);
    var t1 := AfterSettle(last, settle, timeout, t);
    SettleEndsInTime(last, settle, t + b, t);
    LockEndsInTime(held, t1 + b, t1);
    assert b <= RoundUp(b) < b + POLL;
    hide SettleEnd, LockEnd, RoundUp;
  }

  lemma {:induction false} BusyWaitsForTheDeadline(settle: int, deadline: int, t: int)
    requires settle > 0 && t <= deadline
    ensures SettleEnd(u => u, settle, deadline, t) == deadline
    decreases deadline - t
  {
    if t < deadline {
      BusyWaitsForTheDeadline(settle, deadline, t + Min(Min(settle, deadline - t), NAP));
    }
  }

  lemma {:induction false} HeldWaitsForTheLastPoll(deadline: int, t: int)
    requires t <= deadline
    ensures LockEnd(u => true, deadline, t) == t + RoundUp(deadline - t)
    decreases deadline - t
  {
    if t < deadline && t + POLL < deadline {
      HeldWaitsForTheLastPoll(deadline, t + POLL);
    }
  }

  /** The bound is reached, by a busy PTY and a lock that is never free. */
  lemma LongestIsReached(settle: int, timeout: int, t: int)
    ensures Activity(u => u)
    ensures CaptureEnd(u => u, u => true, settle, timeout, t) == t + Longest(settle, timeout)
  {
    var b := Budget(timeout);
    if settle > 0 {
      BusyWaitsForTheDeadline(settle, t + b, t);
    }
    var t1 := AfterSettle(u => u, settle, timeout, t);
    HeldWaitsForTheLastPoll(t1 + b, t1);
  }

  /** PROTOCOL.md: the timeout bounds the whole capture. */
  ghost predicate KeepsPromise(settle: int, timeout: int) {
    forall last: int -> int, held: int -> bool, t: int ::
      Activity(last) ==> CaptureEnd(last, held, settle, timeout, t) <= t + Budget(timeout)
  }

  /** The promise holds exactly of captures that do not settle and whose timeout is a whole number of polls. */
  lemma PromiseHoldsIff(settle: int, timeout: int)
    ensures KeepsPromise(settle, timeout) <==> settle <= 0 && Budget(timeout) % 2_000_000 == 0
  {
    var b := Budget(timeout);
    assert RoundUp(b) == b <==> b % POLL == 0;
    if Longest(settle, timeout) <= b {
      forall last: int -> int, held: int -> bool, t: int
        ensures CaptureEnd(last, held, settle, timeout, t) <= t + b
      {
        CaptureBound(last, held, settle, timeout, t);
      }
    } else {
      LongestIsReached(settle, timeout, 0);
      assert CaptureEnd(u => u, u => true, settle, timeout, 0) > 0 + b;
    }
    assert b <= RoundUp(b);
  }

  // ----- The waits themselves -----

  /** A monotone clock. When it is exact, only sleeping takes time, and a sleep takes what was asked for. */
  class Clock {
    const exact: bool
    var now: int
    ghost var naps: seq<int>  // how long each sleep was asked to be

    constructor (exact: bool, now: int)
      ensures this.exact == exact && this.now == now
    {
      this.exact := exact;
      this.now := now;
      naps := [];
    }

    method Read() returns (t: int)
      modifies this`now
      ensures t == now >= old(now)
      ensures exact ==> now == old(now)
    {
      var late :| late >= 0;
      now := now + if exact then 0 else late;
      t := now;
    }

    method Sleep(d: int)
      modifies this
      ensures naps == old(naps) + [d]
      ensures now >= old(now) + d && now >= old(now)
      ensures exact && d >= 0 ==> now == old(now) + d
    {
      var late :| late >= 0;
      now := now + (if d < 0 then 0 else d) + if exact then 0 else late;
      naps := naps + [d];
    }
  }

  /**
   Returns with the window met, or past the deadline. `seen` is when the activity that decided it was looked up.
   */
  method WaitSettle(clock: Clock, last: int -> int, settle: int, timeout: int) returns (met: bool, ghost seen: int)
    requires Activity(last)
    modifies clock
    ensures old(clock.now) <= seen <= clock.now
    ensures settle <= 0 ==> clock.now == old(clock.now) && met
    ensures settle > 0 && met ==> Quiet(last, clock.now - settle, seen)
    ensures !met ==> clock.now >= old(clock.now) + Budget(timeout)
    ensures old(clock.naps) <= clock.naps
    ensures forall i :: |old(clock.naps)| <= i < |clock.naps| ==> 0 < clock.naps[i] <= 25_000_000
    ensures clock.exact ==> seen == clock.now == AfterSettle(last, settle, timeout, old(clock.now))
  {
    hide Activity, Quiet;
    seen := clock.now;
    if settle <= 0 {
      return true, seen;
    }
    var start := clock.Read();
    var deadline := start + if timeout <= 0 then DEFAULT_TIMEOUT else timeout;
    while true
      invariant old(clock.now) <= start <= clock.now && deadline == start + Budget(timeout)
      invariant old(clock.naps) <= clock.naps
      invariant forall i :: |old(clock.naps)| <= i < |clock.naps| ==> 0 < clock.naps[i] <= 25_000_000
      invariant clock.exact ==>
                  && start == old(clock.now)
                  && SettleEnd(last, settle, deadline, clock.now) == SettleEnd(last, settle, deadline, start)
      decreases deadline - clock.now
    {
      seen := clock.now;
      var active := last(clock.now);
      var since := clock.Read();
      var quiet := since - active;
      if quiet >= settle {
        QuietSince(last, since - settle, seen);
        return true, seen;
      }
      var now := clock.Read();
      if now >= deadline {
        return false, seen;
      }
      var wait := settle - quiet;
      if deadline - now < wait {
        wait := deadline - now;
      }
      if wait > NAP {
        wait := NAP;
      }
      clock.Sleep(wait);
    }
  }

  /** Takes the lock if it finds it free, at once or at one of its polls before the time is up. */
  method LockTimeout(clock: Clock, held: int -> bool, d: int) returns (got: bool)
    requires d > 0
    modifies clock
    ensures clock.now >= old(clock.now)
    ensures got ==> !held(clock.now)
    ensures !got ==> clock.now >= old(clock.now) + d && held(old(clock.now))
    ensures old(clock.naps) <= clock.naps
    ensures forall i :: |old(clock.naps)| <= i < |clock.naps| ==> clock.naps[i] == 2_000_000
    ensures clock.exact ==>
              clock.now == if !held(old(clock.now)) then old(clock.now)
                           else LockEnd(held, old(clock.now) + d, old(clock.now))
  {
    if !held(clock.now) {
      return true;
    }
    var start := clock.Read();
    var deadline := start + d;
    while true
      invariant old(clock.now) <= start <= clock.now
      invariant old(clock.naps) <= clock.naps
      invariant forall i :: |old(clock.naps)| <= i < |clock.naps| ==> clock.naps[i] == 2_000_000
      invariant clock.exact ==>
                  && start == old(clock.now)
                  && LockEnd(held, deadline, clock.now) == LockEnd(held, deadline, start)
      decreases deadline - clock.now
    {
      var now := clock.Read();
      if now >= deadline {
        return false;
      }
      clock.Sleep(POLL);
      if !held(clock.now) {
        return true;
      }
    }
  }

  /** CaptureRaw up to the snapshot: the lock is held on success, and the wait never exceeds its bound. */
  method Capture(clock: Clock, last: int -> int, held: int -> bool, settle: int, timeout: int) returns (ok: bool)
    requires Activity(last)
    modifies clock
    ensures ok ==> !held(clock.now)
    ensures !ok ==> clock.now >= old(clock.now) + Budget(timeout)
    ensures clock.exact ==> clock.now == CaptureEnd(last, held, settle, timeout, old(clock.now))
    ensures clock.exact ==> clock.now - old(clock.now) <= Longest(settle, timeout) < 2 * Budget(timeout) + POLL
  {
    ghost var start := clock.now;
    var _, _ := WaitSettle(clock, last, settle, timeout);
    var budget := DEFAULT_TIMEOUT;
    if timeout > 0 {
      budget := timeout;
    }
    ok := LockTimeout(clock, held, budget);
    CaptureBound(last, held, settle, timeout, start);
  }
}
