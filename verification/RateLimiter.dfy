/** The fixed-window request counter in front of the agent endpoints, and why its pruning is invisible. */
module RateLimiter {
  import opened PriorityQueue

  /** One counting window; requests fall into it until `resetAt`. */
  datatype Window = Window(count: nat, resetAt: int)

  /** One call of `take` at time `now`, in milliseconds. */
  datatype Request = Request(now: int, key: string, limit: int, windowMs: int)

  const MAX_WINDOWS := 10_000

  function Live(windows: map<string, Window>, now: int): map<string, Window> {
    map key | key in windows && windows[key].resetAt > now :: windows[key]
  }

  /** Seconds until `resetAt`, rounded up and at least one. */
  function SecondsUntil(resetAt: int, now: int): (seconds: int)
    requires now < resetAt
    ensures seconds >= 1 && now + 1000 * seconds >= resetAt
    ensures forall fewer :: 1 <= fewer < seconds ==> now + 1000 * fewer < resetAt
  {
    (resetAt - now + 999) / 1000
  }

  predicate StartsWindow(windows: map<string, Window>, request: Request) {
    request.key !in windows || windows[request.key].resetAt <= request.now
  }

  /** The windows and the answer of a limiter that never prunes; no answer means the request is admitted. */
  function Counted(windows: map<string, Window>, request: Request): (map<string, Window>, Option<int>) {
    if StartsWindow(windows, request) then
      (windows[request.key := Window(1, request.now + request.windowMs)], None)
    else
      var window := windows[request.key];
      var counted := windows[request.key := Window(window.count + 1, window.resetAt)];
      (counted, if window.count + 1 > request.limit then Some(SecondsUntil(window.resetAt, request.now)) else None)
  }

  function Pruned(windows: map<string, Window>, now: int): map<string, Window> {
    if |windows| > MAX_WINDOWS then Live(windows, now) else windows
  }

  function Taken(windows: map<string, Window>, request: Request, prunes: bool): (map<string, Window>, Option<int>) {
    Counted(if prunes then Pruned(windows, request.now) else windows, request)
  }

  class RateLimiter {
    var windows: map<string, Window>

    constructor ()
      ensures windows == map[]
    {
      windows := map[];
    }

    /** Deletes every window that is over. */
    method DeleteExpired(now: int)
      modifies this
      ensures windows == Live(old(windows), now)
    {
      var entries := windows.Keys;
      while entries != {}
        invariant entries <= old(windows).Keys
        invariant forall key :: key in windows <==> key in old(windows) && (key in entries || old(windows)[key].resetAt > now)
        invariant forall key :: key in windows ==> windows[key] == old(windows)[key]
        decreases entries
      {
        var entry :| entry in entries;
        entries := entries - {entry};
        if windows[entry].resetAt <= now {
          windows := windows - {entry};
        }
      }
    }

    /** Counts one request; returns the seconds to wait when it is over the limit. */
    method Take(now: int, key: string, limit: int, windowMs: int) returns (wait: Option<int>)
      modifies this
      ensures (windows, wait) == Taken(old(windows), Request(now, key, limit, windowMs), true)
    {
      if |windows| > MAX_WINDOWS {
        DeleteExpired(now);
      }
      if key !in windows || windows[key].resetAt <= now {
        windows := windows[key := Window(1, now + windowMs)];
        return None;
      }
      var window := windows[key];
      windows := windows[key := window.(count := window.count + 1)];
      wait := if window.count + 1 > limit then Some(SecondsUntil(window.resetAt, now)) else None;
    }
  }

  // Whole runs, from an empty limiter.

  function WindowsAfter(trace: seq<Request>, prunes: bool): map<string, Window> {
    if trace == [] then map[]
    else Taken(WindowsAfter(trace[..|trace| - 1], prunes), trace[|trace| - 1], prunes).0
  }

  /** What the limiter answers to `request` after `trace`. */
  function AnswerAfter(trace: seq<Request>, request: Request, prunes: bool): Option<int> {
    Taken(WindowsAfter(trace, prunes), request, prunes).1
  }

  ghost predicate ClockNeverGoesBack(trace: seq<Request>) {
    forall i, j :: 0 <= i < j < |trace| ==> trace[i].now <= trace[j].now
  }

  /** Every window the pruning limiter lacks is over. */
  ghost predicate Agree(pruned: map<string, Window>, full: map<string, Window>, now: int) {
    && (forall key :: key in pruned ==> key in full && full[key] == pruned[key])
    && (forall key :: key in full && key !in pruned ==> full[key].resetAt <= now)
  }

  lemma TakeAgrees(pruned: map<string, Window>, full: map<string, Window>, request: Request)
    requires Agree(pruned, full, request.now)
    ensures Agree(Taken(pruned, request, true).0, Taken(full, request, false).0, request.now)
    ensures Taken(pruned, request, true).1 == Taken(full, request, false).1
  {
  }

  lemma {:induction false} WindowsAgree(trace: seq<Request>, now: int)
    requires ClockNeverGoesBack(trace)
    requires forall i :: 0 <= i < |trace| ==> trace[i].now <= now
    ensures Agree(WindowsAfter(trace, true), WindowsAfter(trace, false), now)
  {
    if trace != [] {
      var before, last := trace[..|trace| - 1], trace[|trace| - 1];
      WindowsAgree(before, last.now);
      TakeAgrees(WindowsAfter(before, true), WindowsAfter(before, false), last);
    }
  }

  /** Pruning never changes an answer. */
  lemma PruningIsInvisible(trace: seq<Request>, request: Request)
    requires ClockNeverGoesBack(trace + [request])
    ensures AnswerAfter(trace, request, true) == AnswerAfter(trace, request, false)
  {
    assert forall i :: 0 <= i < |trace| ==> trace[i] == (trace + [request])[i];
    assert (trace + [request])[|trace|] == request;
    WindowsAgree(trace, request.now);
    TakeAgrees(WindowsAfter(trace, true), WindowsAfter(trace, false), request);
  }

  // How many requests of one key are admitted.

  /** Requests of `key` admitted at times from `from` on and before `to`. */
  function Admitted(trace: seq<Request>, key: string, from: int, to: int, prunes: bool): nat {
    if trace == [] then 0
    else
      var before, last := trace[..|trace| - 1], trace[|trace| - 1];
      Admitted(before, key, from, to, prunes)
      + if last.key == key && from <= last.now < to && AnswerAfter(before, last, prunes).None? then 1 else 0
  }

  ghost predicate FixedPolicy(trace: seq<Request>, key: string, limit: int, windowMs: int) {
    forall i :: 0 <= i < |trace| && trace[i].key == key ==> trace[i].limit == limit && trace[i].windowMs == windowMs
  }

  function Quota(limit: int): nat {
    if limit < 1 then 1 else limit
  }

  function Least(a: int, b: int): int {
    if a < b then a else b
  }

  /** The most that can have been admitted in the interval of one window length from `from`, given the current window. */
  function Ceiling(windows: map<string, Window>, key: string, from: int, limit: int, windowMs: int): int {
    if key !in windows || windows[key].resetAt <= from then 0
    else
      var start := windows[key].resetAt - windowMs;
      if start < from then Least(windows[key].count, Quota(limit)) - 1
      else if start < from + windowMs then Quota(limit) - 1 + Least(windows[key].count, Quota(limit))
      else 2 * Quota(limit) - 1
  }

  lemma {:induction false} AdmittedBelowCeiling(trace: seq<Request>, key: string, from: int, limit: int, windowMs: int)
    requires ClockNeverGoesBack(trace) && FixedPolicy(trace, key, limit, windowMs) && windowMs > 0
    ensures var windows := WindowsAfter(trace, false);
      && Admitted(trace, key, from, from + windowMs, false) <= Ceiling(windows, key, from, limit, windowMs)
      && (key in windows ==> windows[key].count >= 1 && trace != [] && windows[key].resetAt - windowMs <= trace[|trace| - 1].now)
  {
    if trace != [] {
      var before, last := trace[..|trace| - 1], trace[|trace| - 1];
      AdmittedBelowCeiling(before, key, from, limit, windowMs);
      assert before != [] ==> before[|before| - 1].now <= last.now by { assert before != [] ==> before[|before| - 1] == trace[|trace| - 2]; }
    }
  }

  lemma {:induction false} AdmittedSame(trace: seq<Request>, key: string, from: int, to: int)
    requires ClockNeverGoesBack(trace)
    ensures Admitted(trace, key, from, to, true) == Admitted(trace, key, from, to, false)
  {
    if trace != [] {
      var before, last := trace[..|trace| - 1], trace[|trace| - 1];
      assert before + [last] == trace;
      PruningIsInvisible(before, last);
      AdmittedSame(before, key, from, to);
    }
  }

  /** Any interval of one window length admits less than twice the limit. */
  lemma AdmissionBound(trace: seq<Request>, key: string, from: int, limit: int, windowMs: int)
    requires ClockNeverGoesBack(trace) && FixedPolicy(trace, key, limit, windowMs)
    ensures Admitted(trace, key, from, from + windowMs, true) <= 2 * Quota(limit) - 1
  {
    if windowMs > 0 {
      AdmittedBelowCeiling(trace, key, from, limit, windowMs);
      AdmittedSame(trace, key, from, from + windowMs);
    } else {
      NothingInEmptyInterval(trace, key, from, from + windowMs);
    }
  }

  lemma {:induction false} NothingInEmptyInterval(trace: seq<Request>, key: string, from: int, to: int)
    requires to <= from
    ensures Admitted(trace, key, from, to, true) == 0
  {
    if trace != [] {
      NothingInEmptyInterval(trace[..|trace| - 1], key, from, to);
    }
  }

  /** The bound is reached: with a limit of two, three requests pass within one window length. */
  lemma AdmissionBoundIsReached()
    ensures var trace := [Request(0, "a", 2, 10), Request(9, "a", 2, 10), Request(10, "a", 2, 10), Request(10, "a", 2, 10)];
      ClockNeverGoesBack(trace) && FixedPolicy(trace, "a", 2, 10) && Admitted(trace, "a", 9, 19, true) == 2 * Quota(2) - 1
  {
    var r0, r1, r2 := Request(0, "a", 2, 10), Request(9, "a", 2, 10), Request(10, "a", 2, 10);
    assert [r0][..0] == [] && [r0, r1][..1] == [r0] && [r0, r1, r2][..2] == [r0, r1] && [r0, r1, r2, r2][..3] == [r0, r1, r2];
    assert WindowsAfter([r0], true) == map["a" := Window(1, 10)];
    assert WindowsAfter([r0, r1], true) == map["a" := Window(2, 10)];
    assert WindowsAfter([r0, r1, r2], true) == map["a" := Window(1, 20)];
    assert Admitted([r0], "a", 9, 19, true) == 0;
    assert Admitted([r0, r1], "a", 9, 19, true) == 1;
    assert Admitted([r0, r1, r2], "a", 9, 19, true) == 2;
  }

  // Waiting.

  /** Requests of other keys leave a window alone, except that it may be pruned once it is over. */
  lemma {:induction false} OthersLeaveWindow(trace: seq<Request>, others: seq<Request>, key: string, until: int)
    requires forall i :: 0 <= i < |others| ==> others[i].key != key && others[i].now <= until
    ensures var before, after := WindowsAfter(trace, true), WindowsAfter(trace + others, true);
      && (key in after ==> key in before && after[key] == before[key])
      && (key in before && key !in after ==> before[key].resetAt <= until)
  {
    if others == [] {
      assert trace + others == trace;
    } else {
      var front := others[..|others| - 1];
      OthersLeaveWindow(trace, front, key, until);
      assert (trace + others)[..|trace + others| - 1] == trace + front;
      assert (trace + others)[|trace + others| - 1] == others[|others| - 1];
    }
  }

  /** After a refusal the next request of the same key is admitted exactly when the window is over, which the
      returned seconds always cover and no smaller positive number of seconds does. */
  lemma WaitingAdmits(trace: seq<Request>, refused: Request, others: seq<Request>, next: Request)
    requires AnswerAfter(trace, refused, true).Some?
    requires forall i :: 0 <= i < |others| ==> others[i].key != refused.key && others[i].now <= next.now
    requires next.key == refused.key && next.limit == refused.limit && refused.now <= next.now
    ensures var seconds := AnswerAfter(trace, refused, true).value;
      && seconds >= 1
      && (next.now >= refused.now + 1000 * seconds ==> AnswerAfter(trace + [refused] + others, next, true).None?)
      && (forall fewer :: 1 <= fewer < seconds && next.now == refused.now + 1000 * fewer ==>
            AnswerAfter(trace + [refused] + others, next, true).Some?)
  {
    var sent := trace + [refused];
    assert sent[..|sent| - 1] == trace;
    OthersLeaveWindow(sent, others, refused.key, next.now);
  }

  // One window, request by request.

  function CountOf(trace: seq<Request>, key: string): nat {
    if trace == [] then 0 else CountOf(trace[..|trace| - 1], key) + if trace[|trace| - 1].key == key then 1 else 0
  }

  /** A window was started by a request of its key. */
  lemma {:induction false} WindowFrom(trace: seq<Request>, key: string)
    requires key in WindowsAfter(trace, true)
    ensures exists i :: 0 <= i < |trace| && trace[i].key == key && WindowsAfter(trace, true)[key].resetAt == trace[i].now + trace[i].windowMs
  {
    var n := |trace| - 1;
    var before, last := trace[..n], trace[n];
    if key in WindowsAfter(before, true) && WindowsAfter(trace, true)[key].resetAt == WindowsAfter(before, true)[key].resetAt {
      WindowFrom(before, key);
      var i :| 0 <= i < n && before[i].key == key && WindowsAfter(before, true)[key].resetAt == before[i].now + before[i].windowMs;
      assert trace[i] == before[i];
    } else {
      assert trace[n].key == key;
    }
  }

  lemma {:induction false} WindowCounts(trace: seq<Request>, first: Request, rest: seq<Request>)
    requires StartsWindow(WindowsAfter(trace, true), first)
    requires forall i :: 0 <= i < |rest| ==> rest[i].now < first.now + first.windowMs
    requires 0 < first.windowMs
    ensures var windows := WindowsAfter(trace + [first] + rest, true);
      first.key in windows && windows[first.key] == Window(1 + CountOf(rest, first.key), first.now + first.windowMs)
  {
    if rest == [] {
      assert trace + [first] + rest == trace + [first];
      assert (trace + [first])[..|trace|] == trace;
    } else {
      var n := |rest| - 1;
      var longer := trace + [first] + rest;
      assert longer[..|longer| - 1] == trace + [first] + rest[..n] && longer[|longer| - 1] == rest[n];
      WindowCounts(trace, first, rest[..n]);
    }
  }

  /** A key that has not been used for a window length starts a window. In it a request is admitted if and only if it is the
      first one or there have been fewer than `limit` requests of its key, admitted or not; other keys do not matter. */
  lemma AdmittedIff(trace: seq<Request>, first: Request, rest: seq<Request>, next: Request)
    requires forall i :: 0 <= i < |trace| && trace[i].key == first.key ==> trace[i].now + trace[i].windowMs <= first.now
    requires 0 < first.windowMs && forall i :: 0 <= i < |rest| ==> rest[i].now < first.now + first.windowMs
    requires next.key == first.key && next.now < first.now + first.windowMs
    ensures AnswerAfter(trace, first, true).None?
    ensures AnswerAfter(trace + [first] + rest, next, true).None? <==> 1 + CountOf(rest, first.key) < next.limit
  {
    if first.key in WindowsAfter(trace, true) { WindowFrom(trace, first.key); }
    WindowCounts(trace, first, rest);
  }
}
