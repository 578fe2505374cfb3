/**
 The sliding-window rate limiter of the price providers (oracle/src/providers/base-provider.ts).
 Requests are serialised by the program, so one request's wait loop runs at a time.
 */
module RateLimiter {

  datatype Config = Config(maxRequests: nat, windowMs: nat)

  /** The timestamps at most windowMs old, in order. */
  function Recent(ts: seq<int>, now: int, windowMs: nat): seq<int> {
    if ts == [] then []
    else if now - ts[0] <= windowMs then [ts[0]] + Recent(ts[1..], now, windowMs)
    else Recent(ts[1..], now, windowMs)
  }

  function Max(a: int, b: int): int { if a > b then a else b }

  /** One pass of the loop: the timestamps it leaves, and whether the request was accepted. */
  datatype Pass = Pass(timestamps: seq<int>, accepted: bool)

  function Attempt(cfg: Config, ts: seq<int>, now: int): Pass {
    var recent := Recent(ts, now, cfg.windowMs);
    if |recent| < cfg.maxRequests then Pass(recent + [now], true) else Pass(recent, false)
  }

  // ---------------------------------------------------------------------------
  // What the limiter remembers
  // ---------------------------------------------------------------------------

  ghost predicate Ascending(ts: seq<int>) {
    forall i, j | 0 <= i < j < |ts| :: ts[i] <= ts[j]
  }

  /** Any maxRequests + 1 consecutive acceptances span more than the window. */
  ghost predicate Spaced(cfg: Config, accepted: seq<int>) {
    forall i, j | 0 <= i <= j < |accepted| && j == i + cfg.maxRequests :: accepted[j] - accepted[i] > cfg.windowMs
  }

  /** How many of all acceptances are at most windowMs old. */
  ghost function CountRecent(cfg: Config, accepted: seq<int>, now: int): nat {
    |Recent(accepted, now, cfg.windowMs)|
  }

  /** After a pass at time `at` the timestamps are the latest acceptances; the forgotten ones are too old. */
  ghost predicate Remembers(cfg: Config, ts: seq<int>, accepted: seq<int>, at: int) {
    && Ascending(accepted) && Spaced(cfg, accepted)
    && (forall i | 0 <= i < |accepted| :: accepted[i] <= at)
    && |ts| <= |accepted| && |ts| <= cfg.maxRequests
    && ts == accepted[|accepted| - |ts|..]
    && forall i | 0 <= i < |accepted| - |ts| :: at - accepted[i] > cfg.windowMs
  }

  /** The count is over the acceptances themselves, each as often as it occurs. */
  lemma {:induction false} CountExactly(cfg: Config, accepted: seq<int>, now: int)
    ensures CountRecent(cfg, accepted, now) == |set i | 0 <= i < |accepted| && now - accepted[i] <= cfg.windowMs|
  {
    var all := set i | 0 <= i < |accepted| && now - accepted[i] <= cfg.windowMs;
    if accepted == [] {
      assert all == {};
    } else {
      var n := |accepted| - 1;
      var front := accepted[..n];
      CountExactly(cfg, front, now);
      assert accepted == front + [accepted[n]];
      RecentAppend(front, [accepted[n]], now, cfg.windowMs);
      var before := set i | 0 <= i < n && now - front[i] <= cfg.windowMs;
      assert all == before + if now - accepted[n] <= cfg.windowMs then {n} else {};
    }
  }

  lemma {:induction false} AllRecent(ts: seq<int>, now: int, windowMs: nat)
    requires forall i | 0 <= i < |ts| :: now - ts[i] <= windowMs
    ensures Recent(ts, now, windowMs) == ts
  {
    if ts != [] {
      AllRecent(ts[1..], now, windowMs);
      assert ts == [ts[0]] + ts[1..];
    }
  }

  lemma {:induction false} NoneRecent(ts: seq<int>, now: int, windowMs: nat)
    requires forall i | 0 <= i < |ts| :: now - ts[i] > windowMs
    ensures Recent(ts, now, windowMs) == []
  {
    if ts != [] { NoneRecent(ts[1..], now, windowMs); }
  }

  lemma {:induction false} RecentAppend(a: seq<int>, b: seq<int>, now: int, windowMs: nat)
    ensures Recent(a + b, now, windowMs) == Recent(a, now, windowMs) + Recent(b, now, windowMs)
  {
    if a == [] {
      assert a + b == b;
    } else {
      assert (a + b)[1..] == a[1..] + b;
      RecentAppend(a[1..], b, now, windowMs);
    }
  }

  lemma {:induction false} RecentIsTail(ts: seq<int>, now: int, windowMs: nat) returns (cut: nat)
    requires Ascending(ts)
    ensures cut <= |ts| && Recent(ts, now, windowMs) == ts[cut..]
    ensures forall i | 0 <= i < cut :: now - ts[i] > windowMs
  {
    if ts == [] {
      cut := 0;
    } else if now - ts[0] <= windowMs {
      AllRecent(ts, now, windowMs);
      cut := 0;
    } else {
      cut := RecentIsTail(ts[1..], now, windowMs);
      cut := cut + 1;
    }
  }

  /** Forgetting old acceptances does not change which of them are recent. */
  lemma RecentOfRemembered(cfg: Config, ts: seq<int>, accepted: seq<int>, at: int, now: int)
    requires Remembers(cfg, ts, accepted, at) && at <= now
    ensures Recent(ts, now, cfg.windowMs) == Recent(accepted, now, cfg.windowMs)
  {
    var n := |accepted| - |ts|;
    var front := accepted[..n];
    assert accepted == front + ts by { assert accepted[..n] + accepted[n..] == accepted; }
    assert forall i | 0 <= i < |front| :: front[i] == accepted[i];
    RecentAppend(front, ts, now, cfg.windowMs);
    NoneRecent(front, now, cfg.windowMs);
  }

  lemma KeepTail(cfg: Config, accepted: seq<int>, cut: nat, now: int)
    requires Ascending(accepted) && Spaced(cfg, accepted) && forall i | 0 <= i < |accepted| :: accepted[i] <= now
    requires cut <= |accepted| && |accepted| - cut <= cfg.maxRequests
    requires forall i | 0 <= i < cut :: now - accepted[i] > cfg.windowMs
    ensures Remembers(cfg, accepted[cut..], accepted, now)
  {
  }

  lemma AcceptAnother(cfg: Config, accepted: seq<int>, cut: nat, now: int)
    requires Ascending(accepted) && Spaced(cfg, accepted) && forall i | 0 <= i < |accepted| :: accepted[i] <= now
    requires cut <= |accepted| && |accepted| - cut < cfg.maxRequests
    requires forall i | 0 <= i < cut :: now - accepted[i] > cfg.windowMs
    ensures Remembers(cfg, accepted[cut..] + [now], accepted + [now], now)
  {
    var all := accepted + [now];
    assert all[cut..] == accepted[cut..] + [now];
    KeepTail(cfg, all, cut, now);
  }

  /**
   One pass accepts exactly when fewer than maxRequests of all acceptances so far are recent, though
   older timestamps have been thrown away, and it keeps the acceptances spaced.
   */
  lemma AttemptRemembers(cfg: Config, ts: seq<int>, accepted: seq<int>, at: int, now: int)
    requires Remembers(cfg, ts, accepted, at) && at <= now
    ensures var p := Attempt(cfg, ts, now);
      && (p.accepted <==> CountRecent(cfg, accepted, now) < cfg.maxRequests)
      && Remembers(cfg, p.timestamps, if p.accepted then accepted + [now] else accepted, now)
  {
    RecentOfRemembered(cfg, ts, accepted, at, now);
    var cut := RecentIsTail(accepted, now, cfg.windowMs);
    if |accepted| - cut < cfg.maxRequests {
      AcceptAnother(cfg, accepted, cut, now);
    } else {
      RecentShorter(ts, now, cfg.windowMs);
      KeepTail(cfg, accepted, cut, now);
    }
  }

  class RateLimiter {
    const cfg: Config
    var requestTimestamps: seq<int>
    ghost var accepted: seq<int>  // all acceptance times so far
    ghost var lastPass: int  // the time of the latest pass of the loop

    ghost predicate Valid()
      reads this
    {
      Remembers(cfg, requestTimestamps, accepted, lastPass)
    }

    constructor (cfg: Config)
      ensures this.cfg == cfg && Valid() && accepted == []
    {
      this.cfg := cfg;
      requestTimestamps, accepted, lastPass := [], [], 0;
    }

    /** One pass of the loop. */
    method Pass(now: int) returns (ok: bool)
      requires Valid() && (accepted != [] ==> lastPass <= now)
      modifies this
      ensures Valid() && lastPass == now
      ensures requestTimestamps == Attempt(cfg, old(requestTimestamps), now).timestamps
      ensures ok == Attempt(cfg, old(requestTimestamps), now).accepted
      ensures ok == (CountRecent(cfg, old(accepted), now) < cfg.maxRequests)
      ensures accepted == if ok then old(accepted) + [now] else old(accepted)
      ensures !ok ==> |requestTimestamps| >= cfg.maxRequests
    {
      if accepted == [] {
        lastPass := now;
      }
      AttemptRemembers(cfg, requestTimestamps, accepted, lastPass, now);
      ghost var attempt := Attempt(cfg, requestTimestamps, now);
      requestTimestamps := Recent(requestTimestamps, now, cfg.windowMs);
      lastPass := now;
      ok := |requestTimestamps| < cfg.maxRequests;
      if ok {
        requestTimestamps := requestTimestamps + [now];
        accepted := accepted + [now];
      }
      assert requestTimestamps == attempt.timestamps && ok == attempt.accepted;
    }

    /** A pass and, if it finds the window full, a sleep until the earliest acceptance has left it. */
    method PassOrSleep(now: int, drift: int) returns (ok: bool, wake: int)
      requires Valid() && cfg.maxRequests >= 1 && (accepted != [] ==> lastPass <= now)
      modifies this
      ensures Valid() && lastPass == now
      ensures ok == (CountRecent(cfg, old(accepted), now) < cfg.maxRequests)
      ensures accepted == if ok then old(accepted) + [now] else old(accepted)
      ensures ok ==> wake == now
      ensures !ok ==> requestTimestamps == old(requestTimestamps) && now < wake
      ensures !ok ==> Ahead(cfg, requestTimestamps, wake) < Ahead(cfg, requestTimestamps, now)
      ensures !ok && drift >= 0 ==> CountRecent(cfg, accepted, wake) < cfg.maxRequests
    {
      ghost var before := requestTimestamps;
      ok := Pass(now);
      wake := now;
      if !ok {
        FullStays(cfg, before, now);
        var earliest := requestTimestamps[0];
        var waitTime := Max(0, earliest + cfg.windowMs - now + 1);
        wake := now + Max(1, waitTime + drift);
        Woken(cfg, requestTimestamps, accepted, now, wake);
      }
    }

    /**
     Waits until the request can be accepted.  `clock` is the time at the start; the k-th sleep lasts
     drift(k) milliseconds longer than asked for, or less long where drift(k) is negative, but the
     clock advances.  The request is accepted at once exactly when fewer than maxRequests earlier ones
     are still in the window, otherwise at the first waking at which that is so; and one sleep is
     enough unless it ends early.
     */
    method EnforceRateLimit(clock: int, drift: nat -> int) returns (acceptedAt: int, sleeps: nat)
      requires Valid() && cfg.maxRequests >= 1
      requires accepted != [] ==> lastPass <= clock
      modifies this
      ensures Valid() && lastPass == acceptedAt && acceptedAt >= clock
      ensures accepted == old(accepted) + [acceptedAt]
      ensures CountRecent(cfg, old(accepted), acceptedAt) < cfg.maxRequests
      ensures sleeps == 0 <==> CountRecent(cfg, old(accepted), clock) < cfg.maxRequests
      ensures sleeps == 0 ==> acceptedAt == clock
      ensures drift(0) >= 0 ==> sleeps <= 1
    {
      var now := clock;
      sleeps := 0;
      while true
        invariant Valid() && accepted == old(accepted) && now >= clock
        invariant accepted != [] ==> lastPass <= now
        invariant if sleeps == 0 then now == clock else CountRecent(cfg, accepted, clock) >= cfg.maxRequests
        invariant sleeps > 0 && drift(0) >= 0 ==> sleeps == 1 && CountRecent(cfg, accepted, now) < cfg.maxRequests
        decreases Ahead(cfg, requestTimestamps, now)
      {
        var ok, wake := PassOrSleep(now, drift(sleeps));
        if ok {
          return now, sleeps;
        }
        now := wake;
        sleeps := sleeps + 1;
      }
    }
  }

  /** What a sleep brings: a shorter wait, or room. */
  lemma Woken(cfg: Config, ts: seq<int>, accepted: seq<int>, now: int, wake: int)
    requires Remembers(cfg, ts, accepted, now) && ts != [] && now - ts[0] <= cfg.windowMs && now < wake
    ensures ts[0] <= now && Ahead(cfg, ts, wake) < Ahead(cfg, ts, now) <= cfg.windowMs + 1
    ensures wake > ts[0] + cfg.windowMs ==> CountRecent(cfg, accepted, wake) < cfg.maxRequests
  {
    RecentOfRemembered(cfg, ts, accepted, now, wake);
    if wake > ts[0] + cfg.windowMs {
      EarliestLeaves(cfg, ts, wake);
    }
  }

  /** Milliseconds until the earliest timestamp has left the window. */
  ghost function Ahead(cfg: Config, ts: seq<int>, now: int): nat
  {
    if ts == [] then 0 else Max(0, ts[0] + cfg.windowMs + 1 - now)
  }

  /** A pass that finds the window full forgets nothing. */
  lemma FullStays(cfg: Config, ts: seq<int>, now: int)
    requires |ts| <= cfg.maxRequests && |Recent(ts, now, cfg.windowMs)| >= cfg.maxRequests
    ensures Recent(ts, now, cfg.windowMs) == ts && (ts != [] ==> now - ts[0] <= cfg.windowMs)
  {
    RecentAll(ts, now, cfg.windowMs);
  }

  lemma {:induction false} RecentAll(ts: seq<int>, now: int, windowMs: nat)
    ensures |Recent(ts, now, windowMs)| >= |ts| ==> Recent(ts, now, windowMs) == ts
  {
    RecentShorter(ts, now, windowMs);
    if ts != [] {
      RecentAll(ts[1..], now, windowMs);
      RecentShorter(ts[1..], now, windowMs);
    }
  }

  /** Once the earliest timestamp has left the window, a full list has room again. */
  lemma EarliestLeaves(cfg: Config, ts: seq<int>, now: int)
    requires ts != [] && |ts| <= cfg.maxRequests && now - ts[0] > cfg.windowMs
    ensures |Recent(ts, now, cfg.windowMs)| < cfg.maxRequests
  {
    RecentShorter(ts[1..], now, cfg.windowMs);
  }

  lemma {:induction false} RecentShorter(ts: seq<int>, now: int, windowMs: nat)
    ensures |Recent(ts, now, windowMs)| <= |ts|
  {
    if ts != [] { RecentShorter(ts[1..], now, windowMs); }
  }

  // ---------------------------------------------------------------------------
  // Every run of passes
  // ---------------------------------------------------------------------------

  datatype History = History(timestamps: seq<int>, accepted: seq<int>)

  /** The passes of all requests, accepted or sent to sleep, at the given times. */
  function RunPasses(cfg: Config, nows: seq<int>): History {
    if nows == [] then History([], [])
    else
      var h, now := RunPasses(cfg, nows[..|nows| - 1]), nows[|nows| - 1];
      var p := Attempt(cfg, h.timestamps, now);
      History(p.timestamps, if p.accepted then h.accepted + [now] else h.accepted)
  }

  lemma StaysRemembered(cfg: Config, ts: seq<int>, accepted: seq<int>, at: int, later: int)
    requires Remembers(cfg, ts, accepted, at) && at <= later
    ensures Remembers(cfg, ts, accepted, later)
  {
  }

  lemma {:induction false} RunRemembers(cfg: Config, nows: seq<int>, at: int)
    requires Ascending(nows) && forall i | 0 <= i < |nows| :: nows[i] <= at
    ensures Remembers(cfg, RunPasses(cfg, nows).timestamps, RunPasses(cfg, nows).accepted, at)
  {
    if nows != [] {
      var before, now := nows[..|nows| - 1], nows[|nows| - 1];
      RunRemembers(cfg, before, now);
      var h := RunPasses(cfg, before);
      AttemptRemembers(cfg, h.timestamps, h.accepted, now, now);
      StaysRemembered(cfg, RunPasses(cfg, nows).timestamps, RunPasses(cfg, nows).accepted, now, at);
    }
  }

  /**
   Over every run with a clock that never runs backwards, t[i + maxRequests] - t[i] > windowMs for
   the acceptance times t, and the next pass accepts exactly when fewer than maxRequests of them
   are at most windowMs old.
   */
  lemma NeverMoreThanMaxPerWindow(cfg: Config, nows: seq<int>, now: int)
    requires Ascending(nows + [now])
    ensures var h := RunPasses(cfg, nows);
      && (forall i | 0 <= i < |h.accepted| - cfg.maxRequests ::
            h.accepted[i + cfg.maxRequests] - h.accepted[i] > cfg.windowMs)
      && (Attempt(cfg, h.timestamps, now).accepted <==> CountRecent(cfg, h.accepted, now) < cfg.maxRequests)
  {
    var all := nows + [now];
    assert forall i | 0 <= i < |nows| :: nows[i] == all[i] && all[i] <= all[|nows|];
    RunRemembers(cfg, nows, now);
    var h := RunPasses(cfg, nows);
    AttemptRemembers(cfg, h.timestamps, h.accepted, now, now);
  }
}
