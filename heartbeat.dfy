/**
 * The heartbeat throttle of `main2.py` and `mainback.py`: a GET to the
 * monitoring URL at most once per 60 seconds of the writer's clock.
 */
module Heartbeat {
  /** Seconds that must pass since the last attempt before the next one. */
  const Interval: int := 60

  /**
   * `last` is `last_heartbeat_time`; `sent` lists the clock readings at which
   * a request went out, oldest first.
   */
  datatype Beats = Beats(last: int, sent: seq<int>)

  /**
   * One call of `check_and_send_heartbeat` at time `now`. The second
   * component says whether a request error escaped: that happens only when a
   * request is made, it fails, and `send_heartbeat` does not catch it, in
   * which case `last` is not updated.
   *
   * A request goes out exactly when `Interval` seconds have passed since the
   * last attempt, at `now`; an attempt that returns moves `last` to `now`
   * whether or not the request succeeded, and a quiet call changes nothing.
   */
  function Attempt(b: Beats, now: int, fails: bool, catches: bool): (r: (Beats, bool))
    ensures |r.0.sent| == |b.sent| + 1 <==> now - b.last >= Interval
    ensures now - b.last >= Interval ==> r.0.sent == b.sent + [now] && (r.1 || r.0.last == now)
    ensures now - b.last < Interval ==> r.0 == b && !r.1
    ensures r.1 <==> now - b.last >= Interval && fails && !catches
    ensures r.1 ==> r.0.last == b.last
  {
    if now - b.last >= Interval then
      if fails && !catches then (Beats(b.last, b.sent + [now]), true)
      else (Beats(now, b.sent + [now]), false)
    else (b, false)
  }

  /** Consecutive requests are at least `Interval` apart, and `last` is the latest one. */
  predicate Spaced(b: Beats) {
    && (forall k :: 0 < k < |b.sent| ==> b.sent[k] - b.sent[k - 1] >= Interval)
    && (b.sent != [] ==> b.sent[|b.sent| - 1] == b.last)
  }

  /** Requests that return normally keep the requests spaced. */
  lemma AttemptKeepsSpaced(b: Beats, now: int, fails: bool, catches: bool)
    requires Spaced(b)
    requires !Attempt(b, now, fails, catches).1
    ensures Spaced(Attempt(b, now, fails, catches).0)
  {
    var r := Attempt(b, now, fails, catches).0;
    if now - b.last >= Interval {
      forall k | 0 < k < |r.sent|
        ensures r.sent[k] - r.sent[k - 1] >= Interval
      {
        if k < |b.sent| {
          assert r.sent[k] == b.sent[k] && r.sent[k - 1] == b.sent[k - 1];
        }
      }
    }
  }

  /** The global `last_heartbeat_time` together with the requests made so far. */
  class HeartbeatMonitor {
    var last: int
    var sent: seq<int>

    /** Module start-up: `last_heartbeat_time = time.time()`. */
    constructor (start: int)
      ensures last == start && sent == []
    {
      last := start;
      sent := [];
    }

    function Snapshot(): Beats
      reads this
    {
      Beats(last, sent)
    }

    /**
     * `check_and_send_heartbeat()`; `fails` is the request outcome and
     * `catches` whether `send_heartbeat` catches request errors.
     */
    method CheckAndSend(now: int, fails: bool, catches: bool) returns (raised: bool)
      modifies this
      ensures (Snapshot(), raised) == Attempt(old(Snapshot()), now, fails, catches)
    {
      raised := false;
      if now - last >= Interval {
        sent := sent + [now];
        if fails && !catches {
          raised := true;
          return;
        }
        last := now;
      }
    }
  }
}
