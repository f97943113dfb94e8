/**
 * The broker-connection callbacks: what `on_connect` and `on_disconnect` do
 * with the broker's answers in each entry script. The broker is replaced by
 * the outcomes of its calls.
 */
module Connection {
  import opened Writer

  /** How a callback ends: the client keeps running, or the process exits with a status. */
  datatype Outcome = Subscribed | Logged | Reconnected | Exit(status: int)

  /**
   * `on_connect` with result code `rc`: subscribe to every topic on success;
   * on failure `main.py` and `main2.py` only log, `mainback.py` exits.
   */
  function OnConnect(variant: Variant, rc: int): (r: Outcome)
    ensures rc == 0 <==> r == Subscribed
    ensures rc != 0 ==> (r == Exit(1) <==> variant == MainBack)
    ensures r != Reconnected && r != Exit(0)
  {
    if rc == 0 then Subscribed
    else if variant == MainBack then Exit(1)
    else Logged
  }

  /**
   * `on_disconnect` in `main.py` and `mainback.py`: one reconnect attempt.
   * A failure ends the process: bare `exit()` in `main.py` gives status 0,
   * `sys.exit(1)` in `mainback.py` status 1.
   */
  function ReconnectOnce(variant: Variant, succeeds: bool): (r: Outcome)
    requires variant != Main2
    ensures succeeds <==> r == Reconnected
    ensures !succeeds ==> r == Exit(if variant == Main then 0 else 1)
  {
    if succeeds then Reconnected
    else if variant == Main then Exit(0)
    else Exit(1)
  }

  /** Reconnect attempts `main2.py` makes per disconnect. */
  const MaxRetries: nat := 10

  /**
   * `on_disconnect` in `main2.py`: `attempt(k)` is whether the reconnect
   * numbered `k + 1` succeeds. Returns how the callback ends, the ordinals of
   * the attempts it logged, and how many 5-second sleeps it took.
   *
   * The counter starts at zero on every call; attempts stop at the first
   * success or after ten failures, which exit with status 1; a sleep follows
   * every failed attempt except the last.
   */
  method ReconnectWithRetries(attempt: nat -> bool) returns (outcome: Outcome, tries: seq<nat>, sleeps: nat)
    ensures 1 <= |tries| <= MaxRetries
    ensures forall k :: 0 <= k < |tries| ==> tries[k] == k + 1
    ensures sleeps == |tries| - 1
    ensures forall k :: 0 <= k < |tries| - 1 ==> !attempt(k)
    ensures outcome == Reconnected <==> attempt(|tries| - 1)
    ensures outcome != Reconnected ==> outcome == Exit(1) && |tries| == MaxRetries
    ensures outcome == Reconnected <==> exists k :: 0 <= k < MaxRetries && attempt(k)
  {
    var retries: nat := 0;
    tries := [];
    sleeps := 0;
    while retries < MaxRetries
      invariant retries < MaxRetries
      invariant |tries| == retries && sleeps == retries
      invariant forall k :: 0 <= k < retries ==> tries[k] == k + 1
      invariant forall k :: 0 <= k < retries ==> !attempt(k)
    {
      tries := tries + [retries + 1];
      if attempt(retries) {
        return Reconnected, tries, sleeps;
      }
      retries := retries + 1;
      if retries < MaxRetries {
        sleeps := sleeps + 1;
      } else {
        return Exit(1), tries, sleeps;
      }
    }
    return Exit(1), tries, sleeps;
  }
}
