/** The fixed-window rate limiter of the chat relay: a process-wide table
    from client id to a request count and the end of the client's window.
    The clock (`Date.now()`) is the parameter `now`, in integer milliseconds. */
module RateLimit {

  /** Five minutes, in milliseconds. */
  const WindowMs: int := 5 * 60 * 1000

  /** Requests a client may make in one window. */
  const MaxRequests: int := 20

  datatype Entry = Entry(count: int, resetAt: int)

  /** What `checkRateLimit` returns: whether to reject, and the delay in
      seconds reported in the `Retry-After` header. */
  datatype Decision = Decision(limited: bool, retryAfter: int)

  /** A decision together with the table as it is after the check. */
  datatype Checked = Checked(decision: Decision, store: map<string, Entry>)

  /** `Math.ceil(ms / 1000)` for an integer number of milliseconds. */
  function CeilSeconds(ms: int): (r: int)
    ensures 1000 * (r - 1) < ms <= 1000 * r
  {
    -((-ms) / 1000)
  }

  /** `Math.max(1, Math.ceil((resetAt - now) / 1000))`. */
  function RetryAfter(resetAt: int, now: int): (r: int)
    ensures r >= 1
    ensures resetAt - now <= 1000 * r
    ensures r == 1 || 1000 * (r - 1) < resetAt - now
  {
    var c := CeilSeconds(resetAt - now);
    if c < 1 then 1 else c
  }

  /** The client has an entry whose window has not yet passed (`now > resetAt` is expiry). */
  predicate Live(store: map<string, Entry>, id: string, now: int) {
    id in store && now <= store[id].resetAt
  }

  /** One call of `checkRateLimit(id)` at time `now` against the table `store`. */
  function Check(store: map<string, Entry>, id: string, now: int): (c: Checked)
    ensures c.decision.retryAfter >= 1
    // A live window reports the time left in it, rounded up to whole seconds.
    ensures Live(store, id, now) ==> c.decision.retryAfter == RetryAfter(store[id].resetAt, now)
    ensures id in c.store
    ensures forall k :: k != id ==> (k in c.store <==> k in store)
    ensures forall k :: k != id && k in store ==> c.store[k] == store[k]
  {
    if !Live(store, id, now) then
      Checked(Decision(false, CeilSeconds(WindowMs)), store[id := Entry(1, now + WindowMs)])
    else if store[id].count >= MaxRequests then
      Checked(Decision(true, RetryAfter(store[id].resetAt, now)), store)
    else
      var e := store[id];
      Checked(Decision(false, RetryAfter(e.resetAt, now)), store[id := Entry(e.count + 1, e.resetAt)])
  }

  /** A missing or expired entry starts a new window: count 1, reset five
      minutes from now, not limited, retry after 300 seconds. */
  lemma CheckStartsWindow(store: map<string, Entry>, id: string, now: int)
    requires !Live(store, id, now)
    ensures Check(store, id, now).decision == Decision(false, 300)
    ensures Check(store, id, now).store[id] == Entry(1, now + 300000)
  {
  }

  /** A live entry at the maximum is limited and the table is left as it was. */
  lemma CheckAtLimit(store: map<string, Entry>, id: string, now: int)
    requires Live(store, id, now) && store[id].count >= MaxRequests
    ensures Check(store, id, now).decision.limited
    ensures Check(store, id, now).decision.retryAfter == RetryAfter(store[id].resetAt, now)
    ensures Check(store, id, now).store == store
  {
  }

  /** A live entry below the maximum gains exactly one request and is not limited. */
  lemma CheckCounts(store: map<string, Entry>, id: string, now: int)
    requires Live(store, id, now) && store[id].count < MaxRequests
    ensures !Check(store, id, now).decision.limited
    ensures Check(store, id, now).decision.retryAfter == RetryAfter(store[id].resetAt, now)
    ensures Check(store, id, now).store == store[id := store[id].(count := store[id].count + 1)]
  {
  }

  /** A limited client told to wait `k` whole seconds, when the window has
      exactly that long left, comes back at the window's last millisecond:
      the entry has not expired yet (expiry is `now > resetAt`), so the
      client is limited again. */
  lemma RetryAtResetStillLimited(store: map<string, Entry>, id: string, now: int, k: int)
    requires Live(store, id, now) && store[id].count >= MaxRequests
    requires k >= 1 && store[id].resetAt - now == 1000 * k
    ensures Check(store, id, now).decision == Decision(true, k)
    ensures var later := now + 1000 * Check(store, id, now).decision.retryAfter;
            && later == store[id].resetAt
            && Check(Check(store, id, now).store, id, later).decision.limited
  {
    var r := RetryAfter(store[id].resetAt, now);
    assert 1000 * (r - 1) < 1000 * k <= 1000 * r;
    assert r == k;
  }

  /** Every stored count lies between 1 and the maximum. */
  predicate CountsInRange(store: map<string, Entry>) {
    forall k :: k in store ==> 1 <= store[k].count <= MaxRequests
  }

  lemma CheckKeepsCountsInRange(store: map<string, Entry>, id: string, now: int)
    requires CountsInRange(store)
    ensures CountsInRange(Check(store, id, now).store)
  {
  }

  /** No window ends more than five minutes after `clock`: true of a table
      all of whose entries were created at or before `clock`. */
  predicate WindowsEndBy(store: map<string, Entry>, clock: int) {
    forall k :: k in store ==> store[k].resetAt <= clock + WindowMs
  }

  /** With a clock that does not run backwards, the reported delay is between
      one second and the window length, and the table keeps the bound. */
  lemma RetryAfterWithinWindow(store: map<string, Entry>, clock: int, id: string, now: int)
    requires WindowsEndBy(store, clock) && clock <= now
    ensures 1 <= Check(store, id, now).decision.retryAfter <= WindowMs / 1000
    ensures WindowsEndBy(Check(store, id, now).store, now)
  {
    if Live(store, id, now) {
      var r := RetryAfter(store[id].resetAt, now);
      assert store[id].resetAt - now <= WindowMs;
      assert r == 1 || 1000 * (r - 1) < WindowMs;
    }
  }

  /** The decisions of successive calls for one client at the given times. */
  function Replay(store: map<string, Entry>, id: string, times: seq<int>): (r: (seq<Decision>, map<string, Entry>))
    ensures |r.0| == |times|
    decreases |times|
  {
    if times == [] then
      ([], store)
    else
      var c := Check(store, id, times[0]);
      var rest := Replay(c.store, id, times[1..]);
      ([c.decision] + rest.0, rest.1)
  }

  /** Calls that all fall inside the window of a live entry with count `c`:
      the k-th of them (from 0) is limited exactly when c + k reaches the maximum. */
  lemma {:induction false} ReplayInWindow(store: map<string, Entry>, id: string, times: seq<int>)
    requires id in store && store[id].count >= 1
    requires forall i :: 0 <= i < |times| ==> times[i] <= store[id].resetAt
    ensures forall k :: 0 <= k < |times| ==>
              (Replay(store, id, times).0[k].limited <==> store[id].count + k >= MaxRequests)
    decreases |times|
  {
    if times != [] {
      var c := Check(store, id, times[0]);
      assert Live(store, id, times[0]);
      assert c.store[id].resetAt == store[id].resetAt;
      assert c.store[id].count == if store[id].count >= MaxRequests then store[id].count else store[id].count + 1;
      assert forall i :: 0 <= i < |times[1..]| ==> times[1..][i] == times[i + 1];
      ReplayInWindow(c.store, id, times[1..]);
      var ds := Replay(store, id, times).0;
      forall k | 0 <= k < |times|
        ensures ds[k].limited <==> store[id].count + k >= MaxRequests
      {
        if k > 0 {
          assert ds[k] == Replay(c.store, id, times[1..]).0[k - 1];
        }
      }
    }
  }

  /** Within one window that the first call opens, call number k + 1 (the
      call at index k) is limited exactly when k + 1 exceeds the maximum. */
  lemma NthCallInWindow(store: map<string, Entry>, id: string, times: seq<int>)
    requires |times| > 0 && !Live(store, id, times[0])
    requires forall i :: 0 <= i < |times| ==> times[i] <= times[0] + WindowMs
    ensures forall k :: 0 <= k < |times| ==>
              (Replay(store, id, times).0[k].limited <==> k + 1 > MaxRequests)
  {
    var c := Check(store, id, times[0]);
    assert c.store[id] == Entry(1, times[0] + WindowMs);
    assert forall i :: 0 <= i < |times[1..]| ==> times[1..][i] == times[i + 1];
    ReplayInWindow(c.store, id, times[1..]);
    var ds := Replay(store, id, times).0;
    forall k | 0 <= k < |times|
      ensures ds[k].limited <==> k + 1 > MaxRequests
    {
      if k > 0 {
        assert ds[k] == Replay(c.store, id, times[1..]).0[k - 1];
      }
    }
  }

  /** The in-memory table `rateLimitStore` and `checkRateLimit`. */
  class RateLimiter {
    var store: map<string, Entry>

    ghost predicate Valid()
      reads this
    {
      CountsInRange(store)
    }

    constructor ()
      ensures store == map[] && Valid()
    {
      store := map[];
    }

    method CheckRateLimit(clientId: string, now: int) returns (limited: bool, retryAfter: int)
      modifies this
      ensures Decision(limited, retryAfter) == Check(old(store), clientId, now).decision
      ensures store == Check(old(store), clientId, now).store
      ensures old(Valid()) ==> Valid()
    {
      if clientId !in store || now > store[clientId].resetAt {
        store := store[clientId := Entry(1, now + WindowMs)];
        return false, CeilSeconds(WindowMs);
      }
      var entry := store[clientId];
      if entry.count >= MaxRequests {
        return true, RetryAfter(entry.resetAt, now);
      }
      store := store[clientId := entry.(count := entry.count + 1)];
      return false, RetryAfter(entry.resetAt, now);
    }
  }
}
