/**
 * The sliding-window rate limiter: a map from client id to the timestamps
 * (in milliseconds) of that client's admitted requests. The current time,
 * which the source reads from the clock, is a parameter here.
 */
module RateLimiting {
  import opened Wrappers

  /** What `isAllowed` returns. */
  datatype Decision = Allowed(remaining: int) | Denied(retryAfter: int)

  /** `timestamps.filter(t => t > windowStart)`. */
  function InWindow(ts: seq<int>, windowStart: int): (r: seq<int>)
    ensures |r| <= |ts|
    ensures forall t :: t in r <==> t in ts && t > windowStart
    ensures forall i :: 0 <= i < |r| ==> r[i] > windowStart
    ensures (forall i :: 0 <= i < |ts| ==> ts[i] > windowStart) ==> r == ts
  {
    if ts == [] then []
    else if ts[0] > windowStart then [ts[0]] + InWindow(ts[1..], windowStart)
    else InWindow(ts[1..], windowStart)
  }

  /** Filtering keeps every copy of a timestamp inside the window and no
      copy of one outside it. */
  lemma {:induction false} InWindowCounts(ts: seq<int>, windowStart: int)
    ensures forall t :: multiset(InWindow(ts, windowStart))[t] == if t > windowStart then multiset(ts)[t] else 0
  {
    if ts != [] {
      InWindowCounts(ts[1..], windowStart);
      assert ts == [ts[0]] + ts[1..];
    }
  }

  /** Filtering a concatenation filters each part and keeps their order, so
      the kept timestamps appear in the order of the bucket. */
  lemma {:induction false} InWindowConcat(a: seq<int>, b: seq<int>, windowStart: int)
    ensures InWindow(a + b, windowStart) == InWindow(a, windowStart) + InWindow(b, windowStart)
  {
    if a != [] {
      ConsAppend(a, b);
      assert (a + b)[0] == a[0] && (a + b)[1..] == a[1..] + b;
      InWindowConcat(a[1..], b, windowStart);
      var x, y := InWindow(a[1..], windowStart), InWindow(b, windowStart);
      ConsAppend([a[0]] + x, y);
    } else {
      assert a + b == b;
    }
  }

  predicate Ascending(ts: seq<int>) {
    forall i, j :: 0 <= i < j < |ts| ==> ts[i] <= ts[j]
  }

  /** Filtering keeps the order of what it keeps. */
  lemma {:induction false} InWindowAscending(ts: seq<int>, windowStart: int)
    requires Ascending(ts)
    ensures Ascending(InWindow(ts, windowStart))
  {
    if ts != [] {
      InWindowAscending(ts[1..], windowStart);
      var rest := InWindow(ts[1..], windowStart);
      assert forall t :: t in rest ==> t in ts[1..] && ts[0] <= t;
    }
  }

  /** `Math.ceil(x / d)` for a positive divisor. */
  function CeilDiv(x: int, d: int): (c: int)
    requires d > 0
    ensures (c - 1) * d < x <= c * d
  {
    -((-x) / d)
  }

  /** Admission for one client bucket: the bucket is pruned to the window
      ending at `now`; a full bucket is denied with the seconds until its
      oldest entry leaves the window, otherwise `now` is appended. Returns the
      decision and the new bucket. */
  function Admit(bucket: seq<int>, now: int, windowMs: int, maxRequests: int): (r: (Decision, seq<int>))
    requires maxRequests >= 1
    ensures var pruned := InWindow(bucket, now - windowMs);
      if |pruned| >= maxRequests then r.1 == pruned else r.1 == pruned + [now]
    ensures r.0.Allowed? <==> |InWindow(bucket, now - windowMs)| < maxRequests
    ensures |bucket| <= maxRequests ==> |r.1| <= maxRequests
    ensures forall i :: 0 <= i < |r.1| ==> r.1[i] > now - windowMs || (r.0.Allowed? && r.1[i] == now)
    ensures r.0.Allowed? ==> r.0.remaining == maxRequests - |r.1| && r.0.remaining >= 0
    ensures r.0.Denied? ==> r.0.retryAfter >= 1
    ensures r.0.Denied? ==> var p := InWindow(bucket, now - windowMs);
      |p| >= 1 && (r.0.retryAfter - 1) * 1000 < p[0] + windowMs - now <= r.0.retryAfter * 1000
  {
    var pruned := InWindow(bucket, now - windowMs);
    if |pruned| >= maxRequests then
      assert pruned[0] > now - windowMs;
      (Denied(CeilDiv(pruned[0] + windowMs - now, 1000)), pruned)
    else
      (Allowed(maxRequests - |pruned| - 1), pruned + [now])
  }

  /** A full bucket [1000, 2000] at time 2500 with a one-minute window waits
      59 seconds: the oldest entry leaves the window at 61000. */
  lemma RetryAfterExample()
    ensures Admit([1000, 2000], 2500, 60000, 2) == (Denied(59), [1000, 2000])
  {
    assert InWindow([1000, 2000], 2500 - 60000) == [1000, 2000];
  }

  /** While the clock never goes back, a bucket stays in ascending order, so
      its first entry is its oldest. */
  lemma AdmitKeepsAscending(bucket: seq<int>, now: int, windowMs: int, maxRequests: int)
    requires maxRequests >= 1
    requires Ascending(bucket) && forall i :: 0 <= i < |bucket| ==> bucket[i] <= now
    ensures var b := Admit(bucket, now, windowMs, maxRequests).1;
      Ascending(b) && forall i :: 0 <= i < |b| ==> b[i] <= now
  {
    InWindowAscending(bucket, now - windowMs);
    var pruned := InWindow(bucket, now - windowMs);
    assert forall i :: 0 <= i < |pruned| ==> pruned[i] <= now by {
      forall i | 0 <= i < |pruned| ensures pruned[i] <= now {
        assert pruned[i] in bucket;
      }
    }
    if |pruned| < maxRequests {
      AppendLatestAscending(pruned, now);
    }
  }

  lemma AppendLatestAscending(ts: seq<int>, now: int)
    requires Ascending(ts) && forall i :: 0 <= i < |ts| ==> ts[i] <= now
    ensures Ascending(ts + [now]) && forall i :: 0 <= i < |ts| + 1 ==> (ts + [now])[i] <= now
  {
    var b := ts + [now];
    forall i, j | 0 <= i < j < |b| ensures b[i] <= b[j] {
      if j < |ts| { assert b[i] == ts[i] && b[j] == ts[j]; }
    }
  }

  /** The buckets `cleanup` leaves: clients with nothing in the window are
      dropped, every other bucket is pruned to the window. */
  function Swept(requests: map<string, seq<int>>, windowStart: int): (r: map<string, seq<int>>)
    ensures forall c :: c in r <==> c in requests && InWindow(requests[c], windowStart) != []
    ensures forall c :: c in r ==> r[c] == InWindow(requests[c], windowStart)
  {
    map c | c in requests && InWindow(requests[c], windowStart) != [] :: InWindow(requests[c], windowStart)
  }

  class RateLimiter {
    const windowMs: int
    const maxRequests: int
    var requests: map<string, seq<int>>

    /** No bucket ever holds more than `maxRequests` timestamps. */
    ghost predicate Valid()
      reads this
    {
      maxRequests >= 1 && forall c :: c in requests ==> |requests[c]| <= maxRequests
    }

    /** `new RateLimiter(windowMs = 60000, maxRequests = 10)`. */
    constructor (windowMs: int := 60000, maxRequests: int := 10)
      requires maxRequests >= 1
      ensures Valid()
      ensures this.windowMs == windowMs && this.maxRequests == maxRequests && requests == map[]
    {
      this.windowMs := windowMs;
      this.maxRequests := maxRequests;
      requests := map[];
    }

    /** `isAllowed(clientId)` at time `now`: only the client's own bucket
        changes, to the pruned bucket, with `now` appended when admitted. */
    method IsAllowed(clientId: string, now: int) returns (d: Decision)
      requires Valid()
      modifies this
      ensures Valid()
      ensures var bucket := if clientId in old(requests) then old(requests)[clientId] else [];
        clientId in requests && (d, requests[clientId]) == Admit(bucket, now, windowMs, maxRequests)
      ensures requests.Keys == old(requests).Keys + {clientId}
      ensures forall c :: c in old(requests) && c != clientId ==> requests[c] == old(requests)[c]
    {
      var windowStart := now - windowMs;
      if clientId !in requests {
        requests := requests[clientId := []];
      }
      var clientRequests := requests[clientId];
      var validRequests := InWindow(clientRequests, windowStart);
      requests := requests[clientId := validRequests];
      if |validRequests| >= maxRequests {
        d := Denied(CeilDiv(validRequests[0] + windowMs - now, 1000));
        return;
      }
      validRequests := validRequests + [now];
      requests := requests[clientId := validRequests];
      d := Allowed(maxRequests - |validRequests|);
    }

    /** `cleanup()` at time `now`: every bucket is pruned to the window and
        the clients left with an empty bucket are deleted. */
    method Cleanup(now: int)
      requires Valid()
      modifies this
      ensures Valid()
      ensures requests == Swept(old(requests), now - windowMs)
    {
      var windowStart := now - windowMs;
      var pending := requests.Keys;
      while pending != {}
        invariant pending <= old(requests).Keys
        invariant requests == PartlySwept(old(requests), pending, windowStart)
        decreases pending
      {
        var clientId :| clientId in pending;
        var validTimestamps := InWindow(requests[clientId], windowStart);
        if |validTimestamps| == 0 {
          requests := requests - {clientId};
        } else {
          requests := requests[clientId := validTimestamps];
        }
        SweepStep(old(requests), pending, windowStart, clientId);
        pending := pending - {clientId};
      }
      assert Valid() && requests == Swept(old(requests), now - windowMs) by {
        SweepDone(old(requests), pending, windowStart, requests, maxRequests);
      }
    }

    /** The state of `cleanup` part way through: the clients in `pending` are
        not visited yet, the others are swept. */
    static ghost function PartlySwept(original: map<string, seq<int>>, pending: set<string>, windowStart: int): map<string, seq<int>> {
      map c | c in original && (c in pending || InWindow(original[c], windowStart) != []) ::
        if c in pending then original[c] else InWindow(original[c], windowStart)
    }

    /** With no client pending the sweep is complete, and pruning never
        grows a bucket. */
    static lemma SweepDone(original: map<string, seq<int>>, pending: set<string>, windowStart: int,
                           swept: map<string, seq<int>>, maxRequests: int)
      requires pending == {} && swept == PartlySwept(original, pending, windowStart)
      requires forall c :: c in original ==> |original[c]| <= maxRequests
      ensures swept == Swept(original, windowStart)
      ensures forall c :: c in swept ==> |swept[c]| <= maxRequests
    {
    }

    /** Visiting one pending client moves `cleanup` one step along. */
    static lemma SweepStep(original: map<string, seq<int>>, pending: set<string>, windowStart: int, c: string)
      requires c in pending && pending <= original.Keys
      ensures var before := PartlySwept(original, pending, windowStart);
        var pruned := InWindow(original[c], windowStart);
        PartlySwept(original, pending - {c}, windowStart) ==
          if |pruned| == 0 then before - {c} else before[c := pruned]
    {
    }
  }
}
