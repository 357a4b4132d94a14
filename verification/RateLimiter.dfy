/**
 * The gateway's in-memory limiter: one deque of admission times per client key.
 * Time is a real number of seconds, the window a whole number of them.
 */
module RateLimiter {
  import opened SlidingWindow

  datatype Response = Forwarded | TooManyRequests(retryAfter: int)

  /** Conversion of a float to an integer: toward zero. */
  function Truncate(x: real): int {
    if x >= 0.0 then x.Floor else -((-x).Floor)
  }

  /** The admissions of `h` that still count at `now`, oldest first. */
  function LiveOnly(p: Policy, h: seq<real>, now: real): seq<real> {
    if h == [] then []
    else
      var rest := LiveOnly(p, h[..|h| - 1], now);
      if Live(p, h[|h| - 1], now) then rest + [h[|h| - 1]] else rest
  }

  lemma {:induction false} LiveOnlyLength(p: Policy, h: seq<real>, now: real)
    ensures |LiveOnly(p, h, now)| == CountLive(p, h, now)
  {
    if h == [] {
    } else {
      LiveOnlyLength(p, h[..|h| - 1], now);
    }
  }

  lemma {:induction false} LiveOnlySorted(p: Policy, h: seq<real>, now: real, top: real)
    requires Sorted(h) && AllBy(h, top)
    ensures Sorted(LiveOnly(p, h, now)) && AllBy(LiveOnly(p, h, now), top)
    ensures forall k :: 0 <= k < |LiveOnly(p, h, now)| ==> Live(p, LiveOnly(p, h, now)[k], now)
  {
    if h == [] {
    } else {
      LiveOnlySorted(p, h[..|h| - 1], now, h[|h| - 1]);
    }
  }

  /** Filtering at an earlier moment first changes nothing. */
  lemma {:induction false} LiveOnlyTwice(p: Policy, h: seq<real>, earlier: real, now: real)
    requires earlier <= now
    ensures LiveOnly(p, LiveOnly(p, h, earlier), now) == LiveOnly(p, h, now)
  {
    if h == [] {
    } else {
      var rest := LiveOnly(p, h[..|h| - 1], earlier);
      LiveOnlyTwice(p, h[..|h| - 1], earlier, now);
      assert (rest + [h[|h| - 1]])[..|rest|] == rest;
    }
  }

  lemma {:induction false} LiveOnlyDropHead(p: Policy, h: seq<real>, now: real)
    requires h != [] && !Live(p, h[0], now)
    ensures LiveOnly(p, h[1..], now) == LiveOnly(p, h, now)
  {
    if |h| == 1 {
    } else {
      LiveOnlyDropHead(p, h[..|h| - 1], now);
      assert h[1..][..|h| - 2] == h[..|h| - 1][1..];
    }
  }

  lemma {:induction false} AllLive(p: Policy, h: seq<real>, now: real)
    requires forall i :: 0 <= i < |h| ==> Live(p, h[i], now)
    ensures LiveOnly(p, h, now) == h
  {
    if h == [] {
    } else {
      AllLive(p, h[..|h| - 1], now);
    }
  }

  /** Seconds to wait, from the oldest admission that still counts. */
  function RetryAfter(p: Policy, h: seq<real>, now: real): int
    requires CountLive(p, h, now) > 0
  {
    LiveOnlyLength(p, h, now);
    Truncate(p.window as real - (now - LiveOnly(p, h, now)[0])) + 1
  }

  /** The answer that the full history of admissions calls for. */
  function Decide(p: Policy, h: seq<real>, now: real): Response
    requires p.maxRequests >= 1
  {
    if Admits(p, h, now) then Forwarded else TooManyRequests(RetryAfter(p, h, now))
  }

  lemma {:induction false} LiveIsWindow(p: Policy, h: seq<real>, now: real)
    requires p.boundary == Inclusive && AllBy(h, now)
    ensures CountLive(p, h, now) == CountInWindow(p, h, now - p.window as real)
  {
    if h == [] {
    } else {
      LiveIsWindow(p, h[..|h| - 1], now);
    }
  }

  /** The quota holds, so a refusal means that the window is exactly full. */
  lemma RefusedMeansFull(p: Policy, trace: seq<real>, now: real)
    requires p.boundary == Inclusive && Sorted(trace) && AllBy(trace, now)
    requires !Admits(p, Admitted(p, trace), now)
    ensures CountLive(p, Admitted(p, trace), now) == p.maxRequests
  {
    AdmittedSorted(p, trace, now);
    AdmittedWithinQuota(p, trace);
    LiveIsWindow(p, Admitted(p, trace), now);
    assert CountInWindow(p, Admitted(p, trace), now - p.window as real) <= p.maxRequests;
  }

  /** The wait is the time until the oldest live admission leaves the window, rounded up past it. */
  lemma RetryAfterBrackets(p: Policy, h: seq<real>, now: real)
    requires p.boundary == Inclusive && Sorted(h) && AllBy(h, now) && CountLive(p, h, now) > 0
    ensures |LiveOnly(p, h, now)| > 0
    ensures
      var oldest, retry := LiveOnly(p, h, now)[0], RetryAfter(p, h, now);
      && 1 <= retry <= p.window + 1
      && now + (retry - 1) as real <= oldest + p.window as real < now + retry as real
  {
    LiveOnlyLength(p, h, now);
    LiveOnlySorted(p, h, now, now);
    var wait := p.window as real - (now - LiveOnly(p, h, now)[0]);
    assert 0.0 <= wait <= p.window as real;
    assert wait.Floor as real <= wait < (wait.Floor + 1) as real;
  }

  /**
   * The advice given with a refusal is sound and least: it is between 1 and window + 1 seconds;
   * a request after that wait is admitted if nothing else was, one a second earlier is refused.
   */
  lemma RetryAfterSoundAndLeast(p: Policy, trace: seq<real>, now: real, later: real)
    requires p.boundary == Inclusive && p.maxRequests >= 1 && Sorted(trace) && AllBy(trace, now)
    requires !Admits(p, Admitted(p, trace), now)
    ensures CountLive(p, Admitted(p, trace), now) > 0
    ensures 1 <= RetryAfter(p, Admitted(p, trace), now) <= p.window + 1
    ensures later >= now + RetryAfter(p, Admitted(p, trace), now) as real ==> Admits(p, Admitted(p, trace), later)
    ensures !Admits(p, Admitted(p, trace), now + (RetryAfter(p, Admitted(p, trace), now) - 1) as real)
  {
    var h := Admitted(p, trace);
    RefusedMeansFull(p, trace, now);
    AdmittedSorted(p, trace, now);
    RetryAfterBrackets(p, h, now);
    if later >= now + RetryAfter(p, h, now) as real {
      RoomLater(p, h, now, later);
    }
    StillFull(p, h, now, now + (RetryAfter(p, h, now) - 1) as real);
  }

  lemma RoomLater(p: Policy, h: seq<real>, now: real, later: real)
    requires p.boundary == Inclusive && Sorted(h) && AllBy(h, now) && now <= later
    requires |LiveOnly(p, h, now)| > 0 && later > LiveOnly(p, h, now)[0] + p.window as real
    ensures CountLive(p, h, later) < CountLive(p, h, now)
  {
    var live := LiveOnly(p, h, now);
    LiveOnlySorted(p, h, now, now);
    LiveOnlyLength(p, h, now);
    LiveOnlyTwice(p, h, now, later);
    LiveOnlyLength(p, h, later);
    LiveOnlyLength(p, live, later);
    ExpiredPrefix(p, live, later, 0);
  }

  lemma StillFull(p: Policy, h: seq<real>, now: real, later: real)
    requires p.boundary == Inclusive && Sorted(h) && AllBy(h, now) && now <= later
    requires |LiveOnly(p, h, now)| > 0 && later <= LiveOnly(p, h, now)[0] + p.window as real
    ensures CountLive(p, h, later) == CountLive(p, h, now)
  {
    var live := LiveOnly(p, h, now);
    LiveOnlySorted(p, h, now, now);
    LiveOnlyLength(p, h, now);
    LiveOnlyTwice(p, h, now, later);
    LiveOnlyLength(p, h, later);
    AllLive(p, live, later);
  }

  /** The bucket left behind by a trace of requests. */
  function BucketFor(p: Policy, trace: seq<real>): seq<real>
    requires trace != []
  {
    LiveOnly(p, Admitted(p, trace), trace[|trace| - 1])
  }

  lemma BucketForSorted(p: Policy, trace: seq<real>, now: real)
    requires trace != [] && Sorted(trace) && trace[|trace| - 1] <= now
    ensures Sorted(BucketFor(p, trace))
    ensures LiveOnly(p, BucketFor(p, trace), now) == LiveOnly(p, Admitted(p, trace), now)
  {
    var last := trace[|trace| - 1];
    AdmittedSorted(p, trace, last);
    LiveOnlySorted(p, Admitted(p, trace), last, last);
    LiveOnlyTwice(p, Admitted(p, trace), last, now);
  }

  lemma SortedAppend(trace: seq<real>, now: real)
    requires Sorted(trace) && (trace != [] ==> trace[|trace| - 1] <= now)
    ensures Sorted(trace + [now])
  {
  }

  lemma AdmittedNext(p: Policy, trace: seq<real>, now: real)
    ensures
      var h := Admitted(p, trace);
      Admitted(p, trace + [now]) == if Admits(p, h, now) then h + [now] else h
  {
    var next := trace + [now];
    assert next[..|next| - 1] == trace && next[|next| - 1] == now;
  }

  lemma LiveOnlyNext(p: Policy, h: seq<real>, now: real)
    requires p.boundary == Inclusive
    ensures LiveOnly(p, h + [now], now) == LiveOnly(p, h, now) + [now]
  {
    assert (h + [now])[..|h|] == h;
  }

  /** What one more request does to the history and to the bucket. */
  lemma NextRequest(p: Policy, trace: seq<real>, now: real)
    requires p.boundary == Inclusive && Sorted(trace) && (trace != [] ==> trace[|trace| - 1] <= now)
    ensures Sorted(trace + [now])
    ensures
      var h := Admitted(p, trace);
      var added := if Admits(p, h, now) then [now] else [];
      && Admitted(p, trace + [now]) == h + added
      && BucketFor(p, trace + [now]) == LiveOnly(p, h, now) + added
      && |LiveOnly(p, h, now)| == CountLive(p, h, now)
  {
    hide Sorted, LiveOnly, Admitted, CountLive;
    var h := Admitted(p, trace);
    assert h + [] == h && LiveOnly(p, h, now) + [] == LiveOnly(p, h, now);
    SortedAppend(trace, now);
    AdmittedNext(p, trace, now);
    LiveOnlyNext(p, h, now);
    LiveOnlyLength(p, h, now);
  }

  // ---- the bucket, whatever the clock does ----

  /** What is left after popping expired admissions off the front. */
  function DropExpired(p: Policy, bucket: seq<real>, now: real): seq<real> {
    if bucket == [] || Live(p, bucket[0], now) then bucket else DropExpired(p, bucket[1..], now)
  }

  predicate Fits(p: Policy, bucket: seq<real>, now: real) {
    |DropExpired(p, bucket, now)| < p.maxRequests
  }

  function Slid(p: Policy, bucket: seq<real>, now: real): seq<real> {
    DropExpired(p, bucket, now) + if Fits(p, bucket, now) then [now] else []
  }

  function Respond(p: Policy, bucket: seq<real>, now: real): Response
    requires p.maxRequests >= 1
  {
    if Fits(p, bucket, now) then Forwarded
    else TooManyRequests(Truncate(p.window as real - (now - DropExpired(p, bucket, now)[0])) + 1)
  }

  function BucketAfter(p: Policy, trace: seq<real>): seq<real> {
    if trace == [] then [] else Slid(p, BucketAfter(p, trace[..|trace| - 1]), trace[|trace| - 1])
  }

  /** The admissions that deciding from the bucket makes. */
  function Passed(p: Policy, trace: seq<real>): seq<real> {
    if trace == [] then []
    else
      var front, now := trace[..|trace| - 1], trace[|trace| - 1];
      Passed(p, front) + if Fits(p, BucketAfter(p, front), now) then [now] else []
  }

  lemma {:induction false} DropIsLiveOnly(p: Policy, bucket: seq<real>, now: real)
    requires Sorted(bucket)
    ensures DropExpired(p, bucket, now) == LiveOnly(p, bucket, now)
  {
    if bucket == [] {
    } else if Live(p, bucket[0], now) {
      AllLive(p, bucket, now);
    } else {
      DropIsLiveOnly(p, bucket[1..], now);
      LiveOnlyDropHead(p, bucket, now);
    }
  }

  lemma PassedNext(p: Policy, trace: seq<real>, now: real)
    ensures
      Passed(p, trace + [now]) == Passed(p, trace) + (if Fits(p, BucketAfter(p, trace), now) then [now] else [])
    ensures BucketAfter(p, trace + [now]) == Slid(p, BucketAfter(p, trace), now)
  {
    var next := trace + [now];
    assert next[..|next| - 1] == trace && next[|next| - 1] == now;
  }

  /** On a clock that never runs back, the bucket holds the admissions of the full history that still count. */
  lemma {:induction false} BucketIsHistory(p: Policy, trace: seq<real>)
    requires p.boundary == Inclusive && Sorted(trace)
    ensures Passed(p, trace) == Admitted(p, trace)
    ensures trace != [] ==> BucketAfter(p, trace) == BucketFor(p, trace)
  {
    hide Sorted, Admitted, Passed, BucketAfter, BucketFor, Slid;
    if trace == [] {
      assert Passed(p, []) == Admitted(p, []) by { NoRequests(p); }
    } else {
      var front, now := trace[..|trace| - 1], trace[|trace| - 1];
      FrontSorted(trace);
      BucketIsHistory(p, front);
      BucketDecides(p, front, now);
    }
  }

  lemma NoRequests(p: Policy)
    ensures Passed(p, []) == [] && Admitted(p, []) == [] && BucketAfter(p, []) == []
  {
  }

  lemma FrontSorted(trace: seq<real>)
    requires Sorted(trace) && trace != []
    ensures Sorted(trace[..|trace| - 1]) && trace[..|trace| - 1] + [trace[|trace| - 1]] == trace
    ensures
      var front := trace[..|trace| - 1];
      front != [] ==> front[|front| - 1] <= trace[|trace| - 1]
  {
  }

  /** The bucket before a request holds what of the history still counts, in order. */
  lemma BucketBefore(p: Policy, trace: seq<real>, now: real)
    requires Sorted(trace) && (trace != [] ==> trace[|trace| - 1] <= now)
    requires trace != [] ==> BucketAfter(p, trace) == BucketFor(p, trace)
    ensures DropExpired(p, BucketAfter(p, trace), now) == LiveOnly(p, Admitted(p, trace), now)
  {
    hide Sorted, Admitted, BucketAfter, BucketFor, LiveOnly, DropExpired;
    if trace == [] {
      NoRequests(p);
      NothingLive(p, now);
    } else {
      BucketForSorted(p, trace, now);
      DropIsLiveOnly(p, BucketAfter(p, trace), now);
    }
  }

  lemma BucketDecides(p: Policy, trace: seq<real>, now: real)
    requires p.boundary == Inclusive && Sorted(trace) && (trace != [] ==> trace[|trace| - 1] <= now)
    requires Passed(p, trace) == Admitted(p, trace)
    requires trace != [] ==> BucketAfter(p, trace) == BucketFor(p, trace)
    ensures DropExpired(p, BucketAfter(p, trace), now) == LiveOnly(p, Admitted(p, trace), now)
    ensures Fits(p, BucketAfter(p, trace), now) == Admits(p, Admitted(p, trace), now)
    ensures Passed(p, trace + [now]) == Admitted(p, trace + [now])
    ensures BucketAfter(p, trace + [now]) == BucketFor(p, trace + [now])
  {
    hide Sorted, Admitted, Passed, BucketAfter, BucketFor, LiveOnly, CountLive, DropExpired;
    BucketBefore(p, trace, now);
    PassedNext(p, trace, now);
    NextRequest(p, trace, now);
  }

  lemma NothingLive(p: Policy, now: real)
    ensures LiveOnly(p, [], now) == [] && DropExpired(p, [], now) == []
  {
  }

  /**
   * Answering from the evicted bucket is answering from the full history, if the clock does not run
   * backwards.
   */
  lemma BucketAnswers(p: Policy, trace: seq<real>, now: real)
    requires p.boundary == Inclusive && p.maxRequests >= 1 && Sorted(trace + [now])
    ensures Respond(p, BucketAfter(p, trace), now) == Decide(p, Admitted(p, trace), now)
    ensures Passed(p, trace) == Admitted(p, trace)
  {
    hide Admitted, LiveOnly, BucketAfter, BucketFor, Passed;
    assert (trace + [now])[..|trace|] == trace;
    FrontSorted(trace + [now]);
    BucketIsHistory(p, trace);
    BucketDecides(p, trace, now);
  }

  class RateLimiterMiddleware {
    const maxRequests: nat
    const window: nat
    var buckets: map<string, seq<real>>

    /** Times of all requests ever checked, per key. */
    ghost var requests: map<string, seq<real>>

    function Limits(): Policy {
      Policy(maxRequests, window, Inclusive)
    }

    ghost function Trace(key: string): seq<real>
      reads this
    {
      if key in requests then requests[key] else []
    }

    /** Every admission ever made for `key`, including those the bucket has forgotten. */
    ghost function History(key: string): seq<real>
      reads this
    {
      Passed(Limits(), Trace(key))
    }

    ghost predicate Valid()
      reads this
    {
      && maxRequests >= 1
      && buckets.Keys == requests.Keys
      && forall key :: key in requests ==> buckets[key] == BucketAfter(Limits(), requests[key])
    }

    /** A limiter that admits nothing reads the head of an empty deque, so a quota of 0 is not usable. */
    constructor (maxRequests: nat, window: nat)
      requires maxRequests >= 1
      ensures Valid() && Limits() == Policy(maxRequests, window, Inclusive)
      ensures buckets == map[] && requests == map[]
    {
      this.maxRequests := maxRequests;
      this.window := window;
      buckets := map[];
      requests := map[];
    }

    /** Pops expired admissions off the front, then refuses or appends. */
    method Slide(before: seq<real>, now: real) returns (r: Response, bucket: seq<real>)
      requires maxRequests >= 1
      ensures r == Respond(Limits(), before, now) && bucket == Slid(Limits(), before, now)
    {
      var cutoff := now - window as real;
      ghost var p := Limits();
      bucket := before;
      while bucket != [] && bucket[0] < cutoff
        invariant DropExpired(p, bucket, now) == DropExpired(p, before, now)
        decreases |bucket|
      {
        bucket := bucket[1..];
      }
      if |bucket| >= maxRequests {
        r := TooManyRequests(Truncate(window as real - (now - bucket[0])) + 1);
      } else {
        bucket := bucket + [now];
        r := Forwarded;
      }
    }

    /** The limiter decides from its bucket; while the clock does not run back, as the full history would. */
    method Dispatch(path: string, key: string, now: real) returns (r: Response)
      requires Valid()
      modifies this
      ensures Valid()
      ensures path == "/health" ==> r == Forwarded && buckets == old(buckets) && requests == old(requests)
      ensures path != "/health" ==>
        && requests == old(requests)[key := old(Trace(key)) + [now]]
        && (forall k :: k in old(buckets) && k != key ==> k in buckets && buckets[k] == old(buckets)[k])
        && r == Respond(Limits(), BucketAfter(Limits(), old(Trace(key))), now)
        && (Sorted(old(Trace(key)) + [now]) ==> r == Decide(Limits(), Admitted(Limits(), old(Trace(key))), now))
        && History(key) == old(History(key)) + (if r == Forwarded then [now] else [])
    {
      hide BucketAfter, Passed, Admitted, Sorted, Decide;
      if path == "/health" {
        return Forwarded;
      }
      ghost var trace := Trace(key);
      var before := if key in buckets then buckets[key] else [];
      NoRequests(Limits());
      PassedNext(Limits(), trace, now);
      if Sorted(trace + [now]) {
        BucketAnswers(Limits(), trace, now);
      }
      var after;
      r, after := Slide(before, now);
      buckets := buckets[key := after];
      requests := requests[key := trace + [now]];
    }
  }
}
