/**
 * The in-memory limiter on a clock that can run back: a deque has already dropped admissions that an
 * earlier reading makes count again. Exactly how long a window it keeps its quota over.
 */
module RateLimiterClock {
  import opened SlidingWindow
  import opened RateLimiter

  /** No reading is more than `fall` before an earlier one. */
  predicate FallsBack(trace: seq<real>, fall: real) {
    forall i, j :: 0 <= i < j < |trace| ==> trace[j] >= trace[i] - fall
  }

  /** Admissions in the closed window. */
  function CountBetween(h: seq<real>, low: real, high: real): nat {
    if h == [] then 0
    else CountBetween(h[..|h| - 1], low, high) + if low <= h[|h| - 1] <= high then 1 else 0
  }

  /** Admissions in the closed window of that length from `start`. */
  function Load(p: Policy, trace: seq<real>, start: real, length: real): nat {
    CountBetween(Passed(p, trace), start, start + length)
  }

  ghost predicate QuotaOver(p: Policy, fall: real, length: real) {
    forall trace, start :: FallsBack(trace, fall) ==> Load(p, trace, start, length) <= p.maxRequests
  }

  // ---- what the bucket has dropped ----

  lemma {:induction false} DropsFront(p: Policy, bucket: seq<real>, now: real)
    ensures
      var kept := DropExpired(p, bucket, now);
      && |kept| <= |bucket| && kept == bucket[|bucket| - |kept|..]
      && (kept != [] ==> Live(p, kept[0], now))
      && forall i :: 0 <= i < |bucket| - |kept| ==> !Live(p, bucket[i], now)
  {
    if bucket == [] || Live(p, bucket[0], now) {
    } else {
      DropsFront(p, bucket[1..], now);
      var kept := DropExpired(p, bucket[1..], now);
      forall i | 0 <= i < |bucket| - |kept|
        ensures !Live(p, bucket[i], now)
      {
        if i > 0 {
          assert bucket[i] == bucket[1..][i - 1];
        }
      }
    }
  }

  /** Some request was more than a window after it. */
  ghost predicate Outdated(p: Policy, trace: seq<real>, at: real) {
    exists j :: 0 <= j < |trace| && at < trace[j] - p.window as real
  }

  /** The bucket is the end of the admissions, and all before it was outdated once. */
  ghost predicate EndsWith(p: Policy, trace: seq<real>, h: seq<real>, bucket: seq<real>) {
    && |bucket| <= |h| && bucket == h[|h| - |bucket|..]
    && forall i :: 0 <= i < |h| - |bucket| ==> Outdated(p, trace, h[i])
  }

  lemma DropEndsWith(p: Policy, trace: seq<real>, h: seq<real>, bucket: seq<real>, now: real)
    requires p.boundary == Inclusive && EndsWith(p, trace, h, bucket)
    ensures EndsWith(p, trace + [now], h, DropExpired(p, bucket, now))
  {
    var kept, next := DropExpired(p, bucket, now), trace + [now];
    DropsFront(p, bucket, now);
    forall i | 0 <= i < |h| - |kept|
      ensures Outdated(p, next, h[i])
    {
      if i < |h| - |bucket| {
        var j :| 0 <= j < |trace| && h[i] < trace[j] - p.window as real;
        assert next[j] == trace[j];
      } else {
        assert h[i] == bucket[i - (|h| - |bucket|)];
        assert next[|trace|] == now;
      }
    }
  }

  lemma {:induction false} BucketEndsWith(p: Policy, trace: seq<real>)
    requires p.boundary == Inclusive
    ensures EndsWith(p, trace, Passed(p, trace), BucketAfter(p, trace))
  {
    hide DropExpired, Outdated;
    if trace == [] {
    } else {
      var front, now := trace[..|trace| - 1], trace[|trace| - 1];
      var h, bucket := Passed(p, front), BucketAfter(p, front);
      assert front + [now] == trace;
      BucketEndsWith(p, front);
      DropEndsWith(p, front, h, bucket, now);
      var kept := DropExpired(p, bucket, now);
      assert forall i :: 0 <= i < |h| ==> (h + [now])[i] == h[i];
      assert Fits(p, bucket, now) ==> kept + [now] == (h + [now])[|h| - |kept|..];
    }
  }

  lemma {:induction false} CountAtMost(h: seq<real>, low: real, high: real, k: nat)
    requires k <= |h| && forall i :: 0 <= i < k ==> !(low <= h[i] <= high)
    ensures CountBetween(h, low, high) <= |h| - k
  {
    if h == [] {
    } else if k == |h| {
      CountAtMost(h[..|h| - 1], low, high, k - 1);
    } else {
      CountAtMost(h[..|h| - 1], low, high, k);
    }
  }

  lemma CountNext(h: seq<real>, at: real, low: real, high: real)
    ensures CountBetween(h + [at], low, high) == CountBetween(h, low, high) + if low <= at <= high then 1 else 0
  {
    assert (h + [at])[..|h|] == h;
  }

  lemma NewcomerFits(p: Policy, trace: seq<real>, now: real, fall: real, low: real, high: real)
    requires p.boundary == Inclusive && fall >= 0.0 && FallsBack(trace + [now], fall)
    requires Fits(p, BucketAfter(p, trace), now) && low <= now <= high <= low + p.window as real - fall
    ensures CountBetween(Passed(p, trace), low, high) < p.maxRequests
  {
    hide Passed, BucketAfter, DropExpired;
    var h, next := Passed(p, trace), trace + [now];
    var kept := DropExpired(p, BucketAfter(p, trace), now);
    BucketEndsWith(p, trace);
    DropEndsWith(p, trace, h, BucketAfter(p, trace), now);
    forall i | 0 <= i < |h| - |kept|
      ensures !(low <= h[i] <= high)
    {
      assert Outdated(p, next, h[i]);
      var j :| 0 <= j < |next| && h[i] < next[j] - p.window as real;
      assert next[|trace|] == now;
      assert now >= next[j] - fall;
    }
    CountAtMost(h, low, high, |h| - |kept|);
  }

  /** Windows shorter by the fall of the clock never hold more than the quota. */
  lemma {:induction false} ShorterWindows(p: Policy, trace: seq<real>, fall: real, low: real, high: real)
    requires p.boundary == Inclusive && fall >= 0.0 && FallsBack(trace, fall)
    requires high <= low + p.window as real - fall
    ensures CountBetween(Passed(p, trace), low, high) <= p.maxRequests
  {
    hide BucketAfter, Fits;
    if trace == [] {
    } else {
      var front, now := trace[..|trace| - 1], trace[|trace| - 1];
      assert front + [now] == trace;
      ShorterWindows(p, front, fall, low, high);
      CountNext(Passed(p, front), now, low, high);
      PassedNext(p, front, now);
      assert Passed(p, front) + [] == Passed(p, front);
      if Fits(p, BucketAfter(p, front), now) && low <= now <= high {
        NewcomerFits(p, front, now, fall, low, high);
      }
    }
  }

  // ---- a quota of 1 ----

  ghost predicate Apart(p: Policy, h: seq<real>) {
    forall i, j :: 0 <= i < j < |h| ==> h[j] > h[i] + p.window as real
  }

  /** Only the last admission is ever in the bucket, so the next one is more than a window later. */
  lemma {:induction false} OneAtATime(p: Policy, trace: seq<real>)
    requires p.boundary == Inclusive && p.maxRequests == 1
    ensures Apart(p, Passed(p, trace))
    ensures
      var h := Passed(p, trace);
      BucketAfter(p, trace) == if h == [] then [] else [h[|h| - 1]]
  {
    if trace == [] {
    } else {
      var front, now := trace[..|trace| - 1], trace[|trace| - 1];
      OneAtATime(p, front);
      NextApart(p, Passed(p, front), BucketAfter(p, front), now);
    }
  }

  lemma NextApart(p: Policy, h: seq<real>, bucket: seq<real>, now: real)
    requires p.boundary == Inclusive && p.maxRequests == 1 && Apart(p, h)
    requires bucket == if h == [] then [] else [h[|h| - 1]]
    ensures
      var h' := h + (if Fits(p, bucket, now) then [now] else []);
      Apart(p, h') && Slid(p, bucket, now) == if h' == [] then [] else [h'[|h'| - 1]]
  {
    NothingLive(p, now);
    if h == [] {
      assert Slid(p, bucket, now) == [now];
    } else {
      var last := h[|h| - 1];
      assert bucket[1..] == [] && bucket[0] == last;
      if Live(p, last, now) {
        assert DropExpired(p, bucket, now) == bucket;
      } else {
        assert DropExpired(p, bucket, now) == [];
        assert forall i :: 0 <= i < |h| ==> h[i] <= last;
      }
    }
  }

  lemma {:induction false} ApartCount(p: Policy, h: seq<real>, low: real, high: real)
    requires Apart(p, h) && high <= low + p.window as real
    ensures CountBetween(h, low, high) <= 1
  {
    if h == [] {
    } else if low <= h[|h| - 1] <= high {
      CountAtMost(h[..|h| - 1], low, high, |h| - 1);
    } else {
      ApartCount(p, h[..|h| - 1], low, high);
    }
  }

  // ---- runs that exceed the quota ----

  /** A quota's worth at 0, one at `late`, which drops them, then all but one of another quota's worth. */
  function Relapse(q: nat, late: real, again: real): seq<real> {
    seq(2 * q, i requires 0 <= i < 2 * q => if i < q then 0.0 else if i == q then late else again)
  }

  /** The bucket after n of these requests. */
  function RelapseBucket(q: nat, late: real, again: real, n: nat): seq<real> {
    if n <= q then seq(n, _ => 0.0) else [late] + seq(n - q - 1, _ => again)
  }

  lemma {:induction false} AllDropped(p: Policy, bucket: seq<real>, now: real)
    requires forall i :: 0 <= i < |bucket| ==> !Live(p, bucket[i], now)
    ensures DropExpired(p, bucket, now) == []
  {
    if bucket == [] {
    } else {
      AllDropped(p, bucket[1..], now);
    }
  }

  lemma {:induction false} RelapsePasses(p: Policy, late: real, again: real, n: nat)
    requires p.boundary == Inclusive && n <= 2 * p.maxRequests
    requires late > p.window as real && 0.0 <= again <= late
    ensures
      var trace := Relapse(p.maxRequests, late, again)[..n];
      Passed(p, trace) == trace && BucketAfter(p, trace) == RelapseBucket(p.maxRequests, late, again, n)
  {
    hide Passed, BucketAfter, DropExpired;
    var q := p.maxRequests;
    var all := Relapse(q, late, again);
    if n == 0 {
      NoRequests(p);
    } else {
      var front, now := all[..n - 1], all[n - 1];
      var bucket := RelapseBucket(q, late, again, n - 1);
      assert front + [now] == all[..n];
      RelapsePasses(p, late, again, n - 1);
      PassedNext(p, front, now);
      if n == q + 1 {
        AllDropped(p, bucket, now);
      } else {
        assert DropExpired(p, bucket, now) == bucket by { FirstLive(p, bucket, now); }
      }
      assert Slid(p, bucket, now) == RelapseBucket(q, late, again, n);
    }
  }

  lemma FirstLive(p: Policy, bucket: seq<real>, now: real)
    requires bucket == [] || Live(p, bucket[0], now)
    ensures DropExpired(p, bucket, now) == bucket
  {
  }

  lemma {:induction false} RelapseCount(q: nat, late: real, again: real, n: nat)
    requires n <= 2 * q && 0.0 <= again
    ensures CountBetween(Relapse(q, late, again)[..n], 0.0, again) >= n - if n > q then 1 else 0
  {
    var all := Relapse(q, late, again);
    if n == 0 {
    } else {
      RelapseCount(q, late, again, n - 1);
      assert all[..n] == all[..n - 1] + [all[n - 1]];
      CountNext(all[..n - 1], all[n - 1], 0.0, again);
    }
  }

  /** When the clock falls back by `fall`, a longer window can hold 2q - 1 admissions. */
  lemma FallExceeds(p: Policy, fall: real, length: real)
    requires p.boundary == Inclusive && p.maxRequests >= 1 && fall >= 0.0
    requires length >= 0.0 && length > p.window as real - fall
    ensures
      var trace := Relapse(p.maxRequests, length + fall, length);
      FallsBack(trace, fall) && Load(p, trace, 0.0, length) >= 2 * p.maxRequests - 1
  {
    hide Passed, CountBetween, Relapse;
    var q := p.maxRequests;
    var trace := Relapse(q, length + fall, length);
    RelapseFalls(q, fall, length);
    RelapsePasses(p, length + fall, length, 2 * q);
    RelapseCount(q, length + fall, length, 2 * q);
    assert trace[..2 * q] == trace;
    assert 0.0 + length == length;
  }

  lemma RelapseFalls(q: nat, fall: real, length: real)
    requires fall >= 0.0 && length >= 0.0
    ensures |Relapse(q, length + fall, length)| == 2 * q && FallsBack(Relapse(q, length + fall, length), fall)
  {
  }

  /** Two admissions just more than a window apart. */
  lemma LongerThanWindow(p: Policy, fall: real, length: real)
    requires p.boundary == Inclusive && p.maxRequests == 1 && fall >= 0.0 && length > p.window as real
    ensures FallsBack([0.0, length], fall) && Load(p, [0.0, length], 0.0, length) == 2
  {
    hide Passed;
    var trace := [0.0, length];
    RelapsePasses(p, length, length, 2);
    assert Relapse(1, length, length)[..2] == trace;
    CountNext([], 0.0, 0.0, length);
    CountNext([0.0], length, 0.0, length);
    assert [] + [0.0] == [0.0] && [0.0] + [length] == trace;
    assert 0.0 + length == length;
  }

  /**
   * On a clock that falls back by at most `fall`, every closed window of a length holds at most the
   * quota if and only if it is shorter than the configured window by the fall, or the quota is 1 and
   * it is no longer than the configured one.
   */
  lemma QuotaKeptExactly(p: Policy, fall: real, length: real)
    requires p.boundary == Inclusive && p.maxRequests >= 1 && fall >= 0.0
    ensures QuotaOver(p, fall, length) <==>
      || length < 0.0
      || length <= p.window as real - fall
      || (p.maxRequests == 1 && length <= p.window as real)
  {
    hide FallsBack, Passed, Relapse, CountBetween;
    if length < 0.0 || length <= p.window as real - fall || (p.maxRequests == 1 && length <= p.window as real) {
      forall trace, start | FallsBack(trace, fall)
        ensures Load(p, trace, start, length) <= p.maxRequests
      {
        var h := Passed(p, trace);
        if length < 0.0 {
          CountAtMost(h, start, start + length, |h|);
        } else if length <= p.window as real - fall {
          ShorterWindows(p, trace, fall, start, start + length);
        } else {
          OneAtATime(p, trace);
          ApartCount(p, h, start, start + length);
        }
      }
    } else if p.maxRequests == 1 {
      LongerThanWindow(p, fall, length);
    } else {
      FallExceeds(p, fall, length);
    }
  }
}
