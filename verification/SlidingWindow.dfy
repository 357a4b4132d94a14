/**
 * What a sliding-window limiter decides, told from the full history of admissions.
 * The two limiters of the gateway are both compared with this module: the deque keeps
 * an admission that is exactly one window old, the sorted set does not.
 */
module SlidingWindow {

  datatype Boundary = Inclusive | Exclusive

  datatype Policy = Policy(maxRequests: nat, window: nat, boundary: Boundary)

  /** An admission made at `at` still counts against a request made at `now`. */
  predicate Live(p: Policy, at: real, now: real) {
    match p.boundary
    case Inclusive => at >= now - p.window as real
    case Exclusive => at > now - p.window as real
  }

  /** `at` lies in the window of length `p.window` that starts at `start`. */
  predicate InWindow(p: Policy, start: real, at: real) {
    match p.boundary
    case Inclusive => start <= at <= start + p.window as real
    case Exclusive => start < at <= start + p.window as real
  }

  function CountLive(p: Policy, h: seq<real>, now: real): nat {
    if h == [] then 0
    else CountLive(p, h[..|h| - 1], now) + if Live(p, h[|h| - 1], now) then 1 else 0
  }

  function CountInWindow(p: Policy, h: seq<real>, start: real): nat {
    if h == [] then 0
    else CountInWindow(p, h[..|h| - 1], start) + if InWindow(p, start, h[|h| - 1]) then 1 else 0
  }

  /** No window, wherever it starts, holds more than the quota. */
  ghost predicate WithinQuota(p: Policy, h: seq<real>) {
    forall start: real :: CountInWindow(p, h, start) <= p.maxRequests
  }

  predicate Admits(p: Policy, h: seq<real>, now: real) {
    CountLive(p, h, now) < p.maxRequests
  }

  /** The admissions of a whole trace of request times. */
  function Admitted(p: Policy, trace: seq<real>): seq<real> {
    if trace == [] then []
    else
      var h := Admitted(p, trace[..|trace| - 1]);
      var now := trace[|trace| - 1];
      if Admits(p, h, now) then h + [now] else h
  }

  /** The same run as a sequence of yes/no answers. */
  function Answers(p: Policy, trace: seq<real>): (r: seq<bool>)
    ensures |r| == |trace|
  {
    if trace == [] then []
    else
      var front := trace[..|trace| - 1];
      Answers(p, front) + [Admits(p, Admitted(p, front), trace[|trace| - 1])]
  }

  predicate Sorted(s: seq<real>) {
    forall i, j :: 0 <= i < j < |s| ==> s[i] <= s[j]
  }

  /** The requests of `trace` that `pick` selects. */
  function Picked(trace: seq<real>, pick: seq<bool>): seq<real>
    requires |trace| == |pick|
  {
    if trace == [] then []
    else
      var rest := Picked(trace[..|trace| - 1], pick[..|pick| - 1]);
      if pick[|pick| - 1] then rest + [trace[|trace| - 1]] else rest
  }

  lemma {:induction false} AdmittedIsPicked(p: Policy, trace: seq<real>)
    ensures Admitted(p, trace) == Picked(trace, Answers(p, trace))
  {
    if trace == [] {
    } else {
      var front := trace[..|trace| - 1];
      AdmittedIsPicked(p, front);
      assert Answers(p, trace)[..|trace| - 1] == Answers(p, front);
    }
  }

  /** No element of `h` is after `top`. */
  predicate AllBy(h: seq<real>, top: real) {
    forall i :: 0 <= i < |h| ==> h[i] <= top
  }

  lemma {:induction false} PickedSorted(trace: seq<real>, pick: seq<bool>, top: real)
    requires |trace| == |pick| && Sorted(trace) && AllBy(trace, top)
    ensures Sorted(Picked(trace, pick)) && AllBy(Picked(trace, pick), top)
  {
    if trace == [] {
    } else {
      PickedSorted(trace[..|trace| - 1], pick[..|pick| - 1], trace[|trace| - 1]);
    }
  }

  lemma {:induction false} AdmittedSorted(p: Policy, trace: seq<real>, top: real)
    requires Sorted(trace) && AllBy(trace, top)
    ensures Sorted(Admitted(p, trace)) && AllBy(Admitted(p, trace), top)
  {
    if trace == [] {
    } else {
      AdmittedSorted(p, trace[..|trace| - 1], trace[|trace| - 1]);
    }
  }

  lemma {:induction false} WindowCountsLive(p: Policy, h: seq<real>, start: real, now: real)
    requires now <= start + p.window as real
    ensures CountInWindow(p, h, start) <= CountLive(p, h, now)
  {
    if h == [] {
    } else {
      WindowCountsLive(p, h[..|h| - 1], start, now);
    }
  }

  /**
   * Whatever the trace, deciding by the full history leaves no window with more than the quota. Of a
   * limiter that forgets admissions this holds as long as it decides alike.
   */
  lemma {:induction false} AdmittedWithinQuota(p: Policy, trace: seq<real>)
    ensures WithinQuota(p, Admitted(p, trace))
  {
    if trace == [] {
    } else {
      var h, now := Admitted(p, trace[..|trace| - 1]), trace[|trace| - 1];
      AdmittedWithinQuota(p, trace[..|trace| - 1]);
      if Admits(p, h, now) {
        assert (h + [now])[..|h|] == h;
        forall start: real
          ensures CountInWindow(p, h + [now], start) <= p.maxRequests
        {
          if InWindow(p, start, now) {
            WindowCountsLive(p, h, start, now);
          }
        }
      }
    }
  }

  lemma {:induction false} ExpiredPrefix(p: Policy, h: seq<real>, now: real, i: nat)
    requires Sorted(h) && i < |h| && !Live(p, h[i], now)
    ensures CountLive(p, h, now) <= |h| - i - 1
  {
    if i + 1 < |h| {
      ExpiredPrefix(p, h[..|h| - 1], now, i);
    } else {
      NoneLive(p, h, now);
    }
  }

  lemma {:induction false} NoneLive(p: Policy, h: seq<real>, now: real)
    requires forall x :: x in h ==> !Live(p, x, now)
    ensures CountLive(p, h, now) == 0
  {
    if h == [] {
    } else {
      NoneLive(p, h[..|h| - 1], now);
    }
  }

  lemma {:induction false} CountLiveBound(p: Policy, h: seq<real>, now: real)
    ensures CountLive(p, h, now) <= |h|
  {
    if h == [] {
    } else {
      CountLiveBound(p, h[..|h| - 1], now);
    }
  }

  lemma {:induction false} FullSuffix(p: Policy, h: seq<real>, start: real, i: nat)
    requires i <= |h| && forall j :: i <= j < |h| ==> InWindow(p, start, h[j])
    ensures CountInWindow(p, h, start) >= |h| - i
  {
    if i == |h| {
    } else {
      FullSuffix(p, h[..|h| - 1], start, i);
    }
  }

  /**
   * Greedy stays ahead: the limiter's k-th admission is never later than the k-th element
   * of any selection that respects the quota.
   */
  lemma {:induction false} StaysAhead(p: Policy, trace: seq<real>, pick: seq<bool>)
    requires p.maxRequests >= 1 && Sorted(trace) && |pick| == |trace|
    requires WithinQuota(p, Picked(trace, pick))
    ensures |Picked(trace, pick)| <= |Admitted(p, trace)|
    ensures forall k :: 0 <= k < |Picked(trace, pick)| ==> Admitted(p, trace)[k] <= Picked(trace, pick)[k]
  {
    if trace == [] {
    } else {
      var front, t := trace[..|trace| - 1], trace[|trace| - 1];
      var s := Picked(front, pick[..|pick| - 1]);
      var g := Admitted(p, front);
      if pick[|pick| - 1] {
        assert (s + [t])[..|s|] == s;
        assert forall start: real :: CountInWindow(p, s, start) <= CountInWindow(p, s + [t], start);
      }
      StaysAhead(p, front, pick[..|pick| - 1]);
      AdmittedSorted(p, front, t);
      PickedSorted(front, pick[..|pick| - 1], t);
      if pick[|pick| - 1] && |g| == |s| {
        AdmitsNext(p, g, s, t);
      }
    }
  }

  lemma {:induction false} AdmitsNext(p: Policy, g: seq<real>, s: seq<real>, t: real)
    requires p.maxRequests >= 1 && Sorted(g) && Sorted(s) && |g| == |s|
    requires forall k :: 0 <= k < |s| ==> g[k] <= s[k] <= t
    requires WithinQuota(p, s + [t])
    ensures Admits(p, g, t)
  {
    CountLiveBound(p, g, t);
    if |s| >= p.maxRequests {
      var start := t - p.window as real;
      var i := |s| - p.maxRequests;
      if Live(p, s[i], t) {
        FullSuffix(p, s + [t], start, i);
      }
      ExpiredPrefix(p, g, t, i);
    }
  }

  /** A limiter that admits whenever it can admits as many requests as any policy could. */
  lemma Optimal(p: Policy, trace: seq<real>, pick: seq<bool>)
    requires p.maxRequests >= 1 && Sorted(trace) && |pick| == |trace|
    requires WithinQuota(p, Picked(trace, pick))
    ensures |Picked(trace, pick)| <= |Admitted(p, trace)|
  {
    StaysAhead(p, trace, pick);
  }

  lemma {:induction false} ExclusiveCountsFewer(p: Policy, h: seq<real>, start: real)
    ensures CountInWindow(p.(boundary := Exclusive), h, start) <= CountInWindow(p.(boundary := Inclusive), h, start)
  {
    if h == [] {
    } else {
      ExclusiveCountsFewer(p, h[..|h| - 1], start);
    }
  }

  /** What the inclusive boundary admits respects the quota of either. */
  lemma WithinEitherBoundary(p: Policy, trace: seq<real>)
    ensures WithinQuota(p.(boundary := Exclusive), Admitted(p.(boundary := Inclusive), trace))
  {
    var inc, exc := p.(boundary := Inclusive), p.(boundary := Exclusive);
    AdmittedWithinQuota(inc, trace);
    forall start: real
      ensures CountInWindow(exc, Admitted(inc, trace), start) <= p.maxRequests
    {
      ExclusiveCountsFewer(p, Admitted(inc, trace), start);
      assert CountInWindow(inc, Admitted(inc, trace), start) <= inc.maxRequests;
    }
  }

  /** Dropping admissions that are exactly one window old never costs an admission overall. */
  lemma ExclusiveDominates(p: Policy, trace: seq<real>)
    requires p.maxRequests >= 1 && Sorted(trace)
    ensures |Admitted(p.(boundary := Inclusive), trace)| <= |Admitted(p.(boundary := Exclusive), trace)|
  {
    var inc, exc := p.(boundary := Inclusive), p.(boundary := Exclusive);
    AdmittedIsPicked(inc, trace);
    WithinEitherBoundary(p, trace);
    Optimal(exc, trace, Answers(inc, trace));
  }
}
