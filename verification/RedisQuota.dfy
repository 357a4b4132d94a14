/**
 * How long a window the Redis limiter keeps its quota over, exactly, for every quota and every
 * spread of the gateways' clocks.
 */
module RedisQuota {
  import opened Prelude
  import opened SlidingWindow
  import opened RedisLimiter

  /** Recorded admissions scored in the half-open window of that length after `low`. */
  ghost function Load(p: Policy, calls: seq<Call>, low: real, length: real): nat {
    |Span(Recorded(p, calls), low, low + length)|
  }

  /** No clock reading is negative. */
  predicate SinceEpoch(calls: seq<Call>) {
    forall i :: 0 <= i < |calls| ==> calls[i].now >= 0.0 && calls[i].server >= 0.0
  }

  /** In every interleaving no half-open score window of that length holds more than the quota. */
  ghost predicate QuotaOver(p: Policy, behind: real, ahead: real, length: real) {
    forall calls, low :: Fleet(calls, behind, ahead) && SinceEpoch(calls) ==>
      Load(p, calls, low, length) <= p.maxRequests
  }

  // ---- a quota of 1 ----

  /** The store holds the last admission and nothing else. */
  ghost predicate HoldsLast(p: Policy, s: Store, log: seq<Call>) {
    if log == [] then s.zset == map[]
    else
      var last := log[|log| - 1];
      s.zset == map[last.member := last.now] && s.expiresAt == Some(last.server + (p.window + 1) as real)
  }

  ghost predicate Spaced(log: seq<Call>, gap: real) {
    forall i :: 0 < i < |log| ==> log[i].now >= log[i - 1].now + gap
  }

  predicate NotAhead(log: seq<Call>, ahead: real) {
    forall i :: 0 <= i < |log| ==> log[i].now <= log[i].server + ahead
  }

  lemma SpacedStep(p: Policy, s: Store, log: seq<Call>, c: Call, behind: real, ahead: real, gap: real)
    requires p.maxRequests == 1 && HoldsLast(p, s, log) && Spaced(log, gap)
    requires NotAhead(log, ahead)
    requires c.server - behind <= c.now
    requires gap <= p.window as real && gap <= (p.window + 1) as real - behind - ahead
    ensures
      var (s', ok) := Script(p, s, c);
      var log' := if ok then log + [c] else log;
      HoldsLast(p, s', log') && Spaced(log', gap)
  {
  }

  lemma {:induction false} OneAtATime(p: Policy, calls: seq<Call>, behind: real, ahead: real, gap: real)
    requires p.maxRequests == 1 && Fleet(calls, behind, ahead)
    requires gap <= p.window as real && gap <= (p.window + 1) as real - behind - ahead
    ensures HoldsLast(p, StoreAfter(p, calls), Recorded(p, calls)) && Spaced(Recorded(p, calls), gap)
    ensures NotAhead(Recorded(p, calls), ahead)
  {
    if calls == [] {
    } else {
      var front, c := calls[..|calls| - 1], calls[|calls| - 1];
      OneAtATime(p, front, behind, ahead, gap);
      SpacedStep(p, StoreAfter(p, front), Recorded(p, front), c, behind, ahead, gap);
    }
  }

  lemma {:induction false} SpacedApart(log: seq<Call>, gap: real, i: nat, j: nat)
    requires Spaced(log, gap) && gap > 0.0 && i < j < |log|
    ensures log[j].now >= log[i].now + gap
    decreases j
  {
    if j == i + 1 {
    } else {
      SpacedApart(log, gap, i, j - 1);
    }
  }

  lemma SpacedSpan(log: seq<Call>, gap: real, low: real)
    requires Spaced(log, gap) && gap > 0.0
    ensures |Span(log, low, low + gap)| <= 1
  {
    var span := Span(log, low, low + gap);
    if span != {} {
      var i :| 0 <= i < |log| && low < log[i].now <= low + gap;
      forall j | 0 <= j < |log| && low < log[j].now <= low + gap
        ensures j == i
      {
        if i < j {
          SpacedApart(log, gap, i, j);
        } else if j < i {
          SpacedApart(log, gap, j, i);
        }
      }
      assert span <= {log[i].member};
      SubsetSize(span, {log[i].member});
    }
  }

  lemma SpanOfPart(log: seq<Call>, low: real, length: real, longer: real)
    requires length <= longer
    ensures |Span(log, low, low + length)| <= |Span(log, low, low + longer)|
  {
    SubsetSize(Span(log, low, low + length), Span(log, low, low + longer));
  }

  lemma {:induction false} NothingAdmitted(p: Policy, calls: seq<Call>)
    requires p.maxRequests == 0
    ensures Recorded(p, calls) == []
  {
    if calls == [] {
    } else {
      NothingAdmitted(p, calls[..|calls| - 1]);
    }
  }

  /** The windows over which the quota is kept, for clocks spread over behind + ahead seconds. */
  predicate KeepsQuota(p: Policy, spread: real, length: real) {
    || p.maxRequests == 0
    || length <= 0.0
    || length <= p.window as real - spread
    || (p.maxRequests == 1 && length <= p.window as real && length <= (p.window + 1) as real - spread)
  }

  lemma QuotaKept(p: Policy, calls: seq<Call>, behind: real, ahead: real, length: real, low: real)
    requires Fleet(calls, behind, ahead) && behind + ahead >= 0.0 && KeepsQuota(p, behind + ahead, length)
    ensures Load(p, calls, low, length) <= p.maxRequests
  {
    hide Fleet, Recorded;
    var log := Recorded(p, calls);
    if p.maxRequests == 0 {
      NothingAdmitted(p, calls);
    } else if length <= 0.0 {
      assert Span(log, low, low + length) == {};
    } else if length <= p.window as real - behind - ahead {
      FleetQuota(p, calls, behind, ahead, low);
      SpanOfPart(log, low, length, p.window as real - behind - ahead);
      assert low + (p.window as real - behind - ahead) == low + p.window as real - behind - ahead;
    } else {
      OneAtATime(p, calls, behind, ahead, length);
      SpacedSpan(log, length, low);
    }
  }

  // ---- runs that exceed it ----

  function Name(i: nat): string {
    seq(i, _ => 'm')
  }

  /** Calls with names of their own. */
  ghost predicate Named(calls: seq<Call>) {
    forall i :: 0 <= i < |calls| ==> calls[i].member == Name(i)
  }

  lemma NamesDiffer(calls: seq<Call>)
    requires Named(calls)
    ensures forall i, j :: 0 <= i < j < |calls| ==> calls[i].member != calls[j].member
  {
    forall i, j | 0 <= i < j < |calls|
      ensures calls[i].member != calls[j].member
    {
      assert |Name(i)| != |Name(j)|;
    }
  }

  lemma NewInSpan(front: seq<Call>, c: Call, low: real, high: real)
    requires Named(front) && c.member == Name(|front|)
    ensures |Span(front + [c], low, high)| == |Span(front, low, high)| + if low < c.now <= high then 1 else 0
  {
    SpanOfAppend(front, c, low, high);
    forall i | 0 <= i < |front|
      ensures front[i].member != c.member
    {
      assert |Name(i)| != |Name(|front|)|;
    }
  }

  /** The score window holds everything but the call `fast`. */
  lemma {:induction false} SpanOfAllBut(calls: seq<Call>, fast: nat, low: real, high: real)
    requires Named(calls)
    requires forall i :: 0 <= i < |calls| && i != fast ==> low < calls[i].now <= high
    ensures |Span(calls, low, high)| >= |calls| - if fast < |calls| then 1 else 0
  {
    if calls == [] {
    } else {
      var front, c := calls[..|calls| - 1], calls[|calls| - 1];
      SpanOfAllBut(front, fast, low, high);
      NewInSpan(front, c, low, high);
      assert front + [c] == calls;
    }
  }

  /** A call that finds less than the quota is recorded; the set grows by at most one. */
  lemma Admitting(p: Policy, s: Store, c: Call)
    ensures |Script(p, s, c).0.zset| <= |s.zset| + 1
    ensures |Purged(p, s, c)| <= |s.zset|
    ensures |s.zset| < p.maxRequests ==> Script(p, s, c).1
  {
    var zset := Purged(p, s, c);
    assert zset.Keys <= s.zset.Keys;
    SubsetSize(zset.Keys, s.zset.Keys);
    assert |zset| == |zset.Keys| && |s.zset| == |s.zset.Keys|;
    var added := zset[c.member := c.now];
    assert added.Keys == zset.Keys + {c.member};
    assert |added| == |added.Keys|;
  }

  lemma {:induction false} ScoresAt(p: Policy, calls: seq<Call>, base: real)
    requires forall i :: 0 <= i < |calls| ==> calls[i].now == base
    ensures forall m :: m in StoreAfter(p, calls).zset ==> StoreAfter(p, calls).zset[m] == base
  {
    if calls == [] {
    } else {
      ScoresAt(p, calls[..|calls| - 1], base);
    }
  }

  /** Up to the quota every call is recorded. */
  lemma {:induction false} FirstOnes(p: Policy, calls: seq<Call>)
    requires |calls| <= p.maxRequests
    ensures Recorded(p, calls) == calls && |StoreAfter(p, calls).zset| <= |calls|
  {
    if calls == [] {
    } else {
      var front := calls[..|calls| - 1];
      FirstOnes(p, front);
      Admitting(p, StoreAfter(p, front), calls[|calls| - 1]);
    }
  }

  /** Early enough for the server's clock of a call at `base` from the fastest gateway. */
  function Base(ahead: real): real {
    if ahead < 0.0 then 0.0 else ahead
  }

  /** A quota's worth of calls at once; one a window later; all but one of a quota's worth `late` after the first. */
  function Burst(p: Policy, late: real, ahead: real): seq<Call> {
    var q, w, base := p.maxRequests, p.window as real, Base(ahead);
    seq(2 * q, i requires 0 <= i < 2 * q =>
      if i < q then Call(base, base - ahead, Name(i))
      else if i == q then Call(base + w, base + w - ahead, Name(i))
      else Call(base + late, base + w - ahead, Name(i)))
  }

  lemma BurstFleet(p: Policy, late: real, behind: real, ahead: real)
    requires behind + ahead >= 0.0 && late >= 0.0 && p.window as real - behind - ahead <= late <= p.window as real
    ensures Fleet(Burst(p, late, ahead), behind, ahead) && Named(Burst(p, late, ahead))
    ensures SinceEpoch(Burst(p, late, ahead))
  {
    hide Name;
    NamesDiffer(Burst(p, late, ahead));
  }

  lemma RecordsNext(p: Policy, calls: seq<Call>, c: Call)
    requires Recorded(p, calls) == calls && Script(p, StoreAfter(p, calls), c).1
    ensures Recorded(p, calls + [c]) == calls + [c]
    ensures StoreAfter(p, calls + [c]) == Script(p, StoreAfter(p, calls), c).0
  {
    hide Script;
    var next := calls + [c];
    assert next[..|next| - 1] == calls;
  }

  /** The call from the fast gateway purges the whole first quota. */
  lemma FastOne(p: Policy, calls: seq<Call>, c: Call, base: real)
    requires p.maxRequests > 0 && c.now == base + p.window as real && base >= 0.0
    requires forall i :: 0 <= i < |calls| ==> calls[i].now == base
    ensures Script(p, StoreAfter(p, calls), c).1 && |Script(p, StoreAfter(p, calls), c).0.zset| == 1
  {
    ScoresAt(p, calls, base);
    assert Purged(p, StoreAfter(p, calls), c) == map[];
  }

  /** That leaves room for all but one of another quota's worth. */
  lemma {:induction false} BurstRecorded(p: Policy, late: real, ahead: real, n: nat)
    requires p.maxRequests > 0 && p.maxRequests <= n <= 2 * p.maxRequests
    ensures
      var calls := Burst(p, late, ahead)[..n];
      Recorded(p, calls) == calls && (n > p.maxRequests ==> |StoreAfter(p, calls).zset| <= n - p.maxRequests)
    decreases n
  {
    hide Recorded, StoreAfter, Script, Burst;
    var all, q := Burst(p, late, ahead), p.maxRequests;
    assert |all| == 2 * q by { BurstAt(p, late, ahead); }
    if n == q {
      FirstOnes(p, all[..n]);
    } else {
      var front, c := all[..n - 1], all[n - 1];
      assert front + [c] == all[..n];
      BurstRecorded(p, late, ahead, n - 1);
      if n == q + 1 {
        BurstAt(p, late, ahead);
        FastOne(p, front, c, Base(ahead));
      } else {
        Admitting(p, StoreAfter(p, front), c);
      }
      RecordsNext(p, front, c);
    }
  }

  lemma BurstAt(p: Policy, late: real, ahead: real)
    ensures
      var all, q := Burst(p, late, ahead), p.maxRequests;
      && |all| == 2 * q && Named(all)
      && (forall i :: 0 <= i < q ==> all[i].now == Base(ahead))
      && (q > 0 ==> all[q].now == Base(ahead) + p.window as real)
      && (forall i :: q < i < 2 * q ==> all[i].now == Base(ahead) + late)
  {
  }

  lemma BurstLoad(p: Policy, late: real, ahead: real, length: real)
    requires p.maxRequests > 0 && 0.0 <= late < length
    ensures Load(p, Burst(p, late, ahead), Base(ahead) + late - length, length) >= 2 * p.maxRequests - 1
  {
    hide Recorded, Burst, Named, Span;
    var calls, q, high := Burst(p, late, ahead), p.maxRequests, Base(ahead) + late;
    BurstAt(p, late, ahead);
    BurstRecorded(p, late, ahead, 2 * q);
    assert calls[..2 * q] == calls;
    assert high - length + length == high;
    SpanOfAllBut(calls, q, high - length, high);
  }

  lemma BurstExceeds(p: Policy, behind: real, ahead: real, length: real)
    requires p.maxRequests >= 2 && behind + ahead >= 0.0 && length > 0.0
    requires length > p.window as real - behind - ahead
    ensures exists calls, low ::
      Fleet(calls, behind, ahead) && SinceEpoch(calls) && Load(p, calls, low, length) >= 2 * p.maxRequests - 1
    ensures !QuotaOver(p, behind, ahead, length)
  {
    hide Load, Fleet, Burst, SinceEpoch;
    var w := p.window as real;
    var late := if w - behind - ahead < 0.0 then 0.0 else w - behind - ahead;
    BurstFleet(p, late, behind, ahead);
    BurstLoad(p, late, ahead, length);
  }

  /** Two calls that are both recorded although the quota is 1. */
  lemma PairExceeds(p: Policy, first: Call, second: Call, behind: real, ahead: real, length: real)
    requires p.maxRequests == 1 && Fleet([first, second], behind, ahead) && SinceEpoch([first, second])
    requires first.now <= second.now < first.now + length
    requires second.server >= first.server + (p.window + 1) as real
             || 0.0 <= first.now <= second.now - p.window as real
    ensures !QuotaOver(p, behind, ahead, length)
  {
    hide Fleet, QuotaOver;
    var s := Store(map[first.member := first.now], Some(first.server + (p.window + 1) as real));
    NoCalls(p);
    assert Script(p, EMPTY, first) == (s, true);
    RecordsNext(p, [], first);
    assert [] + [first] == [first] && [first] + [second] == [first, second];
    assert Purged(p, s, second) == map[];
    assert Script(p, s, second).1;
    RecordsNext(p, [first], second);
    PairLoad(p, first, second, behind, ahead, length);
  }

  lemma NoCalls(p: Policy)
    ensures Recorded(p, []) == [] && StoreAfter(p, []) == EMPTY
  {
  }

  lemma PairLoad(p: Policy, first: Call, second: Call, behind: real, ahead: real, length: real)
    requires p.maxRequests == 1 && Fleet([first, second], behind, ahead) && SinceEpoch([first, second])
    requires first.now <= second.now < first.now + length
    requires Recorded(p, [first, second]) == [first, second]
    ensures !QuotaOver(p, behind, ahead, length)
  {
    hide Recorded;
    var calls, low := [first, second], second.now - length;
    var span := Span(calls, low, low + length);
    assert calls[0].member in span && calls[1].member in span;
    assert calls[0].member != calls[1].member;
    SubsetSize({first.member, second.member}, span);
    assert Load(p, calls, low, length) > p.maxRequests;
  }

  lemma OneExceeds(p: Policy, behind: real, ahead: real, length: real)
    requires p.maxRequests == 1 && behind + ahead >= 0.0 && length > 0.0
    requires length > p.window as real || length > (p.window + 1) as real - behind - ahead
    ensures !QuotaOver(p, behind, ahead, length)
  {
    var w, base := p.window as real, Base(ahead);
    var first := Call(base, base - ahead, "a");
    if length > w {
      PairExceeds(p, first, Call(base + w, base + w - ahead, "b"), behind, ahead, length);
    } else {
      var late := if w + 1.0 - behind - ahead < 0.0 then 0.0 else w + 1.0 - behind - ahead;
      PairExceeds(p, first, Call(base + late, base + w + 1.0 - ahead, "b"), behind, ahead, length);
    }
  }

  /**
   * A quota of 2 or more is kept over windows shorter than the configured one by the spread of the
   * clocks, and over no longer ones. A quota of 1 is kept over the configured window unless the key
   * can expire too early, that is, unless the spread is more than a second.
   */
  lemma QuotaKeptExactly(p: Policy, behind: real, ahead: real, length: real)
    requires behind + ahead >= 0.0
    ensures QuotaOver(p, behind, ahead, length) <==> KeepsQuota(p, behind + ahead, length)
  {
    hide Fleet, Load;
    if KeepsQuota(p, behind + ahead, length) {
      forall calls, low | Fleet(calls, behind, ahead) && SinceEpoch(calls)
        ensures Load(p, calls, low, length) <= p.maxRequests
      {
        QuotaKept(p, calls, behind, ahead, length, low);
      }
    } else if p.maxRequests == 1 {
      OneExceeds(p, behind, ahead, length);
    } else {
      BurstExceeds(p, behind, ahead, length);
    }
  }
}
