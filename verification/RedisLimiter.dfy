/**
 * The gateway's Redis limiter: a sorted set of admissions per client key, changed only by an
 * atomic script. Gateways stamp a request with their own clock; key expiry runs on the server's.
 */
module RedisLimiter {
  import opened Prelude
  import opened SlidingWindow

  /** One key of the server: member to score, and the moment the whole key expires. */
  datatype Store = Store(zset: map<string, real>, expiresAt: Option<real>)

  const EMPTY := Store(map[], None)

  /** A script run: the gateway's clock reading, the server's clock when it runs, the unique member. */
  datatype Call = Call(now: real, server: real, member: string)

  function Expire(s: Store, server: real): Store {
    if s.expiresAt.Some? && server >= s.expiresAt.value then EMPTY else s
  }

  function RemoveRangeByScore(zset: map<string, real>, low: real, high: real): map<string, real> {
    map m | m in zset && !(low <= zset[m] <= high) :: zset[m]
  }

  function Purged(p: Policy, s: Store, c: Call): map<string, real> {
    RemoveRangeByScore(Expire(s, c.server).zset, 0.0, c.now - p.window as real)
  }

  /** The effect of one script run and its answer. */
  function Script(p: Policy, s: Store, c: Call): (Store, bool) {
    var zset := Purged(p, s, c);
    if |zset| >= p.maxRequests then
      (Store(zset, Expire(s, c.server).expiresAt), false)
    else
      (Store(zset[c.member := c.now], Some(c.server + (p.window + 1) as real)), true)
  }

  function StoreAfter(p: Policy, calls: seq<Call>): Store {
    if calls == [] then EMPTY
    else Script(p, StoreAfter(p, calls[..|calls| - 1]), calls[|calls| - 1]).0
  }

  /** Every admission ever recorded, in the order of the script runs. */
  function Recorded(p: Policy, calls: seq<Call>): seq<Call> {
    if calls == [] then []
    else
      var front, c := calls[..|calls| - 1], calls[|calls| - 1];
      if Script(p, StoreAfter(p, front), c).1 then Recorded(p, front) + [c] else Recorded(p, front)
  }

  function Members(calls: seq<Call>): set<string> {
    set i | 0 <= i < |calls| :: calls[i].member
  }

  /** What the gateways promise: fresh members, and clocks at most `behind` and `ahead` of the server's. */
  ghost predicate Fleet(calls: seq<Call>, behind: real, ahead: real) {
    && (forall i, j :: 0 <= i < j < |calls| ==> calls[i].member != calls[j].member)
    && (forall i, j :: 0 <= i < j < |calls| ==> calls[i].server <= calls[j].server)
    && (forall i :: 0 <= i < |calls| ==> calls[i].server - behind <= calls[i].now <= calls[i].server + ahead)
  }

  /** Recorded admissions scored in (low, high], one member each. */
  ghost function Span(log: seq<Call>, low: real, high: real): set<string> {
    set i | 0 <= i < |log| && low < log[i].now <= high :: log[i].member
  }

  /** An admission missing from the store is at least a window older than any request still to come. */
  ghost predicate Kept(p: Policy, s: Store, log: seq<Call>, server: real, ahead: real) {
    && (forall i :: 0 <= i < |log| ==>
          || (log[i].member in s.zset && s.zset[log[i].member] == log[i].now)
          || log[i].now <= server + ahead - p.window as real)
  }

  lemma {:induction false} RecordedMembers(p: Policy, calls: seq<Call>)
    ensures Members(Recorded(p, calls)) <= Members(calls)
    ensures StoreAfter(p, calls).zset.Keys <= Members(Recorded(p, calls))
  {
    if calls == [] {
    } else {
      var front, c := calls[..|calls| - 1], calls[|calls| - 1];
      RecordedMembers(p, front);
      MembersOfAppend(front, c);
      assert front + [c] == calls;
      MembersOfAppend(Recorded(p, front), c);
    }
  }

  lemma MembersOfAppend(calls: seq<Call>, c: Call)
    ensures Members(calls + [c]) == Members(calls) + {c.member}
  {
    assert (calls + [c])[|calls|] == c;
    assert forall i :: 0 <= i < |calls| ==> (calls + [c])[i] == calls[i];
  }

  /** The store never holds a score that key expiry, running a second late, could still need. */
  ghost predicate ExpiresLate(p: Policy, s: Store, server: real, ahead: real) {
    && (s.expiresAt.Some? ==> s.expiresAt.value <= server + (p.window + 1) as real)
    && (forall m :: m in s.zset ==>
          s.expiresAt.Some? && s.zset[m] <= s.expiresAt.value + ahead - (p.window + 1) as real)
  }

  lemma ScriptExpiresLate(p: Policy, s: Store, last: real, c: Call, ahead: real)
    requires ExpiresLate(p, s, last, ahead) && last <= c.server && c.now <= c.server + ahead
    ensures ExpiresLate(p, Script(p, s, c).0, c.server, ahead)
  {
  }

  lemma ScriptKeeps(p: Policy, s: Store, log: seq<Call>, last: real, c: Call, ahead: real)
    requires Kept(p, s, log, last, ahead) && ExpiresLate(p, s, last, ahead)
    requires last <= c.server && c.now <= c.server + ahead && c.member !in Members(log)
    ensures Kept(p, Script(p, s, c).0, log, c.server, ahead)
  {
    forall i | 0 <= i < |log|
      ensures log[i].member != c.member
    {
      assert log[i].member in Members(log);
    }
  }

  lemma {:induction false} KeepsRecent(p: Policy, calls: seq<Call>, behind: real, ahead: real)
    requires calls != [] && Fleet(calls, behind, ahead)
    ensures Kept(p, StoreAfter(p, calls), Recorded(p, calls), calls[|calls| - 1].server, ahead)
    ensures ExpiresLate(p, StoreAfter(p, calls), calls[|calls| - 1].server, ahead)
  {
    var front, c := calls[..|calls| - 1], calls[|calls| - 1];
    var s, log := StoreAfter(p, front), Recorded(p, front);
    var last := if front == [] then c.server else front[|front| - 1].server;
    if front == [] {
    } else {
      KeepsRecent(p, front, behind, ahead);
    }
    RecordedMembers(p, front);
    ScriptExpiresLate(p, s, last, c, ahead);
    ScriptKeeps(p, s, log, last, c, ahead);
  }

  lemma NewcomerFits(p: Policy, s: Store, log: seq<Call>, last: real, c: Call, behind: real, ahead: real, low: real)
    requires Kept(p, s, log, last, ahead) && ExpiresLate(p, s, last, ahead) && last <= c.server
    requires c.server - behind <= c.now <= low + p.window as real - behind - ahead && behind + ahead >= 0.0
    requires Script(p, s, c).1
    ensures |Span(log, low, low + p.window as real - behind - ahead)| < p.maxRequests
  {
    var high := low + p.window as real - behind - ahead;
    assert Span(log, low, high) <= Purged(p, s, c).Keys;
    SubsetSize(Span(log, low, high), Purged(p, s, c).Keys);
  }

  lemma QuotaStep(p: Policy, s: Store, log: seq<Call>, last: real, c: Call, behind: real, ahead: real, low: real)
    requires Kept(p, s, log, last, ahead) && ExpiresLate(p, s, last, ahead) && last <= c.server
    requires c.server - behind <= c.now && behind + ahead >= 0.0
    requires |Span(log, low, low + p.window as real - behind - ahead)| <= p.maxRequests
    ensures Script(p, s, c).1 ==> |Span(log + [c], low, low + p.window as real - behind - ahead)| <= p.maxRequests
  {
    hide Script, Kept, ExpiresLate, Span;
    var high := low + p.window as real - behind - ahead;
    SpanOfAppend(log, c, low, high);
    if Script(p, s, c).1 && low < c.now <= high {
      NewcomerFits(p, s, log, last, c, behind, ahead, low);
    }
  }

  /**
   * Across gateways whose clocks, request delays included, spread over `behind` + `ahead` seconds,
   * no score window shorter than the configured one by that spread holds more than the quota,
   * however the script runs interleave and whenever the key expires.
   */
  lemma {:induction false} FleetQuota(p: Policy, calls: seq<Call>, behind: real, ahead: real, low: real)
    requires Fleet(calls, behind, ahead) && behind + ahead >= 0.0
    ensures |Span(Recorded(p, calls), low, low + p.window as real - behind - ahead)| <= p.maxRequests
  {
    if calls == [] {
    } else {
      var front, c := calls[..|calls| - 1], calls[|calls| - 1];
      FleetQuota(p, front, behind, ahead, low);
      var last := if front == [] then c.server else front[|front| - 1].server;
      if front != [] {
        KeepsRecent(p, front, behind, ahead);
      }
      QuotaStep(p, StoreAfter(p, front), Recorded(p, front), last, c, behind, ahead, low);
    }
  }

  lemma SpanOfAppend(log: seq<Call>, c: Call, low: real, high: real)
    ensures Span(log + [c], low, high) == Span(log, low, high) + (if low < c.now <= high then {c.member} else {})
    ensures |Span(log + [c], low, high)| <= |Span(log, low, high)| + (if low < c.now <= high then 1 else 0)
  {
    assert (log + [c])[|log|] == c;
    assert forall i :: 0 <= i < |log| ==> (log + [c])[i] == log[i];
  }

  lemma ExpiryStep(p: Policy, s: Store, last: real, c: Call, behind: real, ahead: real)
    requires ExpiresLate(p, s, last, ahead) && last <= c.server
    requires c.server - behind <= c.now && behind + ahead <= 1.0
    requires forall m :: m in s.zset ==> s.zset[m] >= 0.0
    ensures Purged(p, s, c) == Purged(p, s.(expiresAt := None), c)
  {
  }

  /**
   * With clocks spread over at most a second, expiry removes only what the script run that meets
   * it would have removed anyway: the answer and the set are those of a key without expiry.
   */
  lemma ExpiryIsInvisible(p: Policy, calls: seq<Call>, c: Call, behind: real, ahead: real)
    requires Fleet(calls + [c], behind, ahead) && behind + ahead <= 1.0
    requires forall i :: 0 <= i < |calls| ==> calls[i].now >= 0.0
    ensures
      var s := StoreAfter(p, calls);
      && Purged(p, s, c) == Purged(p, s.(expiresAt := None), c)
      && Script(p, s, c).1 == Script(p, s.(expiresAt := None), c).1
      && Script(p, s, c).0.zset == Script(p, s.(expiresAt := None), c).0.zset
  {
    hide Kept, Recorded, ExpiresLate, Purged;
    var s := StoreAfter(p, calls);
    assert (calls + [c])[|calls|] == c;
    assert Fleet(calls, behind, ahead) by {
      assert forall i :: 0 <= i < |calls| ==> (calls + [c])[i] == calls[i];
    }
    if calls != [] {
      var last := calls[|calls| - 1].server;
      assert (calls + [c])[|calls| - 1] == calls[|calls| - 1];
      ScoresNonNegative(p, calls);
      KeepsRecent(p, calls, behind, ahead);
      ExpiryStep(p, s, last, c, behind, ahead);
    }
  }

  lemma {:induction false} ScoresNonNegative(p: Policy, calls: seq<Call>)
    requires forall i :: 0 <= i < |calls| ==> calls[i].now >= 0.0
    ensures forall m :: m in StoreAfter(p, calls).zset ==> StoreAfter(p, calls).zset[m] >= 0.0
  {
    if calls == [] {
    } else {
      ScoresNonNegative(p, calls[..|calls| - 1]);
    }
  }

  function Nows(calls: seq<Call>): seq<real> {
    seq(|calls|, i requires 0 <= i < |calls| => calls[i].now)
  }

  /** The members whose admission still counts at `now`. */
  ghost function LiveMembers(p: Policy, log: seq<Call>, now: real): set<string> {
    set i | 0 <= i < |log| && Live(p, log[i].now, now) :: log[i].member
  }

  ghost predicate FreshMembers(log: seq<Call>) {
    forall i, j :: 0 <= i < j < |log| ==> log[i].member != log[j].member
  }

  lemma LiveMembersOfAppend(p: Policy, log: seq<Call>, c: Call, now: real)
    ensures LiveMembers(p, log + [c], now)
         == LiveMembers(p, log, now) + (if Live(p, c.now, now) then {c.member} else {})
  {
    assert (log + [c])[|log|] == c;
    assert forall i :: 0 <= i < |log| ==> (log + [c])[i] == log[i];
  }

  lemma {:induction false} LiveMembersCount(p: Policy, log: seq<Call>, now: real)
    requires FreshMembers(log)
    ensures |LiveMembers(p, log, now)| == CountLive(p, Nows(log), now)
  {
    if log == [] {
    } else {
      var front, c := log[..|log| - 1], log[|log| - 1];
      LiveMembersCount(p, front, now);
      assert Nows(log)[..|log| - 1] == Nows(front);
      LiveMembersOfAppend(p, front, c, now);
      assert front + [c] == log;
      assert c.member !in LiveMembers(p, front, now);
    }
  }

  /** The set holds, with their scores, the recorded admissions that count at `now`, and only recorded ones. */
  ghost predicate Mirrors(p: Policy, zset: map<string, real>, log: seq<Call>, now: real) {
    && FreshMembers(log)
    && zset.Keys <= Members(log)
    && (forall i :: 0 <= i < |log| && log[i].member in zset ==> zset[log[i].member] == log[i].now)
    && (forall i :: 0 <= i < |log| && Live(p, log[i].now, now) ==> log[i].member in zset)
  }

  lemma MirrorPurge(p: Policy, zset: map<string, real>, log: seq<Call>, last: real, now: real)
    requires p.boundary == Exclusive && Mirrors(p, zset, log, last) && last <= now
    requires forall m :: m in zset ==> zset[m] >= 0.0
    ensures
      var kept := RemoveRangeByScore(zset, 0.0, now - p.window as real);
      kept.Keys == LiveMembers(p, log, now) && Mirrors(p, kept, log, now)
  {
  }

  lemma MirrorAdd(p: Policy, zset: map<string, real>, log: seq<Call>, c: Call)
    requires Mirrors(p, zset, log, c.now) && c.member !in Members(log)
    ensures Mirrors(p, zset[c.member := c.now], log + [c], c.now)
  {
    MembersOfAppend(log, c);
    forall i | 0 <= i < |log|
      ensures log[i].member != c.member
    {
      assert log[i].member in Members(log);
    }
  }

  /** One script run on a mirrored set without expiry answers as the full history would. */
  lemma MirrorStep(p: Policy, zset: map<string, real>, log: seq<Call>, last: real, c: Call)
    requires p.boundary == Exclusive && Mirrors(p, zset, log, last) && last <= c.now
    requires c.member !in Members(log) && forall m :: m in zset ==> zset[m] >= 0.0
    ensures
      var (s', ok) := Script(p, Store(zset, None), c);
      && ok == Admits(p, Nows(log), c.now)
      && Mirrors(p, s'.zset, if ok then log + [c] else log, c.now)
  {
    hide Mirrors, Members, LiveMembers, CountLive, RemoveRangeByScore;
    var kept := RemoveRangeByScore(zset, 0.0, c.now - p.window as real);
    MirrorPurge(p, zset, log, last, c.now);
    assert |kept| == |kept.Keys|;
    assert FreshMembers(log) by { MirroredIsFresh(p, zset, log, last); }
    LiveMembersCount(p, log, c.now);
    MirrorAdd(p, kept, log, c);
  }

  lemma MirroredIsFresh(p: Policy, zset: map<string, real>, log: seq<Call>, now: real)
    requires Mirrors(p, zset, log, now)
    ensures FreshMembers(log)
  {
  }

  lemma GreedyStep(p: Policy, trace: seq<real>, zset: map<string, real>, log: seq<Call>, last: real, c: Call)
    requires p.boundary == Exclusive && Mirrors(p, zset, log, last) && last <= c.now
    requires c.member !in Members(log) && forall m :: m in zset ==> zset[m] >= 0.0
    requires Nows(log) == Admitted(p, trace)
    ensures
      var ok := Script(p, Store(zset, None), c).1;
      Nows(if ok then log + [c] else log) == Admitted(p, trace + [c.now])
  {
    MirrorStep(p, zset, log, last, c);
    assert (trace + [c.now])[..|trace|] == trace;
    assert Nows(log + [c]) == Nows(log) + [c.now];
  }

  /**
   * With one clock that does not run backwards (spread at most a second) the script admits exactly
   * what the full history calls for, although it has discarded the older entries.
   */
  lemma {:induction false} ScriptIsGreedy(p: Policy, calls: seq<Call>, behind: real, ahead: real)
    requires p.boundary == Exclusive && Fleet(calls, behind, ahead) && behind + ahead <= 1.0
    requires Sorted(Nows(calls)) && forall i :: 0 <= i < |calls| ==> calls[i].now >= 0.0
    ensures Nows(Recorded(p, calls)) == Admitted(p, Nows(calls))
    ensures calls != [] ==>
      Mirrors(p, StoreAfter(p, calls).zset, Recorded(p, calls), calls[|calls| - 1].now)
  {
    hide Fleet, Mirrors, Admitted, Purged, Script, Members, Sorted, Nows;
    if calls != [] {
      var front, c := calls[..|calls| - 1], calls[|calls| - 1];
      var s, log := StoreAfter(p, front), Recorded(p, front);
      var last := if front == [] then c.now else front[|front| - 1].now;
      LastCall(calls, behind, ahead);
      ScriptIsGreedy(p, front, behind, ahead);
      ExpiryIsInvisible(p, front, c, behind, ahead);
      ScoresNonNegative(p, front);
      RecordedMembers(p, front);
      if front == [] {
        NothingMirrored(p, c.now);
      }
      assert s.(expiresAt := None) == Store(s.zset, None);
      GreedyStep(p, Nows(front), s.zset, log, last, c);
      MirrorStep(p, s.zset, log, last, c);
    } else {
      NothingMirrored(p, 0.0);
    }
  }

  lemma NothingMirrored(p: Policy, now: real)
    ensures Mirrors(p, map[], [], now) && Nows([]) == [] && Admitted(p, []) == []
  {
  }

  lemma LastCall(calls: seq<Call>, behind: real, ahead: real)
    requires calls != [] && Fleet(calls, behind, ahead) && Sorted(Nows(calls))
    ensures
      var front, c := calls[..|calls| - 1], calls[|calls| - 1];
      && front + [c] == calls
      && Fleet(front, behind, ahead) && Sorted(Nows(front))
      && Nows(calls) == Nows(front) + [c.now]
      && (front != [] ==> front[|front| - 1].now <= c.now)
      && c.member !in Members(front)
  {
    var front := calls[..|calls| - 1];
    assert front != [] ==> Nows(calls)[|front| - 1] <= Nows(calls)[|front|];
    assert Nows(calls)[..|front|] == Nows(front);
  }

  // ---- gateways on one clock, a server on any ----

  /** Every entry of the store is a recorded call. */
  ghost predicate FromLog(zset: map<string, real>, log: seq<Call>) {
    forall m :: m in zset ==> exists i :: 0 <= i < |log| && log[i].member == m && log[i].now == zset[m]
  }

  lemma ScriptFromLog(p: Policy, s: Store, log: seq<Call>, c: Call)
    requires FromLog(s.zset, log)
    ensures FromLog(Purged(p, s, c), log)
    ensures FromLog(Script(p, s, c).0.zset, if Script(p, s, c).1 then log + [c] else log)
  {
    var kept, next := Purged(p, s, c), log + [c];
    forall m | m in kept
      ensures exists i :: 0 <= i < |log| && log[i].member == m && log[i].now == kept[m]
    {
      var i :| 0 <= i < |log| && log[i].member == m && log[i].now == s.zset[m];
    }
    var added := kept[c.member := c.now];
    forall m | m in added
      ensures exists i :: 0 <= i < |next| && next[i].member == m && next[i].now == added[m]
    {
      if m == c.member {
        assert next[|log|].member == m;
      } else {
        var i :| 0 <= i < |log| && log[i].member == m && log[i].now == kept[m];
        assert next[i].member == m;
      }
    }
  }

  lemma {:induction false} StoreFromLog(p: Policy, calls: seq<Call>)
    ensures FromLog(StoreAfter(p, calls).zset, Recorded(p, calls))
  {
    hide FromLog, Script;
    if calls == [] {
      assert FromLog(map[], []) by { NothingFromLog(); }
    } else {
      var front := calls[..|calls| - 1];
      StoreFromLog(p, front);
      ScriptFromLog(p, StoreAfter(p, front), Recorded(p, front), calls[|calls| - 1]);
    }
  }

  lemma NothingFromLog()
    ensures FromLog(map[], [])
  {
  }

  lemma {:induction false} LiveMembersAtMost(p: Policy, log: seq<Call>, now: real)
    ensures |LiveMembers(p, log, now)| <= CountLive(p, Nows(log), now)
  {
    if log == [] {
    } else {
      var front, c := log[..|log| - 1], log[|log| - 1];
      LiveMembersAtMost(p, front, now);
      LiveMembersOfAppend(p, front, c, now);
      assert front + [c] == log;
      assert Nows(log)[..|log| - 1] == Nows(front);
    }
  }

  /** A refusal is right by the full history, whether or not the key expired in between. */
  lemma RefusedIsFull(p: Policy, calls: seq<Call>, c: Call)
    requires p.boundary == Exclusive && !Script(p, StoreAfter(p, calls), c).1
    requires forall i :: 0 <= i < |calls| ==> calls[i].now >= 0.0
    ensures !Admits(p, Nows(Recorded(p, calls)), c.now)
  {
    hide CountLive, StoreAfter, Recorded, Nows;
    var s, log := StoreAfter(p, calls), Recorded(p, calls);
    var kept, live := Purged(p, s, c), LiveMembers(p, log, c.now);
    StoreFromLog(p, calls);
    ScoresNonNegative(p, calls);
    ScriptFromLog(p, s, log, c);
    forall m | m in kept
      ensures m in live
    {
      var i :| 0 <= i < |log| && log[i].member == m && log[i].now == kept[m];
    }
    SubsetSize(kept.Keys, live);
    assert |kept| == |kept.Keys|;
    LiveMembersAtMost(p, log, c.now);
  }

  /** The recorded calls are some of the calls, in order. */
  lemma {:induction false} RecordedSorted(p: Policy, calls: seq<Call>, top: real)
    requires Sorted(Nows(calls)) && AllBy(Nows(calls), top)
    ensures Sorted(Nows(Recorded(p, calls))) && AllBy(Nows(Recorded(p, calls)), top)
  {
    hide Script, StoreAfter;
    if calls == [] {
    } else {
      var front, c := calls[..|calls| - 1], calls[|calls| - 1];
      var log := Recorded(p, front);
      FrontNows(calls);
      RecordedSorted(p, front, c.now);
      assert Nows(log + [c]) == Nows(log) + [c.now] && c.now == Nows(calls)[|front|];
    }
  }

  lemma FrontNows(calls: seq<Call>)
    requires calls != [] && Sorted(Nows(calls))
    ensures
      var front, now := calls[..|calls| - 1], calls[|calls| - 1].now;
      && Nows(calls)[..|calls| - 1] == Nows(front) && Nows(calls)[|calls| - 1] == now
      && Sorted(Nows(front)) && AllBy(Nows(front), now)
  {
  }

  /**
   * If the gateways' readings do not run back, the limiter's k-th admission is never later than the
   * k-th of any selection that respects the quota, whatever the server's clock does to the key.
   */
  lemma {:induction false} RecordedStaysAhead(p: Policy, calls: seq<Call>, pick: seq<bool>)
    requires p.boundary == Exclusive && p.maxRequests >= 1 && |pick| == |calls|
    requires Sorted(Nows(calls)) && forall i :: 0 <= i < |calls| ==> calls[i].now >= 0.0
    requires WithinQuota(p, Picked(Nows(calls), pick))
    ensures |Picked(Nows(calls), pick)| <= |Recorded(p, calls)|
    ensures forall k :: 0 <= k < |Picked(Nows(calls), pick)| ==>
      Recorded(p, calls)[k].now <= Picked(Nows(calls), pick)[k]
  {
    hide Script, StoreAfter, Sorted, Admits, WithinQuota;
    if calls == [] {
    } else {
      var front, c, last := calls[..|calls| - 1], calls[|calls| - 1], |pick| - 1;
      FrontNows(calls);
      var s := Picked(Nows(front), pick[..last]);
      assert WithinQuota(p, s) by {
        if pick[last] { FrontWithinQuota(p, s, c.now); }
      }
      RecordedStaysAhead(p, front, pick[..last]);
      var log := Recorded(p, front);
      RecordedSorted(p, front, c.now);
      assert forall k :: 0 <= k < |log| ==> log[k].now == Nows(log)[k];
      if pick[last] && |log| == |s| {
        RecordsPicked(p, front, c, s, pick[..last]);
      }
    }
  }

  lemma FrontWithinQuota(p: Policy, s: seq<real>, now: real)
    requires WithinQuota(p, s + [now])
    ensures WithinQuota(p, s)
  {
    assert (s + [now])[..|s|] == s;
    assert forall start: real :: CountInWindow(p, s, start) <= CountInWindow(p, s + [now], start);
  }

  lemma RecordsPicked(p: Policy, calls: seq<Call>, c: Call, s: seq<real>, pick: seq<bool>)
    requires p.boundary == Exclusive && p.maxRequests >= 1 && |pick| == |calls|
    requires Sorted(Nows(calls)) && AllBy(Nows(calls), c.now) && s == Picked(Nows(calls), pick)
    requires forall i :: 0 <= i < |calls| ==> calls[i].now >= 0.0
    requires |Recorded(p, calls)| == |s| && forall k :: 0 <= k < |s| ==> Recorded(p, calls)[k].now <= s[k]
    requires WithinQuota(p, s + [c.now])
    ensures Script(p, StoreAfter(p, calls), c).1
  {
    hide Script, StoreAfter, Recorded, Picked, WithinQuota, Admits, Sorted;
    RecordedSorted(p, calls, c.now);
    PickedSorted(Nows(calls), pick, c.now);
    AdmitsNext(p, Nows(Recorded(p, calls)), s, c.now);
    if !Script(p, StoreAfter(p, calls), c).1 {
      RefusedIsFull(p, calls, c);
    }
  }

  /**
   * If the gateways' readings do not run back, the Redis limiter has never admitted fewer requests
   * than the in-memory one, although their histories diverge: for every server clock, however far
   * it drifts and whenever the key expires.
   */
  lemma DominatesInMemory(p: Policy, calls: seq<Call>)
    requires p.boundary == Exclusive && p.maxRequests >= 1
    requires Sorted(Nows(calls)) && forall i :: 0 <= i < |calls| ==> calls[i].now >= 0.0
    ensures |Admitted(p.(boundary := Inclusive), Nows(calls))| <= |Recorded(p, calls)|
  {
    var inc, trace := p.(boundary := Inclusive), Nows(calls);
    AdmittedIsPicked(inc, trace);
    WithinEitherBoundary(p, trace);
    RecordedStaysAhead(p, calls, Answers(inc, trace));
  }

  /** Entries that a purge at `now` removes. */
  lemma PurgesAll(p: Policy, calls: seq<Call>, c: Call)
    requires forall i :: 0 <= i < |calls| ==> calls[i].now >= 0.0
    requires forall i :: 0 <= i < |Recorded(p, calls)| ==> Recorded(p, calls)[i].now <= c.now - p.window as real
    ensures Purged(p, StoreAfter(p, calls), c) == map[]
  {
    hide StoreAfter, Recorded;
    StoreFromLog(p, calls);
    ScoresNonNegative(p, calls);
    var zset, log := StoreAfter(p, calls).zset, Recorded(p, calls);
    forall m | m in zset
      ensures zset[m] <= c.now - p.window as real
    {
      var i :| 0 <= i < |log| && log[i].member == m && log[i].now == zset[m];
    }
  }

  /**
   * The advice given with a refusal, the whole window, is sound: if the gateways' readings up to it
   * do not run back, a request that waited so long is admitted, whatever was refused and whatever
   * the server's clock did in between, if nothing else was recorded.
   */
  lemma AdviceSound(p: Policy, calls: seq<Call>, between: seq<Call>, later: Call)
    requires p.maxRequests >= 1 && calls != [] && Sorted(Nows(calls))
    requires var all := calls + between; forall i :: 0 <= i < |all| ==> all[i].now >= 0.0
    requires Recorded(p, calls + between) == Recorded(p, calls)
    requires later.now >= calls[|calls| - 1].now + p.window as real
    ensures Script(p, StoreAfter(p, calls + between), later).1
  {
    hide StoreAfter, Recorded;
    var last, log := calls[|calls| - 1].now, Recorded(p, calls);
    assert AllBy(Nows(calls), last) by { LastIsLatest(calls); }
    RecordedSorted(p, calls, last);
    assert forall i :: 0 <= i < |log| ==> log[i].now == Nows(log)[i];
    PurgesAll(p, calls + between, later);
  }

  lemma LastIsLatest(calls: seq<Call>)
    requires calls != [] && Sorted(Nows(calls))
    ensures AllBy(Nows(calls), calls[|calls| - 1].now)
  {
    assert Nows(calls)[|calls| - 1] == calls[|calls| - 1].now;
  }

  /** How the script call ends: answered, or lost with or without having run. */
  datatype Link = Answered | Lost(applied: bool)

  class RedisRateLimiterMiddleware {
    const maxRequests: nat
    const window: nat
    var scriptLoaded: bool

    /** One key on the server. */
    var zset: map<string, real>
    var expiresAt: Option<real>

    function Limits(): Policy {
      Policy(maxRequests, window, Exclusive)
    }

    function Server(): Store
      reads this
    {
      Store(zset, expiresAt)
    }

    constructor (maxRequests: nat, window: nat)
      ensures Limits() == Policy(maxRequests, window, Exclusive) && Server() == EMPTY && !scriptLoaded
    {
      this.maxRequests := maxRequests;
      this.window := window;
      scriptLoaded := false;
      zset := map[];
      expiresAt := None;
    }

    /** The four commands of the script, run on the server after lazy expiry. */
    method EvalScript(c: Call) returns (allowed: bool, count: nat)
      modifies this`zset, this`expiresAt
      ensures (Server(), allowed) == Script(Limits(), old(Server()), c)
      ensures count == |Purged(Limits(), old(Server()), c)| + (if allowed then 1 else 0)
    {
      if expiresAt.Some? && c.server >= expiresAt.value {
        zset, expiresAt := map[], None;
      }
      assert Server() == Expire(old(Server()), c.server);
      zset := RemoveRangeByScore(zset, 0.0, c.now - window as real);
      assert zset == Purged(Limits(), old(Server()), c);
      count := |zset|;
      if count >= maxRequests {
        return false, count;
      }
      zset := zset[c.member := c.now];
      expiresAt := Some(c.server + (window + 1) as real);
      return true, count + 1;
    }

    /** The script call is made: there is a client, and the script is or can be loaded. */
    predicate Reaches(hasClient: bool, loads: bool)
      reads this`scriptLoaded
    {
      hasClient && (scriptLoaded || loads)
    }

    /** Fails open: a request is refused only by an answer from the script. */
    method Check(c: Call, hasClient: bool, loads: bool, link: Link) returns (allowed: bool, retryAfter: nat)
      modifies this
      ensures
        var ran := old(Reaches(hasClient, loads)) && link != Lost(false);
        Server() == if ran then Script(Limits(), old(Server()), c).0 else old(Server())
      ensures !allowed <==> old(Reaches(hasClient, loads)) && link == Answered && !Script(Limits(), old(Server()), c).1
      ensures retryAfter == if allowed then 0 else window
      ensures scriptLoaded == (old(scriptLoaded) || old(Reaches(hasClient, loads)))
    {
      if !hasClient {
        return true, 0;
      }
      if !scriptLoaded {
        if !loads {
          return true, 0;
        }
        scriptLoaded := true;
      }
      if link == Lost(false) {
        return true, 0;
      }
      var ok, _ := EvalScript(c);
      if link == Lost(true) || ok {
        return true, 0;
      }
      return false, window;
    }

    /** Both probe paths bypass the limiter. */
    method Dispatch(path: string, c: Call, hasClient: bool, loads: bool, link: Link)
      returns (forwarded: bool, retryAfter: nat)
      modifies this
      ensures path == "/health" || path == "/metrics" ==> forwarded && Server() == old(Server())
      ensures path != "/health" && path != "/metrics" ==>
        && (!forwarded <==> old(Reaches(hasClient, loads)) && link == Answered && !Script(Limits(), old(Server()), c).1)
        && Server() == (if old(Reaches(hasClient, loads)) && link != Lost(false)
                        then Script(Limits(), old(Server()), c).0 else old(Server()))
      ensures !forwarded ==> retryAfter == window
    {
      if path == "/health" || path == "/metrics" {
        return true, 0;
      }
      forwarded, retryAfter := Check(c, hasClient, loads, link);
    }
  }
}
