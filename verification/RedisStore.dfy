/**
 * The sorted set and the answers of the script, told from the calls alone: which admissions are
 * still in the set after any interleaving, and when the key expires.
 */
module RedisStore {
  import opened Prelude
  import opened SlidingWindow
  import opened RedisLimiter

  ghost predicate Fresh(calls: seq<Call>) {
    forall i, j :: 0 <= i < j < |calls| ==> calls[i].member != calls[j].member
  }

  /** The last admission before the j-th call is so long ago, on the server's clock, that the key is gone. */
  predicate ExpiredAt(p: Policy, calls: seq<Call>, j: nat)
    requires j < |calls|
  {
    var before := Recorded(p, calls[..j]);
    before != [] && calls[j].server >= before[|before| - 1].server + (p.window + 1) as real
  }

  /** The j-th call, by its own clock, finds the i-th a whole window old. */
  predicate PurgedAt(p: Policy, calls: seq<Call>, i: nat, j: nat)
    requires i < |calls| && j < |calls|
  {
    0.0 <= calls[i].now <= calls[j].now - p.window as real
  }

  predicate AdmittedAt(p: Policy, calls: seq<Call>, i: nat)
    requires i < |calls|
  {
    Script(p, StoreAfter(p, calls[..i]), calls[i]).1
  }

  /** The i-th call was admitted, and no later one met an expired key or found it a window old. */
  ghost predicate Holds(p: Policy, calls: seq<Call>, i: nat) {
    && i < |calls| && AdmittedAt(p, calls, i)
    && forall j :: i < j < |calls| ==> !PurgedAt(p, calls, i, j) && !ExpiredAt(p, calls, j)
  }

  /** The key expires a window and a second after its last admission; a refusal does not prolong it. */
  lemma {:induction false} ExpiresAfterLastAdmission(p: Policy, calls: seq<Call>)
    requires p.maxRequests >= 1
    ensures
      var log, s := Recorded(p, calls), StoreAfter(p, calls);
      s.expiresAt == if log == [] then None else Some(log[|log| - 1].server + (p.window + 1) as real)
  {
    hide Script;
    if calls == [] {
    } else {
      ExpiresAfterLastAdmission(p, calls[..|calls| - 1]);
      ExpiryAfter(p, StoreAfter(p, calls[..|calls| - 1]), calls[|calls| - 1]);
    }
  }

  lemma ExpiryAfter(p: Policy, s: Store, c: Call)
    requires p.maxRequests >= 1
    ensures
      var (s', ok) := Script(p, s, c);
      s'.expiresAt == if ok then Some(c.server + (p.window + 1) as real) else s.expiresAt
  {
    RefusedIsAlive(p, s, c);
  }

  lemma RefusedIsAlive(p: Policy, s: Store, c: Call)
    requires p.maxRequests >= 1
    ensures Script(p, s, c).1 || Expire(s, c.server) == s
  {
    assert RemoveRangeByScore(map[], 0.0, c.now - p.window as real) == map[];
  }

  lemma HoldsNext(p: Policy, calls: seq<Call>, c: Call, i: nat)
    requires i < |calls|
    ensures
      var all := calls + [c];
      Holds(p, all, i) <==> Holds(p, calls, i) && !PurgedAt(p, all, i, |calls|) && !ExpiredAt(p, all, |calls|)
  {
    hide Recorded, StoreAfter, Script;
    var all := calls + [c];
    assert all[..i] == calls[..i] && all[i] == calls[i];
    forall j | i < j < |calls|
      ensures PurgedAt(p, all, i, j) == PurgedAt(p, calls, i, j) && ExpiredAt(p, all, j) == ExpiredAt(p, calls, j)
    {
      assert all[..j] == calls[..j] && all[j] == calls[j];
    }
  }

  /** One run of the script: what stays of the set. */
  lemma ScriptKeepsExactly(p: Policy, s: Store, c: Call, m: string)
    requires c.member !in s.zset
    ensures
      var (s', ok) := Script(p, s, c);
      if m == c.member then m in s'.zset <==> ok
      else m in s'.zset <==> m in s.zset && Expire(s, c.server) == s && !(0.0 <= s.zset[m] <= c.now - p.window as real)
    ensures
      var (s', ok) := Script(p, s, c);
      m in s'.zset ==> s'.zset[m] == if m == c.member then c.now else s.zset[m]
  {
  }

  lemma {:induction false} StoreHoldsExactly(p: Policy, calls: seq<Call>, i: nat)
    requires p.maxRequests >= 1 && Fresh(calls) && i < |calls|
    ensures
      var zset := StoreAfter(p, calls).zset;
      && (calls[i].member in zset <==> Holds(p, calls, i))
      && (calls[i].member in zset ==> zset[calls[i].member] == calls[i].now)
    decreases |calls|
  {
    hide Script, Recorded, Expire;
    var front, c := calls[..|calls| - 1], calls[|calls| - 1];
    var s := StoreAfter(p, front);
    NotYet(p, front, c);
    ScriptKeepsExactly(p, s, c, calls[i].member);
    if i == |front| {
    } else {
      StoreHoldsExactly(p, front, i);
      assert front + [c] == calls;
      HoldsNext(p, front, c, i);
      ExpiredExactly(p, front, c);
    }
  }

  lemma NotYet(p: Policy, calls: seq<Call>, c: Call)
    requires Fresh(calls + [c])
    ensures Fresh(calls) && c.member !in StoreAfter(p, calls).zset
  {
    hide StoreAfter, Recorded;
    var all := calls + [c];
    assert all[|calls|] == c && forall i :: 0 <= i < |calls| ==> all[i] == calls[i];
    RecordedMembers(p, calls);
    assert c.member !in Members(calls);
  }

  lemma ExpiredExactly(p: Policy, calls: seq<Call>, c: Call)
    requires p.maxRequests >= 1
    ensures
      var s := StoreAfter(p, calls);
      ExpiredAt(p, calls + [c], |calls|) <==> s.expiresAt.Some? && c.server >= s.expiresAt.value
    ensures
      var s := StoreAfter(p, calls);
      s.zset != map[] ==> (ExpiredAt(p, calls + [c], |calls|) <==> Expire(s, c.server) != s)
  {
    hide Recorded, StoreAfter;
    ExpiresAfterLastAdmission(p, calls);
    assert (calls + [c])[..|calls|] == calls;
  }

  // ---- the answers ----

  /** Earlier calls that still count when the last one is decided. */
  ghost function Counting(p: Policy, calls: seq<Call>): set<nat>
    requires calls != []
  {
    set i: nat | i < |calls| - 1 && Holds(p, calls, i)
  }

  lemma {:induction false} ImageSize(calls: seq<Call>, ids: set<nat>)
    requires Fresh(calls) && forall i :: i in ids ==> i < |calls|
    ensures |set i | i in ids :: calls[i].member| == |ids|
  {
    if ids == {} {
    } else {
      var i :| i in ids;
      ImageSize(calls, ids - {i});
      var rest := set k | k in ids - {i} :: calls[k].member;
      assert (set k | k in ids :: calls[k].member) == rest + {calls[i].member};
      assert calls[i].member !in rest;
    }
  }

  /** After the purge the set holds exactly the members of those calls. */
  lemma PurgedIsCounting(p: Policy, calls: seq<Call>, c: Call)
    requires p.maxRequests >= 1 && Fresh(calls + [c])
    ensures Purged(p, StoreAfter(p, calls), c).Keys == set i | i in Counting(p, calls + [c]) :: (calls + [c])[i].member
  {
    hide StoreAfter, Recorded, Script;
    var all, s := calls + [c], StoreAfter(p, calls);
    var kept, counting := Purged(p, s, c), Counting(p, all);
    NotYet(p, calls, c);
    forall i: nat | i < |calls|
      ensures all[i] == calls[i] && (calls[i].member in kept <==> i in counting)
    {
      StoreHoldsExactly(p, calls, i);
      HoldsNext(p, calls, c, i);
      ExpiredExactly(p, calls, c);
    }
    forall m | m in kept
      ensures exists i :: i in counting && all[i].member == m
    {
      StoreFromLog(p, calls);
      MemberIsACall(p, calls, m);
      var i :| 0 <= i < |calls| && calls[i].member == m;
      assert i in counting;
    }
  }

  lemma MemberIsACall(p: Policy, calls: seq<Call>, m: string)
    requires m in StoreAfter(p, calls).zset
    ensures exists i :: 0 <= i < |calls| && calls[i].member == m
  {
    hide StoreAfter, Recorded;
    RecordedMembers(p, calls);
    assert m in Members(calls);
  }

  /**
   * A call is admitted if and only if fewer than the quota of the earlier ones still count, by their
   * own clocks and the server's: for every interleaving and every drift of the clocks.
   */
  lemma AdmittedExactly(p: Policy, calls: seq<Call>, c: Call)
    requires p.maxRequests >= 1 && Fresh(calls + [c])
    ensures Script(p, StoreAfter(p, calls), c).1 <==> |Counting(p, calls + [c])| < p.maxRequests
  {
    hide StoreAfter, Recorded, Counting;
    var all, kept := calls + [c], Purged(p, StoreAfter(p, calls), c);
    PurgedIsCounting(p, calls, c);
    assert forall i :: i in Counting(p, all) ==> i < |all| by { CountingIsEarlier(p, all); }
    ImageSize(all, Counting(p, all));
    assert |kept| == |kept.Keys|;
  }

  lemma CountingIsEarlier(p: Policy, calls: seq<Call>)
    requires calls != []
    ensures forall i :: i in Counting(p, calls) ==> i < |calls|
  {
  }
}
