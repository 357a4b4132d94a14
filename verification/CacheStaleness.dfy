/**
 * One cache key under concurrent readers and writers: every read of the store, write to the cache,
 * change of the store and deletion of the key is its own step, and cache commands may fail.
 */
module CacheStaleness {
  import opened Prelude

  /** Five minutes. */
  const TTL := 300.0

  datatype Change<V> = Change(at: real, value: V)

  /** A value read from the store, not yet written to the cache. */
  datatype Read<V> = Read(value: V, at: real)

  datatype Entry<V> = Entry(value: V, readAt: real, setAt: real)

  /** `history` is what the store has held for this key, oldest first; `readAt` in an entry is history too. */
  datatype State<V> = State(now: real, history: seq<Change<V>>, entry: Option<Entry<V>>, readers: map<nat, Read<V>>)

  datatype Step<V> =
    | Tick(seconds: real)
    | Write(value: V)
    | Invalidate(works: bool)
    | ReadStore(reader: nat)
    | Fill(reader: nat, works: bool)

  predicate Enabled<V>(s: State<V>, step: Step<V>) {
    match step
    case Tick(seconds) => seconds >= 0.0
    case Fill(reader, _) => reader in s.readers
    case _ => s.history != []
  }

  function Apply<V>(s: State<V>, step: Step<V>): State<V>
    requires Enabled(s, step)
  {
    match step
    case Tick(seconds) => s.(now := s.now + seconds)
    case Write(value) => s.(history := s.history + [Change(s.now, value)])
    case Invalidate(works) => if works then s.(entry := None) else s
    case ReadStore(reader) =>
      s.(readers := s.readers[reader := Read(s.history[|s.history| - 1].value, s.now)])
    case Fill(reader, works) =>
      var r := s.readers[reader];
      if works then s.(entry := Some(Entry(r.value, r.at, s.now)), readers := s.readers - {reader})
      else s.(readers := s.readers - {reader})
  }

  predicate Legal<V>(s: State<V>, steps: seq<Step<V>>)
    decreases |steps|, 0
  {
    steps == [] || (Legal(s, steps[..|steps| - 1]) && Enabled(Run(s, steps[..|steps| - 1]), steps[|steps| - 1]))
  }

  function Run<V>(s: State<V>, steps: seq<Step<V>>): State<V>
    requires Legal(s, steps)
    decreases |steps|, 1
  {
    if steps == [] then s else Apply(Run(s, steps[..|steps| - 1]), steps[|steps| - 1])
  }

  /** What a read of the key finds in the cache now. */
  function Serve<V>(s: State<V>): Option<V> {
    if s.entry.Some? && s.now < s.entry.value.setAt + TTL then Some(s.entry.value.value) else None
  }

  /** The store held `value` at the moment `at`. */
  ghost predicate Held<V>(history: seq<Change<V>>, value: V, at: real) {
    exists i :: 0 <= i < |history| && HeldAs(history, i, value, at)
  }

  ghost predicate HeldAs<V>(history: seq<Change<V>>, i: nat, value: V, at: real)
    requires i < |history|
  {
    && history[i].value == value && history[i].at <= at
    && (i + 1 < |history| ==> at <= history[i + 1].at)
  }

  ghost predicate Inv<V>(s: State<V>) {
    && s.history != [] && (forall i :: 0 <= i < |s.history| ==> s.history[i].at <= s.now)
    && (forall r :: r in s.readers ==> s.readers[r].at <= s.now && Held(s.history, s.readers[r].value, s.readers[r].at))
    && (s.entry.Some? ==>
          var e := s.entry.value; e.readAt <= e.setAt <= s.now && Held(s.history, e.value, e.readAt))
  }

  lemma HeldStays<V>(history: seq<Change<V>>, c: Change<V>, value: V, at: real)
    requires Held(history, value, at) && at <= c.at
    ensures Held(history + [c], value, at)
  {
    var i :| 0 <= i < |history| && HeldAs(history, i, value, at);
    assert HeldAs(history + [c], i, value, at);
  }

  lemma StepInv<V>(s: State<V>, step: Step<V>)
    requires Inv(s) && Enabled(s, step)
    ensures Inv(Apply(s, step))
  {
    var s' := Apply(s, step);
    match step {
      case Write(value) =>
        forall r | r in s.readers
          ensures Held(s'.history, s.readers[r].value, s.readers[r].at)
        {
          HeldStays(s.history, Change(s.now, value), s.readers[r].value, s.readers[r].at);
        }
        if s.entry.Some? {
          HeldStays(s.history, Change(s.now, value), s.entry.value.value, s.entry.value.readAt);
        }
      case ReadStore(reader) =>
        assert HeldAs(s.history, |s.history| - 1, s'.readers[reader].value, s.now);
      case _ =>
    }
  }

  lemma {:induction false} RunInv<V>(s: State<V>, steps: seq<Step<V>>)
    requires Inv(s) && Legal(s, steps)
    ensures Inv(Run(s, steps))
  {
    if steps == [] {
    } else {
      RunInv(s, steps[..|steps| - 1]);
      StepInv(Run(s, steps[..|steps| - 1]), steps[|steps| - 1]);
    }
  }

  /**
   * In every interleaving, even when deletions and fills fail: a served value was the store's value
   * at some moment less than the TTL plus the filling reader's own delay ago.
   */
  lemma BoundedStaleness<V>(s: State<V>, steps: seq<Step<V>>)
    requires Inv(s) && Legal(s, steps)
    ensures
      var s' := Run(s, steps);
      Serve(s').Some? ==>
        var e := s'.entry.value;
        exists at: real :: s'.now - 300.0 - (e.setAt - e.readAt) < at <= s'.now && Held(s'.history, Serve(s').value, at)
  {
    RunInv(s, steps);
    var s' := Run(s, steps);
    if Serve(s').Some? {
      var e := s'.entry.value;
      assert s'.now - TTL - (e.setAt - e.readAt) < e.readAt <= s'.now && Held(s'.history, e.value, e.readAt);
    }
  }

  /** A working invalidation does not help against a reader that fetched before it and fills after it. */
  lemma LateFillOutlivesInvalidation<V>(s: State<V>, reader: nat, newer: V)
    requires Inv(s)
    ensures
      var s1 := Apply(s, ReadStore(reader));
      var s2 := Apply(s1, Write(newer));
      var s3 := Apply(s2, Invalidate(true));
      var s4 := Apply(s3, Fill(reader, true));
      && s4.history[|s4.history| - 1].value == newer
      && Serve(s4) == Some(s.history[|s.history| - 1].value)
  {
  }

  lemma OneStep<V>(s: State<V>, step: Step<V>)
    requires Enabled(s, step)
    ensures Legal(s, [step]) && Run(s, [step]) == Apply(s, step)
  {
    assert [step][..0] == [];
    assert Legal(s, []) && Run(s, []) == s;
  }

  ghost predicate WriteFree<V>(steps: seq<Step<V>>) {
    forall i :: 0 <= i < |steps| ==> !steps[i].Write?
  }

  /** Until the next write the cache holds nothing but `value`. */
  ghost predicate ServesOnly<V(!new)>(s: State<V>, value: V) {
    forall steps: seq<Step<V>> :: Legal(s, steps) && WriteFree(steps) ==>
      Serve(Run(s, steps)).None? || Serve(Run(s, steps)).value == value
  }

  /** The store, the entry and every reader in flight hold that value. */
  ghost predicate Current<V>(s: State<V>, value: V) {
    && s.history != [] && s.history[|s.history| - 1].value == value
    && (s.entry.Some? ==> s.entry.value.value == value)
    && (forall r :: r in s.readers ==> s.readers[r].value == value)
  }

  lemma {:induction false} StaysCurrent<V>(s: State<V>, steps: seq<Step<V>>, value: V)
    requires Current(s, value) && Legal(s, steps) && WriteFree(steps)
    ensures Current(Run(s, steps), value)
  {
    if steps == [] {
    } else {
      var front := steps[..|steps| - 1];
      assert !steps[|steps| - 1].Write?;
      StaysCurrent(s, front, value);
    }
  }

  /**
   * A write with a working invalidation makes all later reads current if and only if every reader
   * between its store read and its fill happens to hold the written value already.
   */
  lemma InvalidationWorksExactly<V(!new)>(s: State<V>, value: V)
    requires Inv(s)
    ensures
      var s' := Apply(Apply(s, Write(value)), Invalidate(true));
      ServesOnly(s', value) <==> forall r :: r in s.readers ==> s.readers[r].value == value
  {
    var s' := Apply(Apply(s, Write(value)), Invalidate(true));
    if r :| r in s.readers && s.readers[r].value != value {
      var steps: seq<Step<V>> := [Fill(r, true)];
      OneStep(s', Fill(r, true));
      assert WriteFree(steps);
      assert Serve(Run(s', steps)) == Some(s.readers[r].value);
    } else {
      assert Current(s', value);
      forall steps: seq<Step<V>> | Legal(s', steps) && WriteFree(steps)
        ensures Serve(Run(s', steps)).None? || Serve(Run(s', steps)).value == value
      {
        StaysCurrent(s', steps, value);
      }
    }
  }
}
