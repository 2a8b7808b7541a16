/** The throttle on counter progress: which observations are shown, and how often. */
module ProgressThrottle {
  import opened Wrappers

  const MAX_VALUE: nat := 9_007_199_254_740_991
  const EMIT_INTERVAL: int := 100

  /** A counter observation at a clock reading in milliseconds. */
  datatype Observation = Observation(processed: nat, total: nat, now: int)

  datatype State = State(total: Option<nat>, processed: Option<nat>, lastEmit: Option<int>)

  const INITIAL := State(None, None, None)

  function Saturating(from: int, until: int): int { if until < from then 0 else until - from }

  predicate Accepts(s: State, o: Observation) {
    !(s.total.Some? && s.total.value != o.total) && !(s.processed.Some? && o.processed <= s.processed.value)
  }

  predicate Emits(s: State, o: Observation) {
    Accepts(s, o) &&
    (o.processed == o.total || s.lastEmit.None? || Saturating(s.lastEmit.value, o.now) >= EMIT_INTERVAL)
  }

  function Next(s: State, o: Observation): State {
    if !Accepts(s, o) then s
    else State(Some(o.total), Some(o.processed), if Emits(s, o) then Some(o.now) else s.lastEmit)
  }

  function StateAfter(obs: seq<Observation>): State {
    if obs == [] then INITIAL else Next(StateAfter(obs[..|obs| - 1]), obs[|obs| - 1])
  }

  /** The observations of a run that are shown. */
  function Emitted(obs: seq<Observation>): seq<Observation> {
    if obs == [] then []
    else
      var rest, last := obs[..|obs| - 1], obs[|obs| - 1];
      Emitted(rest) + if Emits(StateAfter(rest), last) then [last] else []
  }

  class CounterProgressThrottle {
    var total: Option<nat>
    var processed: Option<nat>
    var lastEmit: Option<int>

    function Current(): State reads this { State(total, processed, lastEmit) }

    constructor ()
      ensures Current() == INITIAL
    {
      total, processed, lastEmit := None, None, None;
    }

    method ShouldEmit(seen: nat, outOf: nat, now: int) returns (emit: bool)
      modifies this
      ensures emit == Emits(old(Current()), Observation(seen, outOf, now))
      ensures Current() == Next(old(Current()), Observation(seen, outOf, now))
    {
      if (total.Some? && total.value != outOf) || (processed.Some? && seen <= processed.value) { return false; }
      total := Some(outOf);
      processed := Some(seen);
      emit := seen == outOf || lastEmit.None? || Saturating(lastEmit.value, now) >= EMIT_INTERVAL;
      if emit { lastEmit := Some(now); }
    }
  }

  function Bounded(value: nat): nat { if value <= MAX_VALUE then value else MAX_VALUE }

  function Clamped(seen: nat, outOf: nat, now: int): Observation {
    var total := Bounded(outOf);
    Observation(if Bounded(seen) <= total then Bounded(seen) else total, total, now)
  }

  /** What an emitter observes: never more than the total, neither above the greatest integer a client can
      read exactly, and both as they are when they can be. */
  lemma ClampedFits(seen: nat, outOf: nat, now: int)
    ensures var o := Clamped(seen, outOf, now);
      && o.processed <= o.total <= 9_007_199_254_740_991 && o.now == now
      && (outOf <= 9_007_199_254_740_991 ==> o.total == outOf)
      && (outOf > 9_007_199_254_740_991 ==> o.total == 9_007_199_254_740_991)
      && (seen <= o.total ==> o.processed == seen) && (seen > o.total ==> o.processed == o.total)
  {}

  /** An emitter: what it shows is a function of everything it was called with. */
  class CounterEmitter {
    const throttle: CounterProgressThrottle
    var shown: seq<Observation>
    ghost var seen: seq<Observation>

    ghost predicate Valid() reads this, throttle {
      throttle.Current() == StateAfter(seen) && shown == Emitted(seen) &&
      forall o :: o in seen ==> o.processed <= o.total
    }

    constructor ()
      ensures Valid() && seen == [] && fresh(throttle)
    {
      throttle := new CounterProgressThrottle();
      shown, seen := [], [];
    }

    method Observe(processed: nat, total: nat, now: int)
      requires Valid()
      modifies this, throttle
      ensures Valid() && seen == old(seen) + [Clamped(processed, total, now)]
    {
      var o := Clamped(processed, total, now);
      var emit := throttle.ShouldEmit(o.processed, o.total, o.now);
      assert (seen + [o])[..|seen|] == seen;
      seen := seen + [o];
      if emit { shown := shown + [o]; }
    }
  }

  /** An observation of the run's own total, above every earlier one of that total. */
  ghost predicate Record(obs: seq<Observation>, k: nat)
    requires k < |obs|
  {
    obs[k].total == obs[0].total &&
    forall j :: 0 <= j < k && obs[j].total == obs[0].total ==> obs[j].processed < obs[k].processed
  }

  lemma {:induction false} AcceptsRecords(obs: seq<Observation>, k: nat)
    requires k < |obs|
    ensures Accepts(StateAfter(obs[..k]), obs[k]) <==> Record(obs, k)
    ensures k > 0 ==> StateAfter(obs[..k]).total == Some(obs[0].total)
    ensures k > 0 ==> StateAfter(obs[..k]).processed.Some?
    ensures k > 0 ==>
      exists j :: 0 <= j < k && obs[j].total == obs[0].total && Some(obs[j].processed) == StateAfter(obs[..k]).processed
    ensures k > 0 ==>
      forall j :: 0 <= j < k && obs[j].total == obs[0].total ==>
        obs[j].processed <= StateAfter(obs[..k]).processed.value
  {
    if k > 0 {
      AcceptsRecords(obs, k - 1);
      assert obs[..k][..k - 1] == obs[..k - 1];
      if k == 1 { assert obs[..0] == []; }
      var before, now := StateAfter(obs[..k - 1]), StateAfter(obs[..k]);
      assert now == Next(before, obs[k - 1]);
      if Accepts(before, obs[k - 1]) {
        assert obs[k - 1].total == obs[0].total && obs[k - 1].processed == now.processed.value;
      } else {
        assert now == before;
      }
    } else {
      assert obs[..0] == [];
    }
  }

  /** What is shown: strictly growing counts of one total, starting with the first observation. */
  lemma {:induction false} ShownOrder(obs: seq<Observation>)
    requires obs != []
    ensures var s, e := StateAfter(obs), Emitted(obs);
      e != [] && e[0] == obs[0] && s == State(Some(obs[0].total), s.processed, Some(e[|e| - 1].now)) &&
      s.processed.Some? && (forall i :: 0 <= i < |e| ==> e[i].processed <= s.processed.value) &&
      (forall i :: 0 <= i < |e| ==> e[i].total == obs[0].total) &&
      (forall i, j :: 0 <= i < j < |e| ==> e[i].processed < e[j].processed) &&
      (forall i :: 0 <= i < |e| ==> e[i] in obs)
  {
    var rest := obs[..|obs| - 1];
    if rest != [] {
      ShownOrder(rest);
      forall o | o in rest ensures o in obs {}
    }
  }

  /** The final count is always shown, and only records are. */
  lemma FinalIsShown(obs: seq<Observation>, k: nat)
    requires k < |obs| && obs[k].processed == obs[k].total && Record(obs, k)
    ensures obs[k] in Emitted(obs)
  {
    AcceptsRecords(obs, k);
    assert Emits(StateAfter(obs[..k]), obs[k]);
    ShownStays(obs, k);
  }

  lemma {:induction false} ShownStays(obs: seq<Observation>, k: nat)
    requires k < |obs| && Emits(StateAfter(obs[..k]), obs[k])
    ensures obs[k] in Emitted(obs)
  {
    if k < |obs| - 1 {
      assert obs[..|obs| - 1][..k] == obs[..k];
      ShownStays(obs[..|obs| - 1], k);
    }
  }

  /** Exactly which observations are shown: a record that is first, final, or comes at least 100
      milliseconds after the one shown last. */
  lemma ShownExactly(obs: seq<Observation>, k: nat)
    requires k < |obs|
    ensures k > 0 ==> Emitted(obs[..k]) != []
    ensures var before := Emitted(obs[..k]);
      Emitted(obs[..k + 1]) == before +
        if Record(obs, k) &&
           (k == 0 || obs[k].processed == obs[k].total || obs[k].now - before[|before| - 1].now >= 100)
        then [obs[k]] else []
  {
    assert obs[..k + 1][..k] == obs[..k];
    AcceptsRecords(obs, k);
    if k > 0 {
      ShownOrder(obs[..k]);
    } else {
      assert obs[..0] == [];
    }
  }

  ghost predicate Clocked(obs: seq<Observation>) {
    forall i, j :: 0 <= i < j < |obs| ==> obs[i].now <= obs[j].now
  }

  /** Shown observations other than a final one keep the interval. */
  lemma {:induction false} ShownSpacing(obs: seq<Observation>)
    requires Clocked(obs)
    ensures var e := Emitted(obs);
      (forall i :: 0 < i < |e| ==> e[i].processed == e[i].total || e[i].now - e[i - 1].now >= EMIT_INTERVAL) &&
      (forall i :: 0 < i < |e| ==> e[i - 1].now <= e[i].now) &&
      (e != [] ==> e[0].now == obs[0].now && e[|e| - 1].now <= obs[|obs| - 1].now)
  {
    if obs != [] {
      var rest := obs[..|obs| - 1];
      assert Clocked(rest);
      ShownSpacing(rest);
      if rest != [] { ShownOrder(rest); }
    }
  }

  lemma {:induction false} Spread(e: seq<Observation>, n: nat)
    requires n < |e|
    requires forall i :: 0 < i <= n ==> e[i].now - e[i - 1].now >= EMIT_INTERVAL
    ensures e[n].now - e[0].now >= n * EMIT_INTERVAL
  {
    if n > 0 { Spread(e, n - 1); }
  }

  /** At most two more than one per interval, whatever the callbacks do. */
  lemma RateBound(obs: seq<Observation>)
    requires obs != [] && Clocked(obs) && forall o :: o in obs ==> o.processed <= o.total
    ensures |Emitted(obs)| <= 2 + (obs[|obs| - 1].now - obs[0].now) / EMIT_INTERVAL
  {
    var e := Emitted(obs);
    ShownOrder(obs);
    ShownSpacing(obs);
    if |e| > 2 {
      forall i | 0 < i <= |e| - 2 ensures e[i].now - e[i - 1].now >= EMIT_INTERVAL {
        assert e[i].processed < e[|e| - 1].processed && e[|e| - 1] in obs;
      }
      Spread(e, |e| - 2);
    }
  }

  /** The bound is met: one shown at the start, one at the end, and one each interval between. */
  lemma RateBoundIsTight()
    ensures var obs := [Observation(0, 3, 0), Observation(1, 3, 100), Observation(2, 3, 200), Observation(3, 3, 201)];
      Clocked(obs) && |Emitted(obs)| == 2 + 201 / EMIT_INTERVAL
  {
    var a, b, c, d := Observation(0, 3, 0), Observation(1, 3, 100), Observation(2, 3, 200), Observation(3, 3, 201);
    assert [a][..0] == [] && [a, b][..1] == [a] && [a, b, c][..2] == [a, b] && [a, b, c, d][..3] == [a, b, c];
    assert StateAfter([a]) == State(Some(3), Some(0), Some(0)) && Emitted([a]) == [a];
    assert StateAfter([a, b]) == State(Some(3), Some(1), Some(100)) && Emitted([a, b]) == [a, b];
    assert StateAfter([a, b, c]) == State(Some(3), Some(2), Some(200)) && Emitted([a, b, c]) == [a, b, c];
    assert Emitted([a, b, c, d]) == [a, b, c, d];
  }
}
