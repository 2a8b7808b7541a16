/** Ordered file writes under a schedule of faults, with a log of every attempt. */
module Faults {
  import opened Wrappers
  import opened Knowledgebase
  import opened Isolation

  /** How one attempt goes: it works, or it is reported as failed before or after it took effect. */
  datatype Fault = Fine | Lost | Late

  /** Which attempt, counted from the first, meets which fault. */
  type Schedule = nat -> Fault

  /** One attempted replacement of a file, or its removal. */
  datatype Attempt = Attempt(path: Path, content: Option<Content>)

  /** One attempt: `g` is `f` with the path changed, unless it failed before taking effect. */
  ghost predicate Made(f: Files, g: Files, a: Attempt, fault: Fault) {
    Agree(f, g, {a.path}) && Stored(g, a.path) == if fault.Lost? then Stored(f, a.path) else a.content
  }

  /** The files with the attempt's change. */
  function Change(f: Files, a: Attempt): Files {
    match a.content
    case Some(c) => f[a.path := c]
    case None => f - {a.path}
  }

  lemma MadeIs(f: Files, g: Files, a: Attempt, fault: Fault)
    requires Made(f, g, a, fault)
    ensures g == if fault.Lost? then f else Change(f, a)
  {
    var h := if fault.Lost? then f else Change(f, a);
    forall p ensures Stored(g, p) == Stored(h, p) {
      if p != a.path { assert Stored(g, p) == Stored(f, p); }
    }
    SameStored(g, h);
  }

  ghost function PathsIn(writes: seq<Attempt>): set<Path> { set a | a in writes :: a.path }

  /** Every attempt was made from number `at` on, over distinct paths, whatever faults it met. */
  ghost predicate AllMade(f: Files, g: Files, writes: seq<Attempt>, plan: Schedule, at: nat) {
    (forall p :: p !in PathsIn(writes) ==> Stored(g, p) == Stored(f, p)) &&
    forall i :: 0 <= i < |writes| ==>
      Stored(g, writes[i].path) == if plan(at + i).Lost? then Stored(f, writes[i].path) else writes[i].content
  }

  lemma NoneMade(f: Files, plan: Schedule, at: nat)
    ensures AllMade(f, f, [], plan, at)
  {}

  lemma OneMade(f: Files, g: Files, a: Attempt, plan: Schedule, at: nat)
    requires Made(f, g, a, plan(at))
    ensures AllMade(f, g, [a], plan, at)
  {
    assert [a][0] == a;
    assert a.path in PathsIn([a]);
    forall p | p !in PathsIn([a]) ensures Stored(g, p) == Stored(f, p) { assert p !in {a.path}; }
  }

  lemma MadeAfter(f: Files, g: Files, h: Files, first: seq<Attempt>, second: seq<Attempt>, plan: Schedule, at: nat)
    requires AllMade(f, g, first, plan, at) && AllMade(g, h, second, plan, at + |first|)
    requires PathsIn(first) !! PathsIn(second)
    ensures AllMade(f, h, first + second, plan, at)
  {
    var writes := first + second;
    assert PathsIn(writes) == PathsIn(first) + PathsIn(second);
    forall i | 0 <= i < |writes|
      ensures Stored(h, writes[i].path) ==
              if plan(at + i).Lost? then Stored(f, writes[i].path) else writes[i].content
    {
      if i < |first| {
        assert writes[i] == first[i] && first[i].path in PathsIn(first);
      } else {
        var j := i - |first|;
        assert writes[i] == second[j] && second[j].path in PathsIn(second);
        assert plan(at + |first| + j) == plan(at + i);
      }
    }
  }

  /** The first `k` paths of the writes hold what they should. */
  ghost predicate Reached(g: Files, h: Files, writes: seq<Attempt>, k: nat)
    requires k <= |writes|
  {
    forall i :: 0 <= i < k ==> Stored(g, writes[i].path) == Stored(h, writes[i].path)
  }

  /** None of the `n` attempts from number `at` on meets a fault. */
  predicate Clear(plan: Schedule, at: nat, n: nat) { forall k: nat | at <= k < at + n :: plan(k).Fine? }

  /** How many of the `n` attempts from number `at` on meet a fault. */
  function FaultCount(plan: Schedule, at: nat, n: nat): nat {
    if n == 0 then 0 else FaultCount(plan, at, n - 1) + if plan(at + n - 1).Fine? then 0 else 1
  }

  lemma {:induction false} NoFaults(plan: Schedule, at: nat, n: nat)
    ensures FaultCount(plan, at, n) == 0 <==> Clear(plan, at, n)
    ensures FaultCount(plan, at, n) <= n
  {
    if n > 0 {
      NoFaults(plan, at, n - 1);
      if Clear(plan, at, n) { assert Clear(plan, at, n - 1); }
    }
  }

  /** How many attempts a sequence of `n` writes makes that stops at its first failure. */
  function Attempts(plan: Schedule, at: nat, n: nat): nat
    decreases n
  {
    if n == 0 then 0 else if plan(at).Fine? then 1 + Attempts(plan, at + 1, n - 1) else 1
  }

  lemma {:induction false} StopsAtFault(plan: Schedule, at: nat, n: nat, k: nat)
    requires k <= n && Clear(plan, at, k)
    ensures k == n ==> Attempts(plan, at, n) == n && Clear(plan, at, n)
    ensures k < n && !plan(at + k).Fine? ==> Attempts(plan, at, n) == k + 1 && !Clear(plan, at, n)
    decreases n
  {
    if k > 0 {
      StopsAtFault(plan, at + 1, n - 1, k - 1);
    }
  }

  /** The first `k` of the writes were made without a fault. */
  ghost predicate OnCourse(plan: Schedule, before: seq<Attempt>, log: seq<Attempt>, writes: seq<Attempt>, k: nat) {
    k <= |writes| && log == before + writes[..k] && Clear(plan, |before|, k)
  }

  /** The writes up to the first fault were made. */
  ghost predicate Stopped(plan: Schedule, before: seq<Attempt>, log: seq<Attempt>, writes: seq<Attempt>) {
    !Clear(plan, |before|, |writes|) && Attempts(plan, |before|, |writes|) <= |writes| &&
    log == before + writes[..Attempts(plan, |before|, |writes|)]
  }

  /** All of the writes, or those up to the first fault. */
  ghost predicate Sequenced(plan: Schedule, before: seq<Attempt>, log: seq<Attempt>, writes: seq<Attempt>, ok: bool) {
    if ok then OnCourse(plan, before, log, writes, |writes|) else Stopped(plan, before, log, writes)
  }

  lemma NextOnCourse(plan: Schedule, before: seq<Attempt>, log: seq<Attempt>, writes: seq<Attempt>, k: nat)
    requires OnCourse(plan, before, log, writes, k) && k < |writes|
    ensures plan(|log|).Fine? ==> OnCourse(plan, before, log + [writes[k]], writes, k + 1)
    ensures !plan(|log|).Fine? ==> Stopped(plan, before, log + [writes[k]], writes)
  {
    assert writes[..k + 1] == writes[..k] + [writes[k]];
    StopsAtFault(plan, |before|, |writes|, k);
  }

  lemma DoneInSequence(plan: Schedule, before: seq<Attempt>, log: seq<Attempt>, writes: seq<Attempt>,
                       undo: seq<Attempt>)
    requires Sequenced(plan, before, log, writes, true)
    ensures AllOrUndone(plan, before, log, writes, undo, true, false)
  {
    StopsAtFault(plan, |before|, |writes|, |writes|);
    assert writes[..|writes|] == writes;
  }

  lemma UndoneInSequence(plan: Schedule, before: seq<Attempt>, log: seq<Attempt>, writes: seq<Attempt>,
                         undo: seq<Attempt>)
    requires Sequenced(plan, before, log, writes, false)
    ensures AllOrUndone(plan, before, log + undo, writes, undo, false, Clear(plan, |log|, |undo|))
  {}

  /** All writes were made, or the ones up to the first failure and then every write of the undo. */
  ghost predicate AllOrUndone(plan: Schedule, before: seq<Attempt>, after: seq<Attempt>, writes: seq<Attempt>,
                              undo: seq<Attempt>, done: bool, undone: bool)
  {
    var n := Attempts(plan, |before|, |writes|);
    n <= |writes| && (done <==> Clear(plan, |before|, |writes|)) &&
    if done then !undone && after == before + writes
    else after == before + writes[..n] + undo && (undone <==> Clear(plan, |before| + n, |undo|))
  }
}
