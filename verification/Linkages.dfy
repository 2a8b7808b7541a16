/** What a run of passes keeps of the facts each pass brings, when links need nodes that come and go. */
module Linkages {
  import opened Sequences

  /** How a kind of fact depends on the nodes: whether it is taken in, in what form, and whether that
      form stays when the nodes change. */
  datatype Linkage<!T> = Linkage(
    enter: (T, set<string>) -> bool, trim: (T, set<string>) -> T, stay: (T, set<string>) -> bool)

  /** A form that stays is at most what would have been taken in later, and less unless it is the
      same; staying depends only on the nodes it was formed with. */
  ghost predicate Sound<T(!new)>(l: Linkage<T>, weigh: T -> nat) {
    && (forall x, ids :: l.enter(x, ids) ==> l.stay(l.trim(x, ids), ids) && weigh(l.trim(x, ids)) > 0)
    && (forall x, early, late :: l.enter(x, early) && l.stay(l.trim(x, early), late) ==>
          l.enter(x, late) && weigh(l.trim(x, early)) <= weigh(l.trim(x, late)) &&
          (weigh(l.trim(x, early)) == weigh(l.trim(x, late)) ==> l.trim(x, early) == l.trim(x, late)))
    && (forall x, early, late, mid :: l.enter(x, early) && l.stay(l.trim(x, early), late) && early * late <= mid ==>
          l.stay(l.trim(x, early), mid))
  }

  function Entering<T>(l: Linkage<T>, ids: set<string>): T -> bool { x => l.enter(x, ids) }

  function Trimming<T>(l: Linkage<T>, ids: set<string>): T -> T { x => l.trim(x, ids) }

  function Staying<T>(l: Linkage<T>, ids: set<string>): T -> bool { x => l.stay(x, ids) }

  function Lasting<T>(l: Linkage<T>, ids: set<string>, final: set<string>): T -> bool {
    x => l.enter(x, ids) && l.stay(l.trim(x, ids), final)
  }

  /** The facts taken in with the nodes `ids`. */
  function Enter<T>(l: Linkage<T>, s: seq<T>, ids: set<string>): seq<T> { Carry(s, Entering(l, ids), Trimming(l, ids)) }

  /** What is left, after `n` passes, of the facts the passes brought. */
  function FreshAt<T>(l: Linkage<T>, batches: seq<seq<T>>, stages: seq<set<string>>, n: nat): seq<T>
    requires n <= |batches| <= |stages|
  {
    if n == 0 then []
    else
      Enter(l, batches[n - 1], stages[n - 1]) +
      Carry(FreshAt(l, batches, stages, n - 1), Staying(l, stages[n - 1]), Same())
  }

  /** The facts that entered at their own stage and stay at `ids`. */
  function OwnAt<T>(l: Linkage<T>, batches: seq<seq<T>>, stages: seq<set<string>>, ids: set<string>, n: nat): seq<T>
    requires n <= |batches| <= |stages|
  {
    if n == 0 then []
    else
      Carry(batches[n - 1], Lasting(l, stages[n - 1], ids), Trimming(l, stages[n - 1])) +
      OwnAt(l, batches, stages, ids, n - 1)
  }

  /** The facts of all batches, taken in at once. */
  function JointAt<T>(l: Linkage<T>, batches: seq<seq<T>>, ids: set<string>, n: nat): seq<T>
    requires n <= |batches|
  {
    if n == 0 then [] else Enter(l, batches[n - 1], ids) + JointAt(l, batches, ids, n - 1)
  }

  /** A node that is there at two stages is there at the stage before the later one. */
  ghost predicate Steady(stages: seq<set<string>>) {
    forall k, n :: 0 <= k < n < |stages| ==> StillThere(stages, k, n)
  }

  ghost predicate StillThere(stages: seq<set<string>>, k: nat, n: nat)
    requires k < n < |stages|
  {
    stages[k] * stages[n] <= stages[n - 1]
  }

  lemma {:induction false} BatchNarrows<T(!new)>(
    l: Linkage<T>, weigh: T -> nat, s: seq<T>, early: set<string>, mid: set<string>, late: set<string>)
    requires Sound(l, weigh) && early * late <= mid
    ensures Carry(Carry(s, Lasting(l, early, mid), Trimming(l, early)), Staying(l, late), Same())
         == Carry(s, Lasting(l, early, late), Trimming(l, early))
  {
    var stay, trim := Staying(l, late), Trimming(l, early);
    CarryCarry(s, Lasting(l, early, mid), trim, stay, Same<T>());
    CarrySame(s, Both(Lasting(l, early, mid), trim, stay), Then(trim, Same<T>()), Lasting(l, early, late), trim);
  }

  lemma {:induction false} OwnNarrows<T(!new)>(
    l: Linkage<T>, weigh: T -> nat, batches: seq<seq<T>>, stages: seq<set<string>>, mid: nat, m: nat)
    requires Sound(l, weigh) && Steady(stages) && m <= mid + 1 && mid + 1 < |stages| && m <= |batches| <= |stages|
    ensures Carry(OwnAt(l, batches, stages, stages[mid], m), Staying(l, stages[mid + 1]), Same())
         == OwnAt(l, batches, stages, stages[mid + 1], m)
  {
    if m > 0 {
      var early := stages[m - 1];
      OwnNarrows(l, weigh, batches, stages, mid, m - 1);
      CarryConcat(Carry(batches[m - 1], Lasting(l, early, stages[mid]), Trimming(l, early)),
                  OwnAt(l, batches, stages, stages[mid], m - 1), Staying(l, stages[mid + 1]), Same<T>());
      assert StillThere(stages, m - 1, mid + 1);
      BatchNarrows(l, weigh, batches[m - 1], early, stages[mid], stages[mid + 1]);
    }
  }

  lemma {:induction false} BatchEnters<T(!new)>(l: Linkage<T>, weigh: T -> nat, s: seq<T>, ids: set<string>)
    requires Sound(l, weigh)
    ensures Enter(l, s, ids) == Carry(s, Lasting(l, ids, ids), Trimming(l, ids))
  {
    CarrySame(s, Entering(l, ids), Trimming(l, ids), Lasting(l, ids, ids), Trimming(l, ids));
  }

  /** A run keeps the facts that could be linked at their own pass and still are at the end. */
  lemma {:induction false} FreshIsOwn<T(!new)>(
    l: Linkage<T>, weigh: T -> nat, batches: seq<seq<T>>, stages: seq<set<string>>, n: nat)
    requires Sound(l, weigh) && Steady(stages) && 0 < n <= |batches| <= |stages|
    ensures FreshAt(l, batches, stages, n) == OwnAt(l, batches, stages, stages[n - 1], n)
  {
    var ids := stages[n - 1];
    BatchEnters(l, weigh, batches[n - 1], ids);
    if n > 1 {
      FreshIsOwn(l, weigh, batches, stages, n - 1);
      OwnNarrows(l, weigh, batches, stages, n - 2, n - 1);
    }
  }

  // ---- comparing with all at once ----

  /** Whatever is linked in the end was linked in the same form at its own pass. */
  ghost predicate Timely<T>(l: Linkage<T>, batches: seq<seq<T>>, stages: seq<set<string>>, ids: set<string>, n: nat)
    requires n <= |batches| <= |stages|
  {
    forall k :: 0 <= k < n ==> AllOnTime(l, batches[k], stages[k], ids)
  }

  ghost predicate AllOnTime<T>(l: Linkage<T>, s: seq<T>, early: set<string>, ids: set<string>) {
    forall x :: x in s && l.enter(x, ids) ==> OnTime(l, x, early, ids)
  }

  predicate OnTime<T(==)>(l: Linkage<T>, x: T, early: set<string>, ids: set<string>) {
    l.enter(x, early) && l.trim(x, early) == l.trim(x, ids)
  }

  function Weight<T>(s: seq<T>, weigh: T -> nat): nat { if s == [] then 0 else weigh(s[0]) + Weight(s[1..], weigh) }

  lemma {:induction false} WeightConcat<T>(a: seq<T>, b: seq<T>, weigh: T -> nat)
    ensures Weight(a + b, weigh) == Weight(a, weigh) + Weight(b, weigh)
    decreases |a|
  {
    if a == [] {
      assert a + b == b;
    } else {
      assert (a + b)[1..] == a[1..] + b;
      WeightConcat(a[1..], b, weigh);
    }
  }

  lemma {:induction false} WeightForgetsOrder<T>(a: seq<T>, b: seq<T>, weigh: T -> nat)
    requires multiset(a) == multiset(b)
    ensures Weight(a, weigh) == Weight(b, weigh)
  {
    MapSeqMultiset(a, b, weigh);
    SumForgetsOrder(MapSeq(a, weigh), MapSeq(b, weigh));
    WeightSum(a, weigh);
    WeightSum(b, weigh);
  }

  lemma {:induction false} WeightSum<T>(s: seq<T>, weigh: T -> nat)
    ensures Weight(s, weigh) == Sum(MapSeq(s, weigh))
    decreases |s|
  {
    if s != [] {
      WeightSum(s[1..], weigh);
      assert MapSeq(s, weigh)[1..] == MapSeq(s[1..], weigh);
    }
  }

  /** One batch: never more than at once, and as much only when everything was on time. */
  lemma {:induction false} OwnWeighsLess<T(!new)>(
    l: Linkage<T>, weigh: T -> nat, s: seq<T>, early: set<string>, ids: set<string>)
    requires Sound(l, weigh)
    ensures BatchLighter(l, weigh, s, early, ids)
    decreases |s|
  {
    if s != [] {
      OwnWeighsLess(l, weigh, s[1..], early, ids);
      var lasting, trim := Lasting(l, early, ids), Trimming(l, early);
      var rest, joint := Carry(s[1..], lasting, trim), Enter(l, s[1..], ids);
      if lasting(s[0]) { assert ([trim(s[0])] + rest)[1..] == rest; }
      if l.enter(s[0], ids) { assert ([l.trim(s[0], ids)] + joint)[1..] == joint; }
    }
  }

  lemma {:induction false} BatchOnTime<T(!new)>(
    l: Linkage<T>, weigh: T -> nat, s: seq<T>, early: set<string>, ids: set<string>)
    requires Sound(l, weigh) && AllOnTime(l, s, early, ids)
    ensures Carry(s, Lasting(l, early, ids), Trimming(l, early)) == Enter(l, s, ids)
  {
    forall x | x in s
      ensures Lasting(l, early, ids)(x) == Entering(l, ids)(x)
      ensures Lasting(l, early, ids)(x) ==> Trimming(l, early)(x) == Trimming(l, ids)(x)
    {
      if l.enter(x, ids) { assert OnTime(l, x, early, ids); }
    }
    CarrySame(s, Lasting(l, early, ids), Trimming(l, early), Entering(l, ids), Trimming(l, ids));
  }

  ghost predicate Lighter<T>(
    l: Linkage<T>, weigh: T -> nat, batches: seq<seq<T>>, stages: seq<set<string>>, ids: set<string>, n: nat)
    requires n <= |batches| <= |stages|
  {
    var own, joint := Weight(OwnAt(l, batches, stages, ids, n), weigh), Weight(JointAt(l, batches, ids, n), weigh);
    own <= joint && (own == joint ==> Timely(l, batches, stages, ids, n))
  }

  ghost predicate BatchLighter<T>(l: Linkage<T>, weigh: T -> nat, s: seq<T>, early: set<string>, ids: set<string>) {
    var own := Weight(Carry(s, Lasting(l, early, ids), Trimming(l, early)), weigh);
    var joint := Weight(Enter(l, s, ids), weigh);
    own <= joint && (own == joint ==> AllOnTime(l, s, early, ids))
  }

  /** The run's facts weigh no more than the joint ones, and as much only when all are on time. */
  lemma {:induction false} OwnIsLighter<T(!new)>(
    l: Linkage<T>, weigh: T -> nat, batches: seq<seq<T>>, stages: seq<set<string>>, ids: set<string>, n: nat)
    requires Sound(l, weigh) && n <= |batches| <= |stages|
    ensures Lighter(l, weigh, batches, stages, ids, n)
  {
    if n > 0 {
      OwnIsLighter(l, weigh, batches, stages, ids, n - 1);
      OwnWeighsLess(l, weigh, batches[n - 1], stages[n - 1], ids);
      NextLighter(l, weigh, batches, stages, ids, n);
    }
  }

  lemma {:induction false} NextLighter<T>(
    l: Linkage<T>, weigh: T -> nat, batches: seq<seq<T>>, stages: seq<set<string>>, ids: set<string>, n: nat)
    requires 0 < n <= |batches| <= |stages| && Lighter(l, weigh, batches, stages, ids, n - 1)
    requires BatchLighter(l, weigh, batches[n - 1], stages[n - 1], ids)
    ensures Lighter(l, weigh, batches, stages, ids, n)
  {
    SplitWeights(l, weigh, batches, stages, ids, n);
  }

  lemma {:induction false} SplitWeights<T>(
    l: Linkage<T>, weigh: T -> nat, batches: seq<seq<T>>, stages: seq<set<string>>, ids: set<string>, n: nat)
    requires 0 < n <= |batches| <= |stages|
    ensures Weight(OwnAt(l, batches, stages, ids, n), weigh) ==
            Weight(Carry(batches[n - 1], Lasting(l, stages[n - 1], ids), Trimming(l, stages[n - 1])), weigh) +
            Weight(OwnAt(l, batches, stages, ids, n - 1), weigh)
    ensures Weight(JointAt(l, batches, ids, n), weigh) ==
            Weight(Enter(l, batches[n - 1], ids), weigh) + Weight(JointAt(l, batches, ids, n - 1), weigh)
  {
    WeightConcat(Carry(batches[n - 1], Lasting(l, stages[n - 1], ids), Trimming(l, stages[n - 1])),
                 OwnAt(l, batches, stages, ids, n - 1), weigh);
    WeightConcat(Enter(l, batches[n - 1], ids), JointAt(l, batches, ids, n - 1), weigh);
  }

  lemma {:induction false} OwnIsJoint<T(!new)>(
    l: Linkage<T>, weigh: T -> nat, batches: seq<seq<T>>, stages: seq<set<string>>, ids: set<string>, n: nat)
    requires Sound(l, weigh) && n <= |batches| <= |stages| && Timely(l, batches, stages, ids, n)
    ensures OwnAt(l, batches, stages, ids, n) == JointAt(l, batches, ids, n)
  {
    if n > 0 {
      assert Timely(l, batches, stages, ids, n - 1);
      OwnIsJoint(l, weigh, batches, stages, ids, n - 1);
      BatchOnTime(l, weigh, batches[n - 1], stages[n - 1], ids);
    }
  }

  /** A run ends with the facts of taking all batches in at once exactly when everything linked in the
      end was linked in the same form at its own pass. */
  lemma {:induction false} RunIsJoint<T(!new)>(
    l: Linkage<T>, weigh: T -> nat, batches: seq<seq<T>>, stages: seq<set<string>>, n: nat)
    requires Sound(l, weigh) && Steady(stages) && 0 < n <= |batches| <= |stages|
    ensures multiset(FreshAt(l, batches, stages, n)) == multiset(JointAt(l, batches, stages[n - 1], n)) <==>
            Timely(l, batches, stages, stages[n - 1], n)
  {
    var run, joint := FreshAt(l, batches, stages, n), JointAt(l, batches, stages[n - 1], n);
    FreshIsOwn(l, weigh, batches, stages, n);
    OwnIsLighter(l, weigh, batches, stages, stages[n - 1], n);
    if Timely(l, batches, stages, stages[n - 1], n) { OwnIsJoint(l, weigh, batches, stages, stages[n - 1], n); }
    if multiset(run) == multiset(joint) { WeightForgetsOrder(run, joint, weigh); }
  }

  /** What holds of every fact brought, and of its trimmed forms, holds of what is left. */
  lemma {:induction false} FreshHas<T(!new)>(
    l: Linkage<T>, batches: seq<seq<T>>, stages: seq<set<string>>, n: nat, has: T -> bool)
    requires n <= |batches| <= |stages|
    requires forall x, ids :: has(x) ==> has(l.trim(x, ids))
    requires forall k, x :: 0 <= k < n && x in batches[k] ==> has(x)
    ensures forall x :: x in FreshAt(l, batches, stages, n) ==> has(x)
  {
    if n > 0 {
      FreshHas(l, batches, stages, n - 1, has);
      var ids := stages[n - 1];
      var entered := Enter(l, batches[n - 1], ids);
      var stayed := Carry(FreshAt(l, batches, stages, n - 1), Staying(l, ids), Same());
      forall x | x in FreshAt(l, batches, stages, n) ensures has(x) {
        if x in entered {
          var y := CarrySource(batches[n - 1], Entering(l, ids), Trimming(l, ids), x);
        } else {
          var y := CarrySource(FreshAt(l, batches, stages, n - 1), Staying(l, ids), Same(), x);
        }
      }
    }
  }
}
