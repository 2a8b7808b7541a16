/** Sequences as reorderings of multisets. */
module Sequences {

  function MapSeq<A, B>(s: seq<A>, f: A -> B): (out: seq<B>)
    ensures |out| == |s| && forall i :: 0 <= i < |s| ==> out[i] == f(s[i])
  {
    seq(|s|, i requires 0 <= i < |s| => f(s[i]))
  }

  lemma WithoutIndex<T>(a: seq<T>, j: nat)
    requires j < |a|
    ensures multiset(a[..j] + a[j + 1..]) == multiset(a) - multiset{a[j]}
  {
    assert a == a[..j] + [a[j]] + a[j + 1..];
  }

  lemma WithoutHead<T>(a: seq<T>)
    requires a != []
    ensures multiset(a[1..]) == multiset(a) - multiset{a[0]}
  {
    WithoutIndex(a, 0);
    assert a[..0] + a[1..] == a[1..];
  }

  /** Two reorderings of one multiset agree after removing the first element of one of them
      from wherever it stands in the other. */
  lemma MatchHead<T>(a: seq<T>, b: seq<T>) returns (j: nat)
    requires multiset(a) == multiset(b) && a != []
    ensures |a| == |b| && j < |b| && b[j] == a[0]
    ensures multiset(a[1..]) == multiset(b[..j] + b[j + 1..])
  {
    assert |a| == |multiset(a)| == |multiset(b)| == |b|;
    assert a[0] in multiset(a);
    assert a[0] in b;
    j :| j < |b| && b[j] == a[0];
    WithoutIndex(b, j);
    WithoutHead(a);
  }

  lemma MapSeqWithout<A, B>(a: seq<A>, j: nat, f: A -> B)
    requires j < |a|
    ensures multiset(MapSeq(a, f)) == multiset(MapSeq(a[..j] + a[j + 1..], f)) + multiset{f(a[j])}
  {
    var m := MapSeq(a, f);
    WithoutIndex(m, j);
    assert m[..j] + m[j + 1..] == MapSeq(a[..j] + a[j + 1..], f);
    assert m[j] in multiset(m);
  }

  lemma MapSeqHead<A, B>(a: seq<A>, f: A -> B)
    requires a != []
    ensures multiset(MapSeq(a, f)) == multiset(MapSeq(a[1..], f)) + multiset{f(a[0])}
  {
    var m := MapSeq(a, f);
    assert m == [f(a[0])] + MapSeq(a[1..], f);
  }

  /** Mapping respects reordering. */
  lemma {:induction false} MapSeqMultiset<A, B>(a: seq<A>, b: seq<A>, f: A -> B)
    requires multiset(a) == multiset(b)
    ensures multiset(MapSeq(a, f)) == multiset(MapSeq(b, f))
    decreases |a|
  {
    if a == [] {
      assert |multiset(a)| == |multiset(b)|;
      assert b == a;
    } else {
      var j := MatchHead(a, b);
      var rest := b[..j] + b[j + 1..];
      MapSeqHead(a, f);
      MapSeqWithout(b, j, f);
      MapSeqMultiset(a[1..], rest, f);
    }
  }

  function Sum(s: seq<nat>): nat {
    if s == [] then 0 else s[0] + Sum(s[1..])
  }

  lemma {:induction false} SumSplit(s: seq<nat>, j: nat)
    requires j < |s|
    ensures Sum(s) == s[j] + Sum(s[..j] + s[j + 1..])
    decreases j
  {
    if j == 0 {
      assert s[..0] + s[1..] == s[1..];
    } else {
      SumSplit(s[1..], j - 1);
      assert (s[..j] + s[j + 1..])[1..] == s[1..][..j - 1] + s[1..][j..];
    }
  }

  lemma {:induction false} SumForgetsOrder(a: seq<nat>, b: seq<nat>)
    requires multiset(a) == multiset(b)
    ensures Sum(a) == Sum(b)
    decreases |a|
  {
    if a == [] {
      assert |multiset(a)| == |multiset(b)|;
    } else {
      var j := MatchHead(a, b);
      SumSplit(b, j);
      SumForgetsOrder(a[1..], b[..j] + b[j + 1..]);
    }
  }

  // ---- keeping and moving elements ----

  function Same<T>(): T -> T { x => x }

  /** The elements that satisfy `keep`, each moved, in their original order. */
  function Carry<A, B>(s: seq<A>, keep: A -> bool, move: A -> B): (out: seq<B>)
    ensures |out| <= |s|
  {
    if s == [] then []
    else if keep(s[0]) then [move(s[0])] + Carry(s[1..], keep, move)
    else Carry(s[1..], keep, move)
  }

  lemma {:induction false} CarryConcat<A, B>(a: seq<A>, b: seq<A>, keep: A -> bool, move: A -> B)
    ensures Carry(a + b, keep, move) == Carry(a, keep, move) + Carry(b, keep, move)
    decreases |a|
  {
    if a == [] {
      assert a + b == b;
    } else {
      assert (a + b)[1..] == a[1..] + b;
      CarryConcat(a[1..], b, keep, move);
    }
  }

  lemma {:induction false} CarryMember<A, B>(s: seq<A>, keep: A -> bool, move: A -> B, x: A)
    requires x in s && keep(x)
    ensures move(x) in Carry(s, keep, move)
    decreases |s|
  {
    if s[0] != x { CarryMember(s[1..], keep, move, x); }
  }

  lemma {:induction false} CarrySource<A, B>(s: seq<A>, keep: A -> bool, move: A -> B, y: B) returns (x: A)
    requires y in Carry(s, keep, move)
    ensures x in s && keep(x) && move(x) == y
    decreases |s|
  {
    if keep(s[0]) && move(s[0]) == y { return s[0]; }
    x := CarrySource(s[1..], keep, move, y);
  }

  lemma {:induction false} CarryNone<A, B>(s: seq<A>, keep: A -> bool, move: A -> B)
    requires forall x :: x in s ==> !keep(x)
    ensures Carry(s, keep, move) == []
    decreases |s|
  {
    if s != [] {
      assert s[0] in s;
      forall x | x in s[1..] ensures x in s {}
      CarryNone(s[1..], keep, move);
    }
  }

  function Both<A, B>(keep: A -> bool, move: A -> B, keep': B -> bool): A -> bool {
    x => keep(x) && keep'(move(x))
  }

  function Then<A, B, C>(move: A -> B, move': B -> C): A -> C {
    x => move'(move(x))
  }

  /** Carrying twice is carrying once with both conditions and both moves. */
  lemma {:induction false} CarryCarry<A, B, C>(s: seq<A>, keep: A -> bool, move: A -> B,
                                               keep': B -> bool, move': B -> C)
    ensures Carry(Carry(s, keep, move), keep', move')
         == Carry(s, Both(keep, move, keep'), Then(move, move'))
    decreases |s|
  {
    if s != [] { CarryCarry(s[1..], keep, move, keep', move'); }
  }

  lemma {:induction false} CarrySame<A, B>(s: seq<A>, keep: A -> bool, move: A -> B,
                                           keep': A -> bool, move': A -> B)
    requires forall x :: x in s ==> keep(x) == keep'(x) && (keep(x) ==> move(x) == move'(x))
    ensures Carry(s, keep, move) == Carry(s, keep', move')
    decreases |s|
  {
    if s != [] {
      assert s[0] in s;
      forall x | x in s[1..] ensures x in s {}
      CarrySame(s[1..], keep, move, keep', move');
    }
  }

  /** What was carried is carried again unchanged, when the move settles and keeps the condition. */
  lemma CarryAgain<A(!new)>(s: seq<A>, keep: A -> bool, move: A -> A)
    requires forall x :: keep(x) ==> keep(move(x)) && move(move(x)) == move(x)
    ensures Carry(Carry(s, keep, move), keep, move) == Carry(s, keep, move)
  {
    CarryCarry(s, keep, move, keep, move);
    CarrySame(s, Both(keep, move, keep), Then(move, move), keep, move);
  }

  lemma CarryWithout<A, B>(s: seq<A>, j: nat, keep: A -> bool, move: A -> B)
    requires j < |s|
    ensures multiset(Carry(s, keep, move)) ==
            multiset(Carry(s[..j] + s[j + 1..], keep, move)) + multiset(Carry([s[j]], keep, move))
  {
    assert s == s[..j] + ([s[j]] + s[j + 1..]);
    CarryConcat(s[..j], [s[j]] + s[j + 1..], keep, move);
    CarryConcat([s[j]], s[j + 1..], keep, move);
    CarryConcat(s[..j], s[j + 1..], keep, move);
  }

  /** Carrying respects reordering. */
  lemma {:induction false} CarryMultiset<A, B>(a: seq<A>, b: seq<A>, keep: A -> bool, move: A -> B)
    requires multiset(a) == multiset(b)
    ensures multiset(Carry(a, keep, move)) == multiset(Carry(b, keep, move))
    decreases |a|
  {
    if a == [] {
      assert |multiset(a)| == |multiset(b)|;
      assert b == a;
    } else {
      var j := MatchHead(a, b);
      CarryMultiset(a[1..], b[..j] + b[j + 1..], keep, move);
      CarryWithout(b, j, keep, move);
      assert a == [a[0]] + a[1..];
      CarryConcat([a[0]], a[1..], keep, move);
    }
  }

  /** Two carries with a settling move are one carry with the joint condition. */
  lemma CarryJoint<A>(s: seq<A>, first: A -> bool, second: A -> bool, joint: A -> bool, move: A -> A)
    requires forall x :: x in s ==> Both(first, move, second)(x) == joint(x) && Then(move, move)(x) == move(x)
    ensures Carry(Carry(s, first, move), second, move) == Carry(s, joint, move)
  {
    CarryCarry(s, first, move, second, move);
    CarrySame(s, Both(first, move, second), Then(move, move), joint, move);
  }
}
