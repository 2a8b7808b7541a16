/** Pairing the records of one collection with different records of another. */
module Pairings {
  import opened Json
  import opened Sequences
  import opened PreservedRecords

  /** Every record of `a` has a record of `b` of its own that it goes with. */
  ghost predicate Held<T(!new)>(a: seq<T>, b: seq<T>, fits: (T, T) -> bool) {
    exists p :: IsHolding(p, a, b, fits)
  }

  ghost predicate IsHolding<T(!new)>(p: seq<nat>, a: seq<T>, b: seq<T>, fits: (T, T) -> bool) {
    IsInjection(p, |a|, |b|) && forall i :: 0 <= i < |a| ==> fits(a[i], b[p[i]])
  }

  /** The records of the two collections correspond one to one. */
  ghost predicate Paired<T(!new)>(a: seq<T>, b: seq<T>, fits: (T, T) -> bool) {
    |a| == |b| && Held(a, b, fits)
  }

  ghost function Through(r: seq<nat>, q: seq<nat>, p: seq<nat>): (s: seq<nat>)
    requires forall i :: 0 <= i < |p| ==> p[i] < |q| && q[p[i]] < |r|
    ensures |s| == |p| && forall i :: 0 <= i < |p| ==> s[i] == r[q[p[i]]]
  {
    seq(|p|, i requires 0 <= i < |p| => r[q[p[i]]])
  }

  /** Whether records are held does not depend on the order of either collection. */
  lemma HeldRearranged<T(!new)>(a: seq<T>, b: seq<T>, c: seq<T>, d: seq<T>, fits: (T, T) -> bool)
    requires multiset(a) == multiset(c) && multiset(b) == multiset(d) && Held(a, b, fits)
    ensures Held(c, d, fits)
  {
    var p := Rearrangement(c, a);
    var q :| IsHolding(q, a, b, fits);
    var r := Rearrangement(b, d);
    var s := Through(r, q, p);
    ThroughInjection(r, q, p, |d|);
    forall i | 0 <= i < |c| ensures fits(c[i], d[s[i]]) {
      assert a[p[i]] == c[i] && d[r[q[p[i]]]] == b[q[p[i]]];
    }
    assert IsHolding(s, c, d, fits);
  }

  lemma ThroughInjection(r: seq<nat>, q: seq<nat>, p: seq<nat>, n: nat)
    requires IsInjection(p, |p|, |q|) && IsInjection(q, |q|, |r|) && IsInjection(r, |r|, n)
    ensures IsInjection(Through(r, q, p), |p|, n)
  {
    var s := Through(r, q, p);
    forall i, j | 0 <= i < j < |p| ensures s[i] != s[j] {
      assert p[i] != p[j];
      assert q[p[i]] != q[p[j]];
    }
  }

  /** Records are held as their images are. */
  lemma HeldMapped<A(!new), B(!new)>(a: seq<A>, b: seq<A>, f: A -> B, fits: (B, B) -> bool, fits': (A, A) -> bool)
    requires forall x, y :: fits(f(x), f(y)) <==> fits'(x, y)
    ensures Held(MapSeq(a, f), MapSeq(b, f), fits) <==> Held(a, b, fits')
  {
    if Held(MapSeq(a, f), MapSeq(b, f), fits) {
      var p :| IsHolding(p, MapSeq(a, f), MapSeq(b, f), fits);
      forall i | 0 <= i < |a| ensures fits'(a[i], b[p[i]]) { assert fits(MapSeq(a, f)[i], MapSeq(b, f)[p[i]]); }
      assert IsHolding(p, a, b, fits');
    }
    if Held(a, b, fits') {
      var p :| IsHolding(p, a, b, fits');
      forall i | 0 <= i < |a| ensures fits(MapSeq(a, f)[i], MapSeq(b, f)[p[i]]) { assert fits'(a[i], b[p[i]]); }
      assert IsHolding(p, MapSeq(a, f), MapSeq(b, f), fits);
    }
  }

  // ---- one to one correspondences are reorderings ----

  ghost function Closing(j: nat, p: seq<nat>): (q: seq<nat>)
    ensures |q| == |p| && forall i :: 0 <= i < |p| ==> q[i] == if p[i] > j then p[i] - 1 else p[i]
  {
    seq(|p|, i requires 0 <= i < |p| => if p[i] > j then p[i] - 1 else p[i])
  }

  lemma {:induction false} RearrangedBack<T(!new)>(a: seq<T>, b: seq<T>, p: seq<nat>)
    requires |a| == |b| && IsInjection(p, |a|, |b|) && forall i :: 0 <= i < |a| ==> a[i] == b[p[i]]
    ensures multiset(a) == multiset(b)
    decreases |a|
  {
    if a != [] {
      var n, j := |a| - 1, p[|a| - 1];
      var rest := b[..j] + b[j + 1..];
      var q := Closing(j, p[..n]);
      forall i | 0 <= i < n ensures q[i] < n && a[..n][i] == rest[q[i]] { assert p[i] != p[n]; }
      forall i, k | 0 <= i < k < n ensures q[i] != q[k] { assert p[i] != p[k] && p[i] != p[n] && p[k] != p[n]; }
      RearrangedBack(a[..n], rest, q);
      WithoutIndex(b, j);
      assert a == a[..n] + [a[n]];
      assert b[j] in multiset(b);
    }
  }

  /** Two collections hold the same records, each as often, exactly when their records correspond one
      to one. */
  lemma SameRecordsPaired<T(!new)>(a: seq<T>, b: seq<T>)
    ensures multiset(a) == multiset(b) <==> Paired(a, b, (x, y) => x == y)
  {
    if multiset(a) == multiset(b) {
      var p := Rearrangement(a, b);
      assert IsHolding(p, a, b, (x, y) => x == y);
    }
    if Paired(a, b, (x, y) => x == y) {
      var p :| IsHolding(p, a, b, (x, y) => x == y);
      RearrangedBack(a, b, p);
    }
  }

  /** Images agree as collections exactly when the records correspond one to one. */
  lemma ImagesPaired<A(!new), B(!new)>(a: seq<A>, b: seq<A>, f: A -> B, same: (A, A) -> bool)
    requires forall x, y :: f(x) == f(y) <==> same(x, y)
    ensures multiset(MapSeq(a, f)) == multiset(MapSeq(b, f)) <==> Paired(a, b, same)
  {
    SameRecordsPaired(MapSeq(a, f), MapSeq(b, f));
    HeldMapped(a, b, f, (x, y) => x == y, same);
  }

  /** A full pairing of canonical records, in whatever order, is one of the raw records. */
  lemma FormsHeld(a: seq<Value>, b: seq<Value>, f: Value -> Value, left: seq<Value>, right: seq<Value>,
                  rule: Rule, fits: (Value, Value) -> bool)
    requires multiset(left) == multiset(MapSeq(a, f)) && multiset(right) == multiset(MapSeq(b, f))
    requires forall x, y :: ValuePreserved(f(x), f(y), rule) <==> fits(x, y)
    ensures (exists p :: IsFullPairing(p, left, right, rule)) <==> Held(a, b, fits)
  {
    var kept := (x, y) => ValuePreserved(x, y, rule);
    HeldMapped(a, b, f, kept, fits);
    if p :| IsFullPairing(p, left, right, rule) {
      assert IsHolding(p, left, right, kept);
      HeldRearranged(left, right, MapSeq(a, f), MapSeq(b, f), kept);
    }
    if Held(a, b, fits) {
      HeldRearranged(MapSeq(a, f), MapSeq(b, f), left, right, kept);
      var p :| IsHolding(p, left, right, kept);
      assert IsFullPairing(p, left, right, rule);
    }
  }
}
