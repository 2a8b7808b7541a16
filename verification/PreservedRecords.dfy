/** Counting the reference records a candidate collection preserves, with multiplicity. */
module PreservedRecords {
  import opened Json
  import opened Matching
  import opened Sequences

  /** Distinct reference records paired with distinct candidate records that contain them. */
  ghost predicate IsPairing(m: map<nat, nat>, reference: seq<Value>, candidate: seq<Value>, rule: Rule) {
    && (forall r :: r in m ==>
          r < |reference| && m[r] < |candidate| && ValuePreserved(reference[r], candidate[m[r]], rule))
    && (forall r, s :: r in m && s in m && r != s ==> m[r] != m[s])
  }

  /** `k` is the largest number of reference records that can be preserved at the same time. */
  ghost predicate IsPreservedCount(k: nat, reference: seq<Value>, candidate: seq<Value>, rule: Rule) {
    && (exists m :: IsPairing(m, reference, candidate, rule) && |m| == k)
    && (forall m :: IsPairing(m, reference, candidate, rule) ==> |m| <= k)
  }

  /** The candidates at or after `from` that contain `record`, in order. */
  function CandidatesFor(record: Value, candidate: seq<Value>, rule: Rule, from: nat := 0): (indices: seq<nat>)
    requires from <= |candidate|
    ensures forall c: nat :: c in indices <==>
              from <= c < |candidate| && ValuePreserved(record, candidate[c], rule)
    decreases |candidate| - from
  {
    if from == |candidate| then []
    else
      var rest := CandidatesFor(record, candidate, rule, from + 1);
      if ValuePreserved(record, candidate[from], rule) then [from] + rest else rest
  }

  function CompatibleLists(reference: seq<Value>, candidate: seq<Value>, rule: Rule): (lists: Compatibility)
    ensures |lists| == |reference|
  {
    seq(|reference|, r requires 0 <= r < |reference| => CandidatesFor(reference[r], candidate, rule))
  }

  lemma PairingIsAssignment(m: map<nat, nat>, reference: seq<Value>, candidate: seq<Value>, rule: Rule)
    ensures IsPairing(m, reference, candidate, rule) <==>
            IsAssignment(m, CompatibleLists(reference, candidate, rule))
  {
    var lists := CompatibleLists(reference, candidate, rule);
    forall r: nat, c: nat
      ensures Accepts(r, c, lists) <==>
              r < |reference| && c < |candidate| && ValuePreserved(reference[r], candidate[c], rule)
    {}
  }

  method PreservedRecordCount(reference: seq<Value>, candidate: seq<Value>, rule: Rule) returns (matched: nat)
    ensures IsPreservedCount(matched, reference, candidate, rule)
  {
    var compatible := CompatibleLists(reference, candidate, rule);
    matched := MaximumMatching(compatible, |candidate|);
    forall m ensures IsPairing(m, reference, candidate, rule) <==> IsAssignment(m, compatible) {
      PairingIsAssignment(m, reference, candidate, rule);
    }
    ghost var m :| IsAssignment(m, compatible) && |m| == matched;
    assert IsPairing(m, reference, candidate, rule);
  }

  // ---- rearranging either collection ----

  /** `p` sends each position of `a` to a different position of `b`. */
  ghost predicate IsInjection(p: seq<nat>, a: nat, b: nat) {
    |p| == a && (forall i :: 0 <= i < a ==> p[i] < b) && (forall i, j :: 0 <= i < j < a ==> p[i] != p[j])
  }

  /** Prepend `j` to an injection that was computed with position `j` removed. */
  ghost function Skipping(j: nat, q: seq<nat>): (p: seq<nat>)
    ensures |p| == |q| + 1 && p[0] == j
    ensures forall i :: 1 <= i < |p| ==> p[i] == if q[i - 1] < j then q[i - 1] else q[i - 1] + 1
  {
    [j] + seq(|q|, i requires 0 <= i < |q| => if q[i] < j then q[i] else q[i] + 1)
  }

  lemma SkippingInjection(j: nat, q: seq<nat>, b: nat)
    requires IsInjection(q, |q|, b) && j <= b
    ensures IsInjection(Skipping(j, q), |q| + 1, b + 1)
  {}

  lemma RearrangementStep<T>(a: seq<T>, b: seq<T>, j: nat, q: seq<nat>)
    requires a != [] && j < |b| && b[j] == a[0] && |q| == |a| - 1
    requires forall i :: 0 <= i < |q| ==> q[i] < |b| - 1 && (b[..j] + b[j + 1..])[q[i]] == a[1..][i]
    ensures forall i :: 0 <= i < |a| ==> Skipping(j, q)[i] < |b| && b[Skipping(j, q)[i]] == a[i]
  {
    var p := Skipping(j, q);
    forall i | 0 <= i < |a| ensures p[i] < |b| && b[p[i]] == a[i] {
      if i > 0 { assert (b[..j] + b[j + 1..])[q[i - 1]] == a[1..][i - 1]; }
    }
  }

  lemma {:induction false} Rearrangement<T>(a: seq<T>, b: seq<T>) returns (p: seq<nat>)
    requires multiset(a) == multiset(b)
    ensures |a| == |b| && IsInjection(p, |a|, |b|)
    ensures forall i :: 0 <= i < |a| ==> b[p[i]] == a[i]
    decreases |a|
  {
    if a == [] {
      assert |multiset(a)| == |multiset(b)|;
      return [];
    }
    var j := MatchHead(a, b);
    var q := Rearrangement(a[1..], b[..j] + b[j + 1..]);
    SkippingInjection(j, q, |b| - 1);
    RearrangementStep(a, b, j, q);
    p := Skipping(j, q);
  }

  /** Move a pairing along injections of the two sides. */
  lemma {:induction false} Transport(m: map<nat, nat>, p: seq<nat>, q: seq<nat>, a: nat, b: nat)
    returns (m': map<nat, nat>)
    requires IsInjection(p, |p|, a) && IsInjection(q, |q|, b)
    requires forall r :: r in m ==> r < |p| && m[r] < |q|
    ensures |m'| == |m|
    ensures forall s :: s in m' ==> exists r :: r in m && s == p[r] && m'[s] == q[m[r]]
    decreases |m|
  {
    if m == map[] { return map[]; }
    var r :| r in m;
    var rest := m - {r};
    assert m.Keys == rest.Keys + {r};
    var moved := Transport(rest, p, q, a, b);
    assert p[r] !in moved;
    m' := moved[p[r] := q[m[r]]];
    forall s | s in m' ensures exists t :: t in m && s == p[t] && m'[s] == q[m[t]] {
      if s in moved {
        var t :| t in rest && s == p[t] && moved[s] == q[rest[t]];
        assert t in m && m[t] == rest[t];
      }
    }
  }

  lemma RearrangedPairing(m: map<nat, nat>, reference: seq<Value>, candidate: seq<Value>,
                          reference': seq<Value>, candidate': seq<Value>, rule: Rule)
    returns (m': map<nat, nat>)
    requires multiset(reference) == multiset(reference') && multiset(candidate) == multiset(candidate')
    requires IsPairing(m, reference, candidate, rule)
    ensures IsPairing(m', reference', candidate', rule) && |m'| == |m|
  {
    var p := Rearrangement(reference, reference');
    var q := Rearrangement(candidate, candidate');
    m' := Transport(m, p, q, |reference'|, |candidate'|);
  }

  /** The count is a property of the two multisets of records: reordering either side never
      changes it. */
  lemma CountIgnoresOrder(k: nat, reference: seq<Value>, candidate: seq<Value>,
                          k': nat, reference': seq<Value>, candidate': seq<Value>, rule: Rule)
    requires multiset(reference) == multiset(reference') && multiset(candidate) == multiset(candidate')
    requires IsPreservedCount(k, reference, candidate, rule)
    requires IsPreservedCount(k', reference', candidate', rule)
    ensures k == k'
  {
    var m :| IsPairing(m, reference, candidate, rule) && |m| == k;
    var n := RearrangedPairing(m, reference, candidate, reference', candidate', rule);
    var m' :| IsPairing(m', reference', candidate', rule) && |m'| == k';
    var n' := RearrangedPairing(m', reference', candidate', reference, candidate, rule);
  }

  // ---- full preservation ----

  /** Every reference record preserved by a candidate of its own. */
  ghost predicate IsFullPairing(p: seq<nat>, reference: seq<Value>, candidate: seq<Value>, rule: Rule) {
    && IsInjection(p, |reference|, |candidate|)
    && forall i :: 0 <= i < |reference| ==> ValuePreserved(reference[i], candidate[p[i]], rule)
  }

  lemma PairingSize(m: map<nat, nat>, reference: seq<Value>, candidate: seq<Value>, rule: Rule)
    requires IsPairing(m, reference, candidate, rule)
    ensures |m| <= |reference|
    ensures |m| == |reference| ==> exists p :: IsFullPairing(p, reference, candidate, rule)
  {
    BelowCard(|reference|);
    SubsetCard(m.Keys, Below(|reference|));
    if |m| == |reference| {
      assert m.Keys == Below(|reference|);
      var p := seq(|reference|, i requires 0 <= i < |reference| => m[i]);
      assert IsFullPairing(p, reference, candidate, rule);
    }
  }

  lemma FullPairingSize(p: seq<nat>, reference: seq<Value>, candidate: seq<Value>, rule: Rule)
    returns (m: map<nat, nat>)
    requires IsFullPairing(p, reference, candidate, rule)
    ensures IsPairing(m, reference, candidate, rule) && |m| == |reference|
  {
    BelowCard(|reference|);
    m := map i: nat | i in Below(|reference|) :: p[i];
    assert m.Keys == Below(|reference|);
  }

  /** All records are counted as preserved exactly when a full pairing exists. */
  lemma FullCount(k: nat, reference: seq<Value>, candidate: seq<Value>, rule: Rule)
    requires IsPreservedCount(k, reference, candidate, rule)
    ensures k <= |reference|
    ensures k == |reference| <==> exists p :: IsFullPairing(p, reference, candidate, rule)
  {
    var m: map<nat, nat> :| IsPairing(m, reference, candidate, rule) && |m| == k;
    PairingSize(m, reference, candidate, rule);
    if p :| IsFullPairing(p, reference, candidate, rule) {
      var n := FullPairingSize(p, reference, candidate, rule);
    }
  }

  lemma {:induction false} SubsetCard<T>(a: set<T>, b: set<T>)
    requires a <= b
    ensures |a| <= |b|
    ensures |a| == |b| ==> a == b
    decreases |a|
  {
    if a != {} {
      var x :| x in a;
      SubsetCard(a - {x}, b - {x});
      assert a == (a - {x}) + {x} && b == (b - {x}) + {x};
    }
  }

  ghost predicate IntoItself(h: seq<nat>) {
    forall i :: 0 <= i < |h| ==> h[i] < |h|
  }

  ghost function Iterate(h: seq<nat>, i: nat, k: nat): (j: nat)
    requires IntoItself(h) && i < |h|
    ensures j < |h|
  {
    if k == 0 then i else h[Iterate(h, i, k - 1)]
  }

  lemma BelowCard(n: nat)
    ensures |Below(n)| == n
  {
    if n > 0 { BelowCard(n - 1); }
  }

  lemma {:induction false} IterateBack(h: seq<nat>, i: nat, a: nat, b: nat)
    requires IsInjection(h, |h|, |h|) && i < |h| && a <= b
    requires Iterate(h, i, a) == Iterate(h, i, b)
    ensures Iterate(h, i, b - a) == i
    decreases a
  {
    if a > 0 {
      var x, y := Iterate(h, i, a - 1), Iterate(h, i, b - 1);
      assert h[x] == h[y];
      IterateBack(h, i, a - 1, b - 1);
    }
  }

  lemma Pigeonhole(f: map<nat, nat>, into: set<nat>) returns (a: nat, b: nat)
    requires |f| > |into| && forall k :: k in f ==> f[k] in into
    ensures a in f && b in f && a < b && f[a] == f[b]
  {
    if forall k, l :: k in f && l in f && k != l ==> f[k] != f[l] {
      InjectionCard(f, into);
      assert false;
    }
    var k, l :| k in f && l in f && k != l && f[k] == f[l];
    a, b := if k < l then k else l, if k < l then l else k;
  }

  ghost function Visits(h: seq<nat>, i: nat, n: nat): (f: map<nat, nat>)
    requires IntoItself(h) && i < |h|
    ensures f.Keys == Below(n)
    ensures forall k :: k in f ==> f[k] == Iterate(h, i, k)
  {
    if n == 0 then map[] else Visits(h, i, n - 1)[n - 1 := Iterate(h, i, n - 1)]
  }

  lemma PigeonholeBelow(f: map<nat, nat>, n: nat) returns (a: nat, b: nat)
    requires f.Keys == Below(n + 1) && forall k :: k in f ==> f[k] < n
    ensures a in f && b in f && a < b && f[a] == f[b]
  {
    BelowCard(n);
    BelowCard(n + 1);
    assert |f| == |f.Keys|;
    a, b := Pigeonhole(f, Below(n));
  }

  lemma Revisited(h: seq<nat>, i: nat) returns (a: nat, b: nat)
    requires IntoItself(h) && i < |h|
    ensures a < b && Iterate(h, i, a) == Iterate(h, i, b)
  {
    var f := Visits(h, i, |h| + 1);
    a, b := PigeonholeBelow(f, |h|);
  }

  /** An injection of a finite range into itself returns to every starting point. */
  lemma Orbit(h: seq<nat>, i: nat) returns (k: nat)
    requires IsInjection(h, |h|, |h|) && i < |h|
    ensures k > 0 && Iterate(h, i, k) == i
  {
    var a, b := Revisited(h, i);
    IterateBack(h, i, a, b);
    k := b - a;
  }

  lemma {:induction false} ChainPreserved(records: seq<Value>, h: seq<nat>, i: nat, k: nat, rule: Rule)
    requires |h| == |records| && IsInjection(h, |h|, |h|) && i < |h|
    requires forall j :: 0 <= j < |h| ==> ValuePreserved(records[j], records[h[j]], rule)
    ensures ValuePreserved(records[i], records[Iterate(h, i, k)], rule)
    decreases k
  {
    if k == 0 {
      PreservedReflexive(records[i], rule);
    } else {
      ChainPreserved(records, h, i, k - 1, rule);
      PreservedTransitive(records[i], records[Iterate(h, i, k - 1)], records[Iterate(h, i, k)], rule);
    }
  }

  /** The round trip left, right, left. */
  ghost function RoundTrip(f: seq<nat>, g: seq<nat>): (h: seq<nat>)
    requires IsInjection(f, |f|, |g|) && IsInjection(g, |g|, |f|)
    ensures IsInjection(h, |f|, |f|) && forall i :: 0 <= i < |f| ==> h[i] == g[f[i]]
  {
    seq(|f|, i requires 0 <= i < |f| => g[f[i]])
  }

  lemma RoundTripPreserved(left: seq<Value>, right: seq<Value>, f: seq<nat>, g: seq<nat>, rule: Rule)
    requires IsFullPairing(f, left, right, rule) && IsFullPairing(g, right, left, rule)
    ensures forall i :: 0 <= i < |left| ==> ValuePreserved(left[i], left[RoundTrip(f, g)[i]], rule)
  {
    forall i | 0 <= i < |left| ensures ValuePreserved(left[i], left[RoundTrip(f, g)[i]], rule) {
      PreservedTransitive(left[i], right[f[i]], left[g[f[i]]], rule);
    }
  }

  /** Preservation along a whole orbit comes back to where it started. */
  lemma OrbitPreserved(records: seq<Value>, h: seq<nat>, i: nat, rule: Rule)
    requires |h| == |records| && IsInjection(h, |h|, |h|) && i < |h|
    requires forall j :: 0 <= j < |h| ==> ValuePreserved(records[j], records[h[j]], rule)
    ensures ValuePreserved(records[h[i]], records[i], rule)
  {
    var k := Orbit(h, i);
    IterateShift(h, i, k - 1);
    ChainPreserved(records, h, h[i], k - 1, rule);
  }

  lemma ReturnPreserved(left: seq<Value>, right: seq<Value>, f: seq<nat>, g: seq<nat>, i: nat, rule: Rule)
    requires IsFullPairing(f, left, right, rule) && IsFullPairing(g, right, left, rule)
    requires i < |left|
    ensures ValuePreserved(right[f[i]], left[i], rule)
  {
    RoundTripPreserved(left, right, f, g, rule);
    OrbitPreserved(left, RoundTrip(f, g), i, rule);
    PreservedTransitive(right[f[i]], left[g[f[i]]], left[i], rule);
  }

  /** Two collections that fully preserve each other are equal as multisets up to JSON equality:
      the pairing found in one direction already pairs equal records. */
  lemma MutualFullPreservation(left: seq<Value>, right: seq<Value>, f: seq<nat>, g: seq<nat>, rule: Rule)
    requires IsFullPairing(f, left, right, rule) && IsFullPairing(g, right, left, rule)
    ensures |left| == |right|
    ensures forall i :: 0 <= i < |left| ==> JsonEqual(left[i], right[f[i]], rule.number)
  {
    InjectionLength(f, |left|, |right|);
    InjectionLength(g, |right|, |left|);
    forall i: nat | i < |left| ensures JsonEqual(left[i], right[f[i]], rule.number) {
      ReturnPreserved(left, right, f, g, i, rule);
      MutualPreservation(left[i], right[f[i]], rule);
    }
  }

  lemma InjectionLength(p: seq<nat>, a: nat, b: nat)
    requires IsInjection(p, a, b)
    ensures a <= b
  {
    var f := map i: nat | i < a :: p[i];
    BelowCard(a);
    BelowCard(b);
    assert f.Keys == Below(a);
    InjectionCard(f, Below(b));
  }

  lemma {:induction false} IterateShift(h: seq<nat>, i: nat, k: nat)
    requires IsInjection(h, |h|, |h|) && i < |h|
    ensures Iterate(h, h[i], k) == Iterate(h, i, k + 1)
    decreases k
  {
    if k > 0 { IterateShift(h, i, k - 1); }
  }
}
