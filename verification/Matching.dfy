/** Maximum bipartite matching by augmenting paths, as the record comparison runs it:
    a recursive search that updates one shared assignment and one shared visited set. */
module Matching {

  /** For each reference index, the candidate indices it may be matched to, in search order. */
  type Compatibility = seq<seq<nat>>

  predicate Accepts(r: nat, c: nat, compatible: Compatibility) {
    r < |compatible| && c in compatible[r]
  }

  ghost predicate InRange(compatible: Compatibility, candidates: nat) {
    forall r: nat, c: nat :: Accepts(r, c, compatible) ==> c < candidates
  }

  /** An injective assignment of reference records to compatible candidates. */
  ghost predicate IsAssignment(m: map<nat, nat>, compatible: Compatibility) {
    && (forall r :: r in m ==> Accepts(r, m[r], compatible))
    && (forall r, s :: r in m && s in m && r != s ==> m[r] != m[s])
  }

  /** `k` references can be matched at once, and no assignment matches more. */
  ghost predicate IsMaximum(k: nat, compatible: Compatibility) {
    && (exists m :: IsAssignment(m, compatible) && |m| == k)
    && (forall m :: IsAssignment(m, compatible) ==> |m| <= k)
  }

  // ---- the search state ----

  ghost predicate HeldBy(c: nat, r: nat, owner: map<nat, nat>) {
    c in owner && owner[c] == r
  }

  ghost predicate Matched(r: nat, owner: map<nat, nat>) {
    exists c: nat :: HeldBy(c, r, owner)
  }

  /** The partial matching the search maintains, keyed by candidate. */
  ghost predicate Consistent(owner: map<nat, nat>, compatible: Compatibility) {
    && (forall c: nat :: c in owner ==> Accepts(owner[c], c, compatible))
    && (forall c: nat, d: nat :: c in owner && d in owner && c != d ==> owner[c] != owner[d])
  }

  /** A set of references that can never gain another candidate: every candidate any of
      them accepts is already owned inside the set. */
  ghost predicate Dead(D: set<nat>, owner: map<nat, nat>, compatible: Compatibility) {
    forall r: nat, c: nat :: r in D && Accepts(r, c, compatible) ==> c in owner && owner[c] in D
  }

  ghost predicate Tried(r: nat, seen: set<nat>, compatible: Compatibility) {
    forall c: nat :: Accepts(r, c, compatible) ==> c in seen
  }

  /** Every candidate in `visited` is owned by a reference all of whose candidates were seen. */
  ghost predicate Stuck(visited: set<nat>, seen: set<nat>, owner: map<nat, nat>, compatible: Compatibility) {
    forall c: nat :: c in visited ==> c in owner && Tried(owner[c], seen, compatible)
  }

  ghost predicate Accepted(owner: map<nat, nat>, compatible: Compatibility) {
    forall c: nat :: c in owner ==> Accepts(owner[c], c, compatible)
  }

  ghost predicate OneMore(before: map<nat, nat>, after: map<nat, nat>) {
    before.Keys <= after.Keys && |after| == |before| + 1
  }

  ghost predicate MatchesAlso(before: map<nat, nat>, after: map<nat, nat>, reference: nat) {
    forall r {:trigger Matched(r, after)} :: Matched(r, after) <==> Matched(r, before) || r == reference
  }

  ghost predicate Untouched(before: map<nat, nat>, after: map<nat, nat>, visited: set<nat>, dead: set<nat>) {
    forall c: nat :: c in before && (c in visited || before[c] in dead) ==> c in after && after[c] == before[c]
  }

  /** Only `reference` may be booked twice, once on a candidate it already held. */
  ghost predicate BookedOnce(before: map<nat, nat>, after: map<nat, nat>, reference: nat) {
    forall c: nat, d: nat :: c in after && d in after && c != d && after[c] == after[d] ==>
      after[c] == reference && (HeldBy(c, reference, before) || HeldBy(d, reference, before))
  }

  ghost predicate NewHome(after: map<nat, nat>, reference: nat, visited: set<nat>) {
    exists c: nat :: c !in visited && HeldBy(c, reference, after)
  }

  /** What a successful search for `reference` does to the owners: one more candidate is owned,
      nobody loses a candidate, candidates seen before or owned by dead references are untouched,
      and only `reference` may be booked twice, on the candidate it held before. */
  ghost predicate Augmented(before: map<nat, nat>, after: map<nat, nat>, reference: nat,
                            visited: set<nat>, dead: set<nat>, compatible: Compatibility)
  {
    && reference !in dead
    && Accepted(after, compatible)
    && OneMore(before, after)
    && MatchesAlso(before, after, reference)
    && NewHome(after, reference, visited)
    && Untouched(before, after, visited, dead)
    && BookedOnce(before, after, reference)
  }

  ghost function Below(n: nat): (s: set<nat>)
    ensures forall c: nat :: c in s <==> c < n
  {
    if n == 0 then {} else Below(n - 1) + {n - 1}
  }

  lemma AugmentedWeaken(before: map<nat, nat>, after: map<nat, nat>, reference: nat,
                        visited: set<nat>, fewer: set<nat>, dead: set<nat>, compatible: Compatibility)
    requires fewer <= visited && Augmented(before, after, reference, visited, dead, compatible)
    ensures Augmented(before, after, reference, fewer, dead, compatible)
  {}

  lemma StuckGrows(seen0: set<nat>, seen1: set<nat>, candidate: nat, seen2: set<nat>,
                   owner: map<nat, nat>, compatible: Compatibility)
    requires seen0 <= seen1 && seen1 + {candidate} <= seen2
    requires Stuck(seen1 - seen0, seen1, owner, compatible)
    requires Stuck(seen2 - (seen1 + {candidate}), seen2, owner, compatible)
    requires candidate in owner && Tried(owner[candidate], seen2, compatible)
    ensures Stuck(seen2 - seen0, seen2, owner, compatible)
  {}

  lemma BookFree(owner: map<nat, nat>, candidate: nat, reference: nat,
                 visited: set<nat>, dead: set<nat>, compatible: Compatibility)
    requires Consistent(owner, compatible) && Dead(dead, owner, compatible)
    requires Accepts(reference, candidate, compatible)
    requires candidate !in visited && candidate !in owner
    ensures Augmented(owner, owner[candidate := reference], reference, visited, dead, compatible)
  {
    var after := owner[candidate := reference];
    assert HeldBy(candidate, reference, after);
    forall r ensures Matched(r, after) <==> Matched(r, owner) || r == reference {
      forall c: nat | HeldBy(c, r, owner) ensures HeldBy(c, r, after) {}
      forall c: nat | HeldBy(c, r, after) && c != candidate ensures HeldBy(c, r, owner) {}
    }
  }

  /** Handing `candidate` over keeps exactly the references matched so far, plus the new one. */
  lemma RehomedMatches(before: map<nat, nat>, middle: map<nat, nat>, candidate: nat, reference: nat, visited: set<nat>)
    requires candidate in before && candidate in middle && candidate in visited
    requires middle[candidate] == before[candidate]
    requires MatchesAlso(before, middle, before[candidate])
    requires NewHome(middle, before[candidate], visited)
    ensures MatchesAlso(before, middle[candidate := reference], reference)
  {
    var previous := before[candidate];
    var after := middle[candidate := reference];
    var home: nat :| home !in visited && HeldBy(home, previous, middle);
    assert HeldBy(candidate, previous, before);
    assert HeldBy(candidate, reference, after);
    forall r ensures Matched(r, after) <==> Matched(r, before) || r == reference {
      assert Matched(r, middle) <==> Matched(r, before) by { assert Matched(previous, before); }
      forall c: nat | HeldBy(c, r, middle) ensures Matched(r, after) {
        assert HeldBy(if c == candidate then home else c, r, after);
      }
      forall c: nat | HeldBy(c, r, after) && c != candidate ensures Matched(r, middle) {
        assert HeldBy(c, r, middle);
      }
    }
  }

  lemma RehomedTwice(before: map<nat, nat>, middle: map<nat, nat>, candidate: nat, reference: nat, other: nat,
                     visited: set<nat>, dead: set<nat>)
    requires candidate in before && before[candidate] != reference
    requires forall c: nat :: HeldBy(c, reference, before) ==> c in visited
    requires MatchesAlso(before, middle, before[candidate])
    requires Untouched(before, middle, visited + {candidate}, dead)
    requires BookedOnce(before, middle, before[candidate])
    requires HeldBy(other, reference, middle) && other != candidate
    ensures HeldBy(other, reference, before)
  {
    assert Matched(reference, middle);
    assert Matched(reference, before);
    var held: nat :| HeldBy(held, reference, before);
    assert held in middle && middle[held] == reference;
  }

  lemma RehomedBookedOnce(before: map<nat, nat>, middle: map<nat, nat>, candidate: nat, reference: nat,
                          visited: set<nat>, dead: set<nat>)
    requires forall c: nat, d: nat :: c in before && d in before && c != d ==> before[c] != before[d]
    requires candidate in before && candidate !in visited
    requires forall c: nat :: HeldBy(c, reference, before) ==> c in visited
    requires MatchesAlso(before, middle, before[candidate])
    requires Untouched(before, middle, visited + {candidate}, dead)
    requires BookedOnce(before, middle, before[candidate])
    ensures BookedOnce(before, middle[candidate := reference], reference)
  {
    var after := middle[candidate := reference];
    assert before[candidate] != reference by { assert HeldBy(candidate, before[candidate], before); }
    forall c: nat, d: nat | c in after && d in after && c != d && after[c] == after[d]
      ensures after[c] == reference && (HeldBy(c, reference, before) || HeldBy(d, reference, before))
    {
      if c != candidate && d != candidate {
        assert false;
      } else {
        RehomedTwice(before, middle, candidate, reference, if c == candidate then d else c, visited, dead);
      }
    }
  }

  lemma BookRehomed(before: map<nat, nat>, middle: map<nat, nat>, candidate: nat, reference: nat,
                    visited: set<nat>, dead: set<nat>, compatible: Compatibility)
    requires Consistent(before, compatible) && Dead(dead, before, compatible)
    requires Accepts(reference, candidate, compatible)
    requires candidate !in visited && candidate in before
    requires forall c: nat :: HeldBy(c, reference, before) ==> c in visited
    requires Augmented(before, middle, before[candidate], visited + {candidate}, dead, compatible)
    ensures Augmented(before, middle[candidate := reference], reference, visited, dead, compatible)
  {
    var after := middle[candidate := reference];
    RehomedMatches(before, middle, candidate, reference, visited + {candidate});
    RehomedBookedOnce(before, middle, candidate, reference, visited, dead);
    assert reference !in dead by { assert before[candidate] !in dead; }
    assert after.Keys == middle.Keys;
    assert NewHome(after, reference, visited) by { assert HeldBy(candidate, reference, after); }
    assert Accepted(after, compatible);
  }

  class Search {
    const compatible: Compatibility
    const candidates: nat
    var owner: map<nat, nat>
    var seen: set<nat>

    constructor (compatible: Compatibility, candidates: nat)
      ensures this.compatible == compatible && this.candidates == candidates
      ensures owner == map[] && seen == {}
    {
      this.compatible := compatible;
      this.candidates := candidates;
      owner, seen := map[], {};
    }

    ghost predicate Ready()
      reads this
    {
      InRange(compatible, candidates) && Consistent(owner, compatible) && seen <= Below(candidates)
    }

    /** Search for a candidate for `reference`, re-homing earlier owners on the way.
        `dead` is any exhausted set: the search never disturbs what it owns. */
    method Augment(reference: nat, ghost dead: set<nat>) returns (found: bool)
      requires Ready()
      requires reference < |compatible|
      requires forall c: nat :: HeldBy(c, reference, owner) ==> c in seen
      requires Dead(dead, owner, compatible)
      modifies this
      ensures old(seen) <= seen <= Below(candidates)
      ensures found ==> Augmented(old(owner), owner, reference, old(seen), dead, compatible)
      ensures !found ==> owner == old(owner) && Tried(reference, seen, compatible)
      ensures !found ==> Stuck(seen - old(seen), seen, owner, compatible)
      decreases Below(candidates) - seen
    {
      ghost var owner0, seen0 := owner, seen;
      for i := 0 to |compatible[reference]|
        invariant owner == owner0 && seen0 <= seen <= Below(candidates)
        invariant forall j :: 0 <= j < i ==> compatible[reference][j] in seen
        invariant Stuck(seen - seen0, seen, owner, compatible)
      {
        var candidate := compatible[reference][i];
        if candidate in seen { continue; }
        assert Accepts(reference, candidate, compatible);
        ghost var visited := seen;
        seen := seen + {candidate};
        if candidate !in owner {
          BookFree(owner, candidate, reference, seen0, dead, compatible);
          owner := owner[candidate := reference];
          return true;
        }
        var previous := owner[candidate];
        var rehomed := Augment(previous, dead);
        if rehomed {
          BookRehomed(owner0, owner, candidate, reference, visited, dead, compatible);
          owner := owner[candidate := reference];
          AugmentedWeaken(owner0, owner, reference, visited, seen0, dead, compatible);
          return true;
        }
        StuckGrows(seen0, visited, candidate, seen, owner, compatible);
      }
      return false;
    }

    /** Start one search with a fresh visited set, and enlarge the exhausted set when it fails. */
    method MatchOne(reference: nat, ghost dead: set<nat>) returns (found: bool, ghost exhausted: set<nat>)
      requires InRange(compatible, candidates) && Consistent(owner, compatible)
      requires Dead(dead, owner, compatible)
      requires reference < |compatible| && !Matched(reference, owner)
      modifies this
      ensures Consistent(owner, compatible)
      ensures Dead(exhausted, owner, compatible) && dead <= exhausted
      ensures found ==> |owner| == |old(owner)| + 1 && MatchesAlso(old(owner), owner, reference)
      ensures !found ==> owner == old(owner) && reference in exhausted
    {
      seen := {};
      ghost var before := owner;
      found := Augment(reference, dead);
      if found {
        BookedOnceInjective(before, owner, reference);
        UntouchedDead(before, owner, dead, compatible);
        exhausted := dead;
      } else {
        DeadGrows(dead, reference, seen, owner, compatible);
        exhausted := Reached(dead, reference, seen, owner);
      }
    }
  }

  // ---- the certificate ----

  ghost function Reached(dead: set<nat>, r: nat, seen: set<nat>, owner: map<nat, nat>): set<nat> {
    dead + {r} + set c | c in seen && c in owner :: owner[c]
  }

  /** A failed search adds everything it reached to the exhausted set. */
  lemma DeadGrows(dead: set<nat>, r: nat, seen: set<nat>, owner: map<nat, nat>, compatible: Compatibility)
    requires Dead(dead, owner, compatible)
    requires Tried(r, seen, compatible) && Stuck(seen, seen, owner, compatible)
    ensures Dead(Reached(dead, r, seen, owner), owner, compatible)
  {
    var grown := Reached(dead, r, seen, owner);
    forall s: nat, c: nat | s in grown && Accepts(s, c, compatible) ensures c in owner && owner[c] in grown {
      if s !in dead && s != r {
        var d: nat :| d in seen && d in owner && s == owner[d];
        assert Tried(owner[d], seen, compatible);
      }
    }
  }

  lemma BookedOnceInjective(before: map<nat, nat>, after: map<nat, nat>, r: nat)
    requires BookedOnce(before, after, r) && !Matched(r, before)
    ensures forall c: nat, d: nat :: c in after && d in after && c != d ==> after[c] != after[d]
  {
    forall c: nat ensures !HeldBy(c, r, before) {}
  }

  lemma UntouchedDead(before: map<nat, nat>, after: map<nat, nat>, dead: set<nat>, compatible: Compatibility)
    requires Dead(dead, before, compatible) && Untouched(before, after, {}, dead)
    ensures Dead(dead, after, compatible)
  {}

  lemma {:induction false} InjectionCard<K, V>(f: map<K, V>, into: set<V>)
    requires forall k :: k in f ==> f[k] in into
    requires forall k, l :: k in f && l in f && k != l ==> f[k] != f[l]
    ensures |f| <= |into|
    decreases |f|
  {
    if f != map[] {
      var k :| k in f;
      var rest := f - {k};
      assert f.Keys == rest.Keys + {k};
      InjectionCard(rest, into - {f[k]});
    }
  }

  ghost function Holder(r: nat, owner: map<nat, nat>): (c: nat)
    requires Matched(r, owner)
    ensures HeldBy(c, r, owner)
  {
    var c: nat :| HeldBy(c, r, owner); c
  }

  lemma UpperBound(m: map<nat, nat>, owner: map<nat, nat>, dead: set<nat>, compatible: Compatibility)
    requires Dead(dead, owner, compatible) && IsAssignment(m, compatible)
    requires forall r: nat :: r < |compatible| ==> Matched(r, owner) || r in dead
    ensures |m| <= |owner|
  {
    forall r: nat | r in m ensures r in dead || Matched(r, owner) { assert Accepts(r, m[r], compatible); }
    var cover := map r: nat | r in m :: if r in dead then m[r] else Holder(r, owner);
    forall r: nat | r in m ensures cover[r] in owner && (owner[cover[r]] in dead <==> r in dead) {
      assert Accepts(r, m[r], compatible);
    }
    forall r: nat, s: nat | r in m && s in m && r != s ensures cover[r] != cover[s] {
      if r !in dead && s !in dead { assert owner[cover[r]] == r; }
    }
    assert cover.Keys == m.Keys;
    InjectionCard(cover, owner.Keys);
  }

  lemma OwnersAssign(owner: map<nat, nat>, compatible: Compatibility) returns (m: map<nat, nat>)
    requires Consistent(owner, compatible)
    ensures IsAssignment(m, compatible) && |m| == |owner|
  {
    forall c: nat | c in owner ensures Matched(owner[c], owner) { assert HeldBy(c, owner[c], owner); }
    m := map r: nat | r in owner.Values && Matched(r, owner) :: Holder(r, owner);
    forall r: nat | r in m ensures m[r] in owner && owner[m[r]] == r {}
    forall c: nat | c in owner ensures owner[c] in m {}
    InjectionCard(m, owner.Keys);
    InjectionCard(owner, m.Keys);
  }

  /** König's argument: when every reference is matched or exhausted, no assignment is larger
      than the current one. */
  lemma Certificate(owner: map<nat, nat>, dead: set<nat>, compatible: Compatibility)
    requires Consistent(owner, compatible) && Dead(dead, owner, compatible)
    requires forall r: nat :: r < |compatible| ==> Matched(r, owner) || r in dead
    ensures IsMaximum(|owner|, compatible)
  {
    forall m | IsAssignment(m, compatible) ensures |m| <= |owner| { UpperBound(m, owner, dead, compatible); }
    var m := OwnersAssign(owner, compatible);
  }

  // ---- the order in which references are tried ----

  function Degree(r: nat, compatible: Compatibility): nat {
    if r < |compatible| then |compatible[r]| else 0
  }

  /** Stable insertion: `r` goes before the first reference with at least as many candidates. */
  function InsertByDegree(r: nat, order: seq<nat>, compatible: Compatibility): (out: seq<nat>)
    ensures multiset(out) == multiset(order) + multiset{r}
  {
    if order == [] || Degree(r, compatible) <= Degree(order[0], compatible) then [r] + order
    else
      assert order == [order[0]] + order[1..];
      [order[0]] + InsertByDegree(r, order[1..], compatible)
  }

  function Indices(lo: nat, hi: nat): (out: seq<nat>)
    requires lo <= hi
    ensures forall r: nat :: multiset(out)[r] == if lo <= r < hi then 1 else 0
    decreases hi - lo
  {
    if lo == hi then [] else [lo] + Indices(lo + 1, hi)
  }

  function SortByDegree(indices: seq<nat>, compatible: Compatibility): (out: seq<nat>)
    ensures multiset(out) == multiset(indices)
  {
    if indices == [] then []
    else
      assert indices == [indices[0]] + indices[1..];
      InsertByDegree(indices[0], SortByDegree(indices[1..], compatible), compatible)
  }

  /** Progress of the outer loop: the first `k` references of `order` are matched or exhausted,
      the others hold nothing yet. */
  ghost predicate Processed(order: seq<nat>, k: nat, owner: map<nat, nat>, dead: set<nat>) {
    && (forall j :: 0 <= j < k <= |order| ==> Matched(order[j], owner) || order[j] in dead)
    && (forall j :: k <= j < |order| ==> !Matched(order[j], owner))
  }

  /** `order` lists each index below `n` exactly once. */
  ghost predicate Enumerates(order: seq<nat>, n: nat) {
    && (forall i :: 0 <= i < |order| ==> order[i] < n)
    && (forall r: nat :: r < n ==> r in order)
    && (forall i, j :: 0 <= i < j < |order| ==> order[i] != order[j])
  }

  lemma ProcessedMatched(order: seq<nat>, k: nat, before: map<nat, nat>, after: map<nat, nat>, dead: set<nat>)
    requires k < |order| && Processed(order, k, before, dead) && MatchesAlso(before, after, order[k])
    requires forall i, j :: 0 <= i < j < |order| ==> order[i] != order[j]
    ensures Processed(order, k + 1, after, dead)
  {}

  lemma ProcessedExhausted(order: seq<nat>, k: nat, owner: map<nat, nat>, dead: set<nat>, exhausted: set<nat>)
    requires k < |order| && Processed(order, k, owner, dead) && dead <= exhausted && order[k] in exhausted
    ensures Processed(order, k + 1, owner, exhausted)
  {}

  lemma AllProcessed(order: seq<nat>, owner: map<nat, nat>, dead: set<nat>, compatible: Compatibility)
    requires Enumerates(order, |compatible|) && Processed(order, |order|, owner, dead)
    requires Consistent(owner, compatible) && Dead(dead, owner, compatible)
    ensures IsMaximum(|owner|, compatible)
  {
    forall r: nat | r < |compatible| ensures Matched(r, owner) || r in dead {
      assert r in order;
    }
    Certificate(owner, dead, compatible);
  }

  method ByDegree(compatible: Compatibility) returns (order: seq<nat>)
    ensures Enumerates(order, |compatible|)
  {
    order := SortByDegree(Indices(0, |compatible|), compatible);
    OrderCovers(order, |compatible|);
  }

  /** Match every reference once, fewest candidates first. The count is a maximum: one pass
      suffices, because a reference that failed can never be matched later. */
  method MaximumMatching(compatible: Compatibility, candidates: nat) returns (matched: nat)
    requires InRange(compatible, candidates)
    ensures IsMaximum(matched, compatible)
  {
    var search := new Search(compatible, candidates);
    var order := ByDegree(compatible);
    matched := 0;
    ghost var dead: set<nat> := {};
    for k := 0 to |order|
      invariant search.compatible == compatible && search.candidates == candidates
      invariant fresh(search)
      invariant Consistent(search.owner, compatible) && Dead(dead, search.owner, compatible)
      invariant matched == |search.owner|
      invariant Processed(order, k, search.owner, dead)
    {
      ghost var before := search.owner;
      var found: bool;
      ghost var exhausted;
      found, exhausted := search.MatchOne(order[k], dead);
      if found {
        matched := matched + 1;
        ProcessedMatched(order, k, before, search.owner, dead);
        ProcessedGrows(order, k + 1, search.owner, dead, exhausted);
      } else {
        ProcessedExhausted(order, k, before, dead, exhausted);
      }
      dead := exhausted;
    }
    AllProcessed(order, search.owner, dead, compatible);
  }

  lemma ProcessedGrows(order: seq<nat>, k: nat, owner: map<nat, nat>, dead: set<nat>, exhausted: set<nat>)
    requires Processed(order, k, owner, dead) && dead <= exhausted
    ensures Processed(order, k, owner, exhausted)
  {}

  lemma OrderCovers(order: seq<nat>, n: nat)
    requires multiset(order) == multiset(Indices(0, n))
    ensures Enumerates(order, n)
  {
    forall r: nat ensures r < n <==> r in order {
      assert r in order <==> multiset(order)[r] > 0;
    }
    forall i | 0 <= i < |order| ensures order[i] < n { assert order[i] in order; }
    forall i, j | 0 <= i < j < |order| ensures order[i] != order[j] {
      assert order == order[..i] + [order[i]] + order[i + 1..j] + [order[j]] + order[j + 1..];
      assert multiset(order)[order[i]] <= 1;
    }
  }

  /** The number found does not depend on the search: two maxima are equal. */
  lemma MaximumIsUnique(k: nat, l: nat, compatible: Compatibility)
    requires IsMaximum(k, compatible) && IsMaximum(l, compatible)
    ensures k == l
  {
    var m :| IsAssignment(m, compatible) && |m| == k;
    var n :| IsAssignment(n, compatible) && |n| == l;
    assert |m| <= l && |n| <= k;
  }
}
